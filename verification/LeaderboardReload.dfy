/**
  Saving a leaderboard and loading it back, with the JSON file as the sequence of records it
  holds (src/data_structures/global_boards/leaderboard.hpp:225-327).

  `load` builds its ranking with the default comparator, so a loaded board is highest-first
  whatever direction it was created with.
 */
module LeaderboardReload {
  import opened Wrappers
  import opened Sequences
  import opened Ordering
  import opened Leaderboard

  datatype Record = Record(name: string, score: real, timestamp: int)

  function View(e: Entry): Record {
    Record(e.name, e.score, e.timestamp)
  }

  function Views(rank: seq<Entry>): (r: seq<Record>)
    ensures |r| == |rank| && forall i :: 0 <= i < |rank| ==> r[i] == View(rank[i])
  {
    seq(|rank|, i requires 0 <= i < |rank| => View(rank[i]))
  }

  function Save(b: Board): seq<Record> {
    Views(b.rank)
  }

  /** The loop of `load` from a ranking already built; `None` is the failure on a repeated name. */
  function LoadOnto(rank: seq<Entry>, records: seq<Record>, id: nat): Option<seq<Entry>>
    decreases |records|
  {
    if records == [] then Some(rank)
    else
      var e := Loaded(records[0], id);
      if IndexOf(rank, e.name) < |rank| then None
      else LoadOnto(Insert(Order(true), rank, e), records[1..], id + 1)
  }

  /** One turn of the loop, at record `k` of the first `n`. */
  lemma LoadTurn(rank: seq<Entry>, records: seq<Record>, k: nat, n: nat)
    requires k < n <= |records|
    ensures LoadOnto(rank, records[k..n], k) ==
            if IndexOf(rank, records[k].name) < |rank| then None
            else LoadOnto(Insert(Order(true), rank, Loaded(records[k], k)), records[k + 1..n], k + 1)
  {
  }

  /** `load` looks at no more records than the board has room for. */
  function Cut(maxSize: nat, records: seq<Record>): seq<Record> {
    if |records| > maxSize then records[..maxSize] else records
  }

  /** A board constructed over a file that holds `records`. */
  function Load(highestFirst: bool, maxSize: nat, records: seq<Record>): (b: Board)
    ensures b.maxSize == maxSize
  {
    var front := Cut(maxSize, records);
    match LoadOnto([], front, 0)
    case None => Empty(highestFirst, maxSize)
    case Some(rank) => Board(true, maxSize, rank, |front|)
  }

  function Reload(b: Board): Board {
    Load(b.highestFirst, b.maxSize, Save(b))
  }

  // ----- what a reload keeps -----

  ghost predicate DistinctNames(records: seq<Record>) {
    forall i, j :: 0 <= i < j < |records| ==> records[i].name != records[j].name
  }

  predicate Before(x: Record, y: Record) {
    x.score > y.score || (x.score == y.score && x.timestamp <= y.timestamp)
  }

  /** The records are in the order the default comparator gives, ties by time. */
  ghost predicate InDefaultOrder(records: seq<Record>) {
    forall i, j :: 0 <= i < j < |records| ==> Before(records[i], records[j])
  }

  function Loaded(r: Record, id: nat): Entry {
    Entry(r.name, r.score, r.timestamp, id)
  }

  /** A record that comes after everything loaded so far is appended. */
  lemma InsertAppends(rank: seq<Entry>, r: Record, id: nat)
    requires forall x <- rank :: x.id < id && x.name != r.name && Before(View(x), r)
    ensures IndexOf(rank, r.name) == |rank|
    ensures Insert(Order(true), rank, Loaded(r, id)) == rank + [Loaded(r, id)]
  {
    var e := Loaded(r, id);
    forall j | 0 <= j < |rank| ensures rank[j].name != r.name && !Less(true, e, rank[j]) {
      assert rank[j] in rank;
    }
    InsertAtEnd(Order(true), rank, e);
  }

  /** The entries of consecutive records, numbered from `id`. */
  function Numbered(records: seq<Record>, id: nat): (r: seq<Entry>)
    ensures |r| == |records| && forall i :: 0 <= i < |r| ==> r[i] == Loaded(records[i], id + i)
  {
    seq(|records|, i requires 0 <= i < |records| => Loaded(records[i], id + i))
  }

  lemma NumberedCons(records: seq<Record>, id: nat)
    requires records != []
    ensures Numbered(records, id) == [Loaded(records[0], id)] + Numbered(records[1..], id + 1)
  {
  }

  /** Everything in `rank` precedes every record, in the default order and in its id. */
  ghost predicate Ahead(rank: seq<Entry>, records: seq<Record>, id: nat) {
    forall x <- rank :: x.id < id && forall r <- records :: x.name != r.name && Before(View(x), r)
  }

  lemma AheadOfRest(rank: seq<Entry>, records: seq<Record>, id: nat)
    requires records != [] && Ahead(rank, records, id) && DistinctNames(records) && InDefaultOrder(records)
    ensures Ahead(rank + [Loaded(records[0], id)], records[1..], id + 1)
    ensures DistinctNames(records[1..]) && InDefaultOrder(records[1..])
  {
  }

  lemma Regroup<T>(a: seq<T>, b: seq<T>, c: seq<T>)
    ensures a + b + c == a + (b + c)
  {
  }

  /** A load of records in default order appends them one after the other. */
  lemma {:induction false} LoadAppends(rank: seq<Entry>, records: seq<Record>, id: nat)
    requires Ahead(rank, records, id) && DistinctNames(records) && InDefaultOrder(records)
    ensures LoadOnto(rank, records, id) == Some(rank + Numbered(records, id))
    decreases |records|
  {
    if records == [] {
      assert rank + Numbered(records, id) == rank;
    } else {
      var e, rest := Loaded(records[0], id), records[1..];
      assert records[0] in records;
      InsertAppends(rank, records[0], id);
      AheadOfRest(rank, records, id);
      LoadAppends(rank + [e], rest, id + 1);
      NumberedCons(records, id);
      Regroup(rank, [e], Numbered(rest, id + 1));
    }
  }

  lemma NumberedIsGood(records: seq<Record>, maxSize: nat)
    requires 1 <= maxSize && |records| <= maxSize && DistinctNames(records) && InDefaultOrder(records)
    ensures Good(Board(true, maxSize, Numbered(records, 0), |records|))
    ensures Views(Numbered(records, 0)) == records
  {
  }

  lemma SavedIsDistinct(b: Board)
    requires Good(b)
    ensures DistinctNames(Save(b))
  {
  }

  ghost predicate AllScoresEqual(b: Board) {
    forall i, j :: 0 <= i < j < |b.rank| ==> b.rank[i].score == b.rank[j].score
  }

  lemma SavedOrder(b: Board)
    requires Good(b)
    ensures InDefaultOrder(Save(b)) <==> b.highestFirst || AllScoresEqual(b)
  {
  }

  /** Whatever is loaded ends up in default order, with unique names and ids. */
  lemma {:induction false} LoadKeepsGood(rank: seq<Entry>, records: seq<Record>, id: nat, maxSize: nat)
    requires Good(Board(true, maxSize, rank, id)) && |rank| + |records| <= maxSize
    ensures var r := LoadOnto(rank, records, id);
            r.Some? ==> Good(Board(true, maxSize, r.value, id + |records|))
    decreases |records|
  {
    if records != [] {
      var e := Loaded(records[0], id);
      if IndexOf(rank, e.name) == |rank| {
        NotListed(Board(true, maxSize, rank, id), e.name);
        InsertNew(true, rank, e);
        LoadKeepsGood(Insert(Order(true), rank, e), records[1..], id + 1, maxSize);
      }
    }
  }

  /** A board constructed over any file satisfies the invariant. */
  lemma LoadIsGood(highestFirst: bool, maxSize: nat, records: seq<Record>)
    requires maxSize >= 1
    ensures Good(Load(highestFirst, maxSize, records))
  {
    LoadKeepsGood([], Cut(maxSize, records), 0, maxSize);
  }

  lemma SortedIsInDefaultOrder(rank: seq<Entry>)
    requires Sorted(Order(true), rank)
    ensures InDefaultOrder(Views(rank))
  {
  }

  lemma ReloadOfOrdered(b: Board)
    requires Good(b) && InDefaultOrder(Save(b))
    ensures Save(Reload(b)) == Save(b) && Good(Reload(b)) && Reload(b).highestFirst
  {
    var records := Save(b);
    SavedIsDistinct(b);
    LoadAppends([], records, 0);
    assert [] + Numbered(records, 0) == Numbered(records, 0);
    NumberedIsGood(records, b.maxSize);
  }

  /** Save then load keeps the (name, score, timestamp) ranking exactly when the board is
      highest-first or all its scores are equal: a lowest-first board comes back reversed. */
  lemma ReloadKeepsRankingIff(b: Board)
    requires Good(b)
    ensures Save(Reload(b)) == Save(b) <==> b.highestFirst || AllScoresEqual(b)
  {
    SavedOrder(b);
    if InDefaultOrder(Save(b)) {
      ReloadOfOrdered(b);
    } else {
      var reloaded := Reload(b);
      LoadIsGood(b.highestFirst, b.maxSize, Save(b));
      if reloaded.rank != [] {
        SortedIsInDefaultOrder(reloaded.rank);
      }
    }
  }

  lemma ViewsOfInsertAt(s: seq<Entry>, u: nat, e: Entry)
    requires u <= |s|
    ensures Views(s[..u] + [e] + s[u..]) == Views(s)[..u] + [View(e)] + Views(s)[u..]
  {
  }

  lemma InsertAddsRecord(rank: seq<Entry>, e: Entry)
    ensures multiset(Views(Insert(Order(true), rank, e))) == multiset(Views(rank)) + multiset{View(e)}
  {
    var u, views := UpperBound(Order(true), rank, e), Views(rank);
    ViewsOfInsertAt(rank, u, e);
    assert views == views[..u] + views[u..];
  }

  /** No name of `records` is listed in `rank`. */
  ghost predicate Unlisted(rank: seq<Entry>, records: seq<Record>) {
    forall x <- rank, r <- records :: x.name != r.name
  }

  /** Distinctness of names, taken apart as the loop of `load` meets them. */
  lemma DistinctCons(rank: seq<Entry>, e: Entry, next: seq<Entry>, records: seq<Record>)
    requires records != [] && e.name == records[0].name && forall x :: x in next <==> x in rank || x == e
    ensures DistinctNames(records) && Unlisted(rank, records) <==>
            && (forall x <- rank :: x.name != e.name)
            && DistinctNames(records[1..]) && Unlisted(next, records[1..])
  {
    var rest := records[1..];
    assert records == [records[0]] + rest;
    if (forall x <- rank :: x.name != e.name) && DistinctNames(rest) && Unlisted(next, rest) {
      assert e in next;
      forall x <- rank, r <- records ensures x.name != r.name {
        assert x in next;
      }
    }
    if DistinctNames(records) && Unlisted(rank, records) {
      assert records[0] in records;
      forall x <- next, r <- rest ensures x.name != r.name {
        var k :| 0 <= k < |rest| && rest[k] == r;
        assert records[k + 1] == r;
      }
    }
  }

  /** A load fails exactly on a repeated name, and otherwise loses and invents nothing. */
  lemma {:induction false} LoadKeepsRecords(rank: seq<Entry>, records: seq<Record>, id: nat)
    ensures var r := LoadOnto(rank, records, id);
            && (r.Some? <==> DistinctNames(records) && Unlisted(rank, records))
            && (r.Some? ==> multiset(Views(r.value)) == multiset(Views(rank)) + multiset(records))
    decreases |records|
  {
    if records != [] {
      var e := Loaded(records[0], id);
      var next := Insert(Order(true), rank, e);
      assert records == [records[0]] + records[1..];
      NotListed(Board(true, 0, rank, 0), e.name);
      InsertMembers(Order(true), rank, e);
      DistinctCons(rank, e, next, records);
      InsertAddsRecord(rank, e);
      LoadKeepsRecords(next, records[1..], id + 1);
    }
  }

  /** A reload, of either direction, re-sorts: the same records come back, from the highest
      score to the lowest and ties by time. */
  lemma ReloadReorders(b: Board)
    requires Good(b)
    ensures Reload(b).highestFirst && Good(Reload(b))
    ensures multiset(Save(Reload(b))) == multiset(Save(b)) && InDefaultOrder(Save(Reload(b)))
  {
    SavedIsDistinct(b);
    LoadKeepsRecords([], Save(b), 0);
    LoadIsGood(b.highestFirst, b.maxSize, Save(b));
    SortedIsInDefaultOrder(Reload(b).rank);
  }

  ghost predicate Ascending(records: seq<Record>) {
    forall i, j :: 0 <= i < j < |records| ==> records[i].score < records[j].score
  }

  ghost predicate Below(rank: seq<Entry>, records: seq<Record>) {
    forall x <- rank, r <- records :: x.score < r.score
  }

  lemma BelowRest(rank: seq<Entry>, e: Entry, records: seq<Record>)
    requires Ascending(records) && Below(rank, records) && records != [] && e.score == records[0].score
    ensures Ascending(records[1..]) && Below([e] + rank, records[1..])
    ensures forall x <- rank :: x.score < e.score
  {
    assert records[0] in records;
    forall x <- [e] + rank, r <- records[1..] ensures x.score < r.score {
      var k :| 0 <= k < |records[1..]| && records[1..][k] == r;
      assert records[k + 1] == r;
    }
  }

  function Backwards(records: seq<Record>): seq<Record> {
    if records == [] then [] else Backwards(records[1..]) + [records[0]]
  }

  /** A record with a new highest score is put first. */
  lemma LoadHighest(rank: seq<Entry>, records: seq<Record>, id: nat)
    requires records != [] && forall x <- rank :: x.score < records[0].score
    ensures var next := [Loaded(records[0], id)] + rank;
            && Views(next) == [records[0]] + Views(rank)
            && (LoadOnto(rank, records, id).Some? ==>
                  LoadOnto(rank, records, id) == LoadOnto(next, records[1..], id + 1))
  {
    var e := Loaded(records[0], id);
    assert rank != [] ==> rank[0] in rank;
    assert UpperBound(Order(true), rank, e) == 0;
    assert Insert(Order(true), rank, e) == [e] + rank;
  }

  /** A load of ascending records puts each before all others. */
  lemma {:induction false} LoadPrepends(rank: seq<Entry>, records: seq<Record>, id: nat)
    requires Ascending(records) && Below(rank, records) && LoadOnto(rank, records, id).Some?
    ensures Views(LoadOnto(rank, records, id).value) == Backwards(records) + Views(rank)
    decreases |records|
  {
    if records == [] {
      assert Backwards(records) + Views(rank) == Views(rank);
    } else {
      var e := Loaded(records[0], id);
      BelowRest(rank, e, records);
      LoadHighest(rank, records, id);
      LoadPrepends([e] + rank, records[1..], id + 1);
      Regroup(Backwards(records[1..]), [records[0]], Views(rank));
    }
  }

  /** A lowest-first board without ties comes back reversed. */
  lemma LowestFirstIsReversed(b: Board)
    requires Good(b) && !b.highestFirst
    requires forall i, j :: 0 <= i < j < |b.rank| ==> b.rank[i].score != b.rank[j].score
    ensures Save(Reload(b)) == Backwards(Save(b))
  {
    forall i, j | 0 <= i < j < |b.rank| ensures b.rank[i].score < b.rank[j].score {
      assert Order(false)(b.rank[i], b.rank[j]);
    }
    SavedIsDistinct(b);
    LoadKeepsRecords([], Save(b), 0);
    LoadPrepends([], Save(b), 0);
  }

  /** The smallest board that does not survive a reload. */
  lemma TwoScoresComeBackReversed()
    ensures var b := Board(false, 2, [Entry("a", 1.0, 0, 0), Entry("b", 2.0, 0, 1)], 2);
            && Good(b)
            && Save(b) == [Record("a", 1.0, 0), Record("b", 2.0, 0)]
            && Save(Reload(b)) == [Record("b", 2.0, 0), Record("a", 1.0, 0)]
  {
    var b := Board(false, 2, [Entry("a", 1.0, 0, 0), Entry("b", 2.0, 0, 1)], 2);
    assert "a"[0] != "b"[0];
    assert Good(b);
    var records := [Record("a", 1.0, 0), Record("b", 2.0, 0)];
    assert Save(b) == records;
    LowestFirstIsReversed(b);
    assert records[1..] == [records[1]];
    assert Backwards([records[1]]) == [records[1]];
  }

  // ----- any file, and a smaller limit -----

  /** Every entry of a load was there before or is a record under its position in the file. */
  lemma {:induction false} LoadNumbers(rank: seq<Entry>, records: seq<Record>, id: nat, e: Entry)
    requires LoadOnto(rank, records, id).Some? && e in LoadOnto(rank, records, id).value
    ensures e in rank || (id <= e.id < id + |records| && View(e) == records[e.id - id])
    decreases |records|
  {
    if records != [] {
      InsertMembers(Order(true), rank, Loaded(records[0], id));
      LoadNumbers(Insert(Order(true), rank, Loaded(records[0], id)), records[1..], id + 1, e);
    }
  }

  /** A board constructed over any file looks at its first `max_size` records. If they have distinct
      names, it holds exactly those, numbered by their positions, from the highest score down and
      ties by time; otherwise it is empty, as created. */
  lemma LoadContents(highestFirst: bool, maxSize: nat, records: seq<Record>)
    requires maxSize >= 1
    ensures var b := Load(highestFirst, maxSize, records);
            var front := if |records| > maxSize then records[..maxSize] else records;
            if DistinctNames(front)
            then
              && b.highestFirst && b.maxSize == maxSize && b.nextId == |front|
              && multiset(Save(b)) == multiset(front) && InDefaultOrder(Save(b))
              && (forall e <- b.rank :: e.id < |front| && View(e) == front[e.id])
            else b == Board(highestFirst, maxSize, [], 0)
  {
    var front := Cut(maxSize, records);
    LoadKeepsRecords([], front, 0);
    LoadIsGood(highestFirst, maxSize, records);
    var b := Load(highestFirst, maxSize, records);
    if DistinctNames(front) {
      SortedIsInDefaultOrder(b.rank);
      forall e <- b.rank ensures e.id < |front| && View(e) == front[e.id] {
        LoadNumbers([], front, 0, e);
      }
    }
  }

  lemma PrefixInDefaultOrder(records: seq<Record>, n: nat)
    requires n <= |records| && InDefaultOrder(records) && DistinctNames(records)
    ensures InDefaultOrder(records[..n]) && DistinctNames(records[..n])
  {
  }

  /** A highest-first board saved and loaded under a smaller limit keeps the best of its ranking. */
  lemma SmallerLimitKeepsBest(b: Board, highestFirst: bool, maxSize: nat)
    requires Good(b) && b.highestFirst && 1 <= maxSize <= |b.rank|
    ensures Save(Load(highestFirst, maxSize, Save(b))) == Save(b)[..maxSize]
  {
    var front := Save(b)[..maxSize];
    SavedOrder(b);
    SavedIsDistinct(b);
    PrefixInDefaultOrder(Save(b), maxSize);
    assert Cut(maxSize, Save(b)) == front;
    LoadAppends([], front, 0);
    assert [] + Numbered(front, 0) == Numbered(front, 0);
    NumberedIsGood(front, maxSize);
  }

  // ----- the reloaded board behaves the same -----

  /** Two boards that differ at most in the ids of their entries. */
  ghost predicate Twins(a: Board, b: Board) {
    Good(a) && Good(b) && a.highestFirst == b.highestFirst && a.maxSize == b.maxSize && Save(a) == Save(b)
  }

  /** The comparison with the player's stored entry does not get as far as the id. */
  predicate Decided(b: Board, s: Submission) {
    var i := IndexOf(b.rank, s.player);
    i < |b.rank| ==> s.score != b.rank[i].score || s.strayTimestamp != b.rank[i].timestamp
  }

  lemma SameIndex(p: seq<Entry>, q: seq<Entry>, name: string)
    requires Views(p) == Views(q)
    ensures |p| == |q| && IndexOf(p, name) == IndexOf(q, name)
  {
  }

  /** A new entry, whose id is above all others, goes to the same place in both. */
  lemma SameBound(highestFirst: bool, p: seq<Entry>, q: seq<Entry>, d: Entry, e: Entry)
    requires Views(p) == Views(q) && View(d) == View(e)
    requires (forall x <- p :: x.id < d.id) && (forall x <- q :: x.id < e.id)
    ensures |p| == |q| && UpperBound(Order(highestFirst), p, d) == UpperBound(Order(highestFirst), q, e)
  {
    assert |p| == |Views(p)| == |q|;
    forall i | 0 <= i < |p| ensures Order(highestFirst)(d, p[i]) == Order(highestFirst)(e, q[i]) {
      assert View(p[i]) == Views(p)[i] == Views(q)[i] == View(q[i]);
      assert p[i] in p && q[i] in q;
    }
  }

  lemma ViewsOfRemove(s: seq<Entry>, i: nat)
    requires i < |s|
    ensures Views(Remove(s, i)) == Views(s)[..i] + Views(s)[i + 1..]
  {
  }

  lemma SameInsert(highestFirst: bool, p: seq<Entry>, q: seq<Entry>, d: Entry, e: Entry)
    requires Views(p) == Views(q) && View(d) == View(e)
    requires (forall x <- p :: x.id < d.id) && (forall x <- q :: x.id < e.id)
    ensures UpperBound(Order(highestFirst), p, d) == UpperBound(Order(highestFirst), q, e)
    ensures Views(Insert(Order(highestFirst), p, d)) == Views(Insert(Order(highestFirst), q, e))
  {
    SameBound(highestFirst, p, q, d, e);
    ViewsOfInsertAt(p, UpperBound(Order(highestFirst), p, d), d);
    ViewsOfInsertAt(q, UpperBound(Order(highestFirst), q, e), e);
  }

  /** Moving entry `i` to where its new score belongs has the same effect on both. */
  lemma SameMove(highestFirst: bool, p: seq<Entry>, q: seq<Entry>, i: nat, d: Entry, e: Entry)
    requires Views(p) == Views(q) && View(d) == View(e) && i < |p| && i < |q|
    requires (forall x <- p :: x.id < d.id) && (forall x <- q :: x.id < e.id)
    ensures var p', q' := Remove(p, i), Remove(q, i);
            && UpperBound(Order(highestFirst), p', d) == UpperBound(Order(highestFirst), q', e)
            && Views(Insert(Order(highestFirst), p', d)) == Views(Insert(Order(highestFirst), q', e))
  {
    ViewsOfRemove(p, i);
    ViewsOfRemove(q, i);
    SameInsert(highestFirst, Remove(p, i), Remove(q, i), d, e);
  }

  lemma TwinsResubmit(a: Board, b: Board, s: Submission, i: nat)
    requires a.highestFirst == b.highestFirst && Save(a) == Save(b) && i < |a.rank| && i < |b.rank|
    requires (forall e <- a.rank :: e.id < a.nextId) && (forall e <- b.rank :: e.id < b.nextId)
    requires s.score != a.rank[i].score || s.strayTimestamp != a.rank[i].timestamp
    ensures Resubmit(a, s, i).1 == Resubmit(b, s, i).1 && Save(Resubmit(a, s, i).0) == Save(Resubmit(b, s, i).0)
  {
    assert View(a.rank[i]) == Save(a)[i] == Save(b)[i] == View(b.rank[i]);
    SameMove(a.highestFirst, a.rank, b.rank, i, NewEntry(a, s), NewEntry(b, s));
  }

  lemma SameTrim(p: seq<Entry>, q: seq<Entry>, maxSize: nat)
    requires Views(p) == Views(q)
    ensures Views(Trim(p, maxSize)) == Views(Trim(q, maxSize))
  {
  }

  lemma TwinsJoin(a: Board, b: Board, s: Submission)
    requires Twins(a, b)
    ensures Join(a, s).1 == Join(b, s).1 && Save(Join(a, s).0) == Save(Join(b, s).0)
  {
    var d, e := NewEntry(a, s), NewEntry(b, s);
    SameInsert(a.highestFirst, a.rank, b.rank, d, e);
    SameTrim(Insert(Order(a.highestFirst), a.rank, d), Insert(Order(b.highestFirst), b.rank, e), a.maxSize);
    SameGate(a, b, s);
  }

  /** Both boards let the new player in, or neither. */
  lemma SameGate(a: Board, b: Board, s: Submission)
    requires a.highestFirst == b.highestFirst && Save(a) == Save(b)
    requires (forall e <- a.rank :: e.id < a.nextId) && (forall e <- b.rank :: e.id < b.nextId)
    ensures |a.rank| == |b.rank|
    ensures a.rank != [] ==>
              Less(a.highestFirst, NewEntry(a, s), a.rank[|a.rank| - 1]) ==
              Less(b.highestFirst, NewEntry(b, s), b.rank[|b.rank| - 1])
  {
  }

  lemma TwinsStay(a: Board, b: Board, s: Submission)
    requires Twins(a, b) && Decided(a, s)
    ensures Submit(a, s).1 == Submit(b, s).1 && Twins(Submit(a, s).0, Submit(b, s).0)
  {
    SubmitKeepsGood(a, s);
    SubmitKeepsGood(b, s);
    SameIndex(a.rank, b.rank, s.player);
    assert |a.rank| == |Save(a)| == |b.rank|;
    var i := IndexOf(a.rank, s.player);
    if i < |a.rank| {
      TwinsResubmit(a, b, s, i);
    } else {
      TwinsJoin(a, b, s);
    }
  }

  function Outcomes(b: Board, h: seq<Submission>): seq<Outcome>
    requires b.maxSize >= 1
    decreases |h|
  {
    if h == [] then [] else [Submit(b, h[0]).1] + Outcomes(Submit(b, h[0]).0, h[1..])
  }

  predicate AllDecided(b: Board, h: seq<Submission>)
    requires b.maxSize >= 1
    decreases |h|
  {
    h == [] || (Decided(b, h[0]) && AllDecided(Submit(b, h[0]).0, h[1..]))
  }

  lemma {:induction false} TwinsBehaveAlike(a: Board, b: Board, h: seq<Submission>)
    requires Twins(a, b) && AllDecided(a, h)
    ensures Outcomes(a, h) == Outcomes(b, h) && Save(After(a, h)) == Save(After(b, h))
    decreases |h|
  {
    if h != [] {
      TwinsStay(a, b, h[0]);
      TwinsBehaveAlike(Submit(a, h[0]).0, Submit(b, h[0]).0, h[1..]);
    }
  }

  /** The board and its reloaded copy give the same results and the same ranking on `h`. */
  ghost predicate AlikeOn(b: Board, h: seq<Submission>)
    requires b.maxSize >= 1
  {
    Outcomes(Reload(b), h) == Outcomes(b, h) && Save(After(Reload(b), h)) == Save(After(b, h))
  }

  /** A new player with the highest score so far is last, or refused, on a lowest-first board
      and first on a highest-first one. */
  lemma OppositesDiffer(p: Board, q: Board, s: Submission)
    requires p.maxSize >= 1 && q.maxSize >= 1 && p.rank != [] && !p.highestFirst && q.highestFirst
    requires forall e <- p.rank + q.rank :: e.score < s.score && e.name != s.player
    ensures Submit(p, s).1 != Submit(q, s).1
  {
    NotListed(p, s.player);
    NotListed(q, s.player);
    assert p.rank[0] in p.rank + q.rank;
    assert q.rank != [] ==> q.rank[0] in p.rank + q.rank && q.rank[|q.rank| - 1] in p.rank + q.rank;
    assert Submit(q, s).1.placement == Some(0);
  }

  /** On opposite boards that hold the same records, such a player gets different answers. */
  lemma NewcomerTells(p: Board, q: Board, s: Submission)
    requires p.maxSize >= 1 && q.maxSize >= 1 && p.rank != [] && !p.highestFirst && q.highestFirst
    requires Save(p) == Save(q) && forall e <- p.rank :: e.score < s.score && e.name != s.player
    ensures AllDecided(p, [s]) && Outcomes(p, [s]) != Outcomes(q, [s])
  {
    forall e <- q.rank ensures e.score < s.score && e.name != s.player {
      var i :| 0 <= i < |q.rank| && q.rank[i] == e;
      assert View(e) == Save(q)[i] == Save(p)[i] == View(p.rank[i]);
      assert p.rank[i] in p.rank;
    }
    OppositesDiffer(p, q, s);
    NotListed(p, s.player);
    assert Outcomes(p, [s])[0] != Outcomes(q, [s])[0];
  }

  /** A tied lowest-first board: its copy puts a new highest score first. */
  lemma TiedIsVisible(b: Board) returns (h: seq<Submission>)
    requires Good(b) && !b.highestFirst && b.rank != [] && AllScoresEqual(b)
    ensures AllDecided(b, h) && !AlikeOn(b, h)
  {
    var name := FreshName(b.rank);
    var s := Submission(name, b.rank[0].score + 1.0, 0, 0, 0);
    h := [s];
    SavedOrder(b);
    ReloadOfOrdered(b);
    forall e <- b.rank ensures e.score < s.score && e.name != s.player {
      var i :| 0 <= i < |b.rank| && b.rank[i] == e;
    }
    NewcomerTells(b, Reload(b), s);
  }

  lemma FirstOf(b: Board, s: Submission)
    requires b.maxSize >= 1 && b.rank == []
    ensures Submit(b, s).0.rank == [NewEntry(b, s)] && Decided(b, s)
  {
  }

  /** An empty lowest-first board: the second of two scores goes to the other end. */
  lemma EmptyIsVisible(b: Board, h: seq<Submission>)
    requires b.maxSize >= 1 && !b.highestFirst && b.rank == []
    requires |h| == 2 && h[0].player != h[1].player && h[0].score < h[1].score
    ensures AllDecided(b, h) && !AlikeOn(b, h)
  {
    var copy := Reload(b);
    assert copy == Board(true, b.maxSize, [], 0);
    FirstOf(b, h[0]);
    FirstOf(copy, h[0]);
    assert h[1..] == [h[1]];
    NewcomerTells(Submit(b, h[0]).0, Submit(copy, h[0]).0, h[1]);
    assert Outcomes(b, h)[1..] == Outcomes(Submit(b, h[0]).0, [h[1]]);
    assert Outcomes(copy, h)[1..] == Outcomes(Submit(copy, h[0]).0, [h[1]]);
  }

  /** What a lowest-first board answers differently after a reload. */
  lemma LowestFirstIsVisible(b: Board) returns (h: seq<Submission>)
    requires Good(b) && !b.highestFirst
    ensures AllDecided(b, h) && !AlikeOn(b, h)
  {
    ReloadKeepsRankingIff(b);
    if !AllScoresEqual(b) {
      h := [];
    } else if b.rank == [] {
      h := [Submission("a", 1.0, 0, 0, 0), Submission("b", 2.0, 0, 0, 0)];
      EmptyIsVisible(b, h);
    } else {
      h := TiedIsVisible(b);
    }
  }

  /** A highest-first board and its reloaded copy give the same results and the same rankings on
      every later history, with the same clock, in which no resubmission is decided by an id. */
  lemma ReloadIsInvisible(b: Board, h: seq<Submission>)
    requires Good(b) && b.highestFirst && AllDecided(b, h)
    ensures Reload(b).maxSize >= 1
    ensures Outcomes(Reload(b), h) == Outcomes(b, h)
    ensures Save(After(Reload(b), h)) == Save(After(b, h))
  {
    SavedOrder(b);
    ReloadOfOrdered(b);
    TwinsBehaveAlike(b, Reload(b), h);
  }

  /** A board and its reloaded copy cannot be told apart by what they answer and how they rank,
      on any history that no id decides, if and only if the board is highest-first. */
  lemma ReloadIsInvisibleIff(b: Board)
    requires Good(b)
    ensures (forall h | AllDecided(b, h) :: AlikeOn(b, h)) <==> b.highestFirst
  {
    if b.highestFirst {
      forall h | AllDecided(b, h) ensures AlikeOn(b, h) {
        ReloadIsInvisible(b, h);
      }
    } else {
      var h := LowestFirstIsVisible(b);
    }
  }

  // ----- histories that an id may decide -----

  /** Resubmitting the stored score and time, with `id` in the uninitialised field. */
  function Echo(e: Entry, id: nat): Submission {
    Submission(e.name, e.score, 0, e.timestamp, id)
  }

  /** It is accepted exactly when the stored id is larger. */
  lemma EchoTells(b: Board, i: nat, id: nat)
    requires Good(b) && i < |b.rank|
    ensures Submit(b, Echo(b.rank[i], id)).1.placement.Some? <==> id < b.rank[i].id
  {
    var k := IndexOf(b.rank, b.rank[i].name);
    assert k == i;
  }

  /** Two boards that store the same record under different ids answer one submission differently. */
  lemma IdsTell(p: Board, q: Board, i: nat) returns (s: Submission)
    requires Good(p) && Good(q) && i < |p.rank| && i < |q.rank|
    requires View(p.rank[i]) == View(q.rank[i]) && p.rank[i].id != q.rank[i].id
    ensures Submit(p, s).1 != Submit(q, s).1
  {
    var smaller := if p.rank[i].id < q.rank[i].id then p.rank[i].id else q.rank[i].id;
    s := Echo(p.rank[i], smaller);
    EchoTells(p, i, smaller);
    EchoTells(q, i, smaller);
  }

  /** A new player with the highest score goes to the front of a highest-first board. */
  lemma NewLeader(b: Board, s: Submission)
    requires b.maxSize >= 1 && b.highestFirst && forall e <- b.rank :: e.score < s.score && e.name != s.player
    ensures Submit(b, s).0.rank != [] && Submit(b, s).0.rank[0] == NewEntry(b, s)
  {
    NotListed(b, s.player);
    assert b.rank != [] ==> b.rank[0] in b.rank && b.rank[|b.rank| - 1] in b.rank;
    assert UpperBound(Order(true), b.rank, NewEntry(b, s)) == 0;
  }

  /** A submission by a new player that beats everybody. */
  lemma Leader(rank: seq<Entry>) returns (lead: Submission)
    requires Sorted(Order(true), rank)
    ensures forall e <- rank :: e.score < lead.score && e.name != lead.player
  {
    var name := FreshName(rank);
    lead := Submission(name, if rank == [] then 0.0 else rank[0].score + 1.0, 0, 0, 0);
    forall e <- rank ensures e.score < lead.score && e.name != lead.player {
      var i :| 0 <= i < |rank| && rank[i] == e;
      assert i > 0 ==> Order(true)(rank[0], rank[i]);
    }
  }

  lemma SecondOutcome(b: Board, first: Submission, second: Submission)
    requires b.maxSize >= 1
    ensures var o := Outcomes(b, [first, second]);
            |o| == 2 && o[1] == Submit(Submit(b, first).0, second).1
  {
    var h := [first, second];
    assert h[1..] == [second] && [second][1..] == [];
    assert Outcomes(Submit(b, first).0, [second]) == [Submit(Submit(b, first).0, second).1];
  }

  /** Two boards that differ only in the id counter: a new leader gets different ids. */
  lemma CountersTell(p: Board, q: Board) returns (h: seq<Submission>)
    requires Good(p) && Good(q) && p.highestFirst && q.highestFirst
    requires p.rank == q.rank && p.nextId != q.nextId
    ensures Outcomes(p, h) != Outcomes(q, h)
  {
    var lead := Leader(p.rank);
    NewLeader(p, lead);
    NewLeader(q, lead);
    SubmitKeepsGood(p, lead);
    SubmitKeepsGood(q, lead);
    var s := IdsTell(Submit(p, lead).0, Submit(q, lead).0, 0);
    h := [lead, s];
    SecondOutcome(p, lead, s);
    SecondOutcome(q, lead, s);
  }

  lemma SameIds(p: seq<Entry>, q: seq<Entry>)
    requires Views(p) == Views(q) && |p| == |q| && forall i :: 0 <= i < |p| ==> p[i].id == q[i].id
    ensures p == q
  {
    forall i | 0 <= i < |p| ensures p[i] == q[i] {
      assert View(p[i]) == Views(p)[i] == Views(q)[i] == View(q[i]);
    }
  }

  /** A highest-first board whose ids or id counter a reload changes is told from its copy. */
  lemma RenumberingIsVisible(b: Board) returns (h: seq<Submission>)
    requires Good(b) && b.highestFirst && Reload(b) != b
    ensures !AlikeOn(b, h)
  {
    var copy := Reload(b);
    SavedOrder(b);
    ReloadOfOrdered(b);
    assert |copy.rank| == |Save(copy)| == |b.rank|;
    if i :| 0 <= i < |b.rank| && b.rank[i].id != copy.rank[i].id {
      assert View(b.rank[i]) == Save(b)[i] == Save(copy)[i] == View(copy.rank[i]);
      var s := IdsTell(b, copy, i);
      h := [s];
      assert Outcomes(b, h)[0] != Outcomes(copy, h)[0];
    } else {
      SameIds(b.rank, copy.rank);
      h := CountersTell(b, copy);
    }
  }

  lemma NumberedReload(b: Board)
    requires Good(b) && InDefaultOrder(Save(b))
    ensures Reload(b) == Board(true, b.maxSize, Numbered(Save(b), 0), |b.rank|)
    ensures b.rank == Numbered(Save(b), 0) <==> forall i :: 0 <= i < |b.rank| ==> b.rank[i].id == i
  {
    SavedIsDistinct(b);
    LoadAppends([], Save(b), 0);
    assert [] + Numbered(Save(b), 0) == Numbered(Save(b), 0);
  }

  /** On all histories, those included that an id decides, a board and its reloaded copy cannot be
      told apart if and only if they are the same: the board is highest-first, its ids are the
      positions of its entries and the next id is their number. */
  lemma ReloadIsInvisibleAlwaysIff(b: Board)
    requires Good(b)
    ensures (forall h :: AlikeOn(b, h)) <==> Reload(b) == b
    ensures Reload(b) == b <==>
            b.highestFirst && b.nextId == |b.rank| && forall i :: 0 <= i < |b.rank| ==> b.rank[i].id == i
  {
    ReloadReorders(b);
    if b.highestFirst {
      SavedOrder(b);
      NumberedReload(b);
      if Reload(b) != b {
        var h := RenumberingIsVisible(b);
      }
    } else {
      var h := LowestFirstIsVisible(b);
    }
  }

  /** A board that accepts a submission which its reloaded copy rejects. */
  lemma RenumberedBoardDiffers()
    ensures var b := Board(true, 2, [Entry("a", 1.0, 0, 5)], 6);
            var s := Submission("a", 1.0, 0, 0, 3);
            Good(b) && Submit(b, s).1 == Outcome(Some(0), Some(0)) && Submit(Reload(b), s).1 == REJECTED
  {
    var b := Board(true, 2, [Entry("a", 1.0, 0, 5)], 6);
    SavedOrder(b);
    NumberedReload(b);
    assert Reload(b).rank[0] == Entry("a", 1.0, 0, 0);
    assert Remove(b.rank, 0) == [];
  }
}
