/**
  The nameboard of src/data_structures/global_boards/nameboard.hpp: unique names in order of
  arrival, the oldest leaving when there are too many. The clock is a parameter and need not
  be monotone except where a lemma says so.
 */
module Nameboard {
  import opened Wrappers
  import opened Ordering
  import opened EntryOrder

  datatype Entry = Entry(name: string, timestamp: int, id: nat)

  function Order(): (Entry, Entry) -> bool {
    (a: Entry, b: Entry) => Earlier(a.timestamp, a.id, b.timestamp, b.id)
  }

  /** The list in order of insertion, and the ranking over the same entries. */
  datatype Board = Board(maxSize: nat, entries: seq<Entry>, ranking: seq<Entry>, nextId: nat)

  function Empty(maxSize: nat): Board {
    Board(maxSize, [], [], 0)
  }

  predicate Contains(entries: seq<Entry>, name: string) {
    exists e <- entries :: e.name == name
  }

  /** Erasing the list node of entry `x`, found by walking the list. */
  function Erase(entries: seq<Entry>, x: Entry): seq<Entry> {
    if entries == [] then []
    else if entries[0] == x then entries[1..]
    else [entries[0]] + Erase(entries[1..], x)
  }

  /** One turn of that walk. */
  lemma EraseTurn(entries: seq<Entry>, i: nat, x: Entry)
    requires i < |entries|
    ensures entries[..i] + Erase(entries[i..], x) ==
            if entries[i] == x then entries[..i] + entries[i + 1..] else entries[..i + 1] + Erase(entries[i + 1..], x)
  {
    assert entries[i..][1..] == entries[i + 1..];
    assert entries[..i] + [entries[i]] == entries[..i + 1];
  }

  /** `add_name`. The index is computed before the oldest entry is evicted. */
  function AddName(b: Board, name: string, now: int): (Board, Option<nat>) {
    if Contains(b.entries, name) then (b, None)
    else
      var e := Entry(name, now, b.nextId);
      var entries, ranking := b.entries + [e], Insert(Order(), b.ranking, e);
      var index := UpperBound(Order(), b.ranking, e);
      if |ranking| <= b.maxSize then (Board(b.maxSize, entries, ranking, b.nextId + 1), Some(index))
      else
        (Board(b.maxSize, Erase(entries, ranking[0]), ranking[1..], b.nextId + 1),
         if index == 0 then None else Some(index))
  }

  class Names {
    const maxSize: nat
    var entries: seq<Entry>
    var ranking: seq<Entry>
    var nextId: nat

    constructor (maxSize: nat)
      ensures View() == Empty(maxSize)
    {
      this.maxSize := maxSize;
      entries, ranking, nextId := [], [], 0;
    }

    ghost function View(): Board
      reads this
    {
      Board(maxSize, entries, ranking, nextId)
    }

    method Has(name: string) returns (found: bool)
      ensures found <==> Contains(entries, name)
    {
      for i := 0 to |entries|
        invariant forall e <- entries[..i] :: e.name != name
      {
        if entries[i].name == name {
          assert entries[i] in entries;
          return true;
        }
      }
      assert entries[..|entries|] == entries;
      return false;
    }

    method EraseEntry(x: Entry)
      modifies this`entries
      ensures entries == Erase(old(entries), x)
    {
      var i := 0;
      assert entries[0..] == entries && entries[..0] == [];
      while i < |entries|
        invariant i <= |entries| && entries == old(entries)
        invariant Erase(entries, x) == entries[..i] + Erase(entries[i..], x)
      {
        EraseTurn(entries, i, x);
        if entries[i] == x {
          entries := entries[..i] + entries[i + 1..];
          return;
        }
        i := i + 1;
      }
    }

    method Add(name: string, now: int) returns (r: Option<nat>)
      modifies this
      ensures (View(), r) == AddName(old(View()), name, now)
    {
      var found := Has(name);
      if found {
        return None;
      }
      var e := Entry(name, now, nextId);
      nextId := nextId + 1;
      entries := entries + [e];
      var index := UpperBound(Order(), ranking, e);
      ranking := Insert(Order(), ranking, e);
      if |ranking| > maxSize {
        var oldest := ranking[0];
        ranking := ranking[1..];
        EraseEntry(oldest);
        if index == 0 {
          return None;
        }
      }
      return Some(index);
    }

    /** `load`, as the constructor calls it. */
    method LoadFrom(records: seq<Record>)
      requires View() == Empty(maxSize)
      modifies this
      ensures View() == Load(maxSize, records)
    {
      ghost var kept := if |records| > maxSize then records[..maxSize] else records;
      var newEntries, newRanking, count := [], [], 0;
      while count < |records|
        invariant count <= |kept|
        invariant LoadOnto(Board(maxSize, newEntries, newRanking, count), kept[count..]) == Load(maxSize, records)
      {
        if count + 1 > maxSize {
          break;
        }
        assert kept[count..][1..] == kept[count + 1..];
        var e := Entry(records[count].name, records[count].timestamp, count);
        newEntries := newEntries + [e];
        newRanking := Insert(Order(), newRanking, e);
        count := count + 1;
      }
      assert kept[count..] == [];
      entries, ranking, nextId := newEntries, newRanking, count;
    }
  }

  // ----- any clock -----

  /** `x` is older: an earlier time, or the same time and entered before. */
  predicate StandsBefore(x: Entry, y: Entry) {
    x.timestamp < y.timestamp || (x.timestamp == y.timestamp && x.id < y.id)
  }

  /** List and ranking hold the same entries; the ranking is sorted, names and ids are unique. */
  ghost predicate Good(b: Board) {
    && multiset(b.entries) == multiset(b.ranking)
    && |b.ranking| <= b.maxSize
    && Sorted(Order(), b.ranking)
    && (forall i, j :: 0 <= i < j < |b.ranking| ==> b.ranking[i].name != b.ranking[j].name)
    && (forall e <- b.ranking :: e.id < b.nextId)
  }

  lemma {:induction false} EraseRemovesOne(entries: seq<Entry>, x: Entry)
    ensures multiset(Erase(entries, x)) == multiset(entries) - multiset{x}
    ensures x !in entries ==> Erase(entries, x) == entries
  {
    if entries != [] {
      assert entries == [entries[0]] + entries[1..];
      EraseRemovesOne(entries[1..], x);
    }
  }

  lemma SameMembers(b: Board)
    requires multiset(b.entries) == multiset(b.ranking)
    ensures forall e :: e in b.entries <==> e in b.ranking
  {
    forall e ensures e in b.entries <==> e in b.ranking {
      assert e in b.entries <==> e in multiset(b.entries);
      assert e in b.ranking <==> e in multiset(b.ranking);
    }
  }

  /** The ranking right after the insertion of a new name. */
  lemma InsertNew(b: Board, e: Entry)
    requires Good(b) && !Contains(b.entries, e.name) && e.id == b.nextId
    ensures var r := Insert(Order(), b.ranking, e);
            && multiset(r) == multiset(b.entries + [e])
            && Sorted(Order(), r)
            && (forall i, j :: 0 <= i < j < |r| ==> r[i].name != r[j].name)
            && (forall x <- r :: x.id < b.nextId + 1)
  {
    SameMembers(b);
    InsertSorted(Order(), b.ranking, e);
    InsertAddsOne(Order(), b.ranking, e);
    UniqueAfterInsert(b.ranking, UpperBound(Order(), b.ranking, e), e);
  }

  lemma UniqueAfterInsert(s: seq<Entry>, u: nat, e: Entry)
    requires u <= |s| && forall x <- s :: x.name != e.name
    requires forall i, j :: 0 <= i < j < |s| ==> s[i].name != s[j].name
    ensures var r := s[..u] + [e] + s[u..];
            forall i, j :: 0 <= i < j < |r| ==> r[i].name != r[j].name
  {
  }

  lemma EraseOldest(entries: seq<Entry>, r: seq<Entry>)
    requires r != [] && multiset(entries) == multiset(r)
    ensures multiset(Erase(entries, r[0])) == multiset(r[1..])
  {
    EraseRemovesOne(entries, r[0]);
    assert r == [r[0]] + r[1..];
  }

  lemma DropOldestKeepsGood(maxSize: nat, entries: seq<Entry>, r: seq<Entry>, nextId: nat)
    requires Good(Board(maxSize + 1, entries, r, nextId)) && |r| == maxSize + 1
    ensures Good(Board(maxSize, Erase(entries, r[0]), r[1..], nextId))
  {
    EraseOldest(entries, r);
    var t := r[1..];
    forall i, j | 0 <= i < j < |t| ensures Order()(t[i], t[j]) && t[i].name != t[j].name {
      assert t[i] == r[i + 1] && t[j] == r[j + 1];
    }
  }

  lemma AddNameIsGood(b: Board, name: string, now: int)
    requires Good(b)
    ensures Good(AddName(b, name, now).0)
  {
    var e := Entry(name, now, b.nextId);
    if !Contains(b.entries, name) {
      InsertNew(b, e);
      var r := Insert(Order(), b.ranking, e);
      if |r| > b.maxSize {
        DropOldestKeepsGood(b.maxSize, b.entries + [e], r, b.nextId + 1);
      }
    }
  }

  /** For every clock, `add_name` keeps the invariant. A name is refused exactly when it is
      listed, or when the board is full and its entry would be the oldest; the ranking is then
      unchanged. Otherwise the returned index is the entry's rank if nothing was evicted, and
      one more than its rank if the oldest entry was. */
  lemma AddNameKeepsGood(b: Board, name: string, now: int)
    requires Good(b)
    ensures var (b', r) := AddName(b, name, now);
            var e := Entry(name, now, b.nextId);
            var full := |b.ranking| == b.maxSize;
            && Good(b') && b'.maxSize == b.maxSize
            && (r.None? <==> Contains(b.entries, name) || (full && (b.ranking == [] || now < b.ranking[0].timestamp)))
            && (r.None? ==> b'.ranking == b.ranking)
            && (r.Some? && !full ==> r.value < |b'.ranking| && b'.ranking[r.value] == e)
            && (r.Some? && full ==> 1 <= r.value <= |b'.ranking| && b'.ranking[r.value - 1] == e)
  {
    AddNameIsGood(b, name, now);
    var u := UpperBound(Order(), b.ranking, Entry(name, now, b.nextId));
    assert b.ranking != [] ==> (u == 0 <==> Order()(Entry(name, now, b.nextId), b.ranking[0]));
    assert b.ranking != [] ==> b.ranking[0] in b.ranking;
  }

  /** `oldest` is the oldest of `entries`, `rest` is `entries` without it, and `refused` says whether
      it is the new entry `e` itself. */
  ghost predicate LeavesFirst(entries: seq<Entry>, oldest: Entry, rest: seq<Entry>, refused: bool, e: Entry) {
    && (forall x <- entries :: x == oldest || StandsBefore(oldest, x))
    && (exists k | 0 <= k < |entries| :: entries[k] == oldest && rest == entries[..k] + entries[k + 1..])
    && (refused <==> oldest == e)
  }

  lemma {:induction false} EraseCutsOut(entries: seq<Entry>, x: Entry) returns (k: nat)
    requires x in entries
    ensures k < |entries| && entries[k] == x && Erase(entries, x) == entries[..k] + entries[k + 1..]
  {
    if entries[0] == x {
      k := 0;
    } else {
      var rest := EraseCutsOut(entries[1..], x);
      k := rest + 1;
      assert entries == [entries[0]] + entries[1..];
    }
  }

  lemma OldestLeaves(b: Board, e: Entry)
    requires Good(b) && !Contains(b.entries, e.name) && e.id == b.nextId && |b.ranking| == b.maxSize
    ensures var (b', r) := AddName(b, e.name, e.timestamp);
            var oldest := Insert(Order(), b.ranking, e)[0];
            && oldest in b.entries + [e]
            && LeavesFirst(b.entries + [e], oldest, b'.entries, r.None?, e)
  {
    var all, ranking := b.entries + [e], Insert(Order(), b.ranking, e);
    var oldest := ranking[0];
    InsertNew(b, e);
    forall x ensures x in all <==> x in ranking {
      assert x in all <==> x in multiset(all);
      assert x in ranking <==> x in multiset(ranking);
    }
    assert oldest in ranking;
    forall x <- all ensures x == oldest || StandsBefore(oldest, x) {
      var i :| 0 <= i < |ranking| && ranking[i] == x;
      assert i > 0 ==> Order()(ranking[0], ranking[i]);
    }
    var k := EraseCutsOut(all, oldest);
    var u := UpperBound(Order(), b.ranking, e);
    assert u > 0 ==> oldest == b.ranking[0] && b.ranking[0] in b.ranking;
  }

  /** What `add_name` leaves: a listed name changes nothing; otherwise the counter advances and the
      name is entered at the end of the list, and if that is one too many the oldest entry of all
      leaves list and ranking, the order of the others unchanged. */
  lemma AddNameContents(b: Board, name: string, now: int)
    requires Good(b)
    ensures var (b', r) := AddName(b, name, now);
            var e := Entry(name, now, b.nextId);
            if exists x <- b.entries :: x.name == name then b' == b && r.None?
            else
              && b'.nextId == b.nextId + 1 && |b'.ranking| == |b'.entries|
              && (forall i, j :: 0 <= i < j < |b'.ranking| ==> StandsBefore(b'.ranking[i], b'.ranking[j]))
              && (|b.ranking| < b.maxSize ==> b'.entries == b.entries + [e] && r.Some?)
              && (|b.ranking| == b.maxSize ==>
                    exists oldest <- b.entries + [e] :: LeavesFirst(b.entries + [e], oldest, b'.entries, r.None?, e))
  {
    AddNameIsGood(b, name, now);
    AddNameKeepsGood(b, name, now);
    var b' := AddName(b, name, now).0;
    assert |multiset(b'.entries)| == |b'.entries| && |multiset(b'.ranking)| == |b'.ranking|;
    if !Contains(b.entries, name) && |b.ranking| == b.maxSize {
      OldestLeaves(b, Entry(name, now, b.nextId));
    }
  }

  /** A full board of one entry takes in a second name at rank 0, and returns 1. */
  lemma FullBoardReturnsOneMore()
    ensures var b := Board(1, [Entry("a", 0, 0)], [Entry("a", 0, 0)], 1);
            var e := Entry("b", 1, 1);
            Good(b) && AddName(b, "b", 1) == (Board(1, [e], [e], 2), Some(1))
  {
    var first, e := Entry("a", 0, 0), Entry("b", 1, 1);
    var b := Board(1, [first], [first], 1);
    assert "a"[0] != "b"[0];
    assert !Contains(b.entries, "b");
    assert Insert(Order(), [first], e) == [first, e];
    assert [first] + [e] == [first, e] && [first, e][1..] == [e];
    assert Erase([first, e], first) == [e];
  }

  // ----- a monotone clock -----

  datatype Arrival = Arrival(name: string, now: int)

  function After(b: Board, h: seq<Arrival>): Board
    decreases |h|
  {
    if h == [] then b else After(AddName(b, h[0].name, h[0].now).0, h[1..])
  }

  function Last(log: seq<Entry>, n: nat): seq<Entry> {
    if |log| <= n then log else log[|log| - n..]
  }

  /** The names accepted so far: one that is not among the last `maxSize` accepted joins. */
  function Log(log: seq<Entry>, h: seq<Arrival>, maxSize: nat): seq<Entry>
    decreases |h|
  {
    if h == [] then log
    else if Contains(Last(log, maxSize), h[0].name) then Log(log, h[1..], maxSize)
    else Log(log + [Entry(h[0].name, h[0].now, |log|)], h[1..], maxSize)
  }

  /** The log is numbered and in time order, up to `now`. */
  ghost predicate Timely(log: seq<Entry>, now: int) {
    && (forall i :: 0 <= i < |log| ==> log[i].id == i && log[i].timestamp <= now)
    && (forall i, j :: 0 <= i < j < |log| ==> log[i].timestamp <= log[j].timestamp)
  }

  ghost predicate InOrder(h: seq<Arrival>) {
    forall i, j :: 0 <= i < j < |h| ==> h[i].now <= h[j].now
  }

  /** List and ranking are both the last `max_size` accepted names. */
  ghost predicate IsWindow(b: Board, log: seq<Entry>) {
    b.entries == b.ranking == Last(log, b.maxSize) && b.nextId == |log|
  }

  lemma AppendsInOrder(log: seq<Entry>, n: nat, e: Entry)
    requires Timely(log, e.timestamp) && e.id == |log|
    ensures UpperBound(Order(), Last(log, n), e) == |Last(log, n)|
    ensures Insert(Order(), Last(log, n), e) == Last(log, n) + [e]
  {
  }

  lemma WindowShifts(log: seq<Entry>, n: nat, e: Entry)
    requires n >= 1
    ensures var w := Last(log, n);
            Last(log + [e], n) == if |w| == n then w[1..] + [e] else w + [e]
  {
  }

  /** A new name on a board that is the window of `log`. */
  lemma NewNameShifts(b: Board, log: seq<Entry>, a: Arrival)
    requires b.maxSize >= 1 && IsWindow(b, log) && Timely(log, a.now) && !Contains(b.entries, a.name)
    ensures var (b', r) := AddName(b, a.name, a.now);
            && IsWindow(b', log + [Entry(a.name, a.now, |log|)]) && b'.maxSize == b.maxSize
            && r == Some(|b.ranking|)
  {
    var e, w := Entry(a.name, a.now, |log|), Last(log, b.maxSize);
    AppendsInOrder(log, b.maxSize, e);
    WindowShifts(log, b.maxSize, e);
    if |w| == b.maxSize {
      assert (w + [e])[1..] == w[1..] + [e] && (w + [e])[0] == w[0];
    }
  }

  lemma StepKeepsWindow(b: Board, log: seq<Entry>, a: Arrival)
    requires b.maxSize >= 1 && IsWindow(b, log) && Timely(log, a.now)
    ensures var (b', r) := AddName(b, a.name, a.now);
            var log' := Log(log, [a], b.maxSize);
            && IsWindow(b', log') && b'.maxSize == b.maxSize && Timely(log', a.now)
            && (r.Some? <==> log' != log)
            && (r.Some? ==> r.value == |b.ranking|)
  {
    assert [a][1..] == [];
    if !Contains(b.entries, a.name) {
      NewNameShifts(b, log, a);
      assert Log(log, [a], b.maxSize) == log + [Entry(a.name, a.now, |log|)];
    }
  }

  lemma {:induction false} WindowAlways(b: Board, log: seq<Entry>, h: seq<Arrival>, now: int)
    requires b.maxSize >= 1 && IsWindow(b, log) && Timely(log, now)
    requires InOrder(h) && (h != [] ==> now <= h[0].now)
    ensures IsWindow(After(b, h), Log(log, h, b.maxSize)) && After(b, h).maxSize == b.maxSize
    decreases |h|
  {
    if h != [] {
      assert Timely(log, h[0].now);
      StepKeepsWindow(b, log, h[0]);
      assert [h[0]][1..] == [];
      var log' := Log(log, [h[0]], b.maxSize);
      assert Log(log, h, b.maxSize) == Log(log', h[1..], b.maxSize);
      WindowAlways(AddName(b, h[0].name, h[0].now).0, log', h[1..], h[0].now);
    }
  }

  /** From an empty board and with a clock that never goes back, list and ranking are the same
      sequence: the last `max_size` accepted names in order of acceptance. */
  lemma BoardIsLastAccepted(maxSize: nat, h: seq<Arrival>)
    requires maxSize >= 1 && InOrder(h)
    ensures var b := After(Empty(maxSize), h);
            b.entries == b.ranking == Last(Log([], h, maxSize), maxSize)
  {
    WindowAlways(Empty(maxSize), [], h, if h == [] then 0 else h[0].now);
  }

  // ----- save and load -----

  datatype Record = Record(name: string, timestamp: int)

  function Save(b: Board): (r: seq<Record>)
    ensures |r| == |b.ranking|
    ensures forall i :: 0 <= i < |r| ==> r[i] == Record(b.ranking[i].name, b.ranking[i].timestamp)
  {
    seq(|b.ranking|, i requires 0 <= i < |b.ranking| => Record(b.ranking[i].name, b.ranking[i].timestamp))
  }

  /** `load` on a fresh board; records beyond the limit are ignored. */
  function Load(maxSize: nat, records: seq<Record>): Board {
    LoadOnto(Empty(maxSize), if |records| > maxSize then records[..maxSize] else records)
  }

  function LoadOnto(b: Board, records: seq<Record>): Board
    decreases |records|
  {
    if records == [] then b
    else
      var e := Entry(records[0].name, records[0].timestamp, b.nextId);
      LoadOnto(Board(b.maxSize, b.entries + [e], Insert(Order(), b.ranking, e), b.nextId + 1), records[1..])
  }

  function Numbered(records: seq<Record>): (r: seq<Entry>)
    ensures |r| == |records|
    ensures forall i :: 0 <= i < |r| ==> r[i] == Entry(records[i].name, records[i].timestamp, i)
  {
    seq(|records|, i requires 0 <= i < |records| => Entry(records[i].name, records[i].timestamp, i))
  }

  ghost predicate InTime(records: seq<Record>) {
    forall i, j :: 0 <= i < j < |records| ==> records[i].timestamp <= records[j].timestamp
  }

  lemma {:induction false} LoadAppends(maxSize: nat, all: seq<Record>, k: nat)
    requires k <= |all| && InTime(all)
    ensures var n := Numbered(all);
            LoadOnto(Board(maxSize, n[..k], n[..k], k), all[k..]) == Board(maxSize, n, n, |all|)
    decreases |all| - k
  {
    var n := Numbered(all);
    if k == |all| {
      assert n[..k] == n;
    } else {
      assert Timely(n[..k], n[k].timestamp);
      AppendsInOrder(n[..k], k, n[k]);
      assert n[..k] + [n[k]] == n[..k + 1];
      assert all[k..][1..] == all[k + 1..];
      LoadAppends(maxSize, all, k + 1);
    }
  }

  lemma NumberedIsGood(maxSize: nat, records: seq<Record>)
    requires |records| <= maxSize && InTime(records)
    requires forall i, j :: 0 <= i < j < |records| ==> records[i].name != records[j].name
    ensures var n := Numbered(records);
            Good(Board(maxSize, n, n, |records|)) && Save(Board(maxSize, n, n, |records|)) == records
  {
  }

  lemma SavedInTime(b: Board)
    requires Good(b)
    ensures InTime(Save(b))
  {
    var records := Save(b);
    forall i, j | 0 <= i < j < |records| ensures records[i].timestamp <= records[j].timestamp {
      assert Order()(b.ranking[i], b.ranking[j]);
    }
  }

  /** Saving and loading keeps the (name, timestamp) sequence and the invariant, whatever the
      clock did, although ids are renumbered. */
  lemma SaveThenLoad(b: Board)
    requires Good(b)
    ensures var b' := Load(b.maxSize, Save(b));
            Save(b') == Save(b) && b'.entries == b'.ranking && Good(b')
  {
    var records := Save(b);
    SavedInTime(b);
    var n := Numbered(records);
    assert n[..0] == [] && records[0..] == records;
    LoadAppends(b.maxSize, records, 0);
    NumberedIsGood(b.maxSize, records);
  }

  // ----- any file -----

  /** The records `load` looks at. */
  function Front(maxSize: nat, records: seq<Record>): seq<Record> {
    if |records| > maxSize then records[..maxSize] else records
  }

  /** List and ranking hold the same entries, the ranking sorted and numbered below `nextId`. */
  ghost predicate Consistent(entries: seq<Entry>, ranking: seq<Entry>, nextId: nat) {
    && multiset(entries) == multiset(ranking) && Sorted(Order(), ranking)
    && forall e <- ranking :: e.id < nextId
  }

  lemma InsertConsistent(entries: seq<Entry>, ranking: seq<Entry>, e: Entry)
    requires Consistent(entries, ranking, e.id)
    ensures Consistent(entries + [e], Insert(Order(), ranking, e), e.id + 1)
  {
    InsertSorted(Order(), ranking, e);
    InsertAddsOne(Order(), ranking, e);
    InsertMembers(Order(), ranking, e);
  }

  lemma {:induction false} LoadOntoContents(b: Board, all: seq<Record>, k: nat)
    requires k <= |all| && b.entries == Numbered(all)[..k] && b.nextId == k
    requires Consistent(b.entries, b.ranking, k)
    ensures var b' := LoadOnto(b, all[k..]);
            && b'.entries == Numbered(all) && b'.nextId == |all| && b'.maxSize == b.maxSize
            && Consistent(b'.entries, b'.ranking, |all|)
    decreases |all| - k
  {
    var n := Numbered(all);
    if k == |all| {
      assert n[..k] == n;
    } else {
      var e := n[k];
      assert n[..k] + [e] == n[..k + 1];
      assert all[k..][1..] == all[k + 1..];
      InsertConsistent(b.entries, b.ranking, e);
      LoadOntoContents(Board(b.maxSize, b.entries + [e], Insert(Order(), b.ranking, e), k + 1), all, k + 1);
    }
  }

  ghost predicate NamesDiffer(s: seq<Entry>) {
    forall i, j :: 0 <= i < j < |s| ==> s[i].name != s[j].name
  }

  lemma NamesDifferInAnyOrder(a: seq<Entry>, b: seq<Entry>)
    requires multiset(a) == multiset(b) && NamesDiffer(b)
    requires forall i, j :: 0 <= i < j < |a| ==> a[i] != a[j]
    ensures NamesDiffer(a)
  {
    forall i, j | 0 <= i < j < |a| ensures a[i].name != a[j].name {
      assert a[i] in multiset(a) && a[j] in multiset(a);
      var k, m :| 0 <= k < |b| && 0 <= m < |b| && b[k] == a[i] && b[m] == a[j];
    }
  }

  lemma LoadConsistent(maxSize: nat, records: seq<Record>)
    ensures var b, front := Load(maxSize, records), Front(maxSize, records);
            && b.entries == Numbered(front) && b.nextId == |front| && b.maxSize == maxSize
            && Consistent(b.entries, b.ranking, |front|)
  {
    var front := Front(maxSize, records);
    assert front[0..] == front && Numbered(front)[..0] == [];
    LoadOntoContents(Empty(maxSize), front, 0);
  }

  /** Whatever the file holds: its first `max_size` records are listed in file order and numbered from
      0, and ranked by time and position. */
  lemma LoadContents(maxSize: nat, records: seq<Record>)
    ensures var b := Load(maxSize, records);
            var front := if |records| > maxSize then records[..maxSize] else records;
            && |b.entries| == |front| == b.nextId && b.maxSize == maxSize
            && (forall i :: 0 <= i < |front| ==> b.entries[i] == Entry(front[i].name, front[i].timestamp, i))
            && multiset(b.ranking) == multiset(b.entries)
            && (forall i, j :: 0 <= i < j < |b.ranking| ==> StandsBefore(b.ranking[i], b.ranking[j]))
  {
    LoadConsistent(maxSize, records);
    var b := Load(maxSize, records);
    forall i, j | 0 <= i < j < |b.ranking| ensures StandsBefore(b.ranking[i], b.ranking[j]) {
      assert Order()(b.ranking[i], b.ranking[j]);
    }
  }

  ghost predicate DistinctRecords(records: seq<Record>) {
    forall i, j :: 0 <= i < j < |records| ==> records[i].name != records[j].name
  }

  lemma NumberedNames(records: seq<Record>)
    ensures NamesDiffer(Numbered(records)) <==> DistinctRecords(records)
  {
    var n := Numbered(records);
    if NamesDiffer(n) {
      forall i, j | 0 <= i < j < |records| ensures records[i].name != records[j].name {
        assert n[i].name != n[j].name;
      }
    }
  }

  lemma ConsistentIsGood(b: Board)
    requires Consistent(b.entries, b.ranking, b.nextId) && |b.entries| <= b.maxSize
    ensures Good(b) <==> NamesDiffer(b.ranking)
  {
    assert |b.ranking| == |multiset(b.ranking)| == |multiset(b.entries)| == |b.entries|;
  }

  /** `load` does not notice repeated names, so the board is good exactly when the records it looks at
      have none. */
  lemma LoadIsGoodIff(maxSize: nat, records: seq<Record>)
    ensures Good(Load(maxSize, records)) <==>
            DistinctRecords(if |records| > maxSize then records[..maxSize] else records)
  {
    var b, front := Load(maxSize, records), Front(maxSize, records);
    LoadConsistent(maxSize, records);
    ConsistentIsGood(b);
    NumberedNames(front);
    forall i, j | 0 <= i < j < |b.ranking| ensures b.ranking[i] != b.ranking[j] {
      assert Order()(b.ranking[i], b.ranking[j]);
    }
    if NamesDiffer(b.entries) {
      NamesDifferInAnyOrder(b.ranking, b.entries);
    }
    if NamesDiffer(b.ranking) {
      NamesDifferInAnyOrder(b.entries, b.ranking);
    }
  }

  /** A board saved and loaded under a smaller limit keeps the oldest names. */
  lemma SmallerLimitKeepsOldest(b: Board, maxSize: nat)
    requires Good(b) && maxSize <= |b.ranking|
    ensures Save(Load(maxSize, Save(b))) == Save(b)[..maxSize]
  {
    var records := Save(b)[..maxSize];
    SavedInTime(b);
    assert InTime(records) && Front(maxSize, Save(b)) == records;
    assert Numbered(records)[..0] == [] && records[0..] == records;
    LoadAppends(maxSize, records, 0);
    NumberedIsGood(maxSize, records);
  }
}
