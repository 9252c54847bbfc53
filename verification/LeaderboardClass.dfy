/**
  The leaderboard as the code keeps it: entry objects owned by a map from names, and a
  separately ordered ranking that points at the same objects and is edited in place
  (src/data_structures/global_boards/leaderboard.hpp:39-138 and 264-341).
 */
module LeaderboardClass {
  import opened Wrappers
  import opened Sequences
  import opened Ordering
  import opened Leaderboard
  import opened LeaderboardReload

  class Node {
    const name: string
    var score: real
    var timestamp: int
    var id: nat

    constructor (e: Entry)
      ensures Value() == e
    {
      name, score, timestamp, id := e.name, e.score, e.timestamp, e.id;
    }

    function Value(): Entry
      reads this
    {
      Entry(name, score, timestamp, id)
    }
  }

  ghost function Values(nodes: seq<Node>): (r: seq<Entry>)
    reads nodes
    ensures |r| == |nodes| && forall i :: 0 <= i < |nodes| ==> r[i] == nodes[i].Value()
  {
    seq(|nodes|, i requires 0 <= i < |nodes| reads nodes => nodes[i].Value())
  }

  /** Map and ranking hold the same objects, each under its own name. */
  ghost predicate Agree(entries: map<string, Node>, ranking: seq<Node>) {
    && (forall e <- ranking :: e.name in entries && entries[e.name] == e)
    && (forall n <- entries :: entries[n] in ranking && entries[n].name == n)
  }

  lemma ValuesOfSlices(a: seq<Node>, i: nat)
    requires i <= |a|
    ensures Values(a[..i]) == Values(a)[..i]
    ensures Values(a[i..]) == Values(a)[i..]
  {
  }

  lemma ValuesOfRemove(ranking: seq<Node>, i: nat)
    requires i < |ranking|
    ensures Values(Remove(ranking, i)) == Remove(Values(ranking), i)
  {
  }

  lemma ValuesOfInsertAt(ranking: seq<Node>, u: nat, e: Node)
    requires u <= |ranking|
    ensures Values(InsertAt(ranking, u, e)) == InsertAt(Values(ranking), u, e.Value())
  {
  }

  lemma SameMembers(s: seq<Node>, i: nat, u: nat)
    requires i < |s| && u < |s|
    ensures forall e :: e in InsertAt(Remove(s, i), u, s[i]) <==> e in s
  {
    var rest := Remove(s, i);
    assert s == s[..i] + [s[i]] + s[i + 1..];
    assert rest == rest[..u] + rest[u..];
    assert forall e :: e in rest || e == s[i] <==> e in s;
  }

  /** Moving an object within the ranking. */
  lemma AgreeAfterMove(entries: map<string, Node>, ranking: seq<Node>, i: nat, u: nat)
    requires Agree(entries, ranking) && i < |ranking| && u < |ranking|
    ensures Agree(entries, InsertAt(Remove(ranking, i), u, ranking[i]))
  {
    SameMembers(ranking, i, u);
  }

  /** Unique names make every object unique. */
  lemma RankedOnce(b: Board, ranking: seq<Node>, i: nat)
    requires Good(b) && b.rank == Values(ranking) && i < |ranking|
    ensures ranking[i] !in Remove(ranking, i)
  {
  }

  ghost predicate LastOnce(ranking: seq<Node>) {
    ranking != [] ==> ranking[|ranking| - 1] !in ranking[..|ranking| - 1]
  }

  lemma LastOnceAfterAdd(ranking: seq<Node>, u: nat, e: Node)
    requires LastOnce(ranking) && u <= |ranking| && e !in ranking
    ensures LastOnce(InsertAt(ranking, u, e))
  {
  }

  lemma AgreeAfterAdd(entries: map<string, Node>, ranking: seq<Node>, u: nat, e: Node)
    requires Agree(entries, ranking) && u <= |ranking| && e.name !in entries
    ensures Agree(entries[e.name := e], InsertAt(ranking, u, e)) && e !in ranking
  {
  }

  lemma AgreeAfterRemoveLast(entries: map<string, Node>, ranking: seq<Node>)
    requires Agree(entries, ranking) && ranking != []
    requires LastOnce(ranking)
    ensures Agree(entries - {ranking[|ranking| - 1].name}, ranking[..|ranking| - 1])
  {
  }

  /** The object filed under a name stands where the ranking lists that name. */
  lemma FiledWhereListed(b: Board, entries: map<string, Node>, ranking: seq<Node>, name: string)
    requires Agree(entries, ranking) && b.rank == Values(ranking)
    ensures name in entries <==> IndexOf(b.rank, name) < |ranking|
    ensures name in entries ==> ranking[IndexOf(b.rank, name)] == entries[name]
  {
  }

  lemma ResubmitIs(b: Board, s: Submission, i: nat, rest: seq<Entry>, e: Entry)
    requires i < |b.rank| && Less(b.highestFirst, Candidate(s), b.rank[i])
    requires rest == Remove(b.rank, i) && e == NewEntry(b, s)
    ensures Resubmit(b, s, i) ==
            (Board(b.highestFirst, b.maxSize, Insert(Order(b.highestFirst), rest, e), b.nextId + 1),
             Outcome(Some(UpperBound(Order(b.highestFirst), rest, e)), Some(i)))
  {
  }

  lemma UniqueIndex(s: seq<Node>, i: nat, j: nat)
    requires i < |s| && j < |s| && s[i] == s[j] && s[i] !in Remove(s, i)
    ensures i == j
  {
  }

  lemma PlaceIsUpperBound(less: (Entry, Entry) -> bool, s: seq<Entry>, e: Entry, u: nat)
    requires u <= |s| && (forall i :: 0 <= i < u ==> !less(e, s[i])) && (u < |s| ==> less(e, s[u]))
    ensures u == UpperBound(less, s, e)
  {
  }

  /** `multiset::insert` puts a new element after all that are not greater. */
  method FindPlace(highestFirst: bool, ranking: seq<Node>, e: Node) returns (u: nat)
    ensures u <= |ranking|
    ensures u == UpperBound(Order(highestFirst), Values(ranking), e.Value())
  {
    u := 0;
    while u < |ranking| && !Less(highestFirst, e.Value(), ranking[u].Value())
      invariant u <= |ranking|
      invariant forall i :: 0 <= i < u ==> !Order(highestFirst)(e.Value(), Values(ranking)[i])
    {
      u := u + 1;
    }
    PlaceIsUpperBound(Order(highestFirst), Values(ranking), e.Value(), u);
  }

  method AddRecord(entries: map<string, Node>, ranking: seq<Node>, record: Record, id: nat)
    returns (ok: bool, newEntries: map<string, Node>, newRanking: seq<Node>)
    requires Agree(entries, ranking)
    ensures ok <==> IndexOf(Values(ranking), record.name) == |ranking|
    ensures ok ==> Agree(newEntries, newRanking)
    ensures ok ==> Values(newRanking) == Insert(Order(true), Values(ranking), Loaded(record, id))
    ensures ok ==> forall e <- newRanking :: e in ranking || fresh(e)
  {
    var e := new Node(Loaded(record, id));
    FiledWhereListed(Board(true, 0, Values(ranking), id), entries, ranking, e.name);
    var place := FindPlace(true, ranking, e);
    newRanking := ranking[..place] + [e] + ranking[place..];
    ValuesOfInsertAt(ranking, place, e);
    newEntries := entries;
    if e.name in entries {
      return false, newEntries, newRanking;
    }
    AgreeAfterAdd(entries, ranking, place, e);
    newEntries := entries[e.name := e];
    ok := true;
  }

  /** The loop of `load`. */
  method Build(maxSize: nat, records: seq<Record>)
    returns (ok: bool, entries: map<string, Node>, ranking: seq<Node>, count: nat)
    ensures var front := Cut(maxSize, records);
            && (ok <==> LoadOnto([], front, 0).Some?)
            && (ok ==> count == |front| && Values(ranking) == LoadOnto([], front, 0).value)
    ensures ok ==> Agree(entries, ranking) && forall e <- ranking :: fresh(e)
  {
    ghost var n := |Cut(maxSize, records)|;
    ghost var target := LoadOnto([], records[..n], 0);
    assert records[..n] == Cut(maxSize, records);
    entries, ranking, count := map[], [], 0;
    while count < |records|
      invariant count <= n && Agree(entries, ranking)
      invariant forall e <- ranking :: fresh(e)
      invariant target == LoadOnto(Values(ranking), records[count..n], count)
    {
      if count + 1 > maxSize {
        break;
      }
      LoadTurn(Values(ranking), records, count, n);
      ok, entries, ranking := AddRecord(entries, ranking, records[count], count);
      if !ok {
        return;
      }
      count := count + 1;
    }
    assert count == n;
    ok := true;
  }

  class Table {
    const maxSize: nat
    var highestFirst: bool           // the comparator inside `ranking`
    var entries: map<string, Node>
    var ranking: seq<Node>
    var nextId: nat

    constructor (maxSize: nat, highestFirst: bool)
      requires maxSize >= 1
      ensures Valid() && View() == Empty(highestFirst, maxSize)
    {
      this.maxSize, this.highestFirst := maxSize, highestFirst;
      entries, ranking, nextId := map[], [], 0;
    }

    ghost function View(): Board
      reads this, ranking
    {
      Board(highestFirst, maxSize, Values(ranking), nextId)
    }

    ghost predicate Valid()
      reads this, ranking
    {
      Agree(entries, ranking) && Good(View())
    }

    /** `ranking.erase` of an entry's position, whose index it also returns. */
    method Unlink(e: Node) returns (i: nat)
      requires e in ranking
      modifies this`ranking
      ensures i < |old(ranking)| && old(ranking)[i] == e
      ensures ranking == Remove(old(ranking), i)
      ensures Values(ranking) == Remove(old(Values(ranking)), i)
    {
      i := 0;
      while ranking[i] != e
        invariant i < |ranking| && e !in ranking[..i]
        decreases |ranking| - i
      {
        i := i + 1;
      }
      ValuesOfRemove(ranking, i);
      ranking := ranking[..i] + ranking[i + 1..];
    }

    /** `ranking.insert`. */
    method Link(e: Node) returns (place: nat)
      modifies this`ranking
      ensures place <= |old(ranking)| && place == old(UpperBound(Order(highestFirst), Values(ranking), e.Value()))
      ensures ranking == InsertAt(old(ranking), place, e)
      ensures Values(ranking) == old(Insert(Order(highestFirst), Values(ranking), e.Value()))
    {
      place := FindPlace(highestFirst, ranking, e);
      ValuesOfInsertAt(ranking, place, e);
      ranking := ranking[..place] + [e] + ranking[place..];
    }

    method RemoveLast()
      requires Agree(entries, ranking) && LastOnce(ranking)
      modifies this`ranking, this`entries
      ensures Agree(entries, ranking)
      ensures ranking == (if old(ranking) == [] then [] else old(ranking)[..|old(ranking)| - 1])
      ensures old(ranking) != [] ==> Values(ranking) == old(Values(ranking))[..|old(ranking)| - 1]
    {
      if ranking == [] {
        return;
      }
      AgreeAfterRemoveLast(entries, ranking);
      ValuesOfSlices(ranking, |ranking| - 1);
      var e := ranking[|ranking| - 1];
      ranking := ranking[..|ranking| - 1];
      entries := entries - {e.name};
    }

    /** A listed player improves: the object leaves the ranking, changes and returns. */
    method Move(entry: Node, s: Submission, ghost i: nat) returns (o: Outcome)
      requires i < |ranking| && ranking[i] == entry && entry !in Remove(ranking, i)
      requires entry.name == s.player && Less(highestFirst, Candidate(s), entry.Value())
      modifies this`ranking, this`nextId, entry
      ensures (View(), o) == Resubmit(old(View()), s, i)
      ensures o.placement.Some? && o.placement.value < |old(ranking)|
      ensures ranking == InsertAt(Remove(old(ranking), i), o.placement.value, entry)
    {
      ghost var b := View();
      var previous := Unlink(entry);
      UniqueIndex(old(ranking), i, previous);
      entry.score := s.score;
      entry.timestamp := s.now;
      entry.id := nextId;
      nextId := nextId + 1;
      ghost var rest := Values(ranking);
      assert rest == Remove(b.rank, i);
      var place := Link(entry);
      ResubmitIs(b, s, i, rest, entry.Value());
      return Outcome(Some(place), Some(previous));
    }

    /** A new player's object joins both structures. */
    method Enroll(entry: Node) returns (place: nat)
      requires Agree(entries, ranking) && LastOnce(ranking) && entry.name !in entries
      modifies this`ranking, this`entries
      ensures Agree(entries, ranking) && LastOnce(ranking)
      ensures place == old(UpperBound(Order(highestFirst), Values(ranking), entry.Value()))
      ensures Values(ranking) == old(Insert(Order(highestFirst), Values(ranking), entry.Value()))
      ensures forall e <- ranking :: e in old(ranking) || e == entry
    {
      place := Link(entry);
      AgreeAfterAdd(entries, old(ranking), place, entry);
      LastOnceAfterAdd(old(ranking), place, entry);
      entries := entries[entry.name := entry];
    }

    /** The worst entry leaves both structures when there is one too many. */
    method TrimToSize()
      requires Agree(entries, ranking) && LastOnce(ranking)
      modifies this`ranking, this`entries
      ensures Agree(entries, ranking) && (forall e <- ranking :: e in old(ranking))
      ensures Values(ranking) == Trim(old(Values(ranking)), maxSize)
    {
      if |ranking| > maxSize {
        RemoveLast();
      }
    }

    method Admits(entry: Node) returns (ok: bool)
      requires maxSize >= 1
      ensures ok <==> |ranking| < maxSize || Less(highestFirst, entry.Value(), Values(ranking)[|ranking| - 1])
    {
      if |ranking| >= maxSize {
        var worst := ranking[|ranking| - 1];
        if !Less(highestFirst, entry.Value(), worst.Value()) {
          return false;
        }
      }
      return true;
    }

    method TryEnroll(entry: Node) returns (o: Outcome)
      requires maxSize >= 1 && Agree(entries, ranking) && LastOnce(ranking) && entry.name !in entries
      modifies this`ranking, this`entries
      ensures Agree(entries, ranking) && (forall e <- ranking :: e in old(ranking) || e == entry)
      ensures (Values(ranking), o) == old(Joined(highestFirst, Values(ranking), maxSize, entry.Value()))
    {
      var ok := Admits(entry);
      if !ok {
        return REJECTED;
      }
      var place := Enroll(entry);
      TrimToSize();
      return Outcome(Some(place), None);
    }

    method SubmitScore(s: Submission) returns (o: Outcome)
      requires Valid()
      modifies this, ranking
      ensures Valid() && (View(), o) == Submit(old(View()), s)
      ensures forall e <- ranking :: e in old(ranking) || fresh(e)
    {
      SubmitKeepsGood(View(), s);
      FiledWhereListed(View(), entries, ranking, s.player);
      if ranking != [] {
        RankedOnce(View(), ranking, |ranking| - 1);
        assert Remove(ranking, |ranking| - 1) == ranking[..|ranking| - 1];
      }
      if s.player in entries {
        RankedOnce(View(), ranking, IndexOf(Values(ranking), s.player));
        o := Update(s);
      } else {
        o := Add(s);
      }
    }

    method Update(s: Submission) returns (o: Outcome)
      requires maxSize >= 1 && Agree(entries, ranking) && s.player in entries
      requires var i := IndexOf(Values(ranking), s.player);
               i < |ranking| && ranking[i] == entries[s.player] && ranking[i] !in Remove(ranking, i)
      modifies this`ranking, this`nextId, ranking
      ensures Agree(entries, ranking) && (View(), o) == Submit(old(View()), s)
      ensures forall e <- ranking :: e in old(ranking)
    {
      var entry := entries[s.player];
      var candidate := Entry("", s.score, s.strayTimestamp, s.strayId);
      if !Less(highestFirst, candidate, entry.Value()) {
        return REJECTED;
      }
      ghost var i := IndexOf(Values(ranking), s.player);
      o := Move(entry, s, i);
      AgreeAfterMove(entries, old(ranking), i, o.placement.value);
      SameMembers(old(ranking), i, o.placement.value);
    }

    method Add(s: Submission) returns (o: Outcome)
      requires maxSize >= 1 && Agree(entries, ranking) && LastOnce(ranking) && s.player !in entries
      modifies this
      ensures Agree(entries, ranking) && (View(), o) == Join(old(View()), s)
      ensures forall e <- ranking :: e in old(ranking) || fresh(e)
    {
      var entry := new Node(Entry(s.player, s.score, s.now, nextId));
      nextId := nextId + 1;
      assert Values(ranking) == old(Values(ranking));
      o := TryEnroll(entry);
    }

    /** `load`, as the constructor calls it: everything is built aside and moved in only if no
        name is repeated. The ranking moved in brings the default comparator with it. */
    method LoadFrom(records: seq<Record>) returns (ok: bool)
      requires maxSize >= 1 && entries == map[] && ranking == [] && nextId == 0
      modifies this
      ensures Valid() && View() == Load(old(highestFirst), maxSize, records)
      ensures ok <==> DistinctNames(Cut(maxSize, records))
      ensures forall e <- ranking :: fresh(e)
    {
      var newEntries, newRanking, count;
      ok, newEntries, newRanking, count := Build(maxSize, records);
      if ok {
        entries, ranking, nextId, highestFirst := newEntries, newRanking, count, true;
      }
      assert View() == Load(old(highestFirst), maxSize, records);
      LoadKeepsRecords([], Cut(maxSize, records), 0);
      LoadIsGood(old(highestFirst), maxSize, records);
    }
  }
}
