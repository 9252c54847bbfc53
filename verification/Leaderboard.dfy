/**
  The leaderboard of src/data_structures/global_boards/leaderboard.hpp, on values.

  `Board` is the ranking with its comparator, the size limit and the id counter; the map from
  names to entries is in LeaderboardClass, where it is proved to agree with the ranking.
  Scores are reals, which order-embed every score type of the library. The clock is a
  parameter, and so are the two fields that the comparison reads uninitialised when a listed
  player submits again.
 */
module Leaderboard {
  import opened Wrappers
  import opened Sequences
  import opened EntryOrder
  import opened Ordering

  datatype Entry = Entry(name: string, score: real, timestamp: int, id: nat)

  predicate Better(highestFirst: bool, x: real, y: real) {
    if highestFirst then x > y else x < y
  }

  /** `leaderboard_entry_comparator`. */
  predicate Less(highestFirst: bool, a: Entry, b: Entry) {
    if a.score != b.score then Better(highestFirst, a.score, b.score)
    else Earlier(a.timestamp, a.id, b.timestamp, b.id)
  }

  function Order(highestFirst: bool): (Entry, Entry) -> bool {
    (a, b) => Less(highestFirst, a, b)
  }

  datatype Board = Board(highestFirst: bool, maxSize: nat, rank: seq<Entry>, nextId: nat)

  function Empty(highestFirst: bool, maxSize: nat): Board {
    Board(highestFirst, maxSize, [], 0)
  }

  /** The position of `name` at or after `from`, or the length if there is none. */
  function IndexOf(rank: seq<Entry>, name: string, from: nat := 0): (i: nat)
    requires from <= |rank|
    ensures from <= i <= |rank|
    ensures i < |rank| ==> rank[i].name == name
    ensures forall j :: from <= j < i ==> rank[j].name != name
    decreases |rank| - from
  {
    if from == |rank| || rank[from].name == name then from else IndexOf(rank, name, from + 1)
  }

  predicate Listed(b: Board, name: string) {
    IndexOf(b.rank, name) < |b.rank|
  }

  /** One call of `submit_score`; the stray fields are those of the uninitialised candidate. */
  datatype Submission = Submission(player: string, score: real, now: int, strayTimestamp: int, strayId: nat)

  datatype Outcome = Outcome(placement: Option<nat>, past: Option<nat>)

  const REJECTED := Outcome(None, None)

  function Candidate(s: Submission): Entry {
    Entry("", s.score, s.strayTimestamp, s.strayId)
  }

  function NewEntry(b: Board, s: Submission): Entry {
    Entry(s.player, s.score, s.now, b.nextId)
  }

  function Resubmit(b: Board, s: Submission, i: nat): (Board, Outcome)
    requires i < |b.rank|
  {
    var less := Order(b.highestFirst);
    if !Less(b.highestFirst, Candidate(s), b.rank[i]) then (b, REJECTED)
    else
      var rest, e := Remove(b.rank, i), NewEntry(b, s);
      (b.(rank := Insert(less, rest, e), nextId := b.nextId + 1),
       Outcome(Some(UpperBound(less, rest, e)), Some(i)))
  }

  /** `remove_last`, when the ranking has grown past the limit. */
  function Trim(rank: seq<Entry>, maxSize: nat): seq<Entry> {
    if |rank| > maxSize && rank != [] then rank[..|rank| - 1] else rank
  }

  /** The ranking after a player who is not listed submits `e`. */
  function Joined(highestFirst: bool, rank: seq<Entry>, maxSize: nat, e: Entry): (seq<Entry>, Outcome)
    requires maxSize >= 1
  {
    var less := Order(highestFirst);
    if |rank| >= maxSize && !Less(highestFirst, e, rank[|rank| - 1]) then (rank, REJECTED)
    else (Trim(Insert(less, rank, e), maxSize), Outcome(Some(UpperBound(less, rank, e)), None))
  }

  function Join(b: Board, s: Submission): (Board, Outcome)
    requires b.maxSize >= 1
  {
    var (rank, o) := Joined(b.highestFirst, b.rank, b.maxSize, NewEntry(b, s));
    (b.(rank := rank, nextId := b.nextId + 1), o)
  }

  /** `submit_score`. */
  function Submit(b: Board, s: Submission): (Board, Outcome)
    requires b.maxSize >= 1
  {
    var i := IndexOf(b.rank, s.player);
    if i < |b.rank| then Resubmit(b, s, i) else Join(b, s)
  }

  function After(b: Board, h: seq<Submission>): Board
    requires b.maxSize >= 1
    decreases |h|
  {
    if h == [] then b else After(Submit(b, h[0]).0, h[1..])
  }

  // ----- the invariant -----

  /** The ranking is strictly sorted, names and ids are unique and ids below the counter. */
  ghost predicate Tidy(highestFirst: bool, rank: seq<Entry>, nextId: nat) {
    && Sorted(Order(highestFirst), rank)
    && (forall i, j :: 0 <= i < j < |rank| ==> rank[i].name != rank[j].name)
    && (forall i, j :: 0 <= i < j < |rank| ==> rank[i].id != rank[j].id)
    && (forall e <- rank :: e.id < nextId)
  }

  ghost predicate Good(b: Board) {
    1 <= b.maxSize && |b.rank| <= b.maxSize && Tidy(b.highestFirst, b.rank, b.nextId)
  }

  lemma OrderTransitive(highestFirst: bool)
    ensures Transitive(Order(highestFirst))
  {
  }

  lemma UniqueAfterInsert(s: seq<Entry>, u: nat, e: Entry)
    requires u <= |s| && forall x <- s :: x.name != e.name && x.id < e.id
    requires forall i, j :: 0 <= i < j < |s| ==> s[i].name != s[j].name
    requires forall i, j :: 0 <= i < j < |s| ==> s[i].id != s[j].id
    ensures var r := InsertAt(s, u, e);
            && (forall i, j :: 0 <= i < j < |r| ==> r[i].name != r[j].name)
            && (forall i, j :: 0 <= i < j < |r| ==> r[i].id != r[j].id)
            && (forall x <- r :: x.id < e.id + 1)
  {
  }

  /** Inserting an entry with a new name and the next id. */
  lemma InsertNew(highestFirst: bool, rest: seq<Entry>, e: Entry)
    requires Tidy(highestFirst, rest, e.id) && forall x <- rest :: x.name != e.name
    ensures var r := Insert(Order(highestFirst), rest, e);
            |r| == |rest| + 1 && Tidy(highestFirst, r, e.id + 1)
  {
    OrderTransitive(highestFirst);
    InsertSorted(Order(highestFirst), rest, e);
    UniqueAfterInsert(rest, UpperBound(Order(highestFirst), rest, e), e);
  }

  lemma RemoveTidy(highestFirst: bool, rank: seq<Entry>, nextId: nat, i: nat)
    requires Tidy(highestFirst, rank, nextId) && i < |rank|
    ensures Tidy(highestFirst, Remove(rank, i), nextId)
    ensures forall x <- Remove(rank, i) :: x.name != rank[i].name
  {
  }

  lemma TrimTidy(highestFirst: bool, rank: seq<Entry>, nextId: nat, maxSize: nat)
    requires Tidy(highestFirst, rank, nextId)
    ensures Tidy(highestFirst, Trim(rank, maxSize), nextId)
  {
  }

  /** The placement is the new entry's index after any eviction, the past index the player's
      index before the change, and a rejection changes nothing in the ranking. */
  ghost predicate Truthful(b: Board, s: Submission, b': Board, o: Outcome) {
    && (o.placement.None? ==> b'.rank == b.rank && o.past.None?)
    && (o.placement.Some? ==>
          && o.placement.value < |b'.rank|
          && b'.rank[o.placement.value] == Entry(s.player, s.score, s.now, b.nextId))
    && (o.past.Some? <==> o.placement.Some? && Listed(b, s.player))
    && (o.past.Some? ==> o.past.value < |b.rank| && b.rank[o.past.value].name == s.player)
  }

  lemma MoveTidy(highestFirst: bool, rank: seq<Entry>, i: nat, e: Entry)
    requires Tidy(highestFirst, rank, e.id) && i < |rank| && rank[i].name == e.name
    ensures var r := Insert(Order(highestFirst), Remove(rank, i), e);
            |r| == |rank| && Tidy(highestFirst, r, e.id + 1)
  {
    RemoveTidy(highestFirst, rank, e.id, i);
    InsertNew(highestFirst, Remove(rank, i), e);
  }

  lemma ResubmitKeepsGood(b: Board, s: Submission)
    requires Good(b) && Listed(b, s.player)
    ensures Good(Submit(b, s).0)
  {
    var i := IndexOf(b.rank, s.player);
    MoveTidy(b.highestFirst, b.rank, i, NewEntry(b, s));
    assert Submit(b, s) == Resubmit(b, s, i);
  }

  lemma NotListed(b: Board, name: string)
    ensures Listed(b, name) <==> exists e <- b.rank :: e.name == name
  {
  }

  /** A name longer than all that are listed. */
  lemma {:induction false} FreshName(rank: seq<Entry>) returns (name: string)
    ensures forall e <- rank :: |e.name| < |name|
  {
    if rank == [] {
      name := "";
    } else {
      var other := FreshName(rank[1..]);
      name := (if |rank[0].name| < |other| then other else rank[0].name) + "+";
      assert rank == [rank[0]] + rank[1..];
    }
  }

  lemma MoreIds(highestFirst: bool, rank: seq<Entry>, nextId: nat)
    requires Tidy(highestFirst, rank, nextId)
    ensures Tidy(highestFirst, rank, nextId + 1)
  {
  }

  lemma JoinKeepsGood(b: Board, s: Submission)
    requires Good(b) && !Listed(b, s.player)
    ensures Good(Submit(b, s).0)
  {
    var e := NewEntry(b, s);
    NotListed(b, s.player);
    MoreIds(b.highestFirst, b.rank, b.nextId);
    InsertNew(b.highestFirst, b.rank, e);
    TrimTidy(b.highestFirst, Insert(Order(b.highestFirst), b.rank, e), b.nextId + 1, b.maxSize);
  }

  lemma SubmitIsTruthful(b: Board, s: Submission)
    requires 1 <= b.maxSize && |b.rank| <= b.maxSize
    ensures var (b', o) := Submit(b, s);
            Truthful(b, s, b', o)
  {
  }

  /** `submit_score` keeps the ranking strictly sorted, names and ids unique, ids below the
      counter and the size within the limit, and what it returns is true. */
  lemma SubmitKeepsGood(b: Board, s: Submission)
    requires Good(b)
    ensures var (b', o) := Submit(b, s);
            Good(b') && Truthful(b, s, b', o) && b'.highestFirst == b.highestFirst && b'.maxSize == b.maxSize
  {
    SubmitIsTruthful(b, s);
    if Listed(b, s.player) {
      ResubmitKeepsGood(b, s);
    } else {
      JoinKeepsGood(b, s);
    }
  }

  lemma {:induction false} AfterIsGood(b: Board, h: seq<Submission>)
    requires Good(b)
    ensures Good(After(b, h)) && After(b, h).highestFirst == b.highestFirst && After(b, h).maxSize == b.maxSize
    decreases |h|
  {
    if h != [] {
      SubmitKeepsGood(b, h[0]);
      AfterIsGood(Submit(b, h[0]).0, h[1..]);
    }
  }

  /** Who gets in: a new player is accepted exactly when the board has room, or the score beats the
      last one, or it equals the last one and the clock is before that entry's time. With a clock
      that never goes back, whoever held a score first keeps the place. */
  lemma JoinAcceptedIff(b: Board, s: Submission)
    requires Good(b) && !Listed(b, s.player)
    ensures Submit(b, s).1.placement.Some? <==>
            || |b.rank| < b.maxSize
            || Better(b.highestFirst, s.score, b.rank[|b.rank| - 1].score)
            || (s.score == b.rank[|b.rank| - 1].score && s.now < b.rank[|b.rank| - 1].timestamp)
  {
    if b.rank != [] {
      assert b.rank[|b.rank| - 1] in b.rank;
    }
  }

  /** `x` stands before `y`: a better score, or the same score earlier, or at the same time entered
      before. */
  predicate StandsBefore(highestFirst: bool, x: Entry, y: Entry) {
    || (if highestFirst then x.score > y.score else x.score < y.score)
    || (x.score == y.score && x.timestamp < y.timestamp)
    || (x.score == y.score && x.timestamp == y.timestamp && x.id < y.id)
  }

  lemma RankingOrder(b: Board)
    requires Good(b)
    ensures forall i, j :: 0 <= i < j < |b.rank| ==> StandsBefore(b.highestFirst, b.rank[i], b.rank[j])
  {
    forall i, j | 0 <= i < j < |b.rank| ensures StandsBefore(b.highestFirst, b.rank[i], b.rank[j]) {
      assert Order(b.highestFirst)(b.rank[i], b.rank[j]);
    }
  }

  // ----- when a listed player's rank goes down -----

  /** A new entry is placed after everything that is not greater than it. */
  lemma PlacedAfter(highestFirst: bool, rest: seq<Entry>, e: Entry, i: nat)
    requires Sorted(Order(highestFirst), rest) && i <= |rest|
    requires i > 0 ==> !Less(highestFirst, e, rest[i - 1])
    ensures UpperBound(Order(highestFirst), rest, e) >= i
  {
    forall j | 0 <= j < i ensures !Order(highestFirst)(e, rest[j]) {
      assert j < i - 1 ==> Order(highestFirst)(rest[j], rest[i - 1]);
    }
  }

  lemma RemoveSorted(highestFirst: bool, rank: seq<Entry>, i: nat)
    requires Sorted(Order(highestFirst), rank) && i < |rank|
    ensures Sorted(Order(highestFirst), Remove(rank, i))
  {
  }

  /** Where an entry goes that takes the place of entry `i`. */
  lemma Moved(highestFirst: bool, rank: seq<Entry>, i: nat, e: Entry)
    requires Sorted(Order(highestFirst), rank) && i < |rank|
    ensures var u := UpperBound(Order(highestFirst), Remove(rank, i), e);
            && (u > i <==> i + 1 < |rank| && !Less(highestFirst, e, rank[i + 1]))
            && (Less(highestFirst, rank[i], e) ==> u >= i)
  {
    var rest := Remove(rank, i);
    RemoveSorted(highestFirst, rank, i);
    assert i + 1 < |rank| ==> rest[i] == rank[i + 1];
    if i + 1 < |rank| && !Less(highestFirst, e, rank[i + 1]) {
      PlacedAfter(highestFirst, rest, e, i + 1);
    }
    if Less(highestFirst, rank[i], e) {
      assert i > 0 ==> Order(highestFirst)(rank[i - 1], rank[i]);
      PlacedAfter(highestFirst, rest, e, i);
    }
  }

  /** A resubmission is accepted if its score is better, or if it is equal and the stray fields of
      the candidate come first. */
  lemma ResubmissionAcceptedIff(b: Board, s: Submission)
    requires b.maxSize >= 1 && Listed(b, s.player)
    ensures var was := b.rank[IndexOf(b.rank, s.player)];
            Submit(b, s).1.placement.Some? <==>
              || Better(b.highestFirst, s.score, was.score)
              || (s.score == was.score && s.strayTimestamp < was.timestamp)
              || (s.score == was.score && s.strayTimestamp == was.timestamp && s.strayId < was.id)
  {
  }

  /** An accepted resubmission lowers the player's rank if and only if the next player has held the
      submitted score since no later than now. So a better score never does, and an equal score
      never raises the rank unless the clock has gone back. */
  lemma ResubmissionLowersIff(b: Board, s: Submission)
    requires Good(b) && Listed(b, s.player) && Submit(b, s).1.placement.Some?
    ensures var i := IndexOf(b.rank, s.player);
            var was, placement := b.rank[i], Submit(b, s).1.placement.value;
            && (placement > i <==>
                  i + 1 < |b.rank| && b.rank[i + 1].score == s.score && b.rank[i + 1].timestamp <= s.now)
            && (Better(b.highestFirst, s.score, was.score) ==> placement <= i)
            && (s.score == was.score && was.timestamp <= s.now ==> placement >= i)
  {
    var i := IndexOf(b.rank, s.player);
    var was := b.rank[i];
    Moved(b.highestFirst, b.rank, i, NewEntry(b, s));
    assert was in b.rank;
    if i + 1 < |b.rank| {
      assert b.rank[i + 1] in b.rank && Order(b.highestFirst)(was, b.rank[i + 1]);
    }
  }

  predicate LowersRank(b: Board, s: Submission)
    requires b.maxSize >= 1
  {
    var o := Submit(b, s).1;
    o.placement.Some? && o.past.Some? && o.placement.value > o.past.value
  }

  /** The rank falls for some values of the fields that are never set. */
  ghost predicate MayLower(b: Board, player: string, score: real, now: int)
    requires b.maxSize >= 1
  {
    exists strayTimestamp, strayId ::
      LowersRank(b, Submission(player, score, now, strayTimestamp, strayId))
  }

  /** What a caller can tell beforehand: submitting may lower the player's rank if and only if it
      repeats the player's score, and the next player has held the same score since no later
      than now. */
  lemma MayLowerIff(b: Board, player: string, score: real, now: int)
    requires Good(b) && Listed(b, player)
    ensures var i := IndexOf(b.rank, player);
            MayLower(b, player, score, now) <==>
              && i + 1 < |b.rank|
              && b.rank[i].score == score == b.rank[i + 1].score
              && b.rank[i + 1].timestamp <= now
  {
    var i := IndexOf(b.rank, player);
    forall strayTimestamp, strayId: nat
      ensures LowersRank(b, Submission(player, score, now, strayTimestamp, strayId)) ==>
                && i + 1 < |b.rank|
                && b.rank[i].score == score == b.rank[i + 1].score
                && b.rank[i + 1].timestamp <= now
    {
      var s := Submission(player, score, now, strayTimestamp, strayId);
      ResubmissionAcceptedIff(b, s);
      if Submit(b, s).1.placement.Some? {
        ResubmissionLowersIff(b, s);
      }
    }
    var early := Submission(player, score, now, b.rank[i].timestamp - 1, 0);
    ResubmissionAcceptedIff(b, early);
    if b.rank[i].score == score {
      ResubmissionLowersIff(b, early);
    }
    assert LowersRank(b, early) ==> MayLower(b, player, score, now);
  }

  /** Two players tied, and the first of them repeats the same score: it is accepted, and the
      player falls behind the other. */
  lemma EqualScoreLowersRank()
    ensures var b := Board(true, 2, [Entry("a", 1.0, 0, 0), Entry("b", 1.0, 0, 1)], 2);
            && Good(b)
            && Submit(b, Submission("a", 1.0, 0, -1, 0)).1 == Outcome(Some(1), Some(0))
  {
    var b := Board(true, 2, [Entry("a", 1.0, 0, 0), Entry("b", 1.0, 0, 1)], 2);
    assert "a"[0] != "b"[0];
    assert Tidy(true, b.rank, 2);
    assert IndexOf(b.rank, "a") == 0;
    ResubmissionAcceptedIff(b, Submission("a", 1.0, 0, -1, 0));
    ResubmissionLowersIff(b, Submission("a", 1.0, 0, -1, 0));
  }
}
