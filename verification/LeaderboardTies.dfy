/**
  Ties on the leaderboard: exactly what one submission changes, and who keeps a place that two
  players have an equal claim to (src/data_structures/global_boards/leaderboard.hpp:73-138).
 */
module LeaderboardTies {
  import opened Wrappers
  import opened Sequences
  import opened Ordering
  import opened Leaderboard
  import opened LeaderboardTopK

  // ----- one submission -----

  /** A full board gives up its last entry for a new player. */
  predicate Evicted(b: Board, s: Submission, x: Entry) {
    !Listed(b, s.player) && |b.rank| == b.maxSize && b.rank != [] && x == b.rank[|b.rank| - 1]
  }

  /** Whether `submit_score` accepts, what the ranking then holds, in which order, and which id comes
      next: together they leave one possible result. */
  lemma SubmitExactly(b: Board, s: Submission)
    requires Good(b)
    ensures var (b', o) := Submit(b, s);
            var e := Entry(s.player, s.score, s.now, b.nextId);
            && (o.placement.None? ==> b'.rank == b.rank)
            && (o.placement.Some? ==>
                  forall x :: x in b'.rank <==>
                                x == e || (x in b.rank && x.name != s.player && !Evicted(b, s, x)))
            && (forall i, j :: 0 <= i < j < |b'.rank| ==> StandsBefore(b.highestFirst, b'.rank[i], b'.rank[j]))
            && b'.nextId == b.nextId + if Listed(b, s.player) && o.placement.None? then 0 else 1
  {
    SubmitKeepsGood(b, s);
    RankingOrder(Submit(b, s).0);
    NotListed(b, s.player);
    if Submit(b, s).1.placement.Some? {
      if Listed(b, s.player) {
        ResubmitMembers(b, s);
      } else {
        JoinMembers(b, s);
      }
    }
  }

  // ----- first come, first served -----

  /** When `player` first submitted the score that is their best. */
  function Reached(highestFirst: bool, h: seq<Submission>, player: string): int {
    if h == [] then 0
    else
      var past, s := h[..|h| - 1], h[|h| - 1];
      var earlier := Best(highestFirst, past, player);
      if s.player == player && (earlier.None? || Better(highestFirst, s.score, earlier.value))
      then s.now else Reached(highestFirst, past, player)
  }

  lemma ReachedSnoc(highestFirst: bool, h: seq<Submission>, s: Submission, player: string)
    ensures Reached(highestFirst, h + [s], player) ==
            var earlier := Best(highestFirst, h, player);
            if s.player == player && (earlier.None? || Better(highestFirst, s.score, earlier.value))
            then s.now else Reached(highestFirst, h, player)
  {
  }

  lemma {:induction false} OnlyWorseBefore(highestFirst: bool, h: seq<Submission>, s: Submission)
    requires var earlier := Best(highestFirst, h, s.player);
             earlier.None? || Better(highestFirst, s.score, earlier.value)
    ensures forall j :: 0 <= j < |h| && h[j].player == s.player ==> h[j].score != s.score
  {
    BestIsBest(highestFirst, h, s.player);
    forall j | 0 <= j < |h| && h[j].player == s.player ensures h[j].score != s.score {
      assert h[j] in h;
    }
  }

  /** It is the time of the first of the player's submissions with their best score. */
  lemma {:induction false} ReachedIsFirst(highestFirst: bool, h: seq<Submission>, player: string) returns (k: nat)
    requires Best(highestFirst, h, player).Some?
    ensures k < |h| && h[k].player == player
    ensures Best(highestFirst, h, player) == Some(h[k].score) && h[k].now == Reached(highestFirst, h, player)
    ensures forall j :: 0 <= j < k && h[j].player == player ==> h[j].score != h[k].score
    decreases |h|
  {
    var past, s := h[..|h| - 1], h[|h| - 1];
    var earlier := Best(highestFirst, past, player);
    assert h == past + [s];
    BestSnoc(highestFirst, past, s, player);
    ReachedSnoc(highestFirst, past, s, player);
    if s.player == player && (earlier.None? || Better(highestFirst, s.score, earlier.value)) {
      k := |past|;
      OnlyWorseBefore(highestFirst, past, s);
    } else {
      k := ReachedIsFirst(highestFirst, past, player);
    }
  }

  /** A listed player's equal score is accepted, which the uninitialised fields decide. */
  predicate Refreshes(b: Board, s: Submission)
    requires b.maxSize >= 1
  {
    var i := IndexOf(b.rank, s.player);
    i < |b.rank| && s.score == b.rank[i].score && Submit(b, s).1.placement.Some?
  }

  /** Entries carry the time their score was reached. */
  ghost predicate Dated(b: Board, h: seq<Submission>, now: int) {
    forall e <- b.rank :: e.timestamp == Reached(b.highestFirst, h, e.name) && e.timestamp <= now
  }

  /** A player who is left out with the score of a listed one reached it no earlier. */
  ghost predicate Fair(b: Board, h: seq<Submission>) {
    forall p: string, e | e in b.rank && !Listed(b, p) && Best(b.highestFirst, h, p) == Some(e.score) ::
      e.timestamp <= Reached(b.highestFirst, h, p)
  }

  ghost predicate FairInv(b: Board, h: seq<Submission>, now: int) {
    Inv(b, h) && Dated(b, h, now) && Fair(b, h)
  }

  lemma RejectionKeepsFair(b: Board, h: seq<Submission>, s: Submission, now: int)
    requires FairInv(b, h, now) && now <= s.now && Submit(b, s).1.placement.None?
    ensures FairInv(Submit(b, s).0, h + [s], s.now)
  {
    var b' := Submit(b, s).0;
    RejectionKeepsInv(b, h, s);
    RejectedIsNoBetter(b, h, s);
    NotListed(b, s.player);
    forall e <- b'.rank ensures e.timestamp == Reached(b.highestFirst, h + [s], e.name) && e.timestamp <= s.now {
      BestSnoc(b.highestFirst, h, s, e.name);
      ReachedSnoc(b.highestFirst, h, s, e.name);
    }
    forall p: string, e | e in b'.rank && !Listed(b', p) && Best(b.highestFirst, h + [s], p) == Some(e.score)
      ensures e.timestamp <= Reached(b.highestFirst, h + [s], p)
    {
      BestSnoc(b.highestFirst, h, s, p);
      ReachedSnoc(b.highestFirst, h, s, p);
    }
  }

  lemma ResubmitStaysDated(b: Board, h: seq<Submission>, s: Submission, now: int)
    requires Good(b) && ListedAreBest(b, h) && Dated(b, h, now) && now <= s.now
    requires Listed(b, s.player) && Submit(b, s).1.placement.Some? && !Refreshes(b, s)
    ensures Dated(Submit(b, s).0, h + [s], s.now)
  {
    var former := b.rank[IndexOf(b.rank, s.player)];
    ResubmitMembers(b, s);
    ResubmissionAcceptedIff(b, s);
    assert former in b.rank;
    forall e <- Submit(b, s).0.rank
      ensures e.timestamp == Reached(b.highestFirst, h + [s], e.name) && e.timestamp <= s.now
    {
      ReachedSnoc(b.highestFirst, h, s, e.name);
    }
  }

  lemma ResubmitStaysFair(b: Board, h: seq<Submission>, s: Submission, p: string, e: Entry)
    requires Good(b) && UnlistedAreNoBetter(b, h) && Fair(b, h)
    requires Listed(b, s.player) && Submit(b, s).1.placement.Some? && !Refreshes(b, s)
    requires e in Submit(b, s).0.rank && !Listed(Submit(b, s).0, p)
    requires Best(b.highestFirst, h + [s], p) == Some(e.score)
    ensures e.timestamp <= Reached(b.highestFirst, h + [s], p)
  {
    var b' := Submit(b, s).0;
    var former := b.rank[IndexOf(b.rank, s.player)];
    ResubmitMembers(b, s);
    ResubmissionAcceptedIff(b, s);
    NotListed(b, p);
    NotListed(b', p);
    assert former in b.rank && NewEntry(b, s) in b'.rank;
    BestSnoc(b.highestFirst, h, s, p);
    ReachedSnoc(b.highestFirst, h, s, p);
  }

  lemma ResubmitKeepsFair(b: Board, h: seq<Submission>, s: Submission, now: int)
    requires FairInv(b, h, now) && now <= s.now
    requires Listed(b, s.player) && Submit(b, s).1.placement.Some? && !Refreshes(b, s)
    ensures FairInv(Submit(b, s).0, h + [s], s.now)
  {
    var b' := Submit(b, s).0;
    ResubmitKeepsInv(b, h, s);
    ResubmitStaysDated(b, h, s, now);
    forall p: string, e | e in b'.rank && !Listed(b', p) && Best(b.highestFirst, h + [s], p) == Some(e.score)
      ensures e.timestamp <= Reached(b.highestFirst, h + [s], p)
    {
      ResubmitStaysFair(b, h, s, p, e);
    }
  }

  /** With a clock that does not go back, a full board is entered only with a better score than the
      last one's, so only with a new best. */
  lemma JoinIsNews(b: Board, h: seq<Submission>, s: Submission, now: int)
    requires Inv(b, h) && Dated(b, h, now) && now <= s.now
    requires !Listed(b, s.player) && Submit(b, s).1.placement.Some?
    ensures |b.rank| == b.maxSize ==> Better(b.highestFirst, s.score, b.rank[|b.rank| - 1].score)
    ensures var earlier := Best(b.highestFirst, h, s.player);
            earlier.None? || Better(b.highestFirst, s.score, earlier.value)
  {
    JoinAcceptedIff(b, s);
    if |b.rank| == b.maxSize {
      assert b.rank[|b.rank| - 1] in b.rank;
    }
  }

  lemma JoinStaysDated(b: Board, h: seq<Submission>, s: Submission, now: int)
    requires Inv(b, h) && Dated(b, h, now) && now <= s.now
    requires !Listed(b, s.player) && Submit(b, s).1.placement.Some?
    ensures Dated(Submit(b, s).0, h + [s], s.now)
  {
    JoinIsNews(b, h, s, now);
    JoinMembers(b, s);
    NotListed(b, s.player);
    forall e <- Submit(b, s).0.rank
      ensures e.timestamp == Reached(b.highestFirst, h + [s], e.name) && e.timestamp <= s.now
    {
      ReachedSnoc(b.highestFirst, h, s, e.name);
    }
  }

  /** Among equal scores the last entry is the latest. */
  lemma LastIsLatest(b: Board, e: Entry)
    requires Good(b) && e in b.rank && e.score == b.rank[|b.rank| - 1].score
    ensures e.timestamp <= b.rank[|b.rank| - 1].timestamp
  {
    var i :| 0 <= i < |b.rank| && b.rank[i] == e;
    RankingOrder(b);
  }

  lemma JoinStaysFair(b: Board, h: seq<Submission>, s: Submission, now: int, p: string, e: Entry)
    requires FairInv(b, h, now) && now <= s.now
    requires !Listed(b, s.player) && Submit(b, s).1.placement.Some?
    requires e in Submit(b, s).0.rank && !Listed(Submit(b, s).0, p)
    requires Best(b.highestFirst, h + [s], p) == Some(e.score)
    ensures e.timestamp <= Reached(b.highestFirst, h + [s], p)
  {
    var b' := Submit(b, s).0;
    JoinIsNews(b, h, s, now);
    JoinMembers(b, s);
    NotListed(b, p);
    NotListed(b', p);
    assert NewEntry(b, s) in b'.rank;
    BestSnoc(b.highestFirst, h, s, p);
    ReachedSnoc(b.highestFirst, h, s, p);
    if Listed(b, p) {
      var last := b.rank[|b.rank| - 1];
      assert b.rank[IndexOf(b.rank, p)] in b.rank;
      assert last in b.rank && last.name == p && last.score == e.score;
      LastIsLatest(b, e);
    } else {
      assert |b.rank| == b.maxSize && b.rank[|b.rank| - 1] in b.rank;
    }
  }

  lemma JoinKeepsFair(b: Board, h: seq<Submission>, s: Submission, now: int)
    requires FairInv(b, h, now) && now <= s.now
    requires !Listed(b, s.player) && Submit(b, s).1.placement.Some?
    ensures FairInv(Submit(b, s).0, h + [s], s.now)
  {
    var b' := Submit(b, s).0;
    JoinKeepsInv(b, h, s);
    JoinStaysDated(b, h, s, now);
    forall p: string, e | e in b'.rank && !Listed(b', p) && Best(b.highestFirst, h + [s], p) == Some(e.score)
      ensures e.timestamp <= Reached(b.highestFirst, h + [s], p)
    {
      JoinStaysFair(b, h, s, now, p, e);
    }
  }

  /** The clock never goes back. */
  ghost predicate InOrder(h: seq<Submission>) {
    forall i, j :: 0 <= i < j < |h| ==> h[i].now <= h[j].now
  }

  /** No equal score of a listed player is ever accepted. */
  ghost predicate NeverRefreshed(b: Board, h: seq<Submission>)
    requires b.maxSize >= 1
  {
    forall k | 0 <= k < |h| :: NotRefreshedAt(b, h, k)
  }

  ghost predicate NotRefreshedAt(b: Board, h: seq<Submission>, k: nat)
    requires b.maxSize >= 1 && k < |h|
  {
    var past := After(b, h[..k]);
    past.maxSize >= 1 ==> !Refreshes(past, h[k])
  }

  lemma FairStep(b: Board, h: seq<Submission>, s: Submission, now: int)
    requires FairInv(b, h, now) && now <= s.now && !Refreshes(b, s)
    ensures FairInv(Submit(b, s).0, h + [s], s.now)
  {
    if Submit(b, s).1.placement.None? {
      RejectionKeepsFair(b, h, s, now);
    } else if Listed(b, s.player) {
      ResubmitKeepsFair(b, h, s, now);
    } else {
      JoinKeepsFair(b, h, s, now);
    }
  }

  lemma ShorterHistory(b: Board, h: seq<Submission>)
    requires b.maxSize >= 1 && h != [] && InOrder(h) && NeverRefreshed(b, h)
    ensures var past, s := h[..|h| - 1], h[|h| - 1];
            && InOrder(past) && NeverRefreshed(b, past) && (forall x <- past :: x.now <= s.now)
            && NotRefreshedAt(b, h, |past|) && h == past + [s]
  {
    var past, s := h[..|h| - 1], h[|h| - 1];
    forall k | 0 <= k < |past| ensures NotRefreshedAt(b, past, k) {
      assert NotRefreshedAt(b, h, k) && h[..k] == past[..k];
    }
    forall x <- past ensures x.now <= s.now {
      var i :| 0 <= i < |past| && past[i] == x;
    }
  }

  lemma FairLater(b: Board, h: seq<Submission>, before: int, now: int)
    requires FairInv(b, h, before) && before <= now
    ensures FairInv(b, h, now)
  {
  }

  lemma {:induction false} FairAlways(highestFirst: bool, maxSize: nat, h: seq<Submission>, now: int)
    requires maxSize >= 1 && InOrder(h) && NeverRefreshed(Empty(highestFirst, maxSize), h)
    requires forall s <- h :: s.now <= now
    ensures FairInv(After(Empty(highestFirst, maxSize), h), h, now)
    decreases |h|
  {
    var b0 := Empty(highestFirst, maxSize);
    InvAlways(highestFirst, maxSize, h);
    if h != [] {
      var past, s := h[..|h| - 1], h[|h| - 1];
      ShorterHistory(b0, h);
      FairAlways(highestFirst, maxSize, past, s.now);
      AfterSnoc(b0, past, s);
      assert h[..|past|] == past;
      FairStep(After(b0, past), past, s, s.now);
      FairLater(After(b0, h), h, s.now, now);
    }
  }

  /** First come, first served: whoever is left out with a score that a listed player has as well
      reached it no earlier than that player. */
  ghost predicate FirstComeFirstServed(highestFirst: bool, maxSize: nat, h: seq<Submission>)
    requires maxSize >= 1
  {
    var b := After(Empty(highestFirst, maxSize), h);
    forall p: string, e | e in b.rank && !Listed(b, p) && Best(highestFirst, h, p) == Some(e.score) ::
      Reached(highestFirst, h, e.name) <= Reached(highestFirst, h, p)
  }

  /** It holds after every history with a clock that never goes back, unless an equal score of a
      listed player was accepted on the way. */
  lemma ServedUnlessRefreshed(highestFirst: bool, maxSize: nat, h: seq<Submission>)
    requires maxSize >= 1 && InOrder(h) && NeverRefreshed(Empty(highestFirst, maxSize), h)
    ensures FirstComeFirstServed(highestFirst, maxSize, h)
  {
    InvAlways(highestFirst, maxSize, h);
    FairAlways(highestFirst, maxSize, h, if h == [] then 0 else h[|h| - 1].now);
  }

  // ----- a board of one place -----

  /** The invariant that survives refreshed entries, as long as nobody is evicted by a tie. */
  ghost predicate ServedInv(b: Board, h: seq<Submission>, now: int) {
    && Inv(b, h)
    && (forall e <- b.rank :: e.timestamp <= now)
    && (forall p: string, e | e in b.rank && !Listed(b, p) && Best(b.highestFirst, h, p) == Some(e.score) ::
          Reached(b.highestFirst, h, e.name) <= Reached(b.highestFirst, h, p))
  }

  lemma {:induction false} ReachedIsPast(highestFirst: bool, h: seq<Submission>, player: string, now: int)
    requires Best(highestFirst, h, player).Some? && forall s <- h :: s.now <= now
    ensures Reached(highestFirst, h, player) <= now
  {
    var k := ReachedIsFirst(highestFirst, h, player);
    assert h[k] in h;
  }

  lemma OnePlaceJoin(b: Board, h: seq<Submission>, s: Submission, now: int, p: string, e: Entry)
    requires ServedInv(b, h, now) && b.maxSize == 1 && now <= s.now
    requires !Listed(b, s.player) && Submit(b, s).1.placement.Some?
    requires e in Submit(b, s).0.rank && !Listed(Submit(b, s).0, p)
    ensures Best(b.highestFirst, h + [s], p) != Some(e.score)
  {
    var b' := Submit(b, s).0;
    JoinAcceptedIff(b, s);
    JoinMembers(b, s);
    NotListed(b, p);
    NotListed(b', p);
    assert NewEntry(b, s) in b'.rank;
    BestSnoc(b.highestFirst, h, s, p);
    if b.rank != [] {
      assert b.rank[0] in b.rank && (forall x <- b.rank :: x == b.rank[0]);
      assert e == NewEntry(b, s);
    }
  }

  lemma OnePlaceOther(b: Board, h: seq<Submission>, s: Submission, now: int, p: string, e: Entry)
    requires ServedInv(b, h, now) && b.maxSize == 1 && now <= s.now && (forall x <- h :: x.now <= now)
    requires Listed(b, s.player) || Submit(b, s).1.placement.None?
    requires e in Submit(b, s).0.rank && !Listed(Submit(b, s).0, p)
    requires Best(b.highestFirst, h + [s], p) == Some(e.score)
    ensures Reached(b.highestFirst, h + [s], e.name) <= Reached(b.highestFirst, h + [s], p)
  {
    var b' := Submit(b, s).0;
    NotListed(b, p);
    NotListed(b', p);
    BestSnoc(b.highestFirst, h, s, p);
    ReachedSnoc(b.highestFirst, h, s, p);
    ReachedSnoc(b.highestFirst, h, s, e.name);
    if Submit(b, s).1.placement.None? {
      RejectedIsNoBetter(b, h, s);
      NotListed(b, s.player);
      ReachedIsPast(b.highestFirst, h, e.name, now);
    } else {
      var former := b.rank[IndexOf(b.rank, s.player)];
      ResubmitMembers(b, s);
      assert former in b.rank && NewEntry(b, s) in b'.rank;
    }
  }

  lemma OnePlaceStep(b: Board, h: seq<Submission>, s: Submission, now: int)
    requires ServedInv(b, h, now) && b.maxSize == 1 && now <= s.now && (forall x <- h :: x.now <= now)
    ensures ServedInv(Submit(b, s).0, h + [s], s.now)
  {
    var b' := Submit(b, s).0;
    SubmitKeepsInv(b, h, s);
    SubmitExactly(b, s);
    forall p: string, e | e in b'.rank && !Listed(b', p) && Best(b.highestFirst, h + [s], p) == Some(e.score)
      ensures Reached(b.highestFirst, h + [s], e.name) <= Reached(b.highestFirst, h + [s], p)
    {
      if Listed(b, s.player) || Submit(b, s).1.placement.None? {
        OnePlaceOther(b, h, s, now, p, e);
      } else {
        OnePlaceJoin(b, h, s, now, p, e);
      }
    }
  }

  lemma {:induction false} OnePlaceAlways(highestFirst: bool, h: seq<Submission>, now: int)
    requires InOrder(h) && forall s <- h :: s.now <= now
    ensures ServedInv(After(Empty(highestFirst, 1), h), h, now)
    decreases |h|
  {
    InvAlways(highestFirst, 1, h);
    if h != [] {
      var past, s := h[..|h| - 1], h[|h| - 1];
      assert h == past + [s];
      forall s' <- past ensures s'.now <= s.now {
        var i :| 0 <= i < |past| && past[i] == s';
      }
      OnePlaceAlways(highestFirst, past, s.now);
      AfterSnoc(Empty(highestFirst, 1), past, s);
      InvAlways(highestFirst, 1, past);
      OnePlaceStep(After(Empty(highestFirst, 1), past), past, s, s.now);
    }
  }

  // ----- a board of more places -----

  /** The `k`-th score from the bottom. */
  function Grade(highestFirst: bool, k: int): real {
    if highestFirst then k as real else -(k as real)
  }

  predicate Filler(highestFirst: bool, s: Submission) {
    s.player != "" && s.player[0] == 'f' && s.score == Grade(highestFirst, 2) && s.now == 0
  }

  /** `n` players with the top score take `n` places. */
  lemma {:induction false} Fill(highestFirst: bool, maxSize: nat, n: nat) returns (h: seq<Submission>)
    requires 1 <= maxSize && n <= maxSize
    ensures |After(Empty(highestFirst, maxSize), h).rank| == n
    ensures forall s <- h :: Filler(highestFirst, s)
  {
    var b0 := Empty(highestFirst, maxSize);
    if n == 0 {
      h := [];
    } else {
      var past := Fill(highestFirst, maxSize, n - 1);
      InvAlways(highestFirst, maxSize, past);
      var b := After(b0, past);
      var fresh0 := FreshName(b.rank);
      var s := Submission("f" + fresh0, Grade(highestFirst, 2), 0, 0, 0);
      NotListed(b, s.player);
      JoinAcceptedIff(b, s);
      JoinMembers(b, s);
      AfterSnoc(b0, past, s);
      h := past + [s];
    }
  }

  /** Nobody but the players of a history has a best score, and listed players are among them. */
  lemma Strangers(highestFirst: bool, maxSize: nat, h: seq<Submission>, name: string)
    requires maxSize >= 1 && forall s <- h :: s.player != name
    ensures Best(highestFirst, h, name).None?
    ensures !Listed(After(Empty(highestFirst, maxSize), h), name)
  {
    BestIsBest(highestFirst, h, name);
    InvAlways(highestFirst, maxSize, h);
    var b := After(Empty(highestFirst, maxSize), h);
    NotListed(b, name);
  }

  /** An entry that everybody else stands before is the last one. */
  lemma StandsLast(b: Board, x: Entry)
    requires Good(b) && x in b.rank && forall y <- b.rank :: y != x ==> StandsBefore(b.highestFirst, y, x)
    ensures b.rank[|b.rank| - 1] == x
  {
    var i :| 0 <= i < |b.rank| && b.rank[i] == x;
    RankingOrder(b);
    var last := b.rank[|b.rank| - 1];
    assert last in b.rank;
    assert i < |b.rank| - 1 ==> StandsBefore(b.highestFirst, x, last);
  }

  /** Two players with the worst score, the first of whom repeats it and is accepted; then a better
      player comes. */
  function Tie(highestFirst: bool, k: nat): Submission
    requires k < 4
  {
    var low := Grade(highestFirst, 0);
    if k == 0 then Submission("a", low, 0, 0, 0)
    else if k == 1 then Submission("b", low, 1, 0, 0)
    else if k == 2 then Submission("a", low, 2, -1, 0)
    else Submission("d", Grade(highestFirst, 1), 3, 0, 0)
  }

  function ThenTie(h: seq<Submission>, highestFirst: bool): seq<Submission> {
    h + [Tie(highestFirst, 0)] + [Tie(highestFirst, 1)] + [Tie(highestFirst, 2)] + [Tie(highestFirst, 3)]
  }

  lemma Names()
    ensures "a" != "b" && "a" != "d" && "b" != "d"
  {
    assert "a"[0] != "b"[0] && "a"[0] != "d"[0] && "b"[0] != "d"[0];
  }

  /** All but two places are taken, by better players with other names. */
  ghost predicate TwoLeft(b: Board) {
    && Good(b) && |b.rank| + 2 == b.maxSize
    && forall e <- b.rank :: e.score == Grade(b.highestFirst, 2) && e.name != "a" && e.name != "b" && e.name != "d"
  }

  /** The board is full; the tied players are `a` and `b`, all others are better. */
  ghost predicate Tied(b: Board, a: Entry, other: Entry) {
    && Good(b) && |b.rank| == b.maxSize && a in b.rank && other in b.rank
    && a.name == "a" && other.name == "b"
    && a.score == other.score == Grade(b.highestFirst, 0) && other.timestamp == 1
    && forall e <- b.rank | e != a && e != other ::
         e.score == Grade(b.highestFirst, 2) && e.name != "a" && e.name != "b" && e.name != "d"
  }

  lemma TieArises(b: Board) returns (b': Board, a: Entry, other: Entry)
    requires TwoLeft(b)
    ensures b' == Submit(Submit(b, Tie(b.highestFirst, 0)).0, Tie(b.highestFirst, 1)).0
    ensures Tied(b', a, other) && a.timestamp == 0 && b'.highestFirst == b.highestFirst && b'.maxSize == b.maxSize
  {
    var first, second := Tie(b.highestFirst, 0), Tie(b.highestFirst, 1);
    Names();
    NotListed(b, "a");
    JoinAcceptedIff(b, first);
    SubmitKeepsGood(b, first);
    JoinMembers(b, first);
    var b1 := Submit(b, first).0;
    NotListed(b1, "b");
    JoinAcceptedIff(b1, second);
    SubmitKeepsGood(b1, second);
    JoinMembers(b1, second);
    b', a, other := Submit(b1, second).0, NewEntry(b, first), NewEntry(b1, second);
  }

  lemma TieIsReversed(b: Board, a: Entry, other: Entry) returns (b': Board, a': Entry)
    requires Tied(b, a, other) && a.timestamp == 0
    ensures b' == Submit(b, Tie(b.highestFirst, 2)).0
    ensures Tied(b', a', other) && a'.timestamp == 2 && b'.highestFirst == b.highestFirst && b'.maxSize == b.maxSize
  {
    var s := Tie(b.highestFirst, 2);
    Names();
    NotListed(b, "a");
    var former := b.rank[IndexOf(b.rank, "a")];
    assert former in b.rank && former == a;
    ResubmissionAcceptedIff(b, s);
    SubmitKeepsGood(b, s);
    ResubmitMembers(b, s);
    b', a' := Submit(b, s).0, NewEntry(b, s);
  }

  lemma TieIsLost(b: Board, a: Entry, other: Entry)
    requires Tied(b, a, other) && a.timestamp == 2
    ensures var b' := Submit(b, Tie(b.highestFirst, 3)).0;
            other in b'.rank && !Listed(b', "a")
  {
    var s := Tie(b.highestFirst, 3);
    Names();
    StandsLast(b, a);
    NotListed(b, "d");
    JoinAcceptedIff(b, s);
    JoinMembers(b, s);
    var b' := Submit(b, s).0;
    NotListed(b', "a");
  }

  lemma FillLeavesTwo(highestFirst: bool, maxSize: nat, h: seq<Submission>)
    requires maxSize >= 2 && |After(Empty(highestFirst, maxSize), h).rank| == maxSize - 2
    requires forall s <- h :: Filler(highestFirst, s)
    ensures TwoLeft(After(Empty(highestFirst, maxSize), h))
    ensures Best(highestFirst, h, "a").None? && Best(highestFirst, h, "b").None?
  {
    var b := After(Empty(highestFirst, maxSize), h);
    InvAlways(highestFirst, maxSize, h);
    Strangers(highestFirst, maxSize, h, "a");
    Strangers(highestFirst, maxSize, h, "b");
    Strangers(highestFirst, maxSize, h, "d");
    NotListed(b, "a");
    NotListed(b, "b");
    NotListed(b, "d");
    forall e <- b.rank ensures e.score == Grade(highestFirst, 2) {
      BestIsBest(highestFirst, h, e.name);
      var s :| s in h && s.player == e.name && s.score == e.score;
      assert Filler(highestFirst, s);
    }
  }

  /** The board after a history and the four submissions of the tie. */
  lemma AfterTie(b0: Board, h: seq<Submission>, highestFirst: bool)
    requires b0.maxSize >= 1
    ensures After(b0, h).maxSize >= 1
    ensures var b2 := Submit(Submit(After(b0, h), Tie(highestFirst, 0)).0, Tie(highestFirst, 1)).0;
            After(b0, ThenTie(h, highestFirst)) == Submit(Submit(b2, Tie(highestFirst, 2)).0, Tie(highestFirst, 3)).0
  {
    var one := h + [Tie(highestFirst, 0)];
    var two := one + [Tie(highestFirst, 1)];
    var three := two + [Tie(highestFirst, 2)];
    AfterSnoc(b0, h, Tie(highestFirst, 0));
    AfterSnoc(b0, one, Tie(highestFirst, 1));
    AfterSnoc(b0, two, Tie(highestFirst, 2));
    AfterSnoc(b0, three, Tie(highestFirst, 3));
  }

  /** `a` reached the score at time 0 and `b` at time 1, and neither did better since. */
  lemma ReachedInTie(highestFirst: bool, h: seq<Submission>)
    requires Best(highestFirst, h, "a").None? && Best(highestFirst, h, "b").None?
    ensures var all, low := ThenTie(h, highestFirst), Grade(highestFirst, 0);
            && Best(highestFirst, all, "a") == Some(low) && Best(highestFirst, all, "b") == Some(low)
            && Reached(highestFirst, all, "a") == 0 && Reached(highestFirst, all, "b") == 1
  {
    Names();
    var all := ThenTie(h, highestFirst);
    var one := h + [Tie(highestFirst, 0)];
    var two := one + [Tie(highestFirst, 1)];
    var three := two + [Tie(highestFirst, 2)];
    forall p | p == "a" || p == "b"
      ensures Best(highestFirst, all, p) == Some(Grade(highestFirst, 0))
      ensures Reached(highestFirst, all, p) == if p == "a" then 0 else 1
    {
      BestSnoc(highestFirst, h, Tie(highestFirst, 0), p);
      BestSnoc(highestFirst, one, Tie(highestFirst, 1), p);
      BestSnoc(highestFirst, two, Tie(highestFirst, 2), p);
      BestSnoc(highestFirst, three, Tie(highestFirst, 3), p);
      ReachedSnoc(highestFirst, h, Tie(highestFirst, 0), p);
      ReachedSnoc(highestFirst, one, Tie(highestFirst, 1), p);
      ReachedSnoc(highestFirst, two, Tie(highestFirst, 2), p);
      ReachedSnoc(highestFirst, three, Tie(highestFirst, 3), p);
    }
  }

  lemma TieInOrder(h: seq<Submission>, highestFirst: bool)
    requires forall s <- h :: s.now == 0
    ensures InOrder(ThenTie(h, highestFirst))
  {
    forall i | 0 <= i < |h| ensures h[i].now == 0 {
      assert h[i] in h;
    }
  }

  /** Once two places are left, the four submissions leave `b` listed and `a` not. */
  lemma TieEnds(b: Board) returns (other: Entry)
    requires TwoLeft(b)
    ensures var b2 := Submit(Submit(b, Tie(b.highestFirst, 0)).0, Tie(b.highestFirst, 1)).0;
            && b2.maxSize >= 1
            && var b4 := Submit(Submit(b2, Tie(b.highestFirst, 2)).0, Tie(b.highestFirst, 3)).0;
               other in b4.rank && !Listed(b4, "a")
    ensures other.name == "b" && other.score == Grade(b.highestFirst, 0)
  {
    var b2, a, entry := TieArises(b);
    var b3, a' := TieIsReversed(b2, a, entry);
    TieIsLost(b3, a', entry);
    other := entry;
  }

  /** On a board of two places or more, the player who reached a score first can be the one left
      out, because repeating it moved them behind the other. */
  lemma RepeatingLosesThePlace(highestFirst: bool, maxSize: nat) returns (h: seq<Submission>)
    requires maxSize >= 2
    ensures InOrder(h) && !FirstComeFirstServed(highestFirst, maxSize, h)
  {
    var b0 := Empty(highestFirst, maxSize);
    var fill := Fill(highestFirst, maxSize, maxSize - 2);
    h := ThenTie(fill, highestFirst);
    TieInOrder(fill, highestFirst);
    FillLeavesTwo(highestFirst, maxSize, fill);
    ReachedInTie(highestFirst, fill);
    AfterTie(b0, fill, highestFirst);
    AfterKeepsDirection(b0, fill);
    var other := TieEnds(After(b0, fill));
    assert Reached(highestFirst, h, other.name) > Reached(highestFirst, h, "a");
  }

  lemma AfterKeepsDirection(b: Board, h: seq<Submission>)
    requires Good(b)
    ensures After(b, h).highestFirst == b.highestFirst
  {
    AfterIsGood(b, h);
  }

  /** With a clock that never goes back, all histories are served in order of arrival if and only if
      the board has a single place. */
  lemma FirstComeFirstServedIff(highestFirst: bool, maxSize: nat)
    requires maxSize >= 1
    ensures (forall h | InOrder(h) :: FirstComeFirstServed(highestFirst, maxSize, h)) <==> maxSize == 1
  {
    if maxSize == 1 {
      forall h: seq<Submission> | InOrder(h) ensures FirstComeFirstServed(highestFirst, maxSize, h) {
        InvAlways(highestFirst, 1, h);
        OnePlaceAlways(highestFirst, h, if h == [] then 0 else h[|h| - 1].now);
      }
    } else {
      var h := RepeatingLosesThePlace(highestFirst, maxSize);
    }
  }
}
