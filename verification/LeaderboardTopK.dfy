/**
  The leaderboard is a streaming top-K: over any history of submissions it holds the best
  scores of the best players (src/data_structures/global_boards/leaderboard.hpp:73-138).
 */
module LeaderboardTopK {
  import opened Wrappers
  import opened Sequences
  import opened Ordering
  import opened Leaderboard

  /** The best score `player` has submitted, kept up as submissions arrive. */
  function Best(highestFirst: bool, h: seq<Submission>, player: string): Option<real> {
    if h == [] then None
    else
      var earlier, s := Best(highestFirst, h[..|h| - 1], player), h[|h| - 1];
      if s.player == player && (earlier.None? || Better(highestFirst, s.score, earlier.value))
      then Some(s.score) else earlier
  }

  /** It is the player's best ever: submitted, and no submission of theirs is better. */
  lemma {:induction false} BestIsBest(highestFirst: bool, h: seq<Submission>, player: string)
    ensures var r := Best(highestFirst, h, player);
            && (r.Some? <==> exists s <- h :: s.player == player)
            && (r.Some? ==> exists s <- h :: s.player == player && s.score == r.value)
            && (r.Some? ==> forall s <- h :: s.player == player ==> !Better(highestFirst, s.score, r.value))
  {
    if h != [] {
      var n := |h| - 1;
      BestIsBest(highestFirst, h[..n], player);
      assert h == h[..n] + [h[n]];
    }
  }

  lemma BestSnoc(highestFirst: bool, h: seq<Submission>, s: Submission, player: string)
    ensures Best(highestFirst, h + [s], player) ==
            var earlier := Best(highestFirst, h, player);
            if s.player == player && (earlier.None? || Better(highestFirst, s.score, earlier.value))
            then Some(s.score) else earlier
  {
  }

  /** Every listed score is its player's best ever. */
  ghost predicate ListedAreBest(b: Board, h: seq<Submission>) {
    forall e <- b.rank :: Best(b.highestFirst, h, e.name) == Some(e.score)
  }

  /** Nobody is left out while there is room, nor with a best better than any listed score. */
  ghost predicate UnlistedAreNoBetter(b: Board, h: seq<Submission>) {
    forall p: string | Best(b.highestFirst, h, p).Some? && !Listed(b, p) ::
      && |b.rank| == b.maxSize
      && forall e <- b.rank :: !Better(b.highestFirst, Best(b.highestFirst, h, p).value, e.score)
  }

  ghost predicate Inv(b: Board, h: seq<Submission>) {
    Good(b) && ListedAreBest(b, h) && UnlistedAreNoBetter(b, h)
  }

  lemma RemoveMembers(b: Board, i: nat)
    requires Good(b) && i < |b.rank|
    ensures forall x :: x in Remove(b.rank, i) <==> x in b.rank && x != b.rank[i]
  {
  }

  /** The last entry is the worst. */
  lemma LastIsWorst(b: Board)
    requires Good(b) && b.rank != []
    ensures forall x <- b.rank :: !Better(b.highestFirst, b.rank[|b.rank| - 1].score, x.score)
  {
  }

  lemma ResubmitMembers(b: Board, s: Submission)
    requires Good(b) && Listed(b, s.player) && Submit(b, s).1.placement.Some?
    ensures var r, former := Submit(b, s).0.rank, b.rank[IndexOf(b.rank, s.player)];
            && |r| == |b.rank|
            && !Better(b.highestFirst, former.score, s.score)
            && (forall x <- b.rank | x != former :: x.name != s.player)
            && forall x :: x in r <==> (x in b.rank && x != former) || x == NewEntry(b, s)
  {
    var i := IndexOf(b.rank, s.player);
    RemoveMembers(b, i);
    InsertMembers(Order(b.highestFirst), Remove(b.rank, i), NewEntry(b, s));
  }

  lemma ResubmitKeepsBest(b: Board, h: seq<Submission>, s: Submission)
    requires Good(b) && ListedAreBest(b, h) && Listed(b, s.player) && Submit(b, s).1.placement.Some?
    ensures ListedAreBest(Submit(b, s).0, h + [s])
  {
    ResubmitMembers(b, s);
    var former := b.rank[IndexOf(b.rank, s.player)];
    assert former in b.rank;
    forall e <- Submit(b, s).0.rank ensures Best(b.highestFirst, h + [s], e.name) == Some(e.score) {
      BestSnoc(b.highestFirst, h, s, e.name);
    }
  }

  lemma ResubmitKeepsOthers(b: Board, h: seq<Submission>, s: Submission, p: string)
    requires Good(b) && UnlistedAreNoBetter(b, h) && Listed(b, s.player) && Submit(b, s).1.placement.Some?
    requires Best(b.highestFirst, h + [s], p).Some? && !Listed(Submit(b, s).0, p)
    ensures var b' := Submit(b, s).0;
            && |b'.rank| == b'.maxSize
            && forall e <- b'.rank :: !Better(b.highestFirst, Best(b.highestFirst, h + [s], p).value, e.score)
  {
    var b' := Submit(b, s).0;
    var former := b.rank[IndexOf(b.rank, s.player)];
    ResubmitMembers(b, s);
    BestSnoc(b.highestFirst, h, s, p);
    NotListed(b', p);
    NotListed(b, p);
    assert former in b.rank && NewEntry(b, s) in b'.rank;
  }

  lemma ResubmitKeepsInv(b: Board, h: seq<Submission>, s: Submission)
    requires Inv(b, h) && Listed(b, s.player) && Submit(b, s).1.placement.Some?
    ensures Inv(Submit(b, s).0, h + [s])
  {
    var b' := Submit(b, s).0;
    SubmitKeepsGood(b, s);
    ResubmitKeepsBest(b, h, s);
    forall p: string | Best(b.highestFirst, h + [s], p).Some? && !Listed(b', p)
      ensures |b'.rank| == b'.maxSize
      ensures forall e <- b'.rank :: !Better(b.highestFirst, Best(b.highestFirst, h + [s], p).value, e.score)
    {
      ResubmitKeepsOthers(b, h, s, p);
    }
  }

  /** What a rejection shows: a listed player's best is no worse, a new player would be last. */
  lemma RejectedIsNoBetter(b: Board, h: seq<Submission>, s: Submission)
    requires Inv(b, h) && Submit(b, s).1.placement.None?
    ensures Submit(b, s).0.rank == b.rank
    ensures Listed(b, s.player) ==> Best(b.highestFirst, h + [s], s.player) == Best(b.highestFirst, h, s.player)
    ensures !Listed(b, s.player) ==>
              |b.rank| == b.maxSize && forall e <- b.rank :: !Better(b.highestFirst, s.score, e.score)
  {
    BestSnoc(b.highestFirst, h, s, s.player);
    if Listed(b, s.player) {
      assert b.rank[IndexOf(b.rank, s.player)] in b.rank;
    } else {
      LastIsWorst(b);
    }
  }

  lemma RejectionKeepsInv(b: Board, h: seq<Submission>, s: Submission)
    requires Inv(b, h) && Submit(b, s).1.placement.None?
    ensures Inv(Submit(b, s).0, h + [s])
  {
    var b' := Submit(b, s).0;
    SubmitKeepsGood(b, s);
    RejectedIsNoBetter(b, h, s);
    NotListed(b, s.player);
    forall e <- b'.rank ensures Best(b.highestFirst, h + [s], e.name) == Some(e.score) {
      BestSnoc(b.highestFirst, h, s, e.name);
    }
    forall p: string | Best(b.highestFirst, h + [s], p).Some? && !Listed(b', p)
      ensures |b'.rank| == b'.maxSize
      ensures forall e <- b'.rank :: !Better(b.highestFirst, Best(b.highestFirst, h + [s], p).value, e.score)
    {
      BestSnoc(b.highestFirst, h, s, p);
    }
  }

  /** Inserting before the last element and then dropping it is dropping it first. */
  lemma TrimmedInsert(less: (Entry, Entry) -> bool, s: seq<Entry>, e: Entry)
    requires s != [] && less(e, s[|s| - 1])
    ensures Trim(Insert(less, s, e), |s|) == Insert(less, s[..|s| - 1], e)
  {
  }

  lemma EvictionMembers(b: Board, e: Entry)
    requires Good(b) && b.rank != [] && Order(b.highestFirst)(e, b.rank[|b.rank| - 1])
    ensures var last, r := b.rank[|b.rank| - 1], Trim(Insert(Order(b.highestFirst), b.rank, e), |b.rank|);
            && |r| == |b.rank|
            && forall x :: x in r <==> (x in b.rank && x != last) || x == e
  {
    var n := |b.rank| - 1;
    TrimmedInsert(Order(b.highestFirst), b.rank, e);
    InsertMembers(Order(b.highestFirst), b.rank[..n], e);
    RemoveMembers(b, n);
    assert Remove(b.rank, n) == b.rank[..n];
  }

  /** Who is listed after a new player is accepted. */
  lemma JoinMembers(b: Board, s: Submission)
    requires Good(b) && !Listed(b, s.player) && Submit(b, s).1.placement.Some?
    ensures var r := Submit(b, s).0.rank;
            if |b.rank| < b.maxSize
            then |r| == |b.rank| + 1 && forall x :: x in r <==> x in b.rank || x == NewEntry(b, s)
            else
              var last := b.rank[|b.rank| - 1];
              && |r| == |b.rank|
              && !Better(b.highestFirst, last.score, s.score)
              && forall x :: x in r <==> (x in b.rank && x != last) || x == NewEntry(b, s)
  {
    var e := NewEntry(b, s);
    if |b.rank| < b.maxSize {
      InsertMembers(Order(b.highestFirst), b.rank, e);
    } else {
      EvictionMembers(b, e);
    }
  }

  /** A new player gets in only with their best score yet. */
  lemma JoinsWithBest(b: Board, h: seq<Submission>, s: Submission)
    requires b.maxSize >= 1 && UnlistedAreNoBetter(b, h)
    requires !Listed(b, s.player) && Submit(b, s).1.placement.Some?
    ensures Best(b.highestFirst, h + [s], s.player) == Some(s.score)
  {
    BestSnoc(b.highestFirst, h, s, s.player);
    if Best(b.highestFirst, h, s.player).Some? {
      assert b.rank[|b.rank| - 1] in b.rank;
    }
  }

  lemma JoinKeepsBest(b: Board, h: seq<Submission>, s: Submission)
    requires Inv(b, h) && !Listed(b, s.player) && Submit(b, s).1.placement.Some?
    ensures ListedAreBest(Submit(b, s).0, h + [s])
  {
    JoinMembers(b, s);
    NotListed(b, s.player);
    JoinsWithBest(b, h, s);
    forall e <- Submit(b, s).0.rank ensures Best(b.highestFirst, h + [s], e.name) == Some(e.score) {
      BestSnoc(b.highestFirst, h, s, e.name);
    }
  }

  lemma JoinKeepsOthers(b: Board, h: seq<Submission>, s: Submission, p: string)
    requires Inv(b, h) && !Listed(b, s.player) && Submit(b, s).1.placement.Some?
    requires Best(b.highestFirst, h + [s], p).Some? && !Listed(Submit(b, s).0, p)
    ensures var b' := Submit(b, s).0;
            && |b'.rank| == b'.maxSize
            && forall e <- b'.rank :: !Better(b.highestFirst, Best(b.highestFirst, h + [s], p).value, e.score)
  {
    var b' := Submit(b, s).0;
    JoinMembers(b, s);
    BestSnoc(b.highestFirst, h, s, p);
    NotListed(b', p);
    NotListed(b, p);
    assert NewEntry(b, s) in b'.rank;
    if |b.rank| == b.maxSize {
      LastIsWorst(b);
    }
  }

  lemma JoinKeepsInv(b: Board, h: seq<Submission>, s: Submission)
    requires Inv(b, h) && !Listed(b, s.player) && Submit(b, s).1.placement.Some?
    ensures Inv(Submit(b, s).0, h + [s])
  {
    var b' := Submit(b, s).0;
    SubmitKeepsGood(b, s);
    JoinKeepsBest(b, h, s);
    forall p: string | Best(b.highestFirst, h + [s], p).Some? && !Listed(b', p)
      ensures |b'.rank| == b'.maxSize
      ensures forall e <- b'.rank :: !Better(b.highestFirst, Best(b.highestFirst, h + [s], p).value, e.score)
    {
      JoinKeepsOthers(b, h, s, p);
    }
  }

  lemma SubmitKeepsInv(b: Board, h: seq<Submission>, s: Submission)
    requires Inv(b, h)
    ensures Inv(Submit(b, s).0, h + [s])
  {
    if Submit(b, s).1.placement.None? {
      RejectionKeepsInv(b, h, s);
    } else if Listed(b, s.player) {
      ResubmitKeepsInv(b, h, s);
    } else {
      JoinKeepsInv(b, h, s);
    }
  }

  lemma {:induction false} AfterSnoc(b: Board, h: seq<Submission>, s: Submission)
    requires b.maxSize >= 1
    ensures After(b, h).maxSize >= 1
    ensures After(b, h + [s]) == Submit(After(b, h), s).0
    decreases |h|
  {
    if h == [] {
      assert (h + [s])[1..] == [];
    } else {
      assert (h + [s])[1..] == h[1..] + [s];
      AfterSnoc(Submit(b, h[0]).0, h[1..], s);
    }
  }

  /** From an empty board, in either direction, for every clock and every history. */
  lemma {:induction false} InvAlways(highestFirst: bool, maxSize: nat, h: seq<Submission>)
    requires maxSize >= 1
    ensures var b := After(Empty(highestFirst, maxSize), h);
            Inv(b, h) && b.highestFirst == highestFirst && b.maxSize == maxSize
    decreases |h|
  {
    var b0 := Empty(highestFirst, maxSize);
    AfterIsGood(b0, h);
    if h != [] {
      var n := |h| - 1;
      var past, s := h[..n], h[n];
      assert h == past + [s];
      InvAlways(highestFirst, maxSize, past);
      AfterSnoc(b0, past, s);
      var b := After(b0, past);
      SubmitKeepsInv(b, past, s);
    }
  }

  // ----- the board is the front of the full ranking -----

  /** `all` lists every player who ever submitted, once, from best to worst. */
  ghost predicate FullRanking(highestFirst: bool, h: seq<Submission>, all: seq<string>) {
    && (forall i, j :: 0 <= i < j < |all| ==> all[i] != all[j])
    && (forall p: string :: p in all <==> Best(highestFirst, h, p).Some?)
    && (forall i, j :: 0 <= i < j < |all| ==>
          !Better(highestFirst, Best(highestFirst, h, all[j]).value, Best(highestFirst, h, all[i]).value))
  }

  function Names(rank: seq<Entry>): (r: seq<string>)
    ensures |r| == |rank| && forall i :: 0 <= i < |rank| ==> r[i] == rank[i].name
  {
    seq(|rank|, i requires 0 <= i < |rank| => rank[i].name)
  }

  lemma {:induction false} SizeOfSet(a: seq<string>)
    ensures |(set x <- a)| <= |a|
    ensures (forall i, j :: 0 <= i < j < |a| ==> a[i] != a[j]) ==> |(set x <- a)| == |a|
  {
    if a != [] {
      SizeOfSet(a[1..]);
      assert (set x <- a) == (set x <- a[1..]) + {a[0]};
    }
  }

  lemma Pigeonhole(a: seq<string>, b: seq<string>)
    requires forall i, j :: 0 <= i < j < |a| ==> a[i] != a[j]
    requires forall x <- a :: x in b
    ensures |a| <= |b|
  {
    SizeOfSet(a);
    SizeOfSet(b);
    var small, large := set x <- a, set x <- b;
    assert small <= large;
    assert |large - small| == |large| - |small|;
  }

  /** A player whose best beats rank `i` is listed above it. */
  lemma ListedAbove(b: Board, h: seq<Submission>, i: nat, p: string)
    requires Inv(b, h) && i < |b.rank| && Best(b.highestFirst, h, p).Some?
    requires Better(b.highestFirst, Best(b.highestFirst, h, p).value, b.rank[i].score)
    ensures p in Names(b.rank[..i])
  {
  }

  /** A player whose best beats that of `all[i]` comes before it in the full ranking. */
  lemma RankedAbove(highestFirst: bool, h: seq<Submission>, all: seq<string>, i: nat, p: string)
    requires FullRanking(highestFirst, h, all) && i < |all|
    requires Best(highestFirst, h, p).Some? && Best(highestFirst, h, all[i]).Some?
    requires Better(highestFirst, Best(highestFirst, h, p).value, Best(highestFirst, h, all[i]).value)
    ensures p in all[..i]
  {
  }

  lemma NotRankedLower(b: Board, h: seq<Submission>, all: seq<string>, i: nat)
    requires Inv(b, h) && FullRanking(b.highestFirst, h, all) && i < |b.rank| && i < |all|
    requires Best(b.highestFirst, h, all[i]).Some?
    ensures !Better(b.highestFirst, Best(b.highestFirst, h, all[i]).value, b.rank[i].score)
  {
    var hf, y := b.highestFirst, b.rank[i].score;
    if Better(hf, Best(hf, h, all[i]).value, y) {
      var top, above := all[..i + 1], Names(b.rank[..i]);
      forall j | 0 <= j <= i ensures all[j] in above {
        assert all[j] in all;
        ListedAbove(b, h, i, all[j]);
      }
      Pigeonhole(top, above);
    }
  }

  lemma NotRankedHigher(b: Board, h: seq<Submission>, all: seq<string>, i: nat)
    requires Inv(b, h) && FullRanking(b.highestFirst, h, all) && i < |b.rank| && i < |all|
    requires Best(b.highestFirst, h, all[i]).Some?
    ensures !Better(b.highestFirst, b.rank[i].score, Best(b.highestFirst, h, all[i]).value)
  {
    var hf, x := b.highestFirst, Best(b.highestFirst, h, all[i]).value;
    if Better(hf, b.rank[i].score, x) {
      var top, above := Names(b.rank[..i + 1]), all[..i];
      forall j | 0 <= j <= i ensures top[j] in above {
        assert b.rank[j] in b.rank;
        assert j < i ==> Order(hf)(b.rank[j], b.rank[i]);
        RankedAbove(hf, h, all, i, b.rank[j].name);
      }
      Pigeonhole(top, above);
    }
  }

  function Players(h: seq<Submission>): seq<string> {
    seq(|h|, i requires 0 <= i < |h| => h[i].player)
  }

  lemma BestIsOfAPlayer(highestFirst: bool, h: seq<Submission>, name: string)
    requires Best(highestFirst, h, name).Some?
    ensures name in Players(h)
  {
    BestIsBest(highestFirst, h, name);
    var s :| s in h && s.player == name;
    var k :| 0 <= k < |h| && h[k] == s;
    assert Players(h)[k] == name;
  }

  /** Every history has a full ranking: the names on a board too large to fill up. */
  lemma FullRankingExists(highestFirst: bool, h: seq<Submission>) returns (all: seq<string>)
    ensures FullRanking(highestFirst, h, all)
  {
    var b := After(Empty(highestFirst, |h| + 1), h);
    InvAlways(highestFirst, |h| + 1, h);
    all := Names(b.rank);
    var players := Players(h);
    forall i | 0 <= i < |all| ensures all[i] in players && Best(highestFirst, h, all[i]) == Some(b.rank[i].score) {
      assert b.rank[i] in b.rank;
      BestIsOfAPlayer(highestFirst, h, all[i]);
    }
    Pigeonhole(all, players);
    forall p: string ensures p in all <==> Best(highestFirst, h, p).Some? {
      if Best(highestFirst, h, p).Some? {
        assert all[IndexOf(b.rank, p)] == p;
      }
    }
    forall i, j | 0 <= i < j < |all|
      ensures !Better(highestFirst, Best(highestFirst, h, all[j]).value, Best(highestFirst, h, all[i]).value)
    {
      assert Order(highestFirst)(b.rank[i], b.rank[j]);
    }
  }

  /** The board's scores are the first `max_size` of the best-per-player scores, however
      equal-score resubmissions were resolved. */
  lemma BoardIsTopOfFullRanking(highestFirst: bool, maxSize: nat, h: seq<Submission>, all: seq<string>)
    requires maxSize >= 1 && FullRanking(highestFirst, h, all)
    ensures var b := After(Empty(highestFirst, maxSize), h);
            && |b.rank| == (if |all| < maxSize then |all| else maxSize)
            && forall i :: 0 <= i < |b.rank| ==> Best(highestFirst, h, all[i]) == Some(b.rank[i].score)
  {
    InvAlways(highestFirst, maxSize, h);
    var b := After(Empty(highestFirst, maxSize), h);
    var names := Names(b.rank);
    forall p <- names ensures p in all {
      var j :| 0 <= j < |names| && names[j] == p;
      assert b.rank[j] in b.rank;
    }
    Pigeonhole(names, all);
    if forall p <- all :: Listed(b, p) {
      forall p <- all ensures p in names {
        assert names[IndexOf(b.rank, p)] == p;
      }
      Pigeonhole(all, names);
    }
    forall i | 0 <= i < |b.rank| ensures Best(highestFirst, h, all[i]) == Some(b.rank[i].score) {
      assert all[i] in all;
      NotRankedLower(b, h, all, i);
      NotRankedHigher(b, h, all, i);
    }
  }
}
