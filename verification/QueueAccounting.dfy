/**
  What every run of queue operations keeps: the byte counter and the two limits.
 */
module QueueAccounting {
  import opened ThreadSafeQueue

  /** The true number of queued bytes, unbounded. */
  function TotalBytes<T>(c: Config<T>, items: seq<T>): nat {
    if items == [] then 0 else c.sizeOf(items[0]) + TotalBytes(c, items[1..])
  }

  lemma {:induction false} TotalOfConcat<T>(c: Config<T>, a: seq<T>, b: seq<T>)
    ensures TotalBytes(c, a + b) == TotalBytes(c, a) + TotalBytes(c, b)
  {
    if a == [] {
      assert a + b == b;
    } else {
      assert (a + b)[1..] == a[1..] + b;
      TotalOfConcat(c, a[1..], b);
    }
  }

  lemma TotalOfLast<T>(c: Config<T>, a: seq<T>)
    requires a != []
    ensures TotalBytes(c, a) == TotalBytes(c, a[..|a| - 1]) + c.sizeOf(a[|a| - 1])
  {
    var n := |a| - 1;
    assert a == a[..n] + [a[n]];
    TotalOfConcat(c, a[..n], [a[n]]);
  }

  lemma TotalOfPut<T>(c: Config<T>, items: seq<T>, x: T, end: End)
    ensures TotalBytes(c, Put(items, x, end)) == TotalBytes(c, items) + c.sizeOf(x)
  {
    if end.Front? {
      assert Put(items, x, end)[1..] == items;
    } else {
      TotalOfConcat(c, items, [x]);
    }
  }

  lemma WrappedSum(total: nat, size: Word)
    ensures Plus(total % WORD, size) == (total + size) % WORD
  {
  }

  lemma WrappedDifference(total: nat, size: Word)
    requires size <= total
    ensures Minus(total % WORD, size) == (total - size) % WORD
  {
  }

  lemma {:induction false} TallyIsTotal<T>(c: Config<T>, xs: seq<T>)
    requires c.enableMaxBytes
    ensures Tally(c, xs) == TotalBytes(c, xs) % WORD
    decreases |xs|
  {
    if xs != [] {
      TallyIsTotal(c, xs[..|xs| - 1]);
      TotalOfLast(c, xs);
      WrappedSum(TotalBytes(c, xs[..|xs| - 1]), c.sizeOf(xs[|xs| - 1]));
    }
  }

  /** The counter is right modulo 2^64. */
  ghost predicate CounterAgrees<T>(c: Config<T>, s: State<T>) {
    s.currentBytes == TotalBytes(c, s.items) % WORD
  }

  lemma RemoveKeepsCounter<T>(c: Config<T>, s: State<T>, end: End)
    requires c.CountsBytes() && CounterAgrees(c, s) && s.items != []
    ensures CounterAgrees(c, Removed(c, s, end))
  {
    TotalOfLast(c, s.items);
    WrappedDifference(TotalBytes(c, s.items), c.sizeOf(if end.Front? then s.items[0] else s.items[|s.items| - 1]));
  }

  lemma StepKeepsCounter<T>(c: Config<T>, s: State<T>, op: Op<T>)
    requires c.CountsBytes() && CounterAgrees(c, s)
    ensures CounterAgrees(c, Apply(c, s, op).0)
  {
    var total := TotalBytes(c, s.items);
    match op
    case TryPush(x, end) => TotalOfPut(c, s.items, x, end); WrappedSum(total, c.sizeOf(x));
    case Push(x, end) => TotalOfPut(c, s.items, x, end); WrappedSum(total, c.sizeOf(x));
    case Pop(end) => if s.items != [] { RemoveKeepsCounter(c, s, end); }
    case WaitPop => if s.items != [] { RemoveKeepsCounter(c, s, Front); }
    case Clear =>
    case Replace(xs) => TallyIsTotal(c, Kept(c, xs));
    case Stop =>
  }

  /** In every run of all the operations the counter is the sum of the queued sizes modulo
      2^64, even where unchecked pushes make it wrap. */
  lemma {:induction false} CounterAgreesInEveryRun<T>(c: Config<T>, s: State<T>, ops: seq<Op<T>>)
    requires c.CountsBytes() && CounterAgrees(c, s)
    ensures CounterAgrees(c, Run(c, s, ops))
    decreases |ops|
  {
    if ops != [] {
      StepKeepsCounter(c, s, ops[0]);
      CounterAgreesInEveryRun(c, Apply(c, s, ops[0]).0, ops[1..]);
    }
  }

  /** Both configured limits hold and the counter is the exact, unwrapped sum. */
  ghost predicate WithinLimits<T>(c: Config<T>, s: State<T>) {
    && (c.LimitsSize() ==> |s.items| <= c.maximumSize)
    && (c.CountsBytes() ==> s.currentBytes == TotalBytes(c, s.items) <= c.maximumBytes)
  }

  /** The operations that test the limits, and those that only remove. */
  predicate Checked<T>(op: Op<T>) {
    !op.Push? && !op.Replace?
  }

  /** What the caller of an unchecked operation would have to know beforehand. */
  ghost predicate Fits<T>(c: Config<T>, s: State<T>, op: Op<T>) {
    match op
    case Push(x, _) =>
      && (c.LimitsSize() ==> |s.items| < c.maximumSize)
      && (c.CountsBytes() ==> TotalBytes(c, s.items) + c.sizeOf(x) <= c.maximumBytes)
    case Replace(xs) => c.CountsBytes() ==> TotalBytes(c, Kept(c, xs)) <= c.maximumBytes
    case _ => true
  }

  lemma AddKeepsLimitsExactly<T>(c: Config<T>, s: State<T>, x: T, end: End)
    requires WithinLimits(c, s)
    ensures WithinLimits(c, Added(c, s, x, end)) <==> Fits(c, s, Push(x, end))
  {
    TotalOfPut(c, s.items, x, end);
    if c.CountsBytes() && s.currentBytes + c.sizeOf(x) <= c.maximumBytes {
      assert Charged(c, s.currentBytes, x) == s.currentBytes + c.sizeOf(x);
    }
  }

  lemma RemoveKeepsLimits<T>(c: Config<T>, s: State<T>, end: End)
    requires WithinLimits(c, s) && s.items != []
    ensures WithinLimits(c, Removed(c, s, end))
  {
    TotalOfLast(c, s.items);
    var x := if end.Front? then s.items[0] else s.items[|s.items| - 1];
    if c.CountsBytes() {
      assert Refunded(c, s.currentBytes, x) == s.currentBytes - c.sizeOf(x);
    }
  }

  /** One operation keeps the limits exactly when it is checked or it fits. */
  lemma StepKeepsLimitsExactly<T>(c: Config<T>, s: State<T>, op: Op<T>)
    requires WithinLimits(c, s)
    ensures WithinLimits(c, Apply(c, s, op).0) <==> Checked(op) || Fits(c, s, op)
  {
    match op
    case TryPush(x, end) => AddKeepsLimitsExactly(c, s, x, end);
    case Push(x, end) => AddKeepsLimitsExactly(c, s, x, end);
    case Pop(end) => if s.items != [] { RemoveKeepsLimits(c, s, end); }
    case WaitPop => if s.items != [] { RemoveKeepsLimits(c, s, Front); }
    case Clear =>
    case Replace(xs) => if c.CountsBytes() { TallyIsTotal(c, Kept(c, xs)); }
    case Stop =>
  }

  /** With only try_push, pops, clear and stop, the limits hold and the counter never wraps. */
  lemma {:induction false} LimitsHoldInEveryCheckedRun<T>(c: Config<T>, s: State<T>, ops: seq<Op<T>>)
    requires WithinLimits(c, s)
    requires forall op <- ops :: Checked(op)
    ensures WithinLimits(c, Run(c, s, ops))
    decreases |ops|
  {
    if ops != [] {
      StepKeepsLimitsExactly(c, s, ops[0]);
      LimitsHoldInEveryCheckedRun(c, Apply(c, s, ops[0]).0, ops[1..]);
    }
  }

  // ----- what each operation does to the contents -----

  /** There is a place, and there are bytes left, for one more item of size `size`. */
  predicate HasRoom<T>(c: Config<T>, items: nat, bytes: nat, size: nat) {
    && (c.enableMaxSize && c.maximumSize != 0 ==> items + 1 <= c.maximumSize)
    && (c.enableMaxBytes && c.maximumBytes != 0 ==> bytes + size <= c.maximumBytes)
  }

  /** In every state, `try_push` accepts exactly when the queue is running and one more item keeps
      both limits that are switched on, in unbounded arithmetic; a rejection changes nothing. */
  lemma TryPushAcceptsIff<T>(c: Config<T>, s: State<T>, x: T, end: End)
    ensures var (s', outcome) := Apply(c, s, TryPush(x, end));
            && (outcome.Accepted? <==> !s.stopped && HasRoom(c, |s.items|, s.currentBytes, c.sizeOf(x)))
            && (outcome.Accepted? ==> s' == Apply(c, s, Push(x, end)).0)
            && (!outcome.Accepted? ==> outcome.Rejected? && s' == s)
  {
  }

  /** No request is turned away without need: within the limits, `try_push` rejects exactly when
      the queue is stopped or an unchecked push would break a limit. */
  lemma TryPushRejectsIff<T>(c: Config<T>, s: State<T>, x: T, end: End)
    requires WithinLimits(c, s)
    ensures Apply(c, s, TryPush(x, end)).1.Rejected? <==>
            s.stopped || !WithinLimits(c, Apply(c, s, Push(x, end)).0)
    ensures Apply(c, s, TryPush(x, end)).1.Rejected? <==>
            s.stopped || !HasRoom(c, |s.items|, TotalBytes(c, s.items), c.sizeOf(x))
  {
    AddKeepsLimitsExactly(c, s, x, end);
    TryPushAcceptsIff(c, s, x, end);
  }

  /** A push at either end adds the item there; a pop takes away and returns the item at its end. */
  lemma EndsAreExact<T>(c: Config<T>, s: State<T>, x: T)
    ensures Apply(c, s, Push(x, Front)).0.items == [x] + s.items
    ensures Apply(c, s, Push(x, Back)).0.items == s.items + [x]
    ensures var (s', got) := Apply(c, s, Pop(Front));
            if got.Got? then [got.item] + s'.items == s.items else got.Nothing? && s' == s && s.items == []
    ensures var (s', got) := Apply(c, s, Pop(Back));
            if got.Got? then s'.items + [got.item] == s.items else got.Nothing? && s' == s && s.items == []
    ensures Apply(c, s, WaitPop) == Apply(c, s, Pop(Front))
  {
  }

  lemma ChargeAndRefund<T>(c: Config<T>, bytes: Word, x: T)
    ensures Refunded(c, Charged(c, bytes, x), x) == bytes && Charged(c, Refunded(c, bytes, x), x) == bytes
  {
  }

  /** A pop undoes a push at the same end, the byte counter included. */
  lemma PopUndoesPush<T>(c: Config<T>, s: State<T>, x: T, end: End)
    ensures Apply(c, Apply(c, s, Push(x, end)).0, Pop(end)) == (s, Got(x))
  {
    ChargeAndRefund(c, s.currentBytes, x);
    if end.Front? {
      assert ([x] + s.items)[1..] == s.items;
    } else {
      assert (s.items + [x])[..|s.items|] == s.items;
    }
  }

  /** A push of what a pop returned undoes the pop. */
  lemma PushUndoesPop<T>(c: Config<T>, s: State<T>, end: End)
    ensures var (s', got) := Apply(c, s, Pop(end));
            if got.Got? then Apply(c, s', Push(got.item, end)).0 == s else s.items == []
  {
    var n := |s.items|;
    if n > 0 {
      ChargeAndRefund(c, s.currentBytes, if end.Front? then s.items[0] else s.items[n - 1]);
      assert [s.items[0]] + s.items[1..] == s.items && s.items[..n - 1] + [s.items[n - 1]] == s.items;
    }
  }

  /** `clear` leaves nothing, `replace` the longest prefix the size limit allows, `stop` everything;
      only `stop` stops the queue, and for good. */
  lemma WholesaleOperations<T>(c: Config<T>, s: State<T>, xs: seq<T>)
    ensures Apply(c, s, Clear).0 == State([], 0, s.stopped)
    ensures Apply(c, s, Stop).0 == State(s.items, s.currentBytes, true)
    ensures var kept := Apply(c, s, Replace(xs)).0.items;
            && kept <= xs
            && (c.enableMaxSize && c.maximumSize != 0 ==> |kept| <= c.maximumSize)
            && (kept == xs || (c.enableMaxSize && c.maximumSize != 0 && |kept| == c.maximumSize))
    ensures forall op :: Apply(c, s, op).0.stopped <==> s.stopped || op.Stop?
  {
  }

  /** `replace` ignores the byte limit: from an empty queue it stores an item no `try_push`
      would admit. */
  lemma ReplaceBreaksByteLimit<T>(c: Config<T>, x: T)
    requires c.CountsBytes() && c.sizeOf(x) > c.maximumBytes
    ensures !Admits(c, Init(), x)
    ensures !WithinLimits(c, Run(c, Init(), [Replace([x])]))
  {
    assert Kept(c, [x]) == [x];
    assert TotalBytes(c, [x]) == c.sizeOf(x);
    assert Run(c, Init(), [Replace([x])]) == Apply(c, Init(), Replace([x])).0;
  }

  // ----- the counter when `maximum_bytes` is 0 -----

  /** What the last `replace` kept, unless a `clear` came after it. */
  function LastReplaced<T>(c: Config<T>, ops: seq<Op<T>>): seq<T>
    decreases |ops|
  {
    if ops == [] then []
    else
      match ops[|ops| - 1]
      case Replace(xs) => Kept(c, xs)
      case Clear => []
      case _ => LastReplaced(c, ops[..|ops| - 1])
  }

  lemma {:induction false} RunSnoc<T>(c: Config<T>, s: State<T>, ops: seq<Op<T>>)
    requires ops != []
    ensures Run(c, s, ops) == Apply(c, Run(c, s, ops[..|ops| - 1]), ops[|ops| - 1]).0
    decreases |ops|
  {
    if |ops| > 1 {
      assert ops[1..][..|ops| - 2] == ops[..|ops| - 1][1..];
      RunSnoc(c, Apply(c, s, ops[0]).0, ops[1..]);
    }
  }

  /** Pushes do not charge and pops do not refund, but `replace` counts and `clear` resets: in
      every run the counter is the byte count of the last replacement modulo 2^64, or 0 when
      bytes are not compiled in, whatever is queued now. */
  lemma {:induction false} CounterIsLastReplaced<T>(c: Config<T>, ops: seq<Op<T>>)
    requires !c.CountsBytes()
    ensures Run(c, Init(), ops).currentBytes ==
            if c.enableMaxBytes then TotalBytes(c, LastReplaced(c, ops)) % WORD else 0
    decreases |ops|
  {
    if ops != [] {
      RunSnoc(c, Init(), ops);
      CounterIsLastReplaced(c, ops[..|ops| - 1]);
      if ops[|ops| - 1].Replace? && c.enableMaxBytes {
        TallyIsTotal(c, LastReplaced(c, ops));
      }
    }
  }

  lemma {:induction false} NothingToCount<T(!new)>(c: Config<T>, xs: seq<T>)
    requires forall x :: c.sizeOf(x) == 0
    ensures TotalBytes(c, xs) == 0
    decreases |xs|
  {
    if xs != [] {
      NothingToCount(c, xs[..|xs| - 1]);
      TotalOfLast(c, xs);
    }
  }

  ghost predicate AgreesAfter<T>(c: Config<T>, ops: seq<Op<T>>) {
    CounterAgrees(c, Run(c, Init(), ops))
  }

  /** The counter agrees with the contents after every run from an empty queue if and only if a
      byte limit is set or no item has a size. */
  lemma CounterAgreesIff<T(!new)>(c: Config<T>)
    ensures (forall ops :: AgreesAfter(c, ops)) <==>
            c.CountsBytes() || forall x :: c.sizeOf(x) == 0
  {
    if c.CountsBytes() {
      forall ops
        ensures AgreesAfter(c, ops)
      {
        CounterAgreesInEveryRun(c, Init(), ops);
      }
    } else if x :| c.sizeOf(x) != 0 {
      var ops := [Push(x, Back)];
      assert Run(c, Init(), ops) == Apply(c, Init(), ops[0]).0 == State([x], 0, false);
      assert TotalBytes(c, [x]) == c.sizeOf(x);
      assert !AgreesAfter(c, ops);
    } else {
      forall ops
        ensures AgreesAfter(c, ops)
      {
        CounterIsLastReplaced(c, ops);
        NothingToCount(c, LastReplaced(c, ops));
        NothingToCount(c, Run(c, Init(), ops).items);
      }
    }
  }
}
