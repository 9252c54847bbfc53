/**
  The queue as a monitor: its mutex and its condition variable `waiting`
  (src/data_structures/thread_safe/thread_safe_queue.hpp:104-241 and 333-402).

  A critical section is one step. A notification is a later step of its own, because the
  code notifies after it has unlocked; in between any other thread may run. A sleeping
  consumer may also wake for no reason. Any number of consumers and producers take part.
 */
module QueueMonitor {
  import opened ThreadSafeQueue

  type Consumer = nat

  datatype Delivery<T> = Delivery(to: Consumer, item: T)

  /** `pendingOne` and `pendingAll` count threads between unlock and `notify_one` or
      `notify_all`. `accepted`, `handed` and `emptyReturns` record the run. */
  datatype Monitor<T> = Monitor(
    q: State<T>,
    sleeping: set<Consumer>,
    woken: set<Consumer>,
    pendingOne: nat,
    pendingAll: nat,
    accepted: seq<T>,
    handed: seq<Delivery<T>>,
    emptyReturns: nat
  )

  function Start<T>(): Monitor<T> {
    Monitor(Init(), {}, {}, 0, 0, [], [], 0)
  }

  datatype Step<T> =
    | Call(op: Op<T>)            // the critical section of any operation but wait_and_pop
    | NotifyOne(to: Consumer)    // notify_one wakes some sleeper
    | NotifyNobody               // notify_one finds no sleeper
    | NotifyAll
    | Enter(who: Consumer)        // wait_and_pop takes the lock and tests the predicate
    | Resume(who: Consumer)       // a woken consumer retakes the lock and tests again
    | Spurious(to: Consumer)

  predicate Enabled<T>(m: Monitor<T>, step: Step<T>) {
    match step
    case Call(op) => !op.WaitPop?
    case NotifyOne(to) => m.pendingOne > 0 && to in m.sleeping
    case NotifyNobody => m.pendingOne > 0 && m.sleeping == {}
    case NotifyAll => m.pendingAll > 0
    case Enter(who) => who !in m.sleeping && who !in m.woken
    case Resume(who) => who in m.woken
    case Spurious(to) => to in m.sleeping
  }

  /** The wait predicate of `wait_and_pop`. */
  predicate Ready<T>(s: State<T>) {
    s.stopped || s.items != []
  }

  function Wake<T>(m: Monitor<T>, to: Consumer): Monitor<T> {
    m.(sleeping := m.sleeping - {to}, woken := m.woken + {to})
  }

  /** A consumer holding the lock tests the predicate: it sleeps, or it returns. */
  function Attempt<T>(c: Config<T>, m: Monitor<T>, who: Consumer): Monitor<T> {
    var awake := m.(woken := m.woken - {who});
    if !Ready(m.q) then awake.(sleeping := m.sleeping + {who})
    else
      var (q, outcome) := Apply(c, m.q, WaitPop);
      if outcome.Got?
      then awake.(q := q, handed := m.handed + [Delivery(who, outcome.item)])
      else awake.(q := q, emptyReturns := m.emptyReturns + 1)
  }

  function Exec<T>(c: Config<T>, m: Monitor<T>, step: Step<T>): Monitor<T>
    requires Enabled(m, step)
  {
    match step
    case Call(op) =>
      var (q, outcome) := Apply(c, m.q, op);
      m.(q := q,
         pendingOne := m.pendingOne + if outcome.Accepted? then 1 else 0,
         pendingAll := m.pendingAll + if op.Stop? && !m.q.stopped then 1 else 0,
         accepted := m.accepted + if outcome.Accepted? && (op.TryPush? || op.Push?) then [op.item] else [])
    case NotifyOne(to) => Wake(m, to).(pendingOne := m.pendingOne - 1)
    case NotifyNobody => m.(pendingOne := m.pendingOne - 1)
    case NotifyAll => m.(sleeping := {}, woken := m.woken + m.sleeping, pendingAll := m.pendingAll - 1)
    case Enter(who) => Attempt(c, m, who)
    case Resume(who) => Attempt(c, m, who)
    case Spurious(to) => Wake(m, to)
  }

  ghost predicate IsRun<T>(c: Config<T>, m: Monitor<T>, steps: seq<Step<T>>)
    decreases |steps|
  {
    steps == [] || (Enabled(m, steps[0]) && IsRun(c, Exec(c, m, steps[0]), steps[1..]))
  }

  ghost function After<T>(c: Config<T>, m: Monitor<T>, steps: seq<Step<T>>): Monitor<T>
    requires IsRun(c, m, steps)
    decreases |steps|
  {
    if steps == [] then m else After(c, Exec(c, m, steps[0]), steps[1..])
  }

  // ----- no lost wake-up -----

  /** What every operation keeps, `replace` included. */
  ghost predicate Sane<T>(m: Monitor<T>) {
    && m.sleeping !! m.woken
    && m.pendingAll <= (if m.q.stopped then 1 else 0)
    && (m.sleeping != {} && m.q.stopped ==> m.pendingAll > 0)
  }

  /** While anyone sleeps, every queued item is covered by a notification still to come or by
      a consumer already woken. */
  ghost predicate Covered<T>(m: Monitor<T>) {
    m.sleeping != {} ==> |m.q.items| <= m.pendingOne + |m.woken|
  }

  ghost predicate Inv<T>(m: Monitor<T>) {
    Sane(m) && Covered(m)
  }

  predicate Replaces<T>(step: Step<T>) {
    step.Call? && step.op.Replace?
  }

  /** How far one critical section can grow the queue. */
  lemma GrowthOfApply<T>(c: Config<T>, s: State<T>, op: Op<T>)
    requires !op.Replace?
    ensures var (s', outcome) := Apply(c, s, op);
            && |s'.items| <= |s.items| + (if outcome.Accepted? then 1 else 0)
            && s'.stopped == (s.stopped || op.Stop?)
            && (op.WaitPop? && s.items != [] ==> |s'.items| == |s.items| - 1)
  {
  }

  lemma StepKeepsSane<T>(c: Config<T>, m: Monitor<T>, step: Step<T>)
    requires Sane(m) && Enabled(m, step)
    ensures Sane(Exec(c, m, step))
  {
  }

  lemma AttemptKeepsCover<T>(c: Config<T>, m: Monitor<T>, who: Consumer)
    requires Covered(m)
    ensures Covered(Attempt(c, m, who))
  {
    if who in m.woken {
      assert |m.woken - {who}| == |m.woken| - 1;
    } else {
      assert m.woken - {who} == m.woken;
    }
  }

  lemma StepKeepsInv<T>(c: Config<T>, m: Monitor<T>, step: Step<T>)
    requires Inv(m) && Enabled(m, step) && !Replaces(step)
    ensures Inv(Exec(c, m, step))
  {
    StepKeepsSane(c, m, step);
    match step
    case Call(op) => GrowthOfApply(c, m.q, op);
    case NotifyOne(to) => assert |m.woken + {to}| == |m.woken| + 1;
    case NotifyNobody =>
    case NotifyAll =>
    case Enter(who) => AttemptKeepsCover(c, m, who);
    case Resume(who) => AttemptKeepsCover(c, m, who);
    case Spurious(to) => assert |m.woken + {to}| == |m.woken| + 1;
  }

  lemma {:induction false} RunKeepsInv<T>(c: Config<T>, m: Monitor<T>, steps: seq<Step<T>>)
    requires Inv(m) && IsRun(c, m, steps)
    requires forall step <- steps :: !Replaces(step)
    ensures Inv(After(c, m, steps))
    decreases |steps|
  {
    if steps != [] {
      StepKeepsInv(c, m, steps[0]);
      RunKeepsInv(c, Exec(c, m, steps[0]), steps[1..]);
    }
  }

  /** Nothing is left to wake anybody. */
  predicate Settled<T>(m: Monitor<T>) {
    m.pendingOne == 0 && m.pendingAll == 0 && m.woken == {}
  }

  /** In every run without `replace`, once no notification is pending and nobody is awake, a
      consumer still asleep means that the queue is empty and not stopped. */
  lemma NoLostWakeUp<T>(c: Config<T>, steps: seq<Step<T>>)
    requires IsRun(c, Start(), steps)
    requires forall step <- steps :: !Replaces(step)
    ensures var m := After(c, Start(), steps);
            && Covered(m)
            && (m.sleeping != {} && m.q.stopped ==> m.pendingAll > 0)
            && (Settled(m) && m.sleeping != {} ==> !Ready(m.q))
  {
    RunKeepsInv(c, Start(), steps);
  }

  /** The lost wake-up `replace` allows: a consumer sleeps for good beside a queued item. */
  lemma ReplaceLosesAWakeUp<T>(c: Config<T>, x: T)
    ensures var steps := [Enter(0), Call(Replace([x]))];
            && IsRun(c, Start(), steps)
            && var m := After(c, Start(), steps);
               Settled(m) && m.sleeping == {0} && m.q.items == [x]
  {
    var steps := [Enter(0), Call(Replace([x]))];
    var one: Monitor<T> := Exec(c, Start(), Enter(0));
    assert steps[1..] == [Call(Replace([x]))];
    assert Kept(c, [x]) == [x];
    assert one.sleeping == {0} && one.woken == {};
    var two := Exec(c, one, Call(Replace([x])));
    assert IsRun(c, two, []);
    assert After(c, one, steps[1..]) == two;
  }

  // ----- every wake-up in progress runs to its end -----

  /** The steps that need no new call: pending notifications and woken consumers. */
  predicate Settling<T>(step: Step<T>) {
    step.NotifyOne? || step.NotifyNobody? || step.NotifyAll? || step.Resume?
  }

  function Unrest<T>(m: Monitor<T>): nat {
    3 * m.pendingOne + 2 * |m.woken| + |m.sleeping|
    + if m.pendingAll > 0 then |m.sleeping| + |m.woken| + 1 else 0
  }

  lemma SettlingStepDecreases<T>(c: Config<T>, m: Monitor<T>, step: Step<T>)
    requires Sane(m) && Enabled(m, step) && Settling(step)
    ensures Unrest(Exec(c, m, step)) < Unrest(m)
  {
    match step
    case NotifyOne(to) =>
      assert |m.woken + {to}| == |m.woken| + 1;
      assert |m.sleeping - {to}| == |m.sleeping| - 1;
    case NotifyNobody =>
    case NotifyAll => assert |m.woken + m.sleeping| == |m.woken| + |m.sleeping|;
    case Resume(who) =>
      assert |m.woken - {who}| == |m.woken| - 1;
      assert |m.sleeping + {who}| == |m.sleeping| + 1;
  }

  /** Wake-ups in progress finish within `Unrest` steps, in whatever order they are taken; when
      no such step is left, nobody sleeps beside an item or a stop. */
  lemma {:induction false} WakeUpsFinish<T>(c: Config<T>, m: Monitor<T>, steps: seq<Step<T>>)
    requires Inv(m) && IsRun(c, m, steps)
    requires forall step <- steps :: Settling(step)
    ensures |steps| + Unrest(After(c, m, steps)) <= Unrest(m)
    ensures var last := After(c, m, steps);
            (forall step | Settling(step) :: !Enabled(last, step)) ==>
              Settled(last) && (last.sleeping != {} ==> !Ready(last.q))
    decreases |steps|
  {
    if steps != [] {
      var next := Exec(c, m, steps[0]);
      SettlingStepDecreases(c, m, steps[0]);
      StepKeepsInv(c, m, steps[0]);
      WakeUpsFinish(c, next, steps[1..]);
    } else if !Settled(m) {
      var step := UnsettledCanStep(m);
    }
  }

  lemma UnsettledCanStep<T>(m: Monitor<T>) returns (step: Step<T>)
    requires !Settled(m)
    ensures Settling(step) && Enabled(m, step)
  {
    if m.woken != {} {
      var who :| who in m.woken;
      step := Resume(who);
    } else if m.pendingAll > 0 {
      step := NotifyAll;
    } else if m.sleeping == {} {
      step := NotifyNobody;
    } else {
      var to :| to in m.sleeping;
      step := NotifyOne(to);
    }
  }

  // ----- exactly when a wake-up is lost -----

  /** A consumer asleep although the wait predicate holds. */
  predicate Stuck<T>(m: Monitor<T>) {
    m.sleeping != {} && Ready(m.q)
  }

  /** More sleepers than notifications to come, and more items than consumers awake or to be
      woken will take. */
  predicate Stranded<T>(m: Monitor<T>) {
    m.pendingAll == 0 && |m.sleeping| > m.pendingOne && |m.q.items| > m.pendingOne + |m.woken|
  }

  lemma SettlingKeepsStranded<T>(c: Config<T>, m: Monitor<T>, step: Step<T>)
    requires Sane(m) && Enabled(m, step) && Settling(step)
    ensures Stranded(Exec(c, m, step)) == Stranded(m)
  {
    match step
    case NotifyOne(to) =>
      assert |m.woken + {to}| == |m.woken| + 1;
      assert |m.sleeping - {to}| == |m.sleeping| - 1;
    case NotifyNobody =>
    case NotifyAll =>
    case Resume(who) => assert |m.woken - {who}| == |m.woken| - 1;
  }

  /** `steps` carry out all pending notifications and let every woken consumer run. */
  ghost predicate Settles<T>(c: Config<T>, m: Monitor<T>, steps: seq<Step<T>>) {
    IsRun(c, m, steps) && (forall step <- steps :: Settling(step)) && Settled(After(c, m, steps))
  }

  /** Whatever the order in which wake-ups are carried out, the end is already decided. */
  lemma {:induction false} SettlingDecides<T>(c: Config<T>, m: Monitor<T>, steps: seq<Step<T>>)
    requires Sane(m) && Settles(c, m, steps)
    ensures Stuck(After(c, m, steps)) <==> Stranded(m)
    decreases |steps|
  {
    if steps != [] {
      StepKeepsSane(c, m, steps[0]);
      SettlingKeepsStranded(c, m, steps[0]);
      SettlingDecides(c, Exec(c, m, steps[0]), steps[1..]);
    }
  }

  lemma {:induction false} CanSettle<T>(c: Config<T>, m: Monitor<T>) returns (steps: seq<Step<T>>)
    requires Sane(m)
    ensures Settles(c, m, steps)
    decreases Unrest(m)
  {
    if Settled(m) {
      steps := [];
    } else {
      var step := UnsettledCanStep(m);
      SettlingStepDecreases(c, m, step);
      StepKeepsSane(c, m, step);
      var rest := CanSettle(c, Exec(c, m, step));
      steps := [step] + rest;
      assert steps[1..] == rest;
    }
  }

  lemma {:induction false} RunKeepsSane<T>(c: Config<T>, m: Monitor<T>, steps: seq<Step<T>>)
    requires Sane(m) && IsRun(c, m, steps)
    ensures Sane(After(c, m, steps))
    decreases |steps|
  {
    if steps != [] {
      StepKeepsSane(c, m, steps[0]);
      RunKeepsSane(c, Exec(c, m, steps[0]), steps[1..]);
    }
  }

  /** Some run of all the operations leads here. */
  ghost predicate Reachable<T(!new)>(c: Config<T>, m: Monitor<T>) {
    exists steps :: IsRun(c, Start(), steps) && After(c, Start(), steps) == m
  }

  /** In every reachable state the wake-ups in progress can be carried out, and in whatever
      order that is done a consumer is left asleep beside an item or a stop if and only if the
      state is `Stranded` now. */
  lemma WakeUpLostIff<T(!new)>(c: Config<T>, m: Monitor<T>)
    requires Reachable(c, m)
    ensures Sane(m)
    ensures exists steps :: Settles(c, m, steps)
    ensures forall steps | Settles(c, m, steps) :: Stuck(After(c, m, steps)) <==> Stranded(m)
  {
    var before :| IsRun(c, Start(), before) && After(c, Start(), before) == m;
    RunKeepsSane(c, Start(), before);
    var some := CanSettle(c, m);
    forall steps | Settles(c, m, steps)
      ensures Stuck(After(c, m, steps)) <==> Stranded(m)
    {
      SettlingDecides(c, m, steps);
    }
  }

  lemma {:induction false} RunSnoc<T>(c: Config<T>, m: Monitor<T>, steps: seq<Step<T>>, step: Step<T>)
    requires IsRun(c, m, steps) && Enabled(After(c, m, steps), step)
    ensures IsRun(c, m, steps + [step])
    ensures After(c, m, steps + [step]) == Exec(c, After(c, m, steps), step)
    decreases |steps|
  {
    var longer := steps + [step];
    if steps == [] {
      assert longer[1..] == [];
    } else {
      assert longer[1..] == steps[1..] + [step];
      RunSnoc(c, Exec(c, m, steps[0]), steps[1..], step);
    }
  }

  /** `replace` notifies nobody. Called in any reachable state, it leaves a consumer asleep
      beside an item, however the wake-ups in progress are carried out, if and only if no
      `notify_all` is pending, some sleeper has no `notify_one` coming, and it stores more than
      the consumers awake or to be woken will take. */
  lemma ReplaceLosesWakeUpIff<T(!new)>(c: Config<T>, m: Monitor<T>, xs: seq<T>)
    requires Reachable(c, m)
    ensures var m' := Exec(c, m, Call(Replace(xs)));
            && (exists steps :: Settles(c, m', steps))
            && (forall steps | Settles(c, m', steps) ::
                  Stuck(After(c, m', steps)) <==>
                    && m.pendingAll == 0
                    && |m.sleeping| > m.pendingOne
                    && |Kept(c, xs)| > m.pendingOne + |m.woken|)
  {
    var before :| IsRun(c, Start(), before) && After(c, Start(), before) == m;
    RunSnoc(c, Start(), before, Call(Replace(xs)));
    WakeUpLostIff(c, Exec(c, m, Call(Replace(xs))));
  }

  // ----- one notification per item, one end per call -----

  datatype Kind = Notification | Broadcast | Entry

  predicate Is<T>(step: Step<T>, kind: Kind) {
    match kind
    case Notification => step.NotifyOne? || step.NotifyNobody?
    case Broadcast => step.NotifyAll?
    case Entry => step.Enter?
  }

  function Count<T>(steps: seq<Step<T>>, kind: Kind): nat
    decreases |steps|
  {
    if steps == [] then 0 else (if Is(steps[0], kind) then 1 else 0) + Count(steps[1..], kind)
  }

  /** The notifications delivered so far, the broadcasts, and the calls of `wait_and_pop` begun. */
  function Ledger<T>(m: Monitor<T>, kind: Kind): int {
    match kind
    case Notification => |m.accepted| - m.pendingOne
    case Broadcast => (if m.q.stopped then 1 else 0) - m.pendingAll
    case Entry => |m.handed| + m.emptyReturns + |m.sleeping| + |m.woken|
  }

  lemma AttemptKeepsLedger<T>(c: Config<T>, m: Monitor<T>, who: Consumer, kind: Kind)
    requires who !in m.sleeping
    ensures Ledger(Attempt(c, m, who), kind) ==
            Ledger(m, kind) + if kind.Entry? && who !in m.woken then 1 else 0
  {
    assert |m.sleeping + {who}| == |m.sleeping| + 1;
    if who in m.woken {
      assert |m.woken - {who}| == |m.woken| - 1;
    } else {
      assert m.woken - {who} == m.woken;
    }
  }

  lemma WakeKeepsLedger<T>(m: Monitor<T>, to: Consumer, kind: Kind)
    requires m.sleeping !! m.woken && to in m.sleeping
    ensures Ledger(Wake(m, to), kind) == Ledger(m, kind)
  {
    assert |m.woken + {to}| == |m.woken| + 1;
    assert |m.sleeping - {to}| == |m.sleeping| - 1;
  }

  lemma CallKeepsLedger<T>(c: Config<T>, m: Monitor<T>, op: Op<T>, kind: Kind)
    requires !op.WaitPop?
    ensures Ledger(Exec(c, m, Call(op)), kind) == Ledger(m, kind)
  {
  }

  lemma NotifyAllKeepsLedger<T>(c: Config<T>, m: Monitor<T>, kind: Kind)
    requires m.sleeping !! m.woken && m.pendingAll > 0
    ensures Ledger(Exec(c, m, NotifyAll), kind) == Ledger(m, kind) + if kind.Broadcast? then 1 else 0
  {
    assert |m.woken + m.sleeping| == |m.woken| + |m.sleeping|;
  }

  lemma StepKeepsLedger<T>(c: Config<T>, m: Monitor<T>, step: Step<T>, kind: Kind)
    requires m.sleeping !! m.woken && Enabled(m, step)
    ensures Ledger(Exec(c, m, step), kind) == Ledger(m, kind) + if Is(step, kind) then 1 else 0
  {
    match step
    case Call(op) => CallKeepsLedger(c, m, op, kind);
    case NotifyOne(to) => WakeKeepsLedger(m, to, kind);
    case NotifyNobody =>
    case NotifyAll => NotifyAllKeepsLedger(c, m, kind);
    case Enter(who) => AttemptKeepsLedger(c, m, who, kind);
    case Resume(who) => AttemptKeepsLedger(c, m, who, kind);
    case Spurious(to) => WakeKeepsLedger(m, to, kind);
  }

  lemma {:induction false} RunKeepsLedger<T>(c: Config<T>, m: Monitor<T>, steps: seq<Step<T>>, kind: Kind)
    requires Sane(m) && IsRun(c, m, steps)
    ensures Ledger(After(c, m, steps), kind) == Ledger(m, kind) + Count(steps, kind)
    decreases |steps|
  {
    if steps != [] {
      StepKeepsSane(c, m, steps[0]);
      StepKeepsLedger(c, m, steps[0], kind);
      RunKeepsLedger(c, Exec(c, m, steps[0]), steps[1..], kind);
    }
  }

  /** In every run of all operations: every accepted push notifies exactly once and nothing else
      does, the first stop broadcasts exactly once, and every call of `wait_and_pop` has returned
      one item, has returned empty, is asleep or is about to test again. */
  lemma EverythingIsAccounted<T>(c: Config<T>, steps: seq<Step<T>>)
    requires IsRun(c, Start(), steps)
    ensures var m := After(c, Start(), steps);
            && |m.accepted| == Count(steps, Notification) + m.pendingOne
            && (if m.q.stopped then 1 else 0) == Count(steps, Broadcast) + m.pendingAll
            && Count(steps, Entry) == |m.handed| + m.emptyReturns + |m.sleeping| + |m.woken|
  {
    RunKeepsLedger(c, Start(), steps, Notification);
    RunKeepsLedger(c, Start(), steps, Broadcast);
    RunKeepsLedger(c, Start(), steps, Entry);
  }

  // ----- conservation, order and drain -----

  /** `try_push_back` producers, `wait_and_pop` consumers and `stop`: how the server uses it. */
  predicate ServerStep<T>(step: Step<T>) {
    step.Call? ==> step.op.Stop? || (step.op.TryPush? && step.op.end.Back?)
  }

  ghost function HandedItems<T>(m: Monitor<T>): seq<T> {
    seq(|m.handed|, i requires 0 <= i < |m.handed| => m.handed[i].item)
  }

  ghost predicate Conserved<T>(m: Monitor<T>) {
    && HandedItems(m) + m.q.items == m.accepted
    && (m.emptyReturns > 0 ==> m.q.stopped && m.q.items == [])
  }

  lemma StepConserves<T>(c: Config<T>, m: Monitor<T>, step: Step<T>)
    requires Conserved(m) && Enabled(m, step) && ServerStep(step)
    ensures var m' := Exec(c, m, step);
            && Conserved(m')
            && (m.q.stopped ==> m'.q.stopped && m'.accepted == m.accepted)
            && m.handed <= m'.handed
  {
  }

  lemma {:induction false} RunConserves<T>(c: Config<T>, m: Monitor<T>, steps: seq<Step<T>>)
    requires Conserved(m) && IsRun(c, m, steps)
    requires forall step <- steps :: ServerStep(step)
    ensures var m' := After(c, m, steps);
            && Conserved(m')
            && (m.q.stopped ==> m'.q.stopped && m'.accepted == m.accepted)
            && m.handed <= m'.handed
    decreases |steps|
  {
    if steps != [] {
      StepConserves(c, m, steps[0]);
      RunConserves(c, Exec(c, m, steps[0]), steps[1..]);
    }
  }

  /** In every interleaving: what was handed out, in order, followed by what is queued is what
      was accepted; an empty result appears only when everything accepted has been handed out
      and nothing more will be; after a stop, `later` accepts nothing. */
  lemma FifoDrain<T>(c: Config<T>, steps: seq<Step<T>>, later: seq<Step<T>>)
    requires IsRun(c, Start(), steps) && IsRun(c, After(c, Start(), steps), later)
    requires (forall step <- steps :: ServerStep(step)) && (forall step <- later :: ServerStep(step))
    ensures var m := After(c, Start(), steps);
            var m' := After(c, m, later);
            && HandedItems(m) + m.q.items == m.accepted
            && (m.emptyReturns > 0 ==> m.q.stopped && HandedItems(m) == m.accepted && m'.handed == m.handed)
            && (m.q.stopped ==> m'.accepted == m.accepted)
  {
    var m := After(c, Start(), steps);
    RunConserves(c, Start(), steps);
    RunConserves(c, m, later);
    var m' := After(c, m, later);
    if m.emptyReturns > 0 {
      assert HandedItems(m) == m.accepted;
      assert |m'.handed| == |HandedItems(m')| <= |m'.accepted| == |m.handed|;
    }
  }
}
