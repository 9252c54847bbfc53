/**
  The pipeline with its worker threads as consumers of the queue's monitor
  (src/network/servers/request_server_base.hpp:94-103 over
  src/data_structures/thread_safe/thread_safe_queue.hpp:333-364).

  In HttpPipeline a free worker may take a request whenever one is queued. Here a worker has
  to enter `wait_and_pop`, may be asleep in it, and goes on only when a notification reaches
  it. A state is a server and a monitor that share one queue; a step moves one or both.
 */
module WorkerPool {
  import opened Wrappers
  import opened ThreadSafeQueue
  import opened HttpConnection
  import H = HttpPipeline
  import G = HttpGuarantees
  import M = QueueMonitor

  type Worker = nat

  function Workers(n: nat): (all: set<Worker>)
    ensures |all| == n && forall w: nat :: w in all <==> w < n
  {
    if n == 0 then {} else Workers(n - 1) + {n - 1}
  }

  /** `holding` says what each busy worker is processing; `exited` left the loop. */
  datatype Pool = Pool(
    server: H.Server,
    monitor: M.Monitor<Task>,
    holding: map<Worker, Task>,
    exited: set<Worker>
  )

  function Start(): Pool {
    Pool(H.START, M.Start(), map[], {})
  }

  datatype Step =
    | Net(net: H.Step)               // any step of the pipeline but Take and Finish
    | Notify(notify: M.Step<Task>)   // a notification or a spurious wake-up
    | Wait(w: Worker)                // the worker calls wait_and_pop
    | Resume(w: Worker)              // the woken worker retakes the lock
    | Finish(w: Worker, response: Response)

  /** What the threads themselves wait for. */
  predicate Guard(g: H.Settings, p: Pool, step: Step) {
    match step
    case Net(net) => !net.Take? && !net.Finish? && H.Enabled(g, p.server, net)
    case Notify(n) => (n.NotifyOne? || n.NotifyNobody? || n.NotifyAll? || n.Spurious?) && M.Enabled(p.monitor, n)
    case Wait(w) => w in Free(g, p)
    case Resume(w) => w in p.monitor.woken
    case Finish(w, _) => w in p.holding && H.Enabled(g, p.server, H.Finish(p.holding[w], step.response))
  }

  /** The workers inside `wait_and_pop`, processing a request, or gone. */
  function Engaged(p: Pool): set<Worker> {
    p.monitor.sleeping + p.monitor.woken + p.holding.Keys + p.exited
  }

  /** The workers between two calls of `wait_and_pop`, with nothing to process. */
  function Free(g: H.Settings, p: Pool): set<Worker> {
    Workers(g.workers) - Engaged(p)
  }

  /** What a step is for the queue's monitor. */
  function MonitorStep(p: Pool, step: Step): Option<M.Step<Task>> {
    match step
    case Net(Read(c, request)) =>
      if c < |p.server.links|
      then Some(M.Call(TryPush(Task(c, request, p.server.links[c].conn.nextSequenceId), Back)))
      else None
    case Net(StopQueue) => Some(M.Call(Stop))
    case Notify(n) => Some(n)
    case Wait(w) => Some(M.Enter(w))
    case Resume(w) => Some(M.Resume(w))
    case _ => None
  }

  /** What a step is for the pipeline. */
  function ServerStep(p: Pool, step: Step): Option<H.Step> {
    match step
    case Net(net) => Some(net)
    case Notify(_) => None
    case Wait(_) => if p.server.queue.items != [] then Some(H.Take) else None
    case Resume(_) => if p.server.queue.items != [] then Some(H.Take) else None
    case Finish(w, r) => if w in p.holding then Some(H.Finish(p.holding[w], r)) else None
  }

  function ExecServer(g: H.Settings, s: H.Server, step: Option<H.Step>): H.Server
    requires step.Some? ==> H.Enabled(g, s, step.value)
  {
    if step.Some? then H.Exec(g, s, step.value) else s
  }

  function ExecMonitor(g: H.Settings, m: M.Monitor<Task>, step: Option<M.Step<Task>>): M.Monitor<Task>
    requires step.Some? ==> M.Enabled(m, step.value)
  {
    if step.Some? then M.Exec(g.queue, m, step.value) else m
  }

  /** The guard holds and both halves can make their part of the step. */
  predicate Enabled(g: H.Settings, p: Pool, step: Step) {
    && Guard(g, p, step)
    && (ServerStep(p, step).Some? ==> H.Enabled(g, p.server, ServerStep(p, step).value))
    && (MonitorStep(p, step).Some? ==> M.Enabled(p.monitor, MonitorStep(p, step).value))
  }

  /** The step is a worker that finds a request in the queue. */
  predicate Takes(p: Pool, step: Step) {
    (step.Wait? || step.Resume?) && p.server.queue.items != []
  }

  function Exec(g: H.Settings, p: Pool, step: Step): Pool
    requires Enabled(g, p, step)
  {
    var left := (step.Wait? || step.Resume?) && p.server.queue.items == [] && p.server.queue.stopped;
    Pool(ExecServer(g, p.server, ServerStep(p, step)),
         ExecMonitor(g, p.monitor, MonitorStep(p, step)),
         if Takes(p, step) then p.holding[step.w := p.server.queue.items[0]]
         else if step.Finish? then p.holding - {step.w}
         else p.holding,
         if left then p.exited + {step.w} else p.exited)
  }

  // ----- the invariant -----

  ghost predicate Shared(p: Pool) {
    p.server.queue == p.monitor.q
  }

  /** `w` is a worker if it has a role, and has no two. */
  ghost predicate OneRole(g: H.Settings, p: Pool, w: Worker) {
    && (w in Engaged(p) ==> w < g.workers)
    && (w in p.monitor.sleeping ==> w !in p.monitor.woken && w !in p.holding && w !in p.exited)
    && (w in p.monitor.woken ==> w !in p.holding && w !in p.exited)
    && (w in p.holding ==> w !in p.exited)
  }

  ghost predicate Roles(g: H.Settings, p: Pool) {
    forall w: Worker :: OneRole(g, p, w)
  }

  /** The busy workers hold the requests in processing, each its own. */
  ghost predicate Held(holding: map<Worker, Task>, busy: multiset<Task>) {
    && |holding| == |busy|
    && (forall w <- holding :: holding[w] in busy)
    && (forall v, w | v in holding && w in holding && v != w :: holding[v] != holding[w])
  }

  ghost predicate Hands(p: Pool) {
    Held(p.holding, p.server.busy)
  }

  /** A worker leaves its loop only for good. */
  ghost predicate Exits(p: Pool) {
    p.exited != {} ==> p.server.queue.stopped && p.server.queue.items == []
  }

  ghost predicate Inv(g: H.Settings, p: Pool) {
    H.Inv(g, p.server) && M.Inv(p.monitor) && Shared(p) && Roles(g, p) && Hands(p) && Exits(p)
  }

  /** While one worker holds nothing, fewer requests are in processing than there are workers. */
  lemma RoomForOne(n: nat, some: set<Worker>, w: Worker)
    requires w < n && w !in some && some <= Workers(n)
    ensures |some| < n
  {
    var spare := Workers(n) - some;
    assert spare + some == Workers(n) && w in spare;
  }

  lemma HoldersAreWorkers(g: H.Settings, p: Pool)
    requires Roles(g, p)
    ensures p.holding.Keys <= Workers(g.workers)
  {
    forall w <- p.holding.Keys ensures w in Workers(g.workers) {
      assert OneRole(g, p, w);
    }
  }

  /** The guards are enough: nothing in the pipeline holds back a worker that finds a request. */
  lemma GuardIsEnough(g: H.Settings, p: Pool, step: Step)
    requires Roles(g, p) && Hands(p) && Guard(g, p, step)
    ensures Enabled(g, p, step)
  {
    if step.Wait? || step.Resume? {
      assert OneRole(g, p, step.w);
      HoldersAreWorkers(g, p);
      RoomForOne(g.workers, p.holding.Keys, step.w);
    }
  }

  /** What testing the wait predicate does in the monitor, for the queue and for a worker `v`. */
  lemma AttemptMoves(g: H.Settings, m: M.Monitor<Task>, w: Worker, v: Worker)
    ensures var m' := M.Attempt(g.queue, m, w);
            && m'.q == (if m.q.items != [] then Apply(g.queue, m.q, WaitPop).0 else m.q)
            && (v in m'.woken <==> v in m.woken && v != w)
            && (v in m'.sleeping <==> v in m.sleeping || (v == w && !M.Ready(m.q)))
  {
  }

  lemma WaitIsAttempt(g: H.Settings, p: Pool, step: Step)
    requires Enabled(g, p, step) && (step.Wait? || step.Resume?)
    ensures var p', items := Exec(g, p, step), p.server.queue.items;
            && p'.monitor == M.Attempt(g.queue, p.monitor, step.w)
            && p'.server.queue == (if items != [] then Apply(g.queue, p.server.queue, WaitPop).0 else p.server.queue)
            && p'.holding == (if items != [] then p.holding[step.w := items[0]] else p.holding)
            && p'.exited == if items == [] && p.server.queue.stopped then p.exited + {step.w} else p.exited
  {
  }

  lemma SharedKept(g: H.Settings, p: Pool, step: Step)
    requires Shared(p) && Enabled(g, p, step)
    ensures Shared(Exec(g, p, step))
  {
    if step.Wait? || step.Resume? {
      WaitIsAttempt(g, p, step);
      AttemptMoves(g, p.monitor, step.w, step.w);
    }
  }

  /** What becomes of worker `v` when `step.w` tests the wait predicate. */
  lemma WaitMoves(g: H.Settings, p: Pool, step: Step, v: Worker)
    requires Shared(p) && Enabled(g, p, step) && (step.Wait? || step.Resume?)
    ensures var p', ready := Exec(g, p, step), M.Ready(p.monitor.q);
            && (v in p'.monitor.woken <==> v in p.monitor.woken && v != step.w)
            && (v in p'.monitor.sleeping <==> v in p.monitor.sleeping || (v == step.w && !ready))
            && (v in p'.holding <==> v in p.holding || (v == step.w && Takes(p, step)))
            && (v in p'.exited <==> v in p.exited || (v == step.w && ready && !Takes(p, step)))
  {
    WaitIsAttempt(g, p, step);
    AttemptMoves(g, p.monitor, step.w, v);
  }

  lemma RolesKept(g: H.Settings, p: Pool, step: Step)
    requires Roles(g, p) && Shared(p) && Enabled(g, p, step)
    ensures Roles(g, Exec(g, p, step))
  {
    forall w: Worker ensures OneRole(g, Exec(g, p, step), w) {
      assert OneRole(g, p, w);
      if step.Wait? || step.Resume? {
        WaitMoves(g, p, step, w);
      }
    }
  }

  /** A queued request is in nobody's hands. */
  lemma QueuedIsNotBusy(s: H.Server, t: Task)
    requires H.Tasks(s) && t in s.queue.items
    ensures t !in s.busy
  {
    assert t in H.Pending(s);
    assert H.Genuine(s, t) && H.PendingOnce(s, t.conn, t.id);
  }

  lemma HoldOneMore(holding: map<Worker, Task>, busy: multiset<Task>, w: Worker, t: Task)
    requires Held(holding, busy) && w !in holding && t !in busy
    ensures Held(holding[w := t], busy + multiset{t})
  {
    var more := holding[w := t];
    assert |more| == |holding| + 1 by {
      assert more.Keys == holding.Keys + {w};
    }
    forall v <- holding ensures more[v] == holding[v] != t {
      assert holding[v] in busy;
    }
  }

  lemma HoldOneLess(holding: map<Worker, Task>, busy: multiset<Task>, w: Worker)
    requires Held(holding, busy) && w in holding
    ensures Held(holding - {w}, busy - multiset{holding[w]})
  {
    assert (holding - {w}).Keys == holding.Keys - {w};
    assert |holding - {w}| == |holding| - 1;
  }

  lemma BusyAfter(g: H.Settings, p: Pool, step: Step)
    requires Enabled(g, p, step)
    ensures Exec(g, p, step).server.busy ==
            if Takes(p, step) then p.server.busy + multiset{p.server.queue.items[0]}
            else if step.Finish? then p.server.busy - multiset{p.holding[step.w]}
            else p.server.busy
  {
  }

  lemma EmptyHanded(g: H.Settings, p: Pool, step: Step)
    requires Roles(g, p) && H.Tasks(p.server) && Enabled(g, p, step) && Takes(p, step)
    ensures p.server.queue.items[0] !in p.server.busy && step.w !in p.holding
  {
    QueuedIsNotBusy(p.server, p.server.queue.items[0]);
    assert OneRole(g, p, step.w);
  }

  lemma HandsKept(g: H.Settings, p: Pool, step: Step)
    requires Hands(p) && Enabled(g, p, step)
    requires Takes(p, step) ==> p.server.queue.items[0] !in p.server.busy && step.w !in p.holding
    ensures Hands(Exec(g, p, step))
  {
    BusyAfter(g, p, step);
    if Takes(p, step) {
      HoldOneMore(p.holding, p.server.busy, step.w, p.server.queue.items[0]);
    } else if step.Finish? {
      HoldOneLess(p.holding, p.server.busy, step.w);
    }
  }

  lemma ExitsKept(g: H.Settings, p: Pool, step: Step)
    requires Exits(p) && Enabled(g, p, step)
    ensures Exits(Exec(g, p, step))
  {
  }

  lemma HalvesKept(g: H.Settings, p: Pool, step: Step)
    requires H.Inv(g, p.server) && M.Inv(p.monitor) && Enabled(g, p, step)
    ensures H.Inv(g, Exec(g, p, step).server) && M.Inv(Exec(g, p, step).monitor)
  {
    if ServerStep(p, step).Some? {
      H.StepKeepsInv(g, p.server, ServerStep(p, step).value);
    }
    if MonitorStep(p, step).Some? {
      M.StepKeepsInv(g.queue, p.monitor, MonitorStep(p, step).value);
    }
  }

  lemma StepKeepsInv(g: H.Settings, p: Pool, step: Step)
    requires Inv(g, p) && Enabled(g, p, step)
    ensures Inv(g, Exec(g, p, step))
  {
    HalvesKept(g, p, step);
    SharedKept(g, p, step);
    RolesKept(g, p, step);
    if Takes(p, step) {
      EmptyHanded(g, p, step);
    }
    HandsKept(g, p, step);
    ExitsKept(g, p, step);
  }

  // ----- runs -----

  ghost predicate IsRun(g: H.Settings, p: Pool, steps: seq<Step>)
    decreases |steps|
  {
    steps == [] || (Enabled(g, p, steps[0]) && IsRun(g, Exec(g, p, steps[0]), steps[1..]))
  }

  ghost function After(g: H.Settings, p: Pool, steps: seq<Step>): Pool
    requires IsRun(g, p, steps)
    decreases |steps|
  {
    if steps == [] then p else After(g, Exec(g, p, steps[0]), steps[1..])
  }

  lemma StartInv(g: H.Settings)
    ensures Inv(g, Start())
  {
    G.StartInv(g);
  }

  lemma {:induction false} RunKeepsInv(g: H.Settings, p: Pool, steps: seq<Step>)
    requires Inv(g, p) && IsRun(g, p, steps)
    ensures Inv(g, After(g, p, steps))
    decreases |steps|
  {
    if steps != [] {
      StepKeepsInv(g, p, steps[0]);
      RunKeepsInv(g, Exec(g, p, steps[0]), steps[1..]);
    }
  }

  /** The pipeline's part of a run, without the steps only the monitor sees. */
  ghost function ServerRun(g: H.Settings, p: Pool, steps: seq<Step>): seq<H.Step>
    requires IsRun(g, p, steps)
    decreases |steps|
  {
    if steps == [] then []
    else
      var first := ServerStep(p, steps[0]);
      (if first.Some? then [first.value] else []) + ServerRun(g, Exec(g, p, steps[0]), steps[1..])
  }

  /** The workers add no behaviour: every run of the pool is a run of the pipeline, so all of
      HttpGuarantees holds of it. */
  lemma {:induction false} PoolRefinesPipeline(g: H.Settings, p: Pool, steps: seq<Step>)
    requires IsRun(g, p, steps)
    ensures H.IsRun(g, p.server, ServerRun(g, p, steps))
    ensures H.After(g, p.server, ServerRun(g, p, steps)) == After(g, p, steps).server
    decreases |steps|
  {
    if steps != [] {
      var next := Exec(g, p, steps[0]);
      PoolRefinesPipeline(g, next, steps[1..]);
      var rest := ServerRun(g, next, steps[1..]);
      var first := ServerStep(p, steps[0]);
      if first.Some? {
        assert ([first.value] + rest)[1..] == rest;
      } else {
        assert [] + rest == rest;
      }
    }
  }

  // ----- progress -----

  /** The steps that admit no work and are nobody's whim. */
  predicate Draining(step: Step) {
    match step
    case Net(net) => G.Draining(net)
    case Notify(n) => !n.Spurious?
    case _ => true
  }

  /** The steps left when the network has been stopped: those of the workers. */
  predicate OfWorkers(step: Step) {
    Draining(step) && !step.Net?
  }

  ghost predicate AtRest(g: H.Settings, p: Pool) {
    G.Idle(p.server) && M.Settled(p.monitor) && p.holding == map[] && Free(g, p) == {}
  }

  /** When no worker can move, none is left beside a queued request. */
  lemma NobodyOverlooksARequest(g: H.Settings, p: Pool)
    requires M.Inv(p.monitor) && Shared(p) && Roles(g, p) && Exits(p) && g.workers > 0
    requires M.Settled(p.monitor) && p.holding == map[] && Free(g, p) == {}
    ensures p.server.queue.items == []
    ensures if p.server.queue.stopped then p.exited == Workers(g.workers) else p.monitor.sleeping == Workers(g.workers)
  {
    var everybody := Workers(g.workers);
    assert 0 in everybody;
    forall w: Worker ensures w in everybody <==> w in p.monitor.sleeping || w in p.exited {
      assert OneRole(g, p, w);
      assert w in everybody ==> w in Engaged(p);
    }
  }

  lemma NoBusyWorker(p: Pool)
    requires Hands(p) && p.holding == map[]
    ensures p.server.busy == multiset{}
  {
  }

  lemma OnlyLinksLeft(p: Pool)
    requires Hands(p) && p.holding == map[] && p.server.queue.items == [] && !G.Idle(p.server)
    ensures exists l <- p.server.links :: !(l.conn.posted == multiset{} && l.conn.writes == [])
  {
    NoBusyWorker(p);
  }

  lemma WorkerCanStep(g: H.Settings, p: Pool) returns (step: Step)
    requires Roles(g, p) && Hands(p) && (Free(g, p) != {} || !M.Settled(p.monitor))
    ensures Draining(step) && !step.Net? && Enabled(g, p, step)
  {
    if Free(g, p) != {} {
      var w :| w in Free(g, p);
      step := Wait(w);
    } else {
      var m := M.UnsettledCanStep(p.monitor);
      step := if m.Resume? then Resume(m.who) else Notify(m);
    }
    GuardIsEnough(g, p, step);
  }

  lemma BusyWorkersCanStep(g: H.Settings, p: Pool) returns (step: Step)
    requires Inv(g, p) && !(p.holding == map[] && M.Settled(p.monitor) && Free(g, p) == {})
    ensures OfWorkers(step) && Enabled(g, p, step)
  {
    if p.holding != map[] {
      var w :| w in p.holding;
      step := Finish(w, OVERLOADED);
      G.BusyIsEnabled(g, p.server, p.holding[w], OVERLOADED);
    } else {
      step := WorkerCanStep(g, p);
    }
  }

  /** A pool that is not at rest has a step of its own: a response to write, a request to finish,
      a notification to deliver or a worker to run. */
  lemma BusyPoolCanStep(g: H.Settings, p: Pool) returns (step: Step)
    requires Inv(g, p) && g.workers > 0 && !AtRest(g, p)
    ensures Draining(step) && Enabled(g, p, step) && !(step.Net? && step.net.ReadError?)
  {
    if p.holding == map[] && M.Settled(p.monitor) && Free(g, p) == {} {
      NobodyOverlooksARequest(g, p);
      OnlyLinksLeft(p);
      var net := G.LinkCanStep(g, p.server);
      step := Net(net);
    } else {
      step := BusyWorkersCanStep(g, p);
    }
  }

  // ----- drain -----

  function Effort(g: H.Settings, p: Pool): nat {
    4 * G.Work(p.server) + 3 * |Free(g, p)| + M.Unrest(p.monitor)
  }

  lemma AttemptUnrest(g: H.Settings, m: M.Monitor<Task>, w: Worker)
    requires w !in m.sleeping && w !in m.woken
    ensures M.Unrest(M.Attempt(g.queue, m, w)) <= M.Unrest(m) + 2
  {
    assert m.woken - {w} == m.woken;
    assert |m.sleeping + {w}| == |m.sleeping| + 1;
  }

  lemma WaiterIsEngaged(g: H.Settings, p: Pool, step: Step)
    requires Shared(p) && Enabled(g, p, step) && (step.Wait? || step.Resume?)
    ensures Engaged(Exec(g, p, step)) == Engaged(p) + {step.w}
  {
    forall w: Worker ensures w in Engaged(Exec(g, p, step)) <==> w in Engaged(p) || w == step.w {
      WaitMoves(g, p, step, w);
    }
  }

  lemma EngagedAfter(g: H.Settings, p: Pool, step: Step)
    requires Enabled(g, p, step) && !step.Wait? && !step.Resume?
    requires step.Finish? ==> OneRole(g, p, step.w)
    ensures Engaged(Exec(g, p, step)) == if step.Finish? then Engaged(p) - {step.w} else Engaged(p)
  {
  }

  lemma OneLess(all: set<Worker>, some: set<Worker>, w: Worker)
    requires w in all && w !in some
    ensures |all - (some + {w})| == |all - some| - 1
  {
    assert all - (some + {w}) == all - some - {w};
  }

  lemma FreeAfterWait(g: H.Settings, p: Pool, step: Step)
    requires Shared(p) && Enabled(g, p, step) && (step.Wait? || step.Resume?)
    ensures |Free(g, Exec(g, p, step))| == |Free(g, p)| - if step.Wait? then 1 else 0
  {
    WaiterIsEngaged(g, p, step);
    if step.Wait? {
      OneLess(Workers(g.workers), Engaged(p), step.w);
    } else {
      assert Engaged(p) + {step.w} == Engaged(p);
    }
  }

  lemma FinisherIsFreed(g: H.Settings, p: Pool, w: Worker)
    requires Roles(g, p) && w in p.holding
    ensures |Workers(g.workers) - (Engaged(p) - {w})| == |Free(g, p)| + 1
  {
    assert OneRole(g, p, w);
    OneLess(Workers(g.workers), Engaged(p) - {w}, w);
    assert Engaged(p) - {w} + {w} == Engaged(p);
  }

  lemma FreeAfter(g: H.Settings, p: Pool, step: Step)
    requires Roles(g, p) && Enabled(g, p, step) && !step.Wait? && !step.Resume?
    ensures |Free(g, Exec(g, p, step))| == |Free(g, p)| + if step.Finish? then 1 else 0
  {
    if step.Finish? {
      FinisherIsFreed(g, p, step.w);
      assert OneRole(g, p, step.w);
    }
    EngagedAfter(g, p, step);
  }

  lemma WorkAfter(g: H.Settings, p: Pool, step: Step)
    requires H.Inv(g, p.server) && Enabled(g, p, step) && Draining(step)
    ensures var work, work' := G.Work(p.server), G.Work(Exec(g, p, step).server);
            if ServerStep(p, step).Some? then work' < work else work' == work
  {
    if ServerStep(p, step).Some? {
      G.StepDecreases(g, p.server, ServerStep(p, step).value);
    }
  }

  lemma UnrestAfter(g: H.Settings, p: Pool, step: Step)
    requires M.Sane(p.monitor) && Enabled(g, p, step) && Draining(step) && !step.Wait?
    ensures var m, m' := p.monitor, Exec(g, p, step).monitor;
            if step.Notify? || step.Resume? then M.Unrest(m') < M.Unrest(m) else m' == m
  {
    if step.Notify? || step.Resume? {
      M.SettlingStepDecreases(g.queue, p.monitor, MonitorStep(p, step).value);
    }
  }

  /** A worker that goes to sleep costs less than a free one; one that takes a request does work. */
  lemma WaitDecreases(g: H.Settings, p: Pool, step: Step)
    requires H.Inv(g, p.server) && Shared(p) && Enabled(g, p, step) && step.Wait?
    ensures Effort(g, Exec(g, p, step)) < Effort(g, p)
  {
    FreeAfterWait(g, p, step);
    WorkAfter(g, p, step);
    WaitIsAttempt(g, p, step);
    AttemptUnrest(g, p.monitor, step.w);
  }

  lemma StepDecreases(g: H.Settings, p: Pool, step: Step)
    requires Inv(g, p) && Enabled(g, p, step) && Draining(step)
    ensures Effort(g, Exec(g, p, step)) < Effort(g, p)
  {
    if step.Wait? {
      WaitDecreases(g, p, step);
    } else {
      if step.Resume? {
        FreeAfterWait(g, p, step);
      } else {
        FreeAfter(g, p, step);
      }
      WorkAfter(g, p, step);
      UnrestAfter(g, p, step);
    }
  }

  lemma {:induction false} DrainRunIsShort(g: H.Settings, p: Pool, steps: seq<Step>)
    requires Inv(g, p) && IsRun(g, p, steps)
    requires forall step <- steps :: Draining(step)
    ensures |steps| + Effort(g, After(g, p, steps)) <= Effort(g, p)
    decreases |steps|
  {
    if steps != [] {
      StepDecreases(g, p, steps[0]);
      StepKeepsInv(g, p, steps[0]);
      DrainRunIsShort(g, Exec(g, p, steps[0]), steps[1..]);
    }
  }

  /** No step of the pool's own is left. */
  ghost predicate Stuck(g: H.Settings, p: Pool) {
    forall step | Draining(step) && !(step.Net? && step.net.ReadError?) :: !Enabled(g, p, step)
  }

  /** With its workers asleep in `wait_and_pop` until a notification reaches them, the server
      still drains: after any run, work in progress ends within `Effort` steps in whatever order;
      then every request of every open connection has been answered, and the workers are all
      asleep, or, once the queue was stopped, have all left their loop. */
  lemma PoolDrains(g: H.Settings, steps: seq<Step>, later: seq<Step>)
    requires g.workers > 0
    requires IsRun(g, Start(), steps) && IsRun(g, After(g, Start(), steps), later)
    requires forall step <- later :: Draining(step)
    ensures var p := After(g, Start(), steps);
            var p' := After(g, p, later);
            && |later| <= Effort(g, p)
            && (Stuck(g, p') ==>
                  && (forall l <- p'.server.links :: l.conn.open ==> G.Answered(l))
                  && if p'.server.queue.stopped then p'.exited == Workers(g.workers)
                     else p'.monitor.sleeping == Workers(g.workers))
  {
    StartInv(g);
    RunKeepsInv(g, Start(), steps);
    var p := After(g, Start(), steps);
    DrainRunIsShort(g, p, later);
    RunKeepsInv(g, p, later);
    var p' := After(g, p, later);
    if AtRest(g, p') {
      G.IdleMeansAnswered(g, p'.server);
      NobodyOverlooksARequest(g, p');
    } else {
      var step := BusyPoolCanStep(g, p');
    }
  }

  // ----- stopping the server -----

  ghost predicate WorkersDone(g: H.Settings, p: Pool) {
    forall step | OfWorkers(step) :: !Enabled(g, p, step)
  }

  /** A response has been made for every request read. */
  ghost predicate AllMade(s: H.Server) {
    forall c: nat, id: nat | c < |s.links| && id < |s.links[c].requests| :: id in s.links[c].made
  }

  lemma NothingPending(s: H.Server)
    requires H.Tasks(s) && s.queue.items == [] && s.busy == multiset{}
    ensures AllMade(s)
  {
    forall c: nat, id: nat | c < |s.links| && id < |s.links[c].requests| ensures id in s.links[c].made {
      assert H.PendingOnce(s, c, id);
    }
  }

  /** Nothing more has been sent to any client. */
  ghost predicate SameWritten(s: H.Server, s': H.Server) {
    |s'.links| == |s.links| && forall c: nat :: c < |s.links| ==> s'.links[c].written == s.links[c].written
  }

  lemma WorkerSendsNothing(g: H.Settings, p: Pool, step: Step)
    requires Enabled(g, p, step) && OfWorkers(step)
    ensures SameWritten(p.server, Exec(g, p, step).server)
    ensures p.server.queue.stopped ==> Exec(g, p, step).server.queue.stopped
  {
  }

  lemma {:induction false} WorkersSendNothing(g: H.Settings, p: Pool, steps: seq<Step>)
    requires IsRun(g, p, steps) && forall step <- steps :: OfWorkers(step)
    ensures SameWritten(p.server, After(g, p, steps).server)
    ensures p.server.queue.stopped ==> After(g, p, steps).server.queue.stopped
    decreases |steps|
  {
    if steps != [] {
      WorkerSendsNothing(g, p, steps[0]);
      WorkersSendNothing(g, Exec(g, p, steps[0]), steps[1..]);
    }
  }

  /** A stopped queue and no step left to the workers: they have all exited, with nothing undone. */
  lemma DoneAfterStop(g: H.Settings, p: Pool)
    requires Inv(g, p) && g.workers > 0 && p.server.queue.stopped && WorkersDone(g, p)
    ensures p.exited == Workers(g.workers) && p.server.queue.items == [] && AllMade(p.server)
  {
    if p.holding == map[] && M.Settled(p.monitor) && Free(g, p) == {} {
      NobodyOverlooksARequest(g, p);
      NoBusyWorker(p);
      NothingPending(p.server);
    } else {
      var step := BusyWorkersCanStep(g, p);
    }
  }

  /** `stop` first stops the network for good and then the queue, and joins the workers. Whatever
      the server was doing: with the workers alone taking steps, they leave their loop within
      `Effort` steps in whatever order, all of them, having made a response for every request that
      was ever read; but none of those responses is sent. */
  lemma StopJoinsWorkers(g: H.Settings, steps: seq<Step>, later: seq<Step>)
    requires g.workers > 0
    requires IsRun(g, Start(), steps) && After(g, Start(), steps).server.queue.stopped
    requires IsRun(g, After(g, Start(), steps), later) && forall step <- later :: OfWorkers(step)
    ensures var p := After(g, Start(), steps);
            var p' := After(g, p, later);
            && |later| <= Effort(g, p)
            && SameWritten(p.server, p'.server)
            && (WorkersDone(g, p') ==>
                  p'.exited == Workers(g.workers) && p'.server.queue.items == [] && AllMade(p'.server))
  {
    StartInv(g);
    RunKeepsInv(g, Start(), steps);
    var p := After(g, Start(), steps);
    DrainRunIsShort(g, p, later);
    WorkersSendNothing(g, p, later);
    RunKeepsInv(g, p, later);
    if WorkersDone(g, After(g, p, later)) {
      DoneAfterStop(g, After(g, p, later));
    }
  }
}
