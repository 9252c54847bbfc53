/**
  What the pipeline guarantees to its clients in every interleaving.
 */
module HttpGuarantees {
  import opened ThreadSafeQueue
  import QueueAccounting
  import opened HttpConnection
  import opened HttpPipeline

  lemma StartInv(g: Settings)
    ensures Inv(g, START)
  {
  }

  // ----- one place for every request -----

  /** In how many places request `id` of connection `c` is: queue, worker, posted handler,
      response store, or already written. */
  ghost function Places(s: Server, c: nat, id: nat): nat
    requires c < |s.links| && id < |s.links[c].requests|
  {
    var l := s.links[c];
    var t := Task(c, l.requests[id], id);
    multiset(s.queue.items)[t] + s.busy[t]
    + (if id in l.made then l.conn.posted[Posted(id, l.made[id])] else 0)
    + (if id in l.conn.responses then 1 else 0)
    + (if id < |l.written| then 1 else 0)
  }

  /** Nothing else carries that id: no task or handler for it with another payload. */
  ghost predicate NoForgery(s: Server, c: nat, id: nat)
    requires c < |s.links| && id < |s.links[c].requests|
  {
    var l := s.links[c];
    && (forall t <- Pending(s) :: t.conn == c && t.id == id ==> t.request == l.requests[id])
    && (forall p <- l.conn.posted :: p.id == id ==> id in l.made && p.response == l.made[id])
  }

  lemma EveryRequestInOnePlace(g: Settings, steps: seq<Step>, c: nat, id: nat)
    requires IsRun(g, START, steps)
    requires c < |After(g, START, steps).links| && id < After(g, START, steps).links[c].conn.nextSequenceId
    ensures var s := After(g, START, steps);
            && s.links[c].conn.nextSequenceId == |s.links[c].requests|
            && Places(s, c, id) == 1
            && NoForgery(s, c, id)
  {
    StartInv(g);
    RunKeepsInv(g, START, steps);
    var s := After(g, START, steps);
    var l := s.links[c];
    assert LinkInv(l);
    assert PendingOnce(s, c, id);
    if id in l.made {
      assert MadeOnce(l, id);
    }
    forall t <- Pending(s) | t.conn == c && t.id == id ensures t.request == l.requests[id] {
      assert Genuine(s, t);
    }
  }

  // ----- one write at a time -----

  /** Between handlers, a connection that is not writing is not holding the response it owes
      next, and an open one that is writing has exactly one write outstanding, of that response. */
  lemma OneWriteAtATime(g: Settings, steps: seq<Step>, c: nat)
    requires IsRun(g, START, steps) && c < |After(g, START, steps).links|
    ensures var l := After(g, START, steps).links[c];
            var k := l.conn;
            && k.nextResponseId == |l.written|
            && (!k.writing ==> k.nextResponseId !in k.responses && k.writes == [])
            && (k.writing && k.open ==> k.nextResponseId in k.responses && k.writes == [k.responses[k.nextResponseId]])
            && |k.writes| <= 1
  {
    StartInv(g);
    RunKeepsInv(g, START, steps);
    assert LinkInv(After(g, START, steps).links[c]);
  }

  // ----- order -----

  /** Response `id` of connection `c` was returned by a worker for exactly that request, or is
      the 503 of its last request. */
  ghost predicate Explained(s: Server, past: seq<Step>, c: nat, id: nat)
    requires c < |s.links| && id < |s.links[c].requests| && id in s.links[c].made
  {
    var l := s.links[c];
    || Finish(Task(c, l.requests[id], id), l.made[id]) in past
    || (l.rejected && id == |l.requests| - 1 && l.made[id] == OVERLOADED)
  }

  ghost predicate AllExplained(s: Server, past: seq<Step>) {
    forall c: nat, id: nat | c < |s.links| && id < |s.links[c].requests| && id in s.links[c].made ::
      Explained(s, past, c, id)
  }

  /** What is known of a connection only grows, and nothing is read after a rejection. */
  ghost predicate Grows(l: Link, l': Link) {
    && l.requests <= l'.requests && l.written <= l'.written
    && (l.rejected ==> l'.rejected && l'.requests == l.requests)
    && (forall id <- l.made :: id in l'.made && l'.made[id] == l.made[id])
  }

  lemma TouchedLinkGrows(g: Settings, s: Server, step: Step)
    requires Enabled(g, s, step) && Touched(s, step) < |s.links|
    requires Books(s.links[Touched(s, step)])
    requires step.Finish? ==> step.task.id !in s.links[step.task.conn].made
    ensures Grows(s.links[Touched(s, step)], Exec(g, s, step).links[Touched(s, step)])
  {
  }

  lemma HistoryGrows(g: Settings, s: Server, step: Step, c: nat)
    requires Inv(g, s) && Enabled(g, s, step) && c < |s.links|
    ensures c < |Exec(g, s, step).links|
    ensures Grows(s.links[c], Exec(g, s, step).links[c])
  {
    OthersUntouched(g, s, step);
    if c == Touched(s, step) {
      assert LinkInv(s.links[c]);
      if step.Finish? {
        BusyIsDue(s, step.task);
      }
      TouchedLinkGrows(g, s, step);
    }
  }

  lemma StaysExplained(s: Server, past: seq<Step>, s': Server, step: Step, c: nat, id: nat)
    requires c < |s.links| && id < |s.links[c].requests| && id in s.links[c].made && Explained(s, past, c, id)
    requires c < |s'.links| && Grows(s.links[c], s'.links[c])
    ensures id < |s'.links[c].requests| && id in s'.links[c].made && Explained(s', past + [step], c, id)
  {
  }

  /** A response appears where a worker finishes or a read is rejected. */
  lemma NewlyExplained(g: Settings, s: Server, past: seq<Step>, step: Step, c: nat, id: nat)
    requires Enabled(g, s, step) && c < |s.links| && Counters(s.links[c])
    requires step.Finish? ==> Genuine(s, step.task)
    requires var l' := Exec(g, s, step).links[c];
             id !in s.links[c].made && id in l'.made && id < |l'.requests|
    ensures Explained(Exec(g, s, step), past + [step], c, id)
  {
    assert step.Finish? || step.Read?;
    assert (past + [step])[|past|] == step;
  }

  lemma StepExplains(g: Settings, s: Server, past: seq<Step>, step: Step)
    requires Inv(g, s) && Enabled(g, s, step) && AllExplained(s, past)
    ensures AllExplained(Exec(g, s, step), past + [step])
  {
    var s' := Exec(g, s, step);
    OthersUntouched(g, s, step);
    forall c: nat, id: nat | c < |s'.links| && id < |s'.links[c].requests| && id in s'.links[c].made
      ensures Explained(s', past + [step], c, id)
    {
      assert c < |s.links|;
      assert LinkInv(s.links[c]);
      if id in s.links[c].made {
        assert Explained(s, past, c, id);
        HistoryGrows(g, s, step, c);
        StaysExplained(s, past, s', step, c, id);
      } else {
        assert step.Finish? ==> step.task in Pending(s);
        NewlyExplained(g, s, past, step, c, id);
      }
    }
  }

  lemma {:induction false} RunExplains(g: Settings, s: Server, past: seq<Step>, steps: seq<Step>)
    requires Inv(g, s) && IsRun(g, s, steps) && AllExplained(s, past)
    ensures AllExplained(After(g, s, steps), past + steps)
    decreases |steps|
  {
    if steps == [] {
      assert past + steps == past;
    } else {
      StepExplains(g, s, past, steps[0]);
      StepKeepsInv(g, s, steps[0]);
      RunExplains(g, Exec(g, s, steps[0]), past + [steps[0]], steps[1..]);
      assert past + [steps[0]] + steps[1..] == past + steps;
    }
  }

  /** The responses a client receives are, in order and without a gap, the ones returned for its
      requests 0, 1, 2, ... (the last possibly a 503): section 9.3.2 of RFC 9112. */
  lemma ResponsesInRequestOrder(g: Settings, steps: seq<Step>, c: nat)
    requires IsRun(g, START, steps) && c < |After(g, START, steps).links|
    ensures var l := After(g, START, steps).links[c];
            && |l.written| <= |l.requests|
            && forall i: nat | i < |l.written| ::
                 || Finish(Task(c, l.requests[i], i), l.written[i]) in steps
                 || (l.rejected && i == |l.requests| - 1 && l.written[i] == OVERLOADED)
  {
    StartInv(g);
    RunKeepsInv(g, START, steps);
    RunExplains(g, START, [], steps);
    assert [] + steps == steps;
    var s := After(g, START, steps);
    var l := s.links[c];
    assert LinkInv(l);
    if |l.written| > 0 {
      assert |l.written| - 1 in l.made;
    }
    forall i: nat | i < |l.written|
      ensures Finish(Task(c, l.requests[i], i), l.written[i]) in steps
              || (l.rejected && i == |l.requests| - 1 && l.written[i] == OVERLOADED)
    {
      assert i in l.made;
      assert Explained(s, steps, c, i);
    }
  }

  // ----- overload and close -----

  lemma {:induction false} HistoryGrowsInRun(g: Settings, s: Server, steps: seq<Step>, c: nat)
    requires Inv(g, s) && IsRun(g, s, steps) && c < |s.links|
    ensures c < |After(g, s, steps).links|
    ensures Grows(s.links[c], After(g, s, steps).links[c])
    decreases |steps|
  {
    if steps != [] {
      HistoryGrows(g, s, steps[0], c);
      StepKeepsInv(g, s, steps[0]);
      HistoryGrowsInRun(g, Exec(g, s, steps[0]), steps[1..], c);
    }
  }

  ghost predicate Last503(l: Link) {
    |l.requests| - 1 in l.made && l.made[|l.requests| - 1] == OVERLOADED
  }

  /** A response that does not keep the connection alive is the last one ever written there
      (section 9.6 of RFC 9112), and a request answered with an overload 503 is the last one
      ever read, so its response comes after every other. */
  lemma LastWords(g: Settings, steps: seq<Step>, later: seq<Step>, c: nat)
    requires IsRun(g, START, steps) && IsRun(g, After(g, START, steps), later)
    requires c < |After(g, START, steps).links|
    ensures var s := After(g, START, steps);
            var s' := After(g, s, later);
            && c < |s'.links|
            && var l, l' := s.links[c], s'.links[c];
               && (l.written != [] && !l.written[|l.written| - 1].keepAlive ==> l'.written == l.written)
               && (l.rejected ==> l'.requests == l.requests && Last503(l'))
  {
    StartInv(g);
    RunKeepsInv(g, START, steps);
    var s := After(g, START, steps);
    RunKeepsInv(g, s, later);
    HistoryGrowsInRun(g, s, later, c);
    var s' := After(g, s, later);
    assert LinkInv(s'.links[c]);
  }

  // ----- progress and drain -----

  /** Nothing is on its way: queue, workers, posted handlers and writes are idle. */
  ghost predicate Idle(s: Server) {
    && s.queue.items == [] && s.busy == multiset{}
    && forall l <- s.links :: l.conn.posted == multiset{} && l.conn.writes == []
  }

  ghost predicate Answered(l: Link) {
    |l.written| == |l.requests| && l.conn.responses == map[]
  }

  /** No response gets stuck: an idle server has answered everything on every open connection. */
  lemma IdleMeansAnswered(g: Settings, s: Server)
    requires Inv(g, s) && Idle(s)
    ensures forall l <- s.links :: l.conn.open ==> Answered(l)
  {
    forall c: nat | c < |s.links| && s.links[c].conn.open ensures Answered(s.links[c]) {
      var l := s.links[c];
      assert LinkInv(l);
      assert |l.written| < |l.requests| ==> PendingOnce(s, c, |l.written|);
      forall id <- l.made ensures id != |l.written| && (id in l.conn.responses ==> id >= |l.written|) {
        assert MadeOnce(l, id);
      }
      assert l.written != [] ==> |l.written| - 1 in l.made;
      assert l.conn.responses.Keys == {};
    }
  }

  /** A read or a write of connection `c` fails. */
  predicate Breaks(step: Step, c: nat) {
    (step.ReadError? || step.WriteError?) && step.c == c
  }

  ghost predicate Unbroken(steps: seq<Step>, c: nat) {
    forall step <- steps :: !Breaks(step, c)
  }

  /** The last response written ends the connection. */
  predicate Ended(l: Link) {
    l.written != [] && !l.written[|l.written| - 1].keepAlive
  }

  /** `c` is open exactly if it is unbroken so far and has not been ended. */
  ghost predicate OpenAs(s: Server, c: nat, unbroken: bool) {
    if c < |s.links| then s.links[c].conn.open <==> unbroken && !Ended(s.links[c]) else unbroken
  }

  lemma WrittenMayEnd(l: Link, i: nat)
    requires Writer(l) && i < |l.conn.writes|
    ensures var l', last := WrittenLink(l, i), l.conn.writes[i].keepAlive;
            !Ended(l) && (Ended(l') <==> !last) && (l'.conn.open <==> l.conn.open && last)
  {
  }

  lemma TouchedLinkOpen(g: Settings, s: Server, step: Step, c: nat, unbroken: bool)
    requires Enabled(g, s, step) && c == Touched(s, step) < |s.links|
    requires Writer(s.links[c]) && OpenAs(s, c, unbroken)
    ensures OpenAs(Exec(g, s, step), c, unbroken && !Breaks(step, c))
  {
    if step.Written? {
      WrittenMayEnd(s.links[c], step.i);
    }
  }

  lemma StepKeepsOpen(g: Settings, s: Server, step: Step, c: nat, unbroken: bool)
    requires Links(s) && Enabled(g, s, step) && OpenAs(s, c, unbroken)
    ensures OpenAs(Exec(g, s, step), c, unbroken && !Breaks(step, c))
  {
    OthersUntouched(g, s, step);
    if c < |s.links| && c == Touched(s, step) {
      assert LinkInv(s.links[c]);
      TouchedLinkOpen(g, s, step, c, unbroken);
    }
  }

  lemma {:induction false} RunKeepsOpen(g: Settings, s: Server, steps: seq<Step>, c: nat, unbroken: bool)
    requires Inv(g, s) && IsRun(g, s, steps) && OpenAs(s, c, unbroken)
    ensures OpenAs(After(g, s, steps), c, unbroken && Unbroken(steps, c))
    decreases |steps|
  {
    if steps != [] {
      StepKeepsOpen(g, s, steps[0], c, unbroken);
      StepKeepsInv(g, s, steps[0]);
      RunKeepsOpen(g, Exec(g, s, steps[0]), steps[1..], c, unbroken && !Breaks(steps[0], c));
      assert Unbroken(steps, c) <==> !Breaks(steps[0], c) && Unbroken(steps[1..], c);
    }
  }

  /** In every run a connection is open exactly until a read or a write of it fails or a response
      that does not keep it alive has been written. */
  lemma OpenIff(g: Settings, steps: seq<Step>, c: nat)
    requires IsRun(g, START, steps) && c < |After(g, START, steps).links|
    ensures var l := After(g, START, steps).links[c];
            l.conn.open <==> Unbroken(steps, c) && !Ended(l)
  {
    StartInv(g);
    RunKeepsOpen(g, START, steps, c, true);
  }

  ghost predicate NoReadFailed(steps: seq<Step>, c: nat) {
    ReadError(c) !in steps
  }

  ghost predicate ReadingAs(s: Server, c: nat, sound: bool) {
    if c < |s.links| then s.links[c].conn.reading <==> sound && !s.links[c].rejected else sound
  }

  lemma StepKeepsReading(g: Settings, s: Server, step: Step, c: nat, sound: bool)
    requires Enabled(g, s, step) && ReadingAs(s, c, sound)
    ensures ReadingAs(Exec(g, s, step), c, sound && step != ReadError(c))
  {
    OthersUntouched(g, s, step);
  }

  lemma {:induction false} RunKeepsReading(g: Settings, s: Server, steps: seq<Step>, c: nat, sound: bool)
    requires IsRun(g, s, steps) && ReadingAs(s, c, sound)
    ensures ReadingAs(After(g, s, steps), c, sound && NoReadFailed(steps, c))
    decreases |steps|
  {
    if steps != [] {
      StepKeepsReading(g, s, steps[0], c, sound);
      RunKeepsReading(g, Exec(g, s, steps[0]), steps[1..], c, sound && steps[0] != ReadError(c));
      assert steps == [steps[0]] + steps[1..];
    }
  }

  /** In every run a connection has a read outstanding exactly until a request of it is rejected or
      a read of it fails: after every accepted request it reads on. */
  lemma ReadingIff(g: Settings, steps: seq<Step>, c: nat)
    requires IsRun(g, START, steps) && c < |After(g, START, steps).links|
    ensures var l := After(g, START, steps).links[c];
            l.conn.reading <==> NoReadFailed(steps, c) && !l.rejected
  {
    RunKeepsReading(g, START, steps, c, true);
  }

  // ----- overload -----

  /** The bytes of the bodies of queued requests. */
  function BodyBytes(tasks: seq<Task>): nat {
    if tasks == [] then 0 else |tasks[0].request.body| + BodyBytes(tasks[1..])
  }

  lemma {:induction false} BodyBytesAreCounted(c: Config<Task>, tasks: seq<Task>)
    requires c.sizeOf == TaskBytes
    ensures QueueAccounting.TotalBytes(c, tasks) == BodyBytes(tasks)
  {
    if tasks != [] {
      BodyBytesAreCounted(c, tasks[1..]);
    }
  }

  /** A server with the default settings never holds more than 65536 requests or 64 MiB of request
      bodies in its queue, nor more than four in processing, and its byte counter is exact. */
  lemma DefaultServerIsBounded(steps: seq<Step>)
    requires IsRun(DEFAULT_SETTINGS, START, steps)
    ensures var s := After(DEFAULT_SETTINGS, START, steps);
            && |s.busy| <= 4 && (Enabled(DEFAULT_SETTINGS, s, Take) <==> s.queue.items != [] && |s.busy| < 4)
            && |s.queue.items| <= 65536
            && s.queue.currentBytes == BodyBytes(s.queue.items) <= 67108864
  {
    StartInv(DEFAULT_SETTINGS);
    RunKeepsInv(DEFAULT_SETTINGS, START, steps);
    BodyBytesAreCounted(DEFAULT_SETTINGS.queue, After(DEFAULT_SETTINGS, START, steps).queue.items);
  }

  /** A request read is rejected exactly when the queue is stopped, full, or has too few bytes left
      for its body; otherwise it joins the end of the queue. */
  lemma ReadRejectedIff(g: Settings, s: Server, c: nat, request: Request)
    requires Inv(g, s) && Enabled(g, s, Read(c, request))
    ensures var s' := Exec(g, s, Read(c, request));
            var t := Task(c, request, |s.links[c].requests|);
            && (s'.links[c].rejected <==>
                  || s.queue.stopped
                  || !QueueAccounting.HasRoom(g.queue, |s.queue.items|,
                        QueueAccounting.TotalBytes(g.queue, s.queue.items), g.queue.sizeOf(t)))
            && s'.queue.items == s.queue.items + (if s'.links[c].rejected then [] else [t])
            && s'.links[c].requests == s.links[c].requests + [request]
  {
    var t := Task(c, request, |s.links[c].requests|);
    assert LinkInv(s.links[c]);
    QueueAccounting.TryPushRejectsIff(g.queue, s.queue, t, Back);
    QueueAccounting.TryPushAcceptsIff(g.queue, s.queue, t, Back);
    QueueAccounting.EndsAreExact(g.queue, s.queue, t);
  }

  /** The default server turns a request away exactly when it is stopping, 65536 requests are queued,
      or the bodies queued and this one exceed 64 MiB. */
  lemma DefaultServerRejectsIff(steps: seq<Step>, c: nat, request: Request)
    requires IsRun(DEFAULT_SETTINGS, START, steps)
    requires Enabled(DEFAULT_SETTINGS, After(DEFAULT_SETTINGS, START, steps), Read(c, request))
    ensures var s := After(DEFAULT_SETTINGS, START, steps);
            Exec(DEFAULT_SETTINGS, s, Read(c, request)).links[c].rejected <==>
              || s.queue.stopped
              || |s.queue.items| >= 65536
              || BodyBytes(s.queue.items) + |request.body| > 67108864
  {
    var s := After(DEFAULT_SETTINGS, START, steps);
    StartInv(DEFAULT_SETTINGS);
    RunKeepsInv(DEFAULT_SETTINGS, START, steps);
    ReadRejectedIff(DEFAULT_SETTINGS, s, c, request);
    BodyBytesAreCounted(DEFAULT_SETTINGS.queue, s.queue.items);
  }

  /** A rejected connection has a 503 that does not keep it alive as the response to its last
      request; once everything is answered, that response has closed it. */
  lemma RejectionCloses(g: Settings, steps: seq<Step>, c: nat)
    requires IsRun(g, START, steps) && c < |After(g, START, steps).links|
    requires After(g, START, steps).links[c].rejected
    ensures var l := After(g, START, steps).links[c];
            var last := |l.requests| - 1;
            && last in l.made && l.made[last].status == 503 && !l.made[last].keepAlive
            && (|l.written| == |l.requests| ==> l.written[last] == l.made[last] && !l.conn.open)
  {
    StartInv(g);
    RunKeepsInv(g, START, steps);
    OpenIff(g, steps, c);
    assert LinkInv(After(g, START, steps).links[c]);
  }

  /** When the server is idle after a run, a connection none of whose reads and writes failed has
      been answered in full, or up to a response that ended it. */
  lemma UnbrokenIsAnswered(g: Settings, steps: seq<Step>, c: nat)
    requires IsRun(g, START, steps) && Idle(After(g, START, steps))
    requires c < |After(g, START, steps).links| && Unbroken(steps, c)
    ensures var l := After(g, START, steps).links[c];
            Answered(l) || Ended(l)
  {
    StartInv(g);
    RunKeepsInv(g, START, steps);
    RunKeepsOpen(g, START, steps, c, true);
    IdleMeansAnswered(g, After(g, START, steps));
  }

  /** The steps that bring work forward without admitting any. */
  predicate Draining(step: Step) {
    step.ReadError? || step.Take? || step.Finish? || step.Run? || step.Written? || step.WriteError?
  }

  lemma BusyIsEnabled(g: Settings, s: Server, t: Task, r: Response)
    requires Inv(g, s) && t in s.busy
    ensures Enabled(g, s, Finish(t, r))
  {
    BusyIsDue(s, t);
  }

  /** A posted handler or an outstanding write can be carried out. */
  lemma LinkCanStep(g: Settings, s: Server) returns (step: Step)
    requires exists l <- s.links :: !(l.conn.posted == multiset{} && l.conn.writes == [])
    ensures (step.Run? || step.Written?) && Enabled(g, s, step)
  {
    var l :| l in s.links && !(l.conn.posted == multiset{} && l.conn.writes == []);
    var c :| 0 <= c < |s.links| && s.links[c] == l;
    if l.conn.posted != multiset{} {
      var p :| p in l.conn.posted;
      step := Run(c, p);
    } else {
      step := Written(c, 0);
    }
  }

  lemma BusyServerCanStep(g: Settings, s: Server) returns (step: Step)
    requires Inv(g, s) && g.workers > 0 && !Idle(s)
    ensures Draining(step) && !step.ReadError? && Enabled(g, s, step)
  {
    if s.busy != multiset{} {
      var t :| t in s.busy;
      BusyIsEnabled(g, s, t, OVERLOADED);
      step := Finish(t, OVERLOADED);
    } else if s.queue.items != [] {
      step := Take;
    } else {
      step := LinkCanStep(g, s);
    }
  }

  function LinkWork(l: Link): nat {
    3 * |l.conn.posted| + |l.conn.responses| + |l.conn.writes| + if l.conn.reading then 1 else 0
  }

  function LinksWork(links: seq<Link>): nat {
    if links == [] then 0 else LinkWork(links[0]) + LinksWork(links[1..])
  }

  function Work(s: Server): nat {
    5 * |s.queue.items| + 4 * |s.busy| + LinksWork(s.links)
  }

  lemma {:induction false} LinksWorkOfUpdate(links: seq<Link>, c: nat, l: Link)
    requires c < |links|
    ensures LinksWork(links[c := l]) == LinksWork(links) - LinkWork(links[c]) + LinkWork(l)
  {
    var links' := links[c := l];
    if c == 0 {
      assert links'[1..] == links[1..];
    } else {
      assert links'[1..] == links[1..][c - 1 := l];
      LinksWorkOfUpdate(links[1..], c - 1, l);
    }
  }

  lemma DeliverDecreases(l: Link, p: Posted)
    requires LinkInv(l) && p in l.conn.posted
    ensures LinkWork(l.(conn := Deliver(l.conn, p))) < LinkWork(l)
  {
  }

  lemma WriteDecreases(l: Link, i: nat)
    requires Writer(l) && i < |l.conn.writes|
    ensures LinkWork(WrittenLink(l, i)) < LinkWork(l)
    ensures LinkWork(l.(conn := WriteFailed(l.conn, i))) < LinkWork(l)
  {
  }

  lemma FinishWork(l: Link, id: nat, r: Response)
    ensures LinkWork(FinishLink(l, id, r)) == LinkWork(l) + 3
  {
    assert |l.conn.posted + multiset{Posted(id, r)}| == |l.conn.posted| + 1;
  }

  lemma TouchedLinkDecreases(g: Settings, s: Server, step: Step)
    requires Enabled(g, s, step) && Draining(step) && !step.Take? && !step.Finish?
    requires LinkInv(s.links[Touched(s, step)])
    ensures LinkWork(Exec(g, s, step).links[Touched(s, step)]) < LinkWork(s.links[Touched(s, step)])
  {
    var l := s.links[Touched(s, step)];
    if step.Run? {
      DeliverDecreases(l, step.p);
    } else if !step.ReadError? {
      WriteDecreases(l, step.i);
    }
  }

  lemma StepDecreases(g: Settings, s: Server, step: Step)
    requires Inv(g, s) && Enabled(g, s, step) && Draining(step)
    ensures Work(Exec(g, s, step)) < Work(s)
  {
    var s' := Exec(g, s, step);
    var c := Touched(s, step);
    if step.Take? {
      assert |s.busy + multiset{s.queue.items[0]}| == |s.busy| + 1;
    } else {
      LinksWorkOfUpdate(s.links, c, s'.links[c]);
      if step.Finish? {
        assert |s.busy - multiset{step.task}| == |s.busy| - 1;
        FinishWork(s.links[c], step.task.id, step.response);
      } else {
        assert LinkInv(s.links[c]);
        TouchedLinkDecreases(g, s, step);
      }
    }
  }

  lemma {:induction false} DrainRunIsShort(g: Settings, s: Server, steps: seq<Step>)
    requires Inv(g, s) && IsRun(g, s, steps)
    requires forall step <- steps :: Draining(step)
    ensures |steps| + Work(After(g, s, steps)) <= Work(s)
    decreases |steps|
  {
    if steps != [] {
      StepDecreases(g, s, steps[0]);
      StepKeepsInv(g, s, steps[0]);
      DrainRunIsShort(g, Exec(g, s, steps[0]), steps[1..]);
    }
  }

  /** Once reading pauses, the server drains: after any run, work in progress ends within `Work`
      steps whatever order they are taken in, and a run that cannot be continued has answered
      every request of every connection still open, and every connection none of whose reads and
      writes failed in full or up to a response that ended it. */
  lemma ServerDrains(g: Settings, steps: seq<Step>, later: seq<Step>)
    requires g.workers > 0
    requires IsRun(g, START, steps) && IsRun(g, After(g, START, steps), later)
    requires forall step <- later :: Draining(step)
    ensures var s := After(g, START, steps);
            var s' := After(g, s, later);
            && |later| <= Work(s)
            && ((forall step | Draining(step) && !step.ReadError? :: !Enabled(g, s', step)) ==>
                  && (forall l <- s'.links :: l.conn.open ==> Answered(l))
                  && (forall c: nat | c < |s'.links| && Unbroken(steps, c) && Unbroken(later, c) ::
                        Answered(s'.links[c]) || Ended(s'.links[c])))
  {
    StartInv(g);
    RunKeepsInv(g, START, steps);
    var s := After(g, START, steps);
    DrainRunIsShort(g, s, later);
    RunKeepsInv(g, s, later);
    var s' := After(g, s, later);
    if Idle(s') {
      IdleMeansAnswered(g, s');
      forall c: nat | c < |s'.links| && Unbroken(steps, c) && Unbroken(later, c)
        ensures Answered(s'.links[c]) || Ended(s'.links[c])
      {
        RunKeepsOpen(g, START, steps, c, true);
        RunKeepsOpen(g, s, later, c, true);
      }
    } else {
      var step := BusyServerCanStep(g, s');
    }
  }
}
