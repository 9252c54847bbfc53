/**
  The whole request pipeline as a transition system: any number of connections, the shared
  bounded queue and the worker pool (src/network/communication/http_connection.hpp:60-171,
  src/network/servers/request_server_base.hpp:94-103).

  Handlers of one connection run one at a time, but posted handlers and completions are taken
  in any order, and a read or a write may succeed or fail whether or not the socket has been
  closed meanwhile. That includes every order the strand and the sockets allow.
 */
module HttpPipeline {
  import opened ThreadSafeQueue
  import QueueAccounting
  import opened HttpConnection

  datatype Settings = Settings(workers: nat, queue: Config<Task>)

  /** The defaults of `request_server_base`. */
  const DEFAULT_SETTINGS := Settings(4, Config(true, true, 64 * 1024, 64 * 1024 * 1024, TaskBytes))

  /** A connection and its history: requests read, the response made for each id, and the
      responses whose write succeeded. */
  datatype Link = Link(
    conn: Conn,
    requests: seq<Request>,
    made: map<nat, Response>,
    written: seq<Response>,
    rejected: bool
  )

  /** `busy` holds what every working worker is processing. */
  datatype Server = Server(queue: State<Task>, busy: multiset<Task>, links: seq<Link>)

  const START := Server(Init(), multiset{}, [])

  datatype Step =
    | Connect
    | Read(c: nat, request: Request)
    | ReadError(c: nat)
    | Take
    | Finish(task: Task, response: Response)
    | Run(c: nat, p: Posted)
    | Written(c: nat, i: nat)
    | WriteError(c: nat, i: nat)
    | StopQueue

  predicate Enabled(g: Settings, s: Server, step: Step) {
    match step
    case Connect => true
    case Read(c, _) => c < |s.links| && s.links[c].conn.reading
    case ReadError(c) => c < |s.links| && s.links[c].conn.reading
    case Take => s.queue.items != [] && |s.busy| < g.workers
    case Finish(t, _) => t in s.busy && t.conn < |s.links|
    case Run(c, p) => c < |s.links| && p in s.links[c].conn.posted
    case Written(c, i) => c < |s.links| && i < |s.links[c].conn.writes|
    case WriteError(c, i) => c < |s.links| && i < |s.links[c].conn.writes|
    case StopQueue => true
  }

  function ReadLink(l: Link, request: Request, accepted: bool): Link {
    Link(ReadDone(l.conn, accepted),
         l.requests + [request],
         if accepted then l.made else l.made[l.conn.nextSequenceId := OVERLOADED],
         l.written,
         l.rejected || !accepted)
  }

  function FinishLink(l: Link, id: nat, r: Response): Link {
    l.(conn := l.conn.(posted := l.conn.posted + multiset{Posted(id, r)}), made := l.made[id := r])
  }

  function WrittenLink(l: Link, i: nat): Link
    requires i < |l.conn.writes|
  {
    l.(conn := WriteDone(l.conn, i), written := l.written + [l.conn.writes[i]])
  }

  function Exec(g: Settings, s: Server, step: Step): Server
    requires Enabled(g, s, step)
  {
    match step
    case Connect => s.(links := s.links + [Link(FRESH, [], map[], [], false)])
    case Read(c, request) =>
      var l := s.links[c];
      var (q, outcome) := Apply(g.queue, s.queue, TryPush(Task(c, request, l.conn.nextSequenceId), Back));
      s.(queue := q, links := s.links[c := ReadLink(l, request, outcome.Accepted?)])
    case ReadError(c) => s.(links := s.links[c := s.links[c].(conn := ReadFailed(s.links[c].conn))])
    case Take => s.(queue := Apply(g.queue, s.queue, WaitPop).0, busy := s.busy + multiset{s.queue.items[0]})
    case Finish(t, r) =>
      s.(busy := s.busy - multiset{t}, links := s.links[t.conn := FinishLink(s.links[t.conn], t.id, r)])
    case Run(c, p) => s.(links := s.links[c := s.links[c].(conn := Deliver(s.links[c].conn, p))])
    case Written(c, i) => s.(links := s.links[c := WrittenLink(s.links[c], i)])
    case WriteError(c, i) => s.(links := s.links[c := s.links[c].(conn := WriteFailed(s.links[c].conn, i))])
    case StopQueue => s.(queue := Apply(g.queue, s.queue, Stop).0)
  }

  ghost predicate IsRun(g: Settings, s: Server, steps: seq<Step>)
    decreases |steps|
  {
    steps == [] || (Enabled(g, s, steps[0]) && IsRun(g, Exec(g, s, steps[0]), steps[1..]))
  }

  ghost function After(g: Settings, s: Server, steps: seq<Step>): Server
    requires IsRun(g, s, steps)
    decreases |steps|
  {
    if steps == [] then s else After(g, Exec(g, s, steps[0]), steps[1..])
  }

  // ----- the invariant of one connection -----

  /** A response made for an id is posted, stored or written, and nowhere twice. */
  ghost predicate MadeOnce(l: Link, id: nat)
    requires id in l.made
  {
    l.conn.posted[Posted(id, l.made[id])]
    + (if id in l.conn.responses then 1 else 0)
    + (if id < |l.written| then 1 else 0) == 1
  }

  ghost predicate Once(l: Link) {
    forall id <- l.made :: MadeOnce(l, id)
  }

  ghost predicate Counters(l: Link) {
    && l.conn.nextSequenceId == |l.requests|
    && l.conn.nextResponseId == |l.written|
    && (forall id <- l.made :: id < |l.requests|)
  }

  /** Whatever is posted, stored or written is the response made for its id. */
  ghost predicate Traceable(l: Link) {
    && (forall p <- l.conn.posted :: p.id in l.made && l.made[p.id] == p.response)
    && (forall id <- l.conn.responses :: id in l.made && l.made[id] == l.conn.responses[id])
    && (forall id: nat :: id < |l.written| ==> id in l.made && l.made[id] == l.written[id])
  }

  /** A rejection answers the last request, and reading has ended. */
  ghost predicate RejectedLast(l: Link) {
    l.rejected ==> !l.conn.reading && |l.requests| - 1 in l.made && l.made[|l.requests| - 1] == OVERLOADED
  }

  ghost predicate Books(l: Link) {
    Counters(l) && Once(l) && Traceable(l) && RejectedLast(l)
  }

  /** The write in progress, if any, is of the next expected response; without one, nothing
      more is written. */
  ghost predicate Writer(l: Link) {
    var k := l.conn;
    && |k.writes| <= 1
    && (k.writes != [] ==> k.writing && k.nextResponseId in k.responses && k.writes[0] == k.responses[k.nextResponseId])
    && (!k.writing ==> k.nextResponseId !in k.responses)
    && (k.writing && k.writes == [] ==> !k.open)
    && (forall i: nat :: i < |l.written| - 1 ==> l.written[i].keepAlive)
    && (l.written != [] && !l.written[|l.written| - 1].keepAlive ==> k.writing && k.writes == [])
  }

  ghost predicate LinkInv(l: Link) {
    Books(l) && Writer(l)
  }

  /** `Books` does not look at the socket or at the write in progress. */
  lemma SameBooks(l: Link, k: Conn)
    requires Books(l)
    requires k.nextSequenceId == l.conn.nextSequenceId && k.nextResponseId == l.conn.nextResponseId
    requires k.responses == l.conn.responses && k.posted == l.conn.posted && (k.reading ==> l.conn.reading)
    ensures Books(l.(conn := k))
  {
  }

  /** An id without a response is nowhere on the connection. */
  lemma Nowhere(l: Link, id: nat)
    requires Traceable(l) && id !in l.made
    ensures id !in l.conn.responses && id >= |l.written| && forall p <- l.conn.posted :: p.id != id
  {
  }

  lemma FinishKeepsOnce(l: Link, id: nat, r: Response)
    requires Once(l) && id !in l.made
    requires id !in l.conn.responses && id >= |l.written| && forall p <- l.conn.posted :: p.id != id
    ensures Once(FinishLink(l, id, r))
  {
    var l' := FinishLink(l, id, r);
    forall i <- l'.made ensures MadeOnce(l', i) {
      assert i != id ==> MadeOnce(l, i);
    }
  }

  lemma FinishKeepsTrace(l: Link, id: nat, r: Response)
    requires Traceable(l) && id !in l.made
    ensures Traceable(FinishLink(l, id, r))
  {
  }

  lemma FinishKeepsBooks(l: Link, id: nat, r: Response)
    requires Books(l) && id < |l.requests| && id !in l.made
    ensures Books(FinishLink(l, id, r))
  {
    Nowhere(l, id);
    FinishKeepsOnce(l, id, r);
    FinishKeepsTrace(l, id, r);
  }

  /** Reading one more request changes nothing but the counters. */
  lemma MoreRequests(l: Link, l': Link)
    requires Books(l) && l.conn.reading && |l'.requests| == |l.requests| + 1
    requires l' == l.(conn := ReadDone(l.conn, true), requests := l'.requests)
    ensures Books(l')
  {
    forall id <- l'.made ensures MadeOnce(l', id) {
      assert MadeOnce(l, id);
    }
  }

  lemma RejectKeepsBooks(l: Link)
    requires Books(l) && |l.requests| - 1 in l.made && l.made[|l.requests| - 1] == OVERLOADED
    ensures Books(l.(conn := l.conn.(reading := false), rejected := true))
  {
    SameBooks(l, l.conn.(reading := false));
  }

  /** A rejected read is an accepted one whose 503 is made and posted at once, and the last. */
  lemma RejectedRead(l: Link, request: Request)
    ensures var l' := FinishLink(ReadLink(l, request, true), l.conn.nextSequenceId, OVERLOADED);
            ReadLink(l, request, false) == l'.(conn := l'.conn.(reading := false), rejected := true)
  {
  }

  lemma ReadKeepsBooks(l: Link, request: Request, accepted: bool)
    requires Books(l) && l.conn.reading
    ensures Books(ReadLink(l, request, accepted))
  {
    var l' := ReadLink(l, request, true);
    MoreRequests(l, l');
    if !accepted {
      RejectedRead(l, request);
      FinishKeepsBooks(l', |l.requests|, OVERLOADED);
      RejectKeepsBooks(FinishLink(l', |l.requests|, OVERLOADED));
    }
  }

  function Store(k: Conn, p: Posted): Conn {
    k.(posted := k.posted - multiset{p}, responses := Emplace(k.responses, p.id, p.response))
  }

  lemma StoreKeepsOnce(l: Link, p: Posted)
    requires Once(l) && p in l.conn.posted && p.id in l.made && p.response == l.made[p.id]
    ensures Once(l.(conn := Store(l.conn, p)))
    ensures p.id !in l.conn.responses && p.id >= |l.written|
  {
    var l' := l.(conn := Store(l.conn, p));
    assert MadeOnce(l, p.id);
    forall id <- l'.made ensures MadeOnce(l', id) {
      assert MadeOnce(l, id);
    }
  }

  lemma StoreKeepsTrace(l: Link, p: Posted)
    requires Traceable(l) && p in l.conn.posted
    ensures Traceable(l.(conn := Store(l.conn, p)))
  {
  }

  lemma StoreKeepsBooks(l: Link, p: Posted)
    requires Books(l) && p in l.conn.posted
    ensures Books(l.(conn := Store(l.conn, p)))
    ensures p.id !in l.conn.responses && p.id >= |l.written|
  {
    StoreKeepsOnce(l, p);
    StoreKeepsTrace(l, p);
  }

  /** The connection after a write succeeded, before the next one starts. */
  function Retire(k: Conn): Conn {
    k.(responses := k.responses - {k.nextResponseId}, nextResponseId := k.nextResponseId + 1)
  }

  function RetireLink(l: Link, r: Response): Link {
    l.(conn := Retire(l.conn), written := l.written + [r])
  }

  lemma RetireKeepsOnce(l: Link, r: Response)
    requires Once(l) && l.conn.nextResponseId == |l.written|
    requires |l.written| in l.conn.responses && |l.written| in l.made
    ensures Once(RetireLink(l, r))
  {
    var l' := RetireLink(l, r);
    assert MadeOnce(l, |l.written|);
    forall id <- l'.made ensures MadeOnce(l', id) {
      assert MadeOnce(l, id);
    }
  }

  lemma RetireKeepsTrace(l: Link, r: Response)
    requires Traceable(l) && |l.written| in l.conn.responses && r == l.conn.responses[|l.written|]
    ensures Traceable(RetireLink(l, r))
  {
  }

  lemma RetireKeepsBooks(l: Link, r: Response)
    requires Books(l) && |l.written| in l.conn.responses && r == l.conn.responses[|l.written|]
    ensures Books(RetireLink(l, r))
  {
    RetireKeepsOnce(l, r);
    RetireKeepsTrace(l, r);
  }

  lemma DeliverKeepsWriter(l: Link, p: Posted)
    requires Writer(l) && p.id !in l.conn.responses
    ensures Writer(l.(conn := Deliver(l.conn, p)))
  {
  }

  lemma WrittenKeepsWriter(l: Link, i: nat)
    requires Writer(l) && i < |l.conn.writes|
    ensures Writer(WrittenLink(l, i))
  {
  }

  /** A posted handler stores one response; `write()` then touches only the writer's fields. */
  lemma DeliverIsStored(k: Conn, p: Posted)
    ensures var k', stored := Deliver(k, p), Store(k, p);
            && k'.nextSequenceId == stored.nextSequenceId && k'.nextResponseId == stored.nextResponseId
            && k'.responses == stored.responses && k'.posted == stored.posted && k'.reading == stored.reading
  {
  }

  lemma DeliverKeepsBooks(l: Link, p: Posted)
    requires Books(l) && p in l.conn.posted
    ensures Books(l.(conn := Deliver(l.conn, p)))
  {
    StoreKeepsBooks(l, p);
    DeliverIsStored(l.conn, p);
    SameBooks(l.(conn := Store(l.conn, p)), Deliver(l.conn, p));
  }

  lemma DeliverKeepsLink(l: Link, p: Posted)
    requires LinkInv(l) && p in l.conn.posted
    ensures LinkInv(l.(conn := Deliver(l.conn, p)))
    ensures p.id !in l.conn.responses
  {
    DeliverKeepsBooks(l, p);
    StoreKeepsOnce(l, p);
    DeliverKeepsWriter(l, p);
  }

  /** A completed write retires one response; `write()` then touches only the writer's fields. */
  lemma WrittenIsRetired(l: Link, i: nat)
    requires i < |l.conn.writes|
    ensures var k := WriteDone(l.conn, i);
            && WrittenLink(l, i) == RetireLink(l, l.conn.writes[i]).(conn := k)
            && k.nextSequenceId == l.conn.nextSequenceId && k.nextResponseId == l.conn.nextResponseId + 1
            && k.responses == Retire(l.conn).responses && k.posted == l.conn.posted && k.reading == l.conn.reading
  {
  }

  lemma WrittenKeepsBooks(l: Link, i: nat)
    requires Books(l) && i < |l.conn.writes|
    requires |l.written| in l.conn.responses && l.conn.writes[i] == l.conn.responses[|l.written|]
    ensures Books(WrittenLink(l, i))
  {
    WrittenIsRetired(l, i);
    RetireKeepsBooks(l, l.conn.writes[i]);
    SameBooks(RetireLink(l, l.conn.writes[i]), WriteDone(l.conn, i));
  }

  lemma WrittenKeepsLink(l: Link, i: nat)
    requires LinkInv(l) && i < |l.conn.writes|
    ensures LinkInv(WrittenLink(l, i))
  {
    WrittenKeepsBooks(l, i);
    WrittenKeepsWriter(l, i);
  }

  lemma ReadKeepsLink(l: Link, request: Request, accepted: bool)
    requires LinkInv(l) && l.conn.reading
    ensures LinkInv(ReadLink(l, request, accepted))
  {
    ReadKeepsBooks(l, request, accepted);
  }

  lemma FinishKeepsLink(l: Link, id: nat, r: Response)
    requires LinkInv(l) && id < |l.requests| && id !in l.made
    ensures LinkInv(FinishLink(l, id, r))
  {
    FinishKeepsBooks(l, id, r);
  }

  lemma ReadErrorKeepsLink(l: Link)
    requires LinkInv(l)
    ensures LinkInv(l.(conn := ReadFailed(l.conn)))
  {
  }

  lemma WriteErrorKeepsLink(l: Link, i: nat)
    requires LinkInv(l) && i < |l.conn.writes|
    ensures LinkInv(l.(conn := WriteFailed(l.conn, i)))
  {
    SameBooks(l, WriteFailed(l.conn, i));
  }

  // ----- the invariant of the server -----

  /** Everything in the queue or in the hands of a worker. */
  ghost function Pending(s: Server): multiset<Task> {
    multiset(s.queue.items) + s.busy
  }

  ghost predicate Genuine(s: Server, t: Task) {
    t.conn < |s.links| && t.id < |s.links[t.conn].requests| && t.request == s.links[t.conn].requests[t.id]
  }

  /** An id without a response yet is pending exactly once, one with a response not at all. */
  ghost predicate PendingOnce(s: Server, c: nat, id: nat)
    requires c < |s.links| && id < |s.links[c].requests|
  {
    Pending(s)[Task(c, s.links[c].requests[id], id)] == if id in s.links[c].made then 0 else 1
  }

  ghost predicate Tasks(s: Server) {
    && (forall t <- Pending(s) :: Genuine(s, t))
    && (forall c: nat, id: nat | c < |s.links| && id < |s.links[c].requests| :: PendingOnce(s, c, id))
  }

  ghost predicate Links(s: Server) {
    forall c: nat :: c < |s.links| ==> LinkInv(s.links[c])
  }

  ghost predicate Bounded(g: Settings, s: Server) {
    |s.busy| <= g.workers && QueueAccounting.WithinLimits(g.queue, s.queue)
  }

  ghost predicate Inv(g: Settings, s: Server) {
    Bounded(g, s) && Links(s) && Tasks(s)
  }

  /** `Tasks` depends on nothing but the pending multiset, the requests and the responses made. */
  lemma SameTasks(s: Server, s': Server)
    requires Tasks(s) && Pending(s') == Pending(s)
    requires |s.links| <= |s'.links|
    requires forall c: nat :: c < |s.links| ==>
               s'.links[c].requests == s.links[c].requests && s'.links[c].made == s.links[c].made
    requires forall c: nat :: |s.links| <= c < |s'.links| ==> s'.links[c].requests == []
    ensures Tasks(s')
  {
    forall t <- Pending(s') ensures Genuine(s', t) {
      assert Genuine(s, t);
    }
    forall c: nat, id: nat | c < |s'.links| && id < |s'.links[c].requests| ensures PendingOnce(s', c, id) {
      assert PendingOnce(s, c, id);
    }
  }

  lemma ReadKeepsTasks(s: Server, c: nat, request: Request, accepted: bool, s': Server)
    requires Tasks(s) && c < |s.links| && Books(s.links[c])
    requires s'.links == s.links[c := ReadLink(s.links[c], request, accepted)]
    requires var t := Task(c, request, |s.links[c].requests|);
             Pending(s') == Pending(s) + if accepted then multiset{t} else multiset{}
    ensures Tasks(s')
  {
    var latest := |s.links[c].requests|;
    var t := Task(c, request, latest);
    assert t !in Pending(s) by {
      assert !Genuine(s, t);
    }
    forall u <- Pending(s') ensures Genuine(s', u) {
      if u != t {
        assert u in Pending(s) && Genuine(s, u);
      }
    }
    forall d: nat, id: nat | d < |s'.links| && id < |s'.links[d].requests| ensures PendingOnce(s', d, id) {
      if d != c || id < latest {
        assert PendingOnce(s, d, id);
      }
    }
  }

  lemma FinishKeepsTasks(s: Server, t: Task, r: Response, s': Server)
    requires Tasks(s) && t in Pending(s) && t.conn < |s.links|
    requires s'.links == s.links[t.conn := FinishLink(s.links[t.conn], t.id, r)]
    requires Pending(s') == Pending(s) - multiset{t}
    ensures Tasks(s')
    ensures t.id < |s.links[t.conn].requests| && t.id !in s.links[t.conn].made
  {
    assert Genuine(s, t) && PendingOnce(s, t.conn, t.id);
    forall u <- Pending(s') ensures Genuine(s', u) {
      assert u in Pending(s) && Genuine(s, u);
    }
    forall d: nat, id: nat | d < |s'.links| && id < |s'.links[d].requests| ensures PendingOnce(s', d, id) {
      assert PendingOnce(s, d, id);
    }
  }

  /** What a busy worker is processing is still due. */
  lemma BusyIsDue(s: Server, t: Task)
    requires Tasks(s) && t in s.busy
    ensures t.conn < |s.links| && t.id < |s.links[t.conn].requests| && t.id !in s.links[t.conn].made
  {
    assert t in Pending(s);
    assert Genuine(s, t) && PendingOnce(s, t.conn, t.id);
  }

  /** The connection a step changes; `|s.links|` when it changes none. */
  function Touched(s: Server, step: Step): nat {
    match step
    case Finish(t, _) => t.conn
    case Read(c, _) => c
    case ReadError(c) => c
    case Run(c, _) => c
    case Written(c, _) => c
    case WriteError(c, _) => c
    case _ => |s.links|
  }

  lemma TouchedLinkKept(g: Settings, s: Server, step: Step)
    requires Enabled(g, s, step) && Touched(s, step) < |s.links|
    requires LinkInv(s.links[Touched(s, step)])
    requires step.Finish? ==>
               step.task.id < |s.links[step.task.conn].requests| && step.task.id !in s.links[step.task.conn].made
    ensures LinkInv(Exec(g, s, step).links[Touched(s, step)])
  {
    var l := s.links[Touched(s, step)];
    var s' := Exec(g, s, step);
    match step
    case Read(c, request) => ReadKeepsLink(l, request, s'.links[c].conn.reading);
    case ReadError(c) => ReadErrorKeepsLink(l);
    case Finish(t, r) => FinishKeepsLink(l, t.id, r);
    case Run(c, p) => DeliverKeepsLink(l, p);
    case Written(c, i) => WrittenKeepsLink(l, i);
    case WriteError(c, i) => WriteErrorKeepsLink(l, i);
  }

  lemma OthersUntouched(g: Settings, s: Server, step: Step)
    requires Enabled(g, s, step)
    ensures var s' := Exec(g, s, step);
            && |s'.links| == |s.links| + (if step.Connect? then 1 else 0)
            && (forall d: nat :: d < |s.links| && d != Touched(s, step) ==> s'.links[d] == s.links[d])
            && (step.Connect? ==> s'.links[|s.links|] == Link(FRESH, [], map[], [], false))
  {
  }

  lemma StepKeepsLinks(g: Settings, s: Server, step: Step)
    requires Links(s) && Tasks(s) && Enabled(g, s, step)
    ensures Links(Exec(g, s, step))
  {
    var s' := Exec(g, s, step);
    OthersUntouched(g, s, step);
    forall d: nat | d < |s'.links| ensures LinkInv(s'.links[d]) {
      if d == |s.links| {
      } else {
        assert LinkInv(s.links[d]);
        if d == Touched(s, step) {
          if step.Finish? {
            BusyIsDue(s, step.task);
          }
          TouchedLinkKept(g, s, step);
        }
      }
    }
  }

  lemma QuietStepKeepsHistory(g: Settings, s: Server, step: Step, c: nat)
    requires Enabled(g, s, step) && !step.Read? && !step.Finish? && c < |s.links|
    ensures var s' := Exec(g, s, step);
            c < |s'.links| && s'.links[c].requests == s.links[c].requests && s'.links[c].made == s.links[c].made
  {
  }

  lemma QuietStepKeepsPending(g: Settings, s: Server, step: Step)
    requires Enabled(g, s, step) && !step.Read? && !step.Finish?
    ensures Pending(Exec(g, s, step)) == Pending(s)
  {
    if step.Take? {
      assert s.queue.items == [s.queue.items[0]] + s.queue.items[1..];
    }
  }

  /** Steps that neither add, remove nor answer a pending task. */
  lemma QuietStepKeepsTasks(g: Settings, s: Server, step: Step)
    requires Tasks(s) && Enabled(g, s, step) && !step.Read? && !step.Finish?
    ensures Tasks(Exec(g, s, step))
  {
    var s' := Exec(g, s, step);
    OthersUntouched(g, s, step);
    QuietStepKeepsPending(g, s, step);
    forall c: nat | c < |s.links|
      ensures s'.links[c].requests == s.links[c].requests && s'.links[c].made == s.links[c].made
    {
      QuietStepKeepsHistory(g, s, step, c);
    }
    SameTasks(s, s');
  }

  lemma StepKeepsTasks(g: Settings, s: Server, step: Step)
    requires Links(s) && Tasks(s) && Enabled(g, s, step)
    ensures Tasks(Exec(g, s, step))
  {
    if step.Read? {
      assert LinkInv(s.links[step.c]);
      ReadIsTracked(g, s, step.c, step.request);
    } else if step.Finish? {
      FinishKeepsTasks(s, step.task, step.response, Exec(g, s, step));
    } else {
      QuietStepKeepsTasks(g, s, step);
    }
  }

  lemma ReadIsTracked(g: Settings, s: Server, c: nat, request: Request)
    requires Tasks(s) && Enabled(g, s, Read(c, request)) && Books(s.links[c])
    ensures Tasks(Exec(g, s, Read(c, request)))
  {
    var t := Task(c, request, |s.links[c].requests|);
    var (q, outcome) := Apply(g.queue, s.queue, TryPush(t, Back));
    assert outcome.Accepted? ==> q.items == s.queue.items + [t];
    ReadKeepsTasks(s, c, request, outcome.Accepted?, Exec(g, s, Read(c, request)));
  }

  lemma StepKeepsBounds(g: Settings, s: Server, step: Step)
    requires Bounded(g, s) && Enabled(g, s, step)
    ensures Bounded(g, Exec(g, s, step))
  {
    match step
    case Read(c, request) =>
      QueueAccounting.StepKeepsLimitsExactly(
        g.queue, s.queue, TryPush(Task(c, request, s.links[c].conn.nextSequenceId), Back));
    case Take => QueueAccounting.StepKeepsLimitsExactly(g.queue, s.queue, WaitPop);
    case StopQueue => QueueAccounting.StepKeepsLimitsExactly(g.queue, s.queue, Stop);
    case _ =>
  }

  lemma StepKeepsInv(g: Settings, s: Server, step: Step)
    requires Inv(g, s) && Enabled(g, s, step)
    ensures Inv(g, Exec(g, s, step))
  {
    StepKeepsBounds(g, s, step);
    StepKeepsLinks(g, s, step);
    StepKeepsTasks(g, s, step);
  }

  lemma {:induction false} RunKeepsInv(g: Settings, s: Server, steps: seq<Step>)
    requires Inv(g, s) && IsRun(g, s, steps)
    ensures Inv(g, After(g, s, steps))
    decreases |steps|
  {
    if steps != [] {
      StepKeepsInv(g, s, steps[0]);
      RunKeepsInv(g, Exec(g, s, steps[0]), steps[1..]);
    }
  }
}
