/**
  One HTTP connection (src/network/communication/http_connection.hpp).

  `Conn` is a connection as a value: the fields of `http_connection`, its socket (open or
  closed) and the asynchronous work it has under way. The functions on it are the
  completion handlers; the class `Connection` is the code that updates the fields in
  place, sharing the request queue, and its methods are proved to compute them.
 */
module HttpConnection {
  import opened Sequences
  import opened ThreadSafeQueue

  type Body = s: string | |s| < WORD

  datatype Request = Request(target: string, body: Body)

  datatype Response = Response(status: nat, body: string, keepAlive: bool)

  /** The response of `reject_overloaded`. */
  const OVERLOADED := Response(503, "Server overloaded", false)

  /** `request_task`; `conn` stands for its connection. */
  datatype Task = Task(conn: nat, request: Request, id: nat)

  /** `queue_size_traits<request_task>`. */
  function TaskBytes(t: Task): Word {
    |t.request.body|
  }

  /** A handler that `send_response` or `reject_overloaded` has posted to the strand. */
  datatype Posted = Posted(id: nat, response: Response)

  datatype Conn = Conn(
    nextSequenceId: nat,
    nextResponseId: nat,
    responses: map<nat, Response>,
    writing: bool,
    open: bool,
    reading: bool,             // an async_read is outstanding
    writes: seq<Response>,     // the async_writes outstanding
    posted: multiset<Posted>
  )

  /** After `start()`. */
  const FRESH := Conn(0, 0, map[], false, true, true, [], multiset{})

  /** `write()`. */
  function Write(k: Conn): Conn {
    if k.nextResponseId in k.responses
    then k.(writing := true, writes := k.writes + [k.responses[k.nextResponseId]])
    else k.(writing := false)
  }

  /** The read completed and `try_push_back` answered `accepted`. */
  function ReadDone(k: Conn, accepted: bool): Conn {
    k.(nextSequenceId := k.nextSequenceId + 1,
       reading := accepted,
       posted := k.posted + if accepted then multiset{} else multiset{Posted(k.nextSequenceId, OVERLOADED)})
  }

  function ReadFailed(k: Conn): Conn {
    k.(reading := false, open := false)
  }

  /** `map::emplace` keeps what is there. */
  function Emplace(m: map<nat, Response>, id: nat, r: Response): map<nat, Response> {
    if id in m then m else m[id := r]
  }

  /** A posted handler runs. */
  function Deliver(k: Conn, p: Posted): Conn {
    var k' := k.(posted := k.posted - multiset{p}, responses := Emplace(k.responses, p.id, p.response));
    if k'.writing then k' else Write(k')
  }

  /** Outstanding write number `i` completed. */
  function WriteDone(k: Conn, i: nat): Conn
    requires i < |k.writes|
  {
    var k' := k.(writes := Remove(k.writes, i),
                 responses := k.responses - {k.nextResponseId},
                 nextResponseId := k.nextResponseId + 1);
    if k.writes[i].keepAlive then Write(k') else k'.(open := false)
  }

  function WriteFailed(k: Conn, i: nat): Conn
    requires i < |k.writes|
  {
    k.(writes := Remove(k.writes, i), open := false)
  }

  class Connection {
    const self: nat
    const requestQueue: Queue<Task>
    var nextSequenceId: nat
    var nextResponseId: nat
    var responses: map<nat, Response>
    var writing: bool
    var open: bool
    var reading: bool
    var writes: seq<Response>
    var posted: multiset<Posted>

    constructor (self: nat, queue: Queue<Task>)
      ensures this.self == self && requestQueue == queue && View() == FRESH
    {
      this.self, requestQueue := self, queue;
      nextSequenceId, nextResponseId, responses, writing := 0, 0, map[], false;
      open, reading, writes, posted := true, true, [], multiset{};
    }

    ghost function View(): Conn
      reads this
    {
      Conn(nextSequenceId, nextResponseId, responses, writing, open, reading, writes, posted)
    }

    method SendResponse(response: Response, id: nat)
      modifies this`posted
      ensures View() == old(View()).(posted := old(posted) + multiset{Posted(id, response)})
    {
      posted := posted + multiset{Posted(id, response)};
    }

    method RunPosted(p: Posted)
      requires p in posted
      modifies this
      ensures View() == Deliver(old(View()), p)
    {
      posted := posted - multiset{p};
      if p.id !in responses {
        responses := responses[p.id := p.response];
      }
      if !writing {
        StartWrite();
      }
    }

    method StartWrite()
      modifies this`writing, this`writes
      ensures View() == Write(old(View()))
    {
      if nextResponseId !in responses {
        writing := false;
        return;
      }
      writing := true;
      writes := writes + [responses[nextResponseId]];
    }

    method OnRead(request: Request)
      requires reading
      modifies this, requestQueue
      ensures var (q, outcome) := Apply(requestQueue.config, old(requestQueue.View()),
                                        TryPush(Task(self, request, old(nextSequenceId)), Back));
              requestQueue.View() == q && View() == ReadDone(old(View()), outcome.Accepted?)
    {
      reading := false;
      var id := nextSequenceId;
      nextSequenceId := nextSequenceId + 1;
      var ok := requestQueue.TryPushBack(Task(self, request, id));
      if !ok {
        SendResponse(OVERLOADED, id);
        return;
      }
      reading := true;
    }

    method OnReadError()
      requires reading
      modifies this
      ensures View() == ReadFailed(old(View()))
    {
      reading := false;
      open := false;
    }

    method OnWrite(i: nat)
      requires i < |writes|
      modifies this
      ensures View() == WriteDone(old(View()), i)
    {
      var response := writes[i];
      writes := Remove(writes, i);
      responses := responses - {nextResponseId};
      nextResponseId := nextResponseId + 1;
      assert View() == old(View()).(writes := Remove(old(writes), i),
                                    responses := old(responses) - {old(nextResponseId)},
                                    nextResponseId := old(nextResponseId) + 1);
      if response.keepAlive {
        StartWrite();
        return;
      }
      open := false;
    }

    method OnWriteError(i: nat)
      requires i < |writes|
      modifies this
      ensures View() == WriteFailed(old(View()), i)
    {
      writes := Remove(writes, i);
      open := false;
    }
  }
}
