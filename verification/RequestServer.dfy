/**
  A worker of the request server (src/network/servers/request_server_base.hpp:94-103).
 */
module RequestServer {
  import opened ThreadSafeQueue
  import opened HttpConnection

  /** The handlers that queued requests of connection `c` lead to. `handle(r, n)` is what the
      handler returns for `r` when it is the worker's request number `n`: it may answer equal
      requests differently. */
  ghost function PostsFor(c: nat, tasks: seq<Task>, handle: (Request, nat) -> Response, n: nat): multiset<Posted> {
    if tasks == [] then multiset{}
    else (if tasks[0].conn == c then multiset{Posted(tasks[0].id, handle(tasks[0].request, n))} else multiset{})
         + PostsFor(c, tasks[1..], handle, n + 1)
  }

  lemma PostsForFirst(c: nat, t: Task, rest: seq<Task>, handle: (Request, nat) -> Response, n: nat)
    ensures PostsFor(c, [t] + rest, handle, n) ==
            (if t.conn == c then multiset{Posted(t.id, handle(t.request, n))} else multiset{})
            + PostsFor(c, rest, handle, n + 1)
  {
  }

  /** Sending a response posts one handler, on the connection the request came from. */
  method Reply(conns: seq<Connection>, t: Task, r: Response)
    requires t.conn < |conns| && forall i, j :: 0 <= i < j < |conns| ==> conns[i] != conns[j]
    modifies conns
    ensures forall c: nat | c < |conns| ::
              conns[c].View() == old(conns[c].View()).(
                posted := old(conns[c].posted) + if c == t.conn then multiset{Posted(t.id, r)} else multiset{})
  {
    conns[t.conn].SendResponse(r, t.id);
  }

  /** `worker_loop`, up to its end on a stopped queue, or on a running one up to the wait that
      blocks: everything in the queue is answered once and its response posted to its own
      connection; nothing else about a connection changes. */
  method WorkerLoop(queue: Queue<Task>, conns: seq<Connection>, handle: (Request, nat) -> Response)
    returns (exited: bool)
    requires forall t <- queue.dequeue :: t.conn < |conns|
    requires forall i, j :: 0 <= i < j < |conns| ==> conns[i] != conns[j]
    modifies queue, conns
    ensures queue.dequeue == [] && exited == queue.stopped == old(queue.stopped)
    ensures forall c: nat | c < |conns| ::
              conns[c].View() == old(conns[c].View()).(
                posted := old(conns[c].posted) + PostsFor(c, old(queue.dequeue), handle, 0))
  {
    ghost var tasks := queue.dequeue;
    var n := 0;
    while queue.stopped || queue.dequeue != []
      invariant queue.stopped == old(queue.stopped) && (forall t <- queue.dequeue :: t.conn < |conns|)
      invariant forall c: nat | c < |conns| ::
                  && conns[c].View() == old(conns[c].View()).(posted := conns[c].posted)
                  && conns[c].posted + PostsFor(c, queue.dequeue, handle, n)
                     == old(conns[c].posted) + PostsFor(c, tasks, handle, 0)
      decreases |queue.dequeue|
    {
      ghost var left := queue.dequeue;
      var task := queue.WaitAndPop();
      if task.None? {
        return true;
      }
      var t := task.value;
      assert left == [t] + queue.dequeue;
      forall c: nat | c < |conns| {
        PostsForFirst(c, t, queue.dequeue, handle, n);
      }
      Reply(conns, t, handle(t.request, n));
      n := n + 1;
    }
    return false;
  }
}
