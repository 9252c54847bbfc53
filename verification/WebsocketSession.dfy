/**
  The outgoing side of a WebSocket session
  (src/network/communication/websocket_connection.hpp:51-64 and 105-134).

  `send` posts a handler to the session's executor, which runs handlers in the order they were
  posted; the handler queues the message and starts a write if none is in progress; every
  completed write starts the next one. A failed write leaves its message at the head.
 */
module WebsocketSession {
  import opened Sequences

  type Message = string

  /** `inbox` holds the posted handlers, `writes` the outstanding async_writes. */
  datatype Session = Session(inbox: seq<Message>, writeQueue: seq<Message>, writes: seq<Message>)

  function StartWrite(s: Session): Session
    requires s.writeQueue != []
  {
    s.(writes := s.writes + [s.writeQueue[0]])
  }

  function RunHandler(s: Session): Session
    requires s.inbox != []
  {
    var s' := s.(inbox := s.inbox[1..], writeQueue := s.writeQueue + [s.inbox[0]]);
    if s.writeQueue != [] then s' else StartWrite(s')
  }

  /** Outstanding write `i` completed; erasing from an empty queue is undefined in the source. */
  function WriteDone(s: Session, i: nat): Session
    requires i < |s.writes| && s.writeQueue != []
  {
    var s' := s.(writes := Remove(s.writes, i), writeQueue := s.writeQueue[1..]);
    if s'.writeQueue == [] then s' else StartWrite(s')
  }

  function WriteFailed(s: Session, i: nat): Session
    requires i < |s.writes|
  {
    s.(writes := Remove(s.writes, i))
  }

  class WebsocketConnection {
    var inbox: seq<Message>
    var writeQueue: seq<Message>
    var writes: seq<Message>

    constructor ()
      ensures View() == Session([], [], [])
    {
      inbox, writeQueue, writes := [], [], [];
    }

    ghost function View(): Session
      reads this
    {
      Session(inbox, writeQueue, writes)
    }

    method Send(message: Message)
      modifies this`inbox
      ensures View() == old(View()).(inbox := old(inbox) + [message])
    {
      inbox := inbox + [message];
    }

    method OnPosted()
      requires inbox != []
      modifies this
      ensures View() == RunHandler(old(View()))
    {
      var message := inbox[0];
      inbox := inbox[1..];
      var writeInProgress := writeQueue != [];
      writeQueue := writeQueue + [message];
      if !writeInProgress {
        WriteMessage();
      }
    }

    method WriteMessage()
      requires writeQueue != []
      modifies this`writes
      ensures View() == StartWrite(old(View()))
    {
      writes := writes + [writeQueue[0]];
    }

    method OnWrite(i: nat, failed: bool)
      requires i < |writes| && writeQueue != []
      modifies this
      ensures View() == if failed then WriteFailed(old(View()), i) else WriteDone(old(View()), i)
    {
      writes := Remove(writes, i);
      if failed {
        return;
      }
      writeQueue := writeQueue[1..];
      if writeQueue != [] {
        WriteMessage();
      }
    }
  }

  // ----- whole runs -----

  /** A session and its history: messages given to `send`, messages written, any failure. */
  datatype Run = Run(s: Session, sent: seq<Message>, written: seq<Message>, failed: bool)

  const START := Run(Session([], [], []), [], [], false)

  datatype Step = Send(m: Message) | Handle | Done(i: nat) | Fail(i: nat)

  predicate Enabled(r: Run, step: Step) {
    match step
    case Send(_) => true
    case Handle => r.s.inbox != []
    case Done(i) => i < |r.s.writes| && r.s.writeQueue != []
    case Fail(i) => i < |r.s.writes|
  }

  function Exec(r: Run, step: Step): Run
    requires Enabled(r, step)
  {
    match step
    case Send(m) => r.(s := r.s.(inbox := r.s.inbox + [m]), sent := r.sent + [m])
    case Handle => r.(s := RunHandler(r.s))
    case Done(i) => r.(s := WriteDone(r.s, i), written := r.written + [r.s.writes[i]])
    case Fail(i) => r.(s := WriteFailed(r.s, i), failed := true)
  }

  ghost predicate IsRun(r: Run, steps: seq<Step>)
    decreases |steps|
  {
    steps == [] || (Enabled(r, steps[0]) && IsRun(Exec(r, steps[0]), steps[1..]))
  }

  ghost function After(r: Run, steps: seq<Step>): Run
    requires IsRun(r, steps)
    decreases |steps|
  {
    if steps == [] then r else After(Exec(r, steps[0]), steps[1..])
  }

  /** Nothing is lost, doubled or reordered; the one write in progress is of the head, and there
      is one exactly when something is queued and no write has failed. */
  ghost predicate Inv(r: Run) {
    && r.written + r.s.writeQueue + r.s.inbox == r.sent
    && r.s.writes == (if r.s.writeQueue != [] && !r.failed then [r.s.writeQueue[0]] else [])
    && (r.failed ==> r.s.writeQueue != [])
  }

  lemma StepKeepsInv(r: Run, step: Step)
    requires Inv(r) && Enabled(r, step)
    ensures var r' := Exec(r, step);
            Inv(r') && (r.failed ==> r'.failed && r'.written == r.written)
  {
    var s := r.s;
    match step
    case Send(m) => assert r.written + s.writeQueue + (s.inbox + [m]) == r.sent + [m];
    case Handle =>
      assert s.inbox == [s.inbox[0]] + s.inbox[1..];
      assert r.written + (s.writeQueue + [s.inbox[0]]) + s.inbox[1..] == r.sent;
    case Done(i) =>
      assert s.writeQueue == [s.writeQueue[0]] + s.writeQueue[1..];
      assert r.written + [s.writes[i]] + s.writeQueue[1..] + s.inbox == r.sent;
    case Fail(i) =>
  }

  lemma {:induction false} RunKeepsInv(r: Run, steps: seq<Step>)
    requires Inv(r) && IsRun(r, steps)
    ensures var r' := After(r, steps);
            Inv(r') && (r.failed ==> r'.failed && r'.written == r.written)
    decreases |steps|
  {
    if steps != [] {
      StepKeepsInv(r, steps[0]);
      RunKeepsInv(Exec(r, steps[0]), steps[1..]);
    }
  }

  function Work(s: Session): nat {
    3 * |s.inbox| + |s.writeQueue| + |s.writes|
  }

  /** Without new sends, handlers and completions come to an end, and a session on which no write
      has failed and nothing is under way has written everything sent, in order. After a failure
      nothing is ever written again. */
  lemma {:induction false} SessionDrains(steps: seq<Step>, later: seq<Step>)
    requires IsRun(START, steps) && IsRun(After(START, steps), later)
    ensures var r := After(START, steps);
            var r' := After(r, later);
            && Inv(r) && Inv(r')
            && ((forall step <- later :: !step.Send?) ==> |later| + Work(r'.s) <= Work(r.s))
            && (r'.s.inbox == [] && r'.s.writes == [] && !r'.failed ==> r'.written == r'.sent)
            && (r.failed ==> r'.written == r.written)
  {
    RunKeepsInv(START, steps);
    var r := After(START, steps);
    RunKeepsInv(r, later);
    if forall step <- later :: !step.Send? {
      WorkDecreases(r, later);
    }
  }

  lemma {:induction false} WorkDecreases(r: Run, steps: seq<Step>)
    requires Inv(r) && IsRun(r, steps) && forall step <- steps :: !step.Send?
    ensures |steps| + Work(After(r, steps).s) <= Work(r.s)
    decreases |steps|
  {
    if steps != [] {
      StepKeepsInv(r, steps[0]);
      WorkDecreases(Exec(r, steps[0]), steps[1..]);
    }
  }
}
