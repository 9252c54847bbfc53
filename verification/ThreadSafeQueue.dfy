/**
  The bounded queue of src/data_structures/thread_safe/thread_safe_queue.hpp.

  Every public operation of the queue is one critical section. `Apply` gives that
  critical section as a function on values; the class `Queue` is the code, and each
  of its methods is proved to compute `Apply`. Blocking, waking and notifying are in
  QueueMonitor; what a run of operations keeps is in QueueAccounting.
 */
module ThreadSafeQueue {
  import opened Wrappers

  const WORD: nat := 0x1_0000_0000_0000_0000

  /** `size_t`: arithmetic on it wraps at 2^64. */
  type Word = n: nat | n < WORD

  /** The two template flags, the two limits (0 is "unlimited") and `queue_size_traits`. */
  datatype Config<!T> = Config(
    enableMaxSize: bool,
    enableMaxBytes: bool,
    maximumSize: Word,
    maximumBytes: Word,
    sizeOf: T -> Word
  ) {
    predicate LimitsSize() {
      enableMaxSize && maximumSize != 0
    }

    predicate CountsBytes() {
      enableMaxBytes && maximumBytes != 0
    }
  }

  datatype State<T> = State(items: seq<T>, currentBytes: Word, stopped: bool)

  function Init<T>(): State<T> {
    State([], 0, false)
  }

  datatype End = Front | Back

  datatype Op<T> =
    | TryPush(item: T, end: End)
    | Push(item: T, end: End)
    | Pop(end: End)
    | WaitPop
    | Clear
    | Replace(contents: seq<T>)
    | Stop

  /** What the caller sees. `Nothing` is the thrown "Queue is empty" of the pops and the
      `nullopt` of `wait_and_pop`. */
  datatype Outcome<T> = Accepted | Rejected | Got(item: T) | Nothing | Done

  predicate Admits<T>(c: Config<T>, s: State<T>, x: T) {
    && !s.stopped
    && (c.LimitsSize() ==> |s.items| < c.maximumSize)
    && (c.CountsBytes() ==> s.currentBytes <= c.maximumBytes && c.sizeOf(x) <= c.maximumBytes - s.currentBytes)
  }

  /** `size_t` addition. */
  function Plus(a: Word, b: Word): Word {
    if a + b < WORD then a + b else a + b - WORD
  }

  /** `size_t` subtraction. */
  function Minus(a: Word, b: Word): Word {
    if b <= a then a - b else a + WORD - b
  }

  function Charged<T>(c: Config<T>, bytes: Word, x: T): Word {
    if c.CountsBytes() then Plus(bytes, c.sizeOf(x)) else bytes
  }

  function Refunded<T>(c: Config<T>, bytes: Word, x: T): Word {
    if c.CountsBytes() then Minus(bytes, c.sizeOf(x)) else bytes
  }

  function Put<T>(items: seq<T>, x: T, end: End): seq<T> {
    if end.Front? then [x] + items else items + [x]
  }

  function Added<T>(c: Config<T>, s: State<T>, x: T, end: End): State<T> {
    s.(items := Put(s.items, x, end), currentBytes := Charged(c, s.currentBytes, x))
  }

  function Removed<T>(c: Config<T>, s: State<T>, end: End): State<T>
    requires s.items != []
  {
    var n := |s.items|;
    if end.Front?
    then s.(items := s.items[1..], currentBytes := Refunded(c, s.currentBytes, s.items[0]))
    else s.(items := s.items[..n - 1], currentBytes := Refunded(c, s.currentBytes, s.items[n - 1]))
  }

  /** The prefix of `xs` that `replace` keeps: the size limit is honoured, the byte limit is not. */
  function Kept<T>(c: Config<T>, xs: seq<T>): seq<T> {
    if c.LimitsSize() && c.maximumSize < |xs| then xs[..c.maximumSize] else xs
  }

  /** `replace` counts bytes whenever the template flag is on, even if `maximum_bytes` is 0. */
  function Tally<T>(c: Config<T>, xs: seq<T>): Word {
    if xs == [] || !c.enableMaxBytes then 0
    else Plus(Tally(c, xs[..|xs| - 1]), c.sizeOf(xs[|xs| - 1]))
  }

  function Apply<T>(c: Config<T>, s: State<T>, op: Op<T>): (State<T>, Outcome<T>) {
    match op
    case TryPush(x, end) => if Admits(c, s, x) then (Added(c, s, x, end), Accepted) else (s, Rejected)
    case Push(x, end) => (Added(c, s, x, end), Accepted)
    case Pop(end) =>
      if s.items == [] then (s, Nothing)
      else (Removed(c, s, end), Got(if end.Front? then s.items[0] else s.items[|s.items| - 1]))
    case WaitPop => if s.items == [] then (s, Nothing) else (Removed(c, s, Front), Got(s.items[0]))
    case Clear => (s.(items := [], currentBytes := 0), Done)
    case Replace(xs) => (s.(items := Kept(c, xs), currentBytes := Tally(c, Kept(c, xs))), Done)
    case Stop => (s.(stopped := true), Done)
  }

  /** The state after a run of operations, whatever threads they come from. */
  function Run<T>(c: Config<T>, s: State<T>, ops: seq<Op<T>>): State<T>
    decreases |ops|
  {
    if ops == [] then s else Run(c, Apply(c, s, ops[0]).0, ops[1..])
  }

  class Queue<T> {
    const config: Config<T>
    var dequeue: seq<T>
    var stopped: bool
    var currentBytes: Word

    constructor (config: Config<T>)
      ensures this.config == config && View() == Init()
    {
      this.config := config;
      dequeue, stopped, currentBytes := [], false, 0;
    }

    ghost function View(): State<T>
      reads this
    {
      State(dequeue, currentBytes, stopped)
    }

    method PreAdditionCheck(item: T) returns (ok: bool)
      modifies this`currentBytes
      ensures ok == Admits(config, old(View()), item)
      ensures currentBytes == if ok then Charged(config, old(currentBytes), item) else old(currentBytes)
    {
      if stopped {
        return false;
      }
      if config.enableMaxSize {
        if config.maximumSize != 0 && |dequeue| >= config.maximumSize {
          return false;
        }
      }
      if config.enableMaxBytes {
        if config.maximumBytes != 0 {
          var bytes := config.sizeOf(item);
          if currentBytes > config.maximumBytes || bytes > config.maximumBytes - currentBytes {
            return false;
          }
          currentBytes := Plus(currentBytes, bytes);
        }
      }
      return true;
    }

    method TryPushBack(item: T) returns (ok: bool)
      modifies this
      ensures (View(), if ok then Accepted else Rejected) == Apply(config, old(View()), TryPush(item, Back))
    {
      ok := PreAdditionCheck(item);
      if ok {
        dequeue := dequeue + [item];
      }
    }

    method TryPushFront(item: T) returns (ok: bool)
      modifies this
      ensures (View(), if ok then Accepted else Rejected) == Apply(config, old(View()), TryPush(item, Front))
    {
      ok := PreAdditionCheck(item);
      if ok {
        dequeue := [item] + dequeue;
      }
    }

    method PushBack(item: T)
      modifies this
      ensures View() == Apply(config, old(View()), Push(item, Back)).0
    {
      if config.enableMaxBytes && config.maximumBytes != 0 {
        currentBytes := Plus(currentBytes, config.sizeOf(item));
      }
      dequeue := dequeue + [item];
    }

    method PushFront(item: T)
      modifies this
      ensures View() == Apply(config, old(View()), Push(item, Front)).0
    {
      if config.enableMaxBytes && config.maximumBytes != 0 {
        currentBytes := Plus(currentBytes, config.sizeOf(item));
      }
      dequeue := [item] + dequeue;
    }

    method RemovalProtocol(item: T)
      modifies this`currentBytes
      ensures currentBytes == Refunded(config, old(currentBytes), item)
    {
      if config.enableMaxBytes && config.maximumBytes != 0 {
        currentBytes := Minus(currentBytes, config.sizeOf(item));
      }
    }

    method PopFront() returns (r: Option<T>)
      modifies this
      ensures (View(), if r.Some? then Got(r.value) else Nothing) == Apply(config, old(View()), Pop(Front))
    {
      if dequeue == [] {
        return None;
      }
      r := Some(dequeue[0]);
      RemovalProtocol(dequeue[0]);
      dequeue := dequeue[1..];
    }

    method PopBack() returns (r: Option<T>)
      modifies this
      ensures (View(), if r.Some? then Got(r.value) else Nothing) == Apply(config, old(View()), Pop(Back))
    {
      if dequeue == [] {
        return None;
      }
      var item := dequeue[|dequeue| - 1];
      r := Some(item);
      RemovalProtocol(item);
      dequeue := dequeue[..|dequeue| - 1];
    }

    /** The part of `wait_and_pop` after the wait: entered with the lock held and the
        wait predicate true. */
    method WaitAndPop() returns (r: Option<T>)
      requires stopped || dequeue != []
      modifies this
      ensures (View(), if r.Some? then Got(r.value) else Nothing) == Apply(config, old(View()), WaitPop)
    {
      r := PopFront();
    }

    method StopQueue()
      modifies this
      ensures View() == Apply(config, old(View()), Stop).0
    {
      if stopped {
        return;
      }
      stopped := true;
    }

    method ClearAll()
      modifies this
      ensures View() == Apply(config, old(View()), Clear).0
    {
      dequeue := [];
      currentBytes := 0;
    }

    method ReplaceAll(items: seq<T>)
      modifies this
      ensures View() == Apply(config, old(View()), Replace(items)).0
    {
      dequeue := [];
      currentBytes := 0;
      var currentSize := 0;
      for i := 0 to |items|
        invariant dequeue == items[..i]
        invariant currentBytes == Tally(config, items[..i])
        invariant stopped == old(stopped)
        invariant config.LimitsSize() ==> currentSize == i && i < config.maximumSize
      {
        assert items[..i + 1][..i] == items[..i];
        dequeue := dequeue + [items[i]];
        if config.enableMaxBytes {
          currentBytes := Plus(currentBytes, config.sizeOf(items[i]));
        }
        if config.enableMaxSize {
          if config.maximumSize > 0 {
            currentSize := currentSize + 1;
            if currentSize >= config.maximumSize {
              assert items[..i + 1] == Kept(config, items);
              return;
            }
          }
        }
      }
      assert items[..|items|] == items;
    }
  }
}
