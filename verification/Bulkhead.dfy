/**
 The bulkhead of bulkhead.go: its two bounded FIFO channels, its counters, and the atomic
 actions that workers and callers perform on them.

 A request is the number of the Execute call that made it.  A channel is the sequence of the
 requests it buffers; an unbuffered channel hands a request from a caller to a waiting worker
 and so never holds one.
 */
module Bulkhead {
  type Request = nat

  /** `marked` says which callers put the priority mark into their context. */
  datatype Config = Config(maxConcurrent: nat, maxQueue: nat, priority: bool, marked: Request -> bool)

  function WithDefaults(given: Config, cpus: nat): Config {
    if given.maxConcurrent == 0 then
      given.(maxConcurrent := if cpus * 2 < 1 then 1 else cpus * 2)
    else given
  }

  /** The channels, the atomics, and whether the quit channel is closed. */
  datatype Shared = Shared(queue: seq<Request>, highQ: seq<Request>, inFlight: nat, denied: nat, closed: bool,
                           quit: bool)

  const INITIAL := Shared([], [], 0, 0, false, false)

  /** The channel a caller with a queue to wait in sends to. */
  predicate GoesHigh(cfg: Config, r: Request) {
    cfg.priority && cfg.marked(r)
  }

  predicate HasRoom(cfg: Config, sh: Shared, r: Request) {
    if GoesHigh(cfg, r) then |sh.highQ| < cfg.maxQueue else |sh.queue| < cfg.maxQueue
  }

  function Enqueue(cfg: Config, sh: Shared, r: Request): Shared {
    if GoesHigh(cfg, r) then sh.(highQ := sh.highQ + [r]) else sh.(queue := sh.queue + [r])
  }

  function DequeueHigh(sh: Shared): Shared
    requires sh.highQ != []
  {
    sh.(highQ := sh.highQ[1..])
  }

  function DequeueLow(sh: Shared): Shared
    requires sh.queue != []
  {
    sh.(queue := sh.queue[1..])
  }

  function Began(sh: Shared): Shared {
    sh.(inFlight := sh.inFlight + 1)
  }

  function Ended(sh: Shared): Shared
    requires sh.inFlight > 0
  {
    sh.(inFlight := sh.inFlight - 1)
  }

  function Denied(sh: Shared): Shared {
    sh.(denied := sh.denied + 1)
  }

  /** Only the first Close closes the quit channel. */
  function ShutDown(sh: Shared): Shared {
    sh.(closed := true, quit := sh.quit || !sh.closed)
  }

  class BulkheadPolicy {
    const cfg: Config
    var queue: seq<Request>
    var highQ: seq<Request>
    var inFlight: nat
    var denied: nat
    var closed: bool
    var quit: bool

    function Fields(): Shared
      reads this
    {
      Shared(queue, highQ, inFlight, denied, closed, quit)
    }

    constructor (given: Config, cpus: nat)
      ensures cfg == WithDefaults(given, cpus) && cfg.maxConcurrent > 0
      ensures cfg == given.(maxConcurrent := cfg.maxConcurrent)
      ensures given.maxConcurrent > 0 ==> cfg == given
      ensures given.maxConcurrent == 0 ==> cfg.maxConcurrent == if cpus == 0 then 1 else 2 * cpus
      ensures Fields() == INITIAL
    {
      cfg := WithDefaults(given, cpus);
      queue, highQ, inFlight, denied, closed, quit := [], [], 0, 0, false, false;
    }

    /** A send on the caller's channel: it goes through when the buffer has room. */
    method Send(r: Request) returns (sent: bool)
      modifies this
      ensures sent == HasRoom(cfg, old(Fields()), r)
      ensures sent <==> |if cfg.priority && cfg.marked(r) then old(highQ) else old(queue)| < cfg.maxQueue
      ensures Fields() == if sent then Enqueue(cfg, old(Fields()), r) else old(Fields())
    {
      sent := false;
      if cfg.priority && cfg.marked(r) {
        if |highQ| < cfg.maxQueue {
          highQ := highQ + [r];
          sent := true;
        }
      } else if |queue| < cfg.maxQueue {
        queue := queue + [r];
        sent := true;
      }
    }

    method ReceiveHigh() returns (r: Request)
      requires highQ != []
      modifies this
      ensures r == old(highQ)[0] && Fields() == DequeueHigh(old(Fields()))
    {
      r := highQ[0];
      highQ := highQ[1..];
    }

    method ReceiveLow() returns (r: Request)
      requires queue != []
      modifies this
      ensures r == old(queue)[0] && Fields() == DequeueLow(old(Fields()))
    {
      r := queue[0];
      queue := queue[1..];
    }

    method Begin()
      modifies this
      ensures Fields() == Began(old(Fields()))
    {
      inFlight := inFlight + 1;
    }

    method End()
      requires inFlight > 0
      modifies this
      ensures Fields() == Ended(old(Fields()))
    {
      inFlight := inFlight - 1;
    }

    method Deny()
      modifies this
      ensures Fields() == Denied(old(Fields()))
    {
      denied := denied + 1;
    }

    method Close()
      modifies this
      ensures Fields() == ShutDown(old(Fields()))
    {
      if !closed {
        closed := true;
        quit := true;
      }
    }
  }
}
