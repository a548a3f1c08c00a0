/** EncryptionThreadPool.c as a state machine: a ring of work items, two mutexes and
    auto-reset events, shared by any number of callers and workers. Every step is one
    access to shared memory, one event or mutex operation, or the processing of one
    data unit. Fields marked as history exist for the proofs only. */
module ThreadPool {
  datatype Option<+T> = None | Some(value: T)

  /** The contents of a data unit, or the key that a derivation writes. */
  type Block(==, !new)

  /** What a call asks for. A key derivation is a call with a single unit. */
  datatype Job = Job(derive: bool, key: nat, start: nat)

  /** The size of the ring, and what is done to a unit of a given number. */
  datatype Config = Config(size: nat, f: (Job, nat, Block) -> Block)

  datatype SlotState = Free | Ready | Busy

  /** The data of a work item: a range of the units of a call. */
  datatype Work = Work(call: nat, off: nat, cnt: nat, unit: nat)

  datatype Slot = Slot(
    state: SlotState,
    work: Option<Work>,
    first: nat,                // FirstFragment
    count: int,                // OutstandingFragmentCount
    completed: bool,           // ItemCompletedEvent
    own: Option<nat>)          // history: the call whose first fragment is here

  /** History of a call to DoWork: whether its fragments are counted; whether the last
      one is done, its completion signalled, received, and the first slot freed. */
  datatype Stage = Uncounted | Open | Last(worker: nat) | Signalled | Consumed | Released

  datatype Call = Call(
    job: Job,
    buf: seq<Block>,           // the caller's buffer
    client: nat,
    flag: bool,                // CompletionFlag and CompletionEvent of a derivation
    slot: nat, firstSlot: nat, // workItem and firstFragmentWorkItem
    frag: nat, per: nat, rem: nat, off: nat, unit: nat,
    // history: the buffer at the start, the number of fragments, the first ticket, the
    // tickets not yet counted down, the ticket for each unit so far, how often each
    // unit has been processed
    orig: seq<Block>, n: nat, first: nat, left: set<nat>, stage: Stage, cover: seq<nat>, times: seq<nat>)

  datatype ClientPc =
    Idle | Enter | ProbeFirst | SleepFirst | SetCount | NextFragment | Probe | Sleep | Fill | Publish | Wake
    | Leave | Await | FreeFirst | Announce

  datatype Client = Client(pc: ClientPc, call: nat)

  datatype WorkerPc =
    Loop | Take | Inspect | Doze | Claim | Unlock | Run | Finish | Notify | Decrement | Complete
    | Flag | Vacate | Report     // for key derivations

  /** A worker, its work item and, as history, the ticket of that item. */
  datatype Worker = Worker(pc: WorkerPc, slot: nat, done: nat, ticket: nat)

  datatype State = State(
    slots: seq<Slot>,
    enqPos: nat, deqPos: nat,
    enqMutex: Option<nat>, deqMutex: Option<nat>,
    readyEvent: bool, completedEvent: bool,
    clients: seq<Client>, workers: seq<Worker>, calls: seq<Call>,
    // history: tickets number the uses of the ring in order. `enq` have been given out
    // to callers, `items` filled, `pub` made ready; `deq` given out to workers and
    // `taken` claimed, by whom
    enq: nat, items: seq<Work>, pub: nat, deq: nat, taken: seq<nat>)

  // ----- the callers -----

  /** Split a call among at most `workers` fragments (lines 657-678). */
  function NewCall(job: Job, data: seq<Block>, client: nat, workers: nat): Call
    requires workers >= 1
  {
    var units := |data|;
    var n := if units <= workers then units else workers;
    var rem := if units <= workers then 0 else units % workers;
    var per := if units <= workers then 1 else units / workers + (if rem > 0 then 1 else 0);
    Call(job, data, client, false, 0, 0, n, per, rem, 0, job.start, data, n, 0, {}, Uncounted, [], seq(units, _ => 0))
  }

  function Advance(pos: nat, size: nat): nat { if pos + 1 >= size then 0 else pos + 1 }

  function Goto(s: State, i: nat, pc: ClientPc): State
    requires i < |s.clients|
  {
    s.(clients := s.clients[i := s.clients[i].(pc := pc)])
  }

  function Tickets(first: nat, n: nat): (r: set<nat>)
    ensures |r| == n && forall t :: t in r <==> first <= t < first + n
  {
    if n == 0 then {} else Tickets(first, n - 1) + {first + n - 1}
  }

  /** The slot and call indices that the program holds as pointers are in range. */
  predicate Pointers(cfg: Config, s: State) {
    && cfg.size > 0 && |s.slots| == cfg.size && s.enqPos < cfg.size && s.deqPos < cfg.size
    && (forall c :: 0 <= c < |s.calls| ==> s.calls[c].slot < cfg.size && s.calls[c].firstSlot < cfg.size)
    && (forall i :: 0 <= i < |s.clients| && s.clients[i].pc != Idle ==> s.clients[i].call < |s.calls|)
    && (forall w :: 0 <= w < |s.workers| ==> s.workers[w].slot < cfg.size)
    && (forall k :: 0 <= k < |s.slots| ==> s.slots[k].first < cfg.size)
  }

  /** A caller starts a call; a call with fewer than two units does not use the pool. */
  function Start(s: State, i: nat, job: Job, data: seq<Block>): State
    requires i < |s.clients| && |s.workers| >= 1
  {
    s.(clients := s.clients[i := Client(Enter, |s.calls|)], calls := s.calls + [NewCall(job, data, i, |s.workers|)])
  }

  predicate CanStart(s: State, i: nat, job: Job, data: seq<Block>) {
    && i < |s.clients| && s.clients[i].pc == Idle && |s.workers| >= 1
    && (if job.derive then |data| == 1 else |data| >= 2)
  }

  function SetSlot(s: State, k: nat, slot: Slot): State
    requires k < |s.slots|
  {
    s.(slots := s.slots[k := slot])
  }

  function SetCall(s: State, c: nat, call: Call): State
    requires c < |s.calls|
  {
    s.(calls := s.calls[c := call])
  }

  /** The locals after a fragment has been filled (lines 709-713). */
  function NextLocals(call: Call, ticket: nat): Call {
    var rem := if call.rem > 0 then call.rem - 1 else 0;
    call.(off := call.off + call.per, unit := call.unit + call.per, rem := rem,
          per := if call.rem == 1 then (if call.per == 0 then 0 else call.per - 1) else call.per,
          cover := call.cover + seq(call.per, _ => ticket))
  }

  /** The next step of caller `i`, if it is not blocked (lines 554-585, 680-723). */
  function ClientStep(cfg: Config, s: State, i: nat): Option<State>
    requires Pointers(cfg, s) && i < |s.clients|
  {
    if s.clients[i].pc == Idle then None
    else
      var c := s.clients[i].call;
      var call := s.calls[c];
      match s.clients[i].pc {
        case Enter =>
          if s.enqMutex.Some? then None
          else Some(SetCall(Goto(s, i, if call.job.derive then NextFragment else ProbeFirst),
                            c, call.(firstSlot := s.enqPos, first := s.enq)).(enqMutex := Some(i)))
        case ProbeFirst =>
          Some(Goto(s, i, if s.slots[call.firstSlot].state == Free then SetCount else SleepFirst))
        case SleepFirst =>
          if s.completedEvent then Some(Goto(s, i, ProbeFirst).(completedEvent := false)) else None
        case SetCount =>
          Some(SetSlot(SetCall(Goto(s, i, NextFragment), c, call.(left := Tickets(call.first, call.n), stage := Open)),
                       call.firstSlot, s.slots[call.firstSlot].(count := call.frag, own := Some(c))))
        case NextFragment =>
          if call.frag == 0 then Some(Goto(s, i, Leave))
          else Some(SetCall(Goto(s, i, Probe), c, call.(frag := call.frag - 1, slot := s.enqPos))
                    .(enqPos := Advance(s.enqPos, cfg.size), enq := s.enq + 1))
        case Probe =>
          Some(Goto(s, i, if s.slots[call.slot].state == Free then Fill else Sleep))
        case Sleep =>
          if s.completedEvent then Some(Goto(s, i, Probe).(completedEvent := false)) else None
        case Fill =>
          var work := Work(c, call.off, call.per, call.unit);
          var k := s.slots[call.slot];
          Some(SetSlot(SetCall(Goto(s, i, Publish), c, NextLocals(call, |s.items|)), call.slot,
                       k.(work := Some(work), first := if call.job.derive then k.first else call.firstSlot))
               .(items := s.items + [work]))
        case Publish =>
          Some(SetSlot(Goto(s, i, Wake), call.slot, s.slots[call.slot].(state := Ready)).(pub := s.pub + 1))
        case Wake =>
          Some(Goto(s, i, NextFragment).(readyEvent := true))
        case Leave =>
          Some(Goto(s, i, if call.job.derive then Idle else Await).(enqMutex := None))
        case Await =>
          if !s.slots[call.firstSlot].completed then None
          else Some(SetSlot(SetCall(Goto(s, i, FreeFirst), c, call.(stage := Consumed)),
                            call.firstSlot, s.slots[call.firstSlot].(completed := false)))
        case FreeFirst =>
          Some(SetSlot(SetCall(Goto(s, i, Announce), c, call.(stage := Released)),
                       call.firstSlot, s.slots[call.firstSlot].(state := Free, own := None)))
        case Announce =>
          Some(Goto(s, i, Idle).(completedEvent := true))
      }
  }

  // ----- the workers -----

  function Move(s: State, w: nat, pc: WorkerPc): State
    requires w < |s.workers|
  {
    s.(workers := s.workers[w := s.workers[w].(pc := pc)])
  }

  /** Process the unit `u` of a call under the number `number`. */
  function Process(cfg: Config, call: Call, u: nat, number: nat): Call
    requires u < |call.buf| == |call.times|
  {
    call.(buf := call.buf[u := cfg.f(call.job, number, call.buf[u])], times := call.times[u := call.times[u] + 1])
  }

  /** The next step of worker `w`, if it is not blocked (lines 218-244, 290-298, 336-343). The
      item is read from the ring, whatever it holds at that time. */
  function WorkerStep(cfg: Config, s: State, w: nat): Option<State>
    requires Pointers(cfg, s) && w < |s.workers|
  {
    var k := s.workers[w].slot;
    match s.workers[w].pc {
      case Loop =>
        if s.deqMutex.Some? then None else Some(Move(s, w, Take).(deqMutex := Some(w)))
      case Take =>
        Some(s.(workers := s.workers[w := Worker(Inspect, s.deqPos, 0, s.deq)],
                deqPos := Advance(s.deqPos, cfg.size), deq := s.deq + 1))
      case Inspect =>
        Some(Move(s, w, if s.slots[k].state == Ready then Claim else Doze))
      case Doze =>
        if s.readyEvent then Some(Move(s, w, Inspect).(readyEvent := false)) else None
      case Claim =>
        Some(SetSlot(Move(s, w, Unlock), k, s.slots[k].(state := Busy)).(taken := s.taken + [w]))
      case Unlock =>
        Some(Move(s, w, Run).(deqMutex := None))
      case Run =>
        RunStep(cfg, s, w)
      case Flag =>
        if s.slots[k].work.None? || s.slots[k].work.value.call >= |s.calls| then None
        else
          var c := s.slots[k].work.value.call;
          Some(SetCall(Move(s, w, Vacate), c, s.calls[c].(flag := true)))
      case Vacate =>
        Some(SetSlot(Move(s, w, Report), k, s.slots[k].(state := Free)))
      case Report =>
        Some(Move(s, w, Loop).(completedEvent := true))
      case Finish =>
        if k != s.slots[k].first then Some(SetSlot(Move(s, w, Notify), k, s.slots[k].(state := Free)))
        else Some(Move(s, w, Decrement))
      case Notify =>
        Some(Move(s, w, Decrement).(completedEvent := true))
      case Decrement =>
        DecrementStep(cfg, s, w)
      case Complete =>
        var j := s.slots[k].first;
        if s.slots[j].own.None? || s.slots[j].own.value >= |s.calls| then None
        else
          var c := s.slots[j].own.value;
          Some(SetSlot(SetCall(Move(s, w, Loop), c, s.calls[c].(stage := Signalled)), j, s.slots[j].(completed := true)))
    }
  }

  /** Process one more unit of the item, or go on. */
  function RunStep(cfg: Config, s: State, w: nat): Option<State>
    requires Pointers(cfg, s) && w < |s.workers|
  {
    var k := s.workers[w].slot;
    if s.slots[k].work.None? || s.slots[k].work.value.call >= |s.calls| then None
    else
      var work := s.slots[k].work.value;
      var call := s.calls[work.call];
      var d := s.workers[w].done;
      if d >= work.cnt then Some(Move(s, w, if call.job.derive then Flag else Finish))
      else if work.off + d >= |call.buf| || |call.buf| != |call.times| then None
      else Some(SetCall(s.(workers := s.workers[w := s.workers[w].(done := d + 1)]),
                        work.call, Process(cfg, call, work.off + d, work.unit + d)))
  }

  /** Count down in the first fragment's slot. */
  function DecrementStep(cfg: Config, s: State, w: nat): Option<State>
    requires Pointers(cfg, s) && w < |s.workers|
  {
    var j := s.slots[s.workers[w].slot].first;
    if s.slots[j].own.None? || s.slots[j].own.value >= |s.calls| then None
    else
      var c := s.slots[j].own.value;
      var last := s.slots[j].count - 1 == 0;
      var call := s.calls[c].(left := s.calls[c].left - {s.workers[w].ticket},
                              stage := if last then Last(w) else s.calls[c].stage);
      Some(SetSlot(SetCall(Move(s, w, if last then Complete else Loop), c, call), j,
                   s.slots[j].(count := s.slots[j].count - 1)))
  }

  // ----- runs -----

  /** The pool after EncryptionThreadPoolStart (lines 388-505). */
  predicate Init(cfg: Config, s: State) {
    && 1 <= |s.workers| && 2 * |s.workers| <= cfg.size == |s.slots|
    && (forall k :: 0 <= k < |s.slots| ==> s.slots[k] == Slot(Free, None, 0, 0, false, None))
    && s.enqPos == s.deqPos == 0 && s.enqMutex == s.deqMutex == None
    && !s.readyEvent && !s.completedEvent
    && (forall i :: 0 <= i < |s.clients| ==> s.clients[i] == Client(Idle, 0))
    && (forall w :: 0 <= w < |s.workers| ==> s.workers[w] == Worker(Loop, 0, 0, 0))
    && s.calls == [] && s.items == [] && s.taken == [] && s.enq == s.pub == s.deq == 0
  }

  /** One step of any caller or worker. */
  ghost predicate Next(cfg: Config, s: State, s': State)
    requires Pointers(cfg, s)
  {
    || (exists i, job, data :: CanStart(s, i, job, data) && s' == Start(s, i, job, data))
    || (exists i: nat :: i < |s.clients| && ClientStep(cfg, s, i) == Some(s'))
    || (exists w: nat :: w < |s.workers| && WorkerStep(cfg, s, w) == Some(s'))
  }
}
