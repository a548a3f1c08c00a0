/** What every reachable state of the thread pool satisfies. */
module ThreadPoolInvariant {
  import opened ThreadPool

  // ----- what tickets have been through -----

  predicate Claimed(pc: WorkerPc) {
    pc.Unlock? || pc.Run? || pc.Finish? || pc.Notify? || pc.Decrement? || pc.Complete? || pc.Flag? || pc.Vacate? || pc.Report?
  }

  predicate Waiting(pc: WorkerPc) { pc.Inspect? || pc.Doze? || pc.Claim? }

  /** The worker that claimed ticket `t` is still at work on it. */
  predicate Active(s: State, t: nat) {
    t < |s.taken| && s.taken[t] < |s.workers| &&
    s.workers[s.taken[t]].ticket == t && Claimed(s.workers[s.taken[t]].pc)
  }

  /** How far the worker of an active ticket is. */
  function At(s: State, t: nat): WorkerPc
    requires Active(s, t)
  {
    s.workers[s.taken[t]].pc
  }

  /** How many units of a ticket have been processed. */
  function Progress(s: State, t: nat): nat
    requires t < |s.items|
  {
    if t >= |s.taken| then 0
    else if Active(s, t) && At(s, t).Unlock? then 0
    else if Active(s, t) && At(s, t).Run? then s.workers[s.taken[t]].done
    else s.items[t].cnt
  }

  /** The worker has given up its own slot. */
  predicate Past(s: State, t: nat) {
    t < |s.taken| && (Active(s, t) ==> At(s, t).Notify? || At(s, t).Decrement? || At(s, t).Complete? || At(s, t).Report?)
  }

  predicate Counted(s: State, t: nat) {
    t < |s.taken| && (Active(s, t) ==> At(s, t).Complete?)
  }

  /** Ticket `t` is one of the call's and has been counted down. */
  predicate CountedFor(s: State, t: nat, c: nat) {
    t < |s.items| && s.items[t].call == c && Counted(s, t)
  }

  /** A worker is about to announce that ticket `t` is done. */
  predicate Notifying(s: State, t: nat) {
    Active(s, t) && (At(s, t).Notify? || At(s, t).Report?)
  }

  predicate IsFirst(s: State, t: nat)
    requires t < |s.items| && s.items[t].call < |s.calls|
  {
    var call := s.calls[s.items[t].call];
    !call.job.derive && call.first == t
  }

  /** The slot of a ticket has been given up: by the caller if it holds the first
      fragment, else by the worker. */
  predicate Vacated(s: State, t: nat)
    requires t < |s.items| && s.items[t].call < |s.calls|
  {
    if IsFirst(s, t) then s.calls[s.items[t].call].stage == Released else Past(s, t)
  }

  // ----- the callers -----

  predicate Holding(pc: ClientPc) {
    !pc.Idle? && !pc.Enter? && !pc.Await? && !pc.FreeFirst? && !pc.Announce?
  }

  /** A ticket has been taken out but not used. */
  predicate Pending(pc: ClientPc) { pc.Probe? || pc.Sleep? || pc.Fill? }

  /** The fragments still to be filled; `pending` says whether a ticket is out for one. */
  function Todo(s: State, c: nat): nat
    requires c < |s.calls|
  {
    s.calls[c].frag + (if InCall(s, c) && Pending(s.clients[s.calls[c].client].pc) then 1 else 0)
  }

  predicate InCall(s: State, c: nat)
    requires c < |s.calls|
  {
    var i := s.calls[c].client;
    i < |s.clients| && s.clients[i].pc != Idle && s.clients[i].call == c
  }

  /** The units in the fragments to come. */
  function Rest(todo: nat, per: nat, rem: nat): nat {
    if rem > 0 && rem <= todo && per > 0 then rem * per + (todo - rem) * (per - 1) else todo * per
  }

  ghost predicate ClientInv(cfg: Config, s: State, i: nat)
    requires i < |s.clients|
  {
    var cl := s.clients[i];
    && (Holding(cl.pc) <==> s.enqMutex == Some(i))
    && (cl.pc != Idle ==>
          && cl.call < |s.calls| && s.calls[cl.call].client == i
          && CallAt(cfg, s, s.calls[cl.call], cl.pc))
  }

  /** The call of a caller, by where the caller is. */
  ghost predicate CallAt(cfg: Config, s: State, call: Call, pc: ClientPc) {
    && cfg.size > 0
    && (call.job.derive ==> call.stage == Uncounted && !pc.ProbeFirst? && !pc.SleepFirst? && !pc.SetCount?
                            && !pc.Await? && !pc.FreeFirst? && !pc.Announce?)
    && (pc.Enter? || pc.ProbeFirst? || pc.SleepFirst? || pc.SetCount? ==> call.stage == Uncounted && call.frag == call.n)
    && (!call.job.derive && (Holding(pc) || pc.Await?) && !pc.ProbeFirst? && !pc.SleepFirst? && !pc.SetCount? ==>
          call.stage.Open? || call.stage.Last? || call.stage.Signalled?)
    && (pc.FreeFirst? ==> call.stage == Consumed)
    && (pc.Announce? ==> call.stage == Released)
    && (pc.Leave? || pc.Await? || pc.FreeFirst? || pc.Announce? ==> call.frag == 0)
    && (Holding(pc) ==>
          && call.first + call.n == |s.items| + call.frag + (if Pending(pc) then 1 else 0)
          && s.enq == |s.items| + (if Pending(pc) then 1 else 0)
          && s.pub == |s.items| - (if pc.Publish? then 1 else 0))
    && (!pc.Enter? && !call.job.derive ==> call.firstSlot == call.first % cfg.size)
    && (Pending(pc) ==> call.slot == |s.items| % cfg.size)
    && (pc.Publish? ==> call.slot == s.pub % cfg.size)
    && (pc.SetCount? ==> call.firstSlot < |s.slots| && s.slots[call.firstSlot].state == Free)
    && (pc.Fill? ==> call.slot < |s.slots| && s.slots[call.slot].state == Free)
  }

  // ----- the calls -----

  ghost predicate CallInv(cfg: Config, s: State, c: nat)
    requires c < |s.calls|
  {
    var call := s.calls[c];
    && call.client < |s.clients| && call.slot < cfg.size && call.firstSlot < cfg.size
    && 1 <= call.n && 2 * call.n <= cfg.size && (call.job.derive ==> call.n == 1 && |call.orig| == 1)
    && |call.buf| == |call.orig| == |call.times|
    // the split into fragments
    && call.rem <= Todo(s, c) <= call.n && 1 <= call.per && (call.rem > 0 ==> 2 <= call.per)
    && call.off + Rest(Todo(s, c), call.per, call.rem) == |call.orig|
    && call.unit == call.job.start + call.off
    && Consecutive(s, c)
    && (!InCall(s, c) ==> call.frag == 0 && (call.job.derive || call.stage == Released))
    // the count
    && (call.job.derive ==> call.stage == Uncounted)
    && (call.stage == Uncounted && !call.job.derive ==> InCall(s, c))
    && (call.stage != Uncounted && call.stage != Released ==>
          InCall(s, c) && call.first % cfg.size < |s.slots| && s.slots[call.first % cfg.size].own == Some(c))
    && (call.stage.Open? ==> call.left != {})
    && (call.stage.Last? || call.stage.Signalled? || call.stage.Consumed? || call.stage.Released? ==> call.left == {})
    && (call.stage.Last? ==> Completes(s, call.stage.worker, c))
    && (forall t :: t in call.left <==> call.stage != Uncounted && call.first <= t < call.first + call.n && !CountedFor(s, t, c))
    // the units
    && |call.cover| == call.off
    && (forall u :: 0 <= u < |call.orig| ==> UnitInv(cfg, s, c, u))
    && (call.flag ==> call.job.derive && |call.cover| == 1 && call.cover[0] < |s.items| && Progress(s, call.cover[0]) == 1)
  }

  predicate Issued(s: State, t: nat, c: nat) { t < |s.items| && s.items[t].call == c }

  /** The tickets of a call follow one another. */
  ghost predicate Consecutive(s: State, c: nat)
    requires c < |s.calls|
  {
    forall t {:trigger Issued(s, t, c)} ::
      s.calls[c].first <= t && t + Todo(s, c) < s.calls[c].first + s.calls[c].n ==> Issued(s, t, c)
  }

  predicate Completes(s: State, w: nat, c: nat) {
    && w < |s.workers| && s.workers[w].pc == Complete
    && s.workers[w].ticket < |s.items| && s.items[s.workers[w].ticket].call == c
  }

  predicate Reached(s: State, c: nat, u: nat)
    requires c < |s.calls|
  {
    var cover := s.calls[c].cover;
    u < |cover| && cover[u] < |s.items| && u < s.items[cover[u]].off + Progress(s, cover[u])
  }

  /** A unit is processed once, under its own number, when its fragment gets there. */
  ghost predicate UnitInv(cfg: Config, s: State, c: nat, u: nat)
    requires c < |s.calls| && u < |s.calls[c].orig| == |s.calls[c].buf| == |s.calls[c].times|
  {
    var call := s.calls[c];
    && (u < |call.cover| ==>
          && call.cover[u] < |s.items|
          && var item := s.items[call.cover[u]]; item.call == c && item.off <= u < item.off + item.cnt)
    && (if Reached(s, c, u)
        then call.times[u] == 1 && call.buf[u] == cfg.f(call.job, call.job.start + u, call.orig[u])
        else call.times[u] == 0 && call.buf[u] == call.orig[u])
  }

  // ----- the items and their slots -----

  ghost predicate ItemInv(cfg: Config, s: State, t: nat)
    requires t < |s.items|
  {
    var item := s.items[t];
    && cfg.size > 0 && item.call < |s.calls|
    && var call := s.calls[item.call];
    && 1 <= item.cnt && item.off + item.cnt <= |call.cover| && item.unit == call.job.start + item.off
    && call.first <= t && t + Todo(s, item.call) < call.first + call.n
    && (!call.job.derive ==> call.stage != Uncounted)
    && (forall u {:trigger call.cover[u]} :: item.off <= u < item.off + item.cnt ==> call.cover[u] == t)
    && (t + cfg.size < |s.items| ==> Vacated(s, t))
    && (t + cfg.size >= |s.items| ==> SlotHolds(cfg, s, t))
  }

  /** The slot of one of the last tickets still belongs to it. */
  ghost predicate SlotHolds(cfg: Config, s: State, t: nat)
    requires t < |s.items| && s.items[t].call < |s.calls| && cfg.size > 0
  {
    && t % cfg.size < |s.slots|
    && var slot := s.slots[t % cfg.size];
    && slot.work == Some(s.items[t])
    && (!s.calls[s.items[t].call].job.derive ==> slot.first == s.calls[s.items[t].call].first % cfg.size)
    && slot.state == (if t >= s.pub then Free else if t >= |s.taken| then Ready else if Vacated(s, t) then Free else Busy)
  }

  ghost predicate SlotInv(cfg: Config, s: State, k: nat)
    requires k < |s.slots|
  {
    var slot := s.slots[k];
    && (k >= |s.items| ==> slot.state == Free)
    && slot.first < cfg.size
    && (slot.own.None? ==> !slot.completed)
    && (slot.own.Some? ==>
          && slot.own.value < |s.calls| && cfg.size > 0
          && var call := s.calls[slot.own.value];
          && call.first % cfg.size == k && call.stage != Uncounted && call.stage != Released
          && slot.count == |call.left| && (slot.completed <==> call.stage == Signalled))
  }

  // ----- the workers -----

  ghost predicate WorkerInv(cfg: Config, s: State, w: nat)
    requires w < |s.workers|
  {
    var k := s.workers[w];
    && k.slot < cfg.size
    && (k.pc.Take? || Waiting(k.pc) || k.pc.Unlock? <==> s.deqMutex == Some(w))
    && (Waiting(k.pc) || Claimed(k.pc) ==> k.slot == k.ticket % cfg.size)
    && (k.pc.Take? || k.pc.Unlock? ==> s.deq == |s.taken|)
    && (Waiting(k.pc) ==> k.ticket == |s.taken| && s.deq == |s.taken| + 1)
    && (k.pc.Claim? ==> k.ticket < s.pub)
    && (Waiting(k.pc) || k.pc.Unlock? ==> k.done == 0)
    && (Claimed(k.pc) ==> k.ticket < |s.taken| && s.taken[k.ticket] == w && k.ticket < |s.items|)
    && (Claimed(k.pc) && s.items[k.ticket].call < |s.calls| ==> ItemAt(s, k, w))
  }

  /** The item of a worker, by where the worker is. */
  predicate ItemAt(s: State, k: Worker, w: nat)
    requires k.ticket < |s.items| && s.items[k.ticket].call < |s.calls|
  {
    var call := s.calls[s.items[k.ticket].call];
    && (k.pc.Run? ==> k.done <= s.items[k.ticket].cnt)
    && (k.pc.Flag? || k.pc.Vacate? || k.pc.Report? ==> call.job.derive)
    && (k.pc.Finish? || k.pc.Notify? || k.pc.Decrement? || k.pc.Complete? ==> !call.job.derive)
    && (k.pc.Notify? ==> !IsFirst(s, k.ticket))
    && (k.pc.Complete? ==> call.stage == Last(w))
  }

  // ----- no wake-up is lost -----

  /** A caller that sleeps although its slot is free will be woken: the event is set,
      or whoever gave up the slot is about to set it. */
  ghost predicate CallerWakes(cfg: Config, s: State, i: nat)
    requires i < |s.clients|
  {
    (s.clients[i].pc.Sleep? || s.clients[i].pc.SleepFirst?) && cfg.size > 0 && |s.items| % cfg.size < |s.slots| &&
    s.slots[|s.items| % cfg.size].state == Free ==>
      s.completedEvent || (|s.items| >= cfg.size && Announced(s, |s.items| - cfg.size))
  }

  predicate Announced(s: State, t: nat) {
    Notifying(s, t) ||
    (t < |s.items| && s.items[t].call < |s.calls| && IsFirst(s, t) && InCall(s, s.items[t].call)
     && s.clients[s.calls[s.items[t].call].client].pc.Announce?)
  }

  /** So will a worker that sleeps although its slot is ready. */
  ghost predicate WorkerWakes(cfg: Config, s: State, w: nat)
    requires w < |s.workers|
  {
    s.workers[w].pc.Doze? && s.workers[w].slot < |s.slots| && s.slots[s.workers[w].slot].state == Ready ==>
      s.readyEvent || (s.enqMutex.Some? && s.enqMutex.value < |s.clients| && s.clients[s.enqMutex.value].pc.Wake?)
  }

  // ----- all together -----

  ghost predicate Counters(cfg: Config, s: State) {
    && 1 <= |s.workers| && 2 * |s.workers| <= cfg.size == |s.slots|
    && s.enqPos == s.enq % cfg.size && s.deqPos == s.deq % cfg.size
    && |s.items| <= s.enq <= |s.items| + 1 && s.pub <= |s.items| <= s.pub + 1
    && |s.taken| <= s.pub && |s.taken| <= s.deq <= |s.taken| + 1
    && (s.enqMutex.None? ==> s.enq == |s.items| == s.pub)
    && (s.enqMutex.Some? ==> s.enqMutex.value < |s.clients| && Holding(s.clients[s.enqMutex.value].pc))
    && (s.deqMutex.None? ==> s.deq == |s.taken|)
    && (s.deqMutex.Some? ==> s.deqMutex.value < |s.workers|)
    && (forall t :: 0 <= t < |s.taken| ==> s.taken[t] < |s.workers|)
  }

  ghost predicate Inv(cfg: Config, s: State) {
    && Counters(cfg, s)
    && (forall i :: 0 <= i < |s.clients| ==> ClientInv(cfg, s, i))
    && (forall c :: 0 <= c < |s.calls| ==> CallInv(cfg, s, c))
    && (forall t :: 0 <= t < |s.items| ==> ItemInv(cfg, s, t))
    && (forall k :: 0 <= k < |s.slots| ==> SlotInv(cfg, s, k))
    && (forall w :: 0 <= w < |s.workers| ==> WorkerInv(cfg, s, w))
    && (forall i :: 0 <= i < |s.clients| ==> CallerWakes(cfg, s, i))
    && (forall w :: 0 <= w < |s.workers| ==> WorkerWakes(cfg, s, w))
  }
}
