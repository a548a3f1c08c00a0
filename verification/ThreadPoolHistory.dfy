/** What stays of a call in the course of a run, and what has happened when its work is done. */
module ThreadPoolHistory {
  import opened Division
  import opened ThreadPool
  import opened ThreadPoolInvariant
  import opened ThreadPoolSteps
  import opened ThreadPoolWork
  import opened ThreadPoolTheorems

  // ----- what a step keeps -----

  /** Calls keep what they were asked to do, items and tickets are only added, and a flag
      once set stays so. */
  ghost predicate Keeps(s: State, s': State) {
    && |s.calls| <= |s'.calls| && |s.items| <= |s'.items| && s'.items[..|s.items|] == s.items
    && |s'.workers| == |s.workers| && |s.taken| <= |s'.taken|
    && (forall c :: 0 <= c < |s.calls| ==> SameTask(s.calls[c], s'.calls[c]))
  }

  predicate SameTask(call: Call, call': Call) {
    call'.job == call.job && call'.orig == call.orig && call'.n == call.n && (call.flag ==> call'.flag)
  }

  /** What a step of caller `i` does to its call, the items and the workers. */
  ghost predicate ClientChange(s: State, i: nat, s': State)
    requires i < |s.clients|
  {
    var c := s.clients[i].call;
    && s'.workers == s.workers && s'.taken == s.taken
    && (s'.calls == s.calls || (c < |s.calls| == |s'.calls| && s'.calls == s.calls[c := s'.calls[c]] && SameTask(s.calls[c], s'.calls[c])))
    && (if s.clients[i].pc.Fill?
        then c < |s.calls| == |s'.calls| && s'.items == s.items + [Work(c, s.calls[c].off, s.calls[c].per, s.calls[c].unit)]
             && s'.calls[c] == NextLocals(s.calls[c], |s.items|)
        else s'.items == s.items && |s'.calls| == |s.calls|
             && (c < |s.calls| ==> s'.calls[c].per == s.calls[c].per && s'.calls[c].rem == s.calls[c].rem))
  }

  lemma ClientChanges(cfg: Config, s: State, i: nat, s': State)
    requires Pointers(cfg, s) && i < |s.clients| && ClientStep(cfg, s, i) == Some(s')
    ensures ClientChange(s, i, s')
  {
    hide Tickets, Advance;
    if s.clients[i].pc.Fill? { FillChanges(cfg, s, i, s'); } else { OtherChanges(cfg, s, i, s'); }
  }

  lemma FillChanges(cfg: Config, s: State, i: nat, s': State)
    requires Pointers(cfg, s) && i < |s.clients| && s.clients[i].pc.Fill? && ClientStep(cfg, s, i) == Some(s')
    ensures ClientChange(s, i, s')
  {
  }

  lemma OtherChanges(cfg: Config, s: State, i: nat, s': State)
    requires Pointers(cfg, s) && i < |s.clients| && !s.clients[i].pc.Fill? && ClientStep(cfg, s, i) == Some(s')
    ensures ClientChange(s, i, s')
  {
    hide ClientStep, ClientChange;
    var pc := s.clients[i].pc;
    if pc.Enter? || pc.SetCount? || pc.NextFragment? || pc.Await? || pc.FreeFirst? {
      CallChanges(cfg, s, i, s');
    } else {
      PlaceChanges(cfg, s, i, s');
    }
  }

  lemma CallChanges(cfg: Config, s: State, i: nat, s': State)
    requires Pointers(cfg, s) && i < |s.clients| && ClientStep(cfg, s, i) == Some(s')
    requires var pc := s.clients[i].pc; pc.Enter? || pc.SetCount? || pc.NextFragment? || pc.Await? || pc.FreeFirst?
    ensures ClientChange(s, i, s')
  {
    hide Tickets, Advance, NextLocals;
  }

  lemma PlaceChanges(cfg: Config, s: State, i: nat, s': State)
    requires Pointers(cfg, s) && i < |s.clients| && ClientStep(cfg, s, i) == Some(s')
    requires var pc := s.clients[i].pc; !pc.Enter? && !pc.SetCount? && !pc.NextFragment? && !pc.Await? && !pc.FreeFirst? && !pc.Fill?
    ensures ClientChange(s, i, s')
  {
    hide Tickets, Advance, NextLocals;
  }

  lemma ClientKeepsTasks(cfg: Config, s: State, i: nat, s': State)
    requires Pointers(cfg, s) && i < |s.clients| && ClientStep(cfg, s, i) == Some(s')
    ensures Keeps(s, s') && s'.workers == s.workers && s'.taken == s.taken
  {
    hide ClientStep, NextLocals, SameTask;
    ClientChanges(cfg, s, i, s');
    forall c | 0 <= c < |s.calls| ensures SameTask(s.calls[c], s'.calls[c]) { SameTaskSelf(s.calls[c]); }
  }

  /** What a step of worker `w` does to a call. */
  predicate SameSplit(call: Call, call': Call) {
    SameTask(call, call') && call'.per == call.per && call'.rem == call.rem
  }

  /** What it does to the items, the tickets and at most one call. */
  ghost predicate WorkerChange(s: State, w: nat, s': State) {
    && |s'.workers| == |s.workers| && s'.items == s.items && (s'.taken == s.taken || s'.taken == s.taken + [w])
    && (s'.calls == s.calls
        || exists c :: 0 <= c < |s.calls| == |s'.calls| && s'.calls == s.calls[c := s'.calls[c]] && SameSplit(s.calls[c], s'.calls[c]))
  }

  lemma WorkerChanges(cfg: Config, s: State, w: nat, s': State)
    requires Pointers(cfg, s) && w < |s.workers| && WorkerStep(cfg, s, w) == Some(s')
    ensures WorkerChange(s, w, s')
  {
    hide WorkerChange, WorkerStep, ThreadPool.RunStep, ThreadPool.DecrementStep;
    match s.workers[w].pc {
      case Run => StepIs(cfg, s, w); RunChanges(cfg, s, w, s');
      case Decrement => StepIs(cfg, s, w); DecrementChanges(cfg, s, w, s');
      case Flag => FlagChanges(cfg, s, w, s');
      case Complete => CompleteChanges(cfg, s, w, s');
      case _ => QuietChanges(cfg, s, w, s');
    }
  }

  lemma StepIs(cfg: Config, s: State, w: nat)
    requires Pointers(cfg, s) && w < |s.workers|
    ensures s.workers[w].pc.Run? ==> WorkerStep(cfg, s, w) == ThreadPool.RunStep(cfg, s, w)
    ensures s.workers[w].pc.Decrement? ==> WorkerStep(cfg, s, w) == ThreadPool.DecrementStep(cfg, s, w)
  {
  }

  lemma QuietChanges(cfg: Config, s: State, w: nat, s': State)
    requires Pointers(cfg, s) && w < |s.workers| && WorkerStep(cfg, s, w) == Some(s')
    requires var pc := s.workers[w].pc; !pc.Run? && !pc.Decrement? && !pc.Flag? && !pc.Complete?
    ensures WorkerChange(s, w, s')
  {
    hide WorkerStep;
    if Early(s.workers[w].pc) { EarlyFrame(cfg, s, w, s'); } else { LateFrame(cfg, s, w, s'); }
  }

  lemma EarlyFrame(cfg: Config, s: State, w: nat, s': State)
    requires Pointers(cfg, s) && w < |s.workers| && WorkerStep(cfg, s, w) == Some(s')
    requires Early(s.workers[w].pc)
    ensures |s'.workers| == |s.workers| && s'.items == s.items && s'.calls == s.calls
    ensures s'.taken == if s.workers[w].pc.Claim? then s.taken + [w] else s.taken
  {
    hide Pointers, Advance, ThreadPool.RunStep, ThreadPool.DecrementStep;
  }

  lemma LateFrame(cfg: Config, s: State, w: nat, s': State)
    requires Pointers(cfg, s) && w < |s.workers| && WorkerStep(cfg, s, w) == Some(s')
    requires var pc := s.workers[w].pc; pc.Vacate? || pc.Report? || pc.Finish? || pc.Notify?
    ensures |s'.workers| == |s.workers| && s'.items == s.items && s'.calls == s.calls
    ensures s'.taken == if s.workers[w].pc.Claim? then s.taken + [w] else s.taken
  {
    hide Pointers, Advance, ThreadPool.RunStep, ThreadPool.DecrementStep;
  }

  lemma FlagChanges(cfg: Config, s: State, w: nat, s': State)
    requires Pointers(cfg, s) && w < |s.workers| && s.workers[w].pc.Flag? && WorkerStep(cfg, s, w) == Some(s')
    ensures WorkerChange(s, w, s')
  {
    var c := s.slots[s.workers[w].slot].work.value.call;
    assert SameSplit(s.calls[c], s'.calls[c]);
  }

  lemma CompleteChanges(cfg: Config, s: State, w: nat, s': State)
    requires Pointers(cfg, s) && w < |s.workers| && s.workers[w].pc.Complete? && WorkerStep(cfg, s, w) == Some(s')
    ensures WorkerChange(s, w, s')
  {
    var c := s.slots[s.slots[s.workers[w].slot].first].own.value;
    assert SameSplit(s.calls[c], s'.calls[c]);
  }

  lemma RunChanges(cfg: Config, s: State, w: nat, s': State)
    requires Pointers(cfg, s) && w < |s.workers| && ThreadPool.RunStep(cfg, s, w) == Some(s')
    ensures WorkerChange(s, w, s')
  {
    var c := s.slots[s.workers[w].slot].work.value.call;
    assert SameSplit(s.calls[c], s'.calls[c]);
  }

  lemma DecrementChanges(cfg: Config, s: State, w: nat, s': State)
    requires Pointers(cfg, s) && w < |s.workers| && ThreadPool.DecrementStep(cfg, s, w) == Some(s')
    ensures WorkerChange(s, w, s')
  {
    var c := s.slots[s.slots[s.workers[w].slot].first].own.value;
    assert SameSplit(s.calls[c], s'.calls[c]);
  }

  lemma WorkerKeepsTasks(cfg: Config, s: State, w: nat, s': State)
    requires Pointers(cfg, s) && w < |s.workers| && WorkerStep(cfg, s, w) == Some(s')
    ensures Keeps(s, s') && |s'.calls| == |s.calls| && s'.items == s.items
    ensures forall c :: 0 <= c < |s.calls| ==> SameSplit(s.calls[c], s'.calls[c])
  {
    hide WorkerStep, SameTask;
    WorkerChanges(cfg, s, w, s');
    forall c | 0 <= c < |s.calls| ensures SameSplit(s.calls[c], s'.calls[c]) { SameTaskSelf(s.calls[c]); }
  }

  lemma NextKeepsTasks(cfg: Config, s: State, s': State)
    requires Pointers(cfg, s) && Next(cfg, s, s')
    ensures Keeps(s, s')
  {
    hide ClientStep, WorkerStep;
    if i, job, data :| CanStart(s, i, job, data) && s' == Start(s, i, job, data) {
    } else if i: nat :| i < |s.clients| && ClientStep(cfg, s, i) == Some(s') {
      ClientKeepsTasks(cfg, s, i, s');
    } else {
      var w: nat :| w < |s.workers| && WorkerStep(cfg, s, w) == Some(s');
      WorkerKeepsTasks(cfg, s, w, s');
    }
  }

  lemma {:induction false} RunKeepsTask(cfg: Config, run: seq<State>, m: nat, n: nat, c: nat)
    requires IsRun(cfg, run) && m <= n < |run| && c < |run[m].calls|
    ensures c < |run[n].calls| && SameTask(run[m].calls[c], run[n].calls[c])
    decreases n
  {
    hide Next, Init, SameTask;
    if m < n {
      RunKeepsTask(cfg, run, m, n - 1, c);
      NextKeepsTasks(cfg, run[n - 1], run[n]);
      SameTaskStill(run[m].calls[c], run[n - 1].calls[c], run[n].calls[c]);
    } else {
      SameTaskSelf(run[n].calls[c]);
    }
  }

  lemma SameTaskStill(a: Call, b: Call, c: Call)
    requires SameTask(a, b) && SameTask(b, c)
    ensures SameTask(a, c)
  {
  }

  lemma SameTaskSelf(a: Call)
    ensures SameTask(a, a)
  {
  }

  /** The buffer of a call holds, when DoWork returns or the completion of a derivation has
      been signalled, each unit processed under the number of the first one and its own
      place, once. */
  lemma BufferResult(cfg: Config, run: seq<State>, m: nat, n: nat, i: nat, job: Job, data: seq<Block>)
    requires IsRun(cfg, run) && m < n < |run| && CanStart(run[m], i, job, data) && run[m + 1] == Start(run[m], i, job, data)
    ensures var c := |run[m].calls|;
            && c < |run[m + 1].calls| && run[m + 1].calls[c].buf == data && c < |run[n].calls|
            && ((if job.derive then run[n].calls[c].flag else run[n].calls[c].stage == Released || !InCall(run[n], c)) ==>
                  && |run[n].calls[c].buf| == |data|
                  && forall u :: 0 <= u < |data| ==> run[n].calls[c].buf[u] == cfg.f(job, job.start + u, data[u]))
  {
    hide CanStart, Start, InCall, IsRun;
    var c := |run[m].calls|;
    StartCall(run[m], i, job, data);
    RunKeepsTask(cfg, run, m + 1, n, c);
    if job.derive && run[n].calls[c].flag { DerivationResult(cfg, run, n, c); }
    if !job.derive && (run[n].calls[c].stage == Released || !InCall(run[n], c)) { DoWorkResult(cfg, run, n, c); }
  }

  lemma StartCall(s: State, i: nat, job: Job, data: seq<Block>)
    requires CanStart(s, i, job, data)
    ensures var s', c := Start(s, i, job, data), |s.calls|;
            |s'.calls| == c + 1 && s'.calls[c].job == job && s'.calls[c].buf == s'.calls[c].orig == data
  {
  }

  // ----- the split into fragments -----

  /** The number of fragments, and what the next one gets. */
  predicate Fair(call: Call, workers: nat) {
    && 1 <= call.n == (if |call.orig| <= workers then |call.orig| else workers)
    && call.per == |call.orig| / call.n + (if call.rem > 0 then 1 else 0)
  }

  /** The units of an item. */
  predicate FairItem(s: State, t: nat)
    requires t < |s.items|
  {
    s.items[t].call < |s.calls| && s.calls[s.items[t].call].n >= 1 &&
    var call := s.calls[s.items[t].call];
    |call.orig| / call.n <= s.items[t].cnt <= |call.orig| / call.n + 1
  }

  ghost predicate AllFair(s: State) {
    && (forall c :: 0 <= c < |s.calls| ==> Fair(s.calls[c], |s.workers|))
    && (forall t :: 0 <= t < |s.items| ==> FairItem(s, t))
  }

  lemma StartFair(job: Job, data: seq<Block>, client: nat, workers: nat)
    requires workers >= 1 && |data| >= 1
    ensures Fair(NewCall(job, data, client, workers), workers)
  {
    if |data| <= workers { Euclid(|data|, 0, |data|, 1); }
  }

  lemma ClientFair(cfg: Config, s: State, i: nat, s': State)
    requires Pointers(cfg, s) && i < |s.clients| && ClientStep(cfg, s, i) == Some(s') && AllFair(s)
    ensures AllFair(s')
  {
    hide AllFair, FairItem;
    ClientCallsFair(cfg, s, i, s');
    ClientItemsFair(cfg, s, i, s');
    AllFairIs(s');
  }

  lemma AllFairIs(s: State)
    requires forall c :: 0 <= c < |s.calls| ==> Fair(s.calls[c], |s.workers|)
    requires forall t :: 0 <= t < |s.items| ==> FairItem(s, t)
    ensures AllFair(s)
  {
  }

  lemma ClientCallsFair(cfg: Config, s: State, i: nat, s': State)
    requires Pointers(cfg, s) && i < |s.clients| && ClientStep(cfg, s, i) == Some(s') && AllFair(s)
    ensures forall c :: 0 <= c < |s'.calls| ==> Fair(s'.calls[c], |s'.workers|)
  {
    hide ClientStep;
    ClientChanges(cfg, s, i, s');
    forall c | 0 <= c < |s'.calls| ensures Fair(s'.calls[c], |s'.workers|) { assert Fair(s.calls[c], |s.workers|); }
  }

  lemma ClientItemsFair(cfg: Config, s: State, i: nat, s': State)
    requires Pointers(cfg, s) && i < |s.clients| && ClientStep(cfg, s, i) == Some(s') && AllFair(s)
    ensures forall t :: 0 <= t < |s'.items| ==> FairItem(s', t)
  {
    hide ClientStep, NextLocals;
    ClientChanges(cfg, s, i, s');
    ClientKeepsTasks(cfg, s, i, s');
    forall t | 0 <= t < |s'.items| ensures FairItem(s', t) {
      if t < |s.items| {
        assert FairItem(s, t);
      } else {
        assert Fair(s.calls[s.clients[i].call], |s.workers|);
      }
    }
  }

  lemma WorkerFair(cfg: Config, s: State, w: nat, s': State)
    requires Pointers(cfg, s) && w < |s.workers| && WorkerStep(cfg, s, w) == Some(s') && AllFair(s)
    ensures AllFair(s')
  {
    hide WorkerStep;
    WorkerKeepsTasks(cfg, s, w, s');
    forall c | 0 <= c < |s'.calls| ensures Fair(s'.calls[c], |s'.workers|) { assert Fair(s.calls[c], |s.workers|); }
    forall t | 0 <= t < |s'.items| ensures FairItem(s', t) { assert FairItem(s, t); }
  }

  lemma {:induction false} RunFair(cfg: Config, run: seq<State>, n: nat)
    requires IsRun(cfg, run) && n < |run|
    ensures AllFair(run[n])
    decreases n
  {
    hide ClientStep, WorkerStep, AllFair;
    if n == 0 {
      AllFairIs(run[0]);
    } else {
      RunFair(cfg, run, n - 1);
      NextFair(cfg, run[n - 1], run[n]);
    }
  }

  lemma NextFair(cfg: Config, s: State, s': State)
    requires Pointers(cfg, s) && Next(cfg, s, s') && AllFair(s)
    ensures AllFair(s')
  {
    hide ClientStep, WorkerStep, AllFair;
    if i, job, data :| CanStart(s, i, job, data) && s' == Start(s, i, job, data) {
      StartAllFair(s, i, job, data, s');
    } else if i: nat :| i < |s.clients| && ClientStep(cfg, s, i) == Some(s') {
      ClientFair(cfg, s, i, s');
    } else {
      var w: nat :| w < |s.workers| && WorkerStep(cfg, s, w) == Some(s');
      WorkerFair(cfg, s, w, s');
    }
  }

  lemma StartAllFair(s: State, i: nat, job: Job, data: seq<Block>, s': State)
    requires CanStart(s, i, job, data) && s' == Start(s, i, job, data) && AllFair(s)
    ensures AllFair(s')
  {
    StartFair(job, data, i, |s.workers|);
    forall t | 0 <= t < |s'.items| ensures FairItem(s', t) { assert FairItem(s, t); }
  }

  /** A call is split among all workers, or into single units if it has fewer, and the
      fragments differ by at most one unit. */
  lemma FragmentsEven(cfg: Config, run: seq<State>, n: nat, t: nat)
    requires IsRun(cfg, run) && n < |run| && t < |run[n].items|
    ensures run[n].items[t].call < |run[n].calls|
    ensures var call, workers := run[n].calls[run[n].items[t].call], |run[n].workers|;
            && call.n == (if |call.orig| < workers then |call.orig| else workers) >= 1
            && |call.orig| / call.n <= run[n].items[t].cnt <= |call.orig| / call.n + 1
  {
    RunFair(cfg, run, n);
    assert FairItem(run[n], t);
  }

  // ----- the completion of a derivation -----

  /** The worker of a derivation is past the place where its completion is signalled. */
  predicate FlagDue(s: State, t: nat) {
    && t < |s.items| && s.items[t].call < |s.calls| && s.calls[s.items[t].call].job.derive
    && t < |s.taken| && (Active(s, t) ==> At(s, t).Vacate? || At(s, t).Report?)
  }

  ghost predicate Flagged(s: State) {
    forall t {:trigger FlagDue(s, t)} :: 0 <= t && FlagDue(s, t) ==> s.calls[s.items[t].call].flag
  }

  lemma StartFlagged(s: State, i: nat, job: Job, data: seq<Block>, s': State)
    requires CanStart(s, i, job, data) && s' == Start(s, i, job, data) && Flagged(s)
    requires forall t :: 0 <= t < |s.items| ==> s.items[t].call < |s.calls|
    ensures Flagged(s')
  {
    forall t {:trigger FlagDue(s', t)} | 0 <= t && FlagDue(s', t) ensures s'.calls[s'.items[t].call].flag {
      assert FlagDue(s, t);
    }
  }

  lemma ClientFlagged(cfg: Config, s: State, i: nat, s': State)
    requires Inv(cfg, s) && Pointers(cfg, s) && i < |s.clients| && ClientStep(cfg, s, i) == Some(s') && Flagged(s)
    ensures Flagged(s')
  {
    hide ClientStep;
    ClientKeepsTasks(cfg, s, i, s');
    forall t {:trigger FlagDue(s', t)} | 0 <= t && FlagDue(s', t) ensures s'.calls[s'.items[t].call].flag {
      assert |s.taken| <= |s.items|;
      assert s'.items[t] == s'.items[..|s.items|][t] == s.items[t];
      assert ItemInv(cfg, s, t);
      assert FlagDue(s, t);
    }
  }

  /** The worker that signals the completion does so for the call of its ticket. */
  lemma FlagIsOwn(cfg: Config, s: State, w: nat, s': State)
    requires Inv(cfg, s) && Pointers(cfg, s) && w < |s.workers| && s.workers[w].pc == Flag && WorkerStep(cfg, s, w) == Some(s')
    ensures s.workers[w].ticket < |s.items| && s.items[s.workers[w].ticket].call < |s'.calls|
    ensures s'.calls[s.items[s.workers[w].ticket].call].flag
  {
    hide ClientInv, CallInv, SlotInv, CallerWakes, WorkerWakes;
    assert WorkerInv(cfg, s, w);
    StillThere(cfg, s, w);
  }

  /** A worker gets past that place only by signalling the completion. */
  lemma WorkerPath(cfg: Config, s: State, w: nat, s': State)
    requires Inv(cfg, s) && Pointers(cfg, s) && w < |s.workers| && WorkerStep(cfg, s, w) == Some(s')
    ensures |s'.workers| == |s.workers| && s'.items == s.items
    ensures s'.workers == s.workers[w := s'.workers[w]]
    ensures s'.taken == s.taken || (s'.taken == s.taken + [w] && s'.workers[w].pc == Unlock && s'.workers[w].ticket == |s.taken|)
    ensures Claimed(s'.workers[w].pc) ==> s'.workers[w].ticket == s.workers[w].ticket
    ensures var pc, pc' := s.workers[w].pc, s'.workers[w].pc;
            Claimed(pc) && s.workers[w].ticket < |s.items| && s.items[s.workers[w].ticket].call < |s.calls|
            && s.calls[s.items[s.workers[w].ticket].call].job.derive && (!Claimed(pc') || pc'.Vacate? || pc'.Report?)
            ==> pc.Flag? || pc.Vacate? || pc.Report?
  {
    hide Inv, WorkerStep, ThreadPool.RunStep, ThreadPool.DecrementStep;
    WorkerTicket(cfg, s, w);
    StepIs(cfg, s, w);
    if s.workers[w].pc.Run? { RunPath(cfg, s, w, s'); }
    else if s.workers[w].pc.Decrement? { DecrementPath(cfg, s, w, s'); }
    else if Early(s.workers[w].pc) { EarlyPath(cfg, s, w, s'); }
    else { LatePath(cfg, s, w, s'); }
  }

  /** Before the worker processes what it has taken. */
  predicate Early(pc: WorkerPc) { pc.Loop? || pc.Take? || pc.Inspect? || pc.Doze? || pc.Claim? || pc.Unlock? }

  lemma EarlyPath(cfg: Config, s: State, w: nat, s': State)
    requires Inv(cfg, s) && Pointers(cfg, s) && w < |s.workers| && WorkerStep(cfg, s, w) == Some(s')
    requires Early(s.workers[w].pc)
    ensures |s'.workers| == |s.workers| && s'.items == s.items
    ensures s'.workers == s.workers[w := s'.workers[w]]
    ensures s'.taken == s.taken || (s'.taken == s.taken + [w] && s'.workers[w].pc == Unlock && s'.workers[w].ticket == |s.taken|)
    ensures Claimed(s'.workers[w].pc) ==> s'.workers[w].ticket == s.workers[w].ticket
    ensures var pc, pc' := s.workers[w].pc, s'.workers[w].pc;
            Claimed(pc) && s.workers[w].ticket < |s.items| && s.items[s.workers[w].ticket].call < |s.calls|
            && s.calls[s.items[s.workers[w].ticket].call].job.derive && (!Claimed(pc') || pc'.Vacate? || pc'.Report?)
            ==> pc.Flag? || pc.Vacate? || pc.Report?
  {
    hide Inv, Pointers, Advance, ThreadPool.RunStep, ThreadPool.DecrementStep;
    WorkerTicket(cfg, s, w);
  }

  lemma LatePath(cfg: Config, s: State, w: nat, s': State)
    requires Inv(cfg, s) && Pointers(cfg, s) && w < |s.workers| && WorkerStep(cfg, s, w) == Some(s')
    requires var pc := s.workers[w].pc; !Early(pc) && !pc.Run? && !pc.Decrement?
    ensures |s'.workers| == |s.workers| && s'.items == s.items
    ensures s'.workers == s.workers[w := s'.workers[w]]
    ensures s'.taken == s.taken || (s'.taken == s.taken + [w] && s'.workers[w].pc == Unlock && s'.workers[w].ticket == |s.taken|)
    ensures Claimed(s'.workers[w].pc) ==> s'.workers[w].ticket == s.workers[w].ticket
    ensures var pc, pc' := s.workers[w].pc, s'.workers[w].pc;
            Claimed(pc) && s.workers[w].ticket < |s.items| && s.items[s.workers[w].ticket].call < |s.calls|
            && s.calls[s.items[s.workers[w].ticket].call].job.derive && (!Claimed(pc') || pc'.Vacate? || pc'.Report?)
            ==> pc.Flag? || pc.Vacate? || pc.Report?
  {
    hide Inv, Pointers, Advance, ThreadPool.RunStep, ThreadPool.DecrementStep;
    WorkerTicket(cfg, s, w);
  }

  lemma RunPath(cfg: Config, s: State, w: nat, s': State)
    requires Pointers(cfg, s) && w < |s.workers| && ThreadPool.RunStep(cfg, s, w) == Some(s')
    ensures |s'.workers| == |s.workers| && s'.items == s.items && s'.taken == s.taken && s'.workers == s.workers[w := s'.workers[w]]
    ensures s'.workers[w].ticket == s.workers[w].ticket
    ensures s.slots[s.workers[w].slot].work.Some? && s.slots[s.workers[w].slot].work.value.call < |s.calls|
    ensures s.calls[s.slots[s.workers[w].slot].work.value.call].job.derive ==>
              s'.workers[w].pc == s.workers[w].pc || s'.workers[w].pc == Flag
  {
  }

  lemma DecrementPath(cfg: Config, s: State, w: nat, s': State)
    requires Pointers(cfg, s) && w < |s.workers| && ThreadPool.DecrementStep(cfg, s, w) == Some(s')
    ensures |s'.workers| == |s.workers| && s'.items == s.items && s'.taken == s.taken && s'.workers == s.workers[w := s'.workers[w]]
    ensures s'.workers[w].ticket == s.workers[w].ticket
  {
  }

  lemma WorkerTicket(cfg: Config, s: State, w: nat)
    requires Inv(cfg, s) && w < |s.workers|
    ensures s.workers[w].pc == Claim ==> s.workers[w].ticket == |s.taken|
    ensures Claimed(s.workers[w].pc) ==> s.workers[w].ticket < |s.items| && s.items[s.workers[w].ticket].call < |s.calls|
    ensures Claimed(s.workers[w].pc) && s.calls[s.items[s.workers[w].ticket].call].job.derive ==>
              var pc := s.workers[w].pc; pc.Unlock? || pc.Run? || pc.Flag? || pc.Vacate? || pc.Report?
    ensures Claimed(s.workers[w].pc) && s.workers[w].pc != Report ==>
              s.workers[w].slot < |s.slots| && s.slots[s.workers[w].slot].work == Some(s.items[s.workers[w].ticket])
  {
    hide ClientInv, CallInv, SlotInv, CallerWakes, WorkerWakes;
    assert WorkerInv(cfg, s, w);
    if Claimed(s.workers[w].pc) {
      assert ItemInv(cfg, s, s.workers[w].ticket);
      if s.workers[w].pc != Report { StillThere(cfg, s, w); }
    }
  }

  lemma WorkerFlagged(cfg: Config, s: State, w: nat, s': State)
    requires Inv(cfg, s) && Pointers(cfg, s) && w < |s.workers| && WorkerStep(cfg, s, w) == Some(s') && Flagged(s)
    ensures Flagged(s')
  {
    hide WorkerStep, CallInv, ClientInv, SlotInv, CallerWakes, WorkerWakes, ItemInv, Keeps;
    WorkerPath(cfg, s, w, s');
    WorkerKeepsTasks(cfg, s, w, s');
    if s.workers[w].pc == Flag { FlagIsOwn(cfg, s, w, s'); }
    forall t {:trigger FlagDue(s', t)} | 0 <= t && FlagDue(s', t) ensures s'.calls[s'.items[t].call].flag {
      WorkerFlagKept(cfg, s, w, s', t);
    }
  }

  lemma WorkerFlagKept(cfg: Config, s: State, w: nat, s': State, t: nat)
    requires Inv(cfg, s) && Pointers(cfg, s) && w < |s.workers| && WorkerStep(cfg, s, w) == Some(s') && Flagged(s) && Keeps(s, s')
    requires |s'.workers| == |s.workers| && s'.items == s.items && s'.workers == s.workers[w := s'.workers[w]]
    requires s'.taken == s.taken || (s'.taken == s.taken + [w] && s'.workers[w].pc == Unlock && s'.workers[w].ticket == |s.taken|)
    requires Claimed(s'.workers[w].pc) ==> s'.workers[w].ticket == s.workers[w].ticket
    requires var pc, pc' := s.workers[w].pc, s'.workers[w].pc;
             Claimed(pc) && s.workers[w].ticket < |s.items| && s.items[s.workers[w].ticket].call < |s.calls|
             && s.calls[s.items[s.workers[w].ticket].call].job.derive && (!Claimed(pc') || pc'.Vacate? || pc'.Report?)
             ==> pc.Flag? || pc.Vacate? || pc.Report?
    requires s.workers[w].pc == Flag && s.workers[w].ticket == t ==>
               t < |s.items| && s.items[t].call < |s'.calls| && s'.calls[s.items[t].call].flag
    requires FlagDue(s', t)
    ensures s'.calls[s'.items[t].call].flag
  {
    hide WorkerStep, CallInv, ClientInv, SlotInv, CallerWakes, WorkerWakes;
    assert ItemInv(cfg, s, t);
    if t < |s.taken| && !(Active(s, t) && s.taken[t] == w && s.workers[w].pc == Flag) {
      assert FlagDue(s, t);
    }
  }

  lemma {:induction false} RunFlagged(cfg: Config, run: seq<State>, n: nat)
    requires IsRun(cfg, run) && n < |run|
    ensures Flagged(run[n])
    decreases n
  {
    hide Flagged, Inv, Next;
    RunInv(cfg, run, n);
    if n == 0 {
      InitFlagged(cfg, run[0]);
    } else {
      RunFlagged(cfg, run, n - 1);
      RunInv(cfg, run, n - 1);
      NextFlagged(cfg, run[n - 1], run[n]);
    }
  }

  lemma InitFlagged(cfg: Config, s: State)
    requires Init(cfg, s)
    ensures Flagged(s)
  {
  }

  lemma NextFlagged(cfg: Config, s: State, s': State)
    requires Inv(cfg, s) && Pointers(cfg, s) && Next(cfg, s, s') && Flagged(s)
    ensures Flagged(s')
  {
    hide ClientStep, WorkerStep, Flagged;
    if i, job, data :| CanStart(s, i, job, data) && s' == Start(s, i, job, data) {
      forall t | 0 <= t < |s.items| ensures s.items[t].call < |s.calls| { assert ItemInv(cfg, s, t); }
      StartFlagged(s, i, job, data, s');
    } else if i: nat :| i < |s.clients| && ClientStep(cfg, s, i) == Some(s') {
      ClientFlagged(cfg, s, i, s');
    } else {
      var w: nat :| w < |s.workers| && WorkerStep(cfg, s, w) == Some(s');
      WorkerFlagged(cfg, s, w, s');
    }
  }

  /** Before the worker of a derivation gives up its slot, it has signalled the completion. */
  lemma DerivationSignalled(cfg: Config, run: seq<State>, n: nat, t: nat)
    requires IsRun(cfg, run) && n < |run| && t < |run[n].taken| && t < |run[n].items| && run[n].items[t].call < |run[n].calls|
    requires run[n].calls[run[n].items[t].call].job.derive
    requires Active(run[n], t) ==> At(run[n], t).Vacate? || At(run[n], t).Report?
    ensures run[n].calls[run[n].items[t].call].flag && Processed(cfg, run[n].calls[run[n].items[t].call])
  {
    RunFlagged(cfg, run, n);
    assert FlagDue(run[n], t);
    DerivationResult(cfg, run, n, run[n].items[t].call);
  }
}
