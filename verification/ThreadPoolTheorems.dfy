/** What the thread pool guarantees, in every interleaving of any number of callers and
    workers. */
module ThreadPoolTheorems {
  import opened Division
  import opened ThreadPool
  import opened ThreadPoolInvariant
  import opened ThreadPoolSteps
  import opened ThreadPoolWork
  import opened ThreadPoolCallers

  /** A run of the pool: each state follows from the one before. */
  ghost predicate IsRun(cfg: Config, run: seq<State>) {
    && run != [] && Init(cfg, run[0])
    && forall n :: 0 <= n < |run| - 1 ==> Pointers(cfg, run[n]) && Next(cfg, run[n], run[n + 1])
  }

  lemma InitInv(cfg: Config, s: State)
    requires Init(cfg, s)
    ensures Inv(cfg, s)
  {
    forall k | 0 <= k < |s.slots| ensures SlotInv(cfg, s, k) { assert s.slots[k] == Slot(Free, None, 0, 0, false, None); }
  }

  lemma NextInv(cfg: Config, s: State, s': State)
    requires Inv(cfg, s) && Pointers(cfg, s) && Next(cfg, s, s')
    ensures Inv(cfg, s')
  {
    if i, job, data :| CanStart(s, i, job, data) && s' == Start(s, i, job, data) {
      StartStep(cfg, s, i, job, data, s');
    } else if i: nat :| i < |s.clients| && ClientStep(cfg, s, i) == Some(s') {
      CallerKeeps(cfg, s, i, s');
    } else {
      var w: nat :| w < |s.workers| && WorkerStep(cfg, s, w) == Some(s');
      WorkerKeeps(cfg, s, w, s');
    }
  }

  /** Every state of every run satisfies the invariant; in particular the indices that
      the program uses are in range, so that `Next` is defined. */
  lemma {:induction false} RunInv(cfg: Config, run: seq<State>, n: nat)
    requires IsRun(cfg, run) && n < |run|
    ensures Inv(cfg, run[n]) && Pointers(cfg, run[n])
    decreases n
  {
    if n == 0 { InitInv(cfg, run[0]); } else { RunInv(cfg, run, n - 1); NextInv(cfg, run[n - 1], run[n]); }
    PointersOk(cfg, run[n]);
  }

  // ----- a slot is not reused too early -----

  /** The slot of any fragment is refilled only after the first slot of its group has
      been freed by the caller, when all fragments have been counted down. */
  lemma NotRefilled(cfg: Config, run: seq<State>, n: nat, t: nat)
    requires IsRun(cfg, run) && n < |run| && t < |run[n].items| && run[n].items[t].call < |run[n].calls|
    requires var call := run[n].calls[run[n].items[t].call]; !call.job.derive && call.stage != Released
    ensures var first := run[n].calls[run[n].items[t].call].first;
            first <= t && |run[n].items| <= first + cfg.size
  {
    RunInv(cfg, run, n);
    FirstThere(cfg, run[n], t);
  }

  /** Whenever a worker reads `FirstFragment`, also after it has freed its own slot, the
      slot still holds its fragment, and `FirstFragment` leads to the slot with the count
      and the event of the group that the fragment belongs to. */
  lemma FirstFragmentRead(cfg: Config, run: seq<State>, n: nat, w: nat)
    requires IsRun(cfg, run) && n < |run| && w < |run[n].workers|
    requires var pc := run[n].workers[w].pc; pc == Finish || pc == Notify || pc == Decrement || pc == Complete
    ensures var s, k := run[n], run[n].workers[w];
            && k.slot < |s.slots| && k.ticket < |s.items| && s.slots[k.slot].work == Some(s.items[k.ticket])
            && s.slots[k.slot].first < |s.slots| && s.slots[s.slots[k.slot].first].own == Some(s.items[k.ticket].call)
  {
    var s := run[n];
    RunInv(cfg, run, n);
    StillThere(cfg, s, w);
    var t := s.workers[w].ticket;
    assert WorkerInv(cfg, s, w) && ItemInv(cfg, s, t);
    var c := s.items[t].call;
    assert CallInv(cfg, s, c);
    assert Active(s, t);
    assert t in s.calls[c].left <==> !CountedFor(s, t, c);
  }

  // ----- the result of a call -----

  /** The buffer that a single thread would leave. */
  ghost predicate Processed(cfg: Config, call: Call) {
    && |call.buf| == |call.orig| == |call.times|
    && forall u :: 0 <= u < |call.buf| ==>
         call.times[u] == 1 && call.buf[u] == cfg.f(call.job, call.job.start + u, call.orig[u])
  }

  /** When DoWork returns, each unit has been processed exactly once, under its own
      number; it stays so. */
  lemma DoWorkResult(cfg: Config, run: seq<State>, n: nat, c: nat)
    requires IsRun(cfg, run) && n < |run| && c < |run[n].calls| && !run[n].calls[c].job.derive
    requires run[n].calls[c].stage == Released || !InCall(run[n], c)
    ensures Processed(cfg, run[n].calls[c])
  {
    var s := run[n];
    RunInv(cfg, run, n);
    var call := s.calls[c];
    assert CallInv(cfg, s, c);
    if InCall(s, c) { assert ClientInv(cfg, s, call.client); }
    forall u | 0 <= u < |call.buf|
      ensures call.times[u] == 1 && call.buf[u] == cfg.f(call.job, call.job.start + u, call.orig[u])
    {
      assert UnitInv(cfg, s, c, u);
      var t := call.cover[u];
      assert ItemInv(cfg, s, t);
      assert t !in call.left && CountedFor(s, t, c);
    }
  }

  /** When a derivation sets its flag, the key has been derived, once. */
  lemma DerivationResult(cfg: Config, run: seq<State>, n: nat, c: nat)
    requires IsRun(cfg, run) && n < |run| && c < |run[n].calls| && run[n].calls[c].flag
    ensures Processed(cfg, run[n].calls[c])
  {
    var s := run[n];
    RunInv(cfg, run, n);
    assert CallInv(cfg, s, c) && UnitInv(cfg, s, c, 0);
  }

  /** A unit is never processed twice, nor touched before it is processed. */
  lemma AtMostOnce(cfg: Config, run: seq<State>, n: nat, c: nat, u: nat)
    requires IsRun(cfg, run) && n < |run| && c < |run[n].calls| && u < |run[n].calls[c].orig|
    ensures var call := run[n].calls[c];
            && |call.buf| == |call.times| == |call.orig|
            && ((call.times[u] == 0 && call.buf[u] == call.orig[u])
                || (call.times[u] == 1 && call.buf[u] == cfg.f(call.job, call.job.start + u, call.orig[u])))
  {
    RunInv(cfg, run, n);
    assert CallInv(cfg, run[n], c) && UnitInv(cfg, run[n], c, u);
  }

  // ----- no deadlock -----

  /** Some caller or worker can take a step. */
  ghost predicate CanStep(cfg: Config, s: State)
    requires Pointers(cfg, s)
  {
    || (exists i: nat :: i < |s.clients| && ClientStep(cfg, s, i).Some?)
    || (exists w: nat :: w < |s.workers| && WorkerStep(cfg, s, w).Some?)
  }

  /** Something remains to be done: a caller is in a call or a slot is in use. */
  ghost predicate Unfinished(s: State) {
    || (exists i :: 0 <= i < |s.clients| && s.clients[i].pc != Idle)
    || (exists k :: 0 <= k < |s.slots| && s.slots[k].state != Free)
  }

  /** The steps in which a worker can be blocked. */
  lemma WorkerRuns(cfg: Config, s: State, w: nat)
    requires Inv(cfg, s) && Pointers(cfg, s) && w < |s.workers| && WorkerStep(cfg, s, w) == None
    ensures (s.workers[w].pc == Loop && s.deqMutex.Some?) || (s.workers[w].pc == Doze && !s.readyEvent)
  {
    assert WorkerInv(cfg, s, w);
    if Claimed(s.workers[w].pc) && s.workers[w].pc != Report {
      StillThere(cfg, s, w);
      var t := s.workers[w].ticket;
      assert ItemInv(cfg, s, t);
      assert CallInv(cfg, s, s.items[t].call);
      assert Active(s, t);
      assert t in s.calls[s.items[t].call].left <==> s.calls[s.items[t].call].stage != Uncounted && !CountedFor(s, t, s.items[t].call);
      if s.workers[w].pc == Run { RunInRange(cfg, s, w); }
    }
  }

  lemma RunInRange(cfg: Config, s: State, w: nat)
    requires Inv(cfg, s) && Pointers(cfg, s) && w < |s.workers| && s.workers[w].pc == Run
    ensures WorkerStep(cfg, s, w).Some?
  {
    assert WorkerInv(cfg, s, w);
    StillThere(cfg, s, w);
    var t := s.workers[w].ticket;
    assert ItemInv(cfg, s, t);
    assert CallInv(cfg, s, s.items[t].call);
  }

  /** If no worker can take a step, then all items made ready have been processed, and
      their slots are not ready. */
  lemma WorkersStuck(cfg: Config, s: State)
    requires Inv(cfg, s) && Pointers(cfg, s) && forall w: nat :: w < |s.workers| ==> WorkerStep(cfg, s, w) == None
    requires s.enqMutex.None? || (s.enqMutex.value < |s.clients| && s.clients[s.enqMutex.value].pc != Wake)
    ensures |s.taken| == s.pub && forall t :: 0 <= t ==> !Active(s, t)
  {
    forall w | 0 <= w < |s.workers|
      ensures (s.workers[w].pc == Loop && s.deqMutex.Some?) || (s.workers[w].pc == Doze && !s.readyEvent)
    {
      WorkerRuns(cfg, s, w);
    }
    assert s.workers[0].pc == Loop || s.workers[0].pc == Doze;
    assert WorkerInv(cfg, s, 0);
    var w := s.deqMutex.value;
    assert WorkerInv(cfg, s, w) && WorkerWakes(cfg, s, w);
    if |s.taken| < s.pub {
      assert ItemInv(cfg, s, |s.taken|);
      NotVacatedYet(cfg, s, |s.taken|);
    }
  }

  lemma NotVacatedYet(cfg: Config, s: State, t: nat)
    requires Inv(cfg, s) && |s.taken| <= t < |s.items|
    ensures s.items[t].call < |s.calls| && !Vacated(s, t)
  {
    assert ItemInv(cfg, s, t);
    var c := s.items[t].call;
    assert CallInv(cfg, s, c);
    assert t in s.calls[c].left <==> s.calls[c].stage != Uncounted && !CountedFor(s, t, c);
  }

  /** If no one can take a step, the completion of a call whose slot is in use or whose
      caller waits would be signalled. */
  lemma NotAwaiting(cfg: Config, s: State, c: nat)
    requires Inv(cfg, s) && Pointers(cfg, s) && !CanStep(cfg, s) && c < |s.calls|
    requires |s.taken| == s.pub == |s.items| && forall t :: 0 <= t ==> !Active(s, t)
    requires Todo(s, c) == 0
    ensures s.calls[c].stage == Uncounted || s.calls[c].stage == Released
  {
    var call := s.calls[c];
    assert CallInv(cfg, s, c);
    if call.stage != Uncounted && call.stage != Released {
      assert ClientInv(cfg, s, call.client);
      assert ClientStep(cfg, s, call.client) == None;
      assert SlotInv(cfg, s, call.first % cfg.size);
      if call.stage.Last? {
        assert WorkerInv(cfg, s, call.stage.worker);
        assert Active(s, s.workers[call.stage.worker].ticket);
      }
      if call.stage.Open? {
        var t :| t in call.left;
        OwnTickets(cfg, s, c, t);
        assert CountedFor(s, t, c);
      }
    }
  }

  /** The tickets of a call whose fragments are all filled are its own. */
  lemma OwnTickets(cfg: Config, s: State, c: nat, t: nat)
    requires Inv(cfg, s) && c < |s.calls| && t in s.calls[c].left && Todo(s, c) == 0
    ensures t < |s.items| && s.items[t].call == c
  {
    assert CallInv(cfg, s, c);
    assert Issued(s, t, c);
  }

  /** The last ticket below `n` that uses slot `t % q`. */
  lemma LastAt(t: nat, n: nat, q: nat) returns (r: nat)
    requires t < n && q > 0
    ensures r < n <= r + q && r % q == t % q
    decreases n - t
  {
    r := t;
    if t + q < n {
      ModShift(t, q);
      r := LastAt(t + q, n, q);
    }
  }

  /** If no one can take a step, a slot that is not free holds the first fragment of a
      call that is not complete. */
  lemma HeldByFirst(cfg: Config, s: State, t: nat)
    requires Inv(cfg, s) && t < |s.items| <= t + cfg.size && s.slots[t % cfg.size].state != Free
    requires |s.taken| == s.pub == |s.items| && forall u :: 0 <= u ==> !Active(s, u)
    ensures s.items[t].call < |s.calls| && IsFirst(s, t)
    ensures var c := s.items[t].call; InCall(s, c) && s.calls[c].stage != Released && s.calls[c].stage != Uncounted
  {
    assert ItemInv(cfg, s, t);
    assert CallInv(cfg, s, s.items[t].call);
  }

  /** Whoever announces a free slot can take a step. */
  lemma AnnouncerSteps(cfg: Config, s: State, t: nat)
    requires Inv(cfg, s) && Pointers(cfg, s) && Announced(s, t) && forall u :: 0 <= u ==> !Active(s, u)
    ensures CanStep(cfg, s)
  {
    var i := s.calls[s.items[t].call].client;
    assert ClientStep(cfg, s, i).Some?;
  }

  /** A caller that holds the mutex is blocked only by a slot in use. */
  lemma HolderStuck(cfg: Config, s: State, i: nat)
    requires Inv(cfg, s) && Pointers(cfg, s) && !CanStep(cfg, s) && s.enqMutex == Some(i)
    ensures i < |s.clients| && (s.clients[i].pc == Sleep || s.clients[i].pc == SleepFirst) && s.pub == |s.items|
    ensures |s.taken| == s.pub && forall t :: 0 <= t ==> !Active(s, t)
    ensures s.slots[|s.items| % cfg.size].state != Free
  {
    assert ClientInv(cfg, s, i) && ClientStep(cfg, s, i) == None;
    forall w: nat | w < |s.workers| ensures WorkerStep(cfg, s, w) == None { }
    WorkersStuck(cfg, s);
    assert CallerWakes(cfg, s, i);
    if |s.items| >= cfg.size && Announced(s, |s.items| - cfg.size) { AnnouncerSteps(cfg, s, |s.items| - cfg.size); }
  }

  /** A slot that has not been used is free. */
  lemma Unused(cfg: Config, s: State)
    requires Inv(cfg, s) && |s.items| < cfg.size
    ensures s.slots[|s.items| % cfg.size].state == Free
  {
    Euclid(|s.items|, |s.items|, cfg.size, 0);
    assert SlotInv(cfg, s, |s.items|);
  }

  /** The slot that the holder waits for holds an earlier call, whose caller waits for its
      completion. */
  lemma EarlierCall(cfg: Config, s: State, i: nat, t: nat)
    requires Inv(cfg, s) && s.enqMutex == Some(i) && i < |s.clients| && s.clients[i].pc != Idle
    requires t + cfg.size == |s.items| && t < |s.items| && s.items[t].call < |s.calls| && IsFirst(s, t) && InCall(s, s.items[t].call)
    requires s.calls[s.items[t].call].stage != Uncounted
    ensures Todo(s, s.items[t].call) == 0
  {
    var c := s.items[t].call;
    assert ClientInv(cfg, s, i) && CallInv(cfg, s, c) && ClientInv(cfg, s, s.calls[c].client);
  }

  /** Nor can it be blocked by that. */
  lemma HolderNotStuck(cfg: Config, s: State, i: nat)
    requires Inv(cfg, s) && Pointers(cfg, s) && s.enqMutex == Some(i)
    ensures CanStep(cfg, s)
  {
    if !CanStep(cfg, s) {
      HolderStuck(cfg, s, i);
      if |s.items| < cfg.size {
        Unused(cfg, s);
      } else {
        var t := |s.items| - cfg.size;
        ModShift(t, cfg.size);
        HeldByFirst(cfg, s, t);
        EarlierCall(cfg, s, i, t);
        NotAwaiting(cfg, s, s.items[t].call);
      }
    }
  }

  /** Without a caller in the mutex, a caller that waits or a slot in use is served. */
  lemma NoHolder(cfg: Config, s: State)
    requires Inv(cfg, s) && Pointers(cfg, s) && s.enqMutex == None && Unfinished(s)
    ensures CanStep(cfg, s)
  {
    if !CanStep(cfg, s) {
      forall w: nat | w < |s.workers| ensures WorkerStep(cfg, s, w) == None { }
      WorkersStuck(cfg, s);
      if i :| 0 <= i < |s.clients| && s.clients[i].pc != Idle {
        NotInCall(cfg, s, i);
      } else {
        var k :| 0 <= k < |s.slots| && s.slots[k].state != Free;
        assert SlotInv(cfg, s, k);
        var t := LastAt(k, |s.items|, cfg.size);
        Euclid(k, k, cfg.size, 0);
        HeldByFirst(cfg, s, t);
        var c := s.items[t].call;
        NotInCall(cfg, s, s.calls[c].client);
      }
    }
  }

  lemma NotInCall(cfg: Config, s: State, i: nat)
    requires Inv(cfg, s) && Pointers(cfg, s) && s.enqMutex == None && !CanStep(cfg, s) && i < |s.clients|
    requires |s.taken| == s.pub == |s.items| && forall u :: 0 <= u ==> !Active(s, u)
    ensures s.clients[i].pc == Idle
  {
    assert ClientInv(cfg, s, i) && ClientStep(cfg, s, i) == None;
    if s.clients[i].pc != Idle { NotAwaiting(cfg, s, s.clients[i].call); }
  }

  /** No state of any run in which something remains to be done is deadlocked. */
  lemma NoDeadlock(cfg: Config, run: seq<State>, n: nat)
    requires IsRun(cfg, run) && n < |run|
    ensures Pointers(cfg, run[n]) && (Unfinished(run[n]) ==> CanStep(cfg, run[n]))
  {
    RunInv(cfg, run, n);
    if Unfinished(run[n]) {
      if run[n].enqMutex.Some? { HolderNotStuck(cfg, run[n], run[n].enqMutex.value); } else { NoHolder(cfg, run[n]); }
    }
  }
}
