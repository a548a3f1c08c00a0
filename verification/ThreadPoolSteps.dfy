/** Every step of the thread pool keeps the invariant. */
module ThreadPoolSteps {
  import opened Division
  import opened ThreadPool
  import opened ThreadPoolInvariant

  // ----- positions in the ring -----

  lemma AdvanceMod(a: nat, q: nat)
    requires q >= 2
    ensures Advance(a % q, q) == (a + 1) % q
  {
    assert a == q * (a / q) + a % q;
    if a % q + 1 >= q {
      assert q * (a / q + 1) == q * (a / q) + q;
      Euclid(a + 1, 0, q, a / q + 1);
    } else {
      Euclid(a + 1, a % q + 1, q, a / q);
    }
  }

  // ----- consequences of the invariant -----

  lemma PointersOk(cfg: Config, s: State)
    requires Inv(cfg, s)
    ensures Pointers(cfg, s)
  {
    forall c | 0 <= c < |s.calls| ensures s.calls[c].slot < cfg.size && s.calls[c].firstSlot < cfg.size { assert CallInv(cfg, s, c); }
    forall i | 0 <= i < |s.clients| && s.clients[i].pc != Idle ensures s.clients[i].call < |s.calls| { assert ClientInv(cfg, s, i); }
    forall w | 0 <= w < |s.workers| ensures s.workers[w].slot < cfg.size { assert WorkerInv(cfg, s, w); }
    forall k | 0 <= k < |s.slots| ensures s.slots[k].first < cfg.size { assert SlotInv(cfg, s, k); }
  }

  // ----- steps of a worker that change nothing else -----

  /** Nothing that other parts of the state rely on has changed about the tickets. */
  ghost predicate SameTickets(s: State, s': State) {
    && s'.taken == s.taken && s'.items == s.items && |s'.calls| == |s.calls|
    && (forall t {:trigger Progress(s', t)} :: 0 <= t < |s.items| ==> Progress(s', t) == Progress(s, t))
    && (forall t {:trigger Vacated(s', t)} :: 0 <= t < |s.items| && s.items[t].call < |s.calls| ==> Vacated(s', t) == Vacated(s, t))
    && (forall t {:trigger Counted(s', t)} :: 0 <= t < |s.items| && s.items[t].call < |s.calls| && !s.calls[s.items[t].call].job.derive ==>
          Counted(s', t) == Counted(s, t))
  }

  lemma StillConsecutive(s: State, s': State, c: nat)
    requires c < |s.calls| && c < |s'.calls| && Consecutive(s, c) && Todo(s', c) == Todo(s, c)
    requires s'.calls[c].first == s.calls[c].first && s'.calls[c].n == s.calls[c].n
    requires |s.items| <= |s'.items| && s'.items[..|s.items|] == s.items
    ensures Consecutive(s', c)
  {
    forall t {:trigger Issued(s', t, c)} | 0 <= t && s.calls[c].first <= t && t + Todo(s, c) < s.calls[c].first + s.calls[c].n
      ensures Issued(s', t, c)
    {
      assert Issued(s, t, c);
      assert s'.items[..|s.items|][t] == s.items[t];
    }
  }

  /** The units of a call are as before if its data and its tickets are. */
  lemma SameUnits(cfg: Config, s: State, s': State, c: nat)
    requires c < |s.calls| && c < |s'.calls| && CallInv(cfg, s, c)
    requires s'.calls[c].orig == s.calls[c].orig && s'.calls[c].buf == s.calls[c].buf && s'.calls[c].times == s.calls[c].times
    requires s'.calls[c].cover == s.calls[c].cover && s'.calls[c].job == s.calls[c].job
    requires |s.items| <= |s'.items| && s'.items[..|s.items|] == s.items
    requires forall t {:trigger Progress(s', t)} :: 0 <= t < |s.items| && s.items[t].call == c ==> Progress(s', t) == Progress(s, t)
    ensures var call := s'.calls[c];
            |call.orig| == |call.buf| == |call.times| && forall u :: 0 <= u < |call.orig| ==> UnitInv(cfg, s', c, u)
  {
    hide Progress;
    forall t | 0 <= t < |s.items| ensures s'.items[t] == s.items[t] { assert s'.items[..|s.items|][t] == s.items[t]; }
    forall u | 0 <= u < |s.calls[c].orig| ensures UnitInv(cfg, s', c, u) {
      assert UnitInv(cfg, s, c, u);
      if u < |s.calls[c].cover| { assert Progress(s', s.calls[c].cover[u]) == Progress(s, s.calls[c].cover[u]); }
    }
  }

  /** A call is as before if it and its tickets are. */
  lemma SameCall(cfg: Config, s: State, s': State, c: nat)
    requires c < |s.calls| && c < |s'.calls| && CallInv(cfg, s, c) && s'.calls[c] == s.calls[c]
    requires |s'.clients| == |s.clients| && InCall(s', c) == InCall(s, c) && Todo(s', c) == Todo(s, c)
    requires |s.items| <= |s'.items| && s'.items[..|s.items|] == s.items
    requires forall t {:trigger Progress(s', t)} :: 0 <= t < |s.items| && s.items[t].call == c ==> Progress(s', t) == Progress(s, t)
    requires !s.calls[c].job.derive ==>
               forall t {:trigger CountedFor(s', t, c)} :: 0 <= t ==> CountedFor(s', t, c) == CountedFor(s, t, c)
    requires var stage := s.calls[c].stage; stage != Uncounted && stage != Released ==>
               |s'.slots| == |s.slots| && s'.slots[s.calls[c].first % cfg.size].own == s.slots[s.calls[c].first % cfg.size].own
    requires s.calls[c].stage.Last? ==> Completes(s', s.calls[c].stage.worker, c)
    ensures CallInv(cfg, s', c)
  {
    var call := s.calls[c];
    forall t | 0 <= t < |s.items| ensures s'.items[t] == s.items[t] { assert s'.items[..|s.items|][t] == s.items[t]; }
    SameUnits(cfg, s, s', c);
    StillConsecutive(s, s', c);
    assert call.flag ==> Progress(s', call.cover[0]) == Progress(s, call.cover[0]) by {
      if call.flag { assert UnitInv(cfg, s, c, 0); }
    }
  }

  lemma SameRest(cfg: Config, s: State, s': State)
    requires Inv(cfg, s) && SameTickets(s, s')
    requires s'.slots == s.slots && s'.clients == s.clients && s'.calls == s.calls
    requires s'.enq == s.enq && s'.pub == s.pub && s'.enqMutex == s.enqMutex
    requires forall w, c :: Completes(s, w, c) ==> Completes(s', w, c)
    ensures forall i :: 0 <= i < |s'.clients| ==> ClientInv(cfg, s', i)
    ensures forall c :: 0 <= c < |s'.calls| ==> CallInv(cfg, s', c)
    ensures forall t :: 0 <= t < |s'.items| ==> ItemInv(cfg, s', t)
    ensures forall k :: 0 <= k < |s'.slots| ==> SlotInv(cfg, s', k)
  {
    forall i | 0 <= i < |s'.clients| ensures ClientInv(cfg, s', i) { assert ClientInv(cfg, s, i); }
    forall c | 0 <= c < |s'.calls| ensures CallInv(cfg, s', c) {
      assert CallInv(cfg, s, c);
      SameCall(cfg, s, s', c);
    }
    forall t | 0 <= t < |s'.items| ensures ItemInv(cfg, s', t) { assert ItemInv(cfg, s, t); }
    forall k | 0 <= k < |s'.slots| ensures SlotInv(cfg, s', k) { assert SlotInv(cfg, s, k); }
  }

  /** The other workers are where they were. */
  lemma OtherWorkers(cfg: Config, s: State, w: nat, s': State)
    requires Inv(cfg, s) && w < |s.workers| == |s'.workers| && s'.taken == s.taken && s'.items == s.items && s'.calls == s.calls
    requires forall v :: 0 <= v < |s.workers| && v != w ==> s'.workers[v] == s.workers[v]
    requires s'.pub >= s.pub
    requires s'.deq == s.deq || s.deqMutex == Some(w)
    requires s'.deqMutex == s.deqMutex || (s.deqMutex.None? && s'.deqMutex == Some(w)) || (s.deqMutex == Some(w) && s'.deqMutex.None?)
    ensures forall v :: 0 <= v < |s.workers| && v != w ==> WorkerInv(cfg, s', v)
  {
    forall v | 0 <= v < |s.workers| && v != w ensures WorkerInv(cfg, s', v) { assert WorkerInv(cfg, s, v); }
  }

  /** A step of one worker that leaves calls, slots and tickets alone. */
  lemma Quiet(cfg: Config, s: State, w: nat, s': State)
    requires Inv(cfg, s) && w < |s.workers| == |s'.workers| && SameTickets(s, s')
    requires s' == s.(workers := s.workers[w := s'.workers[w]], deqPos := s'.deqPos, deq := s'.deq, deqMutex := s'.deqMutex,
                      readyEvent := s'.readyEvent, completedEvent := s'.completedEvent)
    requires s.workers[w].pc != Complete
    requires s'.deq == s.deq || s.deqMutex == Some(w)
    requires s'.deqMutex == s.deqMutex || (s.deqMutex.None? && s'.deqMutex == Some(w)) || (s.deqMutex == Some(w) && s'.deqMutex.None?)
    requires Counters(cfg, s') && WorkerInv(cfg, s', w) && WorkerWakes(cfg, s', w)
    requires s'.completedEvent || (s.completedEvent == s'.completedEvent && s.workers[w].pc != Notify && s.workers[w].pc != Report)
    requires s'.readyEvent == s.readyEvent || s.deqMutex == Some(w)
    ensures Inv(cfg, s')
  {
    hide CallInv, ClientInv, SlotInv, ItemInv;
    SameRest(cfg, s, s');
    OtherWorkers(cfg, s, w, s');
    forall i | 0 <= i < |s'.clients| ensures CallerWakes(cfg, s', i) {
      assert CallerWakes(cfg, s, i);
      if |s.items| >= cfg.size && !s'.completedEvent && Announced(s, |s.items| - cfg.size) { StillAnnounced(cfg, s, w, s', |s.items| - cfg.size); }
    }
    forall v | 0 <= v < |s'.workers| ensures WorkerWakes(cfg, s', v) {
      assert WorkerWakes(cfg, s, v) && WorkerInv(cfg, s, v);
    }
  }

  lemma StillAnnounced(cfg: Config, s: State, w: nat, s': State, t: nat)
    requires w < |s.workers| == |s'.workers| && s'.calls == s.calls && s'.clients == s.clients && s'.items == s.items && s'.taken == s.taken
    requires s'.workers == s.workers[w := s'.workers[w]] && s.workers[w].pc != Notify && s.workers[w].pc != Report
    requires Announced(s, t)
    ensures Announced(s', t)
  {
  }

  lemma LoopStep(cfg: Config, s: State, w: nat, s': State)
    requires Inv(cfg, s) && w < |s.workers| && s.workers[w].pc == Loop && Pointers(cfg, s) && WorkerStep(cfg, s, w) == Some(s')
    ensures Inv(cfg, s')
  {
    assert WorkerInv(cfg, s, w);
    Quiet(cfg, s, w, s');
  }

  lemma TakeStep(cfg: Config, s: State, w: nat, s': State)
    requires Inv(cfg, s) && w < |s.workers| && s.workers[w].pc == Take && Pointers(cfg, s) && WorkerStep(cfg, s, w) == Some(s')
    ensures Inv(cfg, s')
  {
    assert WorkerInv(cfg, s, w);
    AdvanceMod(s.deq, cfg.size);
    Quiet(cfg, s, w, s');
  }

  /** The slot of the next ticket is not ready before that ticket is. */
  lemma NotReadyYet(cfg: Config, s: State)
    requires Inv(cfg, s) && |s.taken| == s.pub
    ensures s.slots[|s.taken| % cfg.size].state != Ready
  {
    var d := |s.taken|;
    if d < |s.items| {
      assert ItemInv(cfg, s, d);
    } else if d < cfg.size {
      Euclid(d, d, cfg.size, 0);
      assert SlotInv(cfg, s, d);
    } else {
      var t := d - cfg.size;
      ModShift(t, cfg.size);
      assert ItemInv(cfg, s, t);
    }
  }

  lemma InspectStep(cfg: Config, s: State, w: nat, s': State)
    requires Inv(cfg, s) && w < |s.workers| && s.workers[w].pc == Inspect && Pointers(cfg, s) && WorkerStep(cfg, s, w) == Some(s')
    ensures Inv(cfg, s')
  {
    assert WorkerInv(cfg, s, w);
    if |s.taken| == s.pub { NotReadyYet(cfg, s); }
    Quiet(cfg, s, w, s');
  }

  lemma DozeStep(cfg: Config, s: State, w: nat, s': State)
    requires Inv(cfg, s) && w < |s.workers| && s.workers[w].pc == Doze && Pointers(cfg, s) && WorkerStep(cfg, s, w) == Some(s')
    ensures Inv(cfg, s')
  {
    assert WorkerInv(cfg, s, w);
    Quiet(cfg, s, w, s');
  }

  lemma UnlockStep(cfg: Config, s: State, w: nat, s': State)
    requires Inv(cfg, s) && w < |s.workers| && s.workers[w].pc == Unlock && Pointers(cfg, s) && WorkerStep(cfg, s, w) == Some(s')
    ensures Inv(cfg, s')
  {
    hide CallInv, ClientInv, SlotInv, ItemInv;
    assert WorkerInv(cfg, s, w);
    Quiet(cfg, s, w, s');
  }

  /** The first slot of a group is not freed before a worker is done with a fragment. */
  lemma NotReleased(cfg: Config, s: State, w: nat)
    requires Inv(cfg, s) && w < |s.workers| && Claimed(s.workers[w].pc)
    ensures s.workers[w].ticket < |s.items| && s.items[s.workers[w].ticket].call < |s.calls|
    ensures var call := s.calls[s.items[s.workers[w].ticket].call]; !call.job.derive ==> call.stage != Released
  {
    assert WorkerInv(cfg, s, w);
    var t := s.workers[w].ticket;
    assert Active(s, t) && ItemInv(cfg, s, t);
    var c := s.items[t].call;
    assert CallInv(cfg, s, c);
    assert t in s.calls[c].left || s.calls[c].stage == Uncounted || CountedFor(s, t, c);
  }

  /** The first fragment of a group whose slot is not freed still has that slot. */
  lemma FirstThere(cfg: Config, s: State, t: nat)
    requires Inv(cfg, s) && t < |s.items| && s.items[t].call < |s.calls|
    requires var call := s.calls[s.items[t].call]; !call.job.derive && call.stage != Released
    ensures var first := s.calls[s.items[t].call].first; first <= t && |s.items| <= first + cfg.size
  {
    assert ItemInv(cfg, s, t);
    var c := s.items[t].call;
    assert CallInv(cfg, s, c);
    assert Issued(s, s.calls[c].first, c);
    assert ItemInv(cfg, s, s.calls[c].first);
  }

  /** A worker's slot is not refilled while the worker still needs it: after giving up
      the slot of a fragment, it reads `FirstFragment` there. */
  lemma StillThere(cfg: Config, s: State, w: nat)
    requires Inv(cfg, s) && w < |s.workers| && Claimed(s.workers[w].pc) && s.workers[w].pc != Report
    ensures s.workers[w].ticket < |s.items| <= s.workers[w].ticket + cfg.size
    ensures s.items[s.workers[w].ticket].call < |s.calls| && SlotHolds(cfg, s, s.workers[w].ticket)
  {
    NotReleased(cfg, s, w);
    var t := s.workers[w].ticket;
    assert WorkerInv(cfg, s, w) && ItemInv(cfg, s, t) && Active(s, t);
    if !s.calls[s.items[t].call].job.derive { FirstThere(cfg, s, t); }
  }

  lemma FinishStep(cfg: Config, s: State, w: nat, s': State)
    requires Inv(cfg, s) && w < |s.workers| && s.workers[w].pc == Finish && Pointers(cfg, s) && WorkerStep(cfg, s, w) == Some(s')
    requires s.workers[w].slot == s.slots[s.workers[w].slot].first
    ensures Inv(cfg, s')
  {
    hide CallInv, ClientInv, UnitInv;
    assert WorkerInv(cfg, s, w);
    StillThere(cfg, s, w);
    FirstSlot(cfg, s, s.workers[w].ticket);
    Quiet(cfg, s, w, s');
  }

  /** The fragments of a call lie in different slots. */
  lemma FirstSlot(cfg: Config, s: State, t: nat)
    requires Inv(cfg, s) && t < |s.items| && s.items[t].call < |s.calls| && !s.calls[s.items[t].call].job.derive
    ensures t % cfg.size == s.calls[s.items[t].call].first % cfg.size <==> IsFirst(s, t)
  {
    assert ItemInv(cfg, s, t);
    assert CallInv(cfg, s, s.items[t].call);
    var first := s.calls[s.items[t].call].first;
    if first < t { ModApart(first, t, cfg.size); }
  }

  lemma NotifyStep(cfg: Config, s: State, w: nat, s': State)
    requires Inv(cfg, s) && w < |s.workers| && s.workers[w].pc == Notify && Pointers(cfg, s) && WorkerStep(cfg, s, w) == Some(s')
    ensures Inv(cfg, s')
  {
    hide CallInv, ClientInv, ItemInv, SlotInv, CallerWakes;
    assert WorkerInv(cfg, s, w);
    Quiet(cfg, s, w, s');
  }

  lemma ReportStep(cfg: Config, s: State, w: nat, s': State)
    requires Inv(cfg, s) && w < |s.workers| && s.workers[w].pc == Report && Pointers(cfg, s) && WorkerStep(cfg, s, w) == Some(s')
    ensures Inv(cfg, s')
  {
    hide CallInv, ClientInv, SlotInv, CallerWakes;
    assert WorkerInv(cfg, s, w);
    assert ItemInv(cfg, s, s.workers[w].ticket);
    Quiet(cfg, s, w, s');
  }

  lemma RunDone(cfg: Config, s: State, w: nat, s': State)
    requires Inv(cfg, s) && w < |s.workers| && s.workers[w].pc == Run && s.workers[w].ticket < |s.items|
    requires s.workers[w].done >= s.items[s.workers[w].ticket].cnt
    requires Pointers(cfg, s) && WorkerStep(cfg, s, w) == Some(s')
    ensures Inv(cfg, s')
  {
    hide CallInv, ClientInv, SlotInv, CallerWakes, ItemInv, SameTickets;
    assert WorkerInv(cfg, s, w);
    StillThere(cfg, s, w);
    RunDoneTickets(cfg, s, w, s');
    Quiet(cfg, s, w, s');
  }

  lemma RunDoneTickets(cfg: Config, s: State, w: nat, s': State)
    requires Inv(cfg, s) && w < |s.workers| && s.workers[w].pc == Run && s.workers[w].ticket < |s.items|
    requires s.workers[w].done >= s.items[s.workers[w].ticket].cnt && s.items[s.workers[w].ticket].call < |s.calls|
    requires exists pc :: (pc == Flag || pc == Finish) && s' == Move(s, w, pc)
    ensures SameTickets(s, s')
  {
    hide CallInv, ClientInv, SlotInv, CallerWakes, ItemInv, WorkerWakes;
    assert WorkerInv(cfg, s, w);
  }
}
