/** The steps of a worker that claim, process and give up an item keep the invariant. */
module ThreadPoolWork {
  import opened Division
  import opened ThreadPool
  import opened ThreadPoolInvariant
  import opened ThreadPoolSteps

  /** Of the last tickets, at most one has a given slot. */
  lemma SameSlot(s: State, t: nat, t': nat, q: nat)
    requires t < |s.items| && t' <= |s.items| <= t + q && q > 0 && |s.items| <= t' + q && t % q == t' % q
    ensures t == t' || (t' == |s.items| && t + q == t')
  {
    if t < t' < t + q { ModApart(t, t', q); }
    if t' < t < t' + q { ModApart(t', t, q); }
  }

  // ----- giving up a slot -----

  /** A worker gives up the slot of an item other than a first fragment. */
  ghost predicate GivesUp(cfg: Config, s: State, w: nat, pc: WorkerPc, s': State) {
    && Inv(cfg, s) && w < |s.workers| && Pointers(cfg, s)
    && s.workers[w].ticket < |s.items| && s.items[s.workers[w].ticket].call < |s.calls| && !IsFirst(s, s.workers[w].ticket)
    && ((s.workers[w].pc == Finish && pc == Notify) || (s.workers[w].pc == Vacate && pc == Report))
    && s' == SetSlot(Move(s, w, pc), s.workers[w].slot, s.slots[s.workers[w].slot].(state := Free))
  }

  lemma GiveUpTickets(cfg: Config, s: State, w: nat, pc: WorkerPc, s': State)
    requires GivesUp(cfg, s, w, pc, s')
    ensures forall t :: 0 <= t < |s.items| ==> Progress(s', t) == Progress(s, t)
    ensures forall t :: 0 <= t ==> Counted(s', t) == Counted(s, t)
    ensures forall t :: 0 <= t < |s.items| && t != s.workers[w].ticket && s.items[t].call < |s.calls| ==> Vacated(s', t) == Vacated(s, t)
    ensures Vacated(s', s.workers[w].ticket) && Notifying(s', s.workers[w].ticket) && !Vacated(s, s.workers[w].ticket)
    ensures s.workers[w].ticket < |s.taken|
  {
    assert WorkerInv(cfg, s, w);
    assert Active(s, s.workers[w].ticket) && Active(s', s.workers[w].ticket);
  }

  lemma GiveUpCalls(cfg: Config, s: State, w: nat, pc: WorkerPc, s': State)
    requires GivesUp(cfg, s, w, pc, s')
    ensures forall i :: 0 <= i < |s'.clients| ==> ClientInv(cfg, s', i)
    ensures forall c :: 0 <= c < |s'.calls| ==> CallInv(cfg, s', c)
    ensures forall k :: 0 <= k < |s'.slots| ==> SlotInv(cfg, s', k)
  {
    GiveUpTickets(cfg, s, w, pc, s');
    forall i | 0 <= i < |s'.clients| ensures ClientInv(cfg, s', i) { assert ClientInv(cfg, s, i); }
    forall c | 0 <= c < |s'.calls| ensures CallInv(cfg, s', c) {
      assert CallInv(cfg, s, c);
      SameCall(cfg, s, s', c);
    }
    forall k | 0 <= k < |s'.slots| ensures SlotInv(cfg, s', k) { assert SlotInv(cfg, s, k); }
  }

  lemma GiveUpItems(cfg: Config, s: State, w: nat, pc: WorkerPc, s': State)
    requires GivesUp(cfg, s, w, pc, s')
    ensures forall t :: 0 <= t < |s'.items| ==> ItemInv(cfg, s', t)
  {
    var t0 := s.workers[w].ticket;
    assert WorkerInv(cfg, s, w);
    StillThere(cfg, s, w);
    GiveUpTickets(cfg, s, w, pc, s');
    forall t | 0 <= t < |s'.items| ensures ItemInv(cfg, s', t) {
      assert ItemInv(cfg, s, t);
      if t + cfg.size >= |s.items| && t % cfg.size == t0 % cfg.size { SameSlot(s, t0, t, cfg.size); }
    }
  }

  lemma GiveUp(cfg: Config, s: State, w: nat, pc: WorkerPc, s': State)
    requires GivesUp(cfg, s, w, pc, s')
    ensures Inv(cfg, s')
  {
    assert WorkerInv(cfg, s, w);
    StillThere(cfg, s, w);
    GiveUpCalls(cfg, s, w, pc, s');
    GiveUpItems(cfg, s, w, pc, s');
    OtherWorkers(cfg, s, w, s');
    forall v | 0 <= v < |s'.workers| ensures WorkerWakes(cfg, s', v) { assert WorkerWakes(cfg, s, v); }
    forall i | 0 <= i < |s'.clients| ensures CallerWakes(cfg, s', i) { GiveUpWakes(cfg, s, w, pc, s', i); }
  }

  lemma GiveUpWakes(cfg: Config, s: State, w: nat, pc: WorkerPc, s': State, i: nat)
    requires GivesUp(cfg, s, w, pc, s') && i < |s.clients|
    ensures CallerWakes(cfg, s', i)
  {
    var t := s.workers[w].ticket;
    assert WorkerInv(cfg, s, w);
    StillThere(cfg, s, w);
    GiveUpTickets(cfg, s, w, pc, s');
    assert CallerWakes(cfg, s, i);
    if |s.items| % cfg.size == s.workers[w].slot {
      SameSlot(s, t, |s.items|, cfg.size);
    } else if |s.items| >= cfg.size && Announced(s, |s.items| - cfg.size) {
      StillAnnounced(cfg, s, w, s', |s.items| - cfg.size);
    }
  }

  // ----- claiming -----

  ghost predicate Claims(cfg: Config, s: State, w: nat, s': State) {
    && Inv(cfg, s) && w < |s.workers| && s.workers[w].pc == Claim && Pointers(cfg, s) && WorkerStep(cfg, s, w) == Some(s')
  }

  lemma ClaimTickets(cfg: Config, s: State, w: nat, s': State)
    requires Claims(cfg, s, w, s')
    ensures s.workers[w].ticket == |s.taken| < s.pub && s.workers[w].slot == |s.taken| % cfg.size
    ensures s'.items == s.items && s'.calls == s.calls && s'.clients == s.clients
    ensures s'.slots == s.slots[s.workers[w].slot := s'.slots[s.workers[w].slot]]
    ensures forall t :: 0 <= t < |s.items| ==> Progress(s', t) == Progress(s, t)
    ensures forall t :: 0 <= t ==> Counted(s', t) == Counted(s, t)
    ensures forall t :: 0 <= t < |s.items| && s.items[t].call < |s.calls| ==> Vacated(s', t) == Vacated(s, t)
    ensures s.items[|s.taken|].call < |s.calls| && !Vacated(s, |s.taken|)
    ensures SlotHolds(cfg, s, |s.taken|) && |s.items| <= |s.taken| + cfg.size
  {
    hide ClientInv, SlotInv, CallInv, ItemInv, CallerWakes, WorkerWakes, UnitInv, Rest, SlotHolds;
    ClaimedItem(cfg, s, w, s');
    assert WorkerInv(cfg, s, w);
    assert Active(s', |s.taken|);
  }

  /** The item that is claimed is still in its slot. */
  lemma ClaimedItem(cfg: Config, s: State, w: nat, s': State)
    requires Claims(cfg, s, w, s')
    ensures |s.taken| < |s.items|
    ensures s.items[|s.taken|].call < |s.calls| && !Vacated(s, |s.taken|)
    ensures SlotHolds(cfg, s, |s.taken|) && |s.items| <= |s.taken| + cfg.size
  {
    hide ClientInv, SlotInv, CallerWakes, WorkerWakes, UnitInv, Rest;
    var t := |s.taken|;
    assert WorkerInv(cfg, s, w);
    assert ItemInv(cfg, s, t);
    assert CallInv(cfg, s, s.items[t].call);
    assert t in s.calls[s.items[t].call].left || s.calls[s.items[t].call].stage == Uncounted || CountedFor(s, t, s.items[t].call);
  }

  lemma ClaimCalls(cfg: Config, s: State, w: nat, s': State)
    requires Claims(cfg, s, w, s')
    ensures forall i :: 0 <= i < |s'.clients| ==> ClientInv(cfg, s', i)
    ensures forall c :: 0 <= c < |s'.calls| ==> CallInv(cfg, s', c)
    ensures forall k :: 0 <= k < |s'.slots| ==> SlotInv(cfg, s', k)
  {
    ClaimTickets(cfg, s, w, s');
    forall i | 0 <= i < |s'.clients| ensures ClientInv(cfg, s', i) { assert ClientInv(cfg, s, i); }
    forall c | 0 <= c < |s'.calls| ensures CallInv(cfg, s', c) {
      assert CallInv(cfg, s, c);
      SameCall(cfg, s, s', c);
    }
    forall k | 0 <= k < |s'.slots| ensures SlotInv(cfg, s', k) { assert SlotInv(cfg, s, k); }
  }

  lemma ClaimItems(cfg: Config, s: State, w: nat, s': State)
    requires Claims(cfg, s, w, s')
    ensures forall t :: 0 <= t < |s'.items| ==> ItemInv(cfg, s', t)
  {
    hide CallInv, ClientInv, SlotInv, CallerWakes, WorkerWakes;
    var t0 := |s.taken|;
    ClaimTickets(cfg, s, w, s');
    forall t | 0 <= t < |s'.items| ensures ItemInv(cfg, s', t) {
      assert ItemInv(cfg, s, t);
      if t + cfg.size >= |s.items| && t % cfg.size == t0 % cfg.size { SameSlot(s, t0, t, cfg.size); }
    }
  }

  lemma ClaimWorkers(cfg: Config, s: State, w: nat, s': State)
    requires Claims(cfg, s, w, s')
    ensures Counters(cfg, s')
    ensures forall v :: 0 <= v < |s'.workers| ==> WorkerInv(cfg, s', v) && WorkerWakes(cfg, s', v)
  {
    hide CallInv, ClientInv, SlotInv, ItemInv, CallerWakes;
    assert WorkerInv(cfg, s, w);
    ClaimTickets(cfg, s, w, s');
    forall v | 0 <= v < |s'.workers| ensures WorkerInv(cfg, s', v) && WorkerWakes(cfg, s', v) { assert WorkerInv(cfg, s, v); }
  }

  lemma ClaimStep(cfg: Config, s: State, w: nat, s': State)
    requires Claims(cfg, s, w, s')
    ensures Inv(cfg, s')
  {
    hide CallInv, ClientInv, SlotInv, ItemInv, WorkerInv, WorkerWakes, Counters;
    ClaimWorkers(cfg, s, w, s');
    ClaimTickets(cfg, s, w, s');
    ClaimCalls(cfg, s, w, s');
    ClaimItems(cfg, s, w, s');
    forall i | 0 <= i < |s'.clients| ensures CallerWakes(cfg, s', i) { assert CallerWakes(cfg, s, i); }
  }

  // ----- processing a unit -----

  ghost predicate Runs(cfg: Config, s: State, w: nat, s': State) {
    && Inv(cfg, s) && w < |s.workers| && s.workers[w].pc == Run && Pointers(cfg, s)
    && s.workers[w].ticket < |s.items| && s.workers[w].done < s.items[s.workers[w].ticket].cnt
    && WorkerStep(cfg, s, w) == Some(s')
  }

  /** The item in the slot is the one that the ticket stands for. */
  lemma RunItem(cfg: Config, s: State, w: nat, s': State)
    requires Runs(cfg, s, w, s')
    ensures var t, d := s.workers[w].ticket, s.workers[w].done;
            var item := s.items[t];
            && item.call < |s.calls| && item.off + d < |s.calls[item.call].buf| == |s.calls[item.call].times|
            && item.unit + d == s.calls[item.call].job.start + (item.off + d)
            && s' == s.(workers := s.workers[w := s.workers[w].(done := d + 1)],
                        calls := s.calls[item.call := Process(cfg, s.calls[item.call], item.off + d, item.unit + d)])
    ensures s.workers[w].ticket < |s.taken| && s.taken[s.workers[w].ticket] == w
  {
    hide Inv, Rest;
    RunThere(cfg, s, w);
  }

  lemma RunThere(cfg: Config, s: State, w: nat)
    requires Inv(cfg, s) && w < |s.workers| && s.workers[w].pc == Run
    requires s.workers[w].ticket < |s.items| && s.workers[w].done < s.items[s.workers[w].ticket].cnt
    ensures var t, d := s.workers[w].ticket, s.workers[w].done;
            && t < |s.taken| && s.taken[t] == w && s.workers[w].slot < |s.slots| && s.slots[s.workers[w].slot].work == Some(s.items[t])
            && s.items[t].call < |s.calls| && s.items[t].off + d < |s.calls[s.items[t].call].buf| == |s.calls[s.items[t].call].times|
            && s.items[t].unit + d == s.calls[s.items[t].call].job.start + (s.items[t].off + d)
  {
    hide ClientInv, SlotInv, CallerWakes, WorkerWakes, UnitInv, Rest;
    assert WorkerInv(cfg, s, w);
    StillThere(cfg, s, w);
    var t := s.workers[w].ticket;
    assert ItemInv(cfg, s, t);
    assert CallInv(cfg, s, s.items[t].call);
  }


  lemma RunTickets(cfg: Config, s: State, w: nat, s': State)
    requires Runs(cfg, s, w, s')
    ensures |s'.workers| == |s.workers| && |s'.calls| == |s.calls| && s'.items == s.items
    ensures Progress(s, s.workers[w].ticket) == s.workers[w].done
    ensures Progress(s', s.workers[w].ticket) == s.workers[w].done + 1
    ensures forall t :: 0 <= t < |s.items| && t != s.workers[w].ticket ==> Progress(s', t) == Progress(s, t)
    ensures forall t :: 0 <= t ==> Counted(s', t) == Counted(s, t)
    ensures forall t :: 0 <= t < |s.items| && s.items[t].call < |s.calls| ==> Vacated(s', t) == Vacated(s, t)
    ensures forall c :: 0 <= c < |s.calls| ==> InCall(s', c) == InCall(s, c) && Todo(s', c) == Todo(s, c)
  {
    RunItem(cfg, s, w, s');
    assert Active(s, s.workers[w].ticket) && Active(s', s.workers[w].ticket);
  }

  /** The unit is one of the fragment. */
  lemma RunPlace(cfg: Config, s: State, w: nat, s': State, u: nat)
    requires Runs(cfg, s, w, s')
    requires s.items[s.workers[w].ticket].call < |s.calls| && u < |s.calls[s.items[s.workers[w].ticket].call].orig|
    ensures var t, c := s.workers[w].ticket, s.items[s.workers[w].ticket].call;
            var v := s.items[t].off + s.workers[w].done;
            && |s.calls[c].orig| == |s.calls[c].buf| == |s.calls[c].times| && UnitInv(cfg, s, c, u)
            && v < |s.calls[c].cover| && s.calls[c].cover[v] == t
  {
    hide ClientInv, SlotInv, WorkerInv, CallerWakes, WorkerWakes, Rest, Consecutive;
    var t := s.workers[w].ticket;
    assert ItemInv(cfg, s, t) && CallInv(cfg, s, s.items[t].call) && UnitInv(cfg, s, s.items[t].call, u);
  }

  /** The unit is processed for the first time, and no other unit changes. */
  lemma RunUnits(cfg: Config, s: State, w: nat, s': State, u: nat)
    requires Runs(cfg, s, w, s')
    requires s.items[s.workers[w].ticket].call < |s.calls| && u < |s.calls[s.items[s.workers[w].ticket].call].orig|
    ensures |s'.calls| == |s.calls|
    ensures var call := s'.calls[s.items[s.workers[w].ticket].call];
            |call.orig| == |call.buf| == |call.times| && u < |call.orig| && UnitInv(cfg, s', s.items[s.workers[w].ticket].call, u)
  {
    hide Inv, Progress, Counted, Vacated, InCall, Todo;
    RunItem(cfg, s, w, s');
    RunTickets(cfg, s, w, s');
    RunPlace(cfg, s, w, s', u);
    var t := s.workers[w].ticket;
    var c := s.items[t].call;
    var v := s.items[t].off + s.workers[w].done;
    if u == v {
      assert !Reached(s, c, u) && Reached(s', c, u);
    } else {
      assert Reached(s', c, u) == Reached(s, c, u);
    }
  }

  /** The call that the unit belongs to. */
  lemma RunOwn(cfg: Config, s: State, w: nat, s': State)
    requires Runs(cfg, s, w, s') && s.items[s.workers[w].ticket].call < |s.calls|
    ensures |s'.calls| == |s.calls| && CallInv(cfg, s', s.items[s.workers[w].ticket].call)
  {
    RunItem(cfg, s, w, s');
    RunTickets(cfg, s, w, s');
    var t := s.workers[w].ticket;
    var c := s.items[t].call;
    assert ItemInv(cfg, s, t) && CallInv(cfg, s, c);
    forall u | 0 <= u < |s.calls[c].orig| ensures UnitInv(cfg, s', c, u) { RunUnits(cfg, s, w, s', u); }
    assert s.calls[c].cover[s.items[t].off] == t;
    StillConsecutive(s, s', c);
  }

  lemma RunCalls(cfg: Config, s: State, w: nat, s': State)
    requires Runs(cfg, s, w, s')
    ensures forall c :: 0 <= c < |s'.calls| ==> CallInv(cfg, s', c)
  {
    RunItem(cfg, s, w, s');
    RunTickets(cfg, s, w, s');
    forall c | 0 <= c < |s'.calls| ensures CallInv(cfg, s', c) {
      assert CallInv(cfg, s, c);
      if c == s.items[s.workers[w].ticket].call { RunOwn(cfg, s, w, s'); } else { SameCall(cfg, s, s', c); }
    }
  }

  lemma RunStep(cfg: Config, s: State, w: nat, s': State)
    requires Runs(cfg, s, w, s')
    ensures Inv(cfg, s')
  {
    assert WorkerInv(cfg, s, w);
    RunItem(cfg, s, w, s');
    RunTickets(cfg, s, w, s');
    RunCalls(cfg, s, w, s');
    SameFrame(cfg, s, w, s', s.items[s.workers[w].ticket].call);
    FrameItems(cfg, s, w, s', s.items[s.workers[w].ticket].call);
  }

  /** A step of worker `w` that changes one call but neither its locals nor its stage. */
  lemma SameFrame(cfg: Config, s: State, w: nat, s': State, c: nat)
    requires Inv(cfg, s) && w < |s.workers| == |s'.workers| && c < |s.calls| == |s'.calls| && Claimed(s.workers[w].pc)
    requires s' == s.(workers := s.workers[w := s'.workers[w]], calls := s.calls[c := s'.calls[c]])
    requires s.workers[w].pc != Unlock && s.workers[w].pc != Notify && s.workers[w].pc != Report
    requires s'.calls[c] == s.calls[c].(buf := s'.calls[c].buf, times := s'.calls[c].times, flag := s'.calls[c].flag)
    requires WorkerInv(cfg, s', w) && s'.workers[w].pc != Doze
    ensures Counters(cfg, s')
    ensures forall i :: 0 <= i < |s'.clients| ==> ClientInv(cfg, s', i) && CallerWakes(cfg, s', i)
    ensures forall k :: 0 <= k < |s'.slots| ==> SlotInv(cfg, s', k)
    ensures forall v :: 0 <= v < |s'.workers| ==> WorkerInv(cfg, s', v) && WorkerWakes(cfg, s', v)
  {
    hide CallInv, ItemInv, Vacated, Counted, Progress, Announced;
    forall i | 0 <= i < |s'.clients| ensures ClientInv(cfg, s', i) { assert ClientInv(cfg, s, i); }
    forall i | 0 <= i < |s'.clients| ensures CallerWakes(cfg, s', i) {
      assert CallerWakes(cfg, s, i);
      if |s.items| >= cfg.size && Announced(s, |s.items| - cfg.size) { AnnouncedStill(s, w, s', c, |s.items| - cfg.size); }
    }
    forall k | 0 <= k < |s'.slots| ensures SlotInv(cfg, s', k) { assert SlotInv(cfg, s, k); }
    forall v | 0 <= v < |s'.workers| ensures WorkerInv(cfg, s', v) && WorkerWakes(cfg, s', v) {
      assert WorkerInv(cfg, s, v) && WorkerWakes(cfg, s, v);
    }
  }

  lemma FrameItems(cfg: Config, s: State, w: nat, s': State, c: nat)
    requires Inv(cfg, s) && w < |s.workers| == |s'.workers| && c < |s.calls| == |s'.calls| && Claimed(s.workers[w].pc)
    requires s' == s.(workers := s.workers[w := s'.workers[w]], calls := s.calls[c := s'.calls[c]])
    requires s'.calls[c] == s.calls[c].(buf := s'.calls[c].buf, times := s'.calls[c].times, flag := s'.calls[c].flag)
    requires forall t :: 0 <= t < |s.items| && s.items[t].call < |s.calls| ==> Vacated(s', t) == Vacated(s, t)
    ensures forall t :: 0 <= t < |s'.items| ==> ItemInv(cfg, s', t)
  {
    hide CallInv, ClientInv, SlotInv, WorkerInv, Vacated, CallerWakes, WorkerWakes;
    forall t | 0 <= t < |s'.items| ensures ItemInv(cfg, s', t) { assert ItemInv(cfg, s, t); }
  }

  lemma AnnouncedStill(s: State, w: nat, s': State, c: nat, t: nat)
    requires w < |s.workers| == |s'.workers| && c < |s.calls| == |s'.calls| && Announced(s, t)
    requires s' == s.(workers := s.workers[w := s'.workers[w]], calls := s.calls[c := s'.calls[c]])
    requires s.workers[w].pc != Notify && s.workers[w].pc != Report
    requires s'.calls[c] == s.calls[c].(buf := s'.calls[c].buf, times := s'.calls[c].times, flag := s'.calls[c].flag)
    ensures Announced(s', t)
  {
  }

  // ----- the flag of a key derivation -----

  lemma FlagStep(cfg: Config, s: State, w: nat, s': State)
    requires Inv(cfg, s) && w < |s.workers| && s.workers[w].pc == Flag && Pointers(cfg, s) && WorkerStep(cfg, s, w) == Some(s')
    ensures Inv(cfg, s')
  {
    hide CallInv, ClientInv, SlotInv, ItemInv, CallerWakes, WorkerWakes;
    FlagChange(cfg, s, w, s');
    var c := s.items[s.workers[w].ticket].call;
    FlagCall(cfg, s, w, s', c);
    SameFrame(cfg, s, w, s', c);
    FrameItems(cfg, s, w, s', c);
  }

  lemma FlagChange(cfg: Config, s: State, w: nat, s': State)
    requires Inv(cfg, s) && w < |s.workers| && s.workers[w].pc == Flag && Pointers(cfg, s) && WorkerStep(cfg, s, w) == Some(s')
    ensures s.workers[w].ticket < |s.items| && s.items[s.workers[w].ticket].call < |s.calls|
    ensures var c := s.items[s.workers[w].ticket].call;
            s' == s.(workers := s.workers[w := s.workers[w].(pc := Vacate)], calls := s.calls[c := s.calls[c].(flag := true)])
    ensures WorkerInv(cfg, s', w)
    ensures forall t :: 0 <= t < |s.items| && s.items[t].call < |s.calls| ==> Vacated(s', t) == Vacated(s, t)
  {
    hide CallInv, ClientInv, SlotInv, CallerWakes, WorkerWakes;
    assert WorkerInv(cfg, s, w);
    StillThere(cfg, s, w);
    var t := s.workers[w].ticket;
    assert Active(s, t) && Active(s', t) && ItemInv(cfg, s, t);
  }

  lemma FlagCall(cfg: Config, s: State, w: nat, s': State, c: nat)
    requires Inv(cfg, s) && w < |s.workers| && s.workers[w].pc == Flag && s.workers[w].ticket < |s.items|
    requires c == s.items[s.workers[w].ticket].call < |s.calls|
    requires s' == s.(workers := s.workers[w := s.workers[w].(pc := Vacate)], calls := s.calls[c := s.calls[c].(flag := true)])
    ensures forall c' :: 0 <= c' < |s'.calls| ==> CallInv(cfg, s', c')
  {
    hide SlotInv, ClientInv, CallerWakes, WorkerWakes, Rest, UnitInv;
    assert WorkerInv(cfg, s, w);
    var t := s.workers[w].ticket;
    assert Active(s, t) && Active(s', t) && ItemInv(cfg, s, t);
    forall c' | 0 <= c' < |s'.calls| ensures CallInv(cfg, s', c') {
      assert CallInv(cfg, s, c');
      if c' == c { FlagOwn(cfg, s, w, s', c); } else { SameCall(cfg, s, s', c'); }
    }
  }

  lemma FlagOwn(cfg: Config, s: State, w: nat, s': State, c: nat)
    requires Inv(cfg, s) && w < |s.workers| && s.workers[w].pc == Flag && s.workers[w].ticket < |s.items|
    requires c == s.items[s.workers[w].ticket].call < |s.calls|
    requires s' == s.(workers := s.workers[w := s.workers[w].(pc := Vacate)], calls := s.calls[c := s.calls[c].(flag := true)])
    ensures CallInv(cfg, s', c)
  {
    hide SlotInv, ClientInv, CallerWakes, WorkerWakes, Rest, UnitInv;
    assert WorkerInv(cfg, s, w);
    var t := s.workers[w].ticket;
    assert Active(s, t) && Active(s', t) && ItemInv(cfg, s, t) && CallInv(cfg, s, c);
    SameUnits(cfg, s, s', c);
    assert s.calls[c].cover[s.items[t].off] == t;
    StillConsecutive(s, s', c);
  }

  // ----- counting down -----

  ghost predicate CountsDown(cfg: Config, s: State, w: nat, s': State) {
    && Inv(cfg, s) && w < |s.workers| && s.workers[w].pc == Decrement && Pointers(cfg, s) && WorkerStep(cfg, s, w) == Some(s')
  }

  /** `FirstFragment` leads to the call of the fragment, which is still open. */
  lemma DecrementItem(cfg: Config, s: State, w: nat, s': State, c: nat, j: nat)
    requires CountsDown(cfg, s, w, s') && s.workers[w].ticket < |s.items|
    requires c == s.items[s.workers[w].ticket].call && c < |s.calls| && j == s.calls[c].first % cfg.size
    ensures s.workers[w].ticket < |s.taken| && s.taken[s.workers[w].ticket] == w
    ensures s.calls[c].stage == Open && s.workers[w].ticket in s.calls[c].left && s.slots[j].own == Some(c)
    ensures s.slots[j].count == |s.calls[c].left|
    ensures var left := s.calls[c].left - {s.workers[w].ticket};
            s' == s.(workers := s.workers[w := s.workers[w].(pc := if left == {} then Complete else Loop)],
                     calls := s.calls[c := s.calls[c].(left := left, stage := if left == {} then Last(w) else Open)],
                     slots := s.slots[j := s.slots[j].(count := |left|)])
  {
    hide CallerWakes, WorkerWakes, ClientInv, UnitInv;
    assert WorkerInv(cfg, s, w);
    StillThere(cfg, s, w);
    var t := s.workers[w].ticket;
    assert Active(s, t) && ItemInv(cfg, s, t) && CallInv(cfg, s, c);
    assert t in s.calls[c].left <==> !CountedFor(s, t, c);
    assert SlotInv(cfg, s, j);
  }

  lemma DecrementTickets(cfg: Config, s: State, w: nat, s': State)
    requires CountsDown(cfg, s, w, s') && s.workers[w].ticket < |s.items| && s.items[s.workers[w].ticket].call < |s.calls|
    ensures |s'.workers| == |s.workers| && |s'.calls| == |s.calls| && s'.items == s.items
    ensures forall t :: 0 <= t < |s.items| ==> Progress(s', t) == Progress(s, t)
    ensures forall t :: 0 <= t && t != s.workers[w].ticket ==> Counted(s', t) == Counted(s, t)
    ensures Counted(s', s.workers[w].ticket)
    ensures forall t :: 0 <= t < |s.items| && s.items[t].call < |s.calls| ==> Vacated(s', t) == Vacated(s, t)
    ensures forall c :: 0 <= c < |s.calls| ==> InCall(s', c) == InCall(s, c) && Todo(s', c) == Todo(s, c)
  {
    var c := s.items[s.workers[w].ticket].call;
    DecrementItem(cfg, s, w, s', c, s.calls[c].first % cfg.size);
    assert Active(s, s.workers[w].ticket);
  }

  lemma DecrementOwn(cfg: Config, s: State, w: nat, s': State, c: nat)
    requires CountsDown(cfg, s, w, s') && s.workers[w].ticket < |s.items| && c == s.items[s.workers[w].ticket].call < |s.calls|
    ensures |s'.calls| == |s.calls| && CallInv(cfg, s', c)
  {
    hide WorkerInv, ItemInv, SlotInv, CallerWakes, WorkerWakes, ClientInv, UnitInv, Rest;
    var t := s.workers[w].ticket;
    DecrementItem(cfg, s, w, s', c, s.calls[c].first % cfg.size);
    DecrementTickets(cfg, s, w, s');
    assert CallInv(cfg, s, c);
    SameUnits(cfg, s, s', c);
    forall t' ensures CountedFor(s', t', c) <==> CountedFor(s, t', c) || t' == t { }
    StillConsecutive(s, s', c);
  }

  lemma DecrementCalls(cfg: Config, s: State, w: nat, s': State)
    requires CountsDown(cfg, s, w, s') && s.workers[w].ticket < |s.items| && s.items[s.workers[w].ticket].call < |s.calls|
    ensures forall c :: 0 <= c < |s'.calls| ==> CallInv(cfg, s', c)
  {
    var c := s.items[s.workers[w].ticket].call;
    DecrementItem(cfg, s, w, s', c, s.calls[c].first % cfg.size);
    DecrementTickets(cfg, s, w, s');
    forall c' | 0 <= c' < |s'.calls| ensures CallInv(cfg, s', c') {
      assert CallInv(cfg, s, c');
      if c' == c { DecrementOwn(cfg, s, w, s', c); } else { SameCall(cfg, s, s', c'); }
    }
  }

  lemma DecrementSlots(cfg: Config, s: State, w: nat, s': State, c: nat)
    requires CountsDown(cfg, s, w, s') && s.workers[w].ticket < |s.items| && c == s.items[s.workers[w].ticket].call < |s.calls|
    ensures forall k :: 0 <= k < |s'.slots| ==> SlotInv(cfg, s', k)
  {
    hide WorkerInv, ItemInv, CallInv, CallerWakes, WorkerWakes, ClientInv, UnitInv;
    DecrementItem(cfg, s, w, s', c, s.calls[c].first % cfg.size);
    forall k | 0 <= k < |s'.slots| ensures SlotInv(cfg, s', k) { assert SlotInv(cfg, s, k); }
  }

  lemma DecrementItems(cfg: Config, s: State, w: nat, s': State, c: nat)
    requires CountsDown(cfg, s, w, s') && s.workers[w].ticket < |s.items| && c == s.items[s.workers[w].ticket].call < |s.calls|
    ensures forall t :: 0 <= t < |s'.items| ==> ItemInv(cfg, s', t)
  {
    hide WorkerInv, SlotInv, CallInv, CallerWakes, WorkerWakes, ClientInv, UnitInv;
    DecrementItem(cfg, s, w, s', c, s.calls[c].first % cfg.size);
    DecrementTickets(cfg, s, w, s');
    forall t | 0 <= t < |s'.items| ensures ItemInv(cfg, s', t) { assert ItemInv(cfg, s, t); }
  }

  lemma DecrementRest(cfg: Config, s: State, w: nat, s': State, c: nat)
    requires CountsDown(cfg, s, w, s') && s.workers[w].ticket < |s.items| && c == s.items[s.workers[w].ticket].call < |s.calls|
    ensures forall k :: 0 <= k < |s'.slots| ==> SlotInv(cfg, s', k)
    ensures forall t :: 0 <= t < |s'.items| ==> ItemInv(cfg, s', t)
  {
    DecrementSlots(cfg, s, w, s', c);
    DecrementItems(cfg, s, w, s', c);
  }

  lemma DecrementStep(cfg: Config, s: State, w: nat, s': State)
    requires CountsDown(cfg, s, w, s')
    ensures Inv(cfg, s')
  {
    hide CallInv, SlotInv, ClientInv, CallerWakes, WorkerWakes, UnitInv, Rest;
    assert WorkerInv(cfg, s, w);
    assert ItemInv(cfg, s, s.workers[w].ticket);
    var c := s.items[s.workers[w].ticket].call;
    DecrementItem(cfg, s, w, s', c, s.calls[c].first % cfg.size);
    DecrementRest(cfg, s, w, s', c);
    DecrementCalls(cfg, s, w, s');
    StageFrame(cfg, s, w, s', c);
  }

  /** A step of worker `w` that changes the count, the completion and the stage of a call
      that is not yet received. */
  lemma StageFrame(cfg: Config, s: State, w: nat, s': State, c: nat)
    requires Inv(cfg, s) && w < |s.workers| == |s'.workers| && c < |s.calls| == |s'.calls| && |s'.slots| == |s.slots|
    requires s.workers[w].pc == Decrement || s.workers[w].pc == Complete
    requires s.calls[c].first % cfg.size < |s.slots|
    requires var j := s.calls[c].first % cfg.size;
             s' == s.(workers := s.workers[w := s'.workers[w]], calls := s.calls[c := s'.calls[c]], slots := s.slots[j := s'.slots[j]])
             && s'.slots[j] == s.slots[j].(count := s'.slots[j].count, completed := s'.slots[j].completed)
    requires s'.calls[c] == s.calls[c].(left := s'.calls[c].left, stage := s'.calls[c].stage)
    requires s.calls[c].stage.Open? || s.calls[c].stage.Last?
    requires s'.calls[c].stage.Open? || s'.calls[c].stage.Last? || s'.calls[c].stage.Signalled?
    requires forall v :: 0 <= v < |s.workers| && v != w ==> s.calls[c].stage != Last(v)
    requires WorkerInv(cfg, s', w) && s'.workers[w].pc != Doze
    ensures Counters(cfg, s')
    ensures forall i :: 0 <= i < |s'.clients| ==> ClientInv(cfg, s', i) && CallerWakes(cfg, s', i)
    ensures forall v :: 0 <= v < |s'.workers| ==> WorkerInv(cfg, s', v) && WorkerWakes(cfg, s', v)
  {
    hide UnitInv, ItemInv, SlotInv, Rest, WorkerInv, WorkerWakes;
    forall i | 0 <= i < |s'.clients| ensures ClientInv(cfg, s', i) { assert ClientInv(cfg, s, i); }
    forall i | 0 <= i < |s'.clients| ensures CallerWakes(cfg, s', i) { assert CallerWakes(cfg, s, i); }
    StageWorkers(cfg, s, w, s', c);
  }

  lemma StageWorkers(cfg: Config, s: State, w: nat, s': State, c: nat)
    requires Inv(cfg, s) && w < |s.workers| == |s'.workers| && c < |s.calls| == |s'.calls| && |s'.slots| == |s.slots|
    requires s.workers[w].pc == Decrement || s.workers[w].pc == Complete
    requires s.calls[c].first % cfg.size < |s.slots|
    requires var j := s.calls[c].first % cfg.size;
             s' == s.(workers := s.workers[w := s'.workers[w]], calls := s.calls[c := s'.calls[c]], slots := s.slots[j := s'.slots[j]])
             && s'.slots[j] == s.slots[j].(count := s'.slots[j].count, completed := s'.slots[j].completed)
    requires s'.calls[c] == s.calls[c].(left := s'.calls[c].left, stage := s'.calls[c].stage)
    requires s.calls[c].stage.Open? || s.calls[c].stage.Last?
    requires s'.calls[c].stage.Open? || s'.calls[c].stage.Last? || s'.calls[c].stage.Signalled?
    requires forall v :: 0 <= v < |s.workers| && v != w ==> s.calls[c].stage != Last(v)
    requires WorkerInv(cfg, s', w) && s'.workers[w].pc != Doze
    ensures forall v :: 0 <= v < |s'.workers| ==> WorkerInv(cfg, s', v) && WorkerWakes(cfg, s', v)
  {
    hide UnitInv, ItemInv, SlotInv, Rest, ClientInv, CallerWakes, CallInv;
    forall v | 0 <= v < |s'.workers| ensures WorkerInv(cfg, s', v) { assert WorkerInv(cfg, s, v); }
    forall v | 0 <= v < |s'.workers| ensures WorkerWakes(cfg, s', v) { assert WorkerWakes(cfg, s, v); }
  }

  // ----- signalling completion -----

  ghost predicate Signals(cfg: Config, s: State, w: nat, s': State) {
    && Inv(cfg, s) && w < |s.workers| && s.workers[w].pc == Complete && Pointers(cfg, s) && WorkerStep(cfg, s, w) == Some(s')
  }

  lemma CompleteItem(cfg: Config, s: State, w: nat, s': State, c: nat, j: nat)
    requires Signals(cfg, s, w, s') && s.workers[w].ticket < |s.items|
    requires c == s.items[s.workers[w].ticket].call && c < |s.calls| && j == s.calls[c].first % cfg.size
    ensures s.calls[c].stage == Last(w) && s.slots[j].own == Some(c)
    ensures s' == s.(workers := s.workers[w := s.workers[w].(pc := Loop)], calls := s.calls[c := s.calls[c].(stage := Signalled)],
                     slots := s.slots[j := s.slots[j].(completed := true)])
  {
    assert WorkerInv(cfg, s, w);
    StillThere(cfg, s, w);
    assert ItemInv(cfg, s, s.workers[w].ticket) && CallInv(cfg, s, c);
  }

  lemma CompleteTickets(cfg: Config, s: State, w: nat, s': State)
    requires Signals(cfg, s, w, s') && s.workers[w].ticket < |s.items| && s.items[s.workers[w].ticket].call < |s.calls|
    ensures |s'.workers| == |s.workers| && |s'.calls| == |s.calls| && s'.items == s.items
    ensures forall t :: 0 <= t < |s.items| ==> Progress(s', t) == Progress(s, t)
    ensures forall t :: 0 <= t ==> Counted(s', t) == Counted(s, t)
    ensures forall t :: 0 <= t < |s.items| && s.items[t].call < |s.calls| ==> Vacated(s', t) == Vacated(s, t)
    ensures forall c :: 0 <= c < |s.calls| ==> InCall(s', c) == InCall(s, c) && Todo(s', c) == Todo(s, c)
  {
    var c := s.items[s.workers[w].ticket].call;
    CompleteItem(cfg, s, w, s', c, s.calls[c].first % cfg.size);
  }

  lemma CompleteStep(cfg: Config, s: State, w: nat, s': State)
    requires Signals(cfg, s, w, s')
    ensures Inv(cfg, s')
  {
    hide CallInv, ClientInv;
    assert WorkerInv(cfg, s, w);
    var t := s.workers[w].ticket;
    assert ItemInv(cfg, s, t);
    var c := s.items[t].call;
    CompleteItem(cfg, s, w, s', c, s.calls[c].first % cfg.size);
    CompleteTickets(cfg, s, w, s');
    StageFrame(cfg, s, w, s', c);
    CompleteCalls(cfg, s, w, s');
    forall k | 0 <= k < |s'.slots| ensures SlotInv(cfg, s', k) { assert SlotInv(cfg, s, k); }
    forall t | 0 <= t < |s'.items| ensures ItemInv(cfg, s', t) { assert ItemInv(cfg, s, t); }
  }

  lemma CompleteCalls(cfg: Config, s: State, w: nat, s': State)
    requires Signals(cfg, s, w, s') && s.workers[w].ticket < |s.items| && s.items[s.workers[w].ticket].call < |s.calls|
    ensures forall c :: 0 <= c < |s'.calls| ==> CallInv(cfg, s', c)
  {
    hide WorkerInv, ItemInv, SlotInv, CallerWakes, WorkerWakes, ClientInv, UnitInv, Rest;
    var c := s.items[s.workers[w].ticket].call;
    CompleteItem(cfg, s, w, s', c, s.calls[c].first % cfg.size);
    CompleteTickets(cfg, s, w, s');
    forall c' | 0 <= c' < |s'.calls| ensures CallInv(cfg, s', c') {
      assert CallInv(cfg, s, c');
      if c' == c {
        SameUnits(cfg, s, s', c);
        StillConsecutive(s, s', c);
      } else {
        SameCall(cfg, s, s', c');
      }
    }
  }

  // ----- all steps of a worker -----

  lemma WorkerKeeps(cfg: Config, s: State, w: nat, s': State)
    requires Inv(cfg, s) && w < |s.workers| && Pointers(cfg, s) && WorkerStep(cfg, s, w) == Some(s')
    ensures Inv(cfg, s')
  {
    match s.workers[w].pc {
      case Loop => LoopStep(cfg, s, w, s');
      case Take => TakeStep(cfg, s, w, s');
      case Inspect => InspectStep(cfg, s, w, s');
      case Doze => DozeStep(cfg, s, w, s');
      case Claim => ClaimStep(cfg, s, w, s');
      case Unlock => UnlockStep(cfg, s, w, s');
      case Run =>
        assert WorkerInv(cfg, s, w);
        if s.workers[w].done < s.items[s.workers[w].ticket].cnt { RunStep(cfg, s, w, s'); } else { RunDone(cfg, s, w, s'); }
      case Finish =>
        if s.workers[w].slot == s.slots[s.workers[w].slot].first {
          FinishStep(cfg, s, w, s');
        } else {
          NotFirst(cfg, s, w);
          GiveUp(cfg, s, w, Notify, s');
        }
      case Notify => NotifyStep(cfg, s, w, s');
      case Decrement => DecrementStep(cfg, s, w, s');
      case Complete => CompleteStep(cfg, s, w, s');
      case Flag => FlagStep(cfg, s, w, s');
      case Vacate =>
        NotFirst(cfg, s, w);
        GiveUp(cfg, s, w, Report, s');
      case Report => ReportStep(cfg, s, w, s');
    }
  }

  lemma NotFirst(cfg: Config, s: State, w: nat)
    requires Inv(cfg, s) && w < |s.workers|
    requires s.workers[w].pc == Vacate || (s.workers[w].pc == Finish && s.workers[w].slot < |s.slots|
               && s.workers[w].slot != s.slots[s.workers[w].slot].first)
    ensures s.workers[w].ticket < |s.items| && s.items[s.workers[w].ticket].call < |s.calls| && !IsFirst(s, s.workers[w].ticket)
  {
    assert WorkerInv(cfg, s, w);
    StillThere(cfg, s, w);
  }
}
