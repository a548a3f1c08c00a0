/** The steps of a caller keep the invariant. */
module ThreadPoolCallers {
  import opened Division
  import opened ThreadPool
  import opened ThreadPoolInvariant
  import opened ThreadPoolSteps
  import opened ThreadPoolWork

  ghost predicate Calling(cfg: Config, s: State, i: nat, pc: ClientPc, s': State) {
    && Inv(cfg, s) && Pointers(cfg, s) && i < |s.clients| && s.clients[i].pc == pc && pc != Idle
    && ClientStep(cfg, s, i) == Some(s')
  }

  // ----- what a step of one caller leaves alone -----

  /** The step changes nothing of the workers, and of the calls only the caller's own. */
  ghost predicate OwnStep(s: State, i: nat, s': State) {
    && i < |s.clients| == |s'.clients| && s.clients[i].call < |s.calls| == |s'.calls|
    && s'.clients == s.clients[i := s'.clients[i]] && s'.clients[i].call == s.clients[i].call
    && s'.calls == s.calls[s.clients[i].call := s'.calls[s.clients[i].call]]
    && s'.calls[s.clients[i].call].client == s.calls[s.clients[i].call].client
    && s'.workers == s.workers && s'.taken == s.taken && s'.deq == s.deq && s'.deqPos == s.deqPos && s'.deqMutex == s.deqMutex
    && |s.items| <= |s'.items| && s'.items[..|s.items|] == s.items
    && |s'.slots| == |s.slots|
  }

  lemma SameItems(s: State, s': State)
    requires |s.items| <= |s'.items| && s'.items[..|s.items|] == s.items
    ensures forall t :: 0 <= t < |s.items| ==> s'.items[t] == s.items[t]
  {
    forall t | 0 <= t < |s.items| ensures s'.items[t] == s.items[t] { assert s'.items[..|s.items|][t] == s.items[t]; }
  }

  /** The calls of the others, if their slots still name them. */
  lemma OtherCalls(cfg: Config, s: State, i: nat, s': State)
    requires Inv(cfg, s) && OwnStep(s, i, s') && s.clients[i].pc != Idle
    requires forall k :: 0 <= k < |s.slots| && s.slots[k].own.Some? && s.slots[k].own.value != s.clients[i].call ==> s'.slots[k].own == s.slots[k].own
    ensures forall c :: 0 <= c < |s.calls| && c != s.clients[i].call ==> CallInv(cfg, s', c)
  {
    SameItems(s, s');
    forall c | 0 <= c < |s.calls| && c != s.clients[i].call ensures CallInv(cfg, s', c) {
      assert CallInv(cfg, s, c);
      forall t {:trigger CountedFor(s', t, c)} | 0 <= t ensures CountedFor(s', t, c) == CountedFor(s, t, c) {
        assert t >= |s.items| ==> !Counted(s', t);
      }
      SameCall(cfg, s, s', c);
    }
  }

  lemma OtherClients(cfg: Config, s: State, i: nat, s': State)
    requires Inv(cfg, s) && OwnStep(s, i, s') && s.clients[i].pc != Idle
    requires s'.enqMutex == s.enqMutex || (s.enqMutex.None? && s'.enqMutex == Some(i)) || (s.enqMutex == Some(i) && s'.enqMutex.None?)
    requires s.enqMutex == Some(i) || (s'.items == s.items && s'.enq == s.enq && s'.pub == s.pub)
    requires forall k :: 0 <= k < |s.slots| && s.slots[k].state == Free ==> s'.slots[k].state == Free || s.enqMutex == Some(i)
    ensures forall j :: 0 <= j < |s.clients| && j != i ==> ClientInv(cfg, s', j)
  {
    assert ClientInv(cfg, s, i);
    forall j | 0 <= j < |s.clients| && j != i ensures ClientInv(cfg, s', j) { assert ClientInv(cfg, s, j); }
  }

  /** The items, if the caller's call keeps its place and the slots stay theirs. */
  ghost predicate KeepsPlace(s: State, i: nat, s': State)
    requires OwnStep(s, i, s')
  {
    var c := s.clients[i].call;
    && s'.items == s.items && s'.pub == s.pub && s'.enq >= s.enq
    && s'.calls[c] == s.calls[c].(left := s'.calls[c].left, stage := s'.calls[c].stage, frag := s'.calls[c].frag, slot := s'.calls[c].slot)
    && Todo(s', c) == Todo(s, c)
    && (forall k :: 0 <= k < |s.slots| ==> s'.slots[k].work == s.slots[k].work && s'.slots[k].first == s.slots[k].first)
  }

  lemma PlaceItems(cfg: Config, s: State, i: nat, s': State)
    requires Inv(cfg, s) && OwnStep(s, i, s') && KeepsPlace(s, i, s') && s.clients[i].pc != Idle
    requires forall k :: 0 <= k < |s.slots| ==> s'.slots[k].state == s.slots[k].state
    requires var c := s.clients[i].call; (s'.calls[c].stage == Released <==> s.calls[c].stage == Released) && (s.calls[c].stage != Uncounted ==> s'.calls[c].stage != Uncounted)
    ensures forall t :: 0 <= t < |s'.items| ==> ItemInv(cfg, s', t)
  {
    forall t | 0 <= t < |s'.items| ensures ItemInv(cfg, s', t) { assert ItemInv(cfg, s, t); }
  }

  lemma SameWorkers(cfg: Config, s: State, i: nat, s': State)
    requires Inv(cfg, s) && OwnStep(s, i, s') && s'.pub >= s.pub
    requires var c := s.clients[i].call; !s.calls[c].stage.Last? || s'.calls[c].stage == s.calls[c].stage
    requires var c := s.clients[i].call; s'.calls[c].job == s.calls[c].job && (s'.calls[c].first == s.calls[c].first || forall t :: 0 <= t < |s.items| ==> s.items[t].call != c)
    ensures forall w :: 0 <= w < |s'.workers| ==> WorkerInv(cfg, s', w)
  {
    SameItems(s, s');
    forall w | 0 <= w < |s'.workers| ensures WorkerInv(cfg, s', w) {
      assert WorkerInv(cfg, s, w);
      if Claimed(s.workers[w].pc) { assert ItemInv(cfg, s, s.workers[w].ticket); }
    }
  }

  // ----- steps that change the caller's position only -----

  lemma QuietCaller(cfg: Config, s: State, i: nat, s': State)
    requires Inv(cfg, s) && OwnStep(s, i, s') && s.clients[i].pc != Idle
    requires s' == s.(clients := s'.clients, enqMutex := s'.enqMutex, readyEvent := s'.readyEvent, completedEvent := s'.completedEvent)
    requires s'.enqMutex == s.enqMutex || (s.enqMutex == Some(i) && s'.enqMutex.None?)
    requires Counters(cfg, s') && ClientInv(cfg, s', i) && CallerWakes(cfg, s', i)
    requires Todo(s', s.clients[i].call) == Todo(s, s.clients[i].call) && CallInv(cfg, s', s.clients[i].call)
    requires s'.completedEvent || (s.clients[i].pc != Announce && (s'.completedEvent == s.completedEvent || s.enqMutex == Some(i)))
    requires s'.readyEvent || (s'.readyEvent == s.readyEvent && s.clients[i].pc != Wake)
    ensures Inv(cfg, s')
  {
    OtherCalls(cfg, s, i, s');
    OtherClients(cfg, s, i, s');
    PlaceItems(cfg, s, i, s');
    SameWorkers(cfg, s, i, s');
    forall k | 0 <= k < |s'.slots| ensures SlotInv(cfg, s', k) { assert SlotInv(cfg, s, k); }
    forall j | 0 <= j < |s'.clients| ensures CallerWakes(cfg, s', j) { QuietWakes(cfg, s, i, s', j); }
    forall w | 0 <= w < |s'.workers| ensures WorkerWakes(cfg, s', w) { assert WorkerWakes(cfg, s, w); }
  }

  lemma QuietWakes(cfg: Config, s: State, i: nat, s': State, j: nat)
    requires Inv(cfg, s) && OwnStep(s, i, s') && s.clients[i].pc != Idle && j < |s.clients|
    requires s' == s.(clients := s'.clients, enqMutex := s'.enqMutex, readyEvent := s'.readyEvent, completedEvent := s'.completedEvent)
    requires CallerWakes(cfg, s', i)
    requires s'.completedEvent || (s.clients[i].pc != Announce && (s'.completedEvent == s.completedEvent || s.enqMutex == Some(i)))
    ensures CallerWakes(cfg, s', j)
  {
    assert CallerWakes(cfg, s, j) && ClientInv(cfg, s, j);
    if j != i && !s'.completedEvent && |s.items| >= cfg.size && Announced(s, |s.items| - cfg.size) {
      assert Announced(s', |s.items| - cfg.size);
    }
  }

  /** The caller's own call, at steps that do not change it. */
  lemma OwnCall(cfg: Config, s: State, i: nat, s': State)
    requires Inv(cfg, s) && OwnStep(s, i, s') && s.clients[i].pc != Idle && s'.clients[i].pc != Idle
    requires s' == s.(clients := s'.clients, enqMutex := s'.enqMutex, readyEvent := s'.readyEvent, completedEvent := s'.completedEvent)
    requires Pending(s'.clients[i].pc) == Pending(s.clients[i].pc)
    ensures Todo(s', s.clients[i].call) == Todo(s, s.clients[i].call) && CallInv(cfg, s', s.clients[i].call)
  {
    assert ClientInv(cfg, s, i) && CallInv(cfg, s, s.clients[i].call);
    SameCall(cfg, s, s', s.clients[i].call);
  }

  lemma ProbeFirstStep(cfg: Config, s: State, i: nat, s': State)
    requires Calling(cfg, s, i, ProbeFirst, s')
    ensures Inv(cfg, s')
  {
    assert ClientInv(cfg, s, i);
    OwnCall(cfg, s, i, s');
    QuietCaller(cfg, s, i, s');
  }

  lemma SleepFirstStep(cfg: Config, s: State, i: nat, s': State)
    requires Calling(cfg, s, i, SleepFirst, s')
    ensures Inv(cfg, s')
  {
    assert ClientInv(cfg, s, i);
    OwnCall(cfg, s, i, s');
    QuietCaller(cfg, s, i, s');
  }

  lemma ProbeStep(cfg: Config, s: State, i: nat, s': State)
    requires Calling(cfg, s, i, Probe, s')
    ensures Inv(cfg, s')
  {
    assert ClientInv(cfg, s, i);
    OwnCall(cfg, s, i, s');
    QuietCaller(cfg, s, i, s');
  }

  lemma SleepStep(cfg: Config, s: State, i: nat, s': State)
    requires Calling(cfg, s, i, Sleep, s')
    ensures Inv(cfg, s')
  {
    assert ClientInv(cfg, s, i);
    OwnCall(cfg, s, i, s');
    QuietCaller(cfg, s, i, s');
  }

  lemma LastFragmentStep(cfg: Config, s: State, i: nat, s': State)
    requires Calling(cfg, s, i, NextFragment, s') && s.calls[s.clients[i].call].frag == 0
    ensures Inv(cfg, s')
  {
    assert ClientInv(cfg, s, i);
    OwnCall(cfg, s, i, s');
    QuietCaller(cfg, s, i, s');
  }

  lemma WakeStep(cfg: Config, s: State, i: nat, s': State)
    requires Calling(cfg, s, i, Wake, s')
    ensures Inv(cfg, s')
  {
    assert ClientInv(cfg, s, i);
    OwnCall(cfg, s, i, s');
    QuietCaller(cfg, s, i, s');
  }

  // ----- leaving -----

  /** The caller's own call, when the caller returns. */
  lemma LeftCall(cfg: Config, s: State, i: nat, s': State)
    requires Inv(cfg, s) && OwnStep(s, i, s') && s.clients[i].pc != Idle && s'.clients[i].pc == Idle
    requires s' == s.(clients := s'.clients, enqMutex := s'.enqMutex, readyEvent := s'.readyEvent, completedEvent := s'.completedEvent)
    requires s.clients[i].pc == Announce || (s.clients[i].pc == Leave && s.calls[s.clients[i].call].job.derive)
    ensures Todo(s', s.clients[i].call) == Todo(s, s.clients[i].call) && CallInv(cfg, s', s.clients[i].call)
  {
    var c := s.clients[i].call;
    assert ClientInv(cfg, s, i) && CallInv(cfg, s, c);
    SameUnits(cfg, s, s', c);
    forall t ensures CountedFor(s', t, c) == CountedFor(s, t, c) { }
    StillConsecutive(s, s', c);
  }

  lemma LeaveStep(cfg: Config, s: State, i: nat, s': State)
    requires Calling(cfg, s, i, Leave, s')
    ensures Inv(cfg, s')
  {
    assert ClientInv(cfg, s, i);
    if s.calls[s.clients[i].call].job.derive { LeftCall(cfg, s, i, s'); } else { OwnCall(cfg, s, i, s'); }
    QuietCaller(cfg, s, i, s');
  }

  lemma AnnounceStep(cfg: Config, s: State, i: nat, s': State)
    requires Calling(cfg, s, i, Announce, s')
    ensures Inv(cfg, s')
  {
    assert ClientInv(cfg, s, i);
    LeftCall(cfg, s, i, s');
    QuietCaller(cfg, s, i, s');
  }

  // ----- entering and counting -----

  lemma NoItemsYet(cfg: Config, s: State, c: nat)
    requires Inv(cfg, s) && c < |s.calls| && s.calls[c].frag == s.calls[c].n
    ensures forall t :: 0 <= t < |s.items| ==> s.items[t].call != c
  {
    forall t | 0 <= t < |s.items| ensures s.items[t].call != c { assert ItemInv(cfg, s, t); }
  }

  lemma EnterStep(cfg: Config, s: State, i: nat, s': State)
    requires Calling(cfg, s, i, Enter, s')
    ensures Inv(cfg, s')
  {
    hide SlotInv, UnitInv, CallerWakes, WorkerWakes;
    var c := s.clients[i].call;
    assert ClientInv(cfg, s, i) && CallInv(cfg, s, c);
    NoItemsYet(cfg, s, c);
    OtherCalls(cfg, s, i, s');
    OtherClients(cfg, s, i, s');
    SameWorkers(cfg, s, i, s');
    EnterCall(cfg, s, i, s');
    forall t | 0 <= t < |s'.items| ensures ItemInv(cfg, s', t) { assert ItemInv(cfg, s, t); }
    EnterRest(cfg, s, i, s');
  }

  lemma EnterRest(cfg: Config, s: State, i: nat, s': State)
    requires Calling(cfg, s, i, Enter, s')
    ensures forall k :: 0 <= k < |s'.slots| ==> SlotInv(cfg, s', k)
    ensures forall j :: 0 <= j < |s'.clients| ==> CallerWakes(cfg, s', j)
    ensures forall w :: 0 <= w < |s'.workers| ==> WorkerWakes(cfg, s', w)
  {
    hide ItemInv, WorkerInv, UnitInv;
    assert ClientInv(cfg, s, i) && CallInv(cfg, s, s.clients[i].call);
    forall k | 0 <= k < |s'.slots| ensures SlotInv(cfg, s', k) { assert SlotInv(cfg, s, k); }
    forall j | 0 <= j < |s'.clients| ensures CallerWakes(cfg, s', j) { assert CallerWakes(cfg, s, j) && ClientInv(cfg, s, j); }
    forall w | 0 <= w < |s'.workers| ensures WorkerWakes(cfg, s', w) { assert WorkerWakes(cfg, s, w); }
  }

  lemma EnterCall(cfg: Config, s: State, i: nat, s': State)
    requires Calling(cfg, s, i, Enter, s')
    ensures s.clients[i].call < |s'.calls| && CallInv(cfg, s', s.clients[i].call)
  {
    hide WorkerInv, ItemInv, SlotInv, CallerWakes, WorkerWakes, UnitInv, Rest;
    var c := s.clients[i].call;
    assert ClientInv(cfg, s, i) && CallInv(cfg, s, c);
    SameUnits(cfg, s, s', c);
  }

  /** A slot with the first fragment of an open call is in use. */
  lemma OwnedBusy(cfg: Config, s: State, k: nat)
    requires Inv(cfg, s) && k < |s.slots| && s.slots[k].own.Some? && s.pub == |s.items|
    requires s.enqMutex.Some? && s.enqMutex.value < |s.clients| && s.clients[s.enqMutex.value].call < |s.calls|
    requires s.calls[s.clients[s.enqMutex.value].call].stage == Uncounted
    ensures s.slots[k].state != Free
  {
    assert SlotInv(cfg, s, k);
    var c := s.slots[k].own.value;
    assert CallInv(cfg, s, c) && ClientInv(cfg, s, s.calls[c].client);
    assert Issued(s, s.calls[c].first, c);
    assert ItemInv(cfg, s, s.calls[c].first);
  }

  lemma SetCountStep(cfg: Config, s: State, i: nat, s': State)
    requires Calling(cfg, s, i, SetCount, s')
    ensures Inv(cfg, s')
  {
    hide SlotInv, UnitInv, WorkerInv, CallerWakes, WorkerWakes, Rest, ItemInv;
    var c := s.clients[i].call;
    assert ClientInv(cfg, s, i) && CallInv(cfg, s, c);
    if s.slots[s.calls[c].firstSlot].own.Some? { OwnedBusy(cfg, s, s.calls[c].firstSlot); }
    NoItemsYet(cfg, s, c);
    OtherCalls(cfg, s, i, s');
    OtherClients(cfg, s, i, s');
    SameWorkers(cfg, s, i, s');
    SetCountCall(cfg, s, i, s');
    SetCountItems(cfg, s, i, s');
    SetCountSlots(cfg, s, i, s');
    SetCountWakes(cfg, s, i, s');
  }

  lemma SetCountWakes(cfg: Config, s: State, i: nat, s': State)
    requires Calling(cfg, s, i, SetCount, s')
    ensures forall j :: 0 <= j < |s'.clients| ==> CallerWakes(cfg, s', j)
    ensures forall w :: 0 <= w < |s'.workers| ==> WorkerWakes(cfg, s', w)
  {
    hide CallInv, ItemInv, SlotInv, WorkerInv;
    assert ClientInv(cfg, s, i);
    forall j | 0 <= j < |s'.clients| ensures CallerWakes(cfg, s', j) { assert ClientInv(cfg, s, j); }
    forall w | 0 <= w < |s'.workers| ensures WorkerWakes(cfg, s', w) { assert WorkerWakes(cfg, s, w); }
  }

  lemma SetCountItems(cfg: Config, s: State, i: nat, s': State)
    requires Calling(cfg, s, i, SetCount, s')
    ensures forall t :: 0 <= t < |s'.items| ==> ItemInv(cfg, s', t)
  {
    hide SlotInv, UnitInv, WorkerInv, CallerWakes, WorkerWakes, Rest, Consecutive;
    assert ClientInv(cfg, s, i) && CallInv(cfg, s, s.clients[i].call);
    NoItemsYet(cfg, s, s.clients[i].call);
    forall t | 0 <= t < |s'.items| ensures ItemInv(cfg, s', t) { assert ItemInv(cfg, s, t); }
  }

  lemma SetCountSlots(cfg: Config, s: State, i: nat, s': State)
    requires Calling(cfg, s, i, SetCount, s')
    ensures forall k :: 0 <= k < |s'.slots| ==> SlotInv(cfg, s', k)
  {
    var c := s.clients[i].call;
    assert ClientInv(cfg, s, i) && CallInv(cfg, s, c);
    if s.slots[s.calls[c].firstSlot].own.Some? { OwnedBusy(cfg, s, s.calls[c].firstSlot); }
    forall k | 0 <= k < |s'.slots| ensures SlotInv(cfg, s', k) { assert SlotInv(cfg, s, k); }
  }

  lemma SetCountCall(cfg: Config, s: State, i: nat, s': State)
    requires Calling(cfg, s, i, SetCount, s')
    ensures s.clients[i].call < |s'.calls| && CallInv(cfg, s', s.clients[i].call)
  {
    hide WorkerInv, ItemInv, SlotInv, CallerWakes, WorkerWakes, UnitInv, Rest;
    var c := s.clients[i].call;
    assert ClientInv(cfg, s, i) && CallInv(cfg, s, c);
    NoItemsYet(cfg, s, c);
    assert s.calls[c].first in s'.calls[c].left;
    SameUnits(cfg, s, s', c);
  }

  // ----- taking a ticket -----

  lemma TakeTicketStep(cfg: Config, s: State, i: nat, s': State)
    requires Calling(cfg, s, i, NextFragment, s') && s.calls[s.clients[i].call].frag > 0
    ensures Inv(cfg, s')
  {
    hide ItemInv, UnitInv, WorkerInv, Rest, Consecutive;
    var c := s.clients[i].call;
    assert ClientInv(cfg, s, i) && CallInv(cfg, s, c);
    AdvanceMod(s.enq, cfg.size);
    OtherCalls(cfg, s, i, s');
    OtherClients(cfg, s, i, s');
    PlaceItems(cfg, s, i, s');
    SameWorkers(cfg, s, i, s');
    TakeTicketCall(cfg, s, i, s');
    forall k | 0 <= k < |s'.slots| ensures SlotInv(cfg, s', k) { assert SlotInv(cfg, s, k); }
    forall j | 0 <= j < |s'.clients| ensures CallerWakes(cfg, s', j) { assert ClientInv(cfg, s, j); }
    forall w | 0 <= w < |s'.workers| ensures WorkerWakes(cfg, s', w) { assert WorkerWakes(cfg, s, w); }
  }

  lemma TakeTicketCall(cfg: Config, s: State, i: nat, s': State)
    requires Calling(cfg, s, i, NextFragment, s') && s.calls[s.clients[i].call].frag > 0
    ensures s.clients[i].call < |s'.calls| && CallInv(cfg, s', s.clients[i].call)
  {
    hide WorkerInv, ItemInv, SlotInv, CallerWakes, WorkerWakes;
    var c := s.clients[i].call;
    assert ClientInv(cfg, s, i) && CallInv(cfg, s, c);
    SameUnits(cfg, s, s', c);
    forall t ensures CountedFor(s', t, c) == CountedFor(s, t, c) { }
    StillConsecutive(s, s', c);
  }

  // ----- filling a slot -----

  /** The split into fragments goes on as the locals say. */
  lemma NextRest(todo: nat, per: nat, rem: nat)
    requires todo >= 1 && rem <= todo && per >= 1 && (rem > 0 ==> per >= 2)
    ensures var rem' := if rem > 0 then rem - 1 else 0; var per' := if rem == 1 then per - 1 else per;
            && Rest(todo, per, rem) == per + Rest(todo - 1, per', rem')
            && rem' <= todo - 1 && per' >= 1 && (rem' > 0 ==> per' >= 2)
  {
    if rem > 1 {
      assert rem * per == per + (rem - 1) * per;
      assert (todo - 1) - (rem - 1) == todo - rem;
    } else {
      assert todo * per == per + (todo - 1) * per;
      assert 1 * per == per;
    }
  }

  /** What the ticket that last used the slot has been through. */
  lemma LastUse(cfg: Config, s: State, i: nat, s': State)
    requires Calling(cfg, s, i, Fill, s') && |s.items| >= cfg.size
    ensures s.items[|s.items| - cfg.size].call < |s.calls| && Vacated(s, |s.items| - cfg.size)
  {
    var t := |s.items| - cfg.size;
    assert ClientInv(cfg, s, i);
    ModShift(t, cfg.size);
    assert ItemInv(cfg, s, t);
  }

  lemma FillItems(cfg: Config, s: State, i: nat, s': State)
    requires Calling(cfg, s, i, Fill, s')
    ensures forall t :: 0 <= t < |s.items| ==> t < |s'.items| && ItemInv(cfg, s', t)
  {
    hide UnitInv, WorkerInv, SlotInv, CallerWakes, WorkerWakes, Rest, CallInv, ClientInv, OwnStep;
    FillOwn(cfg, s, i, s');
    SameItems(s, s');
    if |s.items| >= cfg.size { LastUse(cfg, s, i, s'); }
    forall t | 0 <= t < |s.items| ensures t < |s'.items| && ItemInv(cfg, s', t) {
      assert ItemInv(cfg, s, t);
      FillItem(cfg, s, i, s', t);
    }
  }

  lemma FillOwn(cfg: Config, s: State, i: nat, s': State)
    requires Calling(cfg, s, i, Fill, s')
    ensures OwnStep(s, i, s') && s.clients[i].call < |s.calls| && CallInv(cfg, s, s.clients[i].call)
    ensures |s'.items| == |s.items| + 1 && s'.items[..|s.items|] == s.items
  {
    hide UnitInv, WorkerInv, SlotInv, ItemInv, CallerWakes, WorkerWakes, Rest;
    assert ClientInv(cfg, s, i) && CallInv(cfg, s, s.clients[i].call);
  }

  lemma FillItem(cfg: Config, s: State, i: nat, s': State, t: nat)
    requires Calling(cfg, s, i, Fill, s') && t < |s.items| && ItemInv(cfg, s, t) && OwnStep(s, i, s') && CallInv(cfg, s, s.clients[i].call)
    requires t + cfg.size == |s.items| ==> Vacated(s, t)
    ensures t < |s'.items| && ItemInv(cfg, s', t)
  {
    assert ClientInv(cfg, s, i);
    assert s'.items[t] == s.items[t];
    if t + cfg.size > |s.items| { ModApart(t, |s.items|, cfg.size); }
  }

  /** The new item. */
  lemma FillNew(cfg: Config, s: State, i: nat, s': State)
    requires Calling(cfg, s, i, Fill, s')
    ensures |s'.items| == |s.items| + 1 && ItemInv(cfg, s', |s.items|)
  {
    assert ClientInv(cfg, s, i) && CallInv(cfg, s, s.clients[i].call);
  }

  lemma FillCall(cfg: Config, s: State, i: nat, s': State)
    requires Calling(cfg, s, i, Fill, s')
    ensures s.clients[i].call < |s'.calls| && CallInv(cfg, s', s.clients[i].call)
  {
    hide WorkerInv, ItemInv, SlotInv, CallerWakes, WorkerWakes, UnitInv, Rest, Progress, Counted, CountedFor, Consecutive, Todo;
    var c := s.clients[i].call;
    assert ClientInv(cfg, s, i) && CallInv(cfg, s, c);
    FillRest(cfg, s, i, s');
    FillUnits(cfg, s, i, s');
    FillCounted(cfg, s, i, s');
    NotFlagged(cfg, s, c);
    FillConsecutive(cfg, s, i, s');
  }

  /** The split goes on. */
  lemma FillRest(cfg: Config, s: State, i: nat, s': State)
    requires Calling(cfg, s, i, Fill, s')
    ensures s.clients[i].call < |s'.calls|
    ensures var c := s.clients[i].call; var call := s'.calls[c];
            && Todo(s, c) > 0 && call.rem <= Todo(s', c) <= call.n && 1 <= call.per && (call.rem > 0 ==> 2 <= call.per)
            && call.off + Rest(Todo(s', c), call.per, call.rem) == |call.orig| && call.unit == call.job.start + call.off
            && |call.cover| == call.off
  {
    hide WorkerInv, ItemInv, SlotInv, CallerWakes, WorkerWakes, UnitInv, Rest, Consecutive, Todo, NextLocals;
    var c := s.clients[i].call;
    assert ClientInv(cfg, s, i) && CallInv(cfg, s, c);
    FillTodo(cfg, s, i, s');
    LocalsRest(s.calls[c], Todo(s, c), |s.items|);
  }

  lemma FillTodo(cfg: Config, s: State, i: nat, s': State)
    requires Calling(cfg, s, i, Fill, s')
    ensures s.clients[i].call < |s'.calls| && s'.calls[s.clients[i].call] == NextLocals(s.calls[s.clients[i].call], |s.items|)
    ensures Todo(s, s.clients[i].call) == Todo(s', s.clients[i].call) + 1
  {
    hide CallInv, WorkerInv, ItemInv, SlotInv, CallerWakes, WorkerWakes;
    assert ClientInv(cfg, s, i);
  }

  lemma LocalsRest(call: Call, todo: nat, t: nat)
    requires 1 <= todo <= call.n && call.rem <= todo && 1 <= call.per && (call.rem > 0 ==> 2 <= call.per)
    requires call.off + Rest(todo, call.per, call.rem) == |call.orig| && call.unit == call.job.start + call.off
    requires |call.cover| == call.off
    ensures var call' := NextLocals(call, t);
            && call'.rem <= todo - 1 <= call'.n && 1 <= call'.per && (call'.rem > 0 ==> 2 <= call'.per)
            && call'.off + Rest(todo - 1, call'.per, call'.rem) == |call'.orig| && call'.unit == call'.job.start + call'.off
            && |call'.cover| == call'.off
  {
    hide Rest;
    NextRest(todo, call.per, call.rem);
  }

  lemma FillUnits(cfg: Config, s: State, i: nat, s': State)
    requires Calling(cfg, s, i, Fill, s')
    ensures s.clients[i].call < |s'.calls|
    ensures var c := s.clients[i].call;
            |s'.calls[c].orig| == |s'.calls[c].buf| == |s'.calls[c].times|
            && forall u :: 0 <= u < |s'.calls[c].orig| ==> UnitInv(cfg, s', c, u)
  {
    hide WorkerInv, ItemInv, SlotInv, CallerWakes, WorkerWakes, UnitInv, Rest, Progress, Counted, CountedFor, Consecutive;
    var c := s.clients[i].call;
    assert ClientInv(cfg, s, i) && CallInv(cfg, s, c);
    forall u | 0 <= u < |s.calls[c].orig|
      ensures u < |s'.calls[c].orig| == |s'.calls[c].buf| == |s'.calls[c].times| && UnitInv(cfg, s', c, u)
    {
      FillUnit(cfg, s, i, s', u);
    }
  }

  lemma FillCounted(cfg: Config, s: State, i: nat, s': State)
    requires Calling(cfg, s, i, Fill, s')
    ensures forall t: nat :: CountedFor(s', t, s.clients[i].call) == CountedFor(s, t, s.clients[i].call)
  {
    hide CallInv, ItemInv, SlotInv, WorkerInv, CallerWakes, WorkerWakes;
    SameItems(s, s');
    forall t: nat ensures CountedFor(s', t, s.clients[i].call) == CountedFor(s, t, s.clients[i].call) {
      if t >= |s.items| { assert !Counted(s, t) && !Counted(s', t); }
    }
  }

  /** A key that has yet to be filled in is not flagged. */
  lemma NotFlagged(cfg: Config, s: State, c: nat)
    requires c < |s.calls| && CallInv(cfg, s, c) && Todo(s, c) > 0
    ensures !s.calls[c].flag
  {
    NextRest(Todo(s, c), s.calls[c].per, s.calls[c].rem);
    RestNatural(Todo(s, c) - 1, s.calls[c].per, s.calls[c].rem);
  }

  lemma RestNatural(todo: nat, per: nat, rem: nat)
    ensures Rest(todo, per, rem) >= 0
  {
  }

  lemma FillConsecutive(cfg: Config, s: State, i: nat, s': State)
    requires Calling(cfg, s, i, Fill, s')
    ensures s.clients[i].call < |s'.calls| && Consecutive(s', s.clients[i].call)
  {
    var c := s.clients[i].call;
    assert ClientInv(cfg, s, i) && CallInv(cfg, s, c);
    SameItems(s, s');
    var call := s'.calls[c];
    forall t {:trigger Issued(s', t, c)} | 0 <= t && call.first <= t && t + Todo(s', c) < call.first + call.n ensures Issued(s', t, c) {
      if t < |s.items| { assert Issued(s, t, c); }
    }
  }

  lemma FillUnit(cfg: Config, s: State, i: nat, s': State, u: nat)
    requires Calling(cfg, s, i, Fill, s') && s.clients[i].call < |s.calls| && CallInv(cfg, s, s.clients[i].call)
    requires u < |s.calls[s.clients[i].call].orig|
    ensures var c := s.clients[i].call;
            c < |s'.calls| && u < |s'.calls[c].orig| == |s'.calls[c].buf| == |s'.calls[c].times| && UnitInv(cfg, s', c, u)
  {
    var c := s.clients[i].call;
    assert UnitInv(cfg, s, c, u);
    if u < s.calls[c].off {
      assert s'.calls[c].cover[u] == s.calls[c].cover[u];
      assert Reached(s', c, u) == Reached(s, c, u);
    } else if u < s'.calls[c].off {
      assert s'.calls[c].cover[u] == |s.items|;
    }
  }

  lemma FillFrame(cfg: Config, s: State, i: nat, s': State)
    requires Calling(cfg, s, i, Fill, s')
    ensures Counters(cfg, s') && OwnStep(s, i, s')
    ensures forall j :: 0 <= j < |s'.clients| ==> ClientInv(cfg, s', j)
    ensures forall w :: 0 <= w < |s'.workers| ==> WorkerInv(cfg, s', w)
  {
    hide CallInv, ItemInv, SlotInv, CallerWakes, WorkerWakes, WorkerInv;
    assert ClientInv(cfg, s, i);
    OtherClients(cfg, s, i, s');
    SameWorkers(cfg, s, i, s');
  }

  lemma FillStep(cfg: Config, s: State, i: nat, s': State)
    requires Calling(cfg, s, i, Fill, s')
    ensures Inv(cfg, s')
  {
    hide CallInv, ItemInv, SlotInv, WorkerInv, ClientInv, CallerWakes, WorkerWakes, Counters;
    assert ClientInv(cfg, s, i);
    FillFrame(cfg, s, i, s');
    OtherCalls(cfg, s, i, s');
    FillCall(cfg, s, i, s');
    FillItems(cfg, s, i, s');
    FillNew(cfg, s, i, s');
    FillSlots(cfg, s, i, s');
    FillWakes(cfg, s, i, s');
  }

  lemma FillWakes(cfg: Config, s: State, i: nat, s': State)
    requires Calling(cfg, s, i, Fill, s')
    ensures forall j :: 0 <= j < |s'.clients| ==> CallerWakes(cfg, s', j)
    ensures forall w :: 0 <= w < |s'.workers| ==> WorkerWakes(cfg, s', w)
  {
    hide CallInv, ItemInv, SlotInv, WorkerInv;
    assert ClientInv(cfg, s, i);
    forall j | 0 <= j < |s'.clients| ensures CallerWakes(cfg, s', j) { assert ClientInv(cfg, s, j); }
    forall w | 0 <= w < |s'.workers| ensures WorkerWakes(cfg, s', w) { assert WorkerWakes(cfg, s, w); }
  }

  lemma FillSlots(cfg: Config, s: State, i: nat, s': State)
    requires Calling(cfg, s, i, Fill, s')
    ensures forall k :: 0 <= k < |s'.slots| ==> SlotInv(cfg, s', k)
  {
    hide UnitInv, WorkerInv, ItemInv, CallerWakes, WorkerWakes, Rest, Consecutive;
    assert ClientInv(cfg, s, i) && CallInv(cfg, s, s.clients[i].call);
    forall k | 0 <= k < |s'.slots| ensures SlotInv(cfg, s', k) { assert SlotInv(cfg, s, k); }
  }

  // ----- making a slot ready -----

  lemma PublishItems(cfg: Config, s: State, i: nat, s': State)
    requires Calling(cfg, s, i, Publish, s')
    ensures forall t :: 0 <= t < |s'.items| ==> ItemInv(cfg, s', t)
  {
    assert ClientInv(cfg, s, i);
    var t0 := s.pub;
    forall t | 0 <= t < |s'.items| ensures ItemInv(cfg, s', t) {
      assert ItemInv(cfg, s, t);
      if t < t0 && t + cfg.size >= |s.items| { ModApart(t, t0, cfg.size); }
    }
  }

  lemma PublishWakes(cfg: Config, s: State, i: nat, s': State)
    requires Calling(cfg, s, i, Publish, s')
    ensures forall j :: 0 <= j < |s'.clients| ==> CallerWakes(cfg, s', j)
    ensures forall w :: 0 <= w < |s'.workers| ==> WorkerWakes(cfg, s', w)
  {
    hide CallInv, ItemInv, SlotInv, WorkerInv;
    assert ClientInv(cfg, s, i);
    forall j | 0 <= j < |s'.clients| ensures CallerWakes(cfg, s', j) { assert ClientInv(cfg, s, j); }
    forall w | 0 <= w < |s'.workers| ensures WorkerWakes(cfg, s', w) { assert WorkerWakes(cfg, s, w); }
  }

  lemma PublishStep(cfg: Config, s: State, i: nat, s': State)
    requires Calling(cfg, s, i, Publish, s')
    ensures Inv(cfg, s')
  {
    hide ItemInv, SlotInv, UnitInv, WorkerInv, Rest, Vacated, CallerWakes, WorkerWakes;
    var c := s.clients[i].call;
    assert ClientInv(cfg, s, i) && CallInv(cfg, s, c);
    OtherCalls(cfg, s, i, s');
    OtherClients(cfg, s, i, s');
    SameWorkers(cfg, s, i, s');
    SameCall(cfg, s, s', c);
    PublishItems(cfg, s, i, s');
    PublishSlots(cfg, s, i, s');
    PublishWakes(cfg, s, i, s');
  }

  lemma PublishSlots(cfg: Config, s: State, i: nat, s': State)
    requires Calling(cfg, s, i, Publish, s')
    ensures forall k :: 0 <= k < |s'.slots| ==> SlotInv(cfg, s', k)
  {
    assert ClientInv(cfg, s, i);
    if s.pub < cfg.size { Euclid(s.pub, s.pub, cfg.size, 0); }
    forall k | 0 <= k < |s'.slots| ensures SlotInv(cfg, s', k) { assert SlotInv(cfg, s, k); }
  }

  // ----- completion -----

  lemma AwaitStep(cfg: Config, s: State, i: nat, s': State)
    requires Calling(cfg, s, i, Await, s')
    ensures Inv(cfg, s')
  {
    AwaitCallers(cfg, s, i, s');
    AwaitItems(cfg, s, i, s');
    StageCall(cfg, s, i, s');
    AwaitSlots(cfg, s, i, s');
    AwaitWakes(cfg, s, i, s');
  }

  lemma AwaitCallers(cfg: Config, s: State, i: nat, s': State)
    requires Calling(cfg, s, i, Await, s')
    ensures Counters(cfg, s')
    ensures forall j :: 0 <= j < |s'.clients| ==> ClientInv(cfg, s', j)
  {
    hide UnitInv, ItemInv, WorkerInv, SlotInv, CallerWakes, WorkerWakes;
    assert ClientInv(cfg, s, i) && CallInv(cfg, s, s.clients[i].call);
    OtherClients(cfg, s, i, s');
  }

  lemma AwaitWakes(cfg: Config, s: State, i: nat, s': State)
    requires Calling(cfg, s, i, Await, s')
    ensures forall j :: 0 <= j < |s'.clients| ==> CallerWakes(cfg, s', j)
    ensures forall w :: 0 <= w < |s'.workers| ==> WorkerWakes(cfg, s', w)
  {
    hide CallInv, ItemInv, SlotInv, WorkerInv;
    assert ClientInv(cfg, s, i);
    forall j | 0 <= j < |s'.clients| ensures CallerWakes(cfg, s', j) { AwaitWake(cfg, s, i, s', j); }
    forall w | 0 <= w < |s'.workers| ensures WorkerWakes(cfg, s', w) { assert WorkerWakes(cfg, s, w); }
  }

  lemma AwaitWake(cfg: Config, s: State, i: nat, s': State, j: nat)
    requires Calling(cfg, s, i, Await, s') && j < |s.clients|
    ensures j < |s'.clients| && CallerWakes(cfg, s', j)
  {
    hide CallInv, ItemInv, SlotInv, WorkerInv, WorkerWakes, Counters;
    assert CallerWakes(cfg, s, j) && ClientInv(cfg, s, j) && ClientInv(cfg, s, i);
    if |s.items| >= cfg.size && Announced(s, |s.items| - cfg.size) { assert Announced(s', |s.items| - cfg.size); }
  }

  lemma AwaitItems(cfg: Config, s: State, i: nat, s': State)
    requires Calling(cfg, s, i, Await, s')
    ensures forall t :: 0 <= t < |s'.items| ==> ItemInv(cfg, s', t)
    ensures forall w :: 0 <= w < |s'.workers| ==> WorkerInv(cfg, s', w)
    ensures forall c :: 0 <= c < |s'.calls| && c != s.clients[i].call ==> CallInv(cfg, s', c)
  {
    var c := s.clients[i].call;
    assert ClientInv(cfg, s, i) && CallInv(cfg, s, c) && SlotInv(cfg, s, s.calls[c].firstSlot);
    OtherCalls(cfg, s, i, s');
    PlaceItems(cfg, s, i, s');
    SameWorkers(cfg, s, i, s');
  }

  lemma AwaitSlots(cfg: Config, s: State, i: nat, s': State)
    requires Calling(cfg, s, i, Await, s')
    ensures forall k :: 0 <= k < |s'.slots| ==> SlotInv(cfg, s', k)
  {
    assert ClientInv(cfg, s, i) && CallInv(cfg, s, s.clients[i].call);
    forall k | 0 <= k < |s'.slots| ensures SlotInv(cfg, s', k) { assert SlotInv(cfg, s, k); }
  }

  /** The caller's own call, when its completion is received or its first slot freed. */
  lemma StageCall(cfg: Config, s: State, i: nat, s': State)
    requires Calling(cfg, s, i, Await, s') || Calling(cfg, s, i, FreeFirst, s')
    ensures s.clients[i].call < |s'.calls| && CallInv(cfg, s', s.clients[i].call)
  {
    hide WorkerInv, ItemInv, SlotInv, CallerWakes, WorkerWakes, UnitInv, Rest, Progress, Counted, CountedFor, Consecutive;
    var c := s.clients[i].call;
    assert ClientInv(cfg, s, i) && CallInv(cfg, s, c);
    if s.clients[i].pc == Await { AwaitedSignalled(cfg, s, i, s'); }
    StageUnits(cfg, s, i, s');
    StageTickets(cfg, s, i, s');
    StillConsecutive(s, s', c);
  }

  /** What a caller waits for has been signalled when it goes on. */
  lemma AwaitedSignalled(cfg: Config, s: State, i: nat, s': State)
    requires Calling(cfg, s, i, Await, s')
    ensures s.clients[i].call < |s.calls| && s.calls[s.clients[i].call].stage == Signalled
  {
    hide WorkerInv, ItemInv, CallerWakes, WorkerWakes, UnitInv, Rest, Consecutive;
    var c := s.clients[i].call;
    assert ClientInv(cfg, s, i) && CallInv(cfg, s, c) && SlotInv(cfg, s, s.calls[c].firstSlot);
  }

  lemma StageUnits(cfg: Config, s: State, i: nat, s': State)
    requires Calling(cfg, s, i, Await, s') || Calling(cfg, s, i, FreeFirst, s')
    ensures s.clients[i].call < |s'.calls|
    ensures var call := s'.calls[s.clients[i].call];
            |call.orig| == |call.buf| == |call.times|
            && forall u :: 0 <= u < |call.orig| ==> UnitInv(cfg, s', s.clients[i].call, u)
  {
    hide WorkerInv, ItemInv, SlotInv, CallerWakes, WorkerWakes, UnitInv, Rest, Consecutive, Progress;
    assert ClientInv(cfg, s, i) && CallInv(cfg, s, s.clients[i].call);
    StageTickets(cfg, s, i, s');
    SameUnits(cfg, s, s', s.clients[i].call);
  }

  lemma StageTickets(cfg: Config, s: State, i: nat, s': State)
    requires Calling(cfg, s, i, Await, s') || Calling(cfg, s, i, FreeFirst, s')
    ensures forall t: nat :: CountedFor(s', t, s.clients[i].call) == CountedFor(s, t, s.clients[i].call)
    ensures forall t: nat :: t < |s.items| ==> t < |s'.items| && Progress(s', t) == Progress(s, t)
  {
    hide WorkerInv, ItemInv, SlotInv, CallInv, CallerWakes, WorkerWakes;
    assert ClientInv(cfg, s, i);
  }

  /** The first fragment of a call that is complete. */
  lemma FirstItem(cfg: Config, s: State, i: nat, s': State)
    requires Calling(cfg, s, i, FreeFirst, s')
    ensures s.clients[i].call < |s.calls|
    ensures var t := s.calls[s.clients[i].call].first;
            && t < |s.taken| && t < |s.items| <= t + cfg.size && s.items[t].call == s.clients[i].call
            && IsFirst(s, t) && IsFirst(s', t) && s.calls[s.clients[i].call].firstSlot == t % cfg.size
  {
    var c := s.clients[i].call;
    assert ClientInv(cfg, s, i) && CallInv(cfg, s, c);
    var t := s.calls[c].first;
    assert t !in s.calls[c].left && CountedFor(s, t, c);
    assert ItemInv(cfg, s, t);
  }

  lemma FreeFirstItem(cfg: Config, s: State, i: nat, s': State, t: nat, t0: nat)
    requires Calling(cfg, s, i, FreeFirst, s') && t < |s.items| && t0 < |s.taken| && t0 < |s.items| && s.items[t0].call == s.clients[i].call
    requires s.clients[i].call < |s.calls| && IsFirst(s, t0) && IsFirst(s', t0) && s.calls[s.clients[i].call].firstSlot == t0 % cfg.size
    requires t + cfg.size >= |s.items| && t % cfg.size == t0 % cfg.size ==> t == t0
    ensures t < |s'.items| && ItemInv(cfg, s', t)
  {
    hide CallInv, WorkerInv, SlotInv, CallerWakes, WorkerWakes, ClientInv;
    assert ItemInv(cfg, s, t);
  }

  lemma FreeFirstItems(cfg: Config, s: State, i: nat, s': State)
    requires Calling(cfg, s, i, FreeFirst, s')
    ensures forall t :: 0 <= t < |s'.items| ==> ItemInv(cfg, s', t)
  {
    hide CallInv, WorkerInv, SlotInv, CallerWakes, WorkerWakes, ClientInv, ItemInv;
    assert ClientInv(cfg, s, i);
    FirstItem(cfg, s, i, s');
    var t0 := s.calls[s.clients[i].call].first;
    forall t | 0 <= t < |s'.items| ensures ItemInv(cfg, s', t) {
      if t + cfg.size >= |s.items| && t % cfg.size == t0 % cfg.size { SameSlot(s, t0, t, cfg.size); }
      FreeFirstItem(cfg, s, i, s', t, t0);
    }
  }

  lemma FreeFirstWakes(cfg: Config, s: State, i: nat, s': State, j: nat)
    requires Calling(cfg, s, i, FreeFirst, s') && j < |s.clients|
    ensures j < |s'.clients| && CallerWakes(cfg, s', j)
  {
    hide CallInv, UnitInv, WorkerInv, SlotInv, ItemInv, WorkerWakes, Counted, Announced, IsFirst, Vacated, Progress;
    assert CallerWakes(cfg, s, j) && ClientInv(cfg, s, j) && ClientInv(cfg, s, i);
    FirstItem(cfg, s, i, s');
    var t := s.calls[s.clients[i].call].first;
    if |s.items| % cfg.size == t % cfg.size {
      SameSlot(s, t, |s.items|, cfg.size);
      FirstAnnounced(cfg, s, i, s', t);
    } else if |s.items| >= cfg.size && Announced(s, |s.items| - cfg.size) {
      OtherAnnounced(cfg, s, i, s', |s.items| - cfg.size);
    }
  }

  lemma FirstAnnounced(cfg: Config, s: State, i: nat, s': State, t: nat)
    requires Calling(cfg, s, i, FreeFirst, s') && t < |s.items| && s.items[t].call == s.clients[i].call && s.clients[i].call < |s.calls|
    requires IsFirst(s', t)
    ensures Announced(s', t)
  {
    hide CallInv, UnitInv, WorkerInv, SlotInv, ItemInv, CallerWakes, WorkerWakes;
    assert ClientInv(cfg, s, i);
  }

  lemma OtherAnnounced(cfg: Config, s: State, i: nat, s': State, t: nat)
    requires Calling(cfg, s, i, FreeFirst, s') && Announced(s, t)
    ensures Announced(s', t)
  {
    hide CallInv, UnitInv, WorkerInv, SlotInv, ItemInv, CallerWakes, WorkerWakes;
    assert ClientInv(cfg, s, i);
  }

  lemma FreeFirstSlots(cfg: Config, s: State, i: nat, s': State)
    requires Calling(cfg, s, i, FreeFirst, s')
    ensures forall k :: 0 <= k < |s'.slots| ==> SlotInv(cfg, s', k)
    ensures forall w :: 0 <= w < |s'.workers| ==> WorkerWakes(cfg, s', w)
  {
    hide WorkerInv, ItemInv, UnitInv, CallerWakes;
    assert ClientInv(cfg, s, i) && CallInv(cfg, s, s.clients[i].call);
    forall k | 0 <= k < |s'.slots| ensures SlotInv(cfg, s', k) { assert SlotInv(cfg, s, k); }
    forall w | 0 <= w < |s'.workers| ensures WorkerWakes(cfg, s', w) { assert WorkerWakes(cfg, s, w); }
  }

  lemma FreeFirstFrame(cfg: Config, s: State, i: nat, s': State)
    requires Calling(cfg, s, i, FreeFirst, s')
    ensures Counters(cfg, s') && OwnStep(s, i, s')
    ensures forall j :: 0 <= j < |s'.clients| ==> ClientInv(cfg, s', j)
    ensures forall w :: 0 <= w < |s'.workers| ==> WorkerInv(cfg, s', w)
    ensures forall c :: 0 <= c < |s'.calls| && c != s.clients[i].call ==> CallInv(cfg, s', c)
  {
    hide WorkerInv, UnitInv, WorkerWakes, SlotInv, ItemInv, CallerWakes, Rest, Consecutive;
    FreeFirstOwn(cfg, s, i, s');
    assert ClientInv(cfg, s, i) && CallInv(cfg, s, s.clients[i].call);
    OtherCalls(cfg, s, i, s');
    OtherClients(cfg, s, i, s');
    SameWorkers(cfg, s, i, s');
  }

  lemma FreeFirstOwn(cfg: Config, s: State, i: nat, s': State)
    requires Calling(cfg, s, i, FreeFirst, s')
    ensures Counters(cfg, s') && OwnStep(s, i, s')
  {
    hide WorkerInv, UnitInv, WorkerWakes, SlotInv, ItemInv, CallerWakes, Rest, Consecutive;
    assert ClientInv(cfg, s, i) && CallInv(cfg, s, s.clients[i].call);
  }

  lemma FreeFirstStep(cfg: Config, s: State, i: nat, s': State)
    requires Calling(cfg, s, i, FreeFirst, s')
    ensures Inv(cfg, s')
  {
    hide CallInv, ClientInv, WorkerInv, WorkerWakes, SlotInv, ItemInv, CallerWakes, Counters;
    FreeFirstFrame(cfg, s, i, s');
    StageCall(cfg, s, i, s');
    FreeFirstItems(cfg, s, i, s');
    FreeFirstSlots(cfg, s, i, s');
    forall j | 0 <= j < |s'.clients| ensures CallerWakes(cfg, s', j) { FreeFirstWakes(cfg, s, i, s', j); }
  }

  // ----- starting -----

  /** The fragments have at least one unit each and together all units. */
  lemma Split(job: Job, data: seq<Block>, client: nat, workers: nat)
    requires workers >= 1 && |data| >= 1
    ensures var call := NewCall(job, data, client, workers);
            && 1 <= call.n <= workers && call.frag == call.n && call.rem <= call.n && 1 <= call.per
            && (call.rem > 0 ==> 2 <= call.per) && Rest(call.n, call.per, call.rem) == |data|
  {
    var units := |data|;
    if units > workers {
      Floor(units, workers);
      SplitSum(units, workers, units / workers, units % workers);
    }
  }

  lemma SplitSum(units: nat, workers: nat, q: nat, r: nat)
    requires units > workers >= 1 && units == q * workers + r && r < workers
    ensures q >= 1 && Rest(workers, q + (if r > 0 then 1 else 0), r) == units
  {
    if r > 0 { assert r * (q + 1) + (workers - r) * q == q * workers + r; }
  }

  lemma StartStep(cfg: Config, s: State, i: nat, job: Job, data: seq<Block>, s': State)
    requires Inv(cfg, s) && CanStart(s, i, job, data) && s' == Start(s, i, job, data)
    ensures Inv(cfg, s')
  {
    hide UnitInv, Rest, WorkerInv, WorkerWakes, CallInv;
    Split(job, data, i, |s.workers|);
    assert ClientInv(cfg, s, i);
    StartCalls(cfg, s, i, job, data, s');
    StartWorkers(cfg, s, i, job, data, s');
    forall j | 0 <= j < |s'.clients| ensures ClientInv(cfg, s', j) { assert ClientInv(cfg, s, j); }
    forall k | 0 <= k < |s'.slots| ensures SlotInv(cfg, s', k) { assert SlotInv(cfg, s, k); }
    forall t | 0 <= t < |s'.items| ensures ItemInv(cfg, s', t) { assert ItemInv(cfg, s, t); }
    forall j | 0 <= j < |s'.clients| ensures CallerWakes(cfg, s', j) { StartWakes(cfg, s, i, job, data, s', j); }
  }

  lemma StartWorkers(cfg: Config, s: State, i: nat, job: Job, data: seq<Block>, s': State)
    requires Inv(cfg, s) && CanStart(s, i, job, data) && s' == Start(s, i, job, data)
    ensures forall w :: 0 <= w < |s'.workers| ==> WorkerInv(cfg, s', w) && WorkerWakes(cfg, s', w)
  {
    hide UnitInv, Rest, ClientInv, CallInv, CallerWakes, SlotInv;
    forall w | 0 <= w < |s'.workers| ensures WorkerInv(cfg, s', w) && WorkerWakes(cfg, s', w) {
      assert WorkerInv(cfg, s, w) && WorkerWakes(cfg, s, w);
      if Claimed(s.workers[w].pc) { assert ItemInv(cfg, s, s.workers[w].ticket); }
    }
  }

  lemma StartWakes(cfg: Config, s: State, i: nat, job: Job, data: seq<Block>, s': State, j: nat)
    requires Inv(cfg, s) && CanStart(s, i, job, data) && s' == Start(s, i, job, data) && j < |s.clients|
    ensures CallerWakes(cfg, s', j)
  {
    assert CallerWakes(cfg, s, j);
    if |s.items| >= cfg.size && Announced(s, |s.items| - cfg.size) {
      assert Announced(s', |s.items| - cfg.size);
    }
  }

  lemma StartCalls(cfg: Config, s: State, i: nat, job: Job, data: seq<Block>, s': State)
    requires Inv(cfg, s) && CanStart(s, i, job, data) && s' == Start(s, i, job, data)
    ensures forall c :: 0 <= c < |s'.calls| ==> CallInv(cfg, s', c)
  {
    Split(job, data, i, |s.workers|);
    forall c | 0 <= c < |s'.calls| ensures CallInv(cfg, s', c) {
      if c < |s.calls| {
        assert CallInv(cfg, s, c);
        SameCall(cfg, s, s', c);
      } else {
        forall u | 0 <= u < |data| ensures UnitInv(cfg, s', c, u) { }
      }
    }
  }

  // ----- all steps of a caller -----

  lemma CallerKeeps(cfg: Config, s: State, i: nat, s': State)
    requires Inv(cfg, s) && Pointers(cfg, s) && i < |s.clients| && ClientStep(cfg, s, i) == Some(s')
    ensures Inv(cfg, s')
  {
    match s.clients[i].pc {
      case Idle =>
      case Enter => EnterStep(cfg, s, i, s');
      case ProbeFirst => ProbeFirstStep(cfg, s, i, s');
      case SleepFirst => SleepFirstStep(cfg, s, i, s');
      case SetCount => SetCountStep(cfg, s, i, s');
      case NextFragment =>
        if s.calls[s.clients[i].call].frag == 0 { LastFragmentStep(cfg, s, i, s'); } else { TakeTicketStep(cfg, s, i, s'); }
      case Probe => ProbeStep(cfg, s, i, s');
      case Sleep => SleepStep(cfg, s, i, s');
      case Fill => FillStep(cfg, s, i, s');
      case Publish => PublishStep(cfg, s, i, s');
      case Wake => WakeStep(cfg, s, i, s');
      case Leave => LeaveStep(cfg, s, i, s');
      case Await => AwaitStep(cfg, s, i, s');
      case FreeFirst => FreeFirstStep(cfg, s, i, s');
      case Announce => AnnounceStep(cfg, s, i, s');
    }
  }
}
