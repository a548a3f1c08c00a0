/** Every step of the thread pool brings it nearer to its rest, so that every call to
    DoWork returns. */
module ThreadPoolLiveness {
  import opened ThreadPool
  import opened ThreadPoolInvariant
  import opened ThreadPoolSteps
  import opened ThreadPoolTheorems
  import opened ThreadPoolHistory

  // ----- sums -----

  function Sum(s: seq<int>): int { if s == [] then 0 else Sum(s[..|s| - 1]) + s[|s| - 1] }

  lemma {:induction false} SumUpdate(s: seq<int>, i: nat, v: int)
    requires i < |s|
    ensures Sum(s[i := v]) == Sum(s) - s[i] + v
    decreases |s|
  {
    var n := |s| - 1;
    if i < n {
      SumUpdate(s[..n], i, v);
      assert s[i := v][..n] == s[..n][i := v];
    } else {
      assert s[i := v][..n] == s[..n];
    }
  }

  lemma SumAppend(s: seq<int>, v: int)
    ensures Sum(s + [v]) == Sum(s) + v
  {
    assert (s + [v])[..|s|] == s;
  }

  lemma {:induction false} SumTail(s: seq<int>)
    requires s != []
    ensures Sum(s) == s[0] + Sum(s[1..])
    decreases |s|
  {
    var n := |s| - 1;
    if n > 0 {
      SumTail(s[..n]);
      assert s[..n][1..] == s[1..][..n - 1];
    }
  }

  lemma {:induction false} SumNatural(s: seq<int>)
    requires forall i :: 0 <= i < |s| ==> s[i] >= 0
    ensures Sum(s) >= 0
  {
    if s != [] { SumNatural(s[..|s| - 1]); }
  }

  // ----- the steps that are left -----

  /** For a caller, apart from the fragments of its call. Setting an event is counted with
      the step that it lets another thread take. */
  function ClientLeft(pc: ClientPc): nat {
    match pc
    case Probe => 26 case Sleep => 25 case Fill => 24 case Publish => 11 case Wake => 10
    case Enter => 11 case ProbeFirst => 10 case SleepFirst => 9 case SetCount => 8
    case NextFragment => 7 case Leave => 6 case Await => 5 case FreeFirst => 4 case Announce => 3 case Idle => 0
  }

  /** For the fragments and units of a call that have not been handed over. */
  function CallLeft(call: Call): int { 20 * call.frag + |call.orig| - call.off }

  /** For a worker, with the units of its item. */
  function WorkerLeft(items: seq<Work>, k: Worker): int {
    var cnt := if k.ticket < |items| then items[k.ticket].cnt else 0;
    match k.pc
    case Unlock => 11 + cnt case Run => 10 + cnt - k.done
    case Finish => 9 case Notify => 8 case Decrement => 5 case Complete => 4
    case Flag => 8 case Vacate => 7 case Report => 6
    case Loop => 3 case Take => 2 case Inspect => 1 case Doze => 0 case Claim => 0
  }

  /** For an item that no worker has claimed. */
  function ItemLeft(item: Work): int { 12 + item.cnt }

  function Clients(s: State): seq<int> { seq(|s.clients|, i requires 0 <= i < |s.clients| => ClientLeft(s.clients[i].pc)) }
  function Calls(s: State): seq<int> { seq(|s.calls|, c requires 0 <= c < |s.calls| => CallLeft(s.calls[c])) }
  function Workers(s: State): seq<int> {
    seq(|s.workers|, w requires 0 <= w < |s.workers| => WorkerLeft(s.items, s.workers[w]))
  }
  function Items(s: State): seq<int>
    requires |s.taken| <= |s.items|
  {
    seq(|s.items| - |s.taken|, k requires 0 <= k < |s.items| - |s.taken| => ItemLeft(s.items[|s.taken| + k]))
  }

  function Left(s: State): int
    requires |s.taken| <= |s.items|
  {
    Sum(Clients(s)) + Sum(Calls(s)) + Sum(Workers(s)) + Sum(Items(s))
    + (if s.completedEvent then 2 else 0) + (if s.readyEvent then 2 else 0)
  }

  /** What a call costs: every step that it can cause. */
  function Cost(call: Call): int { 12 + 20 * call.n + |call.orig| }

  function Costs(s: State): seq<int> { seq(|s.calls|, c requires 0 <= c < |s.calls| => Cost(s.calls[c])) }

  lemma LeftNatural(cfg: Config, s: State)
    requires Inv(cfg, s)
    ensures |s.taken| <= |s.items| && Left(s) >= 0
  {
    hide CallInv, ClientInv, ItemInv, SlotInv, WorkerInv, CallerWakes, WorkerWakes, Clients, Calls, Workers, Items, Sum;
    ClientsNatural(s);
    CallsNatural(cfg, s);
    WorkersNatural(cfg, s);
    ItemsNatural(s);
  }

  lemma ClientsNatural(s: State)
    ensures Sum(Clients(s)) >= 0
  {
    forall i | 0 <= i < |s.clients| ensures Clients(s)[i] >= 0 { assert Clients(s)[i] == ClientLeft(s.clients[i].pc); }
    SumNatural(Clients(s));
  }

  lemma ItemsNatural(s: State)
    requires |s.taken| <= |s.items|
    ensures Sum(Items(s)) >= 0
  {
    forall k | 0 <= k < |s.items| - |s.taken| ensures Items(s)[k] >= 0 { assert Items(s)[k] == ItemLeft(s.items[|s.taken| + k]); }
    SumNatural(Items(s));
  }

  lemma CallsNatural(cfg: Config, s: State)
    requires Inv(cfg, s)
    ensures Sum(Calls(s)) >= 0
  {
    hide Inv, CallLeft, Sum;
    forall c | 0 <= c < |s.calls| ensures Calls(s)[c] >= 0 { CallNatural(cfg, s, c); }
    SumNatural(Calls(s));
  }

  lemma WorkersNatural(cfg: Config, s: State)
    requires Inv(cfg, s)
    ensures Sum(Workers(s)) >= 0
  {
    hide Inv, WorkerLeft, Sum;
    forall w | 0 <= w < |s.workers| ensures Workers(s)[w] >= 0 { WorkerNatural(cfg, s, w); }
    SumNatural(Workers(s));
  }

  lemma CallNatural(cfg: Config, s: State, c: nat)
    requires Inv(cfg, s) && c < |s.calls|
    ensures CallLeft(s.calls[c]) >= 0
  {
    hide ClientInv, ItemInv, SlotInv, WorkerInv, CallerWakes, WorkerWakes, UnitInv, Rest;
    assert CallInv(cfg, s, c);
  }

  lemma WorkerNatural(cfg: Config, s: State, w: nat)
    requires Inv(cfg, s) && w < |s.workers|
    ensures WorkerLeft(s.items, s.workers[w]) >= 0
  {
    hide CallInv, ClientInv, SlotInv, CallerWakes, WorkerWakes;
    assert WorkerInv(cfg, s, w);
    if s.workers[w].pc.Run? { assert ItemInv(cfg, s, s.workers[w].ticket); }
  }

  // ----- steps of a caller -----

  /** The caller moves and changes its own call, nothing else but the events and the ring. */
  lemma ClientMoves(s: State, i: nat, c: nat, s': State)
    requires i < |s.clients| == |s'.clients| && c < |s.calls| == |s'.calls| && |s.taken| <= |s.items|
    requires s'.clients == s.clients[i := s'.clients[i]] && s'.calls == s.calls[c := s'.calls[c]]
    requires s'.workers == s.workers && s'.taken == s.taken && s'.items == s.items
    ensures Left(s') - Left(s) ==
            ClientLeft(s'.clients[i].pc) - ClientLeft(s.clients[i].pc) + CallLeft(s'.calls[c]) - CallLeft(s.calls[c])
            + (if s'.completedEvent then 2 else 0) - (if s.completedEvent then 2 else 0)
            + (if s'.readyEvent then 2 else 0) - (if s.readyEvent then 2 else 0)
  {
    hide ClientLeft, CallLeft, WorkerLeft, ItemLeft;
    SumUpdate(Clients(s), i, ClientLeft(s'.clients[i].pc));
    assert Clients(s') == Clients(s)[i := ClientLeft(s'.clients[i].pc)];
    SumUpdate(Calls(s), c, CallLeft(s'.calls[c]));
    assert Calls(s') == Calls(s)[c := CallLeft(s'.calls[c])];
    assert Workers(s') == Workers(s) && Items(s') == Items(s);
  }

  lemma CostsSame(s: State, c: nat, s': State)
    requires c < |s.calls| == |s'.calls| && s'.calls == s.calls[c := s'.calls[c]] && Cost(s'.calls[c]) == Cost(s.calls[c])
    ensures Costs(s') == Costs(s)
  {
  }

  lemma ClientDecreases(cfg: Config, s: State, i: nat, s': State)
    requires Inv(cfg, s) && Pointers(cfg, s) && i < |s.clients| && ClientStep(cfg, s, i) == Some(s')
    ensures |s.taken| <= |s.items| && |s'.taken| <= |s'.items| && Left(s') < Left(s) && Costs(s') == Costs(s)
  {
    hide CallInv, ClientInv, ItemInv, SlotInv, WorkerInv, CallerWakes, WorkerWakes, Left, Costs;
    match s.clients[i].pc {
      case Fill => FillDecreases(cfg, s, i, s');
      case NextFragment => HandingDecreases(cfg, s, i, s');
      case Probe => HandingDecreases(cfg, s, i, s');
      case Sleep => HandingDecreases(cfg, s, i, s');
      case Publish => HandingDecreases(cfg, s, i, s');
      case Wake => HandingDecreases(cfg, s, i, s');
      case _ => OtherDecreases(cfg, s, i, s');
    }
  }

  lemma HandingDecreases(cfg: Config, s: State, i: nat, s': State)
    requires Pointers(cfg, s) && i < |s.clients| && ClientStep(cfg, s, i) == Some(s') && |s.taken| <= |s.items|
    requires var pc := s.clients[i].pc; pc.NextFragment? || pc.Probe? || pc.Sleep? || pc.Publish? || pc.Wake?
    ensures |s'.taken| <= |s'.items| && Left(s') < Left(s) && Costs(s') == Costs(s)
  {
    hide Left, Costs;
    ClientMoves(s, i, s.clients[i].call, s');
    CostsSame(s, s.clients[i].call, s');
  }

  lemma OtherDecreases(cfg: Config, s: State, i: nat, s': State)
    requires Pointers(cfg, s) && i < |s.clients| && ClientStep(cfg, s, i) == Some(s') && |s.taken| <= |s.items|
    requires var pc := s.clients[i].pc; !pc.Fill? && !pc.NextFragment? && !pc.Probe? && !pc.Sleep? && !pc.Publish? && !pc.Wake?
    ensures |s'.taken| <= |s'.items| && Left(s') < Left(s) && Costs(s') == Costs(s)
  {
    hide Left, Costs, Tickets;
    var pc := s.clients[i].pc;
    if pc.Await? || pc.FreeFirst? || pc.Announce? {
      ReceivingDecreases(cfg, s, i, s');
    } else {
      ClientMoves(s, i, s.clients[i].call, s');
      CostsSame(s, s.clients[i].call, s');
    }
  }

  lemma ReceivingDecreases(cfg: Config, s: State, i: nat, s': State)
    requires Pointers(cfg, s) && i < |s.clients| && ClientStep(cfg, s, i) == Some(s') && |s.taken| <= |s.items|
    requires var pc := s.clients[i].pc; pc.Await? || pc.FreeFirst? || pc.Announce?
    ensures |s'.taken| <= |s'.items| && Left(s') < Left(s) && Costs(s') == Costs(s)
  {
    hide Left, Costs, Tickets;
    ClientMoves(s, i, s.clients[i].call, s');
    CostsSame(s, s.clients[i].call, s');
  }

  /** Filling an item hands over the units of a fragment. */
  lemma FillDecreases(cfg: Config, s: State, i: nat, s': State)
    requires Inv(cfg, s) && Pointers(cfg, s) && i < |s.clients| && s.clients[i].pc == Fill && ClientStep(cfg, s, i) == Some(s')
    ensures |s.taken| <= |s.items| && |s'.taken| <= |s'.items| && Left(s') < Left(s) && Costs(s') == Costs(s)
  {
    hide CallInv, ClientInv, ItemInv, SlotInv, WorkerInv, CallerWakes, WorkerWakes, Left, Costs, Workers;
    FillWorkers(cfg, s, s');
    ItemHandedOver(s, i, s.clients[i].call, s');
    CostsSame(s, s.clients[i].call, s');
  }

  lemma ItemHandedOver(s: State, i: nat, c: nat, s': State)
    requires i < |s.clients| == |s'.clients| && c < |s.calls| == |s'.calls| && |s.taken| <= |s.items|
    requires s'.clients == s.clients[i := s'.clients[i]] && s'.calls == s.calls[c := s'.calls[c]] && Workers(s') == Workers(s)
    requires s'.taken == s.taken && |s'.items| == |s.items| + 1 && s'.items[..|s.items|] == s.items
    requires s'.completedEvent == s.completedEvent && s'.readyEvent == s.readyEvent
    ensures Left(s') - Left(s) ==
            ClientLeft(s'.clients[i].pc) - ClientLeft(s.clients[i].pc) + CallLeft(s'.calls[c]) - CallLeft(s.calls[c])
            + ItemLeft(s'.items[|s.items|])
  {
    hide ClientLeft, CallLeft, WorkerLeft, ItemLeft, Workers;
    SumUpdate(Clients(s), i, ClientLeft(s'.clients[i].pc));
    assert Clients(s') == Clients(s)[i := ClientLeft(s'.clients[i].pc)];
    SumUpdate(Calls(s), c, CallLeft(s'.calls[c]));
    assert Calls(s') == Calls(s)[c := CallLeft(s'.calls[c])];
    ItemsGrow(s, s');
  }

  lemma ItemsGrow(s: State, s': State)
    requires |s.taken| <= |s.items| && s'.taken == s.taken && |s'.items| == |s.items| + 1 && s'.items[..|s.items|] == s.items
    ensures Sum(Items(s')) == Sum(Items(s)) + ItemLeft(s'.items[|s.items|])
  {
    hide ItemLeft;
    forall k | 0 <= k < |s.items| - |s.taken| ensures Items(s')[k] == Items(s)[k] {
      assert s'.items[..|s.items|][|s.taken| + k] == s.items[|s.taken| + k];
    }
    SumAppend(Items(s), ItemLeft(s'.items[|s.items|]));
    assert Items(s') == Items(s) + [ItemLeft(s'.items[|s.items|])];
  }

  lemma FillWorkers(cfg: Config, s: State, s': State)
    requires Inv(cfg, s) && s'.workers == s.workers && |s.items| <= |s'.items| && s'.items[..|s.items|] == s.items
    ensures Workers(s') == Workers(s)
  {
    hide CallInv, ClientInv, ItemInv, SlotInv, CallerWakes, WorkerWakes;
    forall w | 0 <= w < |s.workers| ensures Workers(s')[w] == Workers(s)[w] {
      assert WorkerInv(cfg, s, w);
      if Claimed(s.workers[w].pc) { assert s'.items[..|s.items|][s.workers[w].ticket] == s.items[s.workers[w].ticket]; }
    }
  }

  // ----- steps of a worker -----

  /** The worker moves, and no call gets other fragments. */
  lemma WorkerMoves(s: State, w: nat, c: nat, s': State)
    requires w < |s.workers| == |s'.workers| && |s.taken| <= |s.items| && |s'.calls| == |s.calls|
    requires s'.workers == s.workers[w := s'.workers[w]] && s'.clients == s.clients && s'.taken == s.taken && s'.items == s.items
    requires s'.calls == s.calls || (c < |s.calls| && s'.calls == s.calls[c := s'.calls[c]]
                                     && CallLeft(s'.calls[c]) == CallLeft(s.calls[c]) && Cost(s'.calls[c]) == Cost(s.calls[c]))
    ensures Costs(s') == Costs(s)
    ensures Left(s') - Left(s) ==
            WorkerLeft(s.items, s'.workers[w]) - WorkerLeft(s.items, s.workers[w])
            + (if s'.completedEvent then 2 else 0) - (if s.completedEvent then 2 else 0)
            + (if s'.readyEvent then 2 else 0) - (if s.readyEvent then 2 else 0)
  {
    hide ClientLeft, CallLeft, WorkerLeft, ItemLeft, Cost;
    SumUpdate(Workers(s), w, WorkerLeft(s.items, s'.workers[w]));
    assert Workers(s') == Workers(s)[w := WorkerLeft(s.items, s'.workers[w])];
    assert Clients(s') == Clients(s) && Calls(s') == Calls(s) && Items(s') == Items(s) && Costs(s') == Costs(s);
  }

  lemma WorkerDecreases(cfg: Config, s: State, w: nat, s': State)
    requires Inv(cfg, s) && Pointers(cfg, s) && w < |s.workers| && WorkerStep(cfg, s, w) == Some(s')
    ensures |s.taken| <= |s.items| && |s'.taken| <= |s'.items| && Left(s') < Left(s) && Costs(s') == Costs(s)
  {
    hide CallInv, ClientInv, ItemInv, SlotInv, WorkerInv, CallerWakes, WorkerWakes, Left;
    match s.workers[w].pc {
      case Claim => ClaimDecreases(cfg, s, w, s');
      case Run => RunDecreases(cfg, s, w, s');
      case Unlock => UnlockDecreases(cfg, s, w, s');
      case Flag => CallTouched(cfg, s, w, s');
      case Decrement => CallTouched(cfg, s, w, s');
      case Complete => CallTouched(cfg, s, w, s');
      case Loop => LooksForItem(cfg, s, w, s');
      case Take => LooksForItem(cfg, s, w, s');
      case Inspect => LooksForItem(cfg, s, w, s');
      case Doze => LooksForItem(cfg, s, w, s');
      case _ => OnlyMoves(cfg, s, w, s');
    }
  }

  lemma OnlyMoves(cfg: Config, s: State, w: nat, s': State)
    requires Pointers(cfg, s) && w < |s.workers| && WorkerStep(cfg, s, w) == Some(s') && |s.taken| <= |s.items|
    requires var pc := s.workers[w].pc; pc.Finish? || pc.Notify? || pc.Vacate? || pc.Report?
    ensures |s'.taken| <= |s'.items| && Left(s') < Left(s) && Costs(s') == Costs(s)
  {
    hide Left, Costs;
    WorkerMoves(s, w, 0, s');
  }

  lemma LooksForItem(cfg: Config, s: State, w: nat, s': State)
    requires Pointers(cfg, s) && w < |s.workers| && WorkerStep(cfg, s, w) == Some(s') && |s.taken| <= |s.items|
    requires var pc := s.workers[w].pc; pc.Loop? || pc.Take? || pc.Inspect? || pc.Doze?
    ensures |s'.taken| <= |s'.items| && Left(s') < Left(s) && Costs(s') == Costs(s)
  {
    hide Left, Costs;
    WorkerMoves(s, w, 0, s');
  }

  /** Steps that change a call, but not what is left of it. */
  lemma CallTouched(cfg: Config, s: State, w: nat, s': State)
    requires Pointers(cfg, s) && w < |s.workers| && WorkerStep(cfg, s, w) == Some(s') && |s.taken| <= |s.items|
    requires var pc := s.workers[w].pc; pc.Flag? || pc.Decrement? || pc.Complete?
    ensures |s'.taken| <= |s'.items| && Left(s') < Left(s) && Costs(s') == Costs(s)
  {
    hide Left;
    var k := s.workers[w].slot;
    WorkerMoves(s, w, if s.workers[w].pc.Flag? then s.slots[k].work.value.call else s.slots[s.slots[k].first].own.value, s');
  }

  lemma UnlockDecreases(cfg: Config, s: State, w: nat, s': State)
    requires Inv(cfg, s) && Pointers(cfg, s) && w < |s.workers| && s.workers[w].pc == Unlock && WorkerStep(cfg, s, w) == Some(s')
    ensures |s.taken| <= |s.items| && |s'.taken| <= |s'.items| && Left(s') < Left(s) && Costs(s') == Costs(s)
  {
    hide CallInv, ClientInv, ItemInv, SlotInv, CallerWakes, WorkerWakes, Left;
    assert WorkerInv(cfg, s, w);
    WorkerMoves(s, w, 0, s');
  }

  /** Processing a unit of the item, which the slot still holds. */
  lemma RunDecreases(cfg: Config, s: State, w: nat, s': State)
    requires Inv(cfg, s) && Pointers(cfg, s) && w < |s.workers| && s.workers[w].pc == Run && WorkerStep(cfg, s, w) == Some(s')
    ensures |s.taken| <= |s.items| && |s'.taken| <= |s'.items| && Left(s') < Left(s) && Costs(s') == Costs(s)
  {
    hide CallInv, ClientInv, ItemInv, SlotInv, CallerWakes, WorkerWakes, Left;
    assert WorkerInv(cfg, s, w);
    StillThere(cfg, s, w);
    WorkerMoves(s, w, s.items[s.workers[w].ticket].call, s');
  }

  /** Claiming an item takes it from those that are left. */
  lemma ClaimDecreases(cfg: Config, s: State, w: nat, s': State)
    requires Inv(cfg, s) && Pointers(cfg, s) && w < |s.workers| && s.workers[w].pc == Claim && WorkerStep(cfg, s, w) == Some(s')
    ensures |s.taken| <= |s.items| && |s'.taken| <= |s'.items| && Left(s') < Left(s) && Costs(s') == Costs(s)
  {
    hide CallInv, ClientInv, ItemInv, SlotInv, CallerWakes, WorkerWakes, Left;
    assert WorkerInv(cfg, s, w);
    ItemClaimed(s, w, s');
  }

  lemma ItemClaimed(s: State, w: nat, s': State)
    requires w < |s.workers| == |s'.workers| && |s.taken| < |s.items|
    requires s'.workers == s.workers[w := s'.workers[w]] && s'.clients == s.clients && s'.calls == s.calls && s'.items == s.items
    requires |s'.taken| == |s.taken| + 1 && s'.completedEvent == s.completedEvent && s'.readyEvent == s.readyEvent
    ensures Costs(s') == Costs(s)
    ensures Left(s') - Left(s) ==
            WorkerLeft(s.items, s'.workers[w]) - WorkerLeft(s.items, s.workers[w]) - ItemLeft(s.items[|s.taken|])
  {
    hide ClientLeft, CallLeft, WorkerLeft, ItemLeft, Cost;
    SumTail(Items(s));
    assert Items(s') == Items(s)[1..];
    SumUpdate(Workers(s), w, WorkerLeft(s.items, s'.workers[w]));
    assert Workers(s') == Workers(s)[w := WorkerLeft(s.items, s'.workers[w])];
    assert Clients(s') == Clients(s) && Calls(s') == Calls(s) && Costs(s') == Costs(s);
  }

  // ----- runs -----

  /** Starting a call adds what it costs. */
  lemma StartCosts(s: State, i: nat, job: Job, data: seq<Block>, s': State)
    requires CanStart(s, i, job, data) && s' == Start(s, i, job, data) && |s.taken| <= |s.items|
    ensures Left(s') + 1 - Left(s) == Sum(Costs(s')) - Sum(Costs(s))
  {
    hide NewCall, CallLeft, Cost, WorkerLeft, ItemLeft;
    var call := NewCall(job, data, i, |s.workers|);
    NewCost(job, data, i, |s.workers|);
    SumUpdate(Clients(s), i, ClientLeft(Enter));
    assert Clients(s') == Clients(s)[i := ClientLeft(Enter)];
    SumAppend(Calls(s), CallLeft(call));
    assert Calls(s') == Calls(s) + [CallLeft(call)];
    SumAppend(Costs(s), Cost(call));
    assert Costs(s') == Costs(s) + [Cost(call)];
    assert Workers(s') == Workers(s) && Items(s') == Items(s);
  }

  lemma NewCost(job: Job, data: seq<Block>, i: nat, workers: nat)
    requires workers >= 1
    ensures var call := NewCall(job, data, i, workers); Cost(call) == CallLeft(call) + 12
  {
  }

  lemma StepPaid(cfg: Config, s: State, s': State)
    requires Inv(cfg, s) && Pointers(cfg, s) && Next(cfg, s, s')
    ensures |s.taken| <= |s.items| && |s'.taken| <= |s'.items|
    ensures Left(s') + 1 - Left(s) <= Sum(Costs(s')) - Sum(Costs(s))
  {
    hide CallInv, ClientInv, ItemInv, SlotInv, WorkerInv, CallerWakes, WorkerWakes, Left, Costs, Sum;
    if i, job, data :| CanStart(s, i, job, data) && s' == Start(s, i, job, data) {
      StartCosts(s, i, job, data, s');
    } else if i: nat :| i < |s.clients| && ClientStep(cfg, s, i) == Some(s') {
      ClientDecreases(cfg, s, i, s');
    } else {
      var w: nat :| w < |s.workers| && WorkerStep(cfg, s, w) == Some(s');
      WorkerDecreases(cfg, s, w, s');
    }
  }

  lemma InitLeft(cfg: Config, s: State)
    requires Init(cfg, s)
    ensures |s.taken| <= |s.items| && Left(s) == 3 * |s.workers| && Sum(Costs(s)) == 0
  {
    SumConstant(Clients(s), 0);
    SumConstant(Workers(s), 3);
  }

  lemma {:induction false} SumConstant(s: seq<int>, v: int)
    requires forall i :: 0 <= i < |s| ==> s[i] == v
    ensures Sum(s) == v * |s|
  {
    if s != [] { SumConstant(s[..|s| - 1], v); }
  }

  lemma {:induction false} RunPaid(cfg: Config, run: seq<State>, n: nat)
    requires IsRun(cfg, run) && n < |run|
    ensures |run[n].taken| <= |run[n].items|
    ensures n + Left(run[n]) <= 3 * |run[0].workers| + Sum(Costs(run[n]))
    decreases n
  {
    hide Left, Costs, Sum, Inv, Next, Init;
    if n == 0 {
      InitLeft(cfg, run[0]);
    } else {
      RunPaid(cfg, run, n - 1);
      RunInv(cfg, run, n - 1);
      StepPaid(cfg, run[n - 1], run[n]);
    }
  }

  /** A run has no more steps than its calls pay for: 12 for each call, 20 for each of its
      fragments and one for each of its units, and three for each worker. */
  lemma StepsBounded(cfg: Config, run: seq<State>, n: nat)
    requires IsRun(cfg, run) && n < |run|
    ensures n <= 3 * |run[0].workers| + Sum(Costs(run[n]))
  {
    RunPaid(cfg, run, n);
    RunInv(cfg, run, n);
    LeftNatural(cfg, run[n]);
  }

  /** If nothing can go on, a key derivation has been carried out and its completion has
      been signalled. */
  lemma DerivationDone(cfg: Config, run: seq<State>, n: nat, c: nat)
    requires IsRun(cfg, run) && n < |run| && Pointers(cfg, run[n]) && !CanStep(cfg, run[n]) && !Unfinished(run[n])
    requires c < |run[n].calls| && run[n].calls[c].job.derive
    ensures Processed(cfg, run[n].calls[c]) && run[n].calls[c].flag
  {
    var s := run[n];
    RunInv(cfg, run, n);
    forall w: nat | w < |s.workers| ensures WorkerStep(cfg, s, w) == None { }
    WorkersStuck(cfg, s);
    assert CallInv(cfg, s, c) && UnitInv(cfg, s, c, 0);
    assert !InCall(s, c);
    assert Rest(0, s.calls[c].per, s.calls[c].rem) == 0;
    RunFlagged(cfg, run, n);
    assert FlagDue(s, s.calls[c].cover[0]);
  }

  /** Every call returns. A run that goes on as long as it can without new calls, which is
      not for ever, ends with every caller back, the buffer of every call processed and the
      completion of every key derivation signalled. */
  lemma AllReturn(cfg: Config, run: seq<State>, n: nat)
    requires IsRun(cfg, run) && n < |run| && Pointers(cfg, run[n]) && !CanStep(cfg, run[n])
    ensures forall i :: 0 <= i < |run[n].clients| ==> run[n].clients[i].pc == Idle
    ensures forall k :: 0 <= k < |run[n].slots| ==> run[n].slots[k].state == Free
    ensures forall c :: 0 <= c < |run[n].calls| ==> Processed(cfg, run[n].calls[c])
    ensures forall c :: 0 <= c < |run[n].calls| && run[n].calls[c].job.derive ==> run[n].calls[c].flag
  {
    NoDeadlock(cfg, run, n);
    forall c | 0 <= c < |run[n].calls|
      ensures Processed(cfg, run[n].calls[c]) && (run[n].calls[c].job.derive ==> run[n].calls[c].flag)
    {
      if !run[n].calls[c].job.derive { DoWorkResult(cfg, run, n, c); } else { DerivationDone(cfg, run, n, c); }
    }
  }
}
