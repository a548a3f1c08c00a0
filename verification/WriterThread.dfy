/** The hand-off between the formatting thread and the writer thread of Format.c as a
    state machine. The unit of work is the contents of one buffer. */
module WriterThread {
  import opened FormatWriter

  /** What a flush hands over: the encrypted units of a buffer. */
  type Chunk = seq<Unit>

  datatype MainPc =
    Encrypt                    // before a flush, or at the end
    | AwaitEmpty | CheckResult | Refill | SetFull          // lines 1551-1569
    | AwaitLast | RequestExit | WakeToExit | Join           // lines 1523-1531
    | Done

  datatype WriterPc = Test | AwaitFull | TestExit | Write | SetEmpty | Exited      // lines 1444-1470

  /** How the formatting goes: an error is one that a flush reports, and the formatting can
      be aborted for reasons of its own. */
  datatype Verdict = Going | Error | Aborted

  datatype State = State(
    main: MainPc, writer: WriterPc,
    buffer: seq<Chunk>,        // WriteThreadBuffer: the last chunk put there, if any
    empty: bool, full: bool,   // the auto-reset events
    exit: bool,                // WriteThreadExitRequested
    good: bool,                // WriteRequestResult == ERROR_SUCCESS
    todo: seq<Chunk>,          // the chunks still to be flushed
    device: seq<Chunk>,
    taken: seq<Chunk>,         // history: the chunks handed over
    verdict: Verdict)

  predicate Init(s: State, chunks: seq<Chunk>) {
    s == State(Encrypt, Test, [], true, false, false, true, chunks, [], [], Going)
  }

  /** The next step of the formatting thread, if it is not blocked. After a format that has
      failed it stops the writer thread as well (lines 595 and 628). */
  function MainStep(s: State): (r: seq<State>)
  {
    match s.main
    case Encrypt => [s.(main := if s.todo == [] then AwaitLast else AwaitEmpty)]
    case AwaitEmpty => if s.empty then [s.(main := CheckResult, empty := false)] else []
    case CheckResult => if s.good then [s.(main := Refill)] else [s.(main := AwaitLast, empty := true, verdict := Error)]
    case Refill => if s.todo == [] then [] else [s.(main := SetFull, buffer := [s.todo[0]], taken := s.taken + [s.todo[0]], todo := s.todo[1..])]
    case SetFull => [s.(main := Encrypt, full := true)]
    case AwaitLast => if s.empty then [s.(main := RequestExit, empty := false)] else []
    case RequestExit => [s.(main := WakeToExit, exit := true)]
    case WakeToExit => [s.(main := Join, full := true)]
    case Join => if s.writer == Exited then [s.(main := Done)] else []
    case Done => []
  }

  /** Formatting ends before everything has been flushed. */
  function AbortStep(s: State): (r: seq<State>) {
    if s.main == Encrypt && s.todo != [] then [s.(main := AwaitLast, verdict := Aborted)] else []
  }

  /** The next step of the writer thread; `fails` says whether WriteFile fails. */
  function WriterStep(s: State, fails: bool): (r: seq<State>)
  {
    match s.writer
    case Test => [s.(writer := if s.exit then Exited else AwaitFull)]
    case AwaitFull => if s.full then [s.(writer := TestExit, full := false)] else []
    case TestExit => [s.(writer := if s.exit then Exited else Write)]
    case Write => if fails then [s.(writer := SetEmpty, good := false)]
                  else [s.(writer := SetEmpty, good := true, device := s.device + s.buffer)]
    case SetEmpty => [s.(writer := Test, empty := true)]
    case Exited => []
  }

  predicate Next(s: State, s': State) {
    MainStep(s) == [s'] || AbortStep(s) == [s'] || WriterStep(s, false) == [s'] || WriterStep(s, true) == [s']
  }

  /** The formatting thread owns the buffer. */
  predicate MainOwns(s: State) {
    s.main == CheckResult || s.main == Refill || s.main == SetFull || s.main == RequestExit || s.main == WakeToExit
  }

  /** The writer thread owns the buffer. */
  predicate WriterOwns(s: State) {
    s.writer == TestExit || s.writer == Write || s.writer == SetEmpty
  }

  /** The chunks that have been handed over but whose write has not been attempted. */
  predicate Outstanding(s: State) {
    s.main == SetFull || (s.full && !s.exit) || ((s.writer == TestExit || s.writer == Write) && !s.exit)
  }

  /** The buffer has one owner: an event is set, or a thread has received it. After the
      request to exit the events only serve to wake the writer. */
  ghost predicate Inv(s: State, chunks: seq<Chunk>) {
    && s.taken + s.todo == chunks
    && (s.main == RequestExit || s.main == AwaitLast || s.main == WakeToExit || s.main == Join || s.main == Done
        ==> (s.verdict == Going ==> s.todo == []))
    && (s.main == Encrypt || s.main == AwaitEmpty || s.main == CheckResult || s.main == Refill || s.main == SetFull ==> s.verdict == Going)
    && (s.verdict == Error ==> !s.good)
    && (s.main == AwaitEmpty || s.main == CheckResult || s.main == Refill ==> s.todo != [])
    && (s.exit <==> s.main == WakeToExit || s.main == Join || s.main == Done)
    && (s.writer == Exited ==> s.exit)
    && (s.main == Done ==> s.writer == Exited)
    && (!s.exit ==>
          && !(s.empty && s.full) && !(s.empty && (MainOwns(s) || WriterOwns(s)))
          && !(s.full && (MainOwns(s) || WriterOwns(s))) && !(MainOwns(s) && WriterOwns(s))
          && (s.empty || s.full || MainOwns(s) || WriterOwns(s)))
    && (s.exit ==> !s.empty && (s.main == WakeToExit ==> !s.full) && s.writer != Write && s.writer != SetEmpty)
    && (s.main == Join ==> s.full || s.writer == TestExit || s.writer == Exited || s.writer == Test)
    && (Outstanding(s) ==> s.taken != [] && s.buffer == [s.taken[|s.taken| - 1]])
    && (s.good && Outstanding(s) ==> s.device == s.taken[..|s.taken| - 1])
    && (s.good && !Outstanding(s) ==> s.device == s.taken)
    && (!s.good ==> !Outstanding(s) && s.taken != [] && s.device == s.taken[..|s.taken| - 1])
    && (!s.good ==> s.main != Refill && s.main != SetFull && !(s.full && !s.exit))
  }

  lemma InitInv(s: State, chunks: seq<Chunk>)
    requires Init(s, chunks)
    ensures Inv(s, chunks)
  {
  }

  lemma MainInv(s: State, s': State, chunks: seq<Chunk>)
    requires Inv(s, chunks) && MainStep(s) == [s']
    ensures Inv(s', chunks)
  {
    if s.main == Refill { RefillInv(s, s', chunks); }
  }

  lemma RefillInv(s: State, s': State, chunks: seq<Chunk>)
    requires Inv(s, chunks) && s.main == Refill && MainStep(s) == [s']
    ensures Inv(s', chunks)
  {
    assert s'.taken + s'.todo == s.taken + s.todo;
    assert s'.taken[..|s'.taken| - 1] == s.taken;
  }

  lemma WriterInv(s: State, s': State, fails: bool, chunks: seq<Chunk>)
    requires Inv(s, chunks) && WriterStep(s, fails) == [s']
    ensures Inv(s', chunks)
  {
    if s.writer == Write {
      assert s.taken[..|s.taken| - 1] + [s.taken[|s.taken| - 1]] == s.taken;
    }
  }

  ghost predicate IsRun(run: seq<State>, chunks: seq<Chunk>) {
    run != [] && Init(run[0], chunks) && forall n :: 0 <= n < |run| - 1 ==> Next(run[n], run[n + 1])
  }

  lemma {:induction false} RunInv(run: seq<State>, chunks: seq<Chunk>, n: nat)
    requires IsRun(run, chunks) && n < |run|
    ensures Inv(run[n], chunks)
    decreases n
  {
    if n == 0 {
      InitInv(run[0], chunks);
    } else {
      RunInv(run, chunks, n - 1);
      assert Next(run[n - 1], run[n]);
      if MainStep(run[n - 1]) == [run[n]] { MainInv(run[n - 1], run[n], chunks); }
      else if AbortStep(run[n - 1]) == [run[n]] { }
      else if WriterStep(run[n - 1], false) == [run[n]] { WriterInv(run[n - 1], run[n], false, chunks); }
      else { WriterInv(run[n - 1], run[n], true, chunks); }
    }
  }

  /** The buffer is never refilled while it is being written. */
  lemma NoRefillDuringWrite(run: seq<State>, chunks: seq<Chunk>, n: nat)
    requires IsRun(run, chunks) && n < |run| && (run[n].main == Refill || run[n].main == SetFull)
    ensures run[n].writer == Test || run[n].writer == AwaitFull
  {
    RunInv(run, chunks, n);
  }

  /** When the formatting thread has flushed everything and has stopped the writer, the
      device has received all chunks, in order, if and only if the last write did not fail;
      only that write can have failed. */
  lemma AllWritten(run: seq<State>, chunks: seq<Chunk>, n: nat)
    requires IsRun(run, chunks) && n < |run| && run[n].main == Done && run[n].verdict == Going
    ensures run[n].good <==> run[n].device == chunks
    ensures !run[n].good ==> chunks != [] && run[n].device == chunks[..|chunks| - 1]
  {
    RunInv(run, chunks, n);
    assert run[n].taken == chunks;
  }

  /** In between, and after a format that has failed, the device has a prefix of the
      chunks; after an error no more are written, and the next flush reports it. */
  lemma PrefixWritten(run: seq<State>, chunks: seq<Chunk>, n: nat)
    requires IsRun(run, chunks) && n < |run|
    ensures run[n].device <= chunks
    ensures run[n].verdict == Error ==> !run[n].good && |run[n].device| < |chunks|
  {
    RunInv(run, chunks, n);
    var s := run[n];
    assert s.taken == chunks[..|s.taken|];
  }

  /** The two threads never wait for each other, not even when the writer is stopped after
      a failure. */
  lemma NoDeadlock(run: seq<State>, chunks: seq<Chunk>, n: nat)
    requires IsRun(run, chunks) && n < |run| && run[n].main != Done
    ensures MainStep(run[n]) != [] || WriterStep(run[n], false) != []
  {
    RunInv(run, chunks, n);
  }

  // ----- every run comes to its end -----

  /** Steps that the formatting thread has left before the next chunk or its end; setting
      the event is counted with the steps that it lets the writer take. */
  function MainLeft(pc: MainPc): nat {
    match pc
    case SetFull => 19 case Encrypt => 13 case AwaitEmpty => 12 case CheckResult => 11 case Refill => 10
    case AwaitLast => 9 case RequestExit => 8 case WakeToExit => 7 case Join => 1 case Done => 0
  }

  function WriterLeft(pc: WriterPc): nat {
    match pc
    case TestExit => 4 case Write => 3 case SetEmpty => 2 case Test => 1 case AwaitFull => 0 case Exited => 0
  }

  function Left(s: State): nat {
    10 * |s.todo| + MainLeft(s.main) + WriterLeft(s.writer) + if s.full then 5 else 0
  }

  lemma StepLeft(s: State, s': State)
    requires Next(s, s')
    ensures Left(s') < Left(s)
  {
    hide Left;
    if MainStep(s) == [s'] { MainStepLeft(s, s'); }
    else if AbortStep(s) == [s'] { AbortStepLeft(s, s'); }
    else if WriterStep(s, false) == [s'] { WriterStepLeft(s, s', false); }
    else { WriterStepLeft(s, s', true); }
  }

  lemma MainStepLeft(s: State, s': State)
    requires MainStep(s) == [s']
    ensures Left(s') < Left(s)
  {
    hide Left, MainStep;
    if s.main == Encrypt || s.main == AwaitEmpty || s.main == CheckResult || s.main == Refill || s.main == SetFull {
      FlushLeft(s, s');
    } else {
      StopLeft(s, s');
    }
  }

  lemma FlushLeft(s: State, s': State)
    requires MainStep(s) == [s']
    requires s.main == Encrypt || s.main == AwaitEmpty || s.main == CheckResult || s.main == Refill || s.main == SetFull
    ensures Left(s') < Left(s)
  {
    hide WriterLeft;
  }

  lemma StopLeft(s: State, s': State)
    requires MainStep(s) == [s']
    requires !(s.main == Encrypt || s.main == AwaitEmpty || s.main == CheckResult || s.main == Refill || s.main == SetFull)
    ensures Left(s') < Left(s)
  {
    hide WriterLeft;
  }

  lemma AbortStepLeft(s: State, s': State)
    requires AbortStep(s) == [s']
    ensures Left(s') < Left(s)
  {
  }

  lemma WriterStepLeft(s: State, s': State, fails: bool)
    requires WriterStep(s, fails) == [s']
    ensures Left(s') < Left(s)
  {
  }

  lemma {:induction false} RunLeft(run: seq<State>, chunks: seq<Chunk>, n: nat)
    requires IsRun(run, chunks) && n < |run|
    ensures Left(run[n]) + n <= 10 * |chunks| + 14
    decreases n
  {
    if n > 0 {
      RunLeft(run, chunks, n - 1);
      assert Next(run[n - 1], run[n]);
      StepLeft(run[n - 1], run[n]);
    }
  }

  /** Every run ends: it has a bounded number of steps, and one that cannot be continued
      has stopped the writer thread. */
  lemma RunEnds(run: seq<State>, chunks: seq<Chunk>)
    requires IsRun(run, chunks)
    ensures |run| <= 10 * |chunks| + 15
    ensures var s := run[|run| - 1];
            MainStep(s) == [] && WriterStep(s, false) == [] && WriterStep(s, true) == [] ==> s.main == Done && s.writer == Exited
  {
    RunLeft(run, chunks, |run| - 1);
    RunInv(run, chunks, |run| - 1);
    if run[|run| - 1].main != Done { NoDeadlock(run, chunks, |run| - 1); }
  }

  // ----- with and without the writer thread -----

  /** With the writer thread the device receives what it receives without, if and only if
      the last write did not fail or wrote nothing. */
  lemma SameDevice(w: Writer, run: seq<State>, n: nat)
    requires w.Valid() && IsRun(run, w.chunks) && n < |run| && run[n].main == Done && run[n].verdict == Going
    ensures run[n].good ==> Flat(run[n].device) == w.device
    ensures !run[n].good ==> w.chunks != [] && w.device == Flat(run[n].device) + w.chunks[|w.chunks| - 1]
  {
    AllWritten(run, w.chunks, n);
    if !run[n].good {
      var m := |w.chunks| - 1;
      FlatAppend(w.chunks[..m], w.chunks[m]);
      assert w.chunks == w.chunks[..m] + [w.chunks[m]];
    }
  }

  lemma Extended(run: seq<State>, chunks: seq<Chunk>, s: State)
    requires IsRun(run, chunks) && Next(run[|run| - 1], s)
    ensures IsRun(run + [s], chunks)
  {
    forall n | 0 <= n < |run| ensures Next((run + [s])[n], (run + [s])[n + 1]) {
      if n < |run| - 1 { assert Next(run[n], run[n + 1]); }
    }
  }

  lemma MainMoves(run: seq<State>, chunks: seq<Chunk>, s: State) returns (run': seq<State>)
    requires IsRun(run, chunks) && MainStep(run[|run| - 1]) == [s]
    ensures IsRun(run', chunks) && run'[|run'| - 1] == s
  {
    run' := run + [s];
    Extended(run, chunks, s);
  }

  lemma WriterMoves(run: seq<State>, chunks: seq<Chunk>, fails: bool, s: State) returns (run': seq<State>)
    requires IsRun(run, chunks) && WriterStep(run[|run| - 1], fails) == [s]
    ensures IsRun(run', chunks) && run'[|run'| - 1] == s
  {
    run' := run + [s];
    Extended(run, chunks, s);
  }

  /** A run up to the hand-over of the only chunk. */
  lemma HandedOver(c: Chunk) returns (run: seq<State>)
    ensures IsRun(run, [c]) && run[|run| - 1] == State(Encrypt, Test, [c], false, true, false, true, [], [], [c], Going)
  {
    hide IsRun;
    var s := State(Encrypt, Test, [], true, false, false, true, [c], [], [], Going);
    run := Started(s, [c]);
    run := MainMoves(run, [c], s.(main := AwaitEmpty));
    run := MainMoves(run, [c], s.(main := CheckResult, empty := false));
    run := MainMoves(run, [c], s.(main := Refill, empty := false));
    assert [] + [c] == [c] && [c][1..] == [];
    run := MainMoves(run, [c], State(SetFull, Test, [c], false, false, false, true, [], [], [c], Going));
    run := MainMoves(run, [c], State(Encrypt, Test, [c], false, true, false, true, [], [], [c], Going));
  }

  lemma Started(s: State, chunks: seq<Chunk>) returns (run: seq<State>)
    requires Init(s, chunks)
    ensures IsRun(run, chunks) && run[|run| - 1] == s
  {
    run := [s];
  }

  /** The same until its write has failed. */
  lemma WriteFailed(c: Chunk) returns (run: seq<State>)
    ensures IsRun(run, [c]) && run[|run| - 1] == State(Encrypt, Test, [c], true, false, false, false, [], [], [c], Going)
  {
    hide IsRun;
    var s := State(Encrypt, Test, [c], false, false, false, true, [], [], [c], Going);
    run := HandedOver(c);
    run := WriterMoves(run, [c], false, s.(writer := AwaitFull, full := true));
    run := WriterMoves(run, [c], false, s.(writer := TestExit));
    run := WriterMoves(run, [c], false, s.(writer := Write));
    run := WriterMoves(run, [c], true, s.(writer := SetEmpty, good := false));
    run := WriterMoves(run, [c], false, s.(good := false, empty := true));
  }

  /** The last write can fail without being noticed: nothing looks at its result. */
  lemma LastErrorLost(c: Chunk) returns (run: seq<State>)
    ensures IsRun(run, [c])
    ensures var s := run[|run| - 1]; s.main == Done && s.verdict == Going && !s.good && s.device == []
  {
    hide IsRun;
    var s := State(AwaitLast, Test, [c], false, false, false, false, [], [], [c], Going);
    run := WriteFailed(c);
    run := MainMoves(run, [c], s.(empty := true));
    run := MainMoves(run, [c], s.(main := RequestExit));
    run := MainMoves(run, [c], s.(main := WakeToExit, exit := true));
    run := MainMoves(run, [c], s.(main := Join, exit := true, full := true));
    run := WriterMoves(run, [c], false, s.(main := Join, writer := Exited, exit := true, full := true));
    run := MainMoves(run, [c], s.(main := Done, writer := Exited, exit := true, full := true));
  }
}
