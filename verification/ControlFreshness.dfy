/**
 The control pipe (lib/usb_host_hid/hid_host.c) over runs: a callback that is one step makes every answer fresh,
 one that is not can return a stale one, a free pipe takes requests, and a late callback frees it again.
 */
module ControlFreshness {
  import opened Prelude
  import opened ControlPipe

  /** Both statements of ctrl_xfer_done() as one: nothing runs between them. */
  ghost predicate AtomicCallbacks(schedule: seq<Event>) {
    forall n :: 0 <= n < |schedule| - 1 && schedule[n] == ClearFlag ==> schedule[n + 1] == GiveToken
  }

  /** The requester dropped the stale token while a callback stood between its statements. */
  ghost predicate Torn(p: Phase) {
    match p
    case Drained(_, clean) => !clean
    case Armed(_, clean) => !clean
    case Submitted(_, _, clean) => !clean
    case Woken(_, _, clean, _) => !clean
    case Leaving(ret) => ret.wake.Some? && !ret.wake.value.clean
    case _ => false
  }

  ghost predicate NothingTorn(s: Pipe) {
    && (forall t: Task :: !Torn(PhaseOf(s, t)))
    && (forall r <- s.returned :: r.wake.Some? ==> r.wake.value.clean)
  }

  lemma TransferTearsOnlyAtDrain(s: Pipe, e: Event)
    requires NothingTorn(s) && IsTransfer(e)
    requires e.Drain? ==> !s.callback.Cleared?
    ensures NothingTorn(TransferStep(s, e))
  {
    assert !Torn(PhaseOf(s, e.t));
    forall t: Task ensures !Torn(PhaseOf(TransferStep(s, e), t)) {
      assert !Torn(PhaseOf(s, t));
    }
  }

  lemma LockTearsNothing(s: Pipe, e: Event)
    requires NothingTorn(s) && (IsLock(e) || IsPrepare(e))
    ensures NothingTorn(if IsLock(e) then LockStep(s, e) else PrepareStep(s, e))
  {
    var s' := if IsLock(e) then LockStep(s, e) else PrepareStep(s, e);
    forall t: Task ensures !Torn(PhaseOf(s', t)) {
      assert !Torn(PhaseOf(s, t));
    }
  }

  lemma ConcludeTearsNothing(s: Pipe, t: Task)
    requires NothingTorn(s)
    ensures NothingTorn(FinishStep(s, t)) && NothingTorn(UnlockStep(s, t))
  {
    assert !Torn(PhaseOf(s, t));
    forall u: Task ensures !Torn(PhaseOf(FinishStep(s, t), u)) && !Torn(PhaseOf(UnlockStep(s, t), u)) {
      assert !Torn(PhaseOf(s, u));
    }
  }

  lemma OthersTearNothing(s: Pipe, e: Event)
    requires NothingTorn(s) && (IsStack(e) || IsRemoval(e))
    ensures NothingTorn(if IsStack(e) then StackStep(s, e) else RemovalStep(s, e))
  {
    var s' := if IsStack(e) then StackStep(s, e) else RemovalStep(s, e);
    assert s'.tasks == s.tasks && s'.returned == s.returned;
    forall t: Task ensures !Torn(PhaseOf(s', t)) {
      assert PhaseOf(s', t) == PhaseOf(s, t);
    }
  }

  lemma StepTearsOnlyAtDrain(s: Pipe, e: Event)
    requires NothingTorn(s)
    requires e.Drain? ==> !s.callback.Cleared?
    ensures NothingTorn(Step(s, e))
  {
    if IsLock(e) || IsPrepare(e) {
      LockTearsNothing(s, e);
    } else if IsTransfer(e) {
      TransferTearsOnlyAtDrain(s, e);
    } else if IsConclude(e) {
      ConcludeTearsNothing(s, e.t);
    } else {
      OthersTearNothing(s, e);
    }
  }

  lemma LocksLeaveCallback(s: Pipe, e: Event)
    requires IsLock(e) || IsPrepare(e)
    ensures (if IsLock(e) then LockStep(s, e) else PrepareStep(s, e)).callback == s.callback
  {
  }

  lemma TransferLeavesCallback(s: Pipe, e: Event)
    requires IsTransfer(e)
    ensures TransferStep(s, e).callback == s.callback
  {
  }

  lemma OnlyTheCallbackClears(s: Pipe, e: Event)
    ensures Step(s, e).callback.Cleared? ==> (s.callback.Cleared? && e != GiveToken) || e == ClearFlag
  {
    if IsLock(e) || IsPrepare(e) {
      LocksLeaveCallback(s, e);
    } else if IsTransfer(e) {
      TransferLeavesCallback(s, e);
    }
  }

  lemma {:induction false} AtomicCallbacksTearNothing(schedule: seq<Event>)
    requires AtomicCallbacks(schedule)
    ensures NothingTorn(Run(Installed(), schedule))
    ensures Run(Installed(), schedule).callback.Cleared? ==>
              |schedule| > 0 && schedule[|schedule| - 1] == ClearFlag
    decreases |schedule|
  {
    if schedule != [] {
      var before := schedule[..|schedule| - 1];
      forall n | 0 <= n < |before| - 1 && before[n] == ClearFlag ensures before[n + 1] == GiveToken {
        assert schedule[n] == ClearFlag;
      }
      AtomicCallbacksTearNothing(before);
      StepTearsOnlyAtDrain(Run(Installed(), before), schedule[|schedule| - 1]);
      OnlyTheCallbackClears(Run(Installed(), before), schedule[|schedule| - 1]);
    }
  }

  /**
   With the completion callback as one step, a request that returns ESP_OK was woken by the
   completion of its own submission, never by a token left after an earlier timeout, and its data
   are that answer's.
   */
  lemma AtomicCallbacksMakeEveryReturnFresh(schedule: seq<Event>, i: nat)
    requires AtomicCallbacks(schedule)
    requires i < |Run(Installed(), schedule).returned|
    requires Run(Installed(), schedule).returned[i].result.Ok?
    ensures var s := Run(Installed(), schedule); var r := s.returned[i];
      && r.wake.Some? && r.wake.value.giver == r.wake.value.gen && r.wake.value.gen in s.answers
      && s.answers[r.wake.value.gen].status == Completed
      && r.result == Expected(s.answers[r.wake.value.gen], r.req)
  {
    AtomicCallbacksTearNothing(schedule);
    WokenByOwnCompletion(schedule, i);
    var r := Run(Installed(), schedule).returned[i];
    assert r in Run(Installed(), schedule).returned;
    CleanWakeReturnsOwnAnswer(schedule, i);
  }

  lemma RunOne(s: Pipe, a: Event)
    ensures Run(s, [a]) == Step(s, a)
  {
    assert [a][..0] == [];
  }

  lemma RunTwo(s: Pipe, a: Event, b: Event)
    ensures Run(s, [a, b]) == Step(Step(s, a), b)
  {
    assert [a, b][..1] == [a];
    RunOne(s, a);
  }

  lemma RunFour(s: Pipe, a: Event, b: Event, c: Event, d: Event)
    ensures Run(s, [a, b, c, d]) == Run(Run(s, [a, b]), [c, d])
  {
    assert [a, b, c, d] == [a, b] + [c, d];
    RunConcat(s, [a, b], [c, d]);
  }

  const FIRST: Request := Request(Get, 2, [])
  const SECOND: Request := Request(Get, 1, [])

  /** A request up to its submission; grow: its buffer is too small and is replaced (Descriptor only). */
  function Locks(t: Task, req: Request): (r: seq<Event>) {
    [Begin(t, req), TakeLock(t)]
  }

  function Grows(t: Task, grow: bool): (r: seq<Event>) {
    if grow then [FreeSmall(t), Realloc(t, true)] else []
  }

  function Prepares(t: Task, grow: bool): (r: seq<Event>) {
    [CheckInflight(t)] + Grows(t, grow) + [WriteSetup(t)]
  }

  function Submits(t: Task): (r: seq<Event>) {
    [Drain(t), Arm(t)]
  }

  function Sends(t: Task, req: Request, grow: bool): (r: seq<Event>) {
    Locks(t, req) + Prepares(t, grow) + Submits(t) + [Submit(t, true)]
  }

  const TIMES_OUT: seq<Event> := [GiveUp(0), Unlock(0)]
  const LATE_ANSWER: seq<Event> := [Complete(Response(Completed, 10, [7, 8])), Deliver] + [ClearFlag]
  const FOOLED: seq<Event> := [GiveToken, Wakeup(1), Finish(1), Unlock(1)]

  /** A free pipe, and a request that fits its buffer or may have it replaced. */
  ghost predicate Free(s: Pipe, t: Task, req: Request) {
    && s.holder == Nobody && !s.inflight && s.removal == NotStarted && PhaseOf(s, t) == Idle
    && req.Valid() && s.xfer.Some? && BufferOk(s.xfer.value)
    && (req.kind == Descriptor || req.Bytes() <= s.xfer.value.size)
  }

  predicate TooSmall(b: Buffer, req: Request) {
    b.size < req.Bytes()
  }

  /** The buffer a request is written into. */
  function Grown(b: Buffer, req: Request): (r: Buffer) {
    if TooSmall(b, req) then Fresh(req.Bytes()) else b
  }

  lemma GrownHolds(b: Buffer, req: Request)
    requires BufferOk(b) && req.Valid()
    ensures BufferOk(Grown(b, req)) && Grown(b, req).size >= req.Bytes() && |req.data| <= |Grown(b, req).data|
  {
  }

  function Sent(s: Pipe, t: Task, req: Request): (r: Pipe)
    requires Free(s, t, req)
  {
    GrownHolds(s.xfer.value, req);
    s.(tasks := s.tasks[t := Submitted(req, s.gens + 1, !s.callback.Cleared?)],
       holder := By(t), token := None, inflight := true, owned := Some(s.gens + 1), gens := s.gens + 1,
       xfer := Some(Written(Grown(s.xfer.value, req), req).(numBytes := req.Bytes())))
  }

  // The schedules as steps, one statement after the other.

  function AfterLock(s: Pipe, t: Task, req: Request): (r: Pipe) {
    TakeLockStep(BeginStep(s, t, req), t)
  }

  function AfterGrow(s: Pipe, t: Task, grow: bool): (r: Pipe) {
    if grow then ReallocStep(FreeSmallStep(s, t), t, true) else s
  }

  function AfterPrepare(s: Pipe, t: Task, grow: bool): (r: Pipe) {
    WriteSetupStep(AfterGrow(CheckInflightStep(s, t), t, grow), t)
  }

  function AfterSubmit(s: Pipe, t: Task): (r: Pipe) {
    SubmitStep(ArmStep(DrainStep(s, t), t), t, true)
  }

  lemma RunLocks(s: Pipe, t: Task, req: Request)
    ensures Run(s, Locks(t, req)) == AfterLock(s, t, req)
  {
    RunTwo(s, Begin(t, req), TakeLock(t));
  }

  lemma RunGrows(s: Pipe, t: Task, grow: bool)
    ensures Run(s, Grows(t, grow)) == AfterGrow(s, t, grow)
  {
    if grow {
      RunTwo(s, FreeSmall(t), Realloc(t, true));
    }
  }

  lemma RunPrepares(s: Pipe, t: Task, grow: bool)
    ensures Run(s, Prepares(t, grow)) == AfterPrepare(s, t, grow)
  {
    var a := CheckInflightStep(s, t);
    var b := AfterGrow(a, t, grow);
    RunConcat(s, [CheckInflight(t)] + Grows(t, grow), [WriteSetup(t)]);
    RunConcat(s, [CheckInflight(t)], Grows(t, grow));
    RunOne(s, CheckInflight(t));
    RunGrows(a, t, grow);
    RunOne(b, WriteSetup(t));
  }

  lemma RunSubmits(s: Pipe, t: Task)
    ensures Run(Run(s, Submits(t)), [Submit(t, true)]) == AfterSubmit(s, t)
  {
    RunTwo(s, Drain(t), Arm(t));
    RunOne(ArmStep(DrainStep(s, t), t), Submit(t, true));
  }

  lemma RunSends(s: Pipe, t: Task, req: Request, grow: bool)
    ensures Run(s, Sends(t, req, grow)) == AfterSubmit(AfterPrepare(AfterLock(s, t, req), t, grow), t)
  {
    var a, b, c := Locks(t, req), Prepares(t, grow), Submits(t);
    RunConcat(s, a + b + c, [Submit(t, true)]);
    RunConcat(s, a + b, c);
    RunConcat(s, a, b);
    RunLocks(s, t, req);
    RunPrepares(AfterLock(s, t, req), t, grow);
    RunSubmits(AfterPrepare(AfterLock(s, t, req), t, grow), t);
  }

  lemma FreePipeLocks(s: Pipe, t: Task, req: Request)
    requires Free(s, t, req)
    ensures AfterLock(s, t, req) == s.(tasks := s.tasks[t := Taken(req)], holder := By(t))
  {
    assert BeginStep(s, t, req) == Move(s, t, Waiting(req));
    assert s.tasks[t := Waiting(req)][t := Taken(req)] == s.tasks[t := Taken(req)];
  }

  /** A buffer that is too small is freed and allocated again. */
  lemma EnteredGrows(s: Pipe, t: Task, req: Request)
    requires PhaseOf(s, t) == Entered(req) && t in s.tasks && s.xfer.Some?
    requires TooSmall(s.xfer.value, req) ==> req.kind == Descriptor
    ensures AfterGrow(s, t, TooSmall(s.xfer.value, req)) == s.(xfer := Some(Grown(s.xfer.value, req)))
  {
    if TooSmall(s.xfer.value, req) {
      assert FreeSmallStep(s, t) == Move(s, t, Dropped(req)).(xfer := None);
      assert s.tasks[t := Dropped(req)][t := Entered(req)] == s.tasks;
    }
  }

  lemma TakenPrepares(s: Pipe, t: Task, req: Request)
    requires s.xfer.Some? && BufferOk(s.xfer.value) && req.Valid() && PhaseOf(s, t) == Taken(req) && !s.inflight
    requires TooSmall(s.xfer.value, req) ==> req.kind == Descriptor
    ensures |req.data| <= |Grown(s.xfer.value, req).data|
    ensures AfterPrepare(s, t, TooSmall(s.xfer.value, req)) ==
      s.(tasks := s.tasks[t := Ready(req)], xfer := Some(Written(Grown(s.xfer.value, req), req)))
  {
    GrownHolds(s.xfer.value, req);
    EnteredGrows(Move(s, t, Entered(req)), t, req);
    assert s.tasks[t := Entered(req)][t := Ready(req)] == s.tasks[t := Ready(req)];
  }

  lemma ReadySubmits(s: Pipe, t: Task, req: Request)
    requires PhaseOf(s, t) == Ready(req) && s.xfer.Some?
    ensures AfterSubmit(s, t) ==
      s.(tasks := s.tasks[t := Submitted(req, s.gens + 1, !s.callback.Cleared?)], token := None, inflight := true,
         xfer := Some(s.xfer.value.(numBytes := req.Bytes())), owned := Some(s.gens + 1), gens := s.gens + 1)
  {
    var clean := !s.callback.Cleared?;
    assert s.tasks[t := Drained(req, clean)][t := Armed(req, clean)] == s.tasks[t := Armed(req, clean)];
    assert s.tasks[t := Armed(req, clean)][t := Submitted(req, s.gens + 1, clean)]
        == s.tasks[t := Submitted(req, s.gens + 1, clean)];
  }

  /** The state once the setup packet is written. */
  function Prepared(s: Pipe, t: Task, req: Request): (r: Pipe)
    requires Free(s, t, req)
  {
    GrownHolds(s.xfer.value, req);
    s.(tasks := s.tasks[t := Ready(req)], holder := By(t), xfer := Some(Written(Grown(s.xfer.value, req), req)))
  }

  lemma FreePipeWrites(s: Pipe, t: Task, req: Request)
    requires Free(s, t, req)
    ensures AfterPrepare(AfterLock(s, t, req), t, TooSmall(s.xfer.value, req)) == Prepared(s, t, req)
  {
    FreePipeLocks(s, t, req);
    TakenPrepares(s.(tasks := s.tasks[t := Taken(req)], holder := By(t)), t, req);
    assert s.tasks[t := Taken(req)][t := Ready(req)] == s.tasks[t := Ready(req)];
  }

  lemma FreePipeSubmits(s: Pipe, t: Task, req: Request)
    requires Free(s, t, req)
    ensures AfterSubmit(Prepared(s, t, req), t) == Sent(s, t, req)
  {
    ReadySubmits(Prepared(s, t, req), t, req);
    var last := Submitted(req, s.gens + 1, !s.callback.Cleared?);
    assert s.tasks[t := Ready(req)][t := last] == s.tasks[t := last];
  }

  /** On a free pipe a request of any kind gets through to its submission, a descriptor request with a new buffer. */
  lemma FreePipeAccepts(s: Pipe, t: Task, req: Request)
    requires Free(s, t, req)
    ensures Run(s, Sends(t, req, TooSmall(s.xfer.value, req))) == Sent(s, t, req)
  {
    RunSends(s, t, req, TooSmall(s.xfer.value, req));
    FreePipeWrites(s, t, req);
    FreePipeSubmits(s, t, req);
  }

  /** The first GET times out; its answer arrives later and the callback has cleared the flag. */
  function LateState(): (r: Pipe) {
    var b := Fresh(MIN_REPORT_DESC_LEN);
    Pipe(Nobody, None, false,
         Some(b.(setup := Some(FIRST), numBytes := 10, actual := 10, data := [7, 8] + b.data[2..])),
         map[0 := Idle], Cleared(1), NotStarted, None, 1, map[1 := Response(Completed, 10, [7, 8])],
         [Return(0, FIRST, Timeout, None)])
  }

  lemma LateBuffer(a: Pipe, r: Response)
    requires a == Sent(Installed(), 0, FIRST).(tasks := map[0 := Idle], holder := Nobody,
                                               returned := [Return(0, FIRST, Timeout, None)])
    requires r == Response(Completed, 10, [7, 8])
    ensures ClearFlagStep(DeliverStep(CompleteStep(a, r))) == LateState()
  {
    var b := Fresh(MIN_REPORT_DESC_LEN);
    assert [] + b.data[0..] == b.data;
    assert r.Fits(b.size) && a.answers[1 := r] == map[1 := r];
  }

  lemma LateCallback(a: Pipe)
    requires a == Sent(Installed(), 0, FIRST).(tasks := map[0 := Idle], holder := Nobody,
                                               returned := [Return(0, FIRST, Timeout, None)])
    ensures Run(a, LATE_ANSWER) == LateState()
  {
    var r := Response(Completed, 10, [7, 8]);
    RunConcat(a, [Complete(r), Deliver], [ClearFlag]);
    assert Run(a, [Complete(r), Deliver]) == DeliverStep(CompleteStep(a, r)) by {
      RunTwo(a, Complete(r), Deliver);
    }
    assert Run(DeliverStep(CompleteStep(a, r)), [ClearFlag]) == ClearFlagStep(DeliverStep(CompleteStep(a, r))) by {
      RunOne(DeliverStep(CompleteStep(a, r)), ClearFlag);
    }
    LateBuffer(a, r);
  }

  lemma LateAnswer()
    ensures Run(Run(Run(Installed(), Sends(0, FIRST, false)), TIMES_OUT), LATE_ANSWER) == LateState()
  {
    FreePipeAccepts(Installed(), 0, FIRST);
    var sent := Sent(Installed(), 0, FIRST);
    RunTwo(sent, GiveUp(0), Unlock(0));
    var a := sent.(tasks := map[0 := Idle], holder := Nobody, returned := [Return(0, FIRST, Timeout, None)]);
    assert UnlockStep(GiveUpStep(sent, 0), 0) == a;
    LateCallback(a);
  }

  /** The whole schedule from the state the late answer leaves. */
  lemma LateRun()
    ensures Run(Installed(), Sends(0, FIRST, false) + TIMES_OUT + LATE_ANSWER + Sends(1, SECOND, false) + FOOLED)
         == Run(Run(LateState(), Sends(1, SECOND, false)), FOOLED)
  {
    var a, b, c := Sends(0, FIRST, false), Sends(1, SECOND, false), LATE_ANSWER;
    RunConcat(Installed(), a + TIMES_OUT + c + b, FOOLED);
    RunConcat(Installed(), a + TIMES_OUT + c, b);
    RunConcat(Installed(), a + TIMES_OUT, c);
    RunConcat(Installed(), a, TIMES_OUT);
    LateAnswer();
  }

  /** The second GET submitted between the two statements, its buffer still holding the first answer. */
  ghost predicate Fooled(s: Pipe) {
    && s.callback == Cleared(1) && s.token.None? && PhaseOf(s, 1) == Submitted(SECOND, 2, false)
    && s.xfer.Some? && s.xfer.value.numBytes == 9 && |s.xfer.value.data| > 1
    && s.xfer.value.status == Completed && s.xfer.value.actual == 10 && s.xfer.value.data[0] == 7
  }

  lemma FooledFacts()
    ensures Free(LateState(), 1, SECOND) && !TooSmall(LateState().xfer.value, SECOND)
    ensures var s := Sent(LateState(), 1, SECOND);
      Fooled(s) && s.owned == Some(2) && s.returned == [Return(0, FIRST, Timeout, None)]
  {
  }

  lemma FooledWakes(s: Pipe)
    requires s.callback == Cleared(1) && s.token.None? && PhaseOf(s, 1) == Submitted(SECOND, 2, false)
    ensures Run(s, [GiveToken, Wakeup(1)])
         == s.(callback := Quiet, tasks := s.tasks[1 := Woken(SECOND, 2, false, 1)])
  {
    RunTwo(s, GiveToken, Wakeup(1));
  }

  lemma FooledJudges(b: Buffer)
    requires b.numBytes == 9 && |b.data| > 1 && b.status == Completed && b.actual == 10 && b.data[0] == 7
    ensures Judge(b, SECOND) == Ok([7]) && Judged(b, SECOND).actual == 1
  {
    assert b.data[..1] == [7];
  }

  lemma FooledReturns(s: Pipe)
    requires PhaseOf(s, 1) == Woken(SECOND, 2, false, 1)
    requires s.xfer.Some? && s.xfer.value.numBytes == 9 && |s.xfer.value.data| > 1
    requires s.xfer.value.status == Completed && s.xfer.value.actual == 10 && s.xfer.value.data[0] == 7
    ensures Run(s, [Finish(1), Unlock(1)]).returned
         == s.returned + [Return(1, SECOND, Ok([7]), Some(Wake(2, 1, false)))]
    ensures var u := Run(s, [Finish(1), Unlock(1)]); u.owned == s.owned && u.xfer.Some? && u.xfer.value.actual == 1
  {
    FooledJudges(s.xfer.value);
    RunTwo(s, Finish(1), Unlock(1));
  }

  lemma FooledEnds(s: Pipe)
    requires Fooled(s)
    ensures Run(s, FOOLED).returned == s.returned + [Return(1, SECOND, Ok([7]), Some(Wake(2, 1, false)))]
    ensures var u := Run(s, FOOLED); u.owned == s.owned && u.xfer.Some? && u.xfer.value.actual == 1
  {
    RunFour(s, GiveToken, Wakeup(1), Finish(1), Unlock(1));
    FooledWakes(s);
    FooledReturns(s.(callback := Quiet, tasks := s.tasks[1 := Woken(SECOND, 2, false, 1)]));
  }

  lemma FooledRun()
    ensures Run(Installed(), Sends(0, FIRST, false) + TIMES_OUT + LATE_ANSWER + Sends(1, SECOND, false) + FOOLED)
         == Run(Sent(LateState(), 1, SECOND), FOOLED)
  {
    LateRun();
    FooledFacts();
    FreePipeAccepts(LateState(), 1, SECOND);
  }

  /**
   Without that atomicity the code does return a stale answer: the second GET passes the lock and
   its drain between the two statements of the first one's callback, and returns ESP_OK with the
   data of the first, while its own transfer is still in flight; it also writes the number of bytes
   of the first answer into the buffer the stack owns.
   */
  lemma TornCallbackReturnsStaleData()
    ensures var s := Run(Installed(),
                         Sends(0, FIRST, false) + TIMES_OUT + LATE_ANSWER + Sends(1, SECOND, false) + FOOLED);
      s.returned == [Return(0, FIRST, Timeout, None), Return(1, SECOND, Ok([7]), Some(Wake(2, 1, false)))]
      && s.owned == Some(2) && s.xfer.Some? && s.xfer.value.actual == 1
  {
    FooledFacts();
    FooledRun();
    FooledEnds(Sent(LateState(), 1, SECOND));
  }

  lemma DeliverEndsOwnership(s: Pipe)
    requires s.holder != Remover && s.owned.Some? && s.owned.value in s.answers && !s.callback.Delivered?
    requires s.xfer.Some?
    ensures Run(s, [GiveToken, Deliver]).owned.None? && Run(s, [GiveToken, Deliver]).callback.Delivered?
  {
    RunTwo(s, GiveToken, Deliver);
  }

  lemma CallbackEnds(s: Pipe)
    requires s.owned.None? && s.callback.Delivered?
    ensures var u := Run(s, [ClearFlag, GiveToken]); !u.inflight && u.owned.None? && u.callback == Quiet
  {
    RunTwo(s, ClearFlag, GiveToken);
  }

  /** The pipe heals by itself: once the callback ran, a timed-out transfer refuses nobody. */
  lemma CallbackHealsThePipe(schedule: seq<Event>)
    requires var s := Run(Installed(), schedule);
      s.holder != Remover && s.owned.Some? && s.owned.value in s.answers
    ensures var s := Run(Run(Installed(), schedule), [GiveToken, Deliver, ClearFlag, GiveToken]);
      !s.inflight && s.owned.None? && s.callback == Quiet
  {
    var s := Run(Installed(), schedule);
    RunOk(schedule);
    OwnedFacts(s);
    RunFour(s, GiveToken, Deliver, ClearFlag, GiveToken);
    DeliverEndsOwnership(s);
    CallbackEnds(Run(s, [GiveToken, Deliver]));
  }
}
