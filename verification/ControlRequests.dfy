/**
 What the requests of the control pipe put into the shared buffer and return (lib/usb_host_hid/hid_host.c), in
 every interleaving: the setup packet and the data of a SET, the lengths, and which error stands for what.
 */
module ControlRequests {
  import opened Prelude
  import opened ControlPipe

  function After(schedule: seq<Event>): (r: Pipe) {
    Run(Installed(), schedule)
  }

  lemma OneMore(schedule: seq<Event>, e: Event)
    ensures After(schedule + [e]) == Step(After(schedule), e)
  {
    assert (schedule + [e])[..|schedule|] == schedule;
  }

  // ----- What is submitted -----

  /** The buffer holds the request: its setup packet, and from the first byte on the data to send. */
  ghost predicate Carries(b: Option<Buffer>, req: Request) {
    && b.Some? && b.value.setup == Some(req)
    && |req.data| <= |b.value.data| && b.value.data[..|req.data|] == req.data
  }

  /** From the setup packet to the answer the buffer carries the request of the task that holds the lock. */
  ghost predicate CarriedAt(s: Pipe, p: Phase) {
    match p
    case Ready(req) => Carries(s.xfer, req)
    case Drained(req, _) => Carries(s.xfer, req)
    case Armed(req, _) => Carries(s.xfer, req)
    case Submitted(req, gen, _) => gen !in s.answers ==> Carries(s.xfer, req)
    case _ => true
  }

  ghost predicate Carried(s: Pipe) {
    forall t: Task :: CarriedAt(s, PhaseOf(s, t))
  }

  /** Another task's phase past the lock cannot be. */
  lemma OnlyHolder(s: Pipe, t: Task, u: Task)
    requires Invariant(s) && PhaseOf(s, t).HoldsLock() && PhaseOf(s, u).HoldsLock()
    ensures t == u
  {
    HolderFacts(s, t);
    HolderFacts(s, u);
  }

  /** A step of a task that moves it to p: the other tasks carry nothing, or the buffer is the same. */
  lemma TaskMoves(s: Pipe, s': Pipe, t: Task, p: Phase)
    requires Invariant(s) && Carried(s) && s'.tasks == s.tasks[t := p] && CarriedAt(s', p)
    requires s'.answers == s.answers && (s'.xfer == s.xfer || PhaseOf(s, t).HoldsLock())
    ensures Carried(s')
  {
    forall u: Task ensures CarriedAt(s', PhaseOf(s', u)) {
      if u == t {
        assert PhaseOf(s', u) == p;
      } else {
        assert PhaseOf(s', u) == PhaseOf(s, u) && CarriedAt(s, PhaseOf(s, u));
        if PhaseOf(s, t).HoldsLock() && PhaseOf(s, u).HoldsLock() {
          OnlyHolder(s, t, u);
        }
      }
    }
  }

  lemma PhasesSame(s: Pipe, s': Pipe)
    requires Carried(s) && s'.tasks == s.tasks && s'.answers == s.answers && s'.xfer == s.xfer
    ensures Carried(s')
  {
    forall u: Task ensures CarriedAt(s', PhaseOf(s', u)) {
      assert CarriedAt(s, PhaseOf(s, u));
    }
  }

  lemma LockCarries(s: Pipe, e: Event)
    requires Invariant(s) && Carried(s) && IsLock(e)
    ensures Carried(LockStep(s, e))
  {
    var s' := LockStep(s, e);
    if s'.tasks == s.tasks {
      PhasesSame(s, s');
    } else {
      TaskMoves(s, s', e.t, PhaseOf(s', e.t));
    }
  }

  lemma PrepareCarries(s: Pipe, e: Event)
    requires Invariant(s) && Carried(s) && IsPrepare(e)
    ensures Carried(PrepareStep(s, e))
  {
    var s' := PrepareStep(s, e);
    if s' != s {
      TaskMoves(s, s', e.t, PhaseOf(s', e.t));
    }
  }

  lemma TransferCarries(s: Pipe, e: Event)
    requires Invariant(s) && Carried(s) && IsTransfer(e)
    ensures Carried(TransferStep(s, e))
  {
    var s' := TransferStep(s, e);
    if s' != s {
      assert CarriedAt(s, PhaseOf(s, e.t));
      TaskMoves(s, s', e.t, PhaseOf(s', e.t));
    }
  }

  lemma ConcludeCarries(s: Pipe, e: Event)
    requires Invariant(s) && Carried(s) && IsConclude(e)
    ensures Carried(Step(s, e))
  {
    var s' := Step(s, e);
    if s' != s {
      TaskMoves(s, s', e.t, PhaseOf(s', e.t));
    }
  }

  /** The controller only writes an answer into a buffer it owns: no one prepares it, and the answer is recorded. */
  lemma StackCarries(s: Pipe, e: Event)
    requires Invariant(s) && Carried(s) && IsStack(e)
    ensures Carried(StackStep(s, e))
  {
    var s' := StackStep(s, e);
    if e.Complete? && s' != s {
      OwnedFacts(s);
      forall u: Task ensures CarriedAt(s', PhaseOf(s', u)) {
        assert !AtBuffer(PhaseOf(s, u)) && PhaseOf(s', u) == PhaseOf(s, u);
        if PhaseOf(s, u).HoldsLock() {
          HolderFacts(s, u);
        }
      }
    } else {
      PhasesSame(s, s');
    }
  }

  lemma RemovalCarries(s: Pipe, e: Event)
    requires Invariant(s) && Carried(s) && IsRemoval(e)
    ensures Carried(RemovalStep(s, e))
  {
    var s' := RemovalStep(s, e);
    if s'.xfer == s.xfer {
      PhasesSame(s, s');
    } else {
      forall u: Task ensures CarriedAt(s', PhaseOf(s', u)) {
        assert PhaseOf(s', u) == PhaseOf(s, u);
        if PhaseOf(s, u).HoldsLock() {
          HolderFacts(s, u);
        }
      }
    }
  }

  lemma StepCarries(s: Pipe, e: Event)
    requires Invariant(s) && Carried(s)
    ensures Carried(Step(s, e))
  {
    if IsLock(e) {
      LockCarries(s, e);
    } else if IsPrepare(e) {
      PrepareCarries(s, e);
    } else if IsTransfer(e) {
      TransferCarries(s, e);
    } else if IsConclude(e) {
      ConcludeCarries(s, e);
    } else if IsStack(e) {
      StackCarries(s, e);
    } else {
      RemovalCarries(s, e);
    }
  }

  lemma {:induction false} RunCarries(schedule: seq<Event>)
    ensures Carried(After(schedule))
    decreases |schedule|
  {
    if schedule != [] {
      var before := schedule[..|schedule| - 1];
      RunCarries(before);
      RunOk(before);
      StepCarries(After(before), schedule[|schedule| - 1]);
    }
  }

  /**
   In every interleaving: what the controller finds when it takes a submitted transfer is the request of the task
   that waits for it, its setup packet, its length and, byte for byte, the data to send.
   */
  lemma SubmittedBufferHoldsRequest(schedule: seq<Event>, t: Task)
    requires var s := After(schedule); PhaseOf(s, t).Submitted? && PhaseOf(s, t).gen !in s.answers
    ensures var s := After(schedule); var req := PhaseOf(s, t).req;
      && s.xfer.Some? && s.xfer.value.setup == Some(req)
      && s.xfer.value.numBytes == 8 + req.wLength
      && |req.data| <= |s.xfer.value.data| && s.xfer.value.data[..|req.data|] == req.data
  {
    RunCarries(schedule);
    RunOk(schedule);
    assert CarriedAt(After(schedule), PhaseOf(After(schedule), t));
    HolderFacts(After(schedule), t);
  }

  /** Writing the setup packet leaves the size, the other fields and the bytes beyond the data as they were. */
  lemma SetupLeavesTheRest(schedule: seq<Event>, t: Task)
    requires After(schedule + [WriteSetup(t)]) != After(schedule)
    ensures var s, u := After(schedule), After(schedule + [WriteSetup(t)]);
      && PhaseOf(s, t).Entered? && PhaseOf(u, t) == Ready(PhaseOf(s, t).req) && s.xfer.Some? && u.xfer.Some?
      && var b, c, n := s.xfer.value, u.xfer.value, |PhaseOf(s, t).req.data|;
         && n <= |b.data| == |c.data| && c.data[n..] == b.data[n..]
         && (c.size, c.numBytes, c.status, c.actual) == (b.size, b.numBytes, b.status, b.actual)
  {
    OneMore(schedule, WriteSetup(t));
    var s := After(schedule);
    var b, req := s.xfer.value, PhaseOf(s, t).req;
    assert (req.data + b.data[|req.data|..])[|req.data|..] == b.data[|req.data|..];
  }

  /** Only a descriptor request that its buffer cannot take frees it. */
  lemma FreesExactly(schedule: seq<Event>, t: Task)
    requires PhaseOf(After(schedule), t).Entered? && After(schedule).xfer.Some?
    ensures var s, u, req := After(schedule), After(schedule + [FreeSmall(t)]), PhaseOf(After(schedule), t).req;
      if req.kind == Descriptor && s.xfer.value.size < 8 + req.wLength
      then u.xfer.None? && PhaseOf(u, t) == Dropped(req) else u == s
  {
    OneMore(schedule, FreeSmall(t));
  }

  /** The new buffer takes exactly the request; without memory the request leaves and there is no buffer. */
  lemma AllocatesExactly(schedule: seq<Event>, t: Task, ok: bool)
    requires PhaseOf(After(schedule), t).Dropped?
    ensures var req, u := PhaseOf(After(schedule), t).req, After(schedule + [Realloc(t, ok)]);
      if ok then PhaseOf(u, t) == Entered(req) && u.xfer.Some? && u.xfer.value.size == 8 + req.wLength
                 && |u.xfer.value.data| == req.wLength
      else PhaseOf(u, t) == Leaving(Return(t, req, NoMem, None)) && u.xfer.None?
  {
    RunOk(schedule);
    OneMore(schedule, Realloc(t, ok));
    HolderFacts(After(schedule), t);
  }

  /** The setup packet is written as soon as the buffer takes the request. */
  lemma WritesExactly(schedule: seq<Event>, t: Task)
    requires var s, p := After(schedule), PhaseOf(After(schedule), t);
      p.Entered? && p.req.Valid() && s.xfer.Some?
    ensures var s, req := After(schedule), PhaseOf(After(schedule), t).req;
      PhaseOf(After(schedule + [WriteSetup(t)]), t) ==
        if 8 + req.wLength <= s.xfer.value.size then Ready(req) else Entered(req)
  {
    RunOk(schedule);
    OneMore(schedule, WriteSetup(t));
    HolderFacts(After(schedule), t);
  }

  /** A device that was just installed has a buffer of 512 bytes and nothing in progress. */
  lemma InstalledDevice()
    ensures var s := After([]);
      && s.xfer.Some? && s.xfer.value.size == 512 && |s.xfer.value.data| == 504
      && s.holder == Nobody && s.token.None? && !s.inflight && s.owned.None? && s.removal == NotStarted
  {
  }

  // ----- What is returned, and why -----

  /** A task that is not in a request, on a device that is not being removed, makes a well-formed one. */
  predicate MayBegin(s: Pipe, t: Task, req: Request) {
    PhaseOf(s, t) == Idle && req.Valid() && s.removal in {NotStarted, Locked}
  }

  /** The checks before the lock: a buffer, and for all but a descriptor one that takes the setup packet and wLength. */
  lemma BeginExactly(schedule: seq<Event>, t: Task, req: Request)
    requires MayBegin(After(schedule), t, req)
    ensures var s, u := After(schedule), After(schedule + [Begin(t, req)]);
      if s.xfer.None? then u.returned == s.returned + [Return(t, req, InvalidArg, None)] && PhaseOf(u, t) == Idle
      else if req.kind in {Set, Get} && 8 + req.wLength > s.xfer.value.size then
        u.returned == s.returned + [Return(t, req, InvalidSize, None)] && PhaseOf(u, t) == Idle
      else u.returned == s.returned && PhaseOf(u, t) == Waiting(req)
  {
    OneMore(schedule, Begin(t, req));
  }

  /** A waiting task gets the device if and only if nobody has it, and times out only while somebody does. */
  lemma LockExactly(schedule: seq<Event>, t: Task)
    requires PhaseOf(After(schedule), t).Waiting?
    ensures var s, req := After(schedule), PhaseOf(After(schedule), t).req;
      var u, v := After(schedule + [TakeLock(t)]), After(schedule + [LockTimeout(t)]);
      && (if s.holder == Nobody then u.holder == By(t) && PhaseOf(u, t) == Taken(req) else u == s)
      && (if s.holder == Nobody then v == s
          else PhaseOf(v, t) == Idle && v.returned == s.returned + [Return(t, req, Timeout, None)])
  {
    OneMore(schedule, TakeLock(t));
    OneMore(schedule, LockTimeout(t));
  }

  predicate Leaves(s: Pipe, u: Pipe, t: Task) {
    !PhaseOf(s, t).Leaving? && PhaseOf(u, t).Leaving?
  }

  /** The one error that each event of a request stands for. */
  predicate Because(s: Pipe, e: Event, t: Task, ret: Return) {
    var p := PhaseOf(s, t);
    match e
    case CheckInflight(u) => u == t && p.Taken? && s.inflight && ret == Return(t, p.req, InvalidState, None)
    case Realloc(u, ok) => u == t && p.Dropped? && !ok && ret == Return(t, p.req, NoMem, None)
    case Submit(u, ok) => u == t && p.Armed? && !ok && ret == Return(t, p.req, NotSubmitted, None)
    case GiveUp(u) => u == t && p.Submitted? && s.token.None? && ret == Return(t, p.req, Timeout, None)
    case Finish(u) =>
      u == t && p.Woken? && ret.task == t && ret.req == p.req && ret.wake == Some(Wake(p.gen, p.giver, p.clean))
    case _ => false
  }

  lemma LockLeaves(s: Pipe, e: Event, t: Task)
    requires IsLock(e) && Leaves(s, LockStep(s, e), t)
    ensures Because(s, e, t, PhaseOf(LockStep(s, e), t).ret) && LockStep(s, e).inflight == s.inflight
  {
  }

  lemma PrepareLeaves(s: Pipe, e: Event, t: Task)
    requires IsPrepare(e) && Leaves(s, PrepareStep(s, e), t)
    ensures Because(s, e, t, PhaseOf(PrepareStep(s, e), t).ret) && PrepareStep(s, e).inflight == s.inflight
  {
  }

  lemma TransferLeaves(s: Pipe, e: Event, t: Task)
    requires IsTransfer(e) && Leaves(s, TransferStep(s, e), t)
    ensures Because(s, e, t, PhaseOf(TransferStep(s, e), t).ret)
    ensures TransferStep(s, e).inflight == (s.inflight && !e.Submit?)
  {
  }

  lemma ConcludeLeaves(s: Pipe, e: Event, t: Task)
    requires IsConclude(e) && Leaves(s, Step(s, e), t)
    ensures Because(s, e, t, PhaseOf(Step(s, e), t).ret) && Step(s, e).inflight == s.inflight
  {
  }

  lemma NobodyLeaves(s: Pipe, e: Event, t: Task)
    requires IsStack(e) || IsRemoval(e)
    ensures !Leaves(s, if IsStack(e) then StackStep(s, e) else RemovalStep(s, e), t)
  {
  }

  lemma StepLeaves(s: Pipe, e: Event, t: Task)
    requires Leaves(s, Step(s, e), t)
    ensures Because(s, e, t, PhaseOf(Step(s, e), t).ret)
    ensures Step(s, e).inflight == (s.inflight && !e.Submit?)
  {
    if IsLock(e) {
      LockLeaves(s, e, t);
    } else if IsPrepare(e) {
      PrepareLeaves(s, e, t);
    } else if IsTransfer(e) {
      TransferLeaves(s, e, t);
    } else if IsConclude(e) {
      ConcludeLeaves(s, e, t);
    } else {
      NobodyLeaves(s, e, t);
    }
  }

  /** Why a task is about to return; a refused submission clears the flag again, and nothing else does. */
  lemma LeavesBecause(schedule: seq<Event>, e: Event, t: Task)
    requires Leaves(After(schedule), After(schedule + [e]), t)
    ensures Because(After(schedule), e, t, PhaseOf(After(schedule + [e]), t).ret)
    ensures After(schedule + [e]).inflight == (After(schedule).inflight && !e.Submit?)
  {
    OneMore(schedule, e);
    StepLeaves(After(schedule), e, t);
  }

  /** Unlocking hands the result to the caller and the device back. */
  lemma UnlockExactly(schedule: seq<Event>, t: Task)
    requires PhaseOf(After(schedule), t).Leaving?
    ensures var s, u := After(schedule), After(schedule + [Unlock(t)]);
      && u.returned == s.returned + [PhaseOf(s, t).ret] && PhaseOf(u, t) == Idle && u.holder == Nobody
  {
    OneMore(schedule, Unlock(t));
  }

  /**
   The number of bytes received that a request leaves behind when its own completion woke it: the answer's, cut to
   what was asked for, and for a GET without the setup packet.
   */
  lemma FinishedCount(schedule: seq<Event>, t: Task)
    requires var p := PhaseOf(After(schedule), t); p.Woken? && p.clean
    ensures var s, p, u := After(schedule), PhaseOf(After(schedule), t), After(schedule + [Finish(t)]);
      && p.gen in s.answers && u.xfer.Some?
      && var r, asked := s.answers[p.gen], 8 + p.req.wLength;
         u.xfer.value.actual ==
           (if r.status != Completed || r.actual < 8 then r.actual
            else Min(r.actual, asked) - (if p.req.kind == Get then 8 else 0))
  {
    RunOk(schedule);
    OneMore(schedule, Finish(t));
    HolderFacts(After(schedule), t);
  }

  // ----- The removal, statement by statement -----

  /** It takes the device when nobody has it, no callback runs and it was not removed before. */
  lemma RemovalTakes(schedule: seq<Event>)
    ensures var s, u := After(schedule), After(schedule + [RemoveLock]);
      if s.removal == NotStarted && s.holder == Nobody && s.callback == Quiet
      then u == s.(removal := Locked, holder := Remover) else u == s
  {
    OneMore(schedule, RemoveLock);
  }

  /** The interfaces detached, it leaks a context in flight. */
  lemma RemovalDecides(schedule: seq<Event>)
    ensures var s, u := After(schedule), After(schedule + [RemoveDetach]);
      s.removal == Locked ==> u == s.(removal := Detached)
    ensures var s, u := After(schedule), After(schedule + [RemoveCheck]);
      s.removal == Detached ==> u == if s.inflight then s.(removal := Leaked, holder := Nobody) else s
  {
    OneMore(schedule, RemoveDetach);
    OneMore(schedule, RemoveCheck);
  }

  /** It frees the buffer of a context that is not in flight, closes the device and frees the context. */
  lemma RemovalEnds(schedule: seq<Event>, ok: bool)
    ensures var s, u := After(schedule), After(schedule + [RemoveFreeXfer(ok)]);
      s.removal == Detached ==>
        u == if s.inflight then s else if ok then s.(removal := XferFreed, xfer := None) else s.(removal := Stuck)
    ensures var s, u := After(schedule), After(schedule + [RemoveClose(ok)]);
      s.removal == XferFreed ==> u == s.(removal := if ok then Closed else Stuck)
    ensures var s, u := After(schedule), After(schedule + [RemoveFree]);
      s.removal == Closed ==> u == s.(removal := Gone)
  {
    OneMore(schedule, RemoveFreeXfer(ok));
    OneMore(schedule, RemoveClose(ok));
    OneMore(schedule, RemoveFree);
  }

  lemma FreeDeviceDetaches(schedule: seq<Event>)
    requires var s := After(schedule);
      s.removal == NotStarted && s.holder == Nobody && s.callback == Quiet && !s.inflight
    ensures var u := After(schedule + [RemoveLock] + [RemoveDetach]); u.removal == Detached && !u.inflight
  {
    RemovalTakes(schedule);
    RemovalDecides(schedule + [RemoveLock]);
  }

  lemma DetachedDeviceGoes(schedule: seq<Event>)
    requires After(schedule).removal == Detached && !After(schedule).inflight
    ensures After(schedule + [RemoveFreeXfer(true)] + [RemoveClose(true)] + [RemoveFree]).removal == Gone
  {
    RemovalEnds(schedule, true);
    RemovalEnds(schedule + [RemoveFreeXfer(true)], true);
    RemovalEnds(schedule + [RemoveFreeXfer(true)] + [RemoveClose(true)], true);
  }

  /** A device nobody uses, with no transfer in flight, is removed and freed. */
  lemma FreeDeviceGoes(schedule: seq<Event>)
    requires var s := After(schedule);
      s.removal == NotStarted && s.holder == Nobody && s.callback == Quiet && !s.inflight
    ensures After(schedule + [RemoveLock] + [RemoveDetach]
                  + [RemoveFreeXfer(true)] + [RemoveClose(true)] + [RemoveFree]).removal == Gone
  {
    FreeDeviceDetaches(schedule);
    DetachedDeviceGoes(schedule + [RemoveLock] + [RemoveDetach]);
  }
}
