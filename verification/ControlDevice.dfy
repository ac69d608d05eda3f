/** The control pipe in the driver's own form (lib/usb_host_hid/hid_host.c): shared fields changed in place. */
module ControlDevice {
  import opened Prelude
  import opened ControlPipe

  /** What every state of the pipe promises, on its fields. */
  lemma Promises(schedule: seq<Event>)
    ensures var s := Run(Installed(), schedule);
      && (s.owned.Some? ==> s.inflight && s.xfer.Some?)
      && (s.removal in {XferFreed, Closed, Gone} ==>
            s.owned.None? && s.callback == Quiet && !s.inflight && forall t <- s.tasks :: !s.tasks[t].HoldsLock())
  {
    var s := Run(Installed(), schedule);
    if s.owned.Some? {
      OwnedBufferIsLeftAlone(schedule, Deliver);
    }
    if s.removal in {XferFreed, Closed, Gone} {
      NothingInProgressOnFreedContext(schedule);
      RunOk(schedule);
      forall t <- s.tasks ensures !s.tasks[t].HoldsLock() {
        assert PhaseOf(s, t) == s.tasks[t];
      }
    }
  }

  /** hid_device_t and what surrounds it; every method is one uninterruptible group of statements. */
  class Device {
    var deviceBusy: Holder
    var ctrlXferDone: Option<nat>
    var ctrlInflight: bool
    var ctrlXfer: Option<Buffer>
    var tasks: map<Task, Phase>
    var callback: Callback
    var removal: Removal
    var owned: Option<nat>
    var gens: nat
    var answers: map<nat, Response>
    var returned: seq<Return>

    function State(): (r: Pipe)
      reads this
    {
      Pipe(deviceBusy, ctrlXferDone, ctrlInflight, ctrlXfer, tasks, callback, removal, owned, gens, answers, returned)
    }

    constructor ()
      ensures State() == Installed()
    {
      deviceBusy, ctrlXferDone, ctrlInflight, ctrlXfer := Nobody, None, false, Some(Fresh(MIN_REPORT_DESC_LEN));
      tasks, callback, removal := map[], Quiet, NotStarted;
      owned, gens, answers, returned := None, 0, map[], [];
    }

    /** hid_device_try_lock() and the check of hid_device_lock_ctrl(). */
    method Lock(e: Event)
      requires IsLock(e)
      modifies this
      ensures State() == LockStep(old(State()), e)
    {
      var p := if e.t in tasks then tasks[e.t] else Idle;
      match e {
        case Begin(t, req) =>
          if p == Idle && req.Valid() && removal in {NotStarted, Locked} {
            if ctrlXfer.None? {
              returned := returned + [Return(t, req, InvalidArg, None)];
            } else if req.kind != Descriptor && ctrlXfer.value.size < req.Bytes() {
              returned := returned + [Return(t, req, InvalidSize, None)];
            } else {
              tasks := tasks[t := Waiting(req)];
            }
          }
        case TakeLock(t) =>
          if p.Waiting? && deviceBusy == Nobody {
            deviceBusy := By(t);
            tasks := tasks[t := Taken(p.req)];
          }
        case LockTimeout(t) =>
          if p.Waiting? && deviceBusy != Nobody {
            tasks := tasks[t := Idle];
            returned := returned + [Return(t, p.req, Timeout, None)];
          }
        case CheckInflight(t) =>
          if p.Taken? {
            tasks := tasks[t := if ctrlInflight then Leaving(Return(t, p.req, InvalidState, None)) else Entered(p.req)];
          }
      }
    }

    /** usb_class_request_get_descriptor()'s reallocation and the setup packet of every request. */
    method Prepare(e: Event)
      requires IsPrepare(e)
      modifies this
      ensures State() == PrepareStep(old(State()), e)
    {
      var p := if e.t in tasks then tasks[e.t] else Idle;
      match e {
        case FreeSmall(t) =>
          if p.Entered? && p.req.kind == Descriptor && ctrlXfer.Some? && ctrlXfer.value.size < p.req.Bytes() {
            ctrlXfer := None;
            tasks := tasks[t := Dropped(p.req)];
          }
        case Realloc(t, ok) =>
          if p.Dropped? {
            if ok {
              ctrlXfer := Some(Fresh(p.req.Bytes()));
            }
            tasks := tasks[t := if ok then Entered(p.req) else Leaving(Return(t, p.req, NoMem, None))];
          }
        case WriteSetup(t) =>
          if p.Entered? && ctrlXfer.Some? && p.req.Bytes() <= ctrlXfer.value.size
             && |p.req.data| <= |ctrlXfer.value.data| {
            ctrlXfer := Some(Written(ctrlXfer.value, p.req));
            tasks := tasks[t := Ready(p.req)];
          }
      }
    }

    /** hid_control_transfer(): drain, arm, submit, wait. */
    method Transfer(e: Event)
      requires IsTransfer(e)
      modifies this
      ensures State() == TransferStep(old(State()), e)
    {
      var p := if e.t in tasks then tasks[e.t] else Idle;
      match e {
        case Drain(t) =>
          if p.Ready? {
            ctrlXferDone := None;
            tasks := tasks[t := Drained(p.req, !callback.Cleared?)];
          }
        case Arm(t) =>
          if p.Drained? && ctrlXfer.Some? {
            ctrlXfer := Some(ctrlXfer.value.(numBytes := p.req.Bytes()));
            ctrlInflight := true;
            tasks := tasks[t := Armed(p.req, p.clean)];
          }
        case Submit(t, ok) =>
          if p.Armed? {
            if ok {
              gens := gens + 1;
              owned := Some(gens);
              tasks := tasks[t := Submitted(p.req, gens, p.clean)];
            } else {
              ctrlInflight := false;
              tasks := tasks[t := Leaving(Return(t, p.req, NotSubmitted, None))];
            }
          }
        case Wakeup(t) =>
          if p.Submitted? && ctrlXferDone.Some? {
            tasks := tasks[t := Woken(p.req, p.gen, p.clean, ctrlXferDone.value)];
            ctrlXferDone := None;
          }
        case GiveUp(t) =>
          if p.Submitted? && ctrlXferDone.None? {
            tasks := tasks[t := Leaving(Return(t, p.req, Timeout, None))];
          }
      }
    }

    /** The end of a request: the status of the transfer, the copy to the caller, the unlock. */
    method Conclude(e: Event)
      requires IsConclude(e)
      modifies this
      ensures State() == Step(old(State()), e)
    {
      var p := if e.t in tasks then tasks[e.t] else Idle;
      match e {
        case Finish(t) =>
          if p.Woken? && ctrlXfer.Some? {
            var result := Judge(ctrlXfer.value, p.req);
            ctrlXfer := Some(Judged(ctrlXfer.value, p.req));
            tasks := tasks[t := Leaving(Return(t, p.req, result, Some(Wake(p.gen, p.giver, p.clean))))];
          }
        case Unlock(t) =>
          if p.Leaving? {
            tasks := tasks[t := Idle];
            returned := returned + [p.ret];
            deviceBusy := Nobody;
          }
      }
    }

    /** The controller, and ctrl_xfer_done(). */
    method Stack(e: Event)
      requires IsStack(e)
      modifies this
      ensures State() == StackStep(old(State()), e)
    {
      match e {
        case Complete(r) =>
          if owned.Some? && owned.value !in answers && ctrlXfer.Some? && r.Fits(ctrlXfer.value.size)
             && |r.payload| <= |ctrlXfer.value.data| {
            answers := answers[owned.value := r];
            var b := ctrlXfer.value;
            ctrlXfer := Some(b.(status := r.status, actual := r.actual, data := r.payload + b.data[|r.payload|..]));
          }
        case Deliver =>
          if owned.Some? && owned.value in answers && callback == Quiet && deviceBusy != Remover {
            callback := Delivered(owned.value);
            owned := None;
          }
        case ClearFlag =>
          if callback.Delivered? {
            ctrlInflight := false;
            callback := Cleared(callback.gen);
          }
        case GiveToken =>
          if callback.Cleared? {
            if ctrlXferDone.None? {
              ctrlXferDone := Some(callback.gen);
            }
            callback := Quiet;
          }
      }
    }

    method LockForRemoval()
      modifies this
      ensures State() == RemoveLockStep(old(State()))
    {
      if removal == NotStarted && deviceBusy == Nobody && callback == Quiet {
        deviceBusy, removal := Remover, Locked;
      }
    }

    method FreeXfer(ok: bool)
      modifies this
      ensures State() == RemoveFreeXferStep(old(State()), ok)
    {
      if removal == Detached && !ctrlInflight {
        if ok {
          ctrlXfer, removal := None, XferFreed;
        } else {
          removal := Stuck;
        }
      }
    }

    /** hid_host_uninstall_device() up to the check of the flag. */
    method EnterRemoval(e: Event)
      requires IsRemovalEntry(e)
      modifies this
      ensures State() == EnterRemovalStep(old(State()), e)
    {
      match e {
        case RemoveLock => LockForRemoval();
        case RemoveDetach =>
          if removal == Locked {
            removal := Detached;
          }
        case RemoveCheck =>
          if removal == Detached && ctrlInflight {
            removal, deviceBusy := Leaked, Nobody;
          }
      }
    }

    /** hid_host_uninstall_device(). */
    method Uninstall(e: Event)
      requires IsRemoval(e)
      modifies this
      ensures State() == RemovalStep(old(State()), e)
    {
      if IsRemovalEntry(e) {
        EnterRemoval(e);
        return;
      }
      match e {
        case RemoveFreeXfer(ok) => FreeXfer(ok);
        case RemoveClose(ok) =>
          if removal == XferFreed {
            removal := if ok then Closed else Stuck;
          }
        case RemoveFree =>
          if removal == Closed {
            removal := Gone;
          }
      }
    }

    /**
     A further part of one interleaving since the installation. Whatever it is, on the driver's own fields: while
     the stack owns the buffer the flag is set; a freed buffer or context has no owner, no callback and nobody at
     it; a leaked context stays.
     */
    method Execute(ghost before: seq<Event>, schedule: seq<Event>)
      requires State() == Run(Installed(), before)
      modifies this
      ensures State() == Run(Installed(), before + schedule)
      ensures owned.Some? ==> ctrlInflight && ctrlXfer.Some?
      ensures removal in {XferFreed, Closed, Gone} ==> owned.None? && callback == Quiet && !ctrlInflight
      ensures removal in {XferFreed, Closed, Gone} ==> forall t <- tasks :: !tasks[t].HoldsLock()
      ensures old(removal) == Leaked ==> removal == Leaked
    {
      ghost var start := State();
      for n := 0 to |schedule|
        invariant State() == Run(start, schedule[..n])
      {
        var e := schedule[n];
        RunStep(start, schedule, n);
        if IsLock(e) {
          Lock(e);
        } else if IsPrepare(e) {
          Prepare(e);
        } else if IsTransfer(e) {
          Transfer(e);
        } else if IsConclude(e) {
          Conclude(e);
        } else if IsStack(e) {
          Stack(e);
        } else {
          Uninstall(e);
        }
      }
      assert schedule[..|schedule|] == schedule;
      RunConcat(Installed(), before, schedule);
      Promises(before + schedule);
      if start.removal == Leaked {
        LeakedStays(start, schedule);
      }
    }
  }
}
