/**
 The control pipe of one USB HID device (lib/usb_host_hid/hid_host.c): requester tasks, the transfer
 callback and the removal of the device share one transfer buffer, a mutex, a binary semaphore and
 a flag.

 One Event is one statement (or one uninterruptible group of statements) of one of these parties, so
 a schedule, any sequence of events, is one interleaving. An event that the party cannot execute at
 that point leaves the state as it is; theorems quantified over all schedules are therefore
 quantified over all interleavings of any number of requesters.
 */
module ControlPipe {
  import opened Prelude

  type Task = nat

  const SETUP_PACKET_SIZE: nat := 8
  const MIN_REPORT_DESC_LEN: nat := 512

  /** hid_class_request_set, hid_class_request_get and usb_class_request_get_descriptor. */
  datatype Kind = Set | Get | Descriptor

  /** data: the bytes to send (Set), empty when the caller gives none. */
  datatype Request = Request(kind: Kind, wLength: nat, data: seq<byte>) {
    predicate Valid() {
      && wLength < 0x1_0000
      && (data == [] || (kind == Set && |data| == wLength))
    }

    /** Bytes of the transfer: the setup packet and the data stage. */
    function Bytes(): (r: nat) {
      SETUP_PACKET_SIZE + wLength
    }
  }

  datatype Status = Completed | Stall | Overflow | Other

  /** What the device answered: actual_num_bytes counts the setup packet too. */
  datatype Response = Response(status: Status, actual: nat, payload: seq<byte>) {
    predicate Fits(size: nat) {
      && actual <= size
      && |payload| == if actual < SETUP_PACKET_SIZE then 0 else actual - SETUP_PACKET_SIZE
    }
  }

  /** usb_transfer_t: data is the part of data_buffer after the setup packet. */
  datatype Buffer = Buffer(size: nat, setup: Option<Request>, numBytes: nat,
                           status: Status, actual: nat, data: seq<byte>)

  datatype Result =
    | Ok(data: seq<byte>)
    | Timeout          // ESP_ERR_TIMEOUT
    | InvalidState     // ESP_ERR_INVALID_STATE: the previous transfer is still in flight
    | InvalidSize      // ESP_ERR_INVALID_SIZE
    | InvalidResponse  // ESP_ERR_INVALID_RESPONSE: STALL
    | InvalidArg       // ESP_ERR_INVALID_ARG: no buffer
    | NoMem            // ESP_ERR_NO_MEM
    | NotSubmitted     // the error of usb_host_transfer_submit_control()
    | Failed           // ESP_FAIL

  /**
   How a requester was woken: gen numbers its own submission, by the submission whose callback gave
   the token it took; clean says that no callback stood between its two statements when the
   requester dropped the stale token.
   */
  datatype Wake = Wake(gen: nat, giver: nat, clean: bool)

  datatype Return = Return(task: Task, req: Request, result: Result, wake: Option<Wake>)

  /** Where a requester stands; every phase but Idle and Waiting holds device_busy. */
  datatype Phase =
    | Idle
    | Waiting(req: Request)
    | Taken(req: Request)                                    // mutex taken, flag not read yet
    | Entered(req: Request)                                  // hid_device_lock_ctrl() returned ESP_OK
    | Dropped(req: Request)                                  // too small buffer freed
    | Ready(req: Request)                                    // setup packet written
    | Drained(req: Request, clean: bool)                     // stale token dropped
    | Armed(req: Request, clean: bool)                       // ctrl_inflight set
    | Submitted(req: Request, gen: nat, clean: bool)         // waiting for ctrl_xfer_done
    | Woken(req: Request, gen: nat, clean: bool, giver: nat)
    | Leaving(ret: Return)                                   // before hid_device_unlock()
  {
    predicate HoldsLock() {
      !Idle? && !Waiting?
    }
  }

  datatype Holder = Nobody | By(task: Task) | Remover

  /** ctrl_xfer_done(): handed the buffer, flag cleared, then back to idle. */
  datatype Callback = Quiet | Delivered(gen: nat) | Cleared(gen: nat)

  /** hid_host_uninstall_device(), statement by statement; Stuck: a call it makes failed. */
  datatype Removal = NotStarted | Locked | Detached | XferFreed | Closed | Gone | Leaked | Stuck

  /**
   holder, token, inflight and xfer are the fields device_busy, ctrl_xfer_done, ctrl_inflight and
   ctrl_xfer. owned is the submission the USB stack still owns; gens counts submissions; answers and
   returned are the history.
   */
  datatype Pipe = Pipe(
    holder: Holder,
    token: Option<nat>,
    inflight: bool,
    xfer: Option<Buffer>,
    tasks: map<Task, Phase>,
    callback: Callback,
    removal: Removal,
    owned: Option<nat>,
    gens: nat,
    answers: map<nat, Response>,
    returned: seq<Return>)

  function Fresh(size: nat): (r: Buffer) {
    Buffer(size, None, 0, Completed, 0, seq(if size < SETUP_PACKET_SIZE then 0 else size - SETUP_PACKET_SIZE, _ => 0))
  }

  /** hid_host_install_device(). */
  function Installed(): (r: Pipe) {
    Pipe(Nobody, None, false, Some(Fresh(MIN_REPORT_DESC_LEN)), map[], Quiet, NotStarted, None, 0, map[], [])
  }

  function PhaseOf(s: Pipe, t: Task): (r: Phase) {
    if t in s.tasks then s.tasks[t] else Idle
  }

  function Move(s: Pipe, t: Task, p: Phase): (r: Pipe) {
    s.(tasks := s.tasks[t := p])
  }

  datatype Event =
    | Begin(t: Task, req: Request)
    | TakeLock(t: Task)
    | LockTimeout(t: Task)
    | CheckInflight(t: Task)
    | FreeSmall(t: Task)
    | Realloc(t: Task, ok: bool)
    | WriteSetup(t: Task)
    | Drain(t: Task)
    | Arm(t: Task)
    | Submit(t: Task, ok: bool)
    | Wakeup(t: Task)
    | GiveUp(t: Task)
    | Finish(t: Task)
    | Unlock(t: Task)
    | Complete(response: Response)
    | Deliver
    | ClearFlag
    | GiveToken
    | RemoveLock
    | RemoveDetach
    | RemoveCheck
    | RemoveFreeXfer(ok: bool)
    | RemoveClose(ok: bool)
    | RemoveFree

  // ----- Requesters -----

  /** Argument checks before the lock: a buffer, and for Get and Set one that is large enough. */
  function BeginStep(s: Pipe, t: Task, req: Request): (r: Pipe) {
    if PhaseOf(s, t) != Idle || !req.Valid() || s.removal !in {NotStarted, Locked} then s
    else if s.xfer.None? then s.(returned := s.returned + [Return(t, req, InvalidArg, None)])
    else if req.kind != Descriptor && s.xfer.value.size < req.Bytes() then
      s.(returned := s.returned + [Return(t, req, InvalidSize, None)])
    else Move(s, t, Waiting(req))
  }

  function TakeLockStep(s: Pipe, t: Task): (r: Pipe) {
    var p := PhaseOf(s, t);
    if !p.Waiting? || s.holder != Nobody then s else Move(s, t, Taken(p.req)).(holder := By(t))
  }

  function LockTimeoutStep(s: Pipe, t: Task): (r: Pipe) {
    var p := PhaseOf(s, t);
    if !p.Waiting? || s.holder == Nobody then s
    else Move(s, t, Idle).(returned := s.returned + [Return(t, p.req, Timeout, None)])
  }

  function CheckInflightStep(s: Pipe, t: Task): (r: Pipe) {
    var p := PhaseOf(s, t);
    if !p.Taken? then s
    else if s.inflight then Move(s, t, Leaving(Return(t, p.req, InvalidState, None)))
    else Move(s, t, Entered(p.req))
  }

  function FreeSmallStep(s: Pipe, t: Task): (r: Pipe) {
    var p := PhaseOf(s, t);
    if !p.Entered? || p.req.kind != Descriptor || s.xfer.None? || s.xfer.value.size >= p.req.Bytes() then s
    else Move(s, t, Dropped(p.req)).(xfer := None)
  }

  function ReallocStep(s: Pipe, t: Task, ok: bool): (r: Pipe) {
    var p := PhaseOf(s, t);
    if !p.Dropped? then s
    else if ok then Move(s, t, Entered(p.req)).(xfer := Some(Fresh(p.req.Bytes())))
    else Move(s, t, Leaving(Return(t, p.req, NoMem, None)))
  }

  /** The setup packet, and for Set the data stage. */
  function Written(b: Buffer, req: Request): (r: Buffer)
    requires |req.data| <= |b.data|
  {
    b.(setup := Some(req), data := req.data + b.data[|req.data|..])
  }

  function WriteSetupStep(s: Pipe, t: Task): (r: Pipe) {
    var p := PhaseOf(s, t);
    if !p.Entered? || s.xfer.None? || s.xfer.value.size < p.req.Bytes() || |p.req.data| > |s.xfer.value.data| then s
    else Move(s, t, Ready(p.req)).(xfer := Some(Written(s.xfer.value, p.req)))
  }

  function DrainStep(s: Pipe, t: Task): (r: Pipe) {
    var p := PhaseOf(s, t);
    if !p.Ready? then s else Move(s, t, Drained(p.req, !s.callback.Cleared?)).(token := None)
  }

  /** num_bytes and the other transfer fields, then ctrl_inflight := true. */
  function ArmStep(s: Pipe, t: Task): (r: Pipe) {
    var p := PhaseOf(s, t);
    if !p.Drained? || s.xfer.None? then s
    else Move(s, t, Armed(p.req, p.clean)).(inflight := true, xfer := Some(s.xfer.value.(numBytes := p.req.Bytes())))
  }

  function SubmitStep(s: Pipe, t: Task, ok: bool): (r: Pipe) {
    var p := PhaseOf(s, t);
    if !p.Armed? then s
    else if ok then Move(s, t, Submitted(p.req, s.gens + 1, p.clean)).(owned := Some(s.gens + 1), gens := s.gens + 1)
    else Move(s, t, Leaving(Return(t, p.req, NotSubmitted, None))).(inflight := false)
  }

  function WakeupStep(s: Pipe, t: Task): (r: Pipe) {
    var p := PhaseOf(s, t);
    if !p.Submitted? || s.token.None? then s
    else Move(s, t, Woken(p.req, p.gen, p.clean, s.token.value)).(token := None)
  }

  function GiveUpStep(s: Pipe, t: Task): (r: Pipe) {
    var p := PhaseOf(s, t);
    if !p.Submitted? || s.token.Some? then s
    else Move(s, t, Leaving(Return(t, p.req, Timeout, None)))
  }

  /** After the wake: status, minimum size, truncation to num_bytes, then the copy to the caller. */
  function Judge(b: Buffer, req: Request): (r: Result) {
    if b.status == Stall then InvalidResponse
    else if b.status == Overflow then InvalidSize
    else if b.status != Completed then Failed
    else if b.actual < SETUP_PACKET_SIZE then InvalidSize
    else
      var actual := if b.actual > b.numBytes then b.numBytes else b.actual;
      if req.kind == Set then Ok([])
      else
        var length := actual - SETUP_PACKET_SIZE;
        if length < 0 || length > req.wLength || length > |b.data| then InvalidSize else Ok(b.data[..length])
  }

  /** actual_num_bytes after the judging: cut to num_bytes, and for Get without the setup packet. */
  function Judged(b: Buffer, req: Request): (r: Buffer) {
    if b.status != Completed || b.actual < SETUP_PACKET_SIZE then b
    else
      var actual := Min(b.actual, b.numBytes);
      b.(actual := if req.kind == Get then Max(actual - SETUP_PACKET_SIZE, 0) else actual)
  }

  function FinishStep(s: Pipe, t: Task): (r: Pipe) {
    var p := PhaseOf(s, t);
    if !p.Woken? || s.xfer.None? then s
    else
      var ret := Return(t, p.req, Judge(s.xfer.value, p.req), Some(Wake(p.gen, p.giver, p.clean)));
      Move(s, t, Leaving(ret)).(xfer := Some(Judged(s.xfer.value, p.req)))
  }

  function UnlockStep(s: Pipe, t: Task): (r: Pipe) {
    var p := PhaseOf(s, t);
    if !p.Leaving? then s else Move(s, t, Idle).(holder := Nobody, returned := s.returned + [p.ret])
  }

  // ----- The USB stack and the callback -----

  /** The controller writes the answer into the buffer it owns. */
  function CompleteStep(s: Pipe, r: Response): (result: Pipe) {
    if s.owned.None? || s.owned.value in s.answers || s.xfer.None? || !r.Fits(s.xfer.value.size)
       || |r.payload| > |s.xfer.value.data| then s
    else
      var b := s.xfer.value;
      s.(answers := s.answers[s.owned.value := r],
         xfer := Some(b.(status := r.status, actual := r.actual, data := r.payload + b.data[|r.payload|..])))
  }

  /**
   The stack hands the buffer back by calling ctrl_xfer_done(), in the client task: never while that
   task is inside hid_host_uninstall_device().
   */
  function DeliverStep(s: Pipe): (r: Pipe) {
    if s.owned.None? || s.owned.value !in s.answers || s.callback != Quiet || s.holder == Remover then s
    else s.(owned := None, callback := Delivered(s.owned.value))
  }

  function ClearFlagStep(s: Pipe): (r: Pipe) {
    if !s.callback.Delivered? then s else s.(inflight := false, callback := Cleared(s.callback.gen))
  }

  /** Giving a binary semaphore that is already given changes nothing. */
  function GiveTokenStep(s: Pipe): (r: Pipe) {
    if !s.callback.Cleared? then s
    else s.(callback := Quiet, token := if s.token.Some? then s.token else Some(s.callback.gen))
  }

  // ----- Removal: runs in the task that also runs the callbacks -----

  function RemoveLockStep(s: Pipe): (r: Pipe) {
    if s.removal != NotStarted || s.holder != Nobody || s.callback != Quiet then s
    else s.(holder := Remover, removal := Locked)
  }

  function RemoveDetachStep(s: Pipe): (r: Pipe) {
    if s.removal != Locked then s else s.(removal := Detached)
  }

  /** Still in flight: the context is taken off the list, unlocked and never freed. */
  function RemoveCheckStep(s: Pipe): (r: Pipe) {
    if s.removal != Detached || !s.inflight then s else s.(removal := Leaked, holder := Nobody)
  }

  function RemoveFreeXferStep(s: Pipe, ok: bool): (r: Pipe) {
    if s.removal != Detached || s.inflight then s
    else if ok then s.(removal := XferFreed, xfer := None) else s.(removal := Stuck)
  }

  function RemoveCloseStep(s: Pipe, ok: bool): (r: Pipe) {
    if s.removal != XferFreed then s else s.(removal := if ok then Closed else Stuck)
  }

  function RemoveFreeStep(s: Pipe): (r: Pipe) {
    if s.removal != Closed then s else s.(removal := Gone)
  }

  predicate IsLock(e: Event) {
    e.Begin? || e.TakeLock? || e.LockTimeout? || e.CheckInflight?
  }

  predicate IsPrepare(e: Event) {
    e.FreeSmall? || e.Realloc? || e.WriteSetup?
  }

  predicate IsTransfer(e: Event) {
    e.Drain? || e.Arm? || e.Submit? || e.Wakeup? || e.GiveUp?
  }

  predicate IsConclude(e: Event) {
    e.Finish? || e.Unlock?
  }

  predicate IsStack(e: Event) {
    e.Complete? || e.Deliver? || e.ClearFlag? || e.GiveToken?
  }

  predicate IsRemovalEntry(e: Event) {
    e.RemoveLock? || e.RemoveDetach? || e.RemoveCheck?
  }

  predicate IsRemoval(e: Event) {
    !IsLock(e) && !IsPrepare(e) && !IsTransfer(e) && !IsConclude(e) && !IsStack(e)
  }

  function LockStep(s: Pipe, e: Event): (r: Pipe)
    requires IsLock(e)
  {
    match e
    case Begin(t, req) => BeginStep(s, t, req)
    case TakeLock(t) => TakeLockStep(s, t)
    case LockTimeout(t) => LockTimeoutStep(s, t)
    case CheckInflight(t) => CheckInflightStep(s, t)
  }

  function PrepareStep(s: Pipe, e: Event): (r: Pipe)
    requires IsPrepare(e)
  {
    match e
    case FreeSmall(t) => FreeSmallStep(s, t)
    case Realloc(t, ok) => ReallocStep(s, t, ok)
    case WriteSetup(t) => WriteSetupStep(s, t)
  }

  function TransferStep(s: Pipe, e: Event): (r: Pipe)
    requires IsTransfer(e)
  {
    match e
    case Drain(t) => DrainStep(s, t)
    case Arm(t) => ArmStep(s, t)
    case Submit(t, ok) => SubmitStep(s, t, ok)
    case Wakeup(t) => WakeupStep(s, t)
    case GiveUp(t) => GiveUpStep(s, t)
  }

  function StackStep(s: Pipe, e: Event): (r: Pipe)
    requires IsStack(e)
  {
    match e
    case Complete(r) => CompleteStep(s, r)
    case Deliver => DeliverStep(s)
    case ClearFlag => ClearFlagStep(s)
    case GiveToken => GiveTokenStep(s)
  }

  function EnterRemovalStep(s: Pipe, e: Event): (r: Pipe)
    requires IsRemovalEntry(e)
  {
    match e
    case RemoveLock => RemoveLockStep(s)
    case RemoveDetach => RemoveDetachStep(s)
    case RemoveCheck => RemoveCheckStep(s)
  }

  function EndRemovalStep(s: Pipe, e: Event): (r: Pipe)
    requires IsRemoval(e) && !IsRemovalEntry(e)
  {
    match e
    case RemoveFreeXfer(ok) => RemoveFreeXferStep(s, ok)
    case RemoveClose(ok) => RemoveCloseStep(s, ok)
    case RemoveFree => RemoveFreeStep(s)
  }

  function RemovalStep(s: Pipe, e: Event): (r: Pipe)
    requires IsRemoval(e)
  {
    if IsRemovalEntry(e) then EnterRemovalStep(s, e) else EndRemovalStep(s, e)
  }

  function Step(s: Pipe, e: Event): (r: Pipe) {
    if IsLock(e) then LockStep(s, e)
    else if IsPrepare(e) then PrepareStep(s, e)
    else if IsTransfer(e) then TransferStep(s, e)
    else if e.Finish? then FinishStep(s, e.t)
    else if e.Unlock? then UnlockStep(s, e.t)
    else if IsStack(e) then StackStep(s, e)
    else RemovalStep(s, e)
  }

  /** The state after a schedule. */
  function Run(s: Pipe, schedule: seq<Event>): (r: Pipe)
    decreases |schedule|
  {
    if schedule == [] then s
    else Step(Run(s, schedule[..|schedule| - 1]), schedule[|schedule| - 1])
  }

  // ----- The invariant -----

  ghost predicate BufferOk(b: Buffer) {
    b.size >= SETUP_PACKET_SIZE && |b.data| == b.size - SETUP_PACKET_SIZE
  }

  ghost predicate Generations(s: Pipe) {
    && !(s.owned.Some? && s.callback.Delivered?)
    && (s.owned.Some? ==> s.owned.value == s.gens && s.xfer.Some?)
    && (s.owned.Some? && s.token.Some? ==> s.token.value < s.gens)
    && (s.owned.Some? && s.callback.Cleared? ==> s.callback.gen < s.gens)
    && (s.xfer.Some? ==> BufferOk(s.xfer.value))
    && (s.token.Some? ==> s.token.value <= s.gens && s.token.value in s.answers)
    && (s.callback.Delivered? ==> s.callback.gen == s.gens && s.gens in s.answers)
    && (s.callback.Cleared? ==> s.callback.gen <= s.gens && s.callback.gen in s.answers)
    && (forall g <- s.answers :: g <= s.gens)
    && (forall g <- s.answers :: s.answers[g].actual >= SETUP_PACKET_SIZE ==>
            |s.answers[g].payload| == s.answers[g].actual - SETUP_PACKET_SIZE)
  }

  /** Ownership, flag and callback agree; every generation mentioned is one that was submitted. */
  ghost predicate Consistent(s: Pipe) {
    && (s.inflight <==> s.owned.Some? || s.callback.Delivered?)
    && Generations(s)
  }

  /** Tokens a requester of submission g can meet after its drain. */
  ghost predicate TokenFor(s: Pipe, clean: bool, g: nat) {
    if clean then
      && (s.token.Some? ==> s.token.value == g)
      && (s.callback.Cleared? ==> s.callback.gen == g)
    else
      || (s.token.Some? && s.token.value < g)
      || (s.token.None? && s.callback.Cleared? && s.callback.gen < g)
  }

  /** The buffer holds exactly what the device answered. */
  ghost predicate Holds(b: Buffer, r: Response) {
    && b.status == r.status && b.actual == r.actual
    && |r.payload| <= |b.data| && b.data[..|r.payload|] == r.payload
  }

  /** The result of a request, from the device's answer alone. */
  function Expected(r: Response, req: Request): (result: Result) {
    match r.status
    case Stall => InvalidResponse
    case Overflow => InvalidSize
    case Other => Failed
    case Completed =>
      if r.actual < SETUP_PACKET_SIZE then InvalidSize
      else if req.kind == Set then Ok([])
      else Ok(r.payload[..Min(|r.payload|, req.wLength)])
  }

  /** What is promised of a returned request. */
  ghost predicate ReturnOk(answers: map<nat, Response>, r: Return) {
    && (r.result.Ok? ==> r.wake.Some?)
    && (r.wake.Some? ==> (r.wake.value.giver == r.wake.value.gen <==> r.wake.value.clean))
    && (r.wake.Some? && r.wake.value.clean ==>
          && r.wake.value.gen in answers
          && r.result == Expected(answers[r.wake.value.gen], r.req))
  }

  ghost predicate HolderOk(s: Pipe, p: Phase) {
    match p
    case Idle => false
    case Waiting(_) => false
    case Taken(_) => Consistent(s)
    case Entered(_) => Consistent(s) && !s.inflight
    case Dropped(req) => Consistent(s) && !s.inflight && s.xfer.None?
    case Ready(req) => Consistent(s) && !s.inflight && s.xfer.Some?
    case Drained(req, clean) => Consistent(s) && !s.inflight && s.xfer.Some? && TokenFor(s, clean, s.gens + 1)
    case Armed(req, clean) =>
      && Generations(s) && s.inflight && s.owned.None? && !s.callback.Delivered?
      && s.xfer.Some? && s.xfer.value.numBytes == req.Bytes() && TokenFor(s, clean, s.gens + 1)
    case Submitted(req, gen, clean) =>
      && Consistent(s) && gen == s.gens && s.xfer.Some? && s.xfer.value.numBytes == req.Bytes()
      && TokenFor(s, clean, gen)
      && (gen in s.answers ==> Holds(s.xfer.value, s.answers[gen]))
    case Woken(req, gen, clean, giver) =>
      && Consistent(s) && gen == s.gens && s.xfer.Some? && s.xfer.value.numBytes == req.Bytes()
      && (giver == gen <==> clean)
      && (giver == gen ==> gen in s.answers && s.owned.None?)
      && (gen in s.answers ==> Holds(s.xfer.value, s.answers[gen]))
    case Leaving(ret) => Consistent(s) && ReturnOk(s.answers, ret)
  }

  /** Only the holder of the lock is past it. */
  ghost predicate LockOk(s: Pipe) {
    forall t: Task :: PhaseOf(s, t).HoldsLock() ==> s.holder == By(t)
  }

  /** What holds of the shared fields, by the holder of the lock. */
  ghost predicate SharedOk(s: Pipe) {
    match s.holder
    case Nobody => Consistent(s)
    case By(t) => HolderOk(s, PhaseOf(s, t))
    case Remover => Consistent(s) && (s.removal in {XferFreed, Closed, Gone} ==> !s.inflight && s.xfer.None?)
  }

  ghost predicate RemovalOk(s: Pipe) {
    && (s.holder == Remover <==> s.removal in {Locked, Detached, XferFreed, Closed, Gone, Stuck})
    && (s.holder == Remover ==> s.callback == Quiet)
  }

  ghost predicate HistoryOk(answers: map<nat, Response>, returned: seq<Return>) {
    forall r <- returned :: ReturnOk(answers, r)
  }

  ghost predicate Invariant(s: Pipe) {
    LockOk(s) && SharedOk(s) && RemovalOk(s) && HistoryOk(s.answers, s.returned)
  }

  lemma InstalledOk()
    ensures Invariant(Installed())
  {
  }

  /** The phases of the tasks are the same. */
  ghost predicate SamePhases(s: Pipe, s': Pipe) {
    s'.tasks == s.tasks && s'.holder == s.holder
  }

  /** What the holder may rely on does not depend on the phases of the others or on the history. */
  lemma HistoryDoesNotMatter(s: Pipe, s': Pipe, p: Phase)
    requires s' == s.(returned := s'.returned, tasks := s'.tasks) && HolderOk(s, p)
    ensures HolderOk(s', p)
  {
    match p {
      case Armed(_, _) =>
      case Submitted(_, _, _) =>
      case Woken(_, _, _, _) =>
      case _ =>
    }
  }

  lemma RefusedKeepsShared(s: Pipe, s': Pipe)
    requires SharedOk(s) && s' == s.(returned := s'.returned)
    ensures SharedOk(s')
  {
    if s.holder.By? {
      HistoryDoesNotMatter(s, s', PhaseOf(s, s.holder.task));
    }
  }

  /** A request refused before the lock only adds to the history. */
  lemma RefusedOk(s: Pipe, r: Return)
    requires Invariant(s)
    requires !r.result.Ok? && r.wake.None?
    ensures Invariant(s.(returned := s.returned + [r]))
  {
    var s' := s.(returned := s.returned + [r]);
    RefusedKeepsShared(s, s');
    assert ReturnOk(s.answers, r);
    assert LockOk(s') by {
      forall u: Task ensures PhaseOf(s', u) == PhaseOf(s, u) {}
    }
  }

  /** A task that holds nothing may change between Idle and Waiting. */
  lemma QuietMoveOk(s: Pipe, t: Task, p: Phase)
    requires Invariant(s)
    requires !PhaseOf(s, t).HoldsLock() && !p.HoldsLock()
    ensures Invariant(Move(s, t, p))
  {
    var s' := Move(s, t, p);
    assert s.holder != By(t) by {
      assert s.holder == By(t) ==> HolderOk(s, PhaseOf(s, t));
    }
    assert LockOk(s') by {
      forall u: Task ensures PhaseOf(s', u) == if u == t then p else PhaseOf(s, u) {}
    }
    if s.holder.By? {
      HistoryDoesNotMatter(s, s', PhaseOf(s, s.holder.task));
      assert PhaseOf(s', s.holder.task) == PhaseOf(s, s.holder.task);
    }
  }

  lemma BeginOk(s: Pipe, t: Task, req: Request)
    requires Invariant(s)
    ensures Invariant(BeginStep(s, t, req))
  {
    if BeginStep(s, t, req) != s {
      if s.xfer.None? {
        RefusedOk(s, Return(t, req, InvalidArg, None));
      } else if req.kind != Descriptor && s.xfer.value.size < req.Bytes() {
        RefusedOk(s, Return(t, req, InvalidSize, None));
      } else {
        QuietMoveOk(s, t, Waiting(req));
      }
    }
  }

  lemma TakeLockOk(s: Pipe, t: Task)
    requires Invariant(s)
    ensures Invariant(TakeLockStep(s, t))
  {
    var s' := TakeLockStep(s, t);
    if s' != s {
      assert PhaseOf(s', t) == Taken(PhaseOf(s, t).req);
      assert LockOk(s') by {
        forall u: Task ensures u != t ==> PhaseOf(s', u) == PhaseOf(s, u) {}
      }
    }
  }

  lemma LockTimeoutOk(s: Pipe, t: Task)
    requires Invariant(s)
    ensures Invariant(LockTimeoutStep(s, t))
  {
    if LockTimeoutStep(s, t) != s {
      var r := Return(t, PhaseOf(s, t).req, Timeout, None);
      QuietMoveOk(s, t, Idle);
      RefusedOk(Move(s, t, Idle), r);
      assert LockTimeoutStep(s, t) == Move(s, t, Idle).(returned := s.returned + [r]);
    }
  }

  /** The holder of the lock moves on: what is left to show is the new phase. */
  lemma HolderMoves(s: Pipe, s': Pipe, t: Task, p: Phase)
    requires Invariant(s) && s.holder == By(t)
    requires s'.tasks == s.tasks[t := p] && s'.holder == s.holder && s'.removal == s.removal
    requires s'.answers == s.answers && s'.returned == s.returned
    requires HolderOk(s', p)
    ensures Invariant(s')
  {
    assert PhaseOf(s', t) == p;
    assert LockOk(s') by {
      forall u: Task ensures u != t ==> PhaseOf(s', u) == PhaseOf(s, u) {}
    }
  }

  /** A task past the lock holds it, and the fields are as its phase says. */
  lemma HolderFacts(s: Pipe, t: Task)
    requires Invariant(s) && PhaseOf(s, t).HoldsLock()
    ensures s.holder == By(t) && HolderOk(s, PhaseOf(s, t))
  {
  }

  lemma CheckInflightOk(s: Pipe, t: Task)
    requires Invariant(s)
    ensures Invariant(CheckInflightStep(s, t))
  {
    if PhaseOf(s, t).Taken? {
      HolderFacts(s, t);
      var s' := CheckInflightStep(s, t);
      HolderMoves(s, s', t, PhaseOf(s', t));
    }
  }

  lemma WriteSetupOk(s: Pipe, t: Task)
    requires Invariant(s)
    ensures Invariant(WriteSetupStep(s, t))
  {
    var s' := WriteSetupStep(s, t);
    if s' != s {
      HolderFacts(s, t);
      HolderMoves(s, s', t, PhaseOf(s', t));
    }
  }

  lemma FreeSmallOk(s: Pipe, t: Task)
    requires Invariant(s)
    ensures Invariant(FreeSmallStep(s, t))
  {
    var s' := FreeSmallStep(s, t);
    if s' != s {
      HolderFacts(s, t);
      HolderMoves(s, s', t, PhaseOf(s', t));
    }
  }

  lemma ReallocOk(s: Pipe, t: Task, ok: bool)
    requires Invariant(s)
    ensures Invariant(ReallocStep(s, t, ok))
  {
    var s' := ReallocStep(s, t, ok);
    if s' != s {
      HolderFacts(s, t);
      HolderMoves(s, s', t, PhaseOf(s', t));
    }
  }

  lemma PrepareStepOk(s: Pipe, e: Event)
    requires Invariant(s) && IsPrepare(e)
    ensures Invariant(PrepareStep(s, e))
  {
    match e {
      case FreeSmall(t) => FreeSmallOk(s, t);
      case Realloc(t, ok) => ReallocOk(s, t, ok);
      case WriteSetup(t) => WriteSetupOk(s, t);
    }
  }

  lemma SubmitOk(s: Pipe, t: Task, ok: bool)
    requires Invariant(s)
    ensures Invariant(SubmitStep(s, t, ok))
  {
    var s' := SubmitStep(s, t, ok);
    if s' != s {
      HolderFacts(s, t);
      HolderMoves(s, s', t, PhaseOf(s', t));
    }
  }

  /** hid_control_transfer() before the submission. */
  lemma ArmOk(s: Pipe, e: Event)
    requires Invariant(s) && (e.Drain? || e.Arm?)
    ensures Invariant(TransferStep(s, e))
  {
    var s' := TransferStep(s, e);
    if s' != s {
      HolderFacts(s, e.t);
      HolderMoves(s, s', e.t, PhaseOf(s', e.t));
    }
  }

  lemma WaitOk(s: Pipe, e: Event)
    requires Invariant(s) && (e.Wakeup? || e.GiveUp?)
    ensures Invariant(TransferStep(s, e))
  {
    var s' := TransferStep(s, e);
    if s' != s {
      HolderFacts(s, e.t);
      HolderMoves(s, s', e.t, PhaseOf(s', e.t));
    }
  }

  lemma FinishOk(s: Pipe, t: Task)
    requires Invariant(s)
    ensures Invariant(FinishStep(s, t))
  {
    var s' := FinishStep(s, t);
    if s' != s {
      HolderFacts(s, t);
      HolderMoves(s, s', t, PhaseOf(s', t));
    }
  }

  lemma UnlockOk(s: Pipe, t: Task)
    requires Invariant(s)
    ensures Invariant(UnlockStep(s, t))
  {
    var s' := UnlockStep(s, t);
    if s' != s {
      HolderFacts(s, t);
      assert LockOk(s') by {
        forall u: Task ensures PhaseOf(s', u) == if u == t then Idle else PhaseOf(s, u) {}
      }
    }
  }

  /** A step of the stack or the callback leaves the phases alone. */
  lemma StackKeepsRest(s: Pipe, s': Pipe)
    requires Invariant(s) && SamePhases(s, s') && s'.removal == s.removal && s'.returned == s.returned
    requires s'.callback != s.callback ==> s.holder != Remover
    requires SharedOk(s') && HistoryOk(s'.answers, s.returned)
    ensures Invariant(s')
  {
    assert LockOk(s') by {
      forall u: Task ensures PhaseOf(s', u) == PhaseOf(s, u) {}
    }
  }

  /** A new answer changes nothing that was promised of the earlier ones. */
  lemma NewAnswer(answers: map<nat, Response>, returned: seq<Return>, g: nat, r: Response)
    requires HistoryOk(answers, returned) && g !in answers
    ensures HistoryOk(answers[g := r], returned)
  {
    forall x <- returned ensures ReturnOk(answers[g := r], x) {
      assert ReturnOk(answers, x);
    }
  }

  /** The buffer then holds the answer. */
  lemma CompletedBuffer(s: Pipe, r: Response)
    requires CompleteStep(s, r) != s && s.xfer.Some? && BufferOk(s.xfer.value)
    ensures var s' := CompleteStep(s, r);
      s'.xfer.Some? && Holds(s'.xfer.value, r) && BufferOk(s'.xfer.value)
  {
  }

  lemma CompleteShared(s: Pipe, r: Response)
    requires SharedOk(s) && CompleteStep(s, r) != s
    requires var s' := CompleteStep(s, r); s'.xfer.Some? && Holds(s'.xfer.value, r) && BufferOk(s'.xfer.value)
    ensures SharedOk(CompleteStep(s, r))
  {
    var s' := CompleteStep(s, r);
    assert Generations(s) && s.owned.Some?;
    assert Generations(s');
    if s.holder.By? {
      assert HolderOk(s', PhaseOf(s, s.holder.task));
    }
  }

  lemma CompleteOk(s: Pipe, r: Response)
    requires Invariant(s)
    ensures Invariant(CompleteStep(s, r))
  {
    var s' := CompleteStep(s, r);
    if s' != s {
      assert s'.answers == s.answers[s.gens := r] && s.gens !in s.answers;
      NewAnswer(s.answers, s.returned, s.gens, r);
      CompletedBuffer(s, r);
      CompleteShared(s, r);
      StackKeepsRest(s, s');
    }
  }

  lemma DeliverOk(s: Pipe)
    requires Invariant(s)
    ensures Invariant(DeliverStep(s))
  {
    var s' := DeliverStep(s);
    if s' != s {
      assert SharedOk(s') by {
        if s.holder.By? {
          assert HolderOk(s', PhaseOf(s, s.holder.task));
        }
      }
      StackKeepsRest(s, s');
    }
  }

  lemma ClearFlagOk(s: Pipe)
    requires Invariant(s)
    ensures Invariant(ClearFlagStep(s))
  {
    var s' := ClearFlagStep(s);
    if s' != s {
      assert SharedOk(s') by {
        if s.holder.By? {
          assert HolderOk(s', PhaseOf(s, s.holder.task));
        }
      }
      StackKeepsRest(s, s');
    }
  }

  lemma GivenToken(s: Pipe, clean: bool, g: nat)
    requires s.callback.Cleared?
    ensures TokenFor(s, clean, g) ==> TokenFor(GiveTokenStep(s), clean, g)
    ensures Generations(s) ==> Generations(GiveTokenStep(s))
  {
  }

  lemma GiveTokenKeepsHolder(s: Pipe, p: Phase)
    requires s.callback.Cleared? && HolderOk(s, p)
    ensures HolderOk(GiveTokenStep(s), p)
  {
    GivenToken(s, true, 0);
    match p {
      case Drained(_, clean) => GivenToken(s, clean, s.gens + 1);
      case Armed(_, clean) => GivenToken(s, clean, s.gens + 1);
      case Submitted(_, gen, clean) => GivenToken(s, clean, gen);
      case _ =>
    }
  }

  lemma GiveTokenOk(s: Pipe)
    requires Invariant(s)
    ensures Invariant(GiveTokenStep(s))
  {
    var s' := GiveTokenStep(s);
    if s' != s {
      GivenToken(s, true, 0);
      if s.holder.By? {
        GiveTokenKeepsHolder(s, PhaseOf(s, s.holder.task));
        assert PhaseOf(s', s.holder.task) == PhaseOf(s, s.holder.task);
      }
      StackKeepsRest(s, s');
    }
  }

  /** A statement of the removal: no task holds the lock before or after it. */
  lemma RemovalMoves(s: Pipe, s': Pipe)
    requires Invariant(s) && !s.holder.By? && !s'.holder.By?
    requires s'.tasks == s.tasks && s'.answers == s.answers && s'.returned == s.returned
    requires SharedOk(s') && RemovalOk(s')
    ensures Invariant(s')
  {
    assert LockOk(s') by {
      forall t: Task ensures !PhaseOf(s', t).HoldsLock() {
        assert PhaseOf(s', t) == PhaseOf(s, t);
      }
    }
  }

  lemma EnterRemovalOk(s: Pipe, e: Event)
    requires Invariant(s) && IsRemovalEntry(e)
    ensures Invariant(EnterRemovalStep(s, e))
  {
    var s' := EnterRemovalStep(s, e);
    if s' != s {
      RemovalMoves(s, s');
    }
  }

  lemma EndRemovalOk(s: Pipe, e: Event)
    requires Invariant(s) && IsRemoval(e) && !IsRemovalEntry(e)
    ensures Invariant(EndRemovalStep(s, e))
  {
    var s' := EndRemovalStep(s, e);
    if s' != s {
      RemovalMoves(s, s');
    }
  }

  lemma LockStepOk(s: Pipe, e: Event)
    requires Invariant(s) && IsLock(e)
    ensures Invariant(LockStep(s, e))
  {
    match e {
      case Begin(t, req) => BeginOk(s, t, req);
      case TakeLock(t) => TakeLockOk(s, t);
      case LockTimeout(t) => LockTimeoutOk(s, t);
      case CheckInflight(t) => CheckInflightOk(s, t);
    }
  }

  lemma TransferStepOk(s: Pipe, e: Event)
    requires Invariant(s) && IsTransfer(e)
    ensures Invariant(TransferStep(s, e))
  {
    if e.Wakeup? || e.GiveUp? {
      WaitOk(s, e);
    } else if e.Submit? {
      SubmitOk(s, e.t, e.ok);
    } else {
      ArmOk(s, e);
    }
  }

  lemma StackStepOk(s: Pipe, e: Event)
    requires Invariant(s) && IsStack(e)
    ensures Invariant(StackStep(s, e))
  {
    match e {
      case Complete(r) => CompleteOk(s, r);
      case Deliver => DeliverOk(s);
      case ClearFlag => ClearFlagOk(s);
      case GiveToken => GiveTokenOk(s);
    }
  }

  lemma RemovalStepOk(s: Pipe, e: Event)
    requires Invariant(s) && IsRemoval(e)
    ensures Invariant(RemovalStep(s, e))
  {
    if IsRemovalEntry(e) {
      EnterRemovalOk(s, e);
    } else {
      EndRemovalOk(s, e);
    }
  }

  lemma StepOk(s: Pipe, e: Event)
    requires Invariant(s)
    ensures Invariant(Step(s, e))
  {
    if IsLock(e) {
      LockStepOk(s, e);
    } else if IsPrepare(e) {
      PrepareStepOk(s, e);
    } else if IsTransfer(e) {
      TransferStepOk(s, e);
    } else if e.Finish? {
      FinishOk(s, e.t);
    } else if e.Unlock? {
      UnlockOk(s, e.t);
    } else if IsStack(e) {
      StackStepOk(s, e);
    } else {
      RemovalStepOk(s, e);
    }
  }

  lemma {:induction false} RunOk(schedule: seq<Event>)
    ensures Invariant(Run(Installed(), schedule))
    decreases |schedule|
  {
    if schedule == [] {
      InstalledOk();
    } else {
      var before := schedule[..|schedule| - 1];
      RunOk(before);
      StepOk(Run(Installed(), before), schedule[|schedule| - 1]);
    }
  }

  // ----- What the driver promises -----

  /**
   No setup packet written, nothing resubmitted, reallocated or freed between two states. The number of bytes
   received is not covered: see OnlyTheCount.
   */
  ghost predicate LeftAlone(s: Pipe, s': Pipe) {
    && s.xfer.Some? && s'.xfer.Some?
    && s'.xfer.value.size == s.xfer.value.size
    && s'.xfer.value.setup == s.xfer.value.setup
    && s'.xfer.value.numBytes == s.xfer.value.numBytes
    && s'.gens == s.gens
    && s'.removal !in {XferFreed, Closed, Gone}
  }

  /**
   What a step other than the controller's leaves of an owned buffer: all of it, but for the number of bytes
   received, which a request woken by a stale token cuts as if the transfer were its own.
   */
  ghost predicate OnlyTheCount(s: Pipe, e: Event, s': Pipe) {
    && s.xfer.Some? && s'.xfer.Some?
    && (s'.xfer != s.xfer && !e.Complete? ==>
          && e.Finish? && s'.xfer.value == s.xfer.value.(actual := s'.xfer.value.actual)
          && PhaseOf(s, e.t).Woken? && PhaseOf(s, e.t).giver != PhaseOf(s, e.t).gen)
  }

  /** About to write, arm, submit, reallocate or free: past the check of the flag and before the submission. */
  predicate AtBuffer(p: Phase) {
    p.Entered? || p.Dropped? || p.Ready? || p.Drained? || p.Armed?
  }

  /** There is a buffer, the flag is set, no task is about to touch the buffer, and the removal has not freed it. */
  ghost predicate Untouchable(s: Pipe) {
    && s.xfer.Some? && s.inflight && s.removal !in {XferFreed, Closed, Gone}
    && forall t: Task :: !AtBuffer(PhaseOf(s, t))
  }

  /** What holds of the state and the tasks while the stack owns the buffer. */
  lemma OwnedFacts(s: Pipe)
    requires Invariant(s) && s.owned.Some?
    ensures s.owned.value == s.gens && !s.callback.Delivered?
    ensures Untouchable(s)
  {
    forall t: Task ensures !AtBuffer(PhaseOf(s, t)) {
      if PhaseOf(s, t).HoldsLock() {
        HolderFacts(s, t);
      }
    }
  }

  lemma OwnedRequestLeavesAlone(s: Pipe, e: Event)
    requires Untouchable(s) && (IsLock(e) || IsPrepare(e))
    ensures var s' := if IsLock(e) then LockStep(s, e) else PrepareStep(s, e);
      LeftAlone(s, s') && s'.owned == s.owned && OnlyTheCount(s, e, s')
  {
    assert !AtBuffer(PhaseOf(s, e.t));
  }

  lemma OwnedTransferLeavesAlone(s: Pipe, e: Event)
    requires Untouchable(s) && (IsTransfer(e) || IsConclude(e))
    requires s.owned.Some? && Invariant(s)
    ensures var s' := if IsTransfer(e) then TransferStep(s, e) else if e.Finish? then FinishStep(s, e.t)
                      else UnlockStep(s, e.t);
      LeftAlone(s, s') && s'.owned == s.owned && OnlyTheCount(s, e, s')
  {
    assert !AtBuffer(PhaseOf(s, e.t));
    if PhaseOf(s, e.t).Woken? {
      HolderFacts(s, e.t);
    }
  }

  lemma OwnedOtherLeavesAlone(s: Pipe, e: Event)
    requires Untouchable(s) && (IsStack(e) || IsRemoval(e))
    ensures var s' := if IsStack(e) then StackStep(s, e) else RemovalStep(s, e);
      LeftAlone(s, s') && (e != Deliver ==> s'.owned == s.owned) && OnlyTheCount(s, e, s')
  {
  }

  lemma OwnedStepLeavesAlone(s: Pipe, e: Event)
    requires Invariant(s) && s.owned.Some?
    ensures s.inflight && LeftAlone(s, Step(s, e)) && OnlyTheCount(s, e, Step(s, e))
    ensures e != Deliver ==> Step(s, e).owned == s.owned
  {
    OwnedFacts(s);
    if IsLock(e) || IsPrepare(e) {
      OwnedRequestLeavesAlone(s, e);
    } else if IsTransfer(e) || IsConclude(e) {
      OwnedTransferLeavesAlone(s, e);
    } else {
      OwnedOtherLeavesAlone(s, e);
    }
  }

  /**
   In every interleaving, while the USB stack owns the control buffer the flag is set, no task is between the
   check of the flag and a submission, and whatever happens next leaves the buffer alone: its size, setup
   packet, length and submission; and, but for the controller's answer, everything else of it except that a
   request woken by a stale token cuts the number of bytes received.
   */
  lemma OwnedBufferIsLeftAlone(schedule: seq<Event>, e: Event)
    requires Run(Installed(), schedule).owned.Some?
    ensures Untouchable(Run(Installed(), schedule))
    ensures LeftAlone(Run(Installed(), schedule), Run(Installed(), schedule + [e]))
    ensures OnlyTheCount(Run(Installed(), schedule), e, Run(Installed(), schedule + [e]))
    ensures e != Deliver ==> Run(Installed(), schedule + [e]).owned == Run(Installed(), schedule).owned
  {
    var s := Run(Installed(), schedule);
    RunOk(schedule);
    assert (schedule + [e])[..|schedule|] == schedule;
    OwnedFacts(s);
    OwnedStepLeavesAlone(s, e);
  }

  /** A request is refused at the lock exactly when an earlier transfer has not been handed back. */
  lemma RefusedExactlyWhileInFlight(schedule: seq<Event>, t: Task)
    requires PhaseOf(Run(Installed(), schedule), t).Taken?
    ensures var s := Run(Installed(), schedule);
      PhaseOf(CheckInflightStep(s, t), t).Leaving? <==> s.owned.Some? || s.callback.Delivered?
    ensures var s := Run(Installed(), schedule);
      PhaseOf(CheckInflightStep(s, t), t).Leaving? ==> PhaseOf(CheckInflightStep(s, t), t).ret.result == InvalidState
  {
    RunOk(schedule);
  }

  lemma LeakedStep(s: Pipe, e: Event)
    requires s.removal == Leaked
    ensures Step(s, e).removal == Leaked
  {
  }

  lemma {:induction false} LeakedStays(s: Pipe, later: seq<Event>)
    requires s.removal == Leaked
    ensures Run(s, later).removal == Leaked
    decreases |later|
  {
    if later != [] {
      LeakedStays(s, later[..|later| - 1]);
      LeakedStep(Run(s, later[..|later| - 1]), later[|later| - 1]);
    }
  }

  lemma {:induction false} RunConcat(s: Pipe, a: seq<Event>, b: seq<Event>)
    ensures Run(s, a + b) == Run(Run(s, a), b)
    decreases |b|
  {
    if b == [] {
      assert a + b == a;
    } else {
      var n := |b| - 1;
      assert (a + b)[..|a + b| - 1] == a + b[..n];
      RunConcat(s, a, b[..n]);
    }
  }

  lemma DetachedLeaks(s: Pipe)
    requires Invariant(s) && s.removal == Detached
    ensures s.owned.Some? <==> RemoveCheckStep(s).removal == Leaked
    ensures s.owned.Some? ==> RemoveFreeXferStep(s, true) == s
  {
  }

  lemma LeaksForGood(schedule: seq<Event>, later: seq<Event>)
    requires RemoveCheckStep(Run(Installed(), schedule)).removal == Leaked
    ensures Run(Installed(), schedule + [RemoveCheck] + later).removal == Leaked
  {
    assert Run(Installed(), schedule + [RemoveCheck]) == RemoveCheckStep(Run(Installed(), schedule)) by {
      assert (schedule + [RemoveCheck])[..|schedule|] == schedule;
    }
    RunConcat(Installed(), schedule + [RemoveCheck], later);
    LeakedStays(RemoveCheckStep(Run(Installed(), schedule)), later);
  }

  /**
   A removal that finds the buffer still owned by the stack (or its callback unfinished) leaks the
   context: neither it nor the buffer is freed, at any later time. Otherwise nothing is leaked.
   */
  lemma RemovalLeaksInsteadOfFreeing(schedule: seq<Event>, later: seq<Event>)
    requires Run(Installed(), schedule).removal == Detached
    ensures var s := Run(Installed(), schedule);
      (s.owned.Some? <==> RemoveCheckStep(s).removal == Leaked)
      && (s.owned.Some? ==> Run(Installed(), schedule + [RemoveCheck] + later).removal == Leaked)
      && (s.owned.Some? ==> RemoveFreeXferStep(s, true) == s)
  {
    RunOk(schedule);
    DetachedLeaks(Run(Installed(), schedule));
    if Run(Installed(), schedule).owned.Some? {
      LeaksForGood(schedule, later);
    }
  }

  /** The context and the semaphores are never freed under a buffer or callback still in progress. */
  lemma NothingInProgressOnFreedContext(schedule: seq<Event>)
    requires Run(Installed(), schedule).removal in {XferFreed, Closed, Gone}
    ensures Run(Installed(), schedule).owned.None?
    ensures Run(Installed(), schedule).callback == Quiet
    ensures forall t: Task :: !PhaseOf(Run(Installed(), schedule), t).HoldsLock()
  {
    RunOk(schedule);
  }

  /**
   Which completion wakes a requester: its own exactly when no callback stood between its two
   statements as the requester dropped the stale token. A request that returns ESP_OK was woken.
   */
  lemma WokenByOwnCompletion(schedule: seq<Event>, i: nat)
    requires i < |Run(Installed(), schedule).returned|
    ensures var r := Run(Installed(), schedule).returned[i];
      && (r.result.Ok? ==> r.wake.Some?)
      && (r.wake.Some? ==> (r.wake.value.giver == r.wake.value.gen <==> r.wake.value.clean))
  {
    RunOk(schedule);
    var r := Run(Installed(), schedule).returned[i];
    assert r in Run(Installed(), schedule).returned;
  }

  /**
   A request woken by its own completion returns what the device answered to it, whatever else ran:
   ESP_OK with a GET's data cut to wLength, or the error of that answer.
   */
  lemma CleanWakeReturnsOwnAnswer(schedule: seq<Event>, i: nat)
    requires i < |Run(Installed(), schedule).returned|
    requires var w := Run(Installed(), schedule).returned[i].wake; w.Some? && w.value.giver == w.value.gen
    ensures var s := Run(Installed(), schedule); var r := s.returned[i];
      r.wake.value.gen in s.answers && r.result == Expected(s.answers[r.wake.value.gen], r.req)
  {
    RunOk(schedule);
    var r := Run(Installed(), schedule).returned[i];
    assert r in Run(Installed(), schedule).returned;
  }

  lemma RunStep(s: Pipe, schedule: seq<Event>, n: nat)
    requires n < |schedule|
    ensures Run(s, schedule[..n + 1]) == Step(Run(s, schedule[..n]), schedule[n])
  {
    assert schedule[..n + 1][..n] == schedule[..n];
  }
}
