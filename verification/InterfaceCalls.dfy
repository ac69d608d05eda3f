/**
 What each call of the HID host driver does (lib/usb_host_hid/hid_host.c) after any run: when an open, a start,
 a stop, a report descriptor request and a close succeed, what an attach adds, and what a disconnect leaves.
 */
module InterfaceCalls {
  import opened Prelude
  import opened InterfaceLifecycle

  function After(events: seq<Event>): (r: Driver) {
    Run(Installed(), events)
  }

  lemma OneMore(events: seq<Event>, e: Event)
    ensures After(events + [e]) == Step(After(events), e)
  {
    assert (events + [e])[..|events|] == events;
  }

  /** The interface with this handle became g, and nothing else changed. */
  ghost predicate Becomes(d: Driver, d': Driver, id: nat, g: Iface) {
    exists i :: 0 <= i < |d.ifaces| && d.ifaces[i].id == id && d' == d.(ifaces := d.ifaces[i := g])
  }

  /** The interface with this handle left the list as g, and nothing else changed. */
  ghost predicate Leaves(d: Driver, d': Driver, id: nat, g: Iface) {
    exists i :: 0 <= i < |d.ifaces| && d.ifaces[i].id == id
      && d' == d.(ifaces := d.ifaces[..i] + d.ifaces[i + 1..], left := d.left + [g])
  }

  lemma AtItsPlace(events: seq<Event>, f: Iface) returns (i: nat)
    requires f in After(events).ifaces
    ensures i == Find(After(events).ifaces, f.id) && i < |After(events).ifaces| && After(events).ifaces[i] == f
    ensures IfaceOk(f)
  {
    RunOk(events);
    FoundById(After(events), f);
    ListedOk(After(events), f);
    i := Find(After(events).ifaces, f.id);
  }

  lemma CallBecomes(events: seq<Event>, e: Event, f: Iface)
    requires e.Open? || e.Start? || e.Stop? || e.GetReportDescriptor?
    requires f in After(events).ifaces && f.id == e.id
    ensures Becomes(After(events), After(events + [e]), e.id, UpdateIface(f, e))
  {
    OneMore(events, e);
    var i := AtItsPlace(events, f);
  }

  /**
   Opening: the claimed interface with its transfer and the callback, if and only if it was idle, its protocol
   is known, and the claim and the allocation succeed; otherwise it is as before.
   */
  lemma OpenExactly(events: seq<Event>, e: Event, f: Iface)
    requires e.Open? && f in After(events).ifaces && f.id == e.id
    ensures Becomes(After(events), After(events + [e]), e.id,
                    if f.state == IDLE && e.protoOk && e.claimOk && e.allocOk
                    then Iface(f.id, f.parent, READY, true, false, e.callback, 1, 0, 0) else f)
  {
    var i := AtItsPlace(events, f);
    CallBecomes(events, e, f);
  }

  /** Starting a ready interface makes it active if and only if its transfer is submitted. */
  lemma StartExactly(events: seq<Event>, e: Event, f: Iface)
    requires e.Start? && f in After(events).ifaces && f.id == e.id
    ensures Becomes(After(events), After(events + [e]), e.id,
                    if f.state == READY && e.submitOk then f.(state := ACTIVE) else f)
  {
    var i := AtItsPlace(events, f);
    CallBecomes(events, e, f);
  }

  /** Stopping an active interface makes it ready if and only if its endpoint is halted and flushed. */
  lemma StopExactly(events: seq<Event>, e: Event, f: Iface)
    requires e.Stop? && f in After(events).ifaces && f.id == e.id
    ensures Becomes(After(events), After(events + [e]), e.id,
                    if f.state == ACTIVE && e.haltOk && e.flushOk then f.(state := READY) else f)
  {
    var i := AtItsPlace(events, f);
    CallBecomes(events, e, f);
  }

  /** A report descriptor is there if and only if it was, or the interface is open and the request succeeds. */
  lemma DescribeExactly(events: seq<Event>, e: Event, f: Iface)
    requires e.GetReportDescriptor? && f in After(events).ifaces && f.id == e.id
    ensures Becomes(After(events), After(events + [e]), e.id,
                    f.(reportDesc := f.reportDesc
                         || (f.state in {READY, ACTIVE} && e.sizeOk && e.mallocOk && e.requestOk)))
  {
    var i := AtItsPlace(events, f);
    CallBecomes(events, e, f);
  }

  /** A handle that is not listed changes nothing. */
  lemma UnknownHandle(events: seq<Event>, e: Event)
    requires e.Open? || e.Start? || e.Stop? || e.GetReportDescriptor? || e.Close?
    requires forall f <- After(events).ifaces :: f.id != e.id
    ensures After(events + [e]) == After(events)
  {
    OneMore(events, e);
  }

  // ----- Closing -----

  /** The calls of a close that the state of the interface needs succeed. */
  predicate Closable(f: Iface, c: CloseCalls) {
    (f.state == ACTIVE ==> c.haltOk && c.flushOk) && (f.state in {READY, ACTIVE} ==> c.releaseOk)
  }

  /** The interface after its close: out of use, once more closed. */
  function OutOfUse(f: Iface, state: State, notified: nat, closes: nat): (r: Iface) {
    f.(state := state, inXfer := false, reportDesc := false, notified := notified, closes := closes)
  }

  /** An interface whose user has a callback and was not told yet waits for the second close. */
  predicate Waits(f: Iface, c: CloseCalls) {
    f.userCb && f.state != WAIT_USER_DELETION && !c.reenter
  }

  lemma StrictClose(f: Iface, c: CloseCalls)
    requires IfaceOk(f)
    ensures CloseIface(f, c, false) ==
      if !Closable(f, c) then
        Failed(if f.state == ACTIVE && c.haltOk && c.flushOk then f.(state := READY) else f)
      else if f.userCb && f.state != WAIT_USER_DELETION then Waiting(OutOfUse(f, WAIT_USER_DELETION, 1, 1))
      else Removed(OutOfUse(f, if f.userCb then WAIT_USER_DELETION else IDLE, f.notified, f.closes + 1))
  {
  }

  lemma SecondClose(f: Iface, c: CloseCalls)
    requires IfaceOk(f) && f.state == WAIT_USER_DELETION
    ensures CloseIface(f, c, false) == Removed(f.(closes := 2))
  {
  }

  lemma Replacing(ifaces: seq<Iface>, i: nat, g: Iface)
    requires i < |ifaces| && g.id == ifaces[i].id && Find(ifaces, g.id) == i
    ensures Find(ifaces[i := g], g.id) == i
    ensures Without(ifaces[i := g], i) == ifaces[..i] + ifaces[i + 1..]
  {
    var changed := ifaces[i := g];
    assert changed[i].id == g.id && forall k :: 0 <= k < i ==> changed[k] == ifaces[k];
  }

  /**
   A close of the user: an interface whose needed calls fail keeps its transfer (and is only stopped when the
   halt and the flush went well); else it waits when its user must still be told, and otherwise is removed.
   */
  lemma CloseExactly(events: seq<Event>, e: Event, f: Iface)
    requires e.Close? && f in After(events).ifaces && f.id == e.id
    ensures !Closable(f, e.calls) ==>
      Becomes(After(events), After(events + [e]), e.id,
              if f.state == ACTIVE && e.calls.haltOk && e.calls.flushOk then f.(state := READY) else f)
    ensures Closable(f, e.calls) && Waits(f, e.calls) ==>
      Becomes(After(events), After(events + [e]), e.id, OutOfUse(f, WAIT_USER_DELETION, 1, 1))
    ensures Closable(f, e.calls) && !Waits(f, e.calls) ==>
      Leaves(After(events), After(events + [e]), e.id,
             if f.userCb then OutOfUse(f, WAIT_USER_DELETION, 1, 2) else OutOfUse(f, IDLE, 0, 1))
  {
    OneMore(events, e);
    var i := AtItsPlace(events, f);
    StrictClose(f, e.calls);
    var g := OutOfUse(f, WAIT_USER_DELETION, 1, 1);
    if Closable(f, e.calls) && f.userCb && f.state != WAIT_USER_DELETION && e.calls.reenter {
      SecondClose(g, e.calls);
      Replacing(After(events).ifaces, i, g);
    }
  }

  // ----- Attaching -----

  lemma {:induction false} Added(d: Driver, dev: nat, n: nat)
    ensures AddInterfaces(d, dev, n) ==
      d.(ifaces := AddInterfaces(d, dev, n).ifaces, nextIface := d.nextIface + n)
    ensures |AddInterfaces(d, dev, n).ifaces| == |d.ifaces| + n
    ensures forall i :: 0 <= i < |d.ifaces| ==> AddInterfaces(d, dev, n).ifaces[i] == d.ifaces[i]
    ensures forall i :: |d.ifaces| <= i < |d.ifaces| + n ==>
      AddInterfaces(d, dev, n).ifaces[i]
      == Iface(d.nextIface + (i - |d.ifaces|), Some(dev), IDLE, false, false, false, 0, 0, 0)
  {
    if n > 0 {
      Added(d, dev, n - 1);
    }
  }

  /** The n-th of the interfaces an attach found: idle, never used before, and of that device. */
  ghost predicate Found(d: Driver, d': Driver, dev: nat, n: nat)
    requires |d.ifaces| + n < |d'.ifaces|
  {
    d'.ifaces[|d.ifaces| + n] == Iface(d'.ifaces[|d.ifaces| + n].id, Some(dev), IDLE, false, false, false, 0, 0, 0)
  }

  /**
   Attaching a HID device that is installed and whose interfaces can be listed adds it and every interface it
   has; nothing changes for a device that is not one or is not installed.
   */
  lemma AttachExactly(events: seq<Event>, e: Event)
    requires e.Attach?
    ensures var d, d' := After(events), After(events + [e]);
      && (!e.isHid || !e.installOk ==> d' == d)
      && (e.isHid && e.installOk && e.listOk ==>
            && |d'.devices| == |d.devices| + 1 && d'.devices[..|d.devices|] == d.devices
            && d'.devices[|d.devices|].addr == e.addr && d'.devices[|d.devices|].hdl == e.hdl
            && (forall x <- d.devices :: x.id != d'.devices[|d.devices|].id)
            && d'.devices[|d.devices|].id !in d.freed && d'.freed == d.freed && d'.left == d.left
            && |d'.ifaces| == |d.ifaces| + e.found && d'.ifaces[..|d.ifaces|] == d.ifaces
            && forall n :: 0 <= n < e.found ==> Found(d, d', d'.devices[|d.devices|].id, n))
  {
    OneMore(events, e);
    RunOk(events);
    Added(NewDevice(After(events), e.addr, e.hdl), After(events).nextDevice, e.found);
  }

  lemma LastDevice(devices: seq<Device>, x: Device)
    requires forall y <- devices :: y.id != x.id
    ensures FindDevice(devices + [x], x.id) == |devices|
    ensures Without(devices + [x], |devices|) == devices
  {
    assert (devices + [x])[|devices|] == x;
  }

  /** A failed list leaves the interfaces as they were, and the device too, unless its removal fails half-way. */
  lemma FailedAttachExactly(events: seq<Event>, e: Event)
    requires e.Attach? && e.isHid && e.installOk && !e.listOk
    ensures var d, d' := After(events), After(events + [e]);
      && d'.ifaces == d.ifaces && d'.left == d.left
      && (e.cleanup.inflight ==> d'.devices == d.devices && d'.freed == d.freed)
      && (!e.cleanup.inflight && e.cleanup.xferFreeOk && e.cleanup.closeOk ==>
            d'.devices == d.devices && exists id :: d'.freed == d.freed + {id} && id !in d.freed)
      && (!e.cleanup.inflight && !(e.cleanup.xferFreeOk && e.cleanup.closeOk) ==>
            d'.freed == d.freed && |d'.devices| == |d.devices| + 1 && d'.devices[..|d.devices|] == d.devices)
  {
    OneMore(events, e);
    RunOk(events);
    var d := After(events);
    AttachOk(d, e);
    Added(NewDevice(d, e.addr, e.hdl), d.nextDevice, e.found);
    LastDevice(d.devices, Device(d.nextDevice, e.addr, e.hdl));
    if !e.cleanup.inflight && e.cleanup.xferFreeOk && e.cleanup.closeOk {
      assert After(events + [e]).freed == d.freed + {d.nextDevice} && d.nextDevice !in d.freed;
    }
  }

  // ----- Disconnecting -----

  /** A close that goes on whatever fails. */
  lemma BestEffortClose(f: Iface, c: CloseCalls)
    requires IfaceOk(f)
    ensures var r := CloseIface(f, c, true);
      && (r.Waiting? <==> f.userCb && f.state != WAIT_USER_DELETION)
      && (r.Waiting? ==> r.f == OutOfUse(f, WAIT_USER_DELETION, 1, 1))
      && !r.Failed?
  {
  }

  /** The interfaces other than id are the same. */
  ghost predicate OthersStay(d: Driver, e: Driver, id: nat) {
    && (forall h <- d.ifaces :: h.id != id ==> h in e.ifaces)
    && (forall h <- e.ifaces :: h.id != id ==> h in d.ifaces)
  }

  lemma ReplacedStay(d: Driver, i: nat, g: Iface)
    requires i < |d.ifaces| && g.id == d.ifaces[i].id
    ensures var e := d.(ifaces := d.ifaces[i := g]); OthersStay(d, e, g.id) && g in e.ifaces
  {
    var e := d.(ifaces := d.ifaces[i := g]);
    assert e.ifaces[i] == g;
    forall h <- d.ifaces | h.id != g.id ensures h in e.ifaces {
      var k :| 0 <= k < |d.ifaces| && d.ifaces[k] == h;
      assert e.ifaces[k] == h;
    }
  }

  lemma StaysInRest(s: seq<Iface>, i: nat, h: Iface)
    requires i < |s| && h in s && h != s[i]
    ensures h in s[..i] + s[i + 1..]
  {
    var k :| 0 <= k < |s| && s[k] == h;
    assert (s[..i] + s[i + 1..])[if k < i then k else k - 1] == h;
  }

  lemma RestDiffers(s: seq<Iface>, i: nat, h: Iface)
    requires i < |s| && h in s[..i] + s[i + 1..]
    requires forall j, k :: 0 <= j < k < |s| ==> s[j].id != s[k].id
    ensures h in s && h.id != s[i].id
  {
    var rest := s[..i] + s[i + 1..];
    var k :| 0 <= k < |rest| && rest[k] == h;
    assert h == s[if k < i then k else k + 1];
  }

  lemma RemovedStay(d: Driver, i: nat, left: seq<Iface>)
    requires IfacesOk(d) && i < |d.ifaces|
    ensures var e := d.(ifaces := Without(d.ifaces, i), left := left);
      OthersStay(d, e, d.ifaces[i].id) && forall h <- e.ifaces :: h.id != d.ifaces[i].id
  {
    var e := d.(ifaces := Without(d.ifaces, i), left := left);
    forall h <- d.ifaces | h.id != d.ifaces[i].id ensures h in e.ifaces {
      StaysInRest(d.ifaces, i, h);
    }
    forall h <- e.ifaces ensures h.id != d.ifaces[i].id && h in d.ifaces {
      RestDiffers(d.ifaces, i, h);
    }
  }

  /** What the loop leaves of an interface it closes. */
  ghost predicate Closed(e: Driver, f: Iface, c: CloseCalls) {
    if Waits(f, c) then OutOfUse(f, WAIT_USER_DELETION, 1, 1) in e.ifaces else forall h <- e.ifaces :: h.id != f.id
  }

  lemma ClosedOnce(d: Driver, f: Iface, c: CloseCalls)
    requires Invariant(d) && f in d.ifaces
    ensures var e := CloseOnce(d, f.id, c, true); OthersStay(d, e, f.id) && Closed(e, f, c.(reenter := false))
  {
    FoundById(d, f);
    ListedOk(d, f);
    BestEffortClose(f, c);
    var i, r := Find(d.ifaces, f.id), CloseIface(f, c, true);
    if r.Waiting? {
      ReplacedStay(d, i, r.f);
    } else {
      RemovedStay(d, i, d.left + [r.f]);
    }
  }

  lemma ClosedAgain(d: Driver, g: Iface, c: CloseCalls)
    requires Invariant(d) && g in d.ifaces && g.state == WAIT_USER_DELETION
    ensures var e := CloseOnce(d, g.id, c, false); OthersStay(d, e, g.id) && forall h <- e.ifaces :: h.id != g.id
  {
    FoundById(d, g);
    ListedOk(d, g);
    SecondClose(g, c);
    RemovedStay(d, Find(d.ifaces, g.id), d.left + [g.(closes := 2)]);
  }

  lemma LoopCloses(d: Driver, f: Iface, c: CloseCalls)
    requires Invariant(d) && f in d.ifaces
    ensures var e := CloseStep(d, f.id, c, true); OthersStay(d, e, f.id) && Closed(e, f, c)
  {
    FoundById(d, f);
    ListedOk(d, f);
    BestEffortClose(f, c);
    ClosedOnce(d, f, c);
    if f.userCb && f.state != WAIT_USER_DELETION && c.reenter {
      CloseOnceOk(d, f.id, c, true);
      ClosedAgain(CloseOnce(d, f.id, c, true), OutOfUse(f, WAIT_USER_DELETION, 1, 1), c);
    }
  }

  /** What the calls of the loop return for an interface. */
  function CallsOf(calls: map<nat, CloseCalls>, id: nat): (r: CloseCalls) {
    if id in calls then calls[id] else CloseCalls(true, true, true, false)
  }

  /** Its parent is listed under the address. */
  ghost predicate At(devices: seq<Device>, f: Iface, addr: nat) {
    f.parent.Some? && exists x <- devices :: x.id == f.parent.value && x.addr == addr
  }

  lemma BelongsIsAt(d: Driver, f: Iface, addr: nat)
    requires DevicesOk(d)
    ensures BelongsTo(d, f, addr) <==> At(d.devices, f, addr)
  {
    if f.parent.Some? && exists x <- d.devices :: x.id == f.parent.value && x.addr == addr {
      var x :| x in d.devices && x.id == f.parent.value && x.addr == addr;
      var m :| 0 <= m < |d.devices| && d.devices[m] == x;
      var k := FindDevice(d.devices, f.parent.value);
      assert k == m;
    }
  }

  ghost predicate HasHandle(d: Driver, id: nat) {
    exists f :: f in d.ifaces && f.id == id
  }

  /** What the loop, having looked at these handles, left of an interface. */
  ghost predicate LoopedOver(d: Driver, e: Driver, ids: seq<nat>, addr: nat, calls: map<nat, CloseCalls>, f: Iface) {
    if f.id in ids && At(d.devices, f, addr) then Closed(e, f, CallsOf(calls, f.id)) else f in e.ifaces
  }

  ghost predicate Looped(d: Driver, e: Driver, ids: seq<nat>, addr: nat, calls: map<nat, CloseCalls>) {
    && (forall f <- d.ifaces :: LoopedOver(d, e, ids, addr, calls, f))
    && (forall g <- e.ifaces :: HasHandle(d, g.id))
  }

  /** Closing one interface leaves what the loop did to the others. */
  lemma OtherLooped(d: Driver, b: Driver, e: Driver, front: seq<nat>, id: nat, addr: nat, calls: map<nat, CloseCalls>,
                    h: Iface)
    requires LoopedOver(d, b, front, addr, calls, h) && OthersStay(b, e, id) && h.id != id
    ensures LoopedOver(d, e, front + [id], addr, calls, h)
  {
    assert h.id in front + [id] <==> h.id in front;
    assert OutOfUse(h, WAIT_USER_DELETION, 1, 1).id == h.id;
  }

  lemma SameHandle(d: Driver, f: Iface, h: Iface)
    requires Invariant(d) && f in d.ifaces && h in d.ifaces && f.id == h.id
    ensures f == h
  {
    FoundById(d, f);
    FoundById(d, h);
  }

  lemma LoopNext(d: Driver, b: Driver, front: seq<nat>, f: Iface, addr: nat, calls: map<nat, CloseCalls>)
    requires Invariant(d) && Invariant(b) && b.devices == d.devices && Looped(d, b, front, addr, calls)
    requires f in d.ifaces && f.id !in front && At(d.devices, f, addr)
    ensures Looped(d, CloseStep(b, f.id, CallsOf(calls, f.id), true), front + [f.id], addr, calls)
  {
    var e := CloseStep(b, f.id, CallsOf(calls, f.id), true);
    assert f in b.ifaces by {
      assert LoopedOver(d, b, front, addr, calls, f);
    }
    LoopCloses(b, f, CallsOf(calls, f.id));
    forall h <- d.ifaces ensures LoopedOver(d, e, front + [f.id], addr, calls, h) {
      if h.id == f.id {
        SameHandle(d, f, h);
      } else {
        OtherLooped(d, b, e, front, f.id, addr, calls, h);
      }
    }
    forall g <- e.ifaces ensures HasHandle(d, g.id) {
    }
  }

  /** A handle the loop passes over. */
  lemma LoopSkips(d: Driver, b: Driver, front: seq<nat>, id: nat, addr: nat, calls: map<nat, CloseCalls>)
    requires Looped(d, b, front, addr, calls)
    requires forall f <- d.ifaces :: f.id == id ==> !At(d.devices, f, addr)
    ensures Looped(d, b, front + [id], addr, calls)
  {
    forall h <- d.ifaces ensures LoopedOver(d, b, front + [id], addr, calls, h) {
      assert LoopedOver(d, b, front, addr, calls, h);
      assert h.id in front + [id] <==> h.id in front || h.id == id;
    }
  }

  ghost predicate NoneTwice(ids: seq<nat>) {
    forall i, j :: 0 <= i < j < |ids| ==> ids[i] != ids[j]
  }

  /** An interface the loop looks at next: it is still as it was, and closed exactly if its parent is at the address. */
  lemma LoopLooks(d: Driver, b: Driver, front: seq<nat>, id: nat, addr: nat, calls: map<nat, CloseCalls>)
    requires Invariant(d) && Invariant(b) && b.devices == d.devices && Looped(d, b, front, addr, calls) && id !in front
    ensures var i := Find(b.ifaces, id);
      if i == |b.ifaces| then !HasHandle(d, id)
      else b.ifaces[i] in d.ifaces && (BelongsTo(b, b.ifaces[i], addr) <==> At(d.devices, b.ifaces[i], addr))
  {
    var i := Find(b.ifaces, id);
    if HasHandle(d, id) {
      var f :| f in d.ifaces && f.id == id;
      assert f in b.ifaces by {
        assert LoopedOver(d, b, front, addr, calls, f);
      }
      FoundById(b, f);
      BelongsIsAt(b, f, addr);
    }
  }

  lemma LoopTurn(d: Driver, b: Driver, front: seq<nat>, id: nat, addr: nat, calls: map<nat, CloseCalls>)
    requires Invariant(d) && Invariant(b) && b.devices == d.devices && Looped(d, b, front, addr, calls) && id !in front
    ensures var i := Find(b.ifaces, id);
      var closes := i < |b.ifaces| && BelongsTo(b, b.ifaces[i], addr);
      Looped(d, if closes then CloseStep(b, id, CallsOf(calls, id), true) else b, front + [id], addr, calls)
  {
    var i := Find(b.ifaces, id);
    LoopLooks(d, b, front, id, addr, calls);
    if i < |b.ifaces| && BelongsTo(b, b.ifaces[i], addr) {
      LoopNext(d, b, front, b.ifaces[i], addr, calls);
    } else {
      forall f <- d.ifaces | f.id == id ensures !At(d.devices, f, addr) {
        assert HasHandle(d, id);
        SameHandle(d, f, b.ifaces[i]);
      }
      LoopSkips(d, b, front, id, addr, calls);
    }
  }

  /** One turn of the loop. */
  function Turn(b: Driver, id: nat, addr: nat, calls: map<nat, CloseCalls>): (r: Driver) {
    var i := Find(b.ifaces, id);
    if i < |b.ifaces| && BelongsTo(b, b.ifaces[i], addr) then CloseStep(b, id, CallsOf(calls, id), true) else b
  }

  lemma LoopUnrolled(d: Driver, front: seq<nat>, id: nat, addr: nat, calls: map<nat, CloseCalls>)
    ensures CloseAll(d, front + [id], addr, calls) == Turn(CloseAll(d, front, addr, calls), id, addr, calls)
  {
    assert (front + [id])[..|front|] == front;
  }

  lemma TurnOk(b: Driver, id: nat, addr: nat, calls: map<nat, CloseCalls>)
    requires Invariant(b)
    ensures var e := Turn(b, id, addr, calls); Invariant(e) && e.devices == b.devices && e.freed == b.freed
  {
    CloseStepOk(b, id, CallsOf(calls, id), true);
  }

  lemma LoopStarts(d: Driver, addr: nat, calls: map<nat, CloseCalls>)
    ensures Looped(d, d, [], addr, calls)
  {
    forall g <- d.ifaces ensures HasHandle(d, g.id) {
    }
  }

  lemma {:induction false} LoopExactly(d: Driver, ids: seq<nat>, addr: nat, calls: map<nat, CloseCalls>)
    requires Invariant(d) && NoneTwice(ids)
    ensures var e := CloseAll(d, ids, addr, calls);
      Looped(d, e, ids, addr, calls) && Invariant(e) && e.devices == d.devices && e.freed == d.freed
    decreases |ids|
  {
    if ids == [] {
      LoopStarts(d, addr, calls);
    } else {
      var front, id := ids[..|ids| - 1], ids[|ids| - 1];
      assert ids == front + [id] && id !in front && NoneTwice(front);
      LoopExactly(d, front, addr, calls);
      LoopUnrolled(d, front, id, addr, calls);
      TurnOk(CloseAll(d, front, addr, calls), id, addr, calls);
      LoopTurn(d, CloseAll(d, front, addr, calls), front, id, addr, calls);
    }
  }

  lemma IdsOnce(d: Driver)
    requires IfacesOk(d)
    ensures NoneTwice(Ids(d.ifaces)) && forall f <- d.ifaces :: f.id in Ids(d.ifaces)
  {
    IdsCover(d);
  }

  /** What a disconnect leaves of an interface of the device, and of one of another device at that address. */
  ghost predicate Disconnected(d': Driver, f: Iface, dev: nat, c: CloseCalls) {
    if Waits(f, c) then
      OutOfUse(f, WAIT_USER_DELETION, 1, 1).(parent := if f.parent == Some(dev) then None else f.parent) in d'.ifaces
    else forall h <- d'.ifaces :: h.id != f.id
  }

  lemma Detached(e: Driver, e': Driver, f: Iface, dev: nat)
    requires e'.ifaces == Detach(e.ifaces, dev)
    ensures f in e.ifaces ==> f.(parent := if f.parent == Some(dev) then None else f.parent) in e'.ifaces
    ensures forall h <- e'.ifaces :: HasHandle(e, h.id)
  {
    if f in e.ifaces {
      var k :| 0 <= k < |e.ifaces| && e.ifaces[k] == f;
      assert e'.ifaces[k] == f.(parent := if f.parent == Some(dev) then None else f.parent);
    }
    forall h <- e'.ifaces ensures HasHandle(e, h.id) {
      var k :| 0 <= k < |e'.ifaces| && e'.ifaces[k] == h;
      assert e.ifaces[k] in e.ifaces && e.ifaces[k].id == h.id;
    }
  }

  lemma GoneDevice(d: Driver, e: Event, k: nat)
    requires Invariant(d) && e.DeviceGone? && k == FindHandle(d.devices, e.hdl) && k < |d.devices|
    ensures var b := CloseAll(d, Ids(d.ifaces), d.devices[k].addr, e.closes); var d' := GoneStep(d, e);
      && Looped(d, b, Ids(d.ifaces), d.devices[k].addr, e.closes)
      && d'.ifaces == Detach(b.ifaces, d.devices[k].id)
      && (e.removal.inflight ==> d'.devices == Without(d.devices, k) && d'.freed == d.freed)
      && (!e.removal.inflight && e.removal.xferFreeOk && e.removal.closeOk ==>
            d'.devices == Without(d.devices, k) && d'.freed == d.freed + {d.devices[k].id})
      && (!e.removal.inflight && !(e.removal.xferFreeOk && e.removal.closeOk) ==>
            d'.devices == d.devices && d'.freed == d.freed)
  {
    IdsOnce(d);
    LoopExactly(d, Ids(d.ifaces), d.devices[k].addr, e.closes);
  }

  lemma GoneIface(d: Driver, b: Driver, d': Driver, f: Iface, dev: Device, closes: map<nat, CloseCalls>)
    requires Looped(d, b, Ids(d.ifaces), dev.addr, closes) && d'.ifaces == Detach(b.ifaces, dev.id)
    requires f in d.ifaces && f.id in Ids(d.ifaces) && dev in d.devices
    ensures if At(d.devices, f, dev.addr) then Disconnected(d', f, dev.id, CallsOf(closes, f.id)) else f in d'.ifaces
  {
    assert LoopedOver(d, b, Ids(d.ifaces), dev.addr, closes, f);
    var c := CallsOf(closes, f.id);
    if At(d.devices, f, dev.addr) {
      Detached(b, d', OutOfUse(f, WAIT_USER_DELETION, 1, 1), dev.id);
    } else {
      assert f.parent != Some(dev.id);
      Detached(b, d', f, dev.id);
    }
  }

  /**
   A disconnect, after any run: the interfaces whose device is listed at the address are told and wait without a
   parent, or are removed when their user was told before, has no callback or closes at once; the others stay.
   The device leaves the list, leaked when its transfer is in flight and freed otherwise, unless that fails.
   */
  lemma DisconnectExactly(events: seq<Event>, e: Event, k: nat, f: Iface)
    requires e.DeviceGone? && f in After(events).ifaces
    requires k < |After(events).devices| && After(events).devices[k].hdl == e.hdl
    requires forall i :: 0 <= i < k ==> After(events).devices[i].hdl != e.hdl
    ensures var d, d' := After(events), After(events + [e]); var dev := d.devices[k];
      && (if At(d.devices, f, dev.addr) then Disconnected(d', f, dev.id, CallsOf(e.closes, f.id)) else f in d'.ifaces)
      && (e.removal.inflight ==> d'.devices == d.devices[..k] + d.devices[k + 1..] && d'.freed == d.freed)
      && (!e.removal.inflight && e.removal.xferFreeOk && e.removal.closeOk ==>
            d'.devices == d.devices[..k] + d.devices[k + 1..] && d'.freed == d.freed + {dev.id})
      && (!e.removal.inflight && !(e.removal.xferFreeOk && e.removal.closeOk) ==>
            d'.devices == d.devices && d'.freed == d.freed)
  {
    OneMore(events, e);
    RunOk(events);
    var d := After(events);
    assert k == FindHandle(d.devices, e.hdl);
    GoneDevice(d, e, k);
    IdsOnce(d);
    var closed := CloseAll(d, Ids(d.ifaces), d.devices[k].addr, e.closes);
    GoneIface(d, closed, After(events + [e]), f, d.devices[k], e.closes);
  }

  /** A handle of no listed device changes nothing. */
  lemma UnknownDevice(events: seq<Event>, e: Event)
    requires e.DeviceGone? && forall x <- After(events).devices :: x.hdl != e.hdl
    ensures After(events + [e]) == After(events)
  {
    OneMore(events, e);
  }

  // ----- From the plug to the reports -----

  lemma IsListed(d: Driver, d': Driver, id: nat, g: Iface)
    requires Becomes(d, d', id, g)
    ensures g in d'.ifaces
  {
    var i :| 0 <= i < |d.ifaces| && d.ifaces[i].id == id && d' == d.(ifaces := d.ifaces[i := g]);
    assert d'.ifaces[i] == g;
  }

  lemma Twice(d: Driver, u: Driver, v: Driver, id: nat, g: Iface, h: Iface)
    requires Becomes(d, u, id, g) && Becomes(u, v, id, h) && Invariant(u) && g.id == id
    ensures Becomes(d, v, id, h)
  {
    var i :| 0 <= i < |d.ifaces| && d.ifaces[i].id == id && u == d.(ifaces := d.ifaces[i := g]);
    var j :| 0 <= j < |u.ifaces| && u.ifaces[j].id == id && v == u.(ifaces := u.ifaces[j := h]);
    assert i == j by {
      assert u.ifaces[i].id == u.ifaces[j].id;
    }
    assert d.ifaces[i := g][i := h] == d.ifaces[i := h];
  }

  /** Every interface of a device that was just attached can be opened and started. */
  lemma PluggedInterfaceRuns(events: seq<Event>, attach: Event, n: nat, callback: bool)
    requires attach.Attach? && attach.isHid && attach.installOk && attach.listOk && n < attach.found
    ensures var d := After(events + [attach]); var k := |After(events).ifaces| + n;
      && k < |d.ifaces|
      && var id := d.ifaces[k].id;
         var u := After(events + [attach] + [Open(id, true, true, true, callback)] + [Start(id, true)]);
         && Becomes(d, u, id, Iface(id, d.ifaces[k].parent, ACTIVE, true, false, callback, 1, 0, 0))
  {
    AttachExactly(events, attach);
    var attached := events + [attach];
    var d, k := After(attached), |After(events).ifaces| + n;
    var f := d.ifaces[k];
    assert f.state == IDLE by {
      assert Found(After(events), d, d.devices[|After(events).devices|].id, n);
    }
    var open := Open(f.id, true, true, true, callback);
    OpenExactly(attached, open, f);
    var g := Iface(f.id, f.parent, READY, true, false, callback, 1, 0, 0);
    IsListed(d, After(attached + [open]), f.id, g);
    RunOk(attached + [open]);
    StartExactly(attached + [open], Start(f.id, true), g);
    Twice(d, After(attached + [open]), After(attached + [open] + [Start(f.id, true)]), f.id, g, g.(state := ACTIVE));
  }
}
