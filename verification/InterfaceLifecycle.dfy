/**
 Devices and interfaces of the HID host driver (lib/usb_host_hid/hid_host.c): attach, failed attach,
 open, start, stop, the two-phase close and the removal of a device. One event is one API call or one
 USB event; its booleans are the outcomes of the USB host calls it makes. Contexts and interfaces get
 a number each, never used twice, in the place of their address.
 */
module InterfaceLifecycle {
  import opened Prelude

  datatype State = IDLE | READY | ACTIVE | WAIT_USER_DELETION

  /**
   hid_iface_t. opens, notified and closes are the history: successful opens, DISCONNECTED events
   delivered, successful closes.
   */
  datatype Iface = Iface(id: nat, parent: Option<nat>, state: State, inXfer: bool, reportDesc: bool, userCb: bool,
                         opens: nat, notified: nat, closes: nat)

  datatype Device = Device(id: nat, addr: nat, hdl: nat)

  /** The two lists, the contexts given back to the heap and the interfaces that left the list by a close. */
  datatype Driver = Driver(devices: seq<Device>, ifaces: seq<Iface>, nextDevice: nat, nextIface: nat,
                           freed: set<nat>, left: seq<Iface>)

  /** What the calls of one close return; reenter: the DISCONNECTED callback closes the interface again. */
  datatype CloseCalls = CloseCalls(haltOk: bool, flushOk: bool, releaseOk: bool, reenter: bool)

  /** What hid_host_uninstall_device() finds. */
  datatype UninstallCalls = UninstallCalls(inflight: bool, xferFreeOk: bool, closeOk: bool)

  datatype Event =
    | Attach(addr: nat, hdl: nat, isHid: bool, installOk: bool, found: nat, listOk: bool, cleanup: UninstallCalls)
    | DeviceGone(hdl: nat, closes: map<nat, CloseCalls>, removal: UninstallCalls)
    | Open(id: nat, protoOk: bool, claimOk: bool, allocOk: bool, callback: bool)
    | Start(id: nat, submitOk: bool)
    | Stop(id: nat, haltOk: bool, flushOk: bool)
    | Close(id: nat, calls: CloseCalls)
    | GetReportDescriptor(id: nat, sizeOk: bool, mallocOk: bool, requestOk: bool)

  function Installed(): (r: Driver) {
    Driver([], [], 0, 0, {}, [])
  }

  /** get_iface_by_handle(): the position in the list, or its length. */
  function Find(ifaces: seq<Iface>, id: nat): (i: nat)
    ensures i <= |ifaces|
    ensures i < |ifaces| ==> ifaces[i].id == id
    ensures forall k :: 0 <= k < i ==> ifaces[k].id != id
  {
    if ifaces == [] || ifaces[0].id == id then 0 else 1 + Find(ifaces[1..], id)
  }

  /** get_hid_device_by_handle() */
  function FindHandle(devices: seq<Device>, hdl: nat): (i: nat)
    ensures i <= |devices|
    ensures i < |devices| ==> devices[i].hdl == hdl
    ensures forall k :: 0 <= k < i ==> devices[k].hdl != hdl
  {
    if devices == [] || devices[0].hdl == hdl then 0 else 1 + FindHandle(devices[1..], hdl)
  }

  function FindDevice(devices: seq<Device>, id: nat): (i: nat)
    ensures i <= |devices|
    ensures i < |devices| ==> devices[i].id == id
    ensures forall k :: 0 <= k < i ==> devices[k].id != id
  {
    if devices == [] || devices[0].id == id then 0 else 1 + FindDevice(devices[1..], id)
  }

  function Without<T>(s: seq<T>, i: nat): (r: seq<T>)
    requires i < |s|
  {
    s[..i] + s[i + 1..]
  }

  // ----- Attach and removal of a device -----

  /** hid_host_add_interface(), n times. */
  function AddInterfaces(d: Driver, dev: nat, n: nat): (r: Driver) {
    if n == 0 then d
    else
      var e := AddInterfaces(d, dev, n - 1);
      e.(ifaces := e.ifaces + [Iface(e.nextIface, Some(dev), IDLE, false, false, false, 0, 0, 0)],
         nextIface := e.nextIface + 1)
  }

  /** The cleanup loop of a failed attach. */
  function DropInterfaces(ifaces: seq<Iface>, dev: nat): (r: seq<Iface>) {
    if ifaces == [] then []
    else (if ifaces[0].parent == Some(dev) then [] else [ifaces[0]]) + DropInterfaces(ifaces[1..], dev)
  }

  function Detach(ifaces: seq<Iface>, dev: nat): (r: seq<Iface>)
    ensures |r| == |ifaces|
    ensures forall i :: 0 <= i < |r| ==>
      r[i] == if ifaces[i].parent == Some(dev) then ifaces[i].(parent := None) else ifaces[i]
  {
    if ifaces == [] then []
    else [if ifaces[0].parent == Some(dev) then ifaces[0].(parent := None) else ifaces[0]] + Detach(ifaces[1..], dev)
  }

  /** hid_host_uninstall_device() of the k-th device. */
  function Uninstall(d: Driver, k: nat, c: UninstallCalls): (r: Driver)
    requires k < |d.devices|
  {
    var dev := d.devices[k].id;
    var e := d.(ifaces := Detach(d.ifaces, dev));
    if c.inflight then e.(devices := Without(e.devices, k))
    else if !c.xferFreeOk || !c.closeOk then e
    else e.(devices := Without(e.devices, k), freed := e.freed + {dev})
  }

  /** hid_host_install_device(): the context goes at the end of the list. */
  function NewDevice(d: Driver, addr: nat, hdl: nat): (r: Driver) {
    d.(devices := d.devices + [Device(d.nextDevice, addr, hdl)], nextDevice := d.nextDevice + 1)
  }

  /** After a list of interfaces that could not be completed. */
  function CleanUp(d: Driver, dev: nat, c: UninstallCalls): (r: Driver) {
    var k := FindDevice(d.devices, dev);
    var e := d.(ifaces := DropInterfaces(d.ifaces, dev));
    if k == |d.devices| then e else Uninstall(e, k, c)
  }

  /** hid_host_device_init_attempt() */
  function AttachStep(d: Driver, e: Event): (r: Driver)
    requires e.Attach?
  {
    if !e.isHid || !e.installOk then d
    else
      var added := AddInterfaces(NewDevice(d, e.addr, e.hdl), d.nextDevice, e.found);
      if e.listOk then added else CleanUp(added, d.nextDevice, e.cleanup)
  }

  // ----- Close -----

  datatype Closed = Failed(f: Iface) | Waiting(f: Iface) | Removed(f: Iface)

  /** hid_host_disable_interface() and its disconnect variant, then the release of the interface. */
  function Quiesce(f: Iface, c: CloseCalls, bestEffort: bool): (r: (bool, Iface)) {
    if f.state == ACTIVE && !bestEffort && (f.parent.None? || !c.haltOk || !c.flushOk) then (false, f)
    else
      var g := if f.state == ACTIVE then f.(state := READY) else f;
      if g.state != READY then (true, g)
      else if !bestEffort && (g.parent.None? || !c.releaseOk) then (false, g)
      else (true, g.(state := IDLE, inXfer := false, reportDesc := false))
  }

  /** hid_host_device_close_impl() on one interface, up to the callback. */
  function CloseIface(f: Iface, c: CloseCalls, bestEffort: bool): (r: Closed) {
    var (ok, g) := Quiesce(f, c, bestEffort);
    if !ok then Failed(g)
    else if g.userCb && g.state != WAIT_USER_DELETION then
      Waiting(g.(state := WAIT_USER_DELETION, notified := g.notified + 1, closes := g.closes + 1))
    else Removed(g.(closes := g.closes + 1))
  }

  function CloseOnce(d: Driver, id: nat, c: CloseCalls, bestEffort: bool): (r: Driver) {
    var i := Find(d.ifaces, id);
    if i == |d.ifaces| then d
    else match CloseIface(d.ifaces[i], c, bestEffort)
      case Failed(f) => d.(ifaces := d.ifaces[i := f])
      case Waiting(f) => d.(ifaces := d.ifaces[i := f])
      case Removed(f) => d.(ifaces := Without(d.ifaces, i), left := d.left + [f])
  }

  /** The close that delivers DISCONNECTED may be followed by the one the callback makes. */
  function CloseStep(d: Driver, id: nat, c: CloseCalls, bestEffort: bool): (r: Driver) {
    var i := Find(d.ifaces, id);
    var e := CloseOnce(d, id, c, bestEffort);
    if i < |d.ifaces| && CloseIface(d.ifaces[i], c, bestEffort).Waiting? && c.reenter then CloseOnce(e, id, c, false)
    else e
  }

  const NO_FAILURE: CloseCalls := CloseCalls(true, true, true, false)

  /** The address of the parent of an interface, as the disconnect loop reads it. */
  predicate BelongsTo(d: Driver, f: Iface, addr: nat) {
    f.parent.Some? &&
    var k := FindDevice(d.devices, f.parent.value);
    k < |d.devices| && d.devices[k].addr == addr
  }

  /** The loop of hid_host_device_disconnected() over the interfaces listed when it starts. */
  function CloseAll(d: Driver, ids: seq<nat>, addr: nat, calls: map<nat, CloseCalls>): (r: Driver)
    decreases |ids|
  {
    if ids == [] then d
    else
      var e := CloseAll(d, ids[..|ids| - 1], addr, calls);
      var id := ids[|ids| - 1];
      var i := Find(e.ifaces, id);
      if i < |e.ifaces| && BelongsTo(e, e.ifaces[i], addr) then
        CloseStep(e, id, if id in calls then calls[id] else NO_FAILURE, true)
      else e
  }

  function Ids(ifaces: seq<Iface>): (r: seq<nat>)
    ensures |r| == |ifaces| && forall i :: 0 <= i < |r| ==> r[i] == ifaces[i].id
  {
    if ifaces == [] then [] else [ifaces[0].id] + Ids(ifaces[1..])
  }

  /** hid_host_device_disconnected() */
  function GoneStep(d: Driver, e: Event): (r: Driver)
    requires e.DeviceGone?
  {
    var k := FindHandle(d.devices, e.hdl);
    if k == |d.devices| then d
    else
      var closed := CloseAll(d, Ids(d.ifaces), d.devices[k].addr, e.closes);
      if k < |closed.devices| then Uninstall(closed, k, e.removal) else closed
  }

  // ----- The other calls -----

  function OpenIface(f: Iface, e: Event): (r: Iface)
    requires e.Open?
  {
    if !e.protoOk || f.state != IDLE || !e.claimOk || !e.allocOk then f
    else f.(state := READY, inXfer := true, userCb := e.callback, opens := f.opens + 1)
  }

  function StartIface(f: Iface, submitOk: bool): (r: Iface) {
    if !f.inXfer || f.parent.None? || f.state != READY || !submitOk then f else f.(state := ACTIVE)
  }

  function StopIface(f: Iface, haltOk: bool, flushOk: bool): (r: Iface) {
    if f.parent.None? || f.state != ACTIVE || !haltOk || !flushOk then f else f.(state := READY)
  }

  function DescribeIface(f: Iface, e: Event): (r: Iface)
    requires e.GetReportDescriptor?
  {
    if f.reportDesc || f.state !in {READY, ACTIVE} || !e.sizeOk || !e.mallocOk then f
    else f.(reportDesc := e.requestOk && f.parent.Some?)
  }

  function UpdateIface(f: Iface, e: Event): (r: Iface) {
    match e
    case Open(_, _, _, _, _) => OpenIface(f, e)
    case Start(_, submitOk) => StartIface(f, submitOk)
    case Stop(_, haltOk, flushOk) => StopIface(f, haltOk, flushOk)
    case GetReportDescriptor(_, _, _, _) => DescribeIface(f, e)
    case _ => f
  }

  function Step(d: Driver, e: Event): (r: Driver) {
    match e
    case Attach(_, _, _, _, _, _, _) => AttachStep(d, e)
    case DeviceGone(_, _, _) => GoneStep(d, e)
    case Close(id, calls) => CloseStep(d, id, calls, false)
    case _ =>
      var i := Find(d.ifaces, e.id);
      if i == |d.ifaces| then d else d.(ifaces := d.ifaces[i := UpdateIface(d.ifaces[i], e)])
  }

  function Run(d: Driver, events: seq<Event>): (r: Driver)
    decreases |events|
  {
    if events == [] then d else Step(Run(d, events[..|events| - 1]), events[|events| - 1])
  }

  // ----- Invariant -----

  /** The life of one listed interface. */
  ghost predicate IfaceOk(f: Iface) {
    && (f.inXfer <==> f.state in {READY, ACTIVE})
    && (f.reportDesc ==> f.state in {READY, ACTIVE})
    && f.opens == (if f.state == IDLE then 0 else 1)
    && (f.state == IDLE ==> !f.userCb)
    && (f.state == WAIT_USER_DELETION ==> f.userCb)
    && f.notified == f.closes == (if f.state == WAIT_USER_DELETION then 1 else 0)
    && (f.parent.None? ==> f.state == WAIT_USER_DELETION)
  }

  /** The life of an interface that left the list by a close. */
  ghost predicate LeftOk(f: Iface) {
    && !f.inXfer && !f.reportDesc && f.opens <= 1
    && (f.userCb ==> f.opens == 1)
    && f.closes == (if f.userCb then 2 else 1)
    && f.notified == (if f.userCb then 1 else 0)
  }

  ghost predicate Listed(devices: seq<Device>, id: nat) {
    exists k :: 0 <= k < |devices| && devices[k].id == id
  }

  ghost predicate DevicesOk(d: Driver) {
    && (forall k :: 0 <= k < |d.devices| ==> d.devices[k].id < d.nextDevice && d.devices[k].id !in d.freed)
    && (forall j, k :: 0 <= j < k < |d.devices| ==> d.devices[j].id != d.devices[k].id)
    && (forall x <- d.freed :: x < d.nextDevice)
  }

  ghost predicate IfacesOk(d: Driver) {
    && (forall i :: 0 <= i < |d.ifaces| ==> d.ifaces[i].id < d.nextIface && IfaceOk(d.ifaces[i]))
    && (forall i, j :: 0 <= i < j < |d.ifaces| ==> d.ifaces[i].id != d.ifaces[j].id)
    && (forall i :: 0 <= i < |d.ifaces| && d.ifaces[i].parent.Some? ==> Listed(d.devices, d.ifaces[i].parent.value))
  }

  ghost predicate Invariant(d: Driver) {
    && DevicesOk(d) && IfacesOk(d)
    && (forall f <- d.left :: LeftOk(f))
  }

  lemma AddOk(d: Driver, dev: nat, n: nat)
    requires Invariant(d) && Listed(d.devices, dev)
    ensures Invariant(AddInterfaces(d, dev, n))
    ensures AddInterfaces(d, dev, n).devices == d.devices
    ensures AddInterfaces(d, dev, n).left == d.left
    ensures AddInterfaces(d, dev, n).freed == d.freed
    ensures AddInterfaces(d, dev, n).nextDevice == d.nextDevice
    ensures |AddInterfaces(d, dev, n).ifaces| == |d.ifaces| + n
    ensures forall i :: 0 <= i < |d.ifaces| + n ==>
      if i < |d.ifaces| then AddInterfaces(d, dev, n).ifaces[i] == d.ifaces[i]
      else AddInterfaces(d, dev, n).ifaces[i].parent == Some(dev)
  {
    if n > 0 {
      AddOk(d, dev, n - 1);
    }
  }

  /** Dropping removes exactly the interfaces of the device and keeps the others in order. */
  lemma DropsAppended(old': seq<Iface>, added: seq<Iface>, dev: nat)
    requires forall f <- old' :: f.parent != Some(dev)
    requires forall f <- added :: f.parent == Some(dev)
    ensures DropInterfaces(old' + added, dev) == old'
  {
    if old' == [] {
      assert old' + added == added;
      if added != [] {
        DropsAppended([], added[1..], dev);
        assert [] + added[1..] == added[1..];
      }
    } else {
      assert (old' + added)[1..] == old'[1..] + added;
      DropsAppended(old'[1..], added, dev);
    }
  }

  /** No interface in use refers to the device that goes. */
  ghost predicate Quiesced(d: Driver, dev: nat) {
    forall i :: 0 <= i < |d.ifaces| && d.ifaces[i].parent == Some(dev) ==> d.ifaces[i].state == WAIT_USER_DELETION
  }

  ghost predicate Unreferenced(d: Driver, dev: nat) {
    forall i :: 0 <= i < |d.ifaces| ==> d.ifaces[i].parent != Some(dev)
  }

  lemma DetachOk(d: Driver, dev: nat)
    requires Invariant(d) && Quiesced(d, dev)
    ensures var e := d.(ifaces := Detach(d.ifaces, dev)); Invariant(e) && Unreferenced(e, dev)
  {
    var e := d.(ifaces := Detach(d.ifaces, dev));
    forall i | 0 <= i < |e.ifaces| ensures e.ifaces[i].id == d.ifaces[i].id && IfaceOk(e.ifaces[i]) {
      assert IfaceOk(d.ifaces[i]);
    }
  }

  lemma WithoutIds(d: Driver, k: nat)
    requires DevicesOk(d) && k < |d.devices|
    ensures forall n :: 0 <= n < |d.devices| - 1 ==>
      Without(d.devices, k)[n] == d.devices[if n < k then n else n + 1]
    ensures forall n :: 0 <= n < |d.devices| - 1 ==> Without(d.devices, k)[n].id != d.devices[k].id
  {
  }

  lemma StillListed(d: Driver, k: nat, id: nat)
    requires k < |d.devices| && Listed(d.devices, id) && id != d.devices[k].id
    ensures Listed(Without(d.devices, k), id)
  {
    var j :| 0 <= j < |d.devices| && d.devices[j].id == id;
    assert Without(d.devices, k)[if j < k then j else j - 1].id == id;
  }

  /** A device that no interface refers to may leave the list, leaked or freed. */
  lemma LeaveOk(d: Driver, k: nat, freed: set<nat>)
    requires Invariant(d) && k < |d.devices| && Unreferenced(d, d.devices[k].id)
    requires freed == d.freed || freed == d.freed + {d.devices[k].id}
    ensures Invariant(d.(devices := Without(d.devices, k), freed := freed))
  {
    var devices := Without(d.devices, k);
    WithoutIds(d, k);
    forall i | 0 <= i < |d.ifaces| && d.ifaces[i].parent.Some?
      ensures Listed(devices, d.ifaces[i].parent.value)
    {
      StillListed(d, k, d.ifaces[i].parent.value);
    }
  }

  lemma UninstallOk(d: Driver, k: nat, c: UninstallCalls)
    requires Invariant(d) && k < |d.devices| && Quiesced(d, d.devices[k].id)
    ensures Invariant(Uninstall(d, k, c))
  {
    var dev := d.devices[k].id;
    DetachOk(d, dev);
    LeaveOk(d.(ifaces := Detach(d.ifaces, dev)), k, if c.inflight then d.freed else d.freed + {dev});
  }

  lemma CloseIfaceOk(f: Iface, c: CloseCalls, bestEffort: bool)
    requires IfaceOk(f)
    ensures var r := CloseIface(f, c, bestEffort);
      if r.Removed? then LeftOk(r.f) else IfaceOk(r.f) && r.f.parent == f.parent && r.f.id == f.id
  {
  }

  lemma RemovedOk(d: Driver, i: nat, f: Iface)
    requires Invariant(d) && i < |d.ifaces| && LeftOk(f)
    ensures Invariant(d.(ifaces := Without(d.ifaces, i), left := d.left + [f]))
  {
    var ifaces := Without(d.ifaces, i);
    forall j | 0 <= j < |ifaces| ensures ifaces[j] == d.ifaces[if j < i then j else j + 1] {}
  }

  lemma ReplacedOk(d: Driver, i: nat, f: Iface)
    requires Invariant(d) && i < |d.ifaces| && IfaceOk(f) && f.parent == d.ifaces[i].parent && f.id == d.ifaces[i].id
    ensures Invariant(d.(ifaces := d.ifaces[i := f]))
  {
  }

  lemma CloseOnceOk(d: Driver, id: nat, c: CloseCalls, bestEffort: bool)
    requires Invariant(d)
    ensures Invariant(CloseOnce(d, id, c, bestEffort))
    ensures CloseOnce(d, id, c, bestEffort).devices == d.devices
  {
    var i := Find(d.ifaces, id);
    if i < |d.ifaces| {
      var r := CloseIface(d.ifaces[i], c, bestEffort);
      CloseIfaceOk(d.ifaces[i], c, bestEffort);
      if r.Removed? {
        RemovedOk(d, i, r.f);
      } else {
        ReplacedOk(d, i, r.f);
      }
    }
  }

  lemma CloseStepOk(d: Driver, id: nat, c: CloseCalls, bestEffort: bool)
    requires Invariant(d)
    ensures Invariant(CloseStep(d, id, c, bestEffort))
    ensures CloseStep(d, id, c, bestEffort).devices == d.devices
  {
    CloseOnceOk(d, id, c, bestEffort);
    CloseOnceOk(CloseOnce(d, id, c, bestEffort), id, c, false);
  }

  /** A best-effort close leaves the interface in WAIT_USER_DELETION or out of the list. */
  lemma BestEffortCloseQuiesces(d: Driver, id: nat, c: CloseCalls)
    requires Invariant(d)
    ensures forall f <- CloseStep(d, id, c, true).ifaces ::
      if f.id == id then f.state == WAIT_USER_DELETION else f in d.ifaces
    ensures forall f <- CloseStep(d, id, c, true).ifaces :: exists g :: g in d.ifaces && g.id == f.id
  {
    var i := Find(d.ifaces, id);
    if i < |d.ifaces| {
      var r := CloseIface(d.ifaces[i], c, true);
      assert IfaceOk(d.ifaces[i]);
      assert !r.Failed? && d.ifaces[i] in d.ifaces && r.f.id == id;
      if r.Waiting? && c.reenter {
        var e := CloseOnce(d, id, c, true);
        var j := Find(e.ifaces, id);
        assert e.ifaces[i].id == id && forall k :: 0 <= k < i ==> e.ifaces[k] == d.ifaces[k];
        assert j == i;
        assert CloseIface(e.ifaces[i], c, false).Removed?;
      }
    }
  }

  /** A handle finds its own interface and no other. */
  lemma FoundById(d: Driver, f: Iface)
    requires Invariant(d) && f in d.ifaces
    ensures Find(d.ifaces, f.id) < |d.ifaces| && d.ifaces[Find(d.ifaces, f.id)] == f
  {
    var m :| 0 <= m < |d.ifaces| && d.ifaces[m] == f;
  }

  /** The interfaces of the address among ids are out of use. */
  ghost predicate Done(d: Driver, ids: seq<nat>, addr: nat) {
    forall f <- d.ifaces :: f.id in ids && BelongsTo(d, f, addr) ==> f.state == WAIT_USER_DELETION
  }

  ghost predicate Within(d: Driver, ids: seq<nat>) {
    forall f <- d.ifaces :: f.id in ids
  }

  lemma CloseStepDone(b: Driver, all: seq<nat>, front: seq<nat>, id: nat, addr: nat, c: CloseCalls)
    requires Invariant(b) && Done(b, front, addr) && Within(b, all)
    ensures var e := CloseStep(b, id, c, true);
      Done(e, front + [id], addr) && Within(e, all)
  {
    CloseStepOk(b, id, c, true);
    BestEffortCloseQuiesces(b, id, c);
    var e := CloseStep(b, id, c, true);
    forall f <- e.ifaces | f.id in front + [id] && BelongsTo(e, f, addr) ensures f.state == WAIT_USER_DELETION {
      assert f.id != id ==> f in b.ifaces && BelongsTo(b, f, addr);
    }
    forall f <- e.ifaces ensures f.id in all {
      var g :| g in b.ifaces && g.id == f.id;
    }
  }

  /** After the disconnect loop no interface of that address is in use. */
  lemma {:induction false} CloseAllOk(d: Driver, all: seq<nat>, ids: seq<nat>, addr: nat, calls: map<nat, CloseCalls>)
    requires Invariant(d) && Within(d, all)
    ensures var e := CloseAll(d, ids, addr, calls);
      Invariant(e) && e.devices == d.devices && Within(e, all) && Done(e, ids, addr)
    decreases |ids|
  {
    if ids != [] {
      var front, id := ids[..|ids| - 1], ids[|ids| - 1];
      CloseAllOk(d, all, front, addr, calls);
      var b := CloseAll(d, front, addr, calls);
      var i := Find(b.ifaces, id);
      assert ids == front + [id];
      if i < |b.ifaces| && BelongsTo(b, b.ifaces[i], addr) {
        var c := if id in calls then calls[id] else NO_FAILURE;
        CloseStepOk(b, id, c, true);
        CloseStepDone(b, all, front, id, addr, c);
      } else {
        forall f <- b.ifaces | f.id in ids && BelongsTo(b, f, addr) ensures f.id in front {
          FoundById(b, f);
        }
      }
    }
  }

  lemma IdsCover(d: Driver)
    ensures Within(d, Ids(d.ifaces))
  {
    forall f <- d.ifaces ensures f.id in Ids(d.ifaces) {
      var m :| 0 <= m < |d.ifaces| && d.ifaces[m] == f;
      assert Ids(d.ifaces)[m] == f.id;
    }
  }

  /** What the disconnect loop leaves of the interfaces of the k-th device. */
  lemma DoneIsQuiet(d: Driver, ids: seq<nat>, k: nat, addr: nat)
    requires Invariant(d) && k < |d.devices| && d.devices[k].addr == addr && Done(d, ids, addr) && Within(d, ids)
    ensures forall i :: 0 <= i < |d.ifaces| && d.ifaces[i].parent == Some(d.devices[k].id) ==>
      d.ifaces[i].state == WAIT_USER_DELETION
  {
    var dev := d.devices[k].id;
    assert FindDevice(d.devices, dev) == k;
    forall i | 0 <= i < |d.ifaces| && d.ifaces[i].parent == Some(dev)
      ensures d.ifaces[i].state == WAIT_USER_DELETION
    {
      assert d.ifaces[i] in d.ifaces && BelongsTo(d, d.ifaces[i], addr);
    }
  }

  lemma GoneOk(d: Driver, e: Event)
    requires Invariant(d) && e.DeviceGone?
    ensures Invariant(GoneStep(d, e))
  {
    var k := FindHandle(d.devices, e.hdl);
    if k < |d.devices| {
      var addr := d.devices[k].addr;
      IdsCover(d);
      CloseAllOk(d, Ids(d.ifaces), Ids(d.ifaces), addr, e.closes);
      var closed := CloseAll(d, Ids(d.ifaces), addr, e.closes);
      DoneIsQuiet(closed, Ids(d.ifaces), k, addr);
      UninstallOk(closed, k, e.removal);
    }
  }

  lemma NewDeviceOk(d: Driver, addr: nat, hdl: nat)
    requires Invariant(d)
    ensures Invariant(NewDevice(d, addr, hdl)) && Listed(NewDevice(d, addr, hdl).devices, d.nextDevice)
    ensures forall f <- d.ifaces :: f.parent != Some(d.nextDevice)
  {
    var e := NewDevice(d, addr, hdl);
    assert e.devices[|d.devices|].id == d.nextDevice;
    forall i | 0 <= i < |d.ifaces| && d.ifaces[i].parent.Some?
      ensures Listed(e.devices, d.ifaces[i].parent.value) && d.ifaces[i].parent.value < d.nextDevice
    {
      var m :| 0 <= m < |d.devices| && d.devices[m].id == d.ifaces[i].parent.value;
      assert e.devices[m].id == d.ifaces[i].parent.value;
    }
  }

  lemma FirstOnesOk(d: Driver, n: nat)
    requires Invariant(d) && n <= |d.ifaces|
    ensures Invariant(d.(ifaces := d.ifaces[..n]))
  {
  }

  lemma DropsAdded(d: Driver, dev: nat, n: nat)
    requires Invariant(d) && Listed(d.devices, dev) && forall f <- d.ifaces :: f.parent != Some(dev)
    ensures DropInterfaces(AddInterfaces(d, dev, n).ifaces, dev) == d.ifaces
  {
    AddOk(d, dev, n);
    var added := AddInterfaces(d, dev, n).ifaces;
    var tail := added[|d.ifaces|..];
    assert added == d.ifaces + tail;
    DropsAppended(d.ifaces, tail, dev);
  }

  lemma DroppedOk(d: Driver, dev: nat, n: nat)
    requires Invariant(d) && Listed(d.devices, dev)
    ensures var e := AddInterfaces(d, dev, n).(ifaces := d.ifaces); Invariant(e) && e.devices == d.devices
  {
    AddOk(d, dev, n);
    FirstOnesOk(AddInterfaces(d, dev, n), |d.ifaces|);
    assert AddInterfaces(d, dev, n).ifaces[..|d.ifaces|] == d.ifaces;
  }

  /** Removing a device that no interface refers to leaves the interfaces alone. */
  lemma UninstallRestored(d: Driver, k: nat, c: UninstallCalls)
    requires Invariant(d) && k < |d.devices| && forall f <- d.ifaces :: f.parent != Some(d.devices[k].id)
    ensures Invariant(Uninstall(d, k, c)) && Uninstall(d, k, c).ifaces == d.ifaces
  {
    UninstallOk(d, k, c);
    assert Detach(d.ifaces, d.devices[k].id) == d.ifaces;
  }

  /** The cleanup restores the list of interfaces and keeps the invariant. */
  lemma CleanUpOk(d: Driver, dev: nat, n: nat, c: UninstallCalls)
    requires Invariant(d) && Listed(d.devices, dev)
    requires forall f <- d.ifaces :: f.parent != Some(dev)
    ensures var e := CleanUp(AddInterfaces(d, dev, n), dev, c);
      Invariant(e) && e.ifaces == d.ifaces
  {
    var restored := AddInterfaces(d, dev, n).(ifaces := d.ifaces);
    var k := FindDevice(d.devices, dev);
    DroppedOk(d, dev, n);
    assert CleanUp(AddInterfaces(d, dev, n), dev, c) == Uninstall(restored, k, c) by {
      DropsAdded(d, dev, n);
    }
    UninstallRestored(restored, k, c);
  }

  /** An attach that fails leaves the list of interfaces as it was. */
  lemma AttachOk(d: Driver, e: Event)
    requires Invariant(d) && e.Attach?
    ensures Invariant(AttachStep(d, e))
    ensures !e.listOk || !e.isHid || !e.installOk ==> AttachStep(d, e).ifaces == d.ifaces
  {
    if e.isHid && e.installOk {
      NewDeviceOk(d, e.addr, e.hdl);
      AddOk(NewDevice(d, e.addr, e.hdl), d.nextDevice, e.found);
      CleanUpOk(NewDevice(d, e.addr, e.hdl), d.nextDevice, e.found, e.cleanup);
    }
  }

  lemma UpdateIfaceOk(f: Iface, e: Event)
    requires IfaceOk(f)
    ensures var g := UpdateIface(f, e); IfaceOk(g) && g.id == f.id && g.parent == f.parent
  {
  }

  /** Open, start, stop and the report descriptor change one interface. */
  lemma CallOk(d: Driver, e: Event, id: nat)
    requires Invariant(d)
    ensures var i := Find(d.ifaces, id);
      i < |d.ifaces| ==> Invariant(d.(ifaces := d.ifaces[i := UpdateIface(d.ifaces[i], e)]))
  {
    var i := Find(d.ifaces, id);
    if i < |d.ifaces| {
      UpdateIfaceOk(d.ifaces[i], e);
      ReplacedOk(d, i, UpdateIface(d.ifaces[i], e));
    }
  }

  lemma StepOk(d: Driver, e: Event)
    requires Invariant(d)
    ensures Invariant(Step(d, e))
  {
    match e
    case Attach(_, _, _, _, _, _, _) => AttachOk(d, e);
    case DeviceGone(_, _, _) => GoneOk(d, e);
    case Close(id, calls) => CloseStepOk(d, id, calls, false);
    case _ => CallOk(d, e, e.id);
  }

  lemma {:induction false} RunOk(events: seq<Event>)
    ensures Invariant(Run(Installed(), events))
    decreases |events|
  {
    if events != [] {
      RunOk(events[..|events| - 1]);
      StepOk(Run(Installed(), events[..|events| - 1]), events[|events| - 1]);
    }
  }

  // ----- What the driver promises -----

  /**
   Over all runs, whatever the USB host calls return, no listed interface has a parent that was freed;
   one without a parent waits for the user's second close, so no call reaches its missing device.
   */
  lemma NoFreedParent(events: seq<Event>, f: Iface)
    requires f in Run(Installed(), events).ifaces
    ensures f.parent.Some? ==>
      f.parent.value !in Run(Installed(), events).freed && Listed(Run(Installed(), events).devices, f.parent.value)
    ensures f.parent.None? ==> f.state == WAIT_USER_DELETION
  {
    RunOk(events);
    var d := Run(Installed(), events);
    var i :| 0 <= i < |d.ifaces| && d.ifaces[i] == f;
    if f.parent.Some? {
      var k :| 0 <= k < |d.devices| && d.devices[k].id == f.parent.value;
    }
  }

  /** The life of a listed interface: its transfer, its descriptor, its opens and its events. */
  lemma ListedInterfaceLife(events: seq<Event>, f: Iface)
    requires f in Run(Installed(), events).ifaces
    ensures f.inXfer <==> f.state in {READY, ACTIVE}
    ensures f.reportDesc ==> f.state in {READY, ACTIVE}
    ensures f.opens <= 1 && f.notified <= 1
    ensures f.closes == 0 || (f.closes == 1 && f.userCb)
  {
    RunOk(events);
    var d := Run(Installed(), events);
    var i :| 0 <= i < |d.ifaces| && d.ifaces[i] == f;
    assert IfaceOk(d.ifaces[i]);
  }

  /** An interface leaves after two successful closes with a callback installed, after one without. */
  lemma ClosesUntilRemoval(events: seq<Event>, f: Iface)
    requires f in Run(Installed(), events).left
    ensures f.closes == (if f.userCb then 2 else 1)
    ensures f.notified == (if f.userCb then 1 else 0)
    ensures !f.inXfer && !f.reportDesc && f.opens <= 1
  {
    RunOk(events);
  }

  /** Interfaces keep their number: a handle names at most one listed interface, for ever. */
  lemma HandlesAreUnique(events: seq<Event>, f: Iface, g: Iface)
    requires f in Run(Installed(), events).ifaces && g in Run(Installed(), events).ifaces && f.id == g.id
    ensures f == g
  {
    RunOk(events);
    FoundById(Run(Installed(), events), f);
    FoundById(Run(Installed(), events), g);
  }

  lemma {:induction false} CloseAllDevices(d: Driver, ids: seq<nat>, addr: nat, calls: map<nat, CloseCalls>)
    ensures CloseAll(d, ids, addr, calls).devices == d.devices
    decreases |ids|
  {
    if ids != [] {
      CloseAllDevices(d, ids[..|ids| - 1], addr, calls);
    }
  }

  lemma UninstallDetaches(d: Driver, k: nat, c: UninstallCalls)
    requires k < |d.devices|
    ensures Unreferenced(Uninstall(d, k, c), d.devices[k].id)
  {
  }

  lemma GoneIfaces(d: Driver, e: Event)
    requires e.DeviceGone? && FindHandle(d.devices, e.hdl) < |d.devices|
    ensures Unreferenced(GoneStep(d, e), d.devices[FindHandle(d.devices, e.hdl)].id)
  {
    var k := FindHandle(d.devices, e.hdl);
    CloseAllDevices(d, Ids(d.ifaces), d.devices[k].addr, e.closes);
    UninstallDetaches(CloseAll(d, Ids(d.ifaces), d.devices[k].addr, e.closes), k, e.removal);
  }

  lemma ListedOk(d: Driver, f: Iface)
    requires Invariant(d) && f in d.ifaces
    ensures IfaceOk(f)
  {
    var i :| 0 <= i < |d.ifaces| && d.ifaces[i] == f;
  }

  lemma GoneDetaches(d: Driver, e: Event, f: Iface)
    requires e.DeviceGone? && FindHandle(d.devices, e.hdl) < |d.devices|
    requires Invariant(GoneStep(d, e)) && f in GoneStep(d, e).ifaces
    ensures f.parent != Some(d.devices[FindHandle(d.devices, e.hdl)].id)
    ensures f.parent.None? ==> f.state == WAIT_USER_DELETION && !f.inXfer && !f.reportDesc
  {
    GoneIfaces(d, e);
    ListedOk(GoneStep(d, e), f);
  }

  /**
   After a disconnect, whatever fails on the way, every interface of the device that is still listed
   waits for the user, holds no transfer and no longer points to the device.
   */
  lemma DisconnectReleasesInterfaces(events: seq<Event>, e: Event, f: Iface)
    requires e.DeviceGone?
    requires var d := Run(Installed(), events); FindHandle(d.devices, e.hdl) < |d.devices|
    requires f in GoneStep(Run(Installed(), events), e).ifaces
    ensures var d := Run(Installed(), events);
      && f.parent != Some(d.devices[FindHandle(d.devices, e.hdl)].id)
      && (f.parent.None? ==> f.state == WAIT_USER_DELETION && !f.inXfer && !f.reportDesc)
  {
    RunOk(events);
    GoneOk(Run(Installed(), events), e);
    GoneDetaches(Run(Installed(), events), e, f);
  }

  // ----- The driver's own form: the two lists changed in place -----

  /** The interfaces with the first i of them looked at. */
  function PartlyDetached(ifaces: seq<Iface>, dev: nat, i: nat): (r: seq<Iface>)
    requires i <= |ifaces|
    ensures |r| == |ifaces|
  {
    Detach(ifaces, dev)[..i] + ifaces[i..]
  }

  lemma DetachNext(ifaces: seq<Iface>, dev: nat, i: nat)
    requires i < |ifaces|
    ensures PartlyDetached(ifaces, dev, i)[i] == ifaces[i]
    ensures PartlyDetached(ifaces, dev, i + 1) == PartlyDetached(ifaces, dev, i)[i := Detach(ifaces, dev)[i]]
    ensures i + 1 == |ifaces| ==> PartlyDetached(ifaces, dev, i + 1) == Detach(ifaces, dev)
  {
  }

  class HidHost {
    var devices: seq<Device>
    var ifaces: seq<Iface>
    var nextDevice: nat
    var nextIface: nat
    var freed: set<nat>
    var left: seq<Iface>

    function View(): (r: Driver)
      reads this
    {
      Driver(devices, ifaces, nextDevice, nextIface, freed, left)
    }

    constructor ()
      ensures View() == Installed()
    {
      devices, ifaces, nextDevice, nextIface, freed, left := [], [], 0, 0, {}, [];
    }

    /** get_iface_by_handle() */
    method Lookup(id: nat) returns (i: nat)
      ensures i == Find(ifaces, id)
    {
      i := 0;
      while i < |ifaces| && ifaces[i].id != id
        invariant i <= |ifaces| && Find(ifaces, id) == i + Find(ifaces[i..], id)
      {
        assert ifaces[i..][1..] == ifaces[i + 1..];
        i := i + 1;
      }
    }

    /** No interface may reach the device through its parent any more. */
    method DetachAll(dev: nat)
      modifies `ifaces
      ensures ifaces == Detach(old(ifaces), dev)
    {
      ghost var was := ifaces;
      for i := 0 to |ifaces|
        invariant |ifaces| == |was| && ifaces == PartlyDetached(was, dev, i)
      {
        DetachNext(was, dev, i);
        if ifaces[i].parent == Some(dev) {
          ifaces := ifaces[i := ifaces[i].(parent := None)];
        }
      }
    }

    /** hid_host_uninstall_device() */
    method UninstallDevice(k: nat, c: UninstallCalls)
      requires k < |devices|
      modifies this
      ensures View() == Uninstall(old(View()), k, c)
    {
      var dev := devices[k].id;
      DetachAll(dev);
      if c.inflight {
        devices := Without(devices, k);
        return;
      }
      if c.xferFreeOk && c.closeOk {
        devices := Without(devices, k);
        freed := freed + {dev};
      }
    }

    /** hid_host_interface_list_create() */
    method CreateList(dev: nat, n: nat)
      modifies this
      ensures View() == AddInterfaces(old(View()), dev, n)
    {
      for i := 0 to n
        invariant View() == AddInterfaces(old(View()), dev, i)
      {
        ifaces := ifaces + [Iface(nextIface, Some(dev), IDLE, false, false, false, 0, 0, 0)];
        nextIface := nextIface + 1;
      }
    }

    /** The cleanup loop of a failed attach: removal while walking. */
    method DropList(dev: nat)
      modifies `ifaces
      ensures ifaces == DropInterfaces(old(ifaces), dev)
    {
      var i := 0;
      while i < |ifaces|
        invariant i <= |ifaces|
        invariant ifaces[..i] + DropInterfaces(ifaces[i..], dev) == DropInterfaces(old(ifaces), dev)
      {
        ghost var rest := ifaces[i + 1..];
        assert ifaces[i..][1..] == rest;
        if ifaces[i].parent == Some(dev) {
          ifaces := Without(ifaces, i);
          assert ifaces[i..] == rest;
        } else {
          assert ifaces[..i + 1] == ifaces[..i] + [ifaces[i]];
          i := i + 1;
        }
      }
    }

    /** hid_host_device_init_attempt() */
    method InitAttempt(e: Event)
      requires e.Attach?
      modifies this
      ensures View() == AttachStep(old(View()), e)
    {
      if !e.isHid || !e.installOk {
        return;
      }
      var dev := nextDevice;
      devices := devices + [Device(dev, e.addr, e.hdl)];
      nextDevice := nextDevice + 1;
      CreateList(dev, e.found);
      if !e.listOk {
        DropList(dev);
        var k := FindDevice(devices, dev);
        if k < |devices| {
          UninstallDevice(k, e.cleanup);
        }
      }
    }

    /** hid_host_device_close_impl() under the mutex; delivered: DISCONNECTED goes to the user. */
    method CloseLocked(id: nat, c: CloseCalls, bestEffort: bool) returns (delivered: bool)
      modifies this
      ensures View() == CloseOnce(old(View()), id, c, bestEffort)
      ensures delivered <==> Find(old(ifaces), id) < |old(ifaces)|
                             && CloseIface(old(ifaces)[Find(old(ifaces), id)], c, bestEffort).Waiting?
    {
      delivered := false;
      var i := Lookup(id);
      if i == |ifaces| {
        return;
      }
      var f := ifaces[i];
      if f.state == ACTIVE {
        if !bestEffort && (f.parent.None? || !c.haltOk || !c.flushOk) {
          return;
        }
        f := f.(state := READY);
      }
      if f.state == READY {
        if !bestEffort && (f.parent.None? || !c.releaseOk) {
          ifaces := ifaces[i := f];
          return;
        }
        f := f.(state := IDLE, inXfer := false, reportDesc := false);
      }
      f := f.(closes := f.closes + 1);
      if f.userCb && f.state != WAIT_USER_DELETION {
        ifaces := ifaces[i := f.(state := WAIT_USER_DELETION, notified := f.notified + 1)];
        delivered := true;
      } else {
        left := left + [f];
        ifaces := Without(ifaces, i);
      }
    }

    /** hid_host_device_close_impl() with the callback it makes. */
    method CloseImpl(id: nat, c: CloseCalls, bestEffort: bool)
      modifies this
      ensures View() == CloseStep(old(View()), id, c, bestEffort)
    {
      var delivered := CloseLocked(id, c, bestEffort);
      if delivered && c.reenter {
        var again := CloseLocked(id, c, false);
      }
    }

    /** hid_host_device_disconnected() */
    method Disconnected(e: Event)
      requires e.DeviceGone?
      modifies this
      ensures View() == GoneStep(old(View()), e)
    {
      var k := FindHandle(devices, e.hdl);
      if k == |devices| {
        return;
      }
      var addr := devices[k].addr;
      var ids := Ids(ifaces);
      for n := 0 to |ids|
        invariant View() == CloseAll(old(View()), ids[..n], addr, e.closes)
      {
        assert ids[..n + 1][..n] == ids[..n];
        var i := Lookup(ids[n]);
        if i < |ifaces| && BelongsTo(View(), ifaces[i], addr) {
          CloseImpl(ids[n], if ids[n] in e.closes then e.closes[ids[n]] else NO_FAILURE, true);
        }
      }
      assert ids[..|ids|] == ids;
      CloseAllDevices(old(View()), ids, addr, e.closes);
      UninstallDevice(k, e.removal);
    }

    /** hid_host_device_open(), _start(), _stop() and hid_host_get_report_descriptor(). */
    method Call(e: Event)
      requires e.Open? || e.Start? || e.Stop? || e.GetReportDescriptor?
      modifies `ifaces
      ensures View() == Step(old(View()), e)
    {
      var i := Lookup(e.id);
      if i == |ifaces| {
        return;
      }
      var f := ifaces[i];
      match e {
        case Open(_, protoOk, claimOk, allocOk, callback) =>
          if protoOk && f.state == IDLE && claimOk && allocOk {
            f := f.(state := READY, inXfer := true, userCb := callback, opens := f.opens + 1);
          }
        case Start(_, submitOk) =>
          if f.inXfer && f.parent.Some? && f.state == READY && submitOk {
            f := f.(state := ACTIVE);
          }
        case Stop(_, haltOk, flushOk) =>
          if f.parent.Some? && f.state == ACTIVE && haltOk && flushOk {
            f := f.(state := READY);
          }
        case GetReportDescriptor(_, sizeOk, mallocOk, requestOk) =>
          if !f.reportDesc && (f.state == READY || f.state == ACTIVE) && sizeOk && mallocOk {
            f := f.(reportDesc := requestOk && f.parent.Some?);
          }
      }
      ifaces := ifaces[i := f];
    }

    /** One run from installation on: no listed interface ever has a freed parent. */
    method Execute(events: seq<Event>)
      requires View() == Installed()
      modifies this
      ensures View() == Run(Installed(), events)
      ensures forall f <- ifaces :: f.parent.Some? ==> f.parent.value !in freed
    {
      for n := 0 to |events|
        invariant View() == Run(Installed(), events[..n])
      {
        var e := events[n];
        assert events[..n + 1][..n] == events[..n];
        if e.Attach? {
          InitAttempt(e);
        } else if e.DeviceGone? {
          Disconnected(e);
        } else if e.Close? {
          CloseImpl(e.id, e.calls, false);
        } else {
          Call(e);
        }
      }
      assert events[..|events|] == events;
      forall f <- ifaces ensures f.parent.Some? ==> f.parent.value !in freed {
        NoFreedParent(events, f);
      }
    }
  }
}
