/**
 The network-module bay manager of the Cisco 3725 platform: the bays of one
 router, their driver binding, the driver-private handle that marks a bay as
 initialised, and each bay's list of NIO bindings (port id and NIO name).

 The NIO registry is a map from NIO name to reference count: a name absent
 from the map is a NIO that does not exist, so acquiring it fails. Driver
 callbacks are not executed; every call is recorded as an Event, and what a
 callback returns is a parameter of the operation that calls it.
 */
module Bays {
  import opened Common
  import opened Bytes
  import opened Drivers

  /** The driver-private pointer `drv_info`; `None` stands for NULL. */
  type Handle = nat

  datatype NioBinding = NioBinding(port: nat, nio: string)

  datatype Bay = Bay(
    devType: Option<string>,
    driver: Option<Driver>,
    drvInfo: Option<Handle>,
    devName: Option<string>,
    nios: seq<NioBinding>,
    eeprom: Option<seq<u16>>)

  const EmptyBay: Bay := Bay(None, None, None, None, [], None)

  /** The bays of one router (as many as C3725_MAX_NM_BAYS) and the NIO registry. */
  datatype Router = Router(bays: seq<Bay>, refs: map<string, nat>)

  /** A call into the bound driver's callback table. */
  datatype Event =
    | InitCall(bay: nat, devName: string)
    | ShutdownCall(bay: nat)
    | SetNioCall(bay: nat, port: nat, nio: string)
    | UnsetNioCall(bay: nat, port: nat)

  /** Return value, state afterwards and the driver calls made, in order. */
  datatype Outcome = Outcome(status: int, router: Router, events: seq<Event>)

  /** What the driver's `nm_init` left behind: its return value and the bay's `drv_info` when it returns. */
  datatype InitReply = InitReply(ret: int, drvInfo: Option<Handle>)

  const Failed: int := -1

  // ---------------------------------------------------------------------------
  // Helpers
  // ---------------------------------------------------------------------------

  /** Every bay other than `k` is the same in `r2` as in `r`. */
  predicate OthersKept(r: Router, r2: Router, k: nat)
  {
    |r2.bays| == |r.bays| && forall j :: 0 <= j < |r.bays| && j != k ==> r2.bays[j] == r.bays[j]
  }

  function WithBay(r: Router, k: nat, b: Bay): (r2: Router)
    requires k < |r.bays|
    ensures OthersKept(r, r2, k) && r2.bays[k] == b && r2.refs == r.refs
  {
    r.(bays := r.bays[k := b])
  }

  /** The reference count of a NIO, 0 for a NIO that does not exist. */
  function RefCount(refs: map<string, nat>, n: string): nat
  {
    if n in refs then refs[n] else 0
  }

  /** netio_release: drops one reference of an existing NIO. */
  function Release(refs: map<string, nat>, n: string): (refs2: map<string, nat>)
    ensures refs2.Keys == refs.Keys
    ensures RefCount(refs2, n) == if RefCount(refs, n) > 0 then RefCount(refs, n) - 1 else 0
    ensures forall m :: m != n ==> RefCount(refs2, m) == RefCount(refs, m)
  {
    if n in refs && refs[n] > 0 then refs[n := refs[n] - 1] else refs
  }

  /** The releases of c3725_nm_remove_all_nio_bindings, one per binding in list order. */
  function ReleaseAll(refs: map<string, nat>, nios: seq<NioBinding>): (refs2: map<string, nat>)
    ensures refs2.Keys == refs.Keys
    decreases |nios|
  {
    if |nios| == 0 then refs else ReleaseAll(Release(refs, nios[0].nio), nios[1..])
  }

  /** Number of bindings of `nios` that hold NIO `n`. */
  function CountNio(nios: seq<NioBinding>, n: string): nat
    decreases |nios|
  {
    if |nios| == 0 then 0 else (if nios[0].nio == n then 1 else 0) + CountNio(nios[1..], n)
  }

  /** `nm_set_nio` for every binding, in list order. */
  function SetEach(bay: nat, nios: seq<NioBinding>): (e: seq<Event>)
    ensures |e| == |nios|
    ensures forall i :: 0 <= i < |nios| ==> e[i] == SetNioCall(bay, nios[i].port, nios[i].nio)
    decreases |nios|
  {
    if |nios| == 0 then [] else [SetNioCall(bay, nios[0].port, nios[0].nio)] + SetEach(bay, nios[1..])
  }

  /** `nm_unset_nio` for every binding, in list order. */
  function UnsetEach(bay: nat, nios: seq<NioBinding>): (e: seq<Event>)
    ensures |e| == |nios|
    ensures forall i :: 0 <= i < |nios| ==> e[i] == UnsetNioCall(bay, nios[i].port)
    decreases |nios|
  {
    if |nios| == 0 then [] else [UnsetNioCall(bay, nios[0].port)] + UnsetEach(bay, nios[1..])
  }

  /** A bay whose driver is bound and initialised: the gate of the enable and disable operations. */
  predicate Active(b: Bay)
  {
    b.driver.Some? && b.drvInfo.Some?
  }

  // ---------------------------------------------------------------------------
  // Bay access
  // ---------------------------------------------------------------------------

  /** c3725_nm_get_info: the bay, if the index is below the bay count. */
  function GetInfo(r: Router, bay: nat): (b: Option<Bay>)
    ensures b.Some? <==> bay < |r.bays|
    ensures b.Some? ==> b.value == r.bays[bay]
  {
    if bay < |r.bays| then Some(r.bays[bay]) else None
  }

  /** c3725_nm_get_type. */
  function GetType(r: Router, bay: nat): (t: Option<string>)
    ensures t.Some? <==> bay < |r.bays| && r.bays[bay].devType.Some?
    ensures t.Some? ==> t == r.bays[bay].devType
  {
    match GetInfo(r, bay)
    case None => None
    case Some(b) => b.devType
  }

  /** c3725_nm_get_drvinfo. */
  function GetDrvInfo(r: Router, bay: nat): (h: Option<Handle>)
    ensures h.Some? <==> bay < |r.bays| && r.bays[bay].drvInfo.Some?
    ensures h.Some? ==> h == r.bays[bay].drvInfo
  {
    match GetInfo(r, bay)
    case None => None
    case Some(b) => b.drvInfo
  }

  /** c3725_nm_set_drvinfo: any bay in range, bound or not, takes the handle (NULL included). */
  function SetDrvInfo(r: Router, bay: nat, h: Option<Handle>): (o: Outcome)
    ensures o.events == []
    ensures o.status == 0 <==> bay < |r.bays|
    ensures o.status != 0 ==> o.status == Failed && o.router == r
    ensures o.status == 0 ==> OthersKept(r, o.router, bay) && o.router.refs == r.refs
                              && o.router.bays[bay] == r.bays[bay].(drvInfo := h)
  {
    if bay >= |r.bays| then Outcome(Failed, r, [])
    else Outcome(0, WithBay(r, bay, r.bays[bay].(drvInfo := h)), [])
  }

  // ---------------------------------------------------------------------------
  // Network-module binding
  // ---------------------------------------------------------------------------

  /**
   c3725_nm_add_binding. Bay 0 is accepted like any other bay in range (the
   platform binds the onboard GT96100 ports there itself); the bay must be
   empty and the device type must be in the driver table.
   */
  function AddBinding(r: Router, devType: string, bay: nat): (o: Outcome)
    ensures o.events == []
    ensures o.status == 0 <==> bay < |r.bays| && r.bays[bay].devType.None? && GetDriver(devType).Some?
    ensures o.status != 0 ==> o.status == Failed && o.router == r
    ensures o.status == 0 ==> OthersKept(r, o.router, bay) && o.router.refs == r.refs
                              && o.router.bays[bay] == r.bays[bay].(devType := Some(devType), driver := GetDriver(devType))
  {
    if bay >= |r.bays| then Outcome(Failed, r, [])
    else if r.bays[bay].devType.Some? then Outcome(Failed, r, [])
    else match GetDriver(devType)
      case None => Outcome(Failed, r, [])
      case Some(d) => Outcome(0, WithBay(r, bay, r.bays[bay].(devType := Some(d.devType), driver := Some(d))), [])
  }

  /**
   c3725_nm_remove_binding. Refused while the driver is initialised or when the
   bay is empty; otherwise every NIO binding is removed (the driver is told to
   drop each port, since it is still bound) and the type and driver are cleared.
   */
  function RemoveBinding(r: Router, bay: nat): (o: Outcome)
    ensures o.status == 0 <==> bay < |r.bays| && r.bays[bay].drvInfo.None? && r.bays[bay].devType.Some?
    ensures o.status != 0 ==> o.status == Failed && o.router == r && o.events == []
    ensures o.status == 0 ==>
              var b := r.bays[bay];
              && OthersKept(r, o.router, bay)
              && o.router.bays[bay] == b.(devType := None, driver := None, nios := [])
              && o.router.refs == ReleaseAll(r.refs, b.nios)
              && o.events == (if b.driver.Some? then UnsetEach(bay, b.nios) else [])
  {
    if bay >= |r.bays| then Outcome(Failed, r, [])
    else if r.bays[bay].drvInfo.Some? then Outcome(Failed, r, [])
    else if r.bays[bay].devType.None? then Outcome(Failed, r, [])
    else
      var cleared := RemoveAllNioBindings(r, bay);
      var b := cleared.router.bays[bay];
      Outcome(0, WithBay(cleared.router, bay, b.(devType := None, driver := None)), cleared.events)
  }

  // ---------------------------------------------------------------------------
  // NIO bindings
  // ---------------------------------------------------------------------------

  /** Position of the first binding of `port` in a bay's list. */
  function FindPort(nios: seq<NioBinding>, port: nat): (j: Option<nat>)
    ensures j.Some? ==> j.value < |nios| && nios[j.value].port == port
    ensures j.Some? ==> forall i :: 0 <= i < j.value ==> nios[i].port != port
    ensures j.None? <==> forall i :: 0 <= i < |nios| ==> nios[i].port != port
  {
    FindFirst(nios, (nb: NioBinding) => nb.port == port, 0)
  }

  /** c3725_nm_find_nio_binding. */
  function FindNioBinding(r: Router, bay: nat, port: nat): (nb: Option<NioBinding>)
    ensures nb.Some? <==> bay < |r.bays| && exists i :: 0 <= i < |r.bays[bay].nios| && r.bays[bay].nios[i].port == port
    ensures nb.Some? ==> nb.value in r.bays[bay].nios && nb.value.port == port
  {
    if bay >= |r.bays| then None
    else match FindPort(r.bays[bay].nios, port)
      case None => None
      case Some(j) => Some(r.bays[bay].nios[j])
  }

  /**
   c3725_nm_add_nio_binding. Refused when the port is already bound or the NIO
   does not exist; otherwise one reference on the NIO is taken and the binding
   goes to the head of the list. The driver is not told, even when the bay is
   active.
   */
  function AddNioBinding(r: Router, bay: nat, port: nat, nio: string): (o: Outcome)
    ensures o.events == []
    ensures o.status == 0 <==> bay < |r.bays| && FindNioBinding(r, bay, port).None? && nio in r.refs
    ensures o.status != 0 ==> o.status == Failed && o.router == r
    ensures o.status == 0 ==>
              && OthersKept(r, o.router, bay)
              && o.router.bays[bay] == r.bays[bay].(nios := [NioBinding(port, nio)] + r.bays[bay].nios)
              && o.router.refs.Keys == r.refs.Keys
              && RefCount(o.router.refs, nio) == RefCount(r.refs, nio) + 1
              && forall n :: n != nio ==> RefCount(o.router.refs, n) == RefCount(r.refs, n)
  {
    if bay >= |r.bays| then Outcome(Failed, r, [])
    else if FindPort(r.bays[bay].nios, port).Some? then Outcome(Failed, r, [])
    else if nio !in r.refs then Outcome(Failed, r, [])
    else
      var b := r.bays[bay];
      var added := WithBay(r, bay, b.(nios := [NioBinding(port, nio)] + b.nios));
      Outcome(0, added.(refs := r.refs[nio := r.refs[nio] + 1]), [])
  }

  /**
   c3725_nm_remove_nio_binding. Refused when the port is not bound; otherwise
   the driver is told to drop the port whenever one is bound (initialised or
   not), the first binding of the port is unlinked, the others keep their
   order, and one reference on its NIO is released.
   */
  function RemoveNioBinding(r: Router, bay: nat, port: nat): (o: Outcome)
    ensures o.status == 0 <==> FindNioBinding(r, bay, port).Some?
    ensures o.status != 0 ==> o.status == Failed && o.router == r && o.events == []
    ensures o.status == 0 ==>
              var b := r.bays[bay];
              && OthersKept(r, o.router, bay)
              && o.events == (if b.driver.Some? then [UnsetNioCall(bay, port)] else [])
              && exists j :: 0 <= j < |b.nios| && b.nios[j].port == port
                   && (forall i :: 0 <= i < j ==> b.nios[i].port != port)
                   && o.router.bays[bay] == b.(nios := b.nios[..j] + b.nios[j + 1..])
                   && o.router.refs == Release(r.refs, b.nios[j].nio)
  {
    if bay >= |r.bays| then Outcome(Failed, r, [])
    else
      var b := r.bays[bay];
      match FindPort(b.nios, port)
      case None => Outcome(Failed, r, [])
      case Some(j) =>
        var unlinked := WithBay(r, bay, b.(nios := b.nios[..j] + b.nios[j + 1..]));
        Outcome(0, unlinked.(refs := Release(r.refs, b.nios[j].nio)),
                if b.driver.Some? then [UnsetNioCall(bay, port)] else [])
  }

  /**
   c3725_nm_remove_all_nio_bindings: for each binding in list order the bound
   driver (if any) is told to drop the port and one reference is released;
   the list is left empty.
   */
  function RemoveAllNioBindings(r: Router, bay: nat): (o: Outcome)
    ensures o.status == 0 <==> bay < |r.bays|
    ensures o.status != 0 ==> o.status == Failed && o.router == r && o.events == []
    ensures o.status == 0 ==>
              && OthersKept(r, o.router, bay)
              && o.router.bays[bay] == r.bays[bay].(nios := [])
              && o.router.refs == ReleaseAll(r.refs, r.bays[bay].nios)
              && |o.events| == (if r.bays[bay].driver.Some? then |r.bays[bay].nios| else 0)
              && forall i :: 0 <= i < |o.events| ==> o.events[i] == UnsetNioCall(bay, r.bays[bay].nios[i].port)
  {
    if bay >= |r.bays| then Outcome(Failed, r, [])
    else
      var b := r.bays[bay];
      var emptied := WithBay(r, bay, b.(nios := []));
      Outcome(0, emptied.(refs := ReleaseAll(r.refs, b.nios)), if b.driver.Some? then UnsetEach(bay, b.nios) else [])
  }

  // ---------------------------------------------------------------------------
  // Enabling and disabling NIOs
  // ---------------------------------------------------------------------------

  /**
   c3725_nm_enable_nio: hands the port's NIO to the driver when the port is
   bound and the bay is active, and returns what the driver's `nm_set_nio`
   returned (`reply`). The bay manager's own state never changes.
   */
  function EnableNio(r: Router, bay: nat, port: nat, reply: int): (o: Outcome)
    ensures o.router == r
    ensures o.events != [] <==> FindNioBinding(r, bay, port).Some? && Active(r.bays[bay])
    ensures o.events != [] ==> o.status == reply && o.events == [SetNioCall(bay, port, FindNioBinding(r, bay, port).value.nio)]
    ensures o.events == [] ==> o.status == Failed
  {
    match FindNioBinding(r, bay, port)
    case None => Outcome(Failed, r, [])
    case Some(nb) =>
      if !Active(r.bays[bay]) then Outcome(Failed, r, [])
      else Outcome(reply, r, [SetNioCall(bay, port, nb.nio)])
  }

  /**
   c3725_nm_disable_nio: tells an active bay's driver to drop the port and
   returns its reply. Unlike enabling, it does not look the port up first.
   */
  function DisableNio(r: Router, bay: nat, port: nat, reply: int): (o: Outcome)
    ensures o.router == r
    ensures o.events != [] <==> bay < |r.bays| && Active(r.bays[bay])
    ensures o.events != [] ==> o.status == reply && o.events == [UnsetNioCall(bay, port)]
    ensures o.events == [] ==> o.status == Failed
  {
    if bay >= |r.bays| || !Active(r.bays[bay]) then Outcome(Failed, r, [])
    else Outcome(reply, r, [UnsetNioCall(bay, port)])
  }

  /** c3725_nm_enable_all_nio: one `nm_set_nio` per binding, in list order, on an active bay. */
  function EnableAllNio(r: Router, bay: nat): (o: Outcome)
    ensures o.router == r
    ensures o.status == 0 <==> bay < |r.bays| && Active(r.bays[bay])
    ensures o.status != 0 ==> o.status == Failed && o.events == []
    ensures o.status == 0 ==>
              && |o.events| == |r.bays[bay].nios|
              && forall i :: 0 <= i < |o.events| ==>
                   o.events[i] == SetNioCall(bay, r.bays[bay].nios[i].port, r.bays[bay].nios[i].nio)
  {
    if bay >= |r.bays| || !Active(r.bays[bay]) then Outcome(Failed, r, [])
    else Outcome(0, r, SetEach(bay, r.bays[bay].nios))
  }

  /** c3725_nm_disable_all_nio: one `nm_unset_nio` per binding, in list order, on an active bay. */
  function DisableAllNio(r: Router, bay: nat): (o: Outcome)
    ensures o.router == r
    ensures o.status == 0 <==> bay < |r.bays| && Active(r.bays[bay])
    ensures o.status != 0 ==> o.status == Failed && o.events == []
    ensures o.status == 0 ==>
              && |o.events| == |r.bays[bay].nios|
              && forall i :: 0 <= i < |o.events| ==> o.events[i] == UnsetNioCall(bay, r.bays[bay].nios[i].port)
  {
    if bay >= |r.bays| || !Active(r.bays[bay]) then Outcome(Failed, r, [])
    else Outcome(0, r, UnsetEach(bay, r.bays[bay].nios))
  }

  // ---------------------------------------------------------------------------
  // Initialisation and shutdown
  // ---------------------------------------------------------------------------

  /**
   The device name `snprintf(name, len, "%s(%u)", type, bay)` with
   `len = strlen(type) + 10`: at most `len - 1` characters are kept.
   */
  function DeviceName(devType: string, bay: nat): (name: string)
    ensures |devType| < |name| <= |devType| + 9
    ensures name[..|devType|] == devType && name[|devType|] == '('
  {
    var full := devType + "(" + Decimal(bay) + ")";
    if |full| <= |devType| + 9 then full else full[..|devType| + 9]
  }

  /** Bay numbers of up to seven digits are never truncated: the name is `type(bay)` in full. */
  lemma DeviceNameFull(devType: string, bay: nat)
    requires bay < Pow10(7)
    ensures DeviceName(devType, bay) == devType + "(" + Decimal(bay) + ")"
  {
    DecimalLength(bay, 7);
  }

  /** Different bays get different device names, so the name identifies the bay. */
  lemma DeviceNamesDistinct(devType: string, bay1: nat, bay2: nat)
    requires bay1 < Pow10(7) && bay2 < Pow10(7)
    requires DeviceName(devType, bay1) == DeviceName(devType, bay2)
    ensures bay1 == bay2
  {
    DeviceNameFull(devType, bay1);
    DeviceNameFull(devType, bay2);
    var n1, n2 := DeviceName(devType, bay1), DeviceName(devType, bay2);
    var d1, d2 := Decimal(bay1), Decimal(bay2);
    assert n1[|devType| + 1 .. |n1| - 1] == d1;
    assert n2[|devType| + 1 .. |n2| - 1] == d2;
    DecimalRoundTrip(bay1);
    DecimalRoundTrip(bay2);
  }

  /**
   c3725_nm_init. A bay without type or driver is refused. Otherwise the device
   name is set, the driver's `nm_init` is called, and a return value of exactly
   1 is a failure (the name stays set). On any other return every binding is
   handed to the driver, provided the driver left a handle in the bay.
   */
  function NmInit(r: Router, bay: nat, reply: InitReply): (o: Outcome)
    ensures o.status == 0 || o.status == Failed
    ensures o.status == Failed && o.events == [] <==> bay >= |r.bays| || r.bays[bay].devType.None? || r.bays[bay].driver.None?
    ensures o.events == [] <==> bay >= |r.bays| || r.bays[bay].devType.None? || r.bays[bay].driver.None?
    ensures o.events == [] ==> o.router == r
    ensures o.events != [] ==>
              var b := r.bays[bay];
              var name := DeviceName(b.devType.value, bay);
              && OthersKept(r, o.router, bay) && o.router.refs == r.refs
              && o.router.bays[bay] == b.(devName := Some(name), drvInfo := reply.drvInfo)
              && o.events[0] == InitCall(bay, name)
              && (o.status == 0 <==> reply.ret != 1)
              && (o.status != 0 || reply.drvInfo.None? ==> o.events == [InitCall(bay, name)])
              && (o.status == 0 && reply.drvInfo.Some? ==> o.events == [InitCall(bay, name)] + SetEach(bay, b.nios))
  {
    if bay >= |r.bays| then Outcome(Failed, r, [])
    else
      var b := r.bays[bay];
      if b.devType.None? || b.driver.None? then Outcome(Failed, r, [])
      else
        var name := DeviceName(b.devType.value, bay);
        var named := WithBay(r, bay, b.(devName := Some(name), drvInfo := reply.drvInfo));
        if reply.ret == 1 then Outcome(Failed, named, [InitCall(bay, name)])
        else Outcome(0, named, [InitCall(bay, name)] + EnableAllNio(named, bay).events)
  }

  /**
   c3725_nm_shutdown. A bay without type or driver is refused. Otherwise the
   bindings are withdrawn from an active driver, and the driver's
   `nm_shutdown` is called only when a handle is set; if it returns -1 the
   name and handle are kept and -1 is returned, otherwise both are cleared.
   */
  function NmShutdown(r: Router, bay: nat, ret: int): (o: Outcome)
    ensures o.status == 0 || o.status == Failed
    ensures o.status == Failed && o.events == [] <==>
              bay >= |r.bays| || r.bays[bay].devType.None? || r.bays[bay].driver.None?
    ensures o.status != 0 ==> o.router == r
    ensures bay < |r.bays| && r.bays[bay].devType.Some? && r.bays[bay].driver.Some? ==>
              var b := r.bays[bay];
              && o.events == (if b.drvInfo.Some? then UnsetEach(bay, b.nios) + [ShutdownCall(bay)] else [])
              && (o.status == 0 <==> b.drvInfo.None? || ret != -1)
              && (o.status == 0 ==> OthersKept(r, o.router, bay) && o.router.refs == r.refs
                                    && o.router.bays[bay] == b.(devName := None, drvInfo := None))
  {
    if bay >= |r.bays| then Outcome(Failed, r, [])
    else
      var b := r.bays[bay];
      if b.devType.None? || b.driver.None? then Outcome(Failed, r, [])
      else
        var withdrawn := DisableAllNio(r, bay).events;
        if b.drvInfo.Some? && ret == -1 then Outcome(Failed, r, withdrawn + [ShutdownCall(bay)])
        else
          var calls := withdrawn + (if b.drvInfo.Some? then [ShutdownCall(bay)] else []);
          Outcome(0, WithBay(r, bay, b.(devName := None, drvInfo := None)), calls)
  }

  /** A bay as c3725_nm_shutdown leaves it, given what its driver's `nm_shutdown` returns. */
  function ShutDownBay(b: Bay, ret: int): Bay
  {
    if b.devType.Some? && b.driver.Some? && (b.drvInfo.None? || ret != -1) then b.(devName := None, drvInfo := None)
    else b
  }

  /** The driver calls c3725_nm_shutdown makes for a bay. */
  function ShutdownCalls(b: Bay, bay: nat, ret: int): seq<Event>
  {
    if b.devType.Some? && b.driver.Some? && b.drvInfo.Some? then UnsetEach(bay, b.nios) + [ShutdownCall(bay)] else []
  }

  /** The driver calls made while shutting down bays 0 to n - 1, in bay order. */
  function ShutdownCallsUpTo(bays: seq<Bay>, rets: nat -> int, n: nat): seq<Event>
    requires n <= |bays|
  {
    if n == 0 then [] else ShutdownCallsUpTo(bays, rets, n - 1) + ShutdownCalls(bays[n - 1], n - 1, rets(n - 1))
  }

  /** One bay shut down from the whole router's point of view: only that bay changes. */
  method ShutdownOne(r: Router, bay: nat, ret: int) returns (o: Outcome)
    requires bay < |r.bays| && r.bays[bay].devType.Some?
    ensures OthersKept(r, o.router, bay) && o.router.refs == r.refs
    ensures o.router.bays[bay] == ShutDownBay(r.bays[bay], ret)
    ensures o.events == ShutdownCalls(r.bays[bay], bay, ret)
  {
    o := NmShutdown(r, bay, ret);
  }

  /** Bays 0 to i - 1 of `r` are shut down in `r2`, the rest and the references are untouched. */
  predicate ShutDownUpTo(r: Router, r2: Router, rets: nat -> int, i: nat)
  {
    && i <= |r.bays| == |r2.bays| && r2.refs == r.refs
    && (forall j :: 0 <= j < i ==> r2.bays[j] == ShutDownBay(r.bays[j], rets(j)))
    && (forall j :: i <= j < |r.bays| ==> r2.bays[j] == r.bays[j])
  }

  /** One round of c3725_nm_shutdown_all: bay i is shut down if it has a device type. */
  method ShutdownNext(r: Router, r2: Router, rets: nat -> int, i: nat, events: seq<Event>)
    returns (r3: Router, events3: seq<Event>)
    requires i < |r.bays| && ShutDownUpTo(r, r2, rets, i)
    requires events == ShutdownCallsUpTo(r.bays, rets, i)
    ensures ShutDownUpTo(r, r3, rets, i + 1)
    ensures events3 == ShutdownCallsUpTo(r.bays, rets, i + 1)
  {
    var b := r.bays[i];
    if b.devType.Some? {
      var o := ShutdownOne(r2, i, rets(i));
      r3, events3 := o.router, events + o.events;
    } else {
      assert ShutdownCalls(b, i, rets(i)) == [];
      r3, events3 := r2, events + [];
    }
  }

  /**
   c3725_nm_shutdown_all: every bay with a device type is shut down, in bay
   order, whatever each shutdown returns; `rets(i)` is what bay i's driver
   `nm_shutdown` returns. The result is always 0.
   */
  method NmShutdownAll(r: Router, rets: nat -> int) returns (status: int, r2: Router, events: seq<Event>)
    ensures status == 0
    ensures |r2.bays| == |r.bays| && r2.refs == r.refs
    ensures forall i :: 0 <= i < |r.bays| ==> r2.bays[i] == ShutDownBay(r.bays[i], rets(i))
    ensures events == ShutdownCallsUpTo(r.bays, rets, |r.bays|)
  {
    r2, events := r, [];
    var i := 0;
    while i < |r.bays|
      invariant ShutDownUpTo(r, r2, rets, i)
      invariant events == ShutdownCallsUpTo(r.bays, rets, i)
    {
      r2, events := ShutdownNext(r, r2, rets, i, events);
      i := i + 1;
    }
    assert i == |r.bays|;
    status := 0;
  }

  // ---------------------------------------------------------------------------
  // Bay EEPROMs and PCI devices
  // ---------------------------------------------------------------------------

  /** The bays whose EEPROM can be set, cleared or checked: not bay 0, and below the bay count. */
  predicate EepromBay(r: Router, bay: nat)
  {
    0 < bay < |r.bays|
  }

  /** c3725_nm_set_eeprom. */
  function SetEeprom(r: Router, bay: nat, data: seq<u16>): (o: Outcome)
    ensures o.events == []
    ensures o.status == 0 <==> EepromBay(r, bay)
    ensures o.status != 0 ==> o.status == Failed && o.router == r
    ensures o.status == 0 ==> OthersKept(r, o.router, bay) && o.router.refs == r.refs
                              && o.router.bays[bay] == r.bays[bay].(eeprom := Some(data))
  {
    if !EepromBay(r, bay) then Outcome(Failed, r, [])
    else Outcome(0, WithBay(r, bay, r.bays[bay].(eeprom := Some(data))), [])
  }

  /** c3725_nm_unset_eeprom. */
  function UnsetEeprom(r: Router, bay: nat): (o: Outcome)
    ensures o.events == []
    ensures o.status == 0 <==> EepromBay(r, bay)
    ensures o.status != 0 ==> o.status == Failed && o.router == r
    ensures o.status == 0 ==> OthersKept(r, o.router, bay) && o.router.refs == r.refs
                              && o.router.bays[bay] == r.bays[bay].(eeprom := None)
  {
    if !EepromBay(r, bay) then Outcome(Failed, r, [])
    else Outcome(0, WithBay(r, bay, r.bays[bay].(eeprom := None)), [])
  }

  /** c3725_nm_check_eeprom: whether a module EEPROM is present in the bay. */
  function CheckEeprom(r: Router, bay: nat): (present: bool)
    ensures present <==> EepromBay(r, bay) && r.bays[bay].eeprom.Some?
  {
    EepromBay(r, bay) && r.bays[bay].eeprom.Some?
  }

  /** c3725_nm_get_pci_device: the PCI device number of a bay's slot. */
  function GetPciDevice(bay: nat): (dev: int)
    ensures dev == -1 <==> bay != 1 && bay != 2
    ensures dev != -1 ==> dev == 2 + 4 * bay
  {
    match bay
    case 1 => 0x06
    case 2 => 0x0A
    case _ => -1
  }
}
