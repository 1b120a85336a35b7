/**
 Properties of the bay manager across operations: the well-formedness every
 operation keeps (a bay's type and driver are bound together, port ids are
 unique within a bay, and every binding is backed by a reference on its NIO),
 the reference balance (each operation changes a NIO's reference count by
 exactly as much as it changes the number of bindings holding it), the
 operations that undo one another, and one concrete session.
 */
module BayProofs {
  import opened Common
  import opened Bytes
  import opened Drivers
  import opened Bays

  // ---------------------------------------------------------------------------
  // The invariant
  // ---------------------------------------------------------------------------

  /** A bay has a type exactly when it has a driver, and the driver is the table's entry for the type. */
  predicate Coherent(b: Bay)
  {
    && (b.devType.Some? <==> b.driver.Some?)
    && (b.driver.Some? ==> b.driver.value in Table && b.devType == Some(b.driver.value.devType))
  }

  /** No port id is bound twice in one bay. */
  predicate UniquePorts(nios: seq<NioBinding>)
  {
    forall i, j :: 0 <= i < j < |nios| ==> nios[i].port != nios[j].port
  }

  /** Number of bindings, over all bays, that hold NIO `n`. */
  function Held(bays: seq<Bay>, n: string): nat
    decreases |bays|
  {
    if |bays| == 0 then 0 else CountNio(bays[0].nios, n) + Held(bays[1..], n)
  }

  /** References on `n` not accounted for by the bays (held by the rest of the emulator). */
  function Slack(r: Router, n: string): int
  {
    RefCount(r.refs, n) - Held(r.bays, n)
  }

  ghost predicate Wf(r: Router)
  {
    && (forall k :: 0 <= k < |r.bays| ==> Coherent(r.bays[k]) && UniquePorts(r.bays[k].nios))
    && (forall n :: Held(r.bays, n) <= RefCount(r.refs, n))
  }

  /** `r2` has the same NIOs as `r` and the same references on each outside the bays. */
  ghost predicate Balanced(r: Router, r2: Router)
  {
    r2.refs.Keys == r.refs.Keys && forall n :: Slack(r2, n) == Slack(r, n)
  }

  // ---------------------------------------------------------------------------
  // Counting bindings
  // ---------------------------------------------------------------------------

  lemma {:induction false} CountConcat(a: seq<NioBinding>, b: seq<NioBinding>, n: string)
    ensures CountNio(a + b, n) == CountNio(a, n) + CountNio(b, n)
    decreases |a|
  {
    if |a| > 0 {
      assert (a + b)[1..] == a[1..] + b;
      CountConcat(a[1..], b, n);
    } else {
      assert a + b == b;
    }
  }

  /** Unlinking binding j takes exactly its NIO's count down by one. */
  lemma CountUnlink(nios: seq<NioBinding>, j: nat, n: string)
    requires j < |nios|
    ensures CountNio(nios[..j] + nios[j + 1..], n) + (if nios[j].nio == n then 1 else 0) == CountNio(nios, n)
  {
    assert nios == nios[..j] + ([nios[j]] + nios[j + 1..]);
    CountConcat(nios[..j], [nios[j]] + nios[j + 1..], n);
    CountConcat(nios[..j], nios[j + 1..], n);
    assert ([nios[j]] + nios[j + 1..])[1..] == nios[j + 1..];
  }

  /** Replacing bay k changes the total by the difference of the two bays' counts. */
  lemma {:induction false} HeldUpdate(bays: seq<Bay>, k: nat, b: Bay, n: string)
    requires k < |bays|
    ensures Held(bays[k := b], n) + CountNio(bays[k].nios, n) == Held(bays, n) + CountNio(b.nios, n)
    decreases |bays|
  {
    if k > 0 {
      assert bays[k := b][1..] == bays[1..][k - 1 := b];
      HeldUpdate(bays[1..], k - 1, b, n);
    } else {
      assert bays[k := b][1..] == bays[1..];
    }
  }

  lemma HeldOthersKept(r: Router, r2: Router, k: nat, n: string)
    requires k < |r.bays| && OthersKept(r, r2, k)
    ensures Held(r2.bays, n) + CountNio(r.bays[k].nios, n) == Held(r.bays, n) + CountNio(r2.bays[k].nios, n)
  {
    assert r2.bays == r.bays[k := r2.bays[k]];
    HeldUpdate(r.bays, k, r2.bays[k], n);
  }

  /** One bay's bindings are among all bindings. */
  lemma HeldAtLeast(bays: seq<Bay>, k: nat, n: string)
    requires k < |bays|
    ensures CountNio(bays[k].nios, n) <= Held(bays, n)
  {
    HeldUpdate(bays, k, EmptyBay, n);
  }

  /** Bays with the same bindings hold the same NIOs. */
  lemma {:induction false} HeldSameNios(bays: seq<Bay>, bays2: seq<Bay>, n: string)
    requires |bays2| == |bays|
    requires forall k :: 0 <= k < |bays| ==> bays2[k].nios == bays[k].nios
    ensures Held(bays2, n) == Held(bays, n)
    decreases |bays|
  {
    if |bays| > 0 {
      HeldSameNios(bays[1..], bays2[1..], n);
    }
  }

  /** Releasing one reference per binding, when each NIO has at least that many references. */
  lemma {:induction false} ReleaseAllCount(refs: map<string, nat>, nios: seq<NioBinding>)
    requires forall m :: CountNio(nios, m) <= RefCount(refs, m)
    ensures forall m :: RefCount(ReleaseAll(refs, nios), m) == RefCount(refs, m) - CountNio(nios, m)
    decreases |nios|
  {
    if |nios| > 0 {
      var refs1 := Release(refs, nios[0].nio);
      forall m ensures CountNio(nios[1..], m) <= RefCount(refs1, m) {
        assert CountNio(nios, m) == (if nios[0].nio == m then 1 else 0) + CountNio(nios[1..], m);
      }
      ReleaseAllCount(refs1, nios[1..]);
      forall m ensures RefCount(ReleaseAll(refs, nios), m) == RefCount(refs, m) - CountNio(nios, m) {
        assert CountNio(nios, m) == (if nios[0].nio == m then 1 else 0) + CountNio(nios[1..], m);
      }
    }
  }

  // ---------------------------------------------------------------------------
  // Preservation
  // ---------------------------------------------------------------------------

  /**
   The common step: an operation that rewrites one bay into a coherent bay with
   unique ports, and moves each NIO's reference count by the change in that
   bay's bindings, keeps the invariant and the balance.
   */
  lemma BayChange(r: Router, r2: Router, k: nat)
    requires Wf(r) && k < |r.bays| && OthersKept(r, r2, k)
    requires Coherent(r2.bays[k]) && UniquePorts(r2.bays[k].nios)
    requires r2.refs.Keys == r.refs.Keys
    requires forall n :: RefCount(r2.refs, n) + CountNio(r.bays[k].nios, n) == RefCount(r.refs, n) + CountNio(r2.bays[k].nios, n)
    ensures Wf(r2) && Balanced(r, r2)
  {
    forall n ensures Slack(r2, n) == Slack(r, n) {
      HeldOthersKept(r, r2, k, n);
    }
    forall n ensures Held(r2.bays, n) <= RefCount(r2.refs, n) {
      assert Slack(r2, n) == Slack(r, n);
    }
    forall j | 0 <= j < |r2.bays| ensures Coherent(r2.bays[j]) && UniquePorts(r2.bays[j].nios) {
      if j != k {
        assert r2.bays[j] == r.bays[j];
      }
    }
  }

  /** An operation that leaves every bay's type, driver and bindings, and the references, as they were. */
  lemma BindingsKept(r: Router, r2: Router, k: nat)
    requires Wf(r) && k < |r.bays| && OthersKept(r, r2, k) && r2.refs == r.refs
    requires r2.bays[k].devType == r.bays[k].devType && r2.bays[k].driver == r.bays[k].driver
    requires r2.bays[k].nios == r.bays[k].nios
    ensures Wf(r2) && Balanced(r, r2)
  {
    BayChange(r, r2, k);
  }

  lemma AddBindingKeepsWf(r: Router, devType: string, bay: nat)
    requires Wf(r)
    ensures Wf(AddBinding(r, devType, bay).router) && Balanced(r, AddBinding(r, devType, bay).router)
  {
    var o := AddBinding(r, devType, bay);
    if o.status == 0 {
      BayChange(r, o.router, bay);
    }
  }

  lemma RemoveBindingKeepsWf(r: Router, bay: nat)
    requires Wf(r)
    ensures Wf(RemoveBinding(r, bay).router) && Balanced(r, RemoveBinding(r, bay).router)
  {
    var o := RemoveBinding(r, bay);
    if o.status == 0 {
      ReleaseBay(r, bay);
      BayChange(r, o.router, bay);
    }
  }

  lemma RemoveAllKeepsWf(r: Router, bay: nat)
    requires Wf(r)
    ensures Wf(RemoveAllNioBindings(r, bay).router) && Balanced(r, RemoveAllNioBindings(r, bay).router)
  {
    var o := RemoveAllNioBindings(r, bay);
    if o.status == 0 {
      ReleaseBay(r, bay);
      BayChange(r, o.router, bay);
    }
  }

  /** Releasing all of a bay's bindings takes each NIO's count down by the bay's holdings. */
  lemma ReleaseBay(r: Router, bay: nat)
    requires Wf(r) && bay < |r.bays|
    ensures forall n :: RefCount(ReleaseAll(r.refs, r.bays[bay].nios), n) == RefCount(r.refs, n) - CountNio(r.bays[bay].nios, n)
  {
    forall m ensures CountNio(r.bays[bay].nios, m) <= RefCount(r.refs, m) {
      HeldAtLeast(r.bays, bay, m);
    }
    ReleaseAllCount(r.refs, r.bays[bay].nios);
  }

  lemma AddNioKeepsWf(r: Router, bay: nat, port: nat, nio: string)
    requires Wf(r)
    ensures Wf(AddNioBinding(r, bay, port, nio).router) && Balanced(r, AddNioBinding(r, bay, port, nio).router)
  {
    var o := AddNioBinding(r, bay, port, nio);
    if o.status == 0 {
      var nios := r.bays[bay].nios;
      var nios2 := o.router.bays[bay].nios;
      assert nios2[1..] == nios;
      assert UniquePorts(nios2) by {
        assert forall i :: 0 <= i < |nios| ==> nios[i].port != port;
        forall i, j | 0 <= i < j < |nios2| ensures nios2[i].port != nios2[j].port {
          assert nios2[j] == nios[j - 1];
          if i > 0 {
            assert nios2[i] == nios[i - 1];
          }
        }
      }
      BayChange(r, o.router, bay);
    }
  }

  lemma RemoveNioKeepsWf(r: Router, bay: nat, port: nat)
    requires Wf(r)
    ensures Wf(RemoveNioBinding(r, bay, port).router) && Balanced(r, RemoveNioBinding(r, bay, port).router)
  {
    var o := RemoveNioBinding(r, bay, port);
    if o.status == 0 {
      var b := r.bays[bay];
      var j :| 0 <= j < |b.nios| && b.nios[j].port == port
                && o.router.bays[bay] == b.(nios := b.nios[..j] + b.nios[j + 1..])
                && o.router.refs == Release(r.refs, b.nios[j].nio);
      UnlinkKeepsWf(r, o.router, bay, j);
    }
  }

  /** Unlinking binding j of a bay and releasing one reference on its NIO. */
  lemma UnlinkKeepsWf(r: Router, r2: Router, bay: nat, j: nat)
    requires Wf(r) && bay < |r.bays| && j < |r.bays[bay].nios|
    requires OthersKept(r, r2, bay)
    requires r2.bays[bay] == r.bays[bay].(nios := r.bays[bay].nios[..j] + r.bays[bay].nios[j + 1..])
    requires r2.refs == Release(r.refs, r.bays[bay].nios[j].nio)
    ensures Wf(r2) && Balanced(r, r2)
  {
    var nios := r.bays[bay].nios;
    UnlinkUnique(nios, j);
    forall n ensures RefCount(r2.refs, n) + CountNio(nios, n) == RefCount(r.refs, n) + CountNio(r2.bays[bay].nios, n) {
      CountUnlink(nios, j, n);
      HeldAtLeast(r.bays, bay, n);
    }
    BayChange(r, r2, bay);
  }

  /** Unlinking one binding keeps the ports unique. */
  lemma UnlinkUnique(nios: seq<NioBinding>, j: nat)
    requires j < |nios| && UniquePorts(nios)
    ensures UniquePorts(nios[..j] + nios[j + 1..])
  {
    var rest := nios[..j] + nios[j + 1..];
    forall a, b | 0 <= a < b < |rest| ensures rest[a].port != rest[b].port {
      var a0 := if a < j then a else a + 1;
      var b0 := if b < j then b else b + 1;
      assert rest[a] == nios[a0] && rest[b] == nios[b0];
    }
  }

  lemma SetDrvInfoKeepsWf(r: Router, bay: nat, h: Option<Handle>)
    requires Wf(r)
    ensures Wf(SetDrvInfo(r, bay, h).router) && Balanced(r, SetDrvInfo(r, bay, h).router)
  {
    if bay < |r.bays| {
      BindingsKept(r, SetDrvInfo(r, bay, h).router, bay);
    }
  }

  lemma NmInitKeepsWf(r: Router, bay: nat, reply: InitReply)
    requires Wf(r)
    ensures Wf(NmInit(r, bay, reply).router) && Balanced(r, NmInit(r, bay, reply).router)
  {
    var o := NmInit(r, bay, reply);
    if o.events != [] {
      BindingsKept(r, o.router, bay);
    }
  }

  lemma NmShutdownKeepsWf(r: Router, bay: nat, ret: int)
    requires Wf(r)
    ensures Wf(NmShutdown(r, bay, ret).router) && Balanced(r, NmShutdown(r, bay, ret).router)
  {
    var o := NmShutdown(r, bay, ret);
    if o.status == 0 {
      BindingsKept(r, o.router, bay);
    }
  }

  /** c3725_nm_shutdown_all keeps the invariant: shutting a bay down never touches its type, driver or bindings. */
  lemma ShutdownAllKeepsWf(r: Router, r2: Router, rets: nat -> int)
    requires Wf(r)
    requires |r2.bays| == |r.bays| && r2.refs == r.refs
    requires forall i :: 0 <= i < |r.bays| ==> r2.bays[i] == ShutDownBay(r.bays[i], rets(i))
    ensures Wf(r2) && Balanced(r, r2)
  {
    forall n ensures Held(r2.bays, n) == Held(r.bays, n) {
      HeldSameNios(r.bays, r2.bays, n);
    }
    forall k | 0 <= k < |r2.bays| ensures Coherent(r2.bays[k]) && UniquePorts(r2.bays[k].nios) {
      assert r2.bays[k] == ShutDownBay(r.bays[k], rets(k));
    }
  }

  lemma SetEepromKeepsWf(r: Router, bay: nat, data: seq<u16>)
    requires Wf(r)
    ensures Wf(SetEeprom(r, bay, data).router) && Balanced(r, SetEeprom(r, bay, data).router)
  {
    if EepromBay(r, bay) {
      BindingsKept(r, SetEeprom(r, bay, data).router, bay);
    }
  }

  lemma UnsetEepromKeepsWf(r: Router, bay: nat)
    requires Wf(r)
    ensures Wf(UnsetEeprom(r, bay).router) && Balanced(r, UnsetEeprom(r, bay).router)
  {
    if EepromBay(r, bay) {
      BindingsKept(r, UnsetEeprom(r, bay).router, bay);
    }
  }

  /** A router whose bays are all empty is well formed, whatever the NIO registry holds. */
  lemma {:induction false} EmptyBaysHoldNothing(count: nat, n: string)
    ensures Held(seq(count, _ => EmptyBay), n) == 0
  {
    if count > 0 {
      assert seq(count, _ => EmptyBay)[1..] == seq(count - 1, _ => EmptyBay);
      EmptyBaysHoldNothing(count - 1, n);
    }
  }

  lemma FreshRouterWf(count: nat, refs: map<string, nat>)
    ensures Wf(Router(seq(count, _ => EmptyBay), refs))
  {
    var bays := seq(count, _ => EmptyBay);
    forall n ensures Held(bays, n) == 0 {
      EmptyBaysHoldNothing(count, n);
    }
  }

  // ---------------------------------------------------------------------------
  // Operations that undo one another
  // ---------------------------------------------------------------------------

  /** Adding a NIO binding and removing the same port again gives back the router, references included. */
  lemma AddRemoveNioRoundTrip(r: Router, bay: nat, port: nat, nio: string)
    requires AddNioBinding(r, bay, port, nio).status == 0
    ensures RemoveNioBinding(AddNioBinding(r, bay, port, nio).router, bay, port).status == 0
    ensures RemoveNioBinding(AddNioBinding(r, bay, port, nio).router, bay, port).router == r
  {
    var a := AddNioBinding(r, bay, port, nio).router;
    RemoveHead(a, bay, port);
    var o := RemoveNioBinding(a, bay, port);
    assert a.bays[bay].nios[1..] == r.bays[bay].nios;
    assert o.router.bays == r.bays;
    assert a.refs == r.refs[nio := r.refs[nio] + 1] && a.bays[bay].nios[0].nio == nio;
    ReleaseUndoesAcquire(r.refs, nio);
    assert o.router.refs == r.refs;
  }

  /** The driver hears of that round trip only through the unbinding, and only when a driver is bound. */
  lemma AddRemoveNioCalls(r: Router, bay: nat, port: nat, nio: string)
    requires AddNioBinding(r, bay, port, nio).status == 0
    ensures AddNioBinding(r, bay, port, nio).events + RemoveNioBinding(AddNioBinding(r, bay, port, nio).router, bay, port).events
            == if r.bays[bay].driver.Some? then [UnsetNioCall(bay, port)] else []
  {
    RemoveHead(AddNioBinding(r, bay, port, nio).router, bay, port);
  }

  /** Removing the port of the first binding unlinks that binding. */
  lemma RemoveHead(a: Router, bay: nat, port: nat)
    requires bay < |a.bays| && |a.bays[bay].nios| > 0 && a.bays[bay].nios[0].port == port
    ensures RemoveNioBinding(a, bay, port).status == 0
    ensures OthersKept(a, RemoveNioBinding(a, bay, port).router, bay)
    ensures RemoveNioBinding(a, bay, port).router.bays[bay] == a.bays[bay].(nios := a.bays[bay].nios[1..])
    ensures RemoveNioBinding(a, bay, port).router.refs == Release(a.refs, a.bays[bay].nios[0].nio)
    ensures RemoveNioBinding(a, bay, port).events == if a.bays[bay].driver.Some? then [UnsetNioCall(bay, port)] else []
  {
    var nios := a.bays[bay].nios;
    assert FindPort(nios, port) == Some(0);
    assert nios[..0] + nios[1..] == nios[1..];
  }

  /** Releasing the reference just taken on a NIO restores the registry. */
  lemma ReleaseUndoesAcquire(refs: map<string, nat>, nio: string)
    requires nio in refs
    ensures Release(refs[nio := refs[nio] + 1], nio) == refs
  {
    var refs2 := Release(refs[nio := refs[nio] + 1], nio);
    assert forall m :: m in refs2 ==> refs2[m] == RefCount(refs2, m);
  }

  /** The bindings of `nios` on ports other than `port`, in order. */
  function Without(nios: seq<NioBinding>, port: nat): seq<NioBinding>
    decreases |nios|
  {
    if |nios| == 0 then []
    else if nios[0].port == port then Without(nios[1..], port)
    else [nios[0]] + Without(nios[1..], port)
  }

  /** With unique ports, unlinking the binding of a port is filtering the port out. */
  lemma {:induction false} UnlinkIsWithout(nios: seq<NioBinding>, j: nat)
    requires UniquePorts(nios) && j < |nios|
    ensures nios[..j] + nios[j + 1..] == Without(nios, nios[j].port)
    decreases |nios|
  {
    var port := nios[j].port;
    if j == 0 {
      NoPortNoChange(nios[1..], port);
    } else {
      UnlinkIsWithout(nios[1..], j - 1);
      assert nios[1..][j - 1] == nios[j];
      assert nios[..j] + nios[j + 1..] == [nios[0]] + (nios[1..][..j - 1] + nios[1..][j..]);
    }
  }

  /** Filtering out a port that is not bound changes nothing. */
  lemma {:induction false} NoPortNoChange(nios: seq<NioBinding>, port: nat)
    requires forall i :: 0 <= i < |nios| ==> nios[i].port != port
    ensures Without(nios, port) == nios
    decreases |nios|
  {
    if |nios| > 0 {
      NoPortNoChange(nios[1..], port);
    }
  }

  /** In a well-formed router, c3725_nm_remove_nio_binding leaves the bay's other bindings, in order. */
  lemma RemoveNioFilters(r: Router, bay: nat, port: nat)
    requires Wf(r)
    requires RemoveNioBinding(r, bay, port).status == 0
    ensures RemoveNioBinding(r, bay, port).router.bays[bay].nios == Without(r.bays[bay].nios, port)
  {
    var o := RemoveNioBinding(r, bay, port);
    var b := r.bays[bay];
    var j :| 0 <= j < |b.nios| && b.nios[j].port == port
              && o.router.bays[bay] == b.(nios := b.nios[..j] + b.nios[j + 1..]);
    UnlinkIsWithout(b.nios, j);
  }

  /**
   Binding a module to a bay with no NIO bindings and unbinding it again gives
   back the router, without any driver call.
   */
  lemma BindUnbindRoundTrip(r: Router, devType: string, bay: nat)
    requires Wf(r)
    requires AddBinding(r, devType, bay).status == 0
    requires r.bays[bay].nios == [] && r.bays[bay].drvInfo.None?
    ensures RemoveBinding(AddBinding(r, devType, bay).router, bay) == Outcome(0, r, [])
  {
    var a := AddBinding(r, devType, bay).router;
    var o := RemoveBinding(a, bay);
    assert Coherent(r.bays[bay]);
    assert o.router.bays[bay] == r.bays[bay];
    assert o.router.bays == r.bays;
  }

  /**
   Initialising a bay that has never been initialised and shutting it down
   again, with both driver calls succeeding, gives back the router.
   */
  lemma InitShutdownRoundTrip(r: Router, bay: nat, reply: InitReply, ret: int)
    requires NmInit(r, bay, reply).status == 0
    requires r.bays[bay].devName.None? && r.bays[bay].drvInfo.None?
    requires reply.drvInfo.None? || ret != -1
    ensures NmShutdown(NmInit(r, bay, reply).router, bay, ret).status == 0
    ensures NmShutdown(NmInit(r, bay, reply).router, bay, ret).router == r
  {
    var b := r.bays[bay];
    var named := NmInit(r, bay, reply).router;
    assert named.bays[bay] == b.(devName := Some(DeviceName(b.devType.value, bay)), drvInfo := reply.drvInfo);
    var s := NmShutdown(named, bay, ret);
    assert s.router.bays[bay] == b;
    assert s.router.bays == r.bays;
  }

  /**
   The driver calls of that round trip: the init call, then, when the driver
   left a handle, every binding handed over and withdrawn in list order, and
   the shutdown call.
   */
  lemma InitShutdownCalls(r: Router, bay: nat, reply: InitReply, ret: int)
    requires NmInit(r, bay, reply).status == 0
    requires r.bays[bay].drvInfo.None?
    ensures NmInit(r, bay, reply).events + NmShutdown(NmInit(r, bay, reply).router, bay, ret).events
            == [InitCall(bay, DeviceName(r.bays[bay].devType.value, bay))]
               + (if reply.drvInfo.Some?
                  then SetEach(bay, r.bays[bay].nios) + UnsetEach(bay, r.bays[bay].nios) + [ShutdownCall(bay)]
                  else [])
  {
    var b := r.bays[bay];
    var name := DeviceName(b.devType.value, bay);
    var i := NmInit(r, bay, reply);
    InitRecorded(r, bay, reply);
    ShutdownRecorded(i.router, bay, ret);
    var handed := if reply.drvInfo.Some? then SetEach(bay, b.nios) else [];
    var withdrawn := if reply.drvInfo.Some? then UnsetEach(bay, b.nios) + [ShutdownCall(bay)] else [];
    AppendAssoc([InitCall(bay, name)], handed, withdrawn);
  }

  /** What a successful c3725_nm_init leaves in the bay and tells the driver. */
  lemma InitRecorded(r: Router, bay: nat, reply: InitReply)
    requires NmInit(r, bay, reply).status == 0
    ensures NmInit(r, bay, reply).router.bays[bay]
            == r.bays[bay].(devName := Some(DeviceName(r.bays[bay].devType.value, bay)), drvInfo := reply.drvInfo)
    ensures NmInit(r, bay, reply).events
            == [InitCall(bay, DeviceName(r.bays[bay].devType.value, bay))]
               + (if reply.drvInfo.Some? then SetEach(bay, r.bays[bay].nios) else [])
  {
    if reply.drvInfo.None? {
      assert [InitCall(bay, DeviceName(r.bays[bay].devType.value, bay))] + [] == [InitCall(bay, DeviceName(r.bays[bay].devType.value, bay))];
    }
  }

  /** The driver calls c3725_nm_shutdown makes on a bound bay, whatever the driver returns. */
  lemma ShutdownRecorded(r: Router, bay: nat, ret: int)
    requires bay < |r.bays| && r.bays[bay].devType.Some? && r.bays[bay].driver.Some?
    ensures NmShutdown(r, bay, ret).events
            == if r.bays[bay].drvInfo.Some? then UnsetEach(bay, r.bays[bay].nios) + [ShutdownCall(bay)] else []
  {
  }

  // ---------------------------------------------------------------------------
  // Accessors against the operations that set what they read
  // ---------------------------------------------------------------------------

  /** The handle stored by SetDrvInfo is what GetDrvInfo and GetInfo then see in that bay, and only there. */
  lemma DrvInfoReadBack(r: Router, bay: nat, h: Option<Handle>, other: nat)
    requires bay < |r.bays|
    ensures GetDrvInfo(SetDrvInfo(r, bay, h).router, bay) == h
    ensures GetInfo(SetDrvInfo(r, bay, h).router, bay) == Some(r.bays[bay].(drvInfo := h))
    ensures other != bay ==> GetDrvInfo(SetDrvInfo(r, bay, h).router, other) == GetDrvInfo(r, other)
  {
  }

  /** A successful bind makes GetType report the bound type and GetInfo the driver; a successful unbind clears both. */
  lemma TypeReadBack(r: Router, devType: string, bay: nat)
    ensures AddBinding(r, devType, bay).status == 0 ==>
              && GetType(AddBinding(r, devType, bay).router, bay) == Some(devType)
              && GetInfo(AddBinding(r, devType, bay).router, bay).value.driver == GetDriver(devType)
    ensures AddBinding(r, devType, bay).status != 0 && bay < |r.bays| ==>
              GetType(AddBinding(r, devType, bay).router, bay) == GetType(r, bay)
    ensures RemoveBinding(r, bay).status == 0 ==>
              && GetType(RemoveBinding(r, bay).router, bay) == None
              && GetDrvInfo(RemoveBinding(r, bay).router, bay) == None
              && GetInfo(RemoveBinding(r, bay).router, bay).value.nios == []
  {
  }

  /** CheckEeprom sees an EEPROM after SetEeprom and none after UnsetEeprom, on every bay the two accept; on the others it is always false. */
  lemma EepromPresence(r: Router, bay: nat, data: seq<u16>)
    ensures EepromBay(r, bay) ==> CheckEeprom(SetEeprom(r, bay, data).router, bay)
    ensures !CheckEeprom(UnsetEeprom(r, bay).router, bay)
    ensures !EepromBay(r, bay) ==> !CheckEeprom(SetEeprom(r, bay, data).router, bay) && !CheckEeprom(r, bay)
  {
  }

  // ---------------------------------------------------------------------------
  // One session
  // ---------------------------------------------------------------------------

  /** The session's bay 1: typed, with one binding, then initialised. */
  const Typed: Bay := EmptyBay.(devType := Some("NM-1FE-TX"), driver := Some(Driver("NM-1FE-TX")))
  const Wired: Bay := Typed.(nios := [NioBinding(0, "tapA")])
  const Running: Bay := Wired.(devName := Some("NM-1FE-TX(1)"), drvInfo := Some(7))

  lemma SessionBind()
    ensures AddBinding(Router([EmptyBay, EmptyBay], map["tapA" := 0]), "NM-1FE-TX", 1)
            == Outcome(0, Router([EmptyBay, Typed], map["tapA" := 0]), [])
  {
    GetDriverOfTable(0);
  }

  lemma SessionAttach()
    ensures AddNioBinding(Router([EmptyBay, Typed], map["tapA" := 0]), 1, 0, "tapA")
            == Outcome(0, Router([EmptyBay, Wired], map["tapA" := 1]), [])
  {
    assert FindPort(Typed.nios, 0).None?;
    assert [NioBinding(0, "tapA")] + Typed.nios == Wired.nios;
    assert [EmptyBay, Typed][1 := Wired] == [EmptyBay, Wired];
    assert map["tapA" := 0]["tapA" := 1] == map["tapA" := 1];
  }

  lemma SessionInit()
    ensures NmInit(Router([EmptyBay, Wired], map["tapA" := 1]), 1, InitReply(0, Some(7)))
            == Outcome(0, Router([EmptyBay, Running], map["tapA" := 1]),
                       [InitCall(1, "NM-1FE-TX(1)"), SetNioCall(1, 0, "tapA")])
  {
    DeviceNameFull("NM-1FE-TX", 1);
    assert Decimal(1) == "1";
    assert DeviceName("NM-1FE-TX", 1) == "NM-1FE-TX(1)";
    var named := Router([EmptyBay, Running], map["tapA" := 1]);
    assert [EmptyBay, Wired][1 := Running] == named.bays;
    assert SetEach(1, Wired.nios) == [SetNioCall(1, 0, "tapA")];
    assert EnableAllNio(named, 1).events == [SetNioCall(1, 0, "tapA")];
  }

  lemma SessionShutdown()
    ensures NmShutdown(Router([EmptyBay, Running], map["tapA" := 1]), 1, 0)
            == Outcome(0, Router([EmptyBay, Wired], map["tapA" := 1]), [UnsetNioCall(1, 0), ShutdownCall(1)])
  {
  }

  lemma SessionUnbind()
    ensures RemoveBinding(Router([EmptyBay, Wired], map["tapA" := 1]), 1)
            == Outcome(0, Router([EmptyBay, EmptyBay], map["tapA" := 0]), [UnsetNioCall(1, 0)])
  {
    assert map["tapA" := 1]["tapA" := 0] == map["tapA" := 0];
    assert ReleaseAll(map["tapA" := 1], Wired.nios) == map["tapA" := 0];
  }

  /**
   A module in bay 1 with one NIO bound to port 0: binding, initialising,
   shutting down and unbinding it makes exactly the driver calls below and
   leaves the router as it started, with the NIO's reference returned.
   */
  lemma FastEthernetSession()
    ensures var r0 := Router([EmptyBay, EmptyBay], map["tapA" := 0]);
            var o1 := AddBinding(r0, "NM-1FE-TX", 1);
            var o2 := AddNioBinding(o1.router, 1, 0, "tapA");
            var o3 := NmInit(o2.router, 1, InitReply(0, Some(7)));
            var o4 := NmShutdown(o3.router, 1, 0);
            var o5 := RemoveBinding(o4.router, 1);
            && o1.status == 0 && o2.status == 0 && o3.status == 0 && o4.status == 0 && o5.status == 0
            && RefCount(o2.router.refs, "tapA") == 1
            && o3.events == [InitCall(1, "NM-1FE-TX(1)"), SetNioCall(1, 0, "tapA")]
            && o4.events == [UnsetNioCall(1, 0), ShutdownCall(1)]
            && o5.events == [UnsetNioCall(1, 0)]
            && o5.router == r0
  {
    SessionBind();
    SessionAttach();
    SessionInit();
    SessionShutdown();
    SessionUnbind();
  }

  /** Bay 0 takes a module like any other (the platform puts its onboard ports there); a taken bay is refused. */
  lemma OnboardBaySession()
    ensures var r0 := Router([EmptyBay, EmptyBay], map[]);
            var o1 := AddBinding(r0, OnboardType, 0);
            && o1.status == 0
            && o1.router.bays[0].driver == Some(Driver(OnboardType))
            && AddBinding(o1.router, "NM-4T", 0).status == Failed
            && AddBinding(o1.router, "NM-8T", 1).status == Failed
  {
    OnboardDriverKnown();
    var r0 := Router([EmptyBay, EmptyBay], map[]);
    var o1 := AddBinding(r0, OnboardType, 0);
    assert forall j :: 0 <= j < |Table| ==> Table[j].devType != "NM-8T";
  }
}
