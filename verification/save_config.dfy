/**
 The network-module part of c3725_save_config: for each bay in order, an
 `add_nm_binding` command when the bay has a module type, then one
 `add_nio_binding` command per NIO binding in list order (bays without a type
 still get their binding commands). Replaying those commands with
 c3725_nm_add_binding and c3725_nm_add_nio_binding on a router with empty
 bays restores every bay's type, driver and bindings, the bindings in reverse
 order, because each added binding goes to the head of its list.
 */
module SaveConfig {
  import opened Common
  import opened Drivers
  import opened Bays
  import opened BayProofs

  /** One saved hypervisor command, before it is formatted as a line of text. */
  datatype Command =
    | AddNm(vm: string, bay: nat, devType: string)
    | AddNio(vm: string, bay: nat, port: nat, nio: string)

  /** The binding commands of one bay's NIO list, in list order. */
  function NioLines(vm: string, k: nat, nios: seq<NioBinding>): (cmds: seq<Command>)
    ensures |cmds| == |nios|
    ensures forall i :: 0 <= i < |nios| ==> cmds[i] == AddNio(vm, k, nios[i].port, nios[i].nio)
    decreases |nios|
  {
    if |nios| == 0 then [] else [AddNio(vm, k, nios[0].port, nios[0].nio)] + NioLines(vm, k, nios[1..])
  }

  /** The commands saved for bay k. */
  function BayLines(vm: string, k: nat, b: Bay): seq<Command>
  {
    (if b.devType.Some? then [AddNm(vm, k, b.devType.value)] else []) + NioLines(vm, k, b.nios)
  }

  /** The commands saved for bays 0 to n - 1, in bay order. */
  function NmConfigUpTo(vm: string, bays: seq<Bay>, n: nat): seq<Command>
    requires n <= |bays|
  {
    if n == 0 then [] else NmConfigUpTo(vm, bays, n - 1) + BayLines(vm, n - 1, bays[n - 1])
  }

  /** The network-module lines of c3725_save_config. */
  function NmConfig(vm: string, r: Router): seq<Command>
  {
    NmConfigUpTo(vm, r.bays, |r.bays|)
  }

  /** Number of bays with a module type plus number of NIO bindings, over bays 0 to n - 1. */
  function Saved(bays: seq<Bay>, n: nat): nat
    requires n <= |bays|
  {
    if n == 0 then 0 else Saved(bays, n - 1) + (if bays[n - 1].devType.Some? then 1 else 0) + |bays[n - 1].nios|
  }

  /** One line per typed bay and one per binding. */
  lemma {:induction false} NmConfigLength(vm: string, bays: seq<Bay>, n: nat)
    requires n <= |bays|
    ensures |NmConfigUpTo(vm, bays, n)| == Saved(bays, n)
  {
    if n > 0 {
      NmConfigLength(vm, bays, n - 1);
      var b := bays[n - 1];
      assert |BayLines(vm, n - 1, b)| == (if b.devType.Some? then 1 else 0) + |b.nios|;
    }
  }

  // ---------------------------------------------------------------------------
  // Replaying the saved commands
  // ---------------------------------------------------------------------------

  /** Running one saved command through the bay manager, whatever it returns. */
  function Run(r: Router, c: Command): Router
  {
    match c
    case AddNm(_, bay, devType) => AddBinding(r, devType, bay).router
    case AddNio(_, bay, port, nio) => AddNioBinding(r, bay, port, nio).router
  }

  /** Running saved commands in order. */
  function Replay(r: Router, cmds: seq<Command>): Router
    decreases |cmds|
  {
    if |cmds| == 0 then r else Replay(Run(r, cmds[0]), cmds[1..])
  }

  lemma {:induction false} ReplayConcat(r: Router, a: seq<Command>, b: seq<Command>)
    ensures Replay(r, a + b) == Replay(Replay(r, a), b)
    decreases |a|
  {
    if |a| == 0 {
      assert a + b == b;
    } else {
      assert (a + b)[0] == a[0] && (a + b)[1..] == a[1..] + b;
      ReplayConcat(Run(r, a[0]), a[1..], b);
    }
  }

  function Reverse<T>(s: seq<T>): (t: seq<T>)
    ensures |t| == |s|
    decreases |s|
  {
    if |s| == 0 then [] else Reverse(s[1..]) + [s[0]]
  }

  /** Position i of the reversal is position |s| - 1 - i of the original. */
  lemma {:induction false} ReverseIndex<T>(s: seq<T>, i: nat)
    requires i < |s|
    ensures Reverse(s)[i] == s[|s| - 1 - i]
    decreases |s|
  {
    if i < |s| - 1 {
      ReverseIndex(s[1..], i);
    }
  }

  lemma ReverseReverse<T>(s: seq<T>)
    ensures Reverse(Reverse(s)) == s
  {
    forall i | 0 <= i < |s| ensures Reverse(Reverse(s))[i] == s[i] {
      ReverseIndex(Reverse(s), i);
      ReverseIndex(s, |s| - 1 - i);
    }
  }

  /** What a bay looks like after its saved commands are replayed on an empty bay. */
  function Restored(b: Bay): Bay
  {
    EmptyBay.(devType := b.devType, driver := b.driver, nios := Reverse(b.nios))
  }

  /** Ports of `nios` that are none of the ports of `bound`. */
  predicate PortsFree(nios: seq<NioBinding>, bound: seq<NioBinding>)
  {
    forall i, j :: 0 <= i < |nios| && 0 <= j < |bound| ==> nios[i].port != bound[j].port
  }

  /**
   Replaying a bay's binding commands on a bay whose bound ports are all
   different from them prepends the bindings in reverse order and takes one
   reference on each NIO.
   */
  lemma {:induction false} ReplayNios(r: Router, vm: string, k: nat, nios: seq<NioBinding>)
    requires k < |r.bays|
    requires UniquePorts(nios) && PortsFree(nios, r.bays[k].nios)
    requires forall i :: 0 <= i < |nios| ==> nios[i].nio in r.refs
    ensures OthersKept(r, Replay(r, NioLines(vm, k, nios)), k)
    ensures Replay(r, NioLines(vm, k, nios)).bays[k] == r.bays[k].(nios := Reverse(nios) + r.bays[k].nios)
    ensures Replay(r, NioLines(vm, k, nios)).refs.Keys == r.refs.Keys
    decreases |nios|
  {
    if |nios| == 0 {
      assert r.bays[k].(nios := Reverse(nios) + r.bays[k].nios) == r.bays[k];
    } else {
      var nb := nios[0];
      var o := AddNioBinding(r, k, nb.port, nb.nio);
      assert FindNioBinding(r, k, nb.port).None?;
      var r1 := o.router;
      assert r1.bays[k].nios == [nb] + r.bays[k].nios;
      assert PortsFree(nios[1..], r1.bays[k].nios) by {
        forall i, j | 0 <= i < |nios[1..]| && 0 <= j < |r1.bays[k].nios|
          ensures nios[1..][i].port != r1.bays[k].nios[j].port
        {
          if j > 0 {
            assert r1.bays[k].nios[j] == r.bays[k].nios[j - 1];
          } else {
            assert nios[1..][i] == nios[i + 1];
          }
        }
      }
      ReplayNios(r1, vm, k, nios[1..]);
      AppendAssoc(Reverse(nios[1..]), [nb], r.bays[k].nios);
    }
  }

  /** A bay's saved commands, replayed on an empty bay of a router that knows its NIOs, give back the restored bay. */
  lemma ReplayBay(r: Router, vm: string, k: nat, b: Bay)
    requires k < |r.bays| && r.bays[k] == EmptyBay
    requires Coherent(b) && UniquePorts(b.nios)
    requires forall i :: 0 <= i < |b.nios| ==> b.nios[i].nio in r.refs
    ensures OthersKept(r, Replay(r, BayLines(vm, k, b)), k)
    ensures Replay(r, BayLines(vm, k, b)).bays[k] == Restored(b)
    ensures Replay(r, BayLines(vm, k, b)).refs.Keys == r.refs.Keys
  {
    var typed: Router;
    if b.devType.Some? {
      var j :| 0 <= j < |Table| && Table[j] == b.driver.value;
      GetDriverOfTable(j);
      typed := AddBinding(r, b.devType.value, k).router;
      assert Replay(r, [AddNm(vm, k, b.devType.value)]) == typed;
      ReplayConcat(r, [AddNm(vm, k, b.devType.value)], NioLines(vm, k, b.nios));
    } else {
      typed := r;
      assert BayLines(vm, k, b) == NioLines(vm, k, b.nios);
    }
    assert typed.bays[k] == EmptyBay.(devType := b.devType, driver := b.driver);
    ReplayNios(typed, vm, k, b.nios);
    assert Reverse(b.nios) + [] == Reverse(b.nios);
  }

  /** What replaying needs of a router: coherent bays, unique ports, and every bound NIO in the registry. */
  predicate Saveable(r: Router)
  {
    forall k :: 0 <= k < |r.bays| ==>
      && Coherent(r.bays[k]) && UniquePorts(r.bays[k].nios)
      && (forall i :: 0 <= i < |r.bays[k].nios| ==> r.bays[k].nios[i].nio in r.refs)
  }

  lemma SaveableBay(r: Router, k: nat)
    requires Saveable(r) && k < |r.bays|
    ensures Coherent(r.bays[k]) && UniquePorts(r.bays[k].nios)
    ensures forall i :: 0 <= i < |r.bays[k].nios| ==> r.bays[k].nios[i].nio in r.refs
  {
  }

  /** A well-formed router can be saved and replayed. */
  lemma WfSaveable(r: Router)
    requires Wf(r)
    ensures Saveable(r)
  {
    forall k | 0 <= k < |r.bays|
      ensures forall i :: 0 <= i < |r.bays[k].nios| ==> r.bays[k].nios[i].nio in r.refs
    {
      BoundNiosExist(r, k);
    }
  }

  /** Bays 0 to n - 1 restored, the others still empty. */
  predicate RestoredUpTo(r: Router, r2: Router, n: nat)
  {
    && n <= |r.bays| == |r2.bays|
    && (forall j :: 0 <= j < n ==> r2.bays[j] == Restored(r.bays[j]))
    && (forall j :: n <= j < |r.bays| ==> r2.bays[j] == EmptyBay)
  }

  /** Replaying the lines of bays 0 to n - 1 restores exactly those bays; the NIO registry keeps its names. */
  lemma {:induction false} ReplayUpTo(r: Router, blank: Router, vm: string, n: nat)
    requires Saveable(r) && n <= |r.bays|
    requires blank.bays == seq(|r.bays|, _ => EmptyBay) && r.refs.Keys <= blank.refs.Keys
    ensures RestoredUpTo(r, Replay(blank, NmConfigUpTo(vm, r.bays, n)), n)
    ensures Replay(blank, NmConfigUpTo(vm, r.bays, n)).refs.Keys == blank.refs.Keys
  {
    if n == 0 {
      assert NmConfigUpTo(vm, r.bays, 0) == [];
    } else {
      ReplayUpTo(r, blank, vm, n - 1);
      ReplayNext(r, blank, vm, n);
    }
  }

  /** The inductive step of ReplayUpTo: bay n - 1's lines restore that bay on top of the bays before it. */
  lemma ReplayNext(r: Router, blank: Router, vm: string, n: nat)
    requires Saveable(r) && 0 < n <= |r.bays|
    requires RestoredUpTo(r, Replay(blank, NmConfigUpTo(vm, r.bays, n - 1)), n - 1)
    requires Replay(blank, NmConfigUpTo(vm, r.bays, n - 1)).refs.Keys == blank.refs.Keys && r.refs.Keys <= blank.refs.Keys
    ensures RestoredUpTo(r, Replay(blank, NmConfigUpTo(vm, r.bays, n)), n)
    ensures Replay(blank, NmConfigUpTo(vm, r.bays, n)).refs.Keys == blank.refs.Keys
  {
    var k := n - 1;
    var before := Replay(blank, NmConfigUpTo(vm, r.bays, k));
    var b := r.bays[k];
    assert before.bays[k] == EmptyBay;
    SaveableBay(r, k);
    assert forall i :: 0 <= i < |b.nios| ==> b.nios[i].nio in before.refs;
    ReplayBay(before, vm, k, b);
    var after := Replay(before, BayLines(vm, k, b));
    RestoreStep(r, before, after, k);
    ReplayConcat(blank, NmConfigUpTo(vm, r.bays, k), BayLines(vm, k, b));
  }

  /** Restoring bay k, and nothing else, extends the restored prefix by one bay. */
  lemma RestoreStep(r: Router, before: Router, after: Router, k: nat)
    requires RestoredUpTo(r, before, k) && k < |r.bays|
    requires OthersKept(before, after, k) && after.bays[k] == Restored(r.bays[k])
    ensures RestoredUpTo(r, after, k + 1)
  {
  }

  /** In a well-formed router every bound NIO exists. */
  lemma BoundNiosExist(r: Router, k: nat)
    requires Wf(r) && k < |r.bays|
    ensures forall i :: 0 <= i < |r.bays[k].nios| ==> r.bays[k].nios[i].nio in r.refs
  {
    var nios := r.bays[k].nios;
    forall i | 0 <= i < |nios| ensures nios[i].nio in r.refs {
      HeldAtLeast(r.bays, k, nios[i].nio);
      CountHas(nios, i);
    }
  }

  /** A binding's NIO is counted at least once in its list. */
  lemma {:induction false} CountHas(nios: seq<NioBinding>, i: nat)
    requires i < |nios|
    ensures CountNio(nios, nios[i].nio) >= 1
    decreases |nios|
  {
    if i > 0 {
      CountHas(nios[1..], i - 1);
    }
  }

  /**
   Saving a well-formed router and replaying its network-module lines on a
   router with as many empty bays, whose NIO registry has every NIO of the
   original, restores every bay's type, driver and bindings, each list
   reversed. The device names, driver handles and EEPROMs are not saved.
   */
  lemma SaveReplayRestores(r: Router, blank: Router, vm: string)
    requires Wf(r)
    requires blank.bays == seq(|r.bays|, _ => EmptyBay) && r.refs.Keys <= blank.refs.Keys
    ensures |Replay(blank, NmConfig(vm, r)).bays| == |r.bays|
    ensures forall k :: 0 <= k < |r.bays| ==> Replay(blank, NmConfig(vm, r)).bays[k] == Restored(r.bays[k])
  {
    WfSaveable(r);
    ReplayUpTo(r, blank, vm, |r.bays|);
  }

  /** Reversing a binding list keeps its ports unique and its NIOs. */
  lemma ReverseKeeps(nios: seq<NioBinding>, refs: map<string, nat>)
    requires UniquePorts(nios) && forall i :: 0 <= i < |nios| ==> nios[i].nio in refs
    ensures UniquePorts(Reverse(nios)) && forall i :: 0 <= i < |nios| ==> Reverse(nios)[i].nio in refs
  {
    forall i | 0 <= i < |nios| ensures Reverse(nios)[i] == nios[|nios| - 1 - i] {
      ReverseIndex(nios, i);
    }
  }

  /** A router rebuilt from saved lines can itself be saved and replayed. */
  lemma ReplayedSaveable(r: Router, blank: Router, vm: string)
    requires Saveable(r)
    requires blank.bays == seq(|r.bays|, _ => EmptyBay) && r.refs.Keys <= blank.refs.Keys
    ensures Saveable(Replay(blank, NmConfig(vm, r)))
    ensures Replay(blank, NmConfig(vm, r)).refs.Keys == blank.refs.Keys
  {
    ReplayUpTo(r, blank, vm, |r.bays|);
    var r1 := Replay(blank, NmConfig(vm, r));
    forall k | 0 <= k < |r1.bays|
      ensures Coherent(r1.bays[k]) && UniquePorts(r1.bays[k].nios)
      ensures forall i :: 0 <= i < |r1.bays[k].nios| ==> r1.bays[k].nios[i].nio in r1.refs
    {
      assert r1.bays[k] == Restored(r.bays[k]);
      ReverseKeeps(r.bays[k].nios, r1.refs);
    }
  }

  /** Restoring a restored bay gives back the original type, driver and bindings. */
  lemma RestoredTwice(b: Bay)
    ensures Restored(Restored(b)).nios == b.nios
    ensures Restored(Restored(b)).devType == b.devType && Restored(Restored(b)).driver == b.driver
  {
    ReverseReverse(b.nios);
  }

  /**
   Save a well-formed router, replay its lines on empty bays, save the result
   and replay again: every bay has its original type, driver and bindings, the
   bindings back in their original order.
   */
  lemma SaveReplayTwice(r: Router, blank: Router, vm: string)
    requires Wf(r)
    requires blank.bays == seq(|r.bays|, _ => EmptyBay) && r.refs.Keys <= blank.refs.Keys
    ensures var r2 := Replay(blank, NmConfig(vm, Replay(blank, NmConfig(vm, r))));
            && |r2.bays| == |r.bays|
            && forall k :: 0 <= k < |r.bays| ==>
                 && r2.bays[k].devType == r.bays[k].devType && r2.bays[k].driver == r.bays[k].driver
                 && r2.bays[k].nios == r.bays[k].nios
  {
    WfSaveable(r);
    var r1 := Replay(blank, NmConfig(vm, r));
    ReplayUpTo(r, blank, vm, |r.bays|);
    ReplayedSaveable(r, blank, vm);
    ReplayUpTo(r1, blank, vm, |r1.bays|);
    var r2 := Replay(blank, NmConfig(vm, r1));
    forall k | 0 <= k < |r.bays|
      ensures r2.bays[k].devType == r.bays[k].devType && r2.bays[k].driver == r.bays[k].driver
      ensures r2.bays[k].nios == r.bays[k].nios
    {
      assert r2.bays[k] == Restored(Restored(r.bays[k]));
      RestoredTwice(r.bays[k]);
    }
  }
}
