/**
 Big-endian field access over a byte region, standing in for the source's
 `ntohs`/`ntohl`/`htons`/`htonl` accesses through `PTR_ADJUST` and its
 `memcpy` stores. Every read and write is bounds-checked by its precondition.
 */
module Bytes {

  newtype u8 = x: int | 0 <= x < 0x100

  newtype u16 = x: int | 0 <= x < 0x1_0000

  /** `s` with `bs` written at offset `p`. */
  function Splice(s: seq<u8>, p: nat, bs: seq<u8>): (r: seq<u8>)
    requires p + |bs| <= |s|
    ensures |r| == |s|
  {
    seq(|s|, i requires 0 <= i < |s| => if p <= i < p + |bs| then bs[i - p] else s[i])
  }

  /** Two big-endian bytes of a 16-bit value. */
  function Be16Bytes(v: nat): (bs: seq<u8>)
    requires v < 0x1_0000
    ensures |bs| == 2
  {
    [(v / 0x100) as u8, (v % 0x100) as u8]
  }

  /** Four big-endian bytes of a 32-bit value. */
  function Be32Bytes(v: nat): (bs: seq<u8>)
    requires v < 0x1_0000_0000
    ensures |bs| == 4
  {
    var q1 := v / 0x100;
    var q2 := q1 / 0x100;
    var q3 := q2 / 0x100;
    [(q3 % 0x100) as u8, (q2 % 0x100) as u8, (q1 % 0x100) as u8, (v % 0x100) as u8]
  }

  /** The 16-bit big-endian value stored at `p`. */
  function Be16(s: seq<u8>, p: nat): nat
    requires p + 2 <= |s|
  {
    s[p] as nat * 0x100 + s[p + 1] as nat
  }

  /** The 32-bit big-endian value stored at `p`. */
  function Be32(s: seq<u8>, p: nat): nat
    requires p + 4 <= |s|
  {
    ((s[p] as nat * 0x100 + s[p + 1] as nat) * 0x100 + s[p + 2] as nat) * 0x100 + s[p + 3] as nat
  }

  lemma Be32Bound(s: seq<u8>, p: nat)
    requires p + 4 <= |s|
    ensures Be32(s, p) < 0x1_0000_0000
  {
    var a := s[p] as nat * 0x100 + s[p + 1] as nat;
    assert a < 0x1_0000;
    var b := a * 0x100 + s[p + 2] as nat;
    assert b < 0x100_0000;
  }

  /** A stored 16-bit field reads back as the value written. */
  lemma Be16Read(s: seq<u8>, p: nat, v: nat)
    requires v < 0x1_0000
    requires p + 2 <= |s|
    requires s[p..p + 2] == Be16Bytes(v)
    ensures Be16(s, p) == v
  {
    assert s[p] == s[p..p + 2][0];
    assert s[p + 1] == s[p..p + 2][1];
  }

  /** A stored 32-bit field reads back as the value written. */
  lemma Be32Read(s: seq<u8>, p: nat, v: nat)
    requires v < 0x1_0000_0000
    requires p + 4 <= |s|
    requires s[p..p + 4] == Be32Bytes(v)
    ensures Be32(s, p) == v
  {
    var w := s[p..p + 4];
    assert s[p] == w[0] && s[p + 1] == w[1] && s[p + 2] == w[2] && s[p + 3] == w[3];
    var q1 := v / 0x100;
    var q2 := q1 / 0x100;
    var q3 := q2 / 0x100;
    assert q3 < 0x100;
    assert q3 * 0x100 + q2 % 0x100 == q2;
    assert q2 * 0x100 + q1 % 0x100 == q1;
    assert q1 * 0x100 + v % 0x100 == v;
  }

  /** Equal 16-bit values are stored as equal bytes. */
  lemma Be16Same(s: seq<u8>, p: nat, t: seq<u8>, q: nat)
    requires p + 2 <= |s| && q + 2 <= |t|
    requires Be16(s, p) == Be16(t, q)
    ensures s[p..p + 2] == t[q..q + 2]
  {
    assert s[p] == t[q];
  }

  /** Equal 32-bit values are stored as equal bytes. */
  lemma Be32Same(s: seq<u8>, p: nat, t: seq<u8>, q: nat)
    requires p + 4 <= |s| && q + 4 <= |t|
    requires Be32(s, p) == Be32(t, q)
    ensures s[p..p + 4] == t[q..q + 4]
  {
    var a := s[p] as nat * 0x100 + s[p + 1] as nat;
    var b := t[q] as nat * 0x100 + t[q + 1] as nat;
    assert a * 0x100 + s[p + 2] as nat == b * 0x100 + t[q + 2] as nat;
    assert a == b;
    assert s[p] == t[q];
  }

  /** A 32-bit word reads as zero exactly when its four bytes are zero. */
  lemma Be32Zero(s: seq<u8>, p: nat)
    requires p + 4 <= |s|
    ensures Be32(s, p) == 0 <==> (s[p] == 0 && s[p + 1] == 0 && s[p + 2] == 0 && s[p + 3] == 0)
  {
  }

  /** Writing `bs` and then `cs` at the same place is writing `cs` alone. */
  lemma SpliceTwice(s: seq<u8>, p: nat, bs: seq<u8>, cs: seq<u8>)
    requires p + |bs| <= |s|
    requires |cs| == |bs|
    ensures Splice(Splice(s, p, bs), p, cs) == Splice(s, p, cs)
  {
  }

  /** Writing back the bytes already present changes nothing. */
  lemma SpliceSame(s: seq<u8>, p: nat, n: nat)
    requires p + n <= |s|
    ensures Splice(s, p, s[p..p + n]) == s
  {
  }

  /** The written bytes can be read back as a slice. */
  lemma SpliceSlice(s: seq<u8>, p: nat, bs: seq<u8>)
    requires p + |bs| <= |s|
    ensures Splice(s, p, bs)[p..p + |bs|] == bs
  {
  }

  // ---------------------------------------------------------------------------
  // Sequences of stores
  // ---------------------------------------------------------------------------

  /** One store of the source: `bytes` written at offset `at`. */
  datatype Store = Store(at: nat, bytes: seq<u8>) {
    predicate Covers(i: int)
    {
      at <= i < at + |bytes|
    }
  }

  predicate StoresFit(stores: seq<Store>, n: nat)
  {
    forall k :: 0 <= k < |stores| ==> stores[k].at + |stores[k].bytes| <= n
  }

  /** No two stores touch the same byte. */
  predicate Disjoint(stores: seq<Store>)
  {
    forall j, k :: 0 <= j < k < |stores| ==>
      stores[j].at + |stores[j].bytes| <= stores[k].at || stores[k].at + |stores[k].bytes| <= stores[j].at
  }

  /** The stores performed one after another, in list order. */
  function Apply(s: seq<u8>, stores: seq<Store>): (r: seq<u8>)
    requires StoresFit(stores, |s|)
    ensures |r| == |s|
    decreases |stores|
  {
    if |stores| == 0 then s
    else
      var last := stores[|stores| - 1];
      Splice(Apply(s, stores[..|stores| - 1]), last.at, last.bytes)
  }

  /** A byte that no store covers keeps its value. */
  lemma {:induction false} ApplyUntouched(s: seq<u8>, stores: seq<Store>, i: nat)
    requires StoresFit(stores, |s|)
    requires i < |s|
    requires forall k :: 0 <= k < |stores| ==> !stores[k].Covers(i)
    ensures Apply(s, stores)[i] == s[i]
    decreases |stores|
  {
    if |stores| > 0 {
      var init := stores[..|stores| - 1];
      assert forall k :: 0 <= k < |init| ==> init[k] == stores[k];
      ApplyUntouched(s, init, i);
    }
  }

  /** A byte holds what the last store covering it wrote. */
  lemma {:induction false} ApplyWritten(s: seq<u8>, stores: seq<Store>, k: nat, i: nat)
    requires StoresFit(stores, |s|)
    requires k < |stores|
    requires stores[k].Covers(i)
    requires forall j :: k < j < |stores| ==> !stores[j].Covers(i)
    ensures i < |s|
    ensures Apply(s, stores)[i] == stores[k].bytes[i - stores[k].at]
    decreases |stores|
  {
    var init := stores[..|stores| - 1];
    assert forall j :: 0 <= j < |init| ==> init[j] == stores[j];
    if k < |stores| - 1 {
      ApplyWritten(s, init, k, i);
    }
  }

  /** With disjoint stores, every store's bytes can be read back. */
  lemma ApplyReadBack(s: seq<u8>, stores: seq<Store>, k: nat)
    requires StoresFit(stores, |s|)
    requires Disjoint(stores)
    requires k < |stores|
    ensures Apply(s, stores)[stores[k].at .. stores[k].at + |stores[k].bytes|] == stores[k].bytes
  {
    var r := Apply(s, stores);
    var st := stores[k];
    var w := r[st.at .. st.at + |st.bytes|];
    forall i | 0 <= i < |st.bytes|
      ensures w[i] == st.bytes[i]
    {
      ApplyWritten(s, stores, k, st.at + i);
    }
  }
}
