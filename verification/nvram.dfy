/**
 The NVRAM configuration codec of the Cisco 3725 platform: the bit-exact
 big-endian header that the router firmware expects in front of its saved
 configuration, the encoder that writes it (once for the primary copy and once
 for the backup), the decoder that reads a configuration back, and the
 empty-NVRAM detection done at boot.

 A region is the whole mapped ROM file as a byte sequence; `p` is the offset of
 one copy inside it (the source's `ios_ptr - base_ptr`).
 */
module Nvram {
  import opened Common
  import opened Bytes

  /** The chassis constants C3725_NVRAM_OFFSET and C3725_NVRAM_SIZE. */
  datatype Geometry = Geometry(offset: nat, size: nat) {
    /** One copy holds the whole header and is a whole number of 32-bit words. */
    predicate Valid()
    {
      size > 0x30 && size % 4 == 0
    }

    /** Where the backup copy starts: right after the primary copy. */
    function Backup(): nat
    {
      offset + size
    }
  }

  // Field offsets inside one copy.
  const Magic1Off: nat := 0x06
  const Magic2Off: nat := 0x08
  const VersionOff: nat := 0x0a
  const ChecksumOff: nat := 0x0c
  const TagOff: nat := 0x0e
  const StartOff: nat := 0x10
  const EndOff: nat := 0x14
  const LengthOff: nat := 0x18
  /** First byte after the header fields the encoder writes. */
  const HeaderEnd: nat := 0x1c
  /** Where the encoder stores the configuration text. */
  const ConfigOff: nat := 0x2c
  /** The checksum covers the copy from this offset to its end. */
  const ChecksumFrom: nat := 0x08
  /** The decoder refuses a region that does not extend past this offset. */
  const MinHeader: nat := 0x30

  // Field values.
  const Magic1: nat := 0xF0A5
  const Magic2: nat := 0xABCD
  const FormatVersion: nat := 0x0001
  const FormatTag: nat := 0x0c04
  /** The encoder stores the text position relative to offset 0x08. */
  const StoredStart: nat := ConfigOff - 0x08

  /** The firmware checksum `nvram_cksum`, whose algorithm is not part of this model. */
  type Checksum = seq<u8> -> u16

  /** The header fields (big-endian) and the text that the encoder lays down in the copy at `p`. */
  predicate HasLayout(r: seq<u8>, p: nat, text: seq<u8>)
  {
    && p + ConfigOff + |text| <= |r|
    && Be16(r, p + Magic1Off) == Magic1
    && Be16(r, p + Magic2Off) == Magic2
    && Be16(r, p + VersionOff) == FormatVersion
    && Be16(r, p + TagOff) == FormatTag
    && Be32(r, p + StartOff) == StoredStart
    && Be32(r, p + EndOff) == (StoredStart + |text|) % U32Mod
    && Be32(r, p + LengthOff) == |text| % U32Mod
    && r[p + ConfigOff .. p + ConfigOff + |text|] == text
  }

  /** The stored checksum is what `cksum` yields over `[p+0x08, p+size)` with the checksum field zeroed. */
  predicate ChecksumValid(r: seq<u8>, p: nat, size: nat, cksum: Checksum)
    requires MinHeader <= size
    requires p + size <= |r|
  {
    Be16(r, p + ChecksumOff)
    == cksum(Splice(r, p + ChecksumOff, [0, 0])[p + ChecksumFrom .. p + size]) as nat
  }

  /** Bytes outside the header fields and the text. */
  predicate OutsideLayout(i: int, p: nat, len: nat)
  {
    !(p + Magic1Off <= i < p + HeaderEnd) && !(p + ConfigOff <= i < p + ConfigOff + len)
  }

  /** The stores c3725_nvram_push_config_part performs before the checksum, in source order. */
  function EncoderStores(p: nat, text: seq<u8>): (st: seq<Store>)
    ensures |st| == 9
  {
    [ Store(p + Magic1Off, Be16Bytes(Magic1)),
      Store(p + Magic2Off, Be16Bytes(Magic2)),
      Store(p + VersionOff, Be16Bytes(FormatVersion)),
      Store(p + ChecksumOff, Be16Bytes(0)),
      Store(p + TagOff, Be16Bytes(FormatTag)),
      Store(p + ConfigOff, text),
      Store(p + StartOff, Be32Bytes(StoredStart)),
      Store(p + EndOff, Be32Bytes((StoredStart + |text|) % U32Mod)),
      Store(p + LengthOff, Be32Bytes(|text| % U32Mod)) ]
  }

  /** The copy as the encoder leaves it just before computing the checksum. */
  function HeaderAndText(region: seq<u8>, p: nat, text: seq<u8>): (r: seq<u8>)
    requires p + ConfigOff + |text| <= |region|
    ensures |r| == |region|
    ensures HasLayout(r, p, text)
    ensures r[p + ChecksumOff .. p + ChecksumOff + 2] == [0, 0]
    ensures forall i :: 0 <= i < |r| && OutsideLayout(i, p, |text|) ==> r[i] == region[i]
  {
    EncoderStoresFacts(region, p, text);
    Apply(region, EncoderStores(p, text))
  }

  lemma EncoderStoresFacts(region: seq<u8>, p: nat, text: seq<u8>)
    requires p + ConfigOff + |text| <= |region|
    ensures StoresFit(EncoderStores(p, text), |region|)
    ensures var r := Apply(region, EncoderStores(p, text));
            && HasLayout(r, p, text)
            && r[p + ChecksumOff .. p + ChecksumOff + 2] == [0, 0]
            && forall i :: 0 <= i < |r| && OutsideLayout(i, p, |text|) ==> r[i] == region[i]
  {
    EncoderStoresShape(p, text, |region|);
    var st := EncoderStores(p, text);
    var r := Apply(region, st);
    StoredFields(region, st, p, text);
    forall i | 0 <= i < |r| && OutsideLayout(i, p, |text|)
      ensures r[i] == region[i]
    {
      EncoderMisses(p, text, i);
      ApplyUntouched(region, st, i);
    }
  }

  lemma EncoderStoresShape(p: nat, text: seq<u8>, n: nat)
    requires p + ConfigOff + |text| <= n
    ensures StoresFit(EncoderStores(p, text), n)
    ensures Disjoint(EncoderStores(p, text))
  {
  }

  lemma EncoderMisses(p: nat, text: seq<u8>, i: int)
    requires OutsideLayout(i, p, |text|)
    ensures forall k :: 0 <= k < 9 ==> !EncoderStores(p, text)[k].Covers(i)
  {
  }

  /** Reading back each field of a disjoint list of stores shaped like the encoder's. */
  lemma StoredFields(region: seq<u8>, st: seq<Store>, p: nat, text: seq<u8>)
    requires st == EncoderStores(p, text)
    requires StoresFit(st, |region|) && Disjoint(st)
    ensures HasLayout(Apply(region, st), p, text)
    ensures Apply(region, st)[p + ChecksumOff .. p + ChecksumOff + 2] == [0, 0]
  {
    ReadBack16(region, st, 0, Magic1);
    ReadBack16(region, st, 1, Magic2);
    ReadBack16(region, st, 2, FormatVersion);
    ApplyReadBack(region, st, 3);
    ReadBack16(region, st, 4, FormatTag);
    ApplyReadBack(region, st, 5);
    ReadBack32(region, st, 6, StoredStart);
    ReadBack32(region, st, 7, (StoredStart + |text|) % U32Mod);
    ReadBack32(region, st, 8, |text| % U32Mod);
  }

  lemma ReadBack16(s: seq<u8>, st: seq<Store>, k: nat, v: nat)
    requires StoresFit(st, |s|) && Disjoint(st)
    requires k < |st| && v < 0x1_0000
    requires st[k].bytes == Be16Bytes(v)
    ensures st[k].at + 2 <= |s|
    ensures Be16(Apply(s, st), st[k].at) == v
  {
    ApplyReadBack(s, st, k);
    Be16Read(Apply(s, st), st[k].at, v);
  }

  lemma ReadBack32(s: seq<u8>, st: seq<Store>, k: nat, v: nat)
    requires StoresFit(st, |s|) && Disjoint(st)
    requires k < |st| && v < 0x1_0000_0000
    requires st[k].bytes == Be32Bytes(v)
    ensures st[k].at + 4 <= |s|
    ensures Be32(Apply(s, st), st[k].at) == v
  {
    ApplyReadBack(s, st, k);
    Be32Read(Apply(s, st), st[k].at, v);
  }

  predicate AgreeOn(a: seq<u8>, b: seq<u8>, lo: nat, hi: nat)
    requires lo <= hi <= |a| && hi <= |b|
  {
    forall i :: lo <= i < hi ==> a[i] == b[i]
  }

  /** A copy keeps its layout under any change that spares its fields and text. */
  lemma LayoutTransfer(a: seq<u8>, b: seq<u8>, p: nat, text: seq<u8>)
    requires HasLayout(a, p, text)
    requires |b| == |a|
    requires AgreeOn(a, b, p + Magic1Off, p + ChecksumOff)
    requires AgreeOn(a, b, p + TagOff, p + HeaderEnd)
    requires AgreeOn(a, b, p + ConfigOff, p + ConfigOff + |text|)
    ensures HasLayout(b, p, text)
  {
    assert a[p + ConfigOff .. p + ConfigOff + |text|] == b[p + ConfigOff .. p + ConfigOff + |text|];
  }

  /** A copy's checksum stays valid under any change outside that copy. */
  lemma ChecksumTransfer(a: seq<u8>, b: seq<u8>, p: nat, size: nat, cksum: Checksum)
    requires MinHeader <= size
    requires p + size <= |a| && |b| == |a|
    requires AgreeOn(a, b, p, p + size)
    requires ChecksumValid(a, p, size, cksum)
    ensures ChecksumValid(b, p, size, cksum)
  {
    var za := Splice(a, p + ChecksumOff, [0, 0]);
    var zb := Splice(b, p + ChecksumOff, [0, 0]);
    assert za[p + ChecksumFrom .. p + size] == zb[p + ChecksumFrom .. p + size];
  }

  /** The checksum that c3725_nvram_push_config_part stores, over `[p+0x08, p+size)` of the copy `h`. */
  function StoredChecksum(h: seq<u8>, p: nat, g: Geometry, cksum: Checksum): (bs: seq<u8>)
    requires g.Valid()
    requires p + g.size <= |h|
    ensures |bs| == 2
  {
    Be16Bytes(cksum(h[p + ChecksumFrom .. p + g.size]) as nat)
  }

  lemma ChecksumStored(h: seq<u8>, r: seq<u8>, p: nat, g: Geometry, cksum: Checksum)
    requires g.Valid()
    requires p + g.size <= |h|
    requires h[p + ChecksumOff .. p + ChecksumOff + 2] == [0, 0]
    requires r == Splice(h, p + ChecksumOff, StoredChecksum(h, p, g, cksum))
    ensures ChecksumValid(r, p, g.size, cksum)
    ensures forall i :: 0 <= i < |r| && !(p + ChecksumOff <= i < p + ChecksumOff + 2) ==> r[i] == h[i]
  {
    var ck := cksum(h[p + ChecksumFrom .. p + g.size]);
    SpliceTwice(h, p + ChecksumOff, Be16Bytes(ck as nat), [0, 0]);
    SpliceSame(h, p + ChecksumOff, 2);
    SpliceSlice(h, p + ChecksumOff, Be16Bytes(ck as nat));
    Be16Read(r, p + ChecksumOff, ck as nat);
  }

  /**
   `after` is `before` with the copy at `p` encoded: header, text and checksum
   laid down there, and every other byte of the region as it was.
   */
  predicate PartWritten(before: seq<u8>, after: seq<u8>, p: nat, text: seq<u8>, g: Geometry, cksum: Checksum)
    requires g.Valid()
  {
    && |after| == |before|
    && p + g.size <= |after|
    && HasLayout(after, p, text)
    && ChecksumValid(after, p, g.size, cksum)
    && forall i :: 0 <= i < |after| && OutsideLayout(i, p, |text|) ==> after[i] == before[i]
  }

  /**
   Two copies (each exactly one copy size long) agree on the bytes the encoder
   does not write: before the header, between the header and the text, and
   after the text.
   */
  predicate SameUnwritten(c1: seq<u8>, c2: seq<u8>, len: nat)
    requires ConfigOff + len <= |c1| == |c2|
  {
    && c1[.. Magic1Off] == c2[.. Magic1Off]
    && c1[HeaderEnd .. ConfigOff] == c2[HeaderEnd .. ConfigOff]
    && c1[ConfigOff + len ..] == c2[ConfigOff + len ..]
  }

  /** The copies at `a` and `b` of a region are byte-identical. */
  predicate Mirrored(r: seq<u8>, a: nat, b: nat, size: nat)
    requires a + size <= |r| && b + size <= |r|
  {
    r[a .. a + size] == r[b .. b + size]
  }

  /** The copy at `p` of a region, seen as a copy on its own. */
  lemma WindowLayout(r: seq<u8>, p: nat, text: seq<u8>, g: Geometry, cksum: Checksum)
    requires g.Valid()
    requires ConfigOff + |text| <= g.size
    requires p + g.size <= |r|
    requires HasLayout(r, p, text) && ChecksumValid(r, p, g.size, cksum)
    ensures HasLayout(r[p .. p + g.size], 0, text)
    ensures ChecksumValid(r[p .. p + g.size], 0, g.size, cksum)
  {
    var c := r[p .. p + g.size];
    assert c[ConfigOff .. ConfigOff + |text|] == r[p + ConfigOff .. p + ConfigOff + |text|];
    var z := Splice(r, p + ChecksumOff, [0, 0]);
    var zc := Splice(c, ChecksumOff, [0, 0]);
    assert zc[ChecksumFrom .. g.size] == z[p + ChecksumFrom .. p + g.size];
  }

  /**
   Two copies laid out for the same text, with valid checksums, that agree on
   every byte the encoder does not write, are identical: the encoding of a copy
   is determined by the text and the copy's previous contents.
   */
  lemma CopiesMatch(r: seq<u8>, a: nat, b: nat, text: seq<u8>, g: Geometry, cksum: Checksum)
    requires g.Valid()
    requires ConfigOff + |text| <= g.size
    requires a + g.size <= |r| && b + g.size <= |r|
    requires HasLayout(r, a, text) && ChecksumValid(r, a, g.size, cksum)
    requires HasLayout(r, b, text) && ChecksumValid(r, b, g.size, cksum)
    requires SameUnwritten(r[a .. a + g.size], r[b .. b + g.size], |text|)
    ensures Mirrored(r, a, b, g.size)
  {
    WindowLayout(r, a, text, g, cksum);
    WindowLayout(r, b, text, g, cksum);
    WindowsMatch(r[a .. a + g.size], r[b .. b + g.size], text, g, cksum);
  }

  lemma WindowsMatch(c1: seq<u8>, c2: seq<u8>, text: seq<u8>, g: Geometry, cksum: Checksum)
    requires g.Valid()
    requires ConfigOff + |text| <= g.size
    requires |c1| == g.size && |c2| == g.size
    requires HasLayout(c1, 0, text) && ChecksumValid(c1, 0, g.size, cksum)
    requires HasLayout(c2, 0, text) && ChecksumValid(c2, 0, g.size, cksum)
    requires SameUnwritten(c1, c2, |text|)
    ensures c1 == c2
  {
    HeaderSame(c1, c2, text);
    assert c1[ConfigOff .. ConfigOff + |text|] == c2[ConfigOff .. ConfigOff + |text|];
    forall i | 0 <= i < g.size && !(ChecksumOff <= i < ChecksumOff + 2)
      ensures c1[i] == c2[i]
    {
      if i < Magic1Off {
        assert c1[i] == c1[.. Magic1Off][i] && c2[i] == c2[.. Magic1Off][i];
      } else if HeaderEnd <= i < ConfigOff {
        assert c1[i] == c1[HeaderEnd .. ConfigOff][i - HeaderEnd] && c2[i] == c2[HeaderEnd .. ConfigOff][i - HeaderEnd];
      } else if ConfigOff <= i < ConfigOff + |text| {
        assert c1[i] == c1[ConfigOff .. ConfigOff + |text|][i - ConfigOff];
        assert c2[i] == c2[ConfigOff .. ConfigOff + |text|][i - ConfigOff];
      } else if ConfigOff + |text| <= i {
        var k := ConfigOff + |text|;
        assert c1[i] == c1[k ..][i - k] && c2[i] == c2[k ..][i - k];
      }
    }
    var z1 := Splice(c1, ChecksumOff, [0, 0]);
    var z2 := Splice(c2, ChecksumOff, [0, 0]);
    assert z1 == z2;
    Be16Same(c1, ChecksumOff, c2, ChecksumOff);
    assert c1[ChecksumOff] == c2[ChecksumOff] && c1[ChecksumOff + 1] == c2[ChecksumOff + 1] by {
      assert c1[ChecksumOff .. ChecksumOff + 2][0] == c1[ChecksumOff];
      assert c2[ChecksumOff .. ChecksumOff + 2][1] == c2[ChecksumOff + 1];
    }
  }

  /** Two copies with the same layout agree on every header byte except the checksum field. */
  lemma HeaderSame(c1: seq<u8>, c2: seq<u8>, text: seq<u8>)
    requires HasLayout(c1, 0, text) && HasLayout(c2, 0, text)
    ensures forall i :: Magic1Off <= i < HeaderEnd && !(ChecksumOff <= i < ChecksumOff + 2) ==> c1[i] == c2[i]
  {
    Be16Same(c1, Magic1Off, c2, Magic1Off);
    Be16Same(c1, Magic2Off, c2, Magic2Off);
    Be16Same(c1, VersionOff, c2, VersionOff);
    Be16Same(c1, TagOff, c2, TagOff);
    Be32Same(c1, StartOff, c2, StartOff);
    Be32Same(c1, EndOff, c2, EndOff);
    Be32Same(c1, LengthOff, c2, LengthOff);
    forall i | Magic1Off <= i < HeaderEnd && !(ChecksumOff <= i < ChecksumOff + 2)
      ensures c1[i] == c2[i]
    {
      var at := if i < Magic2Off then Magic1Off
                else if i < VersionOff then Magic2Off
                else if i < ChecksumOff then VersionOff
                else if i < StartOff then TagOff
                else if i < EndOff then StartOff
                else if i < LengthOff then EndOff
                else LengthOff;
      var n := if i < StartOff then 2 else 4;
      assert c1[i] == c1[at .. at + n][i - at];
      assert c2[i] == c2[at .. at + n][i - at];
    }
  }

  // ---------------------------------------------------------------------------
  // Decoding
  // ---------------------------------------------------------------------------

  datatype ExtractError =
    | RegionTooSmall      // the header does not fit before the end of the region
    | BadMagic            // 0xF0A5 / 0xABCD not found at 0x06 / 0x08
    | ConfigOutOfBounds   // the stored text would run past the end of the region
    | EmptyLength         // a stored length of 0 (see CopyLengthAsWritten)

  /** Where the decoder copies from and the stored length it trusts. */
  datatype CopyPlan = CopyPlan(from: nat, nvlen: nat)

  /** The decoded configuration: the copied text plus its NUL, and the byte count returned. */
  datatype Extracted = Extracted(buffer: seq<u8>, count: nat)

  /** The position of the text as the decoder computes it: stored start + 1 (in 32-bit arithmetic), + 0x08. */
  function TextFrom(region: seq<u8>, p: nat): nat
    requires p + StartOff + 4 <= |region|
  {
    p + (Be32(region, p + StartOff) + 1) % U32Mod + 0x08
  }

  predicate MagicOk(region: seq<u8>, p: nat)
    requires p + Magic2Off + 2 <= |region|
  {
    Be16(region, p + Magic1Off) == Magic1 && Be16(region, p + Magic2Off) == Magic2
  }

  /**
   The three checks of c3725_nvram_extract_config, in source order, and the
   copy they authorise.
   */
  function PlanCopy(region: seq<u8>, p: nat): (r: Result<CopyPlan, ExtractError>)
    ensures r == Failure(RegionTooSmall) <==> p + MinHeader >= |region|
    ensures r == Failure(BadMagic) <==> p + MinHeader < |region| && !MagicOk(region, p)
    ensures r == Failure(ConfigOutOfBounds)
            <==> p + MinHeader < |region| && MagicOk(region, p)
                 && TextFrom(region, p) + Be32(region, p + LengthOff) > |region|
    ensures r.Success? ==> p + MinHeader < |region| && MagicOk(region, p)
                           && r.value.from == TextFrom(region, p)
                           && r.value.nvlen == Be32(region, p + LengthOff)
                           && r.value.from + r.value.nvlen <= |region|
                           && r.value.nvlen < U32Mod
  {
    if p + MinHeader >= |region| then Failure(RegionTooSmall)
    else if !MagicOk(region, p) then Failure(BadMagic)
    else
      var from := TextFrom(region, p);
      var nvlen := Be32(region, p + LengthOff);
      Be32Bound(region, p + LengthOff);
      if from + nvlen > |region| then Failure(ConfigOutOfBounds)
      else Success(CopyPlan(from, nvlen))
  }

  /** The byte count the source hands to `memcpy` and returns: `nvlen - 1` in 32-bit unsigned arithmetic. */
  function CopyLengthAsWritten(nvlen: nat): (n: nat)
    requires nvlen < U32Mod
    ensures nvlen >= 1 ==> n == nvlen - 1
    ensures nvlen == 0 ==> n == U32Mod - 1
  {
    (nvlen + U32Mod - 1) % U32Mod
  }

  /**
   c3725_nvram_extract_config, with the stored length 0 refused (the source
   lets it through; see CopyLengthAsWritten). It fails exactly where PlanCopy
   fails, with the same error. Otherwise the buffer holds the `nvlen - 1` bytes
   found at the computed text position, then a NUL, and the count is
   `nvlen - 1`. The region itself is never changed.
   */
  function ExtractConfig(region: seq<u8>, p: nat): (r: Result<Extracted, ExtractError>)
    ensures PlanCopy(region, p).Failure? ==> r == Failure(PlanCopy(region, p).error)
    ensures r == Failure(EmptyLength) <==> PlanCopy(region, p).Success? && PlanCopy(region, p).value.nvlen == 0
    ensures PlanCopy(region, p).Success? && PlanCopy(region, p).value.nvlen != 0 ==> r.Success?
    ensures r.Success? ==>
              && PlanCopy(region, p).Success?
              && var plan := PlanCopy(region, p).value;
                 && r.value.count + 1 == plan.nvlen
                 && r.value.buffer == region[plan.from .. plan.from + r.value.count] + [0]
  {
    match PlanCopy(region, p)
    case Failure(e) => Failure(e)
    case Success(plan) =>
      if plan.nvlen == 0 then Failure(EmptyLength)
      else
        var n := CopyLengthAsWritten(plan.nvlen);
        Success(Extracted(region[plan.from .. plan.from + n] + [0], n))
  }

  // ---------------------------------------------------------------------------
  // Empty-NVRAM detection
  // ---------------------------------------------------------------------------

  predicate AllZero(s: seq<u8>)
  {
    forall i :: 0 <= i < |s| ==> s[i] == 0
  }

  /** The configuration-register bit that sends the boot ROM to setup mode. */
  const ConfRegEmptyNvram: bv32 := 0x0040

  /**
   c3725_nvram_check_empty_config: with no ROM device the result is -1;
   otherwise, when every 32-bit word of the NVRAM area is zero, bit 0x40 is set
   in the configuration register, and the register is unchanged otherwise.
   */
  method CheckEmptyConfig(rom: Option<seq<u8>>, g: Geometry, confReg: bv32) returns (ret: int, conf: bv32)
    requires g.Valid()
    requires rom.Some? ==> g.offset + g.size <= |rom.value|
    ensures rom.None? ==> ret == -1 && conf == confReg
    ensures rom.Some? ==> ret == 0
    ensures rom.Some? && AllZero(rom.value[g.offset .. g.offset + g.size]) ==> conf == confReg | ConfRegEmptyNvram
    ensures rom.Some? && !AllZero(rom.value[g.offset .. g.offset + g.size]) ==> conf == confReg
  {
    if rom.None? {
      return -1, confReg;
    }
    var mem := rom.value;
    var addr := g.offset;
    var len: nat := g.size;
    while len > 0
      invariant g.offset + g.size <= |mem|
      invariant g.offset <= addr <= g.offset + g.size && addr + len == g.offset + g.size
      invariant len % 4 == 0
      invariant forall i :: g.offset <= i < addr ==> mem[i] == 0
    {
      Be32Zero(mem, addr);
      if Be32(mem, addr) != 0 {
        assert !AllZero(mem[g.offset .. g.offset + g.size]) by {
          var k :| addr <= k < addr + 4 && mem[k] != 0;
          assert mem[g.offset .. g.offset + g.size][k - g.offset] == mem[k];
        }
        return 0, confReg;
      }
      addr := addr + 4;
      len := len - 4;
    }
    var area := mem[g.offset .. g.offset + g.size];
    assert forall i :: 0 <= i < |area| ==> area[i] == mem[g.offset + i];
    assert AllZero(area);
    return 0, confReg | ConfRegEmptyNvram;
  }
}
