/**
 Properties relating the NVRAM encoder and decoder: what decoding returns after
 encoding, that the backup copy matches the primary, and the as-written
 handling of a stored length of 0.
 */
module NvramProofs {
  import opened Common
  import opened Bytes
  import opened Nvram

  /**
   Decoding a copy that the encoder laid down yields the text WITHOUT its first
   byte: the encoder stores the start as 0x24 and the text at 0x2c, while the
   decoder reads from 0x24 + 1 + 0x08 = 0x2d and copies `len - 1` bytes.
   */
  lemma ExtractOfLayout(r: seq<u8>, p: nat, text: seq<u8>)
    requires HasLayout(r, p, text)
    requires 1 <= |text| < U32Mod
    requires p + MinHeader < |r|
    requires p + ConfigOff + 1 + |text| <= |r|
    ensures ExtractConfig(r, p) == Success(Extracted(text[1..] + [0], |text| - 1))
  {
    assert TextFrom(r, p) == p + ConfigOff + 1;
    assert PlanCopy(r, p) == Success(CopyPlan(p + ConfigOff + 1, |text|));
    var from := p + ConfigOff + 1;
    var n := |text| - 1;
    assert r[from .. from + n] == text[1..];
  }

  /** Both copies laid out for the same text decode to that text without its first byte. */
  lemma ExtractBothCopies(r: seq<u8>, g: Geometry, text: seq<u8>)
    requires g.Valid()
    requires 1 <= |text| < U32Mod
    requires ConfigOff + |text| <= g.size
    requires g.offset + g.size + g.size < |r|
    requires HasLayout(r, g.offset, text) && HasLayout(r, g.offset + g.size, text)
    ensures ExtractConfig(r, g.offset) == Success(Extracted(text[1..] + [0], |text| - 1))
    ensures ExtractConfig(r, g.offset + g.size) == Success(Extracted(text[1..] + [0], |text| - 1))
  {
    ExtractOfLayout(r, g.offset, text);
    ExtractOfLayout(r, g.offset + g.size, text);
  }

  /** A copy laid out for the empty text passes the decoder's checks with a stored length of 0, and is refused. */
  lemma EmptyLayoutRefused(r: seq<u8>, p: nat)
    requires HasLayout(r, p, [])
    requires p + MinHeader < |r|
    ensures PlanCopy(r, p) == Success(CopyPlan(p + ConfigOff + 1, 0))
    ensures ExtractConfig(r, p) == Failure(EmptyLength)
  {
    assert TextFrom(r, p) == p + ConfigOff + 1;
  }

  /**
   The decoder as written on that same copy: with the stored length 0 the
   `memcpy` length `nvlen - 1` wraps to 0xFFFFFFFF and the copy runs far past
   the end of any region smaller than 4 GiB.
   */
  lemma EmptyLayoutOverrun(r: seq<u8>, p: nat)
    requires HasLayout(r, p, [])
    requires p + MinHeader < |r| < U32Mod
    ensures PlanCopy(r, p).Success? && PlanCopy(r, p).value.nvlen == 0
    ensures PlanCopy(r, p).value.from + CopyLengthAsWritten(0) > |r|
  {
    EmptyLayoutRefused(r, p);
  }
}
