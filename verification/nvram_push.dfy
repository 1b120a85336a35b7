/**
 The NVRAM encoder as the platform runs it: c3725_nvram_push_config_part writes
 one copy in place, and c3725_nvram_push_config writes the primary copy at the
 NVRAM offset and the backup copy one copy size further on. The contracts
 connect the encoder with the decoder of the Nvram module.
 */
module NvramPush {
  import opened Common
  import opened Bytes
  import opened Nvram
  import opened NvramProofs

  /**
   c3725_nvram_push_config_part: header and text laid down in the copy at `p`,
   the checksum stored last, and nothing outside those bytes changed.
   */
  method PushConfigPart(region: seq<u8>, p: nat, text: seq<u8>, g: Geometry, cksum: Checksum) returns (r: seq<u8>)
    requires g.Valid()
    requires p + g.size <= |region|
    requires p + ConfigOff + |text| <= |region|
    ensures PartWritten(region, r, p, text, g, cksum)
  {
    var h := HeaderAndText(region, p, text);
    r := Splice(h, p + ChecksumOff, StoredChecksum(h, p, g, cksum));
    ChecksumStored(h, r, p, g, cksum);
    LayoutTransfer(h, r, p, text);
  }

  /**
   c3725_nvram_push_config. The backup copy always carries the header, text
   and checksum; the primary copy does too when the text fits in one copy
   (otherwise the backup's header overwrites the end of the primary's text).
   When the text fits, the two copies come out byte-identical if they agreed
   beforehand, and decoding either copy yields the text without its first byte
   (a NUL appended) for a text of at least one byte, or EmptyLength for an
   empty text.
   */
  method PushConfig(region: seq<u8>, g: Geometry, text: seq<u8>, cksum: Checksum) returns (r: seq<u8>)
    requires g.Valid()
    requires g.Backup() + g.size <= |region|
    requires g.Backup() + ConfigOff + |text| <= |region|
    ensures |r| == |region|
    ensures HasLayout(r, g.Backup(), text) && ChecksumValid(r, g.Backup(), g.size, cksum)
    ensures ConfigOff + |text| <= g.size ==> HasLayout(r, g.offset, text) && ChecksumValid(r, g.offset, g.size, cksum)
    ensures forall i :: 0 <= i < |r| && OutsideLayout(i, g.offset, |text|) && OutsideLayout(i, g.Backup(), |text|)
                        ==> r[i] == region[i]
    ensures ConfigOff + |text| <= g.size && Mirrored(region, g.offset, g.Backup(), g.size)
            ==> Mirrored(r, g.offset, g.Backup(), g.size)
    ensures ConfigOff + |text| <= g.size && 1 <= |text| < U32Mod && g.Backup() + g.size < |region|
            ==> ExtractConfig(r, g.offset) == Success(Extracted(text[1..] + [0], |text| - 1))
                && ExtractConfig(r, g.Backup()) == Success(Extracted(text[1..] + [0], |text| - 1))
    ensures ConfigOff + |text| <= g.size && |text| == 0 && g.Backup() + g.size < |region|
            ==> ExtractConfig(r, g.offset) == Failure(EmptyLength) && ExtractConfig(r, g.Backup()) == Failure(EmptyLength)
  {
    var primary := PushConfigPart(region, g.offset, text, g, cksum);
    r := PushConfigPart(primary, g.Backup(), text, g, cksum);
    AfterPush(region, primary, r, g.offset, g.Backup(), g, text, cksum);
  }

  /**
   What the two writes of c3725_nvram_push_config leave behind, for a primary
   copy at `a` and a backup copy at `b`, one copy size further on.
   */
  lemma AfterPush(region: seq<u8>, primary: seq<u8>, r: seq<u8>, a: nat, b: nat, g: Geometry, text: seq<u8>, cksum: Checksum)
    requires g.Valid()
    requires a + g.size == b && b + g.size <= |region|
    requires PartWritten(region, primary, a, text, g, cksum)
    requires PartWritten(primary, r, b, text, g, cksum)
    ensures |r| == |region|
    ensures HasLayout(r, b, text) && ChecksumValid(r, b, g.size, cksum)
    ensures ConfigOff + |text| <= g.size ==> HasLayout(r, a, text) && ChecksumValid(r, a, g.size, cksum)
    ensures forall i :: 0 <= i < |r| && OutsideLayout(i, a, |text|) && OutsideLayout(i, b, |text|) ==> r[i] == region[i]
    ensures ConfigOff + |text| <= g.size && Mirrored(region, a, b, g.size) ==> Mirrored(r, a, b, g.size)
    ensures ConfigOff + |text| <= g.size && 1 <= |text| < U32Mod && b + g.size < |region|
            ==> ExtractConfig(r, a) == Success(Extracted(text[1..] + [0], |text| - 1))
                && ExtractConfig(r, b) == Success(Extracted(text[1..] + [0], |text| - 1))
    ensures ConfigOff + |text| <= g.size && |text| == 0 && b + g.size < |region|
            ==> ExtractConfig(r, a) == Failure(EmptyLength) && ExtractConfig(r, b) == Failure(EmptyLength)
  {
    FramesCompose(region, primary, r, a, b, g, text, cksum);
    if ConfigOff + |text| <= g.size {
      BackupSparesPrimary(primary, r, a, b, g, text, cksum);
      CopiesDecode(r, a, b, g, text);
    }
    UnwrittenAfterPush(region, r, a, b, g, text);
    CopiesAfterPush(r, a, b, g, text, cksum);
  }

  /**
   Two copies at `a` and `b` (the primary and the backup) are byte-identical
   when the text fits and they agree on the bytes the encoder leaves alone.
   */
  lemma CopiesAfterPush(r: seq<u8>, a: nat, b: nat, g: Geometry, text: seq<u8>, cksum: Checksum)
    requires g.Valid()
    requires a + g.size <= b && b + g.size <= |r|
    requires ConfigOff + |text| <= g.size ==> HasLayout(r, a, text) && ChecksumValid(r, a, g.size, cksum)
    requires HasLayout(r, b, text) && ChecksumValid(r, b, g.size, cksum)
    ensures ConfigOff + |text| <= g.size && SameUnwritten(r[a .. a + g.size], r[b .. b + g.size], |text|)
            ==> Mirrored(r, a, b, g.size)
  {
    if ConfigOff + |text| <= g.size && SameUnwritten(r[a .. a + g.size], r[b .. b + g.size], |text|) {
      CopiesMatch(r, a, b, text, g, cksum);
    }
  }

  /**
   After the push, the copies at `a` and `b` agree on every byte the encoder
   does not write, provided they agreed before it: both writes keep those bytes.
   */
  lemma UnwrittenAfterPush(region: seq<u8>, r: seq<u8>, a: nat, b: nat, g: Geometry, text: seq<u8>)
    requires g.Valid()
    requires a + g.size <= b && b + g.size <= |region| == |r|
    requires forall i :: 0 <= i < |r| && OutsideLayout(i, a, |text|) && OutsideLayout(i, b, |text|) ==> r[i] == region[i]
    ensures ConfigOff + |text| <= g.size && Mirrored(region, a, b, g.size)
            ==> SameUnwritten(r[a .. a + g.size], r[b .. b + g.size], |text|)
  {
    if ConfigOff + |text| <= g.size && Mirrored(region, a, b, g.size) {
      var c1, c2 := r[a .. a + g.size], r[b .. b + g.size];
      forall i | 0 <= i < g.size && OutsideLayout(i, 0, |text|)
        ensures c1[i] == c2[i]
      {
        assert OutsideLayout(a + i, a, |text|) && OutsideLayout(a + i, b, |text|);
        assert OutsideLayout(b + i, a, |text|) && OutsideLayout(b + i, b, |text|);
        assert region[a .. a + g.size][i] == region[b .. b + g.size][i];
      }
      assert c1[.. Magic1Off] == c2[.. Magic1Off];
      assert c1[HeaderEnd .. ConfigOff] == c2[HeaderEnd .. ConfigOff];
      assert c1[ConfigOff + |text| ..] == c2[ConfigOff + |text| ..];
    }
  }

  /** What the decoder makes of two copies laid out for the same text. */
  lemma CopiesDecode(r: seq<u8>, a: nat, b: nat, g: Geometry, text: seq<u8>)
    requires g.Valid()
    requires ConfigOff + |text| <= g.size
    requires a + g.size <= b && b + g.size <= |r|
    requires HasLayout(r, a, text) && HasLayout(r, b, text)
    ensures 1 <= |text| < U32Mod && b + g.size < |r|
            ==> ExtractConfig(r, a) == Success(Extracted(text[1..] + [0], |text| - 1))
                && ExtractConfig(r, b) == Success(Extracted(text[1..] + [0], |text| - 1))
    ensures |text| == 0 && b + g.size < |r|
            ==> ExtractConfig(r, a) == Failure(EmptyLength) && ExtractConfig(r, b) == Failure(EmptyLength)
  {
    if 1 <= |text| < U32Mod && b + g.size < |r| {
      ExtractOfLayout(r, a, text);
      ExtractOfLayout(r, b, text);
    }
    if |text| == 0 && b + g.size < |r| {
      EmptyLayoutRefused(r, a);
      EmptyLayoutRefused(r, b);
    }
  }

  /** When the text fits in one copy, writing the backup at `b` leaves the primary copy at `a` as it was. */
  lemma BackupSparesPrimary(primary: seq<u8>, r: seq<u8>, a: nat, b: nat, g: Geometry, text: seq<u8>, cksum: Checksum)
    requires g.Valid()
    requires ConfigOff + |text| <= g.size
    requires a + g.size <= b
    requires HasLayout(primary, a, text) && a + g.size <= |primary|
    requires ChecksumValid(primary, a, g.size, cksum)
    requires PartWritten(primary, r, b, text, g, cksum)
    ensures r[a .. a + g.size] == primary[a .. a + g.size]
    ensures HasLayout(r, a, text) && ChecksumValid(r, a, g.size, cksum)
  {
    assert AgreeOn(primary, r, a, a + g.size);
    LayoutTransfer(primary, r, a, text);
    ChecksumTransfer(primary, r, a, g.size, cksum);
  }

  /** Outside the two copies' fields and texts, pushing the configuration changes nothing. */
  lemma FramesCompose(region: seq<u8>, primary: seq<u8>, r: seq<u8>, a: nat, b: nat, g: Geometry, text: seq<u8>, cksum: Checksum)
    requires g.Valid()
    requires PartWritten(region, primary, a, text, g, cksum)
    requires PartWritten(primary, r, b, text, g, cksum)
    ensures forall i :: 0 <= i < |r| && OutsideLayout(i, a, |text|) && OutsideLayout(i, b, |text|) ==> r[i] == region[i]
  {
  }
}
