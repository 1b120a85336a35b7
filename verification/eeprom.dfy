/**
 The chassis identity EEPROM of the Cisco 3725 and its base MAC address: the
 mainboard EEPROM template, c3725_burn_mac_addr (which writes the MAC address
 where the EEPROM's format version says it lives), the default MAC address
 of c3725_init_defaults and c3725_chassis_set_mac_addr.

 The EEPROM is a byte sequence. The helpers of cisco_eeprom.c are not part of
 this model: byte i of the EEPROM is read as the big-endian byte i of its
 16-bit data words, a region store writes byte by byte and stops at the end of
 the EEPROM, and the field directory lookup of format version 4 is a function
 parameter.
 */
module Eeprom {
  import opened Common
  import opened Bytes

  /** cisco_eeprom_v4_find_field: where the data of the field with a given tag starts, if present. */
  type FindField = (seq<u8>, u8) -> Option<nat>

  /** The tag of the MAC address field in a version 4 EEPROM. */
  const MacTag: u8 := 0xC3

  /** Where a version 0 EEPROM keeps the MAC address. */
  const V0MacOff: nat := 2

  const MacLen: nat := 6

  /** The mainboard EEPROM data words, `eeprom_c3725_mainboard_data`, eight to a row. */
  const MainboardWords: seq<u16> :=
    [0x04FF, 0xC18B, 0x5858, 0x5858, 0x5858, 0x5858, 0x5858, 0x5809]
    + [0x6140, 0x0259, 0xC046, 0x0320, 0x003F, 0x1302, 0x4244, 0x3085]
    + [0x1C10, 0x8206, 0x80FF, 0xFFFF, 0xFFC4, 0x08FF, 0xFFFF, 0xFFFF]
    + [0xFFFF, 0xFF81, 0xFFFF, 0xFFFF, 0x03FF, 0x04FF, 0xC28B, 0x5858]
    + [0x5858, 0x5858, 0x5858, 0x5858, 0x58C3, 0x0600, 0x1319, 0x5C6F]
    + [0x7043, 0x0030, 0xC508, 0xFFFF, 0xFFFF, 0xFFFF, 0xFFFF, 0x4100]
    + [0x0101, 0x02FF, 0xFFFF, 0xFFFF, 0xFFFF, 0xFFFF, 0xFFFF, 0xFFFF]
    + [0xFFFF, 0xFFFF, 0xFFFF, 0xFFFF, 0xFFFF, 0xFFFF, 0xFFFF, 0xFFFF]

  /** The bytes of 16-bit words, each word high byte first. */
  function WordBytes(words: seq<u16>): (bs: seq<u8>)
    ensures |bs| == 2 * |words|
  {
    seq(2 * |words|, i requires 0 <= i < 2 * |words| =>
      if i % 2 == 0 then (words[i / 2] as nat / 0x100) as u8 else (words[i / 2] as nat % 0x100) as u8)
  }

  /** Word k reads back, big-endian, from bytes 2k and 2k + 1. */
  lemma WordBytesRead(words: seq<u16>, k: nat)
    requires k < |words|
    ensures Be16(WordBytes(words), 2 * k) == words[k] as nat
  {
    var bs := WordBytes(words);
    assert (2 * k) / 2 == k && (2 * k) % 2 == 0;
    assert (2 * k + 1) / 2 == k && (2 * k + 1) % 2 == 1;
    assert bs[2 * k] as nat == words[k] as nat / 0x100;
    assert bs[2 * k + 1] as nat == words[k] as nat % 0x100;
  }

  /** The mainboard EEPROM as c3725_init_defaults copies it into the router. */
  function Mainboard(): (e: seq<u8>)
    ensures |e| == 128
  {
    WordBytes(MainboardWords)
  }

  /** The template is in format version 4, and carries a MAC address field tag with a 6-byte length. */
  lemma MainboardIsVersion4()
    ensures Mainboard()[0] == 4
    ensures Mainboard()[73] == MacTag && Mainboard()[74] == MacLen as u8
  {
    var e := Mainboard();
    assert MainboardWords[0] == 0x04FF;
    assert MainboardWords[36] == 0x58C3;
    assert MainboardWords[37] == 0x0600;
    assert e[0] == (MainboardWords[0] as nat / 0x100) as u8;
    assert e[73] == (MainboardWords[36] as nat % 0x100) as u8;
    assert e[74] == (MainboardWords[37] as nat / 0x100) as u8;
  }

  /** cisco_eeprom_set_region: `data` written from `off` on, one byte at a time until the end of the EEPROM. */
  function SetRegion(e: seq<u8>, off: nat, data: seq<u8>): (e2: seq<u8>)
    ensures |e2| == |e|
    ensures forall i :: 0 <= i < |e| ==> e2[i] == if off <= i < off + |data| then data[i - off] else e[i]
  {
    seq(|e|, i requires 0 <= i < |e| => if off <= i < off + |data| then data[i - off] else e[i])
  }

  /** A region store reads back: the bytes that fit in the EEPROM are the data's first bytes. */
  lemma SetRegionReadBack(e: seq<u8>, off: nat, data: seq<u8>)
    requires off <= |e|
    ensures off + |data| <= |e| ==> SetRegion(e, off, data)[off .. off + |data|] == data
    ensures off + |data| > |e| ==> SetRegion(e, off, data)[off ..] == data[.. |e| - off]
    ensures SetRegion(e, off, data)[.. off] == e[.. off]
  {
  }

  /** The last of two stores at the same offset wins, when it is at least as long as the first. */
  lemma SetRegionLastWins(e: seq<u8>, off: nat, d1: seq<u8>, d2: seq<u8>)
    requires |d1| <= |d2|
    ensures SetRegion(SetRegion(e, off, d1), off, d2) == SetRegion(e, off, d2)
  {
  }

  /** Stores into disjoint ranges commute. */
  lemma SetRegionCommute(e: seq<u8>, off1: nat, d1: seq<u8>, off2: nat, d2: seq<u8>)
    requires off1 + |d1| <= off2
    ensures SetRegion(SetRegion(e, off1, d1), off2, d2) == SetRegion(SetRegion(e, off2, d2), off1, d1)
  {
  }

  /** Where c3725_burn_mac_addr writes the MAC address, if the format version is one it handles and the field is found. */
  function MacOffset(e: seq<u8>, findField: FindField): (off: Option<nat>)
    requires |e| > 0
  {
    if e[0] == 0 then Some(V0MacOff)
    else if e[0] == 4 then findField(e, MacTag)
    else None
  }

  /**
   c3725_burn_mac_addr. The format version is the EEPROM's first byte. Version
   0 takes the address at offset 2, version 4 at the MAC field if the field is
   found (if not, nothing is written and the result is still 0); any other
   version is refused with -1 and the EEPROM unchanged.
   */
  function BurnMacAddr(e: seq<u8>, mac: seq<u8>, findField: FindField): (res: (int, seq<u8>))
    requires |e| > 0 && |mac| == MacLen
    ensures res.0 == 0 || res.0 == -1
    ensures res.0 == -1 <==> e[0] != 0 && e[0] != 4
    ensures |res.1| == |e|
    ensures MacOffset(e, findField).None? ==> res.1 == e
    ensures MacOffset(e, findField).Some? ==>
              var off := MacOffset(e, findField).value;
              && (forall i :: 0 <= i < |e| && !(off <= i < off + MacLen) ==> res.1[i] == e[i])
              && (off + MacLen <= |e| ==> res.1[off .. off + MacLen] == mac)
  {
    var version := e[0];
    if version == 0 then (0, SetRegion(e, V0MacOff, mac))
    else if version == 4 then
      match findField(e, MacTag)
      case Some(off) => (0, SetRegion(e, off, mac))
      case None => (0, e)
    else (-1, e)
  }

  /** The MAC address an EEPROM carries, read where c3725_burn_mac_addr would write it. */
  function StoredMac(e: seq<u8>, findField: FindField): (mac: Option<seq<u8>>)
    requires |e| > 0
    ensures mac.Some? ==> |mac.value| == MacLen
  {
    match MacOffset(e, findField)
    case Some(off) => if off + MacLen <= |e| then Some(e[off .. off + MacLen]) else None
    case None => None
  }

  /**
   A burnt MAC address reads back, provided the MAC field lies inside the
   EEPROM, does not cover the version byte, and is still found in the same
   place after the write.
   */
  lemma BurnThenRead(e: seq<u8>, mac: seq<u8>, findField: FindField)
    requires |e| > 0 && |mac| == MacLen
    requires MacOffset(e, findField).Some?
    requires 1 <= MacOffset(e, findField).value && MacOffset(e, findField).value + MacLen <= |e|
    requires e[0] == 4 ==> findField(BurnMacAddr(e, mac, findField).1, MacTag) == findField(e, MacTag)
    ensures StoredMac(BurnMacAddr(e, mac, findField).1, findField) == Some(mac)
  {
    var e2 := BurnMacAddr(e, mac, findField).1;
    assert e2[0] == e[0];
  }

  /** Burning a second address replaces the first: only the last burn is seen. */
  lemma BurnTwice(e: seq<u8>, mac1: seq<u8>, mac2: seq<u8>, findField: FindField)
    requires |e| > 0 && |mac1| == MacLen && |mac2| == MacLen
    requires MacOffset(e, findField).Some? ==> 1 <= MacOffset(e, findField).value
    requires e[0] == 4 ==> findField(BurnMacAddr(e, mac1, findField).1, MacTag) == findField(e, MacTag)
    ensures BurnMacAddr(BurnMacAddr(e, mac1, findField).1, mac2, findField) == BurnMacAddr(e, mac2, findField)
  {
    var e1 := BurnMacAddr(e, mac1, findField).1;
    if MacOffset(e, findField).Some? {
      assert e1[0] == e[0];
      assert MacOffset(e1, findField) == MacOffset(e, findField);
      var off := MacOffset(e, findField).value;
      assert SetRegion(e1, off, mac2) == SetRegion(e, off, mac2);
    }
  }

  /**
   The default chassis MAC address of c3725_init_defaults: the VM's MAC
   prefix byte, the low byte of the instance id, the process id truncated to
   16 bits (high byte first), then two zero bytes.
   */
  function ChassisMac(msb: u8, instanceId: int, pid: int): (mac: seq<u8>)
    ensures |mac| == MacLen
    ensures mac[0] == msb && mac[1] as int == instanceId % 0x100
    ensures Be16(mac, 2) == pid % 0x1_0000
    ensures mac[4] == 0 && mac[5] == 0
  {
    var pid16 := pid % 0x1_0000;
    [msb, (instanceId % 0x100) as u8, (pid16 / 0x100) as u8, (pid16 % 0x100) as u8, 0, 0]
  }

  /** Instances whose ids differ in the low byte get different default addresses, whatever their process ids. */
  lemma ChassisMacSeparatesInstances(msb: u8, id1: int, id2: int, pid1: int, pid2: int)
    requires id1 % 0x100 != id2 % 0x100
    ensures ChassisMac(msb, id1, pid1) != ChassisMac(msb, id2, pid2)
  {
    assert ChassisMac(msb, id1, pid1)[1] != ChassisMac(msb, id2, pid2)[1];
  }

  /**
   The start of c3725_init_defaults: the default MAC address burnt into a copy
   of the mainboard template, which is version 4, so the address lands in the
   template's MAC field wherever the field lookup puts it.
   */
  function InitDefaultEeprom(msb: u8, instanceId: int, pid: int, findField: FindField): (e: seq<u8>)
    ensures |e| == |Mainboard()|
    ensures findField(Mainboard(), MacTag).None? ==> e == Mainboard()
    ensures findField(Mainboard(), MacTag).Some? && findField(Mainboard(), MacTag).value + MacLen <= |e|
            ==> var off := findField(Mainboard(), MacTag).value;
                e[off .. off + MacLen] == ChassisMac(msb, instanceId, pid)
    ensures findField(Mainboard(), MacTag).Some? ==>
              var off := findField(Mainboard(), MacTag).value;
              forall i :: 0 <= i < |e| && !(off <= i < off + MacLen) ==> e[i] == Mainboard()[i]
    ensures findField(Mainboard(), MacTag).Some? && findField(Mainboard(), MacTag).value >= 1 ==> e[0] == 4
  {
    MainboardIsVersion4();
    BurnMacAddr(Mainboard(), ChassisMac(msb, instanceId, pid), findField).1
  }

  /**
   c3725_chassis_set_mac_addr, given what parse_mac_addr made of the text
   (`None` when it failed). A parse failure is refused with -1 and nothing
   changes; otherwise the address becomes the router's and is burnt, and the
   result is 0 even when the EEPROM version is not handled.
   */
  function ChassisSetMacAddr(e: seq<u8>, mac: seq<u8>, parsed: Option<seq<u8>>, findField: FindField)
    : (res: (int, seq<u8>, seq<u8>))
    requires |e| > 0 && |mac| == MacLen
    requires parsed.Some? ==> |parsed.value| == MacLen
    ensures res.0 == 0 <==> parsed.Some?
    ensures res.0 != 0 ==> res.0 == -1 && res.1 == e && res.2 == mac
    ensures parsed.Some? ==> res.2 == parsed.value && res.1 == BurnMacAddr(e, parsed.value, findField).1
  {
    match parsed
    case None => (-1, e, mac)
    case Some(m) => (0, BurnMacAddr(e, m, findField).1, m)
  }
}
