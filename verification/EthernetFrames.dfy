/** Ethernet frames in a packet buffer and their 802.1Q tags, server/Layer2/layer2.c and layer2.h
    (tag control information: IEEE 802.1Q-2018, clause 9.6).  A frame is its bytes: two addresses of
    six, a tag of four or none, a type of two, the payload and four bytes of checksum. */
module EthernetFrames {
  newtype Byte = x: int | 0 <= x < 256

  const ETH_SIZE: nat := 18        // ETH_HDR_SIZE_EXCL_PAYLOAD
  const VLAN_ETH_SIZE: nat := 22   // VLAN_ETH_HDR_SIZE_EXCL_PAYLOAD

  type Frame = seq<Byte>

  /** is_pkt_vlan_tagged: 0x8100 in the place of the type, low byte first as the host stores it. */
  predicate IsTagged(f: Frame)
  {
    14 <= |f| && f[12] == 0x00 && f[13] == 0x81
  }

  /** The twelve bits of tci_vid, above the three of tci_pcp and the one of tci_dei. */
  function VidBits(f: Frame): nat
    requires 16 <= |f|
  {
    f[14] as int / 16 + 16 * f[15] as int
  }

  /** GET_802_1Q_VLAN_ID: tci_vid is a signed field, so 2048 and above come out as huge numbers. */
  function Vid(f: Frame): nat
    requires 16 <= |f|
  {
    if VidBits(f) < 2048 then VidBits(f) else 0x1_0000_0000 - 4096 + VidBits(f)
  }

  function LowByte(vlan: nat): Byte
  {
    ((vlan % 16) * 16) as Byte
  }

  function HighByte(vlan: nat): Byte
  {
    ((vlan / 16) % 256) as Byte
  }

  const NO_FCS: Frame := [0, 0, 0, 0]

  /** Long enough, and not tagged twice. */
  predicate WellFormed(f: Frame)
  {
    && ETH_SIZE <= |f|
    && (IsTagged(f) ==> VLAN_ETH_SIZE <= |f| && !(f[16] == 0x00 && f[17] == 0x81))
  }

  /** An untagged frame with a tag put in; the checksum is cleared. */
  function Tag(f: Frame, vlan: nat): (r: Frame)
    requires ETH_SIZE <= |f|
    ensures |r| == |f| + 4
  {
    f[..12] + [0x00, 0x81, LowByte(vlan), HighByte(vlan)] + f[12..|f| - 4] + NO_FCS
  }

  /** A tagged frame with its tag taken out; the checksum is cleared. */
  function Untag(f: Frame): (r: Frame)
    requires VLAN_ETH_SIZE <= |f|
    ensures |r| == |f| - 4
  {
    f[..12] + f[16..|f| - 4] + NO_FCS
  }

  function ClearFcs(f: Frame): (r: Frame)
    requires 4 <= |f|
    ensures |r| == |f|
  {
    f[..|f| - 4] + NO_FCS
  }

  /** The frame without tag and checksum. */
  function Plain(f: Frame): Frame
    requires WellFormed(f)
  {
    if IsTagged(f) then Untag(f) else ClearFcs(f)
  }

  // ---- on the wire ----

  /** A field of two bytes, stored low byte first. */
  function Word(f: Frame, k: nat): nat
    requires k + 2 <= |f|
  {
    f[k] as int + 256 * f[k + 1] as int
  }

  /** The tag of a frame: 0x8100, then the id in the upper twelve bits of the next field. */
  lemma TagOnWire(f: Frame)
    requires ETH_SIZE <= |f|
    ensures IsTagged(f) <==> Word(f, 12) == 0x8100
    ensures Vid(f) == if Word(f, 14) / 16 < 2048 then Word(f, 14) / 16 else 0x1_0000_0000 - 4096 + Word(f, 14) / 16
  {
  }

  /** Tagging puts it in between addresses and type, its lowest four bits 0, and clears the checksum. */
  lemma TagPutsIn(f: Frame, vlan: nat)
    requires ETH_SIZE <= |f| && vlan < 4096
    ensures var g := Tag(f, vlan);
      && g[..12] == f[..12] && Word(g, 12) == 0x8100 && Word(g, 14) == 16 * vlan
      && g[16..|f|] == f[12..|f| - 4] && g[|f|..] == [0, 0, 0, 0]
  {
  }

  lemma UntagTakesOut(f: Frame)
    requires VLAN_ETH_SIZE <= |f|
    ensures var g := Untag(f);
      g[..12] == f[..12] && g[12..|f| - 8] == f[16..|f| - 4] && g[|f| - 8..] == [0, 0, 0, 0]
  {
  }

  /** Tagging and untagging give back the frame with its checksum cleared, so exactly the frame if
      that was clear already. */
  lemma TagThenUntag(f: Frame, vlan: nat)
    requires ETH_SIZE <= |f|
    ensures IsTagged(Tag(f, vlan))
    ensures Untag(Tag(f, vlan)) == ClearFcs(f)
    ensures Untag(Tag(f, vlan)) == f <==> f[|f| - 4..] == NO_FCS
  {
  }

  /** The id read back from a tag is the one put in exactly for ids up to 2047; the others of twelve
      bits come back as something no port is configured with. */
  lemma VidReadBack(f: Frame, vlan: nat)
    requires ETH_SIZE <= |f| && vlan < 4096
    ensures Vid(Tag(f, vlan)) == vlan <==> vlan <= 2047
    ensures 2047 < vlan ==> 4096 <= Vid(Tag(f, vlan))
  {
  }

  lemma TagWellFormed(f: Frame, vlan: nat)
    requires ETH_SIZE <= |f| && !IsTagged(f)
    ensures WellFormed(Tag(f, vlan)) && Plain(Tag(f, vlan)) == Plain(f)
  {
  }

  lemma UntagWellFormed(f: Frame)
    requires WellFormed(f) && IsTagged(f)
    ensures WellFormed(Untag(f)) && !IsTagged(Untag(f)) && Plain(Untag(f)) == Untag(f) == Plain(f)
  {
  }

  /** A frame that is tagged already gets another id; the other bits of its tag stay. */
  function Retag(f: Frame, vlan: nat): (r: Frame)
    requires VLAN_ETH_SIZE <= |f|
    ensures |r| == |f|
  {
    ClearFcs(f[14 := (LowByte(vlan) as int + f[14] as int % 16) as Byte][15 := HighByte(vlan)])
  }

  lemma RetagChangesId(f: Frame, vlan: nat)
    requires VLAN_ETH_SIZE <= |f| && vlan < 4096
    ensures var g := Retag(f, vlan);
      && g[..14] == f[..14] && Word(g, 14) / 16 == vlan && Word(g, 14) % 16 == Word(f, 14) % 16
      && g[16..|f| - 4] == f[16..|f| - 4] && g[|f| - 4..] == [0, 0, 0, 0]
  {
    var low, high := (LowByte(vlan) as int + f[14] as int % 16) as Byte, HighByte(vlan);
    var h := f[14 := low][15 := high];
    assert h[..14] == f[..14] && h[16..|f| - 4] == f[16..|f| - 4];
    var g := Retag(f, vlan);
    assert g[..14] == h[..14] && g[14] == low && g[15] == high && g[16..|f| - 4] == h[16..|f| - 4];
  }

  lemma TagAt(f: Frame, vlan: nat, k: nat)
    requires ETH_SIZE <= |f| && k < |f| + 4
    ensures Tag(f, vlan)[k] ==
      if k < 12 then f[k] else if k < 16 then [0x00, 0x81, LowByte(vlan), HighByte(vlan)][k - 12]
      else if k < |f| then f[k - 4] else 0
  {
  }

  lemma UntagAt(f: Frame, k: nat)
    requires VLAN_ETH_SIZE <= |f| && k < |f| - 4
    ensures Untag(f)[k] == if k < 12 then f[k] else if k < |f| - 8 then f[k + 4] else 0
  {
  }

  // ---- in the buffer ----

  /** memcpy into the buffer. */
  method Copy(buf: array<Byte>, to: nat, bytes: seq<Byte>)
    requires to + |bytes| <= buf.Length
    modifies buf
    ensures forall k | 0 <= k < buf.Length :: buf[k] == if to <= k < to + |bytes| then bytes[k - to] else old(buf[k])
  {
    forall k | 0 <= k < |bytes| {
      buf[to + k] := bytes[k];
    }
  }

  /** The second part of tag_pkt_with_vlan_id: the addresses move four bytes down to make room for the tag. */
  method PutTag(buf: array<Byte>, start: nat, size: nat, vlan: nat)
    requires 4 <= start && start + size <= buf.Length && ETH_SIZE <= size
    modifies buf
    ensures buf[start - 4..start + size] == Tag(old(buf[start..start + size]), vlan)
    ensures forall k | 0 <= k < start - 4 || start + size <= k < buf.Length :: buf[k] == old(buf[k])
  {
    ghost var f := buf[start..start + size];
    assert forall k | 0 <= k < size :: buf[start + k] == f[k];
    var macs := buf[start..start + 12];
    Copy(buf, start - 4, macs);
    Copy(buf, start + 8, [0x00, 0x81, LowByte(vlan), HighByte(vlan)]);
    Copy(buf, start + size - 4, NO_FCS);
    forall k | 0 <= k < size + 4 ensures buf[start - 4 + k] == Tag(f, vlan)[k] {
      TagAt(f, vlan, k);
    }
    hide Tag;
    assert buf[start - 4..start + size] == Tag(f, vlan);
  }

  /** tag_pkt_with_vlan_id: a tag that is there is changed in place. */
  method TagPkt(buf: array<Byte>, start: nat, size: nat, vlan: nat) returns (newStart: nat, newSize: nat)
    requires 4 <= start && start + size <= buf.Length && WellFormed(buf[start..start + size])
    modifies buf
    ensures newStart + newSize == start + size && newStart == if IsTagged(old(buf[start..start + size])) then start
      else start - 4
    ensures buf[newStart..newStart + newSize] ==
      if IsTagged(old(buf[start..start + size])) then Retag(old(buf[start..start + size]), vlan)
        else Tag(old(buf[start..start + size]), vlan)
    ensures forall k | 0 <= k < newStart || start + size <= k < buf.Length :: buf[k] == old(buf[k])
  {
    ghost var f := buf[start..start + size];
    assert forall k | 0 <= k < size :: buf[start + k] == f[k];
    if buf[start + 12] == 0x00 && buf[start + 13] == 0x81 {
      buf[start + 14] := (LowByte(vlan) as int + buf[start + 14] as int % 16) as Byte;
      buf[start + 15] := HighByte(vlan);
      Copy(buf, start + size - 4, NO_FCS);
      assert buf[start..start + size] == Retag(f, vlan);
      return start, size;
    }
    newStart, newSize := start - 4, size + 4;
    PutTag(buf, start, size, vlan);
  }

  /** untag_pkt_with_vlan_id: the addresses move four bytes up. */
  method UntagPkt(buf: array<Byte>, start: nat, size: nat) returns (newStart: nat, newSize: nat)
    requires start + size <= buf.Length && WellFormed(buf[start..start + size])
    modifies buf
    ensures newStart + newSize == start + size && newStart == if IsTagged(old(buf[start..start + size])) then start + 4
      else start
    ensures buf[newStart..newStart + newSize] ==
      if IsTagged(old(buf[start..start + size])) then Untag(old(buf[start..start + size]))
        else old(buf[start..start + size])
    ensures forall k | 0 <= k < start || start + size <= k < buf.Length :: buf[k] == old(buf[k])
  {
    ghost var f := buf[start..start + size];
    assert forall k | 0 <= k < size :: buf[start + k] == f[k];
    if !(buf[start + 12] == 0x00 && buf[start + 13] == 0x81) {
      return start, size;
    }
    newStart, newSize := start + 4, size - 4;
    var macs := buf[start..start + 12];
    Copy(buf, newStart, macs);
    Copy(buf, start + size - 4, NO_FCS);
    forall k | 0 <= k < newSize ensures buf[newStart + k] == Untag(f)[k] {
      UntagAt(f, k);
    }
    hide Untag;
    assert buf[newStart..newStart + newSize] == Untag(f);
  }
}
