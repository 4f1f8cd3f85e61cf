/** Which received byte strings are accepted, and what they are taken to say, by byte offset. */
module Acceptance {
  import opened Types
  import opened ByteOrder
  import opened PacketCodec
  import opened CommRaw
  import opened Framing

  /** Field number i of the struct is the bytes from `at` on. */
  lemma {:induction false} FieldAt(s: Bytes, i: nat, at: nat)
    requires |s| >= META_SIZE && i < |LAYOUT| && Total(LAYOUT[..i]) == at
    ensures at + LAYOUT[i] <= META_SIZE && CutMeta(s)[i] == s[at..at + LAYOUT[i]]
  {
    hide Cut, CutMeta, Widths, Total;
    LayoutTotal();
    CutAt(s[..META_SIZE], LAYOUT, i);
    CutAt(s, LAYOUT, i);
    CutMetaIsCut(s);
  }

  lemma {:induction false} TotalOf(front: seq<nat>, w: nat)
    ensures Total(front + [w]) == Total(front) + w
  {
    if front == [] {
      assert [] + [w] == [w];
    } else {
      TotalOf(front[1..], w);
      assert (front + [w])[1..] == front[1..] + [w];
    }
  }

  /** The offsets of the thirteen fields. */
  lemma {:induction false} Offsets()
    ensures Total(LAYOUT[..0]) == 0 && Total(LAYOUT[..1]) == 128 && Total(LAYOUT[..2]) == 132
    ensures Total(LAYOUT[..5]) == 140 && Total(LAYOUT[..7]) == 148 && Total(LAYOUT[..8]) == 152
    ensures Total(LAYOUT[..9]) == 160 && Total(LAYOUT[..10]) == 168 && Total(LAYOUT[..11]) == 176
  {
    hide Total;
    TotalOfNone();
    assert LAYOUT[..0] == [];
    NextOffset(0);
    NextOffset(1);
    NextOffset(2);
    NextOffset(3);
    NextOffset(4);
    NextOffset(5);
    NextOffset(6);
    NextOffset(7);
    NextOffset(8);
    NextOffset(9);
    NextOffset(10);
  }

  lemma {:induction false} NextOffset(i: nat)
    requires i < |LAYOUT|
    ensures Total(LAYOUT[..i + 1]) == Total(LAYOUT[..i]) + LAYOUT[i]
  {
    TotalOf(LAYOUT[..i], LAYOUT[i]);
    assert LAYOUT[..i + 1] == LAYOUT[..i] + [LAYOUT[i]];
  }

  lemma {:induction false} TotalOfNone()
    ensures Total([]) == 0
  {
  }

  /** A 32-bit field as decode_v2 keeps it. */
  lemma {:induction false} Word32(order: Order, s: Bytes, field: Bytes, at: nat)
    requires at + 4 <= |s| && field == s[at..at + 4]
    ensures ToLe32(order, LoadU32(order, field)) == ReadLe32(s[at..])
  {
    hide Bswap32, HostLoad, LeValue, ReadLe32;
    LoadFromLe32(order, field);
    ReadLe32IsLeValue(s[at..]);
    assert s[at..][..4] == field;
  }

  lemma {:induction false} Word16(order: Order, field: Bytes)
    requires |field| == 2
    ensures ToLe16(order, LoadU16(order, field)) == 2 <==> field[0] == 2 && field[1] == 0
  {
    hide Bswap16, HostLoad, LeValue;
    LoadFromLe16(order, field);
    ValueOfTwo(field);
  }

  lemma {:induction false} ValueOfTwo(s: Bytes)
    requires |s| == 2
    ensures LeValue(s) == (s[0] as int) + 256 * (s[1] as int)
  {
    assert LeValue(s[1..]) == s[1];
  }

  lemma {:induction false} Time64(order: Order, field: Bytes)
    requires |field| == 8
    ensures LeValue(field) < 0x1_0000_0000_0000_0000
    ensures AsU64(SwapTime(order, LoadI64(order, field))) == LeValue(field)
  {
    hide Bswap64, HostLoad, LeValue;
    LoadFromLe64(order, field);
  }

  /** What decode_v2 keeps of the metadata, on either kind of machine. */
  lemma {:induction false} MetaByOffset(order: Order, s: Bytes)
    requires |s| >= 304
    ensures var m := MetaReceived(order, LoadMeta(order, s));
      && m.robotName == s[..128]
      && m.magicno == ReadLe32(s[128..])
      && (m.version == 2 <==> s[132] == 2 && s[133] == 0)
      && m.requestType == ReadLe32(s[140..]) && m.bodyLen == ReadLe32(s[148..])
      && AsU64(m.hakoTime) == LeValue(s[152..160])
      && AsU64(m.assetTime) == LeValue(s[160..168])
      && AsU64(m.realTime) == LeValue(s[168..176])
      && m.channelId == ReadLe32(s[176..])
  {
    hide CutMeta, Total, ToLe16, ToLe32, SwapTime, LoadU16, LoadU32, LoadI64, ReadLe32, LeValue, AsU64, Widths;
    Offsets();
    FieldAt(s, 0, 0);
    FieldAt(s, 1, 128);
    FieldAt(s, 2, 132);
    FieldAt(s, 5, 140);
    FieldAt(s, 7, 148);
    FieldAt(s, 8, 152);
    FieldAt(s, 9, 160);
    FieldAt(s, 10, 168);
    FieldAt(s, 11, 176);
    var f := CutMeta(s);
    Word32(order, s, f[1], 128);
    Word16(order, f[2]);
    Word32(order, s, f[5], 140);
    Word32(order, s, f[7], 148);
    Time64(order, f[8]);
    Time64(order, f[9]);
    Time64(order, f[10]);
    Word32(order, s, f[11], 176);
  }

  /** Exactly which byte strings decode_v2 accepts, on either kind of machine. */
  lemma {:induction false} AcceptedV2(order: Order, s: Bytes)
    ensures DecodeV2(order, s).Some? <==>
      && |s| >= 304
      && ReadLe32(s[128..]) == 0x4841_4B4F
      && s[132] == 2 && s[133] == 0
      && |s| - 304 >= ReadLe32(s[148..])
  {
    hide LoadMeta, MetaReceived, ReadLe32, LeValue;
    if |s| >= 304 {
      MetaByOffset(order, s);
    }
  }

  /** What an accepted byte string says; the times are signed 64-bit numbers in two's complement. */
  lemma {:induction false} DecodedV2(order: Order, s: Bytes)
    requires DecodeV2(order, s).Some?
    ensures |s| >= 304
    ensures var p := DecodeV2(order, s).value;
      && RobotName(p) == CString(s[..128])
      && p.meta.channelId == ReadLe32(s[176..])
      && p.meta.requestType == ReadLe32(s[140..])
      && AsU64(p.meta.hakoTime) == LeValue(s[152..160])
      && AsU64(p.meta.assetTime) == LeValue(s[160..168])
      && AsU64(p.meta.realTime) == LeValue(s[168..176])
      && 304 + ReadLe32(s[148..]) <= |s|
      && p.body == s[304..304 + ReadLe32(s[148..])]
  {
    hide LoadMeta, MetaReceived, ReadLe32, LeValue;
    if |s| >= 304 {
      MetaByOffset(order, s);
    }
  }

  /** The length fields encode_v2 writes: 172 more than the body, both modulo 2^32. */
  lemma {:induction false} EncodedLengths(order: Order, p: Packet, requestType: u32)
    requires p.meta.Sized()
    ensures var s := EncodeV2(order, p, requestType);
      && |s| == 304 + |p.body|
      && ReadLe32(s[144..]) == (172 + |p.body|) % 0x1_0000_0000
      && ReadLe32(s[148..]) == |p.body| % 0x1_0000_0000
  {
    hide EncodeV2, ReadLe32, LeBytes, Join, Total, CutMeta, Widths;
    var s := EncodeV2(order, p, requestType);
    EncodedFields(order, p, requestType);
    Offsets();
    NextOffset(5);
    FieldAt(s, 6, 144);
    FieldAt(s, 7, 148);
    WordAt(s, 144, (172 + |p.body|) % 0x1_0000_0000);
    WordAt(s, 148, |p.body| % 0x1_0000_0000);
  }

  lemma {:induction false} EncodedFields(order: Order, p: Packet, requestType: u32)
    requires p.meta.Sized()
    ensures var s := EncodeV2(order, p, requestType);
      && |s| == 304 + |p.body|
      && CutMeta(s)[6] == LeBytes((172 + |p.body|) % 0x1_0000_0000, 4)
      && CutMeta(s)[7] == LeBytes(|p.body| % 0x1_0000_0000, 4)
  {
    hide EncodeV2, LeBytes, Join, Total, HostStore, CutMeta, Cut, AsU64;
    var f := WireFields(p, requestType, HostStore(order, p.meta.reserved, 2));
    var s := EncodeV2(order, p, requestType);
    EncodeV2Wire(order, p, requestType);
    CutJoin(f, p.body);
    LayoutTotal();
    CutMetaIsCut(s);
    assert (FIXED_SIZE - 4 + |p.body| % 0x1_0000_0000) % 0x1_0000_0000 == (172 + |p.body|) % 0x1_0000_0000;
  }

  lemma {:induction false} WordAt(s: Bytes, at: nat, v: u32)
    requires at + 4 <= |s| && s[at..at + 4] == LeBytes(v, 4)
    ensures ReadLe32(s[at..]) == v
  {
    hide LeBytes, ReadLe32;
    assert s[at..] == LeBytes(v, 4) + s[at + 4..];
    ReadWritten(v, s[at + 4..]);
  }

  /** The same for version 1: everything after the channel is the body, and the name is normalised. */
  lemma {:induction false} DecodedV1(s: Bytes)
    requires DecodeV1(s).Some?
    ensures |s| >= 12 && 12 + NameLen(s) <= |s|
    ensures var (p, n) := (DecodeV1(s).value, NameLen(s));
      && RobotName(p) == Normalise(s[8..8 + n])
      && p.meta.channelId == ReadLe32(s[8 + n..])
      && p.body == s[12 + n..]
      && p.meta.hakoTime == p.meta.assetTime == p.meta.realTime == 0
  {
    hide ReadLe32, RobotName, Normalise;
    var n := NameLen(s);
    MakeParts(s[8..8 + n], ReadLe32(s[8 + n..]), s[12 + n..]);
  }

  /** A body that version 1 takes for a control message. */
  predicate StartsWithControl(body: Bytes) {
    |body| >= 4 && ReadLe32(body) in {0x5245_5044, 0x5750_5044, 0x5750_5045}
  }

  /** on_raw_data_received calls back exactly for accepted packets of the data type: in version 2 the type
      field says so, in version 1 the body does not start with a control value. */
  lemma {:induction false} CalledBackIff(version: Version, order: Order, s: Bytes)
    ensures version.V2? ==>
      (Receive(version, order, s).Some? <==> DecodeV2(order, s).Some? && ReadLe32(s[140..]) == 0x4255_5043)
    ensures version.V1? ==>
      (Receive(version, order, s).Some? <==>
         DecodeV1(s).Some? && 12 + NameLen(s) <= |s| && !StartsWithControl(s[12 + NameLen(s)..]))
  {
    hide DecodeV1, DecodeV2, ReadLe32, LeValue, Normalise;
    match version
    case V1 => if DecodeV1(s).Some? { DecodedV1(s); }
    case V2 => if DecodeV2(order, s).Some? { DecodedV2(order, s); }
  }

  /** What the callback is handed, by offset. */
  lemma {:induction false} CalledBackWith(version: Version, order: Order, s: Bytes)
    requires Receive(version, order, s).Some?
    ensures |s| >= 12
    ensures var m := Receive(version, order, s).value;
      match version
      case V1 =>
        && 12 + NameLen(s) <= |s|
        && m.key.robot == Normalise(s[8..8 + NameLen(s)])
        && AsU32(m.key.channel) == ReadLe32(s[8 + NameLen(s)..])
        && m.data == s[12 + NameLen(s)..]
      case V2 =>
        && |s| >= 304 && 304 + ReadLe32(s[148..]) <= |s|
        && m.key.robot == CString(s[..128])
        && AsU32(m.key.channel) == ReadLe32(s[176..])
        && m.data == s[304..304 + ReadLe32(s[148..])]
  {
    hide DecodeV1, DecodeV2, ReadLe32, LeValue, Normalise, CString;
    match version
    case V1 => DecodedV1(s);
    case V2 => DecodedV2(order, s);
  }

  /** The normalised name is the longest front of the name with no NUL and at most 127 bytes. */
  lemma {:induction false} NormaliseIsLongest(name: Bytes)
    ensures var r := Normalise(name);
      && |r| <= |name| && r == name[..|r|] && 0 !in r && |r| <= 127
      && (|r| == 127 || |r| == |name| || name[|r|] == 0)
  {
  }
}
