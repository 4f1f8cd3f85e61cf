/** The DataPacket class: setters, and the encoders and decoders that fill and scan buffers. */
module DataPackets {
  import opened Types
  import opened ByteOrder
  import opened PacketCodec

  /** A buffer after `bytes` were stored at `at`. */
  function Patched(s: Bytes, at: nat, bytes: Bytes): (r: Bytes)
    requires at + |bytes| <= |s|
    ensures |r| == |s|
  {
    s[..at] + bytes + s[at + |bytes|..]
  }

  /** write_le32(out + at, value). */
  method WriteLe32(out: array<byte>, at: nat, value: u32)
    requires at + 4 <= out.Length
    modifies out
    ensures out[..] == Patched(old(out[..]), at, LeBytes(value, 4))
  {
    out[at] := value % 0x100;
    out[at + 1] := value / 0x100 % 0x100;
    out[at + 2] := value / 0x1_0000 % 0x100;
    out[at + 3] := value / 0x100_0000 % 0x100;
    DigitsAreLeBytes(value);
  }

  lemma {:induction false} DigitsAreLeBytes(v: u32)
    ensures LeBytes(v, 4) == [v % 0x100, v / 0x100 % 0x100, v / 0x1_0000 % 0x100, v / 0x100_0000 % 0x100]
  {
    assert Pow256(4) == 0x1_0000_0000;
    var s := LeBytes(v, 4);
    LeRoundTrip(v, 4);
    ReadLe32IsLeValue(s);
    assert s[..4] == s;
    Digits32(s[0], s[1], s[2], s[3], v);
  }

  /** memcpy(out + at, bytes, size). */
  method CopyTo(out: array<byte>, at: nat, bytes: Bytes)
    requires at + |bytes| <= out.Length
    modifies out
    ensures out[..] == Patched(old(out[..]), at, bytes)
  {
    forall i | 0 <= i < |bytes| {
      out[at + i] := bytes[i];
    }
  }

  /** Storing at the end of what is filled extends it. */
  lemma {:induction false} PatchExtends(s: Bytes, at: nat, bytes: Bytes)
    requires at + |bytes| <= |s|
    ensures Patched(s, at, bytes)[..at + |bytes|] == s[..at] + bytes
  {
  }

  /** Five stores, each where the one before ended, fill the buffer with the five parts in order. */
  lemma {:induction false} FiveStores(s: Bytes, a: Bytes, b: Bytes, c: Bytes, d: Bytes, e: Bytes)
    requires |s| == |a| + |b| + |c| + |d| + |e|
    ensures var s1 := Patched(s, 0, a);
            var s2 := Patched(s1, |a|, b);
            var s3 := Patched(s2, |a| + |b|, c);
            var s4 := Patched(s3, |a| + |b| + |c|, d);
            Patched(s4, |a| + |b| + |c| + |d|, e) == a + b + c + d + e
  {
    hide Patched;
    PatchExtends(s, 0, a);
    var s1 := Patched(s, 0, a);
    assert s[..0] + a == a;
    PatchExtends(s1, |a|, b);
    var s2 := Patched(s1, |a|, b);
    PatchExtends(s2, |a| + |b|, c);
    var s3 := Patched(s2, |a| + |b|, c);
    PatchExtends(s3, |a| + |b| + |c|, d);
    var s4 := Patched(s3, |a| + |b| + |c|, d);
    PatchExtends(s4, |a| + |b| + |c| + |d|, e);
    var s5 := Patched(s4, |a| + |b| + |c| + |d|, e);
    assert s5 == s5[..|s|];
  }

  lemma {:induction false} StoreNothing(s: Bytes, at: nat)
    requires at <= |s|
    ensures Patched(s, at, []) == s
  {
  }

  class DataPacket {
    var meta: MetaPdu
    var body: Bytes

    constructor (name: Bytes, channel: u32, body: Bytes)
      ensures View() == Make(name, channel, body)
    {
      meta := MetaPdu(NameField(name), 0, 0, 0, 0, 0, 0, 0, 0, 0, 0, channel, Zeros(124));
      this.body := body;
    }

    constructor FromMeta(meta: MetaPdu, body: Bytes)
      ensures View() == Packet.Packet(meta, body)
    {
      this.meta, this.body := meta, body;
    }

    ghost function View(): Packet
      reads this
    {
      Packet.Packet(meta, body)
    }

    /** After set_robot_name the name reads back normalised and nothing else has changed. */
    method SetRobotName(name: Bytes)
      modifies this`meta
      ensures meta == old(meta).(robotName := meta.robotName) && |meta.robotName| == NAME_SIZE
      ensures RobotName(View()) == Normalise(name)
    {
      meta := meta.(robotName := NameField(name));
      NameFieldHoldsName(name);
    }

    /** encode_v1: a buffer of the total length, filled from front to back. */
    method EncodeAsV1() returns (result: array<byte>)
      requires FitsV1(View())
      ensures fresh(result) && result[..] == EncodeV1(View())
    {
      hide LeBytes, CString, Patched, EncodeV1, Wrap32;
      var name := CString(meta.robotName);
      EncodedParts(View(), name);
      var nameLen := Wrap32(|name|);
      var bodyLen := Wrap32(|body|);
      var headerLen := Wrap32(4 + nameLen + 4 + bodyLen);
      var totalLen := Wrap32(4 + headerLen);
      result := new byte[totalLen];
      FiveStores(result[..], LeBytes(headerLen, 4), LeBytes(nameLen, 4), name, LeBytes(meta.channelId, 4), body);
      var offset := 0;
      WriteLe32(result, offset, headerLen);
      offset := offset + 4;
      WriteLe32(result, offset, nameLen);
      offset := offset + 4;
      CopyTo(result, offset, name);
      offset := offset + nameLen;
      WriteLe32(result, offset, meta.channelId);
      offset := offset + 4;
      StoreNothing(result[..], offset);
      if body != [] {
        CopyTo(result, offset, body);
      }
    }

    /** The lengths encode_v1 computes do not wrap when they fit, and its five parts. */
    static lemma {:induction false} EncodedParts(p: Packet, name: Bytes)
      requires FitsV1(p) && name == CString(p.meta.robotName)
      ensures Wrap32(|name|) == |name| && Wrap32(|p.body|) == |p.body|
      ensures Wrap32(4 + |name| + 4 + |p.body|) == 8 + |name| + |p.body|
      ensures Wrap32(4 + (8 + |name| + |p.body|)) == 12 + |name| + |p.body| == |EncodeV1(p)|
      ensures EncodeV1(p) == LeBytes(8 + |name| + |p.body|, 4) + LeBytes(|name|, 4) + name + LeBytes(p.meta.channelId, 4) + p.body
    {
      hide LeBytes, CString;
    }

    /** encode_v2: a converted copy of the struct, then the body. */
    method EncodeAsV2(order: Order, requestType: u32) returns (encoded: Bytes)
      requires meta.Sized()
      ensures encoded == EncodeV2(order, View(), requestType)
    {
      hide Join, Fields, SwapTime, ToLe32, ToLe16;
      var send := meta;
      var bodyLen := Wrap32(|body|);
      send := send.(magicno := ToLe32(order, META_MAGIC));
      send := send.(version := ToLe16(order, VERSION_2));
      send := send.(flags := ToLe32(order, 0));
      send := send.(requestType := ToLe32(order, requestType));
      send := send.(bodyLen := ToLe32(order, bodyLen));
      send := send.(totalLen := ToLe32(order, Wrap32(FIXED_SIZE - 4 + bodyLen)));
      send := send.(hakoTime := SwapTime(order, send.hakoTime));
      send := send.(assetTime := SwapTime(order, send.assetTime));
      send := send.(realTime := SwapTime(order, send.realTime));
      send := send.(channelId := ToLe32(order, send.channelId));
      encoded := Join(Fields(order, send));
      encoded := encoded + body;
    }

    /** decode_v1: an index moves over the bytes; every access is in range for every input. */
    static method FromV1(data: Bytes) returns (packet: DataPacket?)
      ensures packet == null <==> DecodeV1(data).None?
      ensures packet != null ==> fresh(packet) && packet.View() == DecodeV1(data).value
    {
      hide ReadLe32, Make;
      if |data| < 4 {
        return null;
      }
      var index := 0;
      if index + 4 > |data| {
        return null;
      }
      var headerLen := ReadLe32(data[index..]);
      assert data[index..] == data;
      index := index + 4;
      if |data| < Wrap32(4 + headerLen) {
        return null;
      }
      if index + 4 > |data| {
        return null;
      }
      var nameLen := ReadLe32(data[index..]);
      index := index + 4;
      if index + nameLen + 4 > |data| {
        return null;
      }
      var minimum: nat := 4 + (nameLen as int) + 4;
      if headerLen < Wrap32(minimum) {
        return null;
      }
      var name := data[index..index + nameLen];
      index := index + nameLen;
      if index + 4 > |data| {
        return null;
      }
      var channel := ReadLe32(data[index..]);
      index := index + 4;
      var body := data[index..];
      packet := new DataPacket(name, channel, body);
    }

    /** decode_v2: the struct is copied out, converted in place and checked. */
    static method FromV2(order: Order, data: Bytes) returns (packet: DataPacket?)
      ensures packet == null <==> DecodeV2(order, data).None?
      ensures packet != null ==> fresh(packet) && packet.View() == DecodeV2(order, data).value
    {
      hide LoadMeta, SwapTime, ToLe32, ToLe16;
      if |data| < META_SIZE {
        return null;
      }
      var received := LoadMeta(order, data);
      received := received.(magicno := ToLe32(order, received.magicno));
      received := received.(version := ToLe16(order, received.version));
      if received.magicno != META_MAGIC || received.version != VERSION_2 {
        return null;
      }
      received := received.(flags := ToLe32(order, received.flags));
      received := received.(requestType := ToLe32(order, received.requestType));
      received := received.(totalLen := ToLe32(order, received.totalLen));
      received := received.(bodyLen := ToLe32(order, received.bodyLen));
      received := received.(hakoTime := SwapTime(order, received.hakoTime));
      received := received.(assetTime := SwapTime(order, received.assetTime));
      received := received.(realTime := SwapTime(order, received.realTime));
      received := received.(channelId := ToLe32(order, received.channelId));
      var expected := received.bodyLen;
      var actual := |data| - META_SIZE;
      if actual < expected {
        return null;
      }
      packet := new DataPacket.FromMeta(received, data[META_SIZE..META_SIZE + expected]);
    }
  }
}
