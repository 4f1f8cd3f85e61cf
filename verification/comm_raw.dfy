/** PduCommRaw: PDU-level send and receive expressed on raw, framed byte buffers. */
module CommRaw {
  import opened Types
  import opened ByteOrder
  import opened PacketCodec

  /** The packet `send` builds for a key and its data. */
  function PacketFor(key: Key, data: Bytes): (p: Packet)
    ensures p.meta.Sized()
  {
    Make(key.robot, AsU32(key.channel), data)
  }

  /** The lengths `encode` computes for this send do not overflow. */
  predicate Sendable(version: Version, key: Key, data: Bytes) {
    version.V1? ==> FitsV1(PacketFor(key, data))
  }

  /** The bytes `send` hands to raw_send. */
  function Frame(version: Version, order: Order, key: Key, data: Bytes): (s: Bytes)
    requires Sendable(version, key, data)
  {
    match version
    case V1 => EncodeV1(PacketFor(key, data))
    case V2 => EncodeV2(order, PacketFor(key, data), PDU_DATA_TYPE)
  }

  function Decode(version: Version, order: Order, raw: Bytes): Option<Packet> {
    match version
    case V1 => DecodeV1(raw)
    case V2 => DecodeV2(order, raw)
  }

  /** What on_raw_data_received passes to the receive callback: nothing when the packet does not
      decode or is not of the data type. */
  function Receive(version: Version, order: Order, raw: Bytes): Option<Message> {
    match Decode(version, order, raw)
    case None => None
    case Some(p) =>
      if IsPduDataType(version, p)
      then Some(Message(Key(RobotName(p), AsI32(p.meta.channelId)), p.body))
      else None
  }

  /** The key a receiver sees for messages sent on `key`. */
  function NormalKey(key: Key): Key {
    Key(Normalise(key.robot), key.channel)
  }

  /** The data survives the version 1 filter on control values; version 2 has an explicit type field. */
  predicate LooksLikeData(version: Version, data: Bytes) {
    version.V1? && |data| >= 4 ==>
      ReadLe32(data) !in {DECLARE_PDU_FOR_READ, DECLARE_PDU_FOR_WRITE, REQUEST_PDU_READ}
  }

  /** A frame received whole yields the message that was sent, under its normalised key,
      unless version 1 mistakes it for a control message. */
  lemma {:induction false} ReceiveFrame(version: Version, sender: Order, receiver: Order, key: Key, data: Bytes)
    requires Sendable(version, key, data)
    requires version.V2? ==> |data| < 0x1_0000_0000
    ensures Receive(version, receiver, Frame(version, sender, key, data))
         == if LooksLikeData(version, data) then Some(Message(NormalKey(key), data)) else None
  {
    hide EncodeV1, EncodeV2, DecodeV1, DecodeV2, Make, RobotName, ReadLe32, Normalise;
    var p := PacketFor(key, data);
    MakeParts(key.robot, AsU32(key.channel), data);
    match version
    case V1 =>
      DecodeEncodeV1(p);
      MakeParts(RobotName(p), p.meta.channelId, data);
      NameFieldHoldsName(key.robot);
      NameFieldHoldsName(Normalise(key.robot));
    case V2 =>
      DecodeEncodeV2(sender, receiver, p, PDU_DATA_TYPE, []);
      assert EncodeV2(sender, p, PDU_DATA_TYPE) + [] == EncodeV2(sender, p, PDU_DATA_TYPE);
      StampedName(sender, receiver, p);
  }

  lemma {:induction false} StampedName(sender: Order, receiver: Order, p: Packet)
    requires p.meta.Sized()
    ensures var q := Packet(Stamped(sender, receiver, p, PDU_DATA_TYPE), p.body);
            RobotName(q) == RobotName(p) && q.meta.channelId == p.meta.channelId
            && q.meta.requestType == PDU_DATA_TYPE
  {
  }
}
