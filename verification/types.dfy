/** Vocabulary shared by every component: status codes, keys and messages. */
module Types {
  type byte = b: int | 0 <= b < 256
  type Bytes = seq<byte>

  type u16 = x: int | 0 <= x < 0x1_0000
  type u32 = x: int | 0 <= x < 0x1_0000_0000
  type u64 = x: int | 0 <= x < 0x1_0000_0000_0000_0000
  type i32 = x: int | -0x8000_0000 <= x < 0x8000_0000
  type i64 = x: int | -0x8000_0000_0000_0000 <= x < 0x8000_0000_0000_0000

  function Min(a: nat, b: nat): nat {
    if a <= b then a else b
  }

  datatype Option<+T> = None | Some(value: T)

  /** HakoPduErrorType, constructor for constructor. */
  datatype Status =
    | OK | InvalidArgument | OutOfMemory | IoError | NoSpace | Busy | Timeout | NoEntry
    | FileNotFound | InvalidJson | InvalidConfig | NotRunning | Unsupported | InvalidPduKey | NotOwner

  /** PduResolvedKey: a robot name (the bytes of a std::string) and a channel id. */
  datatype Key = Key(robot: Bytes, channel: i32)

  /** What a receive callback is handed: a key and the PDU bytes. */
  datatype Message = Message(key: Key, data: Bytes)

  /** The two wire formats a raw comm can be configured for. */
  datatype Version = V1 | V2
}
