/** Integers as bytes: little-endian images, host byte order and the to_le/from_le helpers. */
module ByteOrder {
  import opened Types

  /** The byte order of the machine the code is compiled for. */
  datatype Order = Little | Big

  function Pow256(n: nat): (p: nat)
    ensures p > 0
  {
    if n == 0 then 1 else 256 * Pow256(n - 1)
  }

  /** The n low bytes of v, least significant first. */
  function LeBytes(v: nat, n: nat): (s: Bytes)
    ensures |s| == n
    decreases n, v
  {
    if n == 0 then [] else [v % 256] + LeBytes(v / 256, n - 1)
  }

  /** The number a byte string denotes, least significant byte first. */
  function LeValue(s: Bytes): (v: nat)
    ensures v < Pow256(|s|)
  {
    if s == [] then 0 else s[0] + 256 * LeValue(s[1..])
  }

  lemma {:induction false} LeRoundTrip(v: nat, n: nat)
    requires v < Pow256(n)
    ensures LeValue(LeBytes(v, n)) == v
    decreases n
  {
    if n == 0 {
    } else {
      LeRoundTrip(v / 256, n - 1);
      assert LeBytes(v, n)[1..] == LeBytes(v / 256, n - 1);
    }
  }

  lemma {:induction false} LeInverse(s: Bytes)
    ensures LeBytes(LeValue(s), |s|) == s
  {
    if s == [] {
    } else {
      LeInverse(s[1..]);
      assert LeValue(s) % 256 == s[0] && LeValue(s) / 256 == LeValue(s[1..]);
    }
  }

  function Reverse(s: Bytes): (r: Bytes)
    ensures |r| == |s|
  {
    if s == [] then [] else Reverse(s[1..]) + [s[0]]
  }

  // The mask-and-shift expressions of the source, as remainder and quotient.

  function ReadLe32(s: Bytes): (v: u32)
    requires |s| >= 4
  {
    var b0: int, b1: int, b2: int, b3: int := s[0], s[1], s[2], s[3];
    b0 + 0x100 * b1 + 0x1_0000 * b2 + 0x100_0000 * b3
  }

  function Bswap16(v: u16): u16 {
    v / 0x100 + (v % 0x100) * 0x100
  }

  function Bswap32(v: u32): u32 {
    (v % 0x100) * 0x100_0000
    + (v / 0x100 % 0x100) * 0x1_0000
    + (v / 0x1_0000 % 0x100) * 0x100
    + v / 0x100_0000
  }

  function Bswap64(v: u64): u64 {
    (v % 0x100) * 0x100_0000_0000_0000
    + (v / 0x100 % 0x100) * 0x1_0000_0000_0000
    + (v / 0x1_0000 % 0x100) * 0x100_0000_0000
    + (v / 0x100_0000 % 0x100) * 0x1_0000_0000
    + (v / 0x1_0000_0000 % 0x100) * 0x100_0000
    + (v / 0x100_0000_0000 % 0x100) * 0x1_0000
    + (v / 0x1_0000_0000_0000 % 0x100) * 0x100
    + v / 0x100_0000_0000_0000
  }

  /** to_le16/32/64 and from_le16/32/64 (the source writes the same body twice). */
  function ToLe16(order: Order, v: u16): u16 {
    if order.Big? then Bswap16(v) else v
  }

  function ToLe32(order: Order, v: u32): u32 {
    if order.Big? then Bswap32(v) else v
  }

  function ToLe64(order: Order, v: u64): u64 {
    if order.Big? then Bswap64(v) else v
  }

  /** What memcpy copies out of an n-byte integer variable on this machine. */
  function HostStore(order: Order, v: nat, n: nat): (s: Bytes)
    ensures |s| == n
  {
    if order.Big? then Reverse(LeBytes(v, n)) else LeBytes(v, n)
  }

  /** The value of an integer variable after memcpy filled it with these bytes. */
  function HostLoad(order: Order, s: Bytes): (v: nat)
    ensures v < Pow256(|s|)
  {
    if order.Big? then LeValue(Reverse(s)) else LeValue(s)
  }

  /** The shift-and-or expression of read_le32 is the little-endian value of its four bytes. */
  lemma {:induction false} ReadLe32IsLeValue(s: Bytes)
    requires |s| >= 4
    ensures ReadLe32(s) == LeValue(s[..4])
  {
    Tail(s[..4]);
    Tail(s[..4][1..]);
    Tail(s[..4][1..][1..]);
    Tail(s[..4][1..][1..][1..]);
  }

  lemma {:induction false} Tail(s: Bytes)
    requires s != []
    ensures forall i | 0 <= i < |s| - 1 :: s[1..][i] == s[i + 1]
    ensures LeValue(s) == s[0] + 256 * LeValue(s[1..])
    ensures |s| == 1 ==> LeValue(s) == s[0]
  {
  }

  /** The bytes of a 32-bit number, by quotient and remainder. */
  lemma {:induction false} Digits32(b0: byte, b1: byte, b2: byte, b3: byte, v: u32)
    requires v == b0 + 0x100 * (b1 as int) + 0x1_0000 * (b2 as int) + 0x100_0000 * (b3 as int)
    ensures v % 0x100 == b0 && v / 0x100 % 0x100 == b1 && v / 0x1_0000 % 0x100 == b2 && v / 0x100_0000 == b3
  {
    assert v / 0x100 == b1 + 0x100 * (b2 as int) + 0x1_0000 * (b3 as int);
    assert v / 0x1_0000 == b2 + 0x100 * (b3 as int);
  }

  lemma {:induction false} SwapReverses16(v: u16)
    ensures LeBytes(Bswap16(v), 2) == Reverse(LeBytes(v, 2))
  {
    assert LeBytes(v, 2) == [v % 256, v / 256];
  }

  lemma {:induction false} SwapReverses32(v: u32)
    ensures LeBytes(Bswap32(v), 4) == Reverse(LeBytes(v, 4))
  {
    assert Pow256(4) == 0x1_0000_0000;
    var s := LeBytes(v, 4);
    LeRoundTrip(v, 4);
    ReadLe32IsLeValue(s);
    assert s[..4] == s;
    Digits32(s[0], s[1], s[2], s[3], v);
    var r := [s[3], s[2], s[1], s[0]];
    assert s == [s[0]] + ([s[1]] + ([s[2]] + [s[3]]));
    assert r == Reverse(s) by {
      ReverseConcat([s[0]], [s[1]] + ([s[2]] + [s[3]]));
      ReverseConcat([s[1]], [s[2]] + [s[3]]);
      ReverseConcat([s[2]], [s[3]]);
    }
    ReadLe32IsLeValue(r);
    assert r[..4] == r;
    LeInverse(r);
  }

  lemma {:induction false} SwapReverses64(v: u64)
    ensures LeBytes(Bswap64(v), 8) == Reverse(LeBytes(v, 8))
  {
    var lo: u32, hi: u32 := v % 0x1_0000_0000, v / 0x1_0000_0000;
    Bswap64ByWords(lo, hi, v);
    SwapWords(lo, hi, Bswap32(lo), Bswap32(hi), v, Bswap64(v));
  }

  /** Reversing eight bytes reverses each half and exchanges the halves. */
  lemma {:induction false} Bswap64ByWords(lo: u32, hi: u32, v: u64)
    requires v == lo + hi * 0x1_0000_0000
    ensures Bswap64(v) == Bswap32(lo) * 0x1_0000_0000 + Bswap32(hi)
  {
    LowDigits(v, lo, hi);
    HighDigits(v, lo, hi);
  }

  lemma {:induction false} LowDigits(v: int, lo: u32, hi: u32)
    requires v == lo + hi * 0x1_0000_0000
    ensures v % 0x100 == lo % 0x100
    ensures v / 0x100 % 0x100 == lo / 0x100 % 0x100
    ensures v / 0x1_0000 % 0x100 == lo / 0x1_0000 % 0x100
    ensures v / 0x100_0000 % 0x100 == lo / 0x100_0000
  {
    DropByte(v, lo, hi * 0x100_0000);
    DropByte(v / 0x100, lo / 0x100, hi * 0x1_0000);
    DropByte(v / 0x1_0000, lo / 0x1_0000, hi * 0x100);
    DropByte(v / 0x100_0000, lo / 0x100_0000, hi);
  }

  lemma {:induction false} DropByte(v: int, lo: int, k: int)
    requires v == lo + k * 0x100
    ensures v % 0x100 == lo % 0x100 && v / 0x100 == lo / 0x100 + k
  {
  }

  lemma {:induction false} HighDigits(v: int, lo: u32, hi: u32)
    requires v == lo + hi * 0x1_0000_0000
    ensures v / 0x1_0000_0000 % 0x100 == hi % 0x100
    ensures v / 0x100_0000_0000 % 0x100 == hi / 0x100 % 0x100
    ensures v / 0x1_0000_0000_0000 % 0x100 == hi / 0x1_0000 % 0x100
    ensures v / 0x100_0000_0000_0000 == hi / 0x100_0000
  {
    assert v / 0x1_0000_0000 == hi;
    assert v / 0x100_0000_0000 == hi / 0x100;
    assert v / 0x1_0000_0000_0000 == hi / 0x1_0000;
  }

  lemma {:induction false} SwapWords(lo: u32, hi: u32, slo: u32, shi: u32, v: u64, w: u64)
    requires slo == Bswap32(lo) && shi == Bswap32(hi)
    requires v == lo + hi * 0x1_0000_0000 && w == slo * 0x1_0000_0000 + shi
    ensures LeBytes(w, 8) == Reverse(LeBytes(v, 8))
  {
    SwapReverses32(lo);
    SwapReverses32(hi);
    SwapHalves(lo, hi, slo, shi);
  }

  lemma {:induction false} SwapHalves(lo: u32, hi: u32, slo: u32, shi: u32)
    requires LeBytes(slo, 4) == Reverse(LeBytes(lo, 4)) && LeBytes(shi, 4) == Reverse(LeBytes(hi, 4))
    ensures LeBytes(slo * 0x1_0000_0000 + shi, 8) == Reverse(LeBytes(lo + hi * 0x1_0000_0000, 8))
  {
    SplitWord(lo, hi);
    SplitWord(shi, slo);
    ReverseConcat(LeBytes(lo, 4), LeBytes(hi, 4));
  }

  lemma {:induction false} ReverseConcat(s: Bytes, t: Bytes)
    ensures Reverse(s + t) == Reverse(t) + Reverse(s)
  {
    if s == [] {
      assert s + t == t;
    } else {
      ReverseConcat(s[1..], t);
      assert (s + t)[1..] == s[1..] + t;
    }
  }

  lemma {:induction false} ValueOfConcat(s: Bytes, t: Bytes)
    ensures LeValue(s + t) == LeValue(s) + Pow256(|s|) * LeValue(t)
  {
    if s == [] {
      assert s + t == t;
    } else {
      ValueOfConcat(s[1..], t);
      assert (s + t)[1..] == s[1..] + t;
      AddHigh(s[0], LeValue(s[1..]), Pow256(|s| - 1), LeValue(t));
    }
  }

  lemma {:induction false} AddHigh(b: int, low: int, p: int, high: int)
    ensures b + 256 * (low + p * high) == (b + 256 * low) + (256 * p) * high
  {
  }

  lemma {:induction false} SplitWord(lo: u32, hi: u32)
    ensures LeBytes(lo + hi * 0x1_0000_0000, 8) == LeBytes(lo, 4) + LeBytes(hi, 4)
  {
    assert Pow256(4) == 0x1_0000_0000;
    LeRoundTrip(lo, 4);
    LeRoundTrip(hi, 4);
    ValueOfConcat(LeBytes(lo, 4), LeBytes(hi, 4));
    LeInverse(LeBytes(lo, 4) + LeBytes(hi, 4));
  }

  lemma {:induction false} ReverseTwice(s: Bytes)
    ensures Reverse(Reverse(s)) == s
  {
    if s == [] {
    } else {
      ReverseTwice(s[1..]);
      ReverseConcat(Reverse(s[1..]), [s[0]]);
    }
  }

  /** Storing to_le(v) leaves the little-endian bytes of v in memory, whatever the machine. */
  lemma {:induction false} StoreToLe16(order: Order, v: u16)
    ensures HostStore(order, ToLe16(order, v), 2) == LeBytes(v, 2)
  {
    SwapReverses16(v);
    ReverseTwice(LeBytes(v, 2));
  }

  lemma {:induction false} StoreToLe32(order: Order, v: u32)
    ensures HostStore(order, ToLe32(order, v), 4) == LeBytes(v, 4)
  {
    SwapReverses32(v);
    ReverseTwice(LeBytes(v, 4));
  }

  lemma {:induction false} StoreToLe64(order: Order, v: u64)
    ensures HostStore(order, ToLe64(order, v), 8) == LeBytes(v, 8)
  {
    SwapReverses64(v);
    ReverseTwice(LeBytes(v, 8));
  }

  /** Loading raw bytes and applying from_le gives the little-endian value, whatever the machine. */
  lemma {:induction false} LoadFromLe16(order: Order, s: Bytes)
    requires |s| == 2
    ensures HostLoad(order, s) < 0x1_0000 && ToLe16(order, HostLoad(order, s)) == LeValue(s)
  {
    assert Pow256(2) == 0x1_0000;
    if order.Big? {
      SwapReverses16(HostLoad(order, s));
      SwappedLoad(s, Bswap16(HostLoad(order, s)));
    }
  }

  lemma {:induction false} LoadFromLe32(order: Order, s: Bytes)
    requires |s| == 4
    ensures HostLoad(order, s) < 0x1_0000_0000 && ToLe32(order, HostLoad(order, s)) == LeValue(s)
  {
    assert Pow256(4) == 0x1_0000_0000;
    if order.Big? {
      SwapReverses32(HostLoad(order, s));
      SwappedLoad(s, Bswap32(HostLoad(order, s)));
    }
  }

  lemma {:induction false} LoadFromLe64(order: Order, s: Bytes)
    requires |s| == 8
    ensures HostLoad(order, s) < 0x1_0000_0000_0000_0000 && ToLe64(order, HostLoad(order, s)) == LeValue(s)
  {
    assert Pow256(8) == 0x1_0000_0000_0000_0000;
    if order.Big? {
      SwapReverses64(HostLoad(order, s));
      SwappedLoad(s, Bswap64(HostLoad(order, s)));
    }
  }

  lemma {:induction false} SwappedLoad(s: Bytes, y: nat)
    requires LeBytes(y, |s|) == Reverse(LeBytes(LeValue(Reverse(s)), |s|)) && y < Pow256(|s|)
    ensures y == LeValue(s)
  {
    SwappedBytes(s, y);
    LeRoundTrip(y, |s|);
  }

  lemma {:induction false} SwappedBytes(s: Bytes, y: nat)
    requires LeBytes(y, |s|) == Reverse(LeBytes(LeValue(Reverse(s)), |s|))
    ensures LeBytes(y, |s|) == s
  {
    LeInverse(Reverse(s));
    ReverseTwice(s);
  }

  // Conversions between signed and unsigned integers of the same width.

  function AsU32(x: i32): (u: u32) {
    x % 0x1_0000_0000
  }

  function AsI32(u: u32): (x: i32)
    ensures AsU32(x) == u
  {
    if u < 0x8000_0000 then u else u - 0x1_0000_0000
  }

  function AsU64(x: i64): (u: u64) {
    x % 0x1_0000_0000_0000_0000
  }

  function AsI64(u: u64): (x: i64)
    ensures AsU64(x) == u
  {
    if u < 0x8000_0000_0000_0000 then u else u - 0x1_0000_0000_0000_0000
  }
}
