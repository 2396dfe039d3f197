/** The field types of the wire format, and reading and writing one primitive value.
    A value is an integer: a float or double is its bit pattern, a bool is 0 or 1. */
module Primitives {
  import opened Options
  import opened Wire

  datatype FieldType =
    | DOUBLE | FLOAT | INT64 | UINT64 | INT32 | FIXED64 | FIXED32 | BOOL | STRING | GROUP
    | MESSAGE | BYTES | UINT32 | ENUM | SFIXED32 | SFIXED64 | SINT32 | SINT64

  predicate IsPrimitive(t: FieldType) {
    !t.STRING? && !t.BYTES? && !t.GROUP? && !t.MESSAGE?
  }

  function WireTypeFor(t: FieldType): nat {
    match t
    case DOUBLE | FIXED64 | SFIXED64 => WIRETYPE_FIXED64
    case FLOAT | FIXED32 | SFIXED32 => WIRETYPE_FIXED32
    case STRING | BYTES | MESSAGE => WIRETYPE_LENGTH_DELIMITED
    case GROUP => WIRETYPE_START_GROUP
    case _ => WIRETYPE_VARINT
  }

  /** The values of the C++ type that holds the field. */
  predicate InRange(t: FieldType, n: int) {
    match t
    case INT32 | SINT32 | SFIXED32 | ENUM => -0x8000_0000 <= n < 0x8000_0000
    case INT64 | SINT64 | SFIXED64 => -0x8000_0000_0000_0000 <= n < 0x8000_0000_0000_0000
    case UINT32 | FIXED32 | FLOAT => 0 <= n < TWO_32
    case UINT64 | FIXED64 | DOUBLE => 0 <= n < TWO_64
    case BOOL => n == 0 || n == 1
    case _ => false
  }

  /** Small numbers of either sign to small unsigned ones: 0, -1, 1, -2, ... */
  function ZigZagEncode(n: int): nat {
    if n >= 0 then 2 * n else -2 * n - 1
  }

  function ZigZagDecode(n: nat): int {
    if n % 2 == 0 then n / 2 else -(n / 2) - 1
  }

  function Pow2(w: nat): nat {
    if w == 0 then 1 else 2 * Pow2(w - 1)
  }

  /** Exclusive or, bit by bit. */
  function Xor(a: nat, b: nat): nat {
    if a == 0 && b == 0 then 0 else (if a % 2 == b % 2 then 0 else 1) + 2 * Xor(a / 2, b / 2)
  }

  lemma XorStep(x: nat, i: nat, y: nat, j: nat)
    requires i < 2 && j < 2
    ensures Xor(2 * x + i, 2 * y + j) == (if i == j then 0 else 1) + 2 * Xor(x, y)
  {
    var a, b := 2 * x + i, 2 * y + j;
    assert a / 2 == x && a % 2 == i && b / 2 == y && b % 2 == j;
  }

  predicate HasBits(w: nat, n: int) {
    0 <= 2 * n + Pow2(w) < 2 * Pow2(w)
  }

  /** The bits of a signed number of `w` bits, and the number that bits stand for. */
  function ToBits(w: nat, n: int): nat
    requires HasBits(w, n)
  {
    if n < 0 then n + Pow2(w) else n
  }

  function FromBits(w: nat, u: nat): int {
    if 2 * u < Pow2(w) then u else u - Pow2(w)
  }

  /** All bits or none: the arithmetic shift by one less than the width, or the negation of
      the last bit. */
  function Mask(w: nat, all: bool): nat
    ensures Mask(w, all) < Pow2(w)
  {
    if w == 0 then 0 else if all then 1 + 2 * Mask(w - 1, all) else 2 * Mask(w - 1, all)
  }

  lemma {:induction false} XorMask(w: nat, u: nat, all: bool)
    requires u < Pow2(w)
    ensures Xor(u, Mask(w, all)) == if all then Pow2(w) - 1 - u else u
    decreases w
  {
    hide Xor;
    if w == 0 {
      XorNothing();
    } else {
      XorMask(w - 1, u / 2, all);
      XorStep(u / 2, u % 2, Mask(w - 1, all), if all then 1 else 0);
      assert u == 2 * (u / 2) + u % 2;
    }
  }

  lemma XorNothing()
    ensures Xor(0, 0) == 0
  {
  }

  /** `(n << 1) ^ (n >> (w - 1))` with `w` bits. */
  function ZigZagEncodeBits(w: nat, n: int): nat
    requires HasBits(w, n)
  {
    Xor(2 * ToBits(w, n) % Pow2(w), Mask(w, n < 0))
  }

  /** `(u >> 1) ^ -(u & 1)` with `w` bits. */
  function ZigZagDecodeBits(w: nat, u: nat): int {
    FromBits(w, Xor(u / 2, Mask(w, u % 2 == 1)))
  }

  /** What the shifts and the exclusive or amount to. */
  lemma {:induction false} ZigZagIsBits(w: nat, n: int, u: nat)
    requires w > 0 && HasBits(w, n) && u < Pow2(w)
    ensures ZigZagEncodeBits(w, n) == ZigZagEncode(n)
    ensures ZigZagDecodeBits(w, u) == ZigZagDecode(u)
  {
    hide Xor, Mask;
    var shifted := if n < 0 then 2 * n + Pow2(w) else 2 * n;
    assert Pow2(w) == 2 * Pow2(w - 1);
    Wraps(shifted, Pow2(w));
    assert 2 * ToBits(w, n) == if n < 0 then shifted + Pow2(w) else shifted;
    XorMask(w, shifted, n < 0);
    XorMask(w, u / 2, u % 2 == 1);
  }

  lemma Wraps(x: nat, p: nat)
    requires x < p
    ensures x % p == x && (x + p) % p == x
  {
  }

  /** With any number of bits, decoding undoes encoding and encoding undoes decoding. */
  lemma {:induction false} ZigZagInverse(w: nat, n: int, u: nat)
    requires w > 0 && HasBits(w, n) && u < Pow2(w)
    ensures ZigZagEncodeBits(w, n) < Pow2(w) && ZigZagDecodeBits(w, ZigZagEncodeBits(w, n)) == n
    ensures HasBits(w, ZigZagDecodeBits(w, u))
    ensures ZigZagEncodeBits(w, ZigZagDecodeBits(w, u)) == u
  {
    hide ZigZagEncodeBits, ZigZagDecodeBits;
    assert Pow2(w) == 2 * Pow2(w - 1);
    ZigZagIsBits(w, n, u);
    ZigZagIsBits(w, n, ZigZagEncode(n));
    ZigZagIsBits(w, ZigZagDecode(u), u);
  }

  /** The varint or fixed-width pattern of a value. */
  function ToPattern(t: FieldType, n: int): (p: uint64)
    requires InRange(t, n)
    ensures WireTypeFor(t) == WIRETYPE_FIXED32 ==> p < TWO_32
  {
    match t
    case SINT32 | SINT64 => ZigZagEncode(n)
    case SFIXED32 => ToUInt32(n)
    case INT32 | ENUM | INT64 | SFIXED64 => ToUInt64(n)
    case _ => n
  }

  /** The value of a pattern; a varint of a 32-bit type has lost its upper half. */
  function FromPattern(t: FieldType, p: uint64): (n: int)
    ensures IsPrimitive(t) ==> InRange(t, n)
  {
    var low: uint32 := p % TWO_32;
    match t
    case INT32 | ENUM | SFIXED32 => ToInt32(low)
    case SINT32 => ZigZagDecode(low)
    case UINT32 | FIXED32 | FLOAT => low
    case BOOL => if low != 0 then 1 else 0
    case INT64 | SFIXED64 => ToInt64(p)
    case SINT64 => ZigZagDecode(p)
    case _ => p
  }

  lemma PatternInverse(t: FieldType, n: int)
    requires InRange(t, n)
    ensures FromPattern(t, ToPattern(t, n)) == n
  {
  }

  function ReadPattern(t: FieldType, b: bytes): Option<Read<uint64>> {
    if WireTypeFor(t) == WIRETYPE_FIXED32 then
      match ReadFixed(b, 4)
      case Some(r) => FixedExtends(b, 4, []); ByteLimits(); Some(Read(r.value, r.rest))
      case None => None
    else if WireTypeFor(t) == WIRETYPE_FIXED64 then
      match ReadFixed(b, 8)
      case Some(r) => FixedExtends(b, 8, []); ByteLimits(); Some(Read(r.value, r.rest))
      case None => None
    else ReadVarint64(b)
  }

  function WritePattern(t: FieldType, p: uint64): bytes {
    if WireTypeFor(t) == WIRETYPE_FIXED32 then ToLittleEndian(p, 4)
    else if WireTypeFor(t) == WIRETYPE_FIXED64 then ToLittleEndian(p, 8)
    else WriteVarint(p)
  }

  function ReadPrimitive(t: FieldType, b: bytes): (r: Option<Read<int>>)
    ensures r.Some? && IsPrimitive(t) ==> InRange(t, r.value.value)
  {
    match ReadPattern(t, b)
    case Some(r) => Some(Read(FromPattern(t, r.value), r.rest))
    case None => None
  }

  function WritePrimitive(t: FieldType, n: int): bytes
    requires InRange(t, n)
  {
    WritePattern(t, ToPattern(t, n))
  }

  /** The size functions of the types, and the constants of the types of fixed size. */
  function PrimitiveSize(t: FieldType, n: int): nat
    requires InRange(t, n)
  {
    match t
    case INT32 | ENUM => VarintSize32SignExtended(n)
    case INT64 => VarintSize64(ToUInt64(n))
    case UINT32 => VarintSize32(n)
    case UINT64 => VarintSize64(n)
    case SINT32 => VarintSize32(ZigZagEncode(n))
    case SINT64 => VarintSize64(ZigZagEncode(n))
    case FIXED32 | SFIXED32 | FLOAT => 4
    case FIXED64 | SFIXED64 | DOUBLE => 8
    case _ => 1
  }

  /** The bytes of a value: numbers of either sign as 64-bit varints of ten bytes if
      negative, or folded by zig-zag, and the types of fixed size in little-endian order. */
  lemma PrimitiveBytes(t: FieldType, n: int)
    requires IsPrimitive(t) && InRange(t, n)
    ensures WritePrimitive(t, n) ==
      match t
      case INT32 | INT64 | ENUM => WriteVarint(ToUInt64(n))
      case UINT32 | UINT64 | BOOL => WriteVarint(n)
      case SINT32 | SINT64 => WriteVarint(ZigZagEncode(n))
      case FIXED32 | FLOAT => ToLittleEndian(n, 4)
      case FIXED64 | DOUBLE => ToLittleEndian(n, 8)
      case SFIXED32 => ToLittleEndian(ToUInt32(n), 4)
      case SFIXED64 => ToLittleEndian(ToUInt64(n), 8)
      case _ => []
  {
    hide WriteVarint, ToLittleEndian;
  }

  /** What any varint is to a type, also one that no writer of the type makes: the number of
      the type that agrees with it in the low half, or in all bits of a type of 64; true
      unless the low half is zero. */
  lemma AnyVarintMeans(t: FieldType, p: uint64, rest: bytes)
    requires WireTypeFor(t) == WIRETYPE_VARINT
    ensures ReadPrimitive(t, WriteVarint(p) + rest).Some?
    ensures var n := ReadPrimitive(t, WriteVarint(p) + rest).value.value;
      match t
      case BOOL => n == if p % TWO_32 == 0 then 0 else 1
      case INT32 | ENUM => -0x8000_0000 <= n < 0x8000_0000 && (n - p) % TWO_32 == 0
      case UINT32 => n == p % TWO_32
      case SINT32 => ZigZagEncode(n) == p % TWO_32
      case INT64 => -0x8000_0000_0000_0000 <= n < 0x8000_0000_0000_0000 && (n - p) % TWO_64 == 0
      case SINT64 => ZigZagEncode(n) == p
      case _ => n == p
  {
    hide WriteVarint, ReadVarint64, FromPattern;
    VarintRoundTrip(p, rest);
    if t.BOOL? || t.UINT32? || t.SINT32? || t.SINT64? || t.UINT64? { UnsignedMeans(t, p); } else { SignedMeans(t, p); }
  }

  lemma SignedMeans(t: FieldType, p: uint64)
    requires t.INT32? || t.ENUM? || t.INT64?
    ensures var n := FromPattern(t, p);
      if t.INT64? then -0x8000_0000_0000_0000 <= n < 0x8000_0000_0000_0000 && (n - p) % TWO_64 == 0
      else -0x8000_0000 <= n < 0x8000_0000 && (n - p) % TWO_32 == 0
  {
  }

  lemma UnsignedMeans(t: FieldType, p: uint64)
    requires t.BOOL? || t.UINT32? || t.SINT32? || t.SINT64? || t.UINT64?
    ensures var n := FromPattern(t, p);
      match t
      case BOOL => n == if p % TWO_32 == 0 then 0 else 1
      case UINT32 => n == p % TWO_32
      case SINT32 => ZigZagEncode(n) == p % TWO_32
      case SINT64 => ZigZagEncode(n) == p
      case _ => n == p
  {
  }

  /** A written value is read back, whatever bytes follow. */
  lemma PrimitiveRoundTrip(t: FieldType, n: int, rest: bytes)
    requires IsPrimitive(t) && InRange(t, n)
    ensures ReadPrimitive(t, WritePrimitive(t, n) + rest) == Some(Read(n, rest))
    ensures WritePrimitive(t, n) != []
  {
    PatternInverse(t, n);
    var p := ToPattern(t, n);
    hide ToPattern, FromPattern, WriteVarint, ToLittleEndian, ReadFixed, ReadVarint64;
    ByteLimits();
    if WireTypeFor(t) == WIRETYPE_FIXED32 { FixedRoundTrip(p, 4, rest); }
    else if WireTypeFor(t) == WIRETYPE_FIXED64 { FixedRoundTrip(p, 8, rest); }
    else { VarintRoundTrip(p, rest); }
  }

  /** The size is the number of bytes written. */
  lemma PrimitiveSizeExact(t: FieldType, n: int)
    requires IsPrimitive(t) && InRange(t, n)
    ensures |WritePrimitive(t, n)| == PrimitiveSize(t, n)
  {
    VarintSizesExact(ToPattern(t, n));
    hide WriteVarint, ToLittleEndian;
  }

  /** Reading consumes something, and leaves what follows. */
  lemma PrimitiveExtends(t: FieldType, b: bytes, more: bytes)
    requires ReadPrimitive(t, b).Some?
    ensures |ReadPrimitive(t, b).value.rest| < |b|
    ensures ReadPrimitive(t, b + more)
         == Some(Read(ReadPrimitive(t, b).value.value, ReadPrimitive(t, b).value.rest + more))
  {
    hide FromPattern, ReadGroups;
    if WireTypeFor(t) == WIRETYPE_FIXED32 { FixedExtends(b, 4, more); }
    else if WireTypeFor(t) == WIRETYPE_FIXED64 { FixedExtends(b, 8, more); }
    else { VarintExtends(b, more); }
  }
}
