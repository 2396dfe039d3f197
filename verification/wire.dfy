/** The primitives of the wire format: varints, fixed-width integers, tags and
    length-delimited bytes, as functions on byte sequences.

    A reader takes the bytes up to the current limit and returns the value and the
    bytes that follow it, or None when the bytes are malformed or run out. */
module Wire {
  import opened Options

  type byte = x: int | 0 <= x < 256
  type uint32 = x: int | 0 <= x < 0x1_0000_0000
  type uint64 = x: int | 0 <= x < 0x1_0000_0000_0000_0000
  type int32 = x: int | -0x8000_0000 <= x < 0x8000_0000
  type int64 = x: int | -0x8000_0000_0000_0000 <= x < 0x8000_0000_0000_0000
  type bytes = seq<byte>

  datatype Read<+T> = Read(value: T, rest: bytes)

  const TWO_32: int := 0x1_0000_0000
  const TWO_64: int := 0x1_0000_0000_0000_0000
  const INT_LIMIT: int := 0x8000_0000

  // ------------------------------------------------------------------
  // Casts between the integer types

  /** static_cast<int32>(uint32) */
  function ToInt32(u: uint32): int32 {
    if u < 0x8000_0000 then u else u - TWO_32
  }

  /** static_cast<int64>(uint64) */
  function ToInt64(u: uint64): int64 {
    if u < 0x8000_0000_0000_0000 then u else u - TWO_64
  }

  /** static_cast<uint64>(int64); an int32 is sign-extended. */
  function ToUInt64(v: int64): uint64 {
    if v < 0 then v + TWO_64 else v
  }

  /** static_cast<uint32>(int32) */
  function ToUInt32(v: int32): uint32 {
    if v < 0 then v + TWO_32 else v
  }

  lemma CastsInvert(u: uint64, v: int64, w: int32, x: uint32)
    ensures ToUInt64(ToInt64(u)) == u && ToInt64(ToUInt64(v)) == v
    ensures ToUInt32(ToInt32(x)) == x && ToInt32(ToUInt32(w)) == w
    ensures ToInt32(ToUInt64(w) % TWO_32) == w
  {
  }

  // ------------------------------------------------------------------
  // Varints

  /** Seven bits a byte, least significant first, in at most `most` bytes. */
  function ReadGroups(b: bytes, most: nat): Option<Read<nat>>
    decreases most
  {
    if most == 0 || b == [] then None
    else if b[0] < 0x80 then Some(Read(b[0], b[1..]))
    else match ReadGroups(b[1..], most - 1)
      case Some(r) => Some(Read(b[0] - 0x80 + 0x80 * r.value, r.rest))
      case None => None
  }

  const MAX_VARINT_BYTES: nat := 10

  /** Bits beyond the 64th are dropped. */
  function ReadVarint64(b: bytes): Option<Read<uint64>> {
    match ReadGroups(b, MAX_VARINT_BYTES)
    case Some(r) => Some(Read(r.value % TWO_64, r.rest))
    case None => None
  }

  /** As many bytes as a 64-bit varint; bits beyond the 32nd are dropped. */
  function ReadVarint32(b: bytes): Option<Read<uint32>> {
    match ReadGroups(b, MAX_VARINT_BYTES)
    case Some(r) => Some(Read(r.value % TWO_32, r.rest))
    case None => None
  }

  function WriteVarint(v: nat): (b: bytes)
    ensures b != []
  {
    if v < 0x80 then [v] else [v % 0x80 + 0x80] + WriteVarint(v / 0x80)
  }

  /** A negative number takes the ten bytes of its 64-bit pattern. */
  function WriteVarint32SignExtended(v: int32): bytes {
    WriteVarint(ToUInt64(v))
  }

  function VarintSize32(v: uint32): nat {
    if v < 0x80 then 1
    else if v < 0x4000 then 2
    else if v < 0x20_0000 then 3
    else if v < 0x1000_0000 then 4
    else 5
  }

  function VarintSize64(v: uint64): nat {
    if v < 0x8_0000_0000 then
      if v < 0x80 then 1
      else if v < 0x4000 then 2
      else if v < 0x20_0000 then 3
      else if v < 0x1000_0000 then 4
      else 5
    else
      if v < 0x400_0000_0000 then 6
      else if v < 0x2_0000_0000_0000 then 7
      else if v < 0x100_0000_0000_0000 then 8
      else if v < 0x8000_0000_0000_0000 then 9
      else 10
  }

  function VarintSize32SignExtended(v: int32): nat {
    if v < 0 then 10 else VarintSize32(v)
  }

  /** The most values that `n` groups of seven bits can hold. */
  function GroupLimit(n: nat): nat {
    if n == 0 then 1 else 0x80 * GroupLimit(n - 1)
  }

  /** A varint has `n` bytes exactly when it needs that many groups. */
  lemma {:induction false} WriteVarintSize(v: nat, n: nat)
    requires n > 0 && v < GroupLimit(n) && (n > 1 ==> v >= GroupLimit(n - 1))
    ensures |WriteVarint(v)| == n
    decreases n
  {
    if n > 1 {
      assert GroupLimit(n - 1) >= 0x80 by { if n > 2 { GroupLimitPositive(n - 2); } }
      WriteVarintSize(v / 0x80, n - 1);
    } else {
      assert GroupLimit(1) == 0x80 by { assert GroupLimit(0) == 1; }
    }
  }

  lemma GroupLimitPositive(n: nat)
    ensures GroupLimit(n) >= 1
  {
  }

  lemma GroupLimits()
    ensures GroupLimit(1) == 0x80 && GroupLimit(2) == 0x4000 && GroupLimit(3) == 0x20_0000
    ensures GroupLimit(4) == 0x1000_0000 && GroupLimit(5) == 0x8_0000_0000
    ensures GroupLimit(6) == 0x400_0000_0000 && GroupLimit(7) == 0x2_0000_0000_0000
    ensures GroupLimit(8) == 0x100_0000_0000_0000 && GroupLimit(9) == 0x8000_0000_0000_0000
    ensures GroupLimit(10) == 0x80 * 0x8000_0000_0000_0000
  {
    assert GroupLimit(0) == 1;
    assert GroupLimit(1) == 0x80;
    assert GroupLimit(2) == 0x4000;
    assert GroupLimit(3) == 0x20_0000;
    assert GroupLimit(4) == 0x1000_0000;
    assert GroupLimit(5) == 0x8_0000_0000;
    assert GroupLimit(6) == 0x400_0000_0000;
    assert GroupLimit(7) == 0x2_0000_0000_0000;
    assert GroupLimit(8) == 0x100_0000_0000_0000;
    assert GroupLimit(9) == 0x8000_0000_0000_0000;
  }

  /** The size functions give the number of bytes written. */
  lemma VarintSizesExact(v: uint64)
    ensures |WriteVarint(v)| == VarintSize64(v)
    ensures v < TWO_32 ==> |WriteVarint(v)| == VarintSize32(v)
  {
    GroupLimits();
    WriteVarintSize(v, VarintSize64(v));
  }

  lemma SignExtendedSizeExact(v: int32)
    ensures |WriteVarint32SignExtended(v)| == VarintSize32SignExtended(v)
  {
    VarintSizesExact(ToUInt64(v));
  }

  lemma {:induction false} GroupsRoundTrip(v: nat, most: nat, rest: bytes)
    requires |WriteVarint(v)| <= most
    ensures ReadGroups(WriteVarint(v) + rest, most) == Some(Read(v, rest))
    decreases v
  {
    var b := WriteVarint(v) + rest;
    if v < 0x80 {
      assert b[1..] == rest;
    } else {
      assert b[1..] == WriteVarint(v / 0x80) + rest;
      GroupsRoundTrip(v / 0x80, most - 1, rest);
    }
  }

  /** Reading back a written varint, whatever bytes follow; a 32-bit read keeps the low
      half. */
  lemma VarintRoundTrip(v: uint64, rest: bytes)
    ensures ReadVarint64(WriteVarint(v) + rest) == Some(Read(v, rest))
    ensures ReadVarint32(WriteVarint(v) + rest) == Some(Read(v % TWO_32, rest))
  {
    hide ReadGroups, WriteVarint;
    VarintSizesExact(v);
    GroupsRoundTrip(v, MAX_VARINT_BYTES, rest);
  }

  /** More bytes at the end do not change what was read, and are left over. */
  lemma {:induction false} GroupsExtend(b: bytes, most: nat, more: bytes)
    requires ReadGroups(b, most).Some?
    ensures var r := ReadGroups(b, most).value;
            |r.rest| < |b| && ReadGroups(b + more, most) == Some(Read(r.value, r.rest + more))
    decreases most
  {
    if b[0] < 0x80 {
      assert (b + more)[1..] == b[1..] + more;
    } else {
      assert (b + more)[1..] == b[1..] + more;
      GroupsExtend(b[1..], most - 1, more);
    }
  }

  lemma VarintExtends(b: bytes, more: bytes)
    requires ReadGroups(b, MAX_VARINT_BYTES).Some?
    ensures |ReadVarint64(b).value.rest| < |b|
    ensures ReadVarint64(b + more) == Some(Read(ReadVarint64(b).value.value, ReadVarint64(b).value.rest + more))
    ensures ReadVarint32(b + more) == Some(Read(ReadVarint32(b).value.value, ReadVarint32(b).value.rest + more))
  {
    GroupsExtend(b, MAX_VARINT_BYTES, more);
  }

  /** A smaller number takes no more bytes. */
  lemma {:induction false} WrittenMonotone(v: nat, w: nat)
    requires v <= w
    ensures |WriteVarint(v)| <= |WriteVarint(w)|
    decreases w
  {
    if v >= 0x80 {
      assert v / 0x80 <= w / 0x80;
      WrittenMonotone(v / 0x80, w / 0x80);
    }
  }

  /** What is written takes no more bytes than it was read from. */
  lemma {:induction false} GroupsNotLonger(b: bytes, most: nat)
    requires ReadGroups(b, most).Some?
    ensures |WriteVarint(ReadGroups(b, most).value.value)| + |ReadGroups(b, most).value.rest| <= |b|
    decreases most
  {
    if b[0] >= 0x80 {
      GroupsNotLonger(b[1..], most - 1);
      var high := ReadGroups(b[1..], most - 1).value.value;
      var v := b[0] - 0x80 + 0x80 * high;
      assert v / 0x80 == high;
    }
  }

  lemma VarintNotLonger(b: bytes)
    ensures ReadVarint64(b).Some? ==> |WriteVarint(ReadVarint64(b).value.value)| + |ReadVarint64(b).value.rest| <= |b|
    ensures ReadVarint32(b).Some? ==> |WriteVarint(ReadVarint32(b).value.value)| + |ReadVarint32(b).value.rest| <= |b|
  {
    hide WriteVarint;
    if ReadGroups(b, MAX_VARINT_BYTES).Some? {
      var v := ReadGroups(b, MAX_VARINT_BYTES).value.value;
      GroupsNotLonger(b, MAX_VARINT_BYTES);
      WrittenMonotone(v % TWO_64, v);
      WrittenMonotone(v % TWO_32, v);
    }
  }

  /** A negative int32 was read from at least five bytes, and takes ten. */
  lemma SignExtendedDoubles(v: uint64)
    ensures |WriteVarint32SignExtended(ToInt32(v % TWO_32))| <= 2 * |WriteVarint(v)|
  {
    hide WriteVarint;
    var low: uint32 := v % TWO_32;
    WrittenMonotone(low, v);
    SignExtendedSizeExact(ToInt32(low));
    VarintSizesExact(low);
  }

  // ------------------------------------------------------------------
  // Fixed-width integers, little-endian

  /** The value of bytes, least significant first. */
  function FromLittleEndian(b: bytes): nat {
    if b == [] then 0 else b[0] + 0x100 * FromLittleEndian(b[1..])
  }

  function ToLittleEndian(v: nat, n: nat): (b: bytes)
    ensures |b| == n
  {
    if n == 0 then [] else [v % 0x100] + ToLittleEndian(v / 0x100, n - 1)
  }

  function ByteLimit(n: nat): nat {
    if n == 0 then 1 else 0x100 * ByteLimit(n - 1)
  }

  function ReadFixed(b: bytes, n: nat): Option<Read<nat>> {
    if |b| < n then None else Some(Read(FromLittleEndian(b[..n]), b[n..]))
  }

  lemma ByteOnTop(v: nat, high: nat, n: nat)
    ensures ToLittleEndian(v + 0x100 * high, n + 1) == [v % 0x100] + ToLittleEndian(v / 0x100 + high, n)
  {
    assert (v + 0x100 * high) % 0x100 == v % 0x100 && (v + 0x100 * high) / 0x100 == v / 0x100 + high;
  }

  lemma Higher(limit: nat, w: nat)
    ensures 0x100 * limit * w == 0x100 * (limit * w)
  {
  }

  /** The lowest byte comes first. */
  lemma {:induction false} LowestFirst(v: nat, w: nat, m: nat, n: nat)
    requires v < ByteLimit(m)
    ensures ToLittleEndian(v + ByteLimit(m) * w, m + n) == ToLittleEndian(v, m) + ToLittleEndian(w, n)
  {
    if m > 0 {
      Higher(ByteLimit(m - 1), w);
      var high: nat := ByteLimit(m - 1) * w;
      ByteOnTop(v, high, m - 1 + n);
      LowestFirst(v / 0x100, w, m - 1, n);
    }
  }

  lemma {:induction false} FixedRoundTrip(v: nat, n: nat, rest: bytes)
    requires v < ByteLimit(n)
    ensures ReadFixed(ToLittleEndian(v, n) + rest, n) == Some(Read(v, rest))
  {
    LittleEndianInverse(v, n);
    assert (ToLittleEndian(v, n) + rest)[..n] == ToLittleEndian(v, n);
    assert (ToLittleEndian(v, n) + rest)[n..] == rest;
  }

  lemma {:induction false} LittleEndianInverse(v: nat, n: nat)
    requires v < ByteLimit(n)
    ensures FromLittleEndian(ToLittleEndian(v, n)) == v
  {
    if n > 0 {
      assert ToLittleEndian(v, n)[1..] == ToLittleEndian(v / 0x100, n - 1);
      LittleEndianInverse(v / 0x100, n - 1);
    }
  }

  lemma {:induction false} FromLittleEndianBound(b: bytes)
    ensures FromLittleEndian(b) < ByteLimit(|b|)
  {
    if b != [] { FromLittleEndianBound(b[1..]); }
  }

  lemma ByteLimits()
    ensures ByteLimit(4) == TWO_32 && ByteLimit(8) == TWO_64
  {
    assert ByteLimit(0) == 1;
    assert ByteLimit(1) == 0x100;
    assert ByteLimit(2) == 0x1_0000;
    assert ByteLimit(3) == 0x100_0000;
    assert ByteLimit(4) == TWO_32;
    assert ByteLimit(5) == 0x100 * TWO_32;
    assert ByteLimit(6) == 0x1_0000 * TWO_32;
    assert ByteLimit(7) == 0x100_0000 * TWO_32;
  }

  lemma FixedExtends(b: bytes, n: nat, more: bytes)
    requires n > 0 && ReadFixed(b, n).Some?
    ensures ReadFixed(b + more, n) == Some(Read(ReadFixed(b, n).value.value, ReadFixed(b, n).value.rest + more))
    ensures ReadFixed(b, n).value.value < ByteLimit(n)
  {
    assert (b + more)[..n] == b[..n] && (b + more)[n..] == b[n..] + more;
    FromLittleEndianBound(b[..n]);
  }

  /** The number that groups of seven bits stand for, least significant first. */
  function GroupSum(groups: seq<byte>): nat {
    if groups == [] then 0 else groups[0] + 0x80 * GroupSum(groups[1..])
  }

  /** Groups as bytes: all but the last say that more follow. */
  function GroupBytes(groups: seq<byte>): bytes
    requires forall i :: 0 <= i < |groups| ==> groups[i] < 0x80
  {
    if |groups| <= 1 then groups else [groups[0] + 0x80] + GroupBytes(groups[1..])
  }

  lemma {:induction false} GroupBytesRead(groups: seq<byte>, most: nat, rest: bytes)
    requires groups != [] && forall i :: 0 <= i < |groups| ==> groups[i] < 0x80
    ensures ReadGroups(GroupBytes(groups) + rest, most) ==
            if |groups| <= most then Some(Read(GroupSum(groups), rest)) else None
    decreases |groups|
  {
    var b := GroupBytes(groups) + rest;
    if |groups| == 1 {
      assert b[1..] == rest;
      assert groups[1..] == [];
    } else {
      assert b[1..] == GroupBytes(groups[1..]) + rest;
      if most > 0 { GroupBytesRead(groups[1..], most - 1, rest); }
    }
  }

  /** A varint of up to ten bytes is read whether or not it could be shorter, and a longer
      one is refused; the bits beyond those of the result are dropped. */
  lemma AnyVarintRead(groups: seq<byte>, rest: bytes)
    requires groups != [] && forall i :: 0 <= i < |groups| ==> groups[i] < 0x80
    ensures ReadVarint64(GroupBytes(groups) + rest) ==
            if |groups| <= 10 then Some(Read(GroupSum(groups) % TWO_64, rest)) else None
    ensures ReadVarint32(GroupBytes(groups) + rest) ==
            if |groups| <= 10 then Some(Read(GroupSum(groups) % TWO_32, rest)) else None
  {
    hide GroupBytes, GroupSum, ReadGroups;
    GroupBytesRead(groups, MAX_VARINT_BYTES, rest);
  }

  // ------------------------------------------------------------------
  // Tags and length-delimited bytes

  const WIRETYPE_VARINT: nat := 0
  const WIRETYPE_FIXED64: nat := 1
  const WIRETYPE_LENGTH_DELIMITED: nat := 2
  const WIRETYPE_START_GROUP: nat := 3
  const WIRETYPE_END_GROUP: nat := 4
  const WIRETYPE_FIXED32: nat := 5

  const FIELD_LIMIT: nat := 0x2000_0000

  function MakeTag(number: nat, wireType: nat): (tag: uint32)
    requires number < FIELD_LIMIT && wireType < 8
    ensures tag / 8 == number && tag % 8 == wireType
  {
    number * 8 + wireType
  }

  /** What a message loop reads next: the end of its bytes, a tag, or neither: a tag of
      zero or a varint that is cut off. */
  datatype NextTag = AtEnd | BadTag | Tag(tag: uint32, rest: bytes)

  function ReadTag(b: bytes): (t: NextTag)
    ensures t.Tag? ==> t.tag != 0
  {
    if b == [] then AtEnd
    else match ReadVarint32(b)
      case Some(r) => if r.value == 0 then BadTag else Tag(r.value, r.rest)
      case None => BadTag
  }

  lemma TagRoundTrip(tag: uint32, rest: bytes)
    requires tag != 0
    ensures ReadTag(WriteVarint(tag) + rest) == Tag(tag, rest)
  {
    hide WriteVarint, ReadVarint32;
    VarintRoundTrip(tag, rest);
  }

  lemma TagExtends(b: bytes, more: bytes)
    requires ReadTag(b).Tag?
    ensures ReadTag(b + more) == Tag(ReadTag(b).tag, ReadTag(b).rest + more)
    ensures |ReadTag(b).rest| < |b|
  {
    VarintExtends(b, more);
  }

  /** The length and that many bytes; a length that does not fit an int is refused. */
  function ReadString(b: bytes): Option<Read<bytes>> {
    match ReadVarint32(b)
    case Some(r) =>
      if r.value < INT_LIMIT && r.value <= |r.rest| then Some(Read(r.rest[..r.value], r.rest[r.value..])) else None
    case None => None
  }

  function WriteString(s: bytes): bytes {
    WriteVarint(|s|) + s
  }

  lemma StringRoundTrip(s: bytes, rest: bytes)
    requires |s| < INT_LIMIT
    ensures ReadString(WriteString(s) + rest) == Some(Read(s, rest))
  {
    hide WriteVarint, ReadVarint32, WriteString;
    LengthRead(s, rest);
    assert (s + rest)[..|s|] == s && (s + rest)[|s|..] == rest;
  }

  /** A length is accepted if it fits an int and so many bytes are left, and it does not
      matter in what varint it comes. */
  lemma LengthsAccepted(groups: seq<byte>, rest: bytes)
    requires 0 < |groups| <= 10 && forall i :: 0 <= i < |groups| ==> groups[i] < 0x80
    ensures var n := GroupSum(groups) % TWO_32;
      ReadString(GroupBytes(groups) + rest) ==
      if n < 0x8000_0000 && n <= |rest| then Some(Read(rest[..n], rest[n..])) else None
  {
    hide ReadVarint32;
    AnyVarintRead(groups, rest);
  }

  lemma StringExtends(b: bytes, more: bytes)
    requires ReadString(b).Some?
    ensures ReadString(b + more) == Some(Read(ReadString(b).value.value, ReadString(b).value.rest + more))
    ensures |ReadString(b).value.rest| < |b| && |ReadString(b).value.value| < INT_LIMIT
  {
    VarintExtends(b, more);
    var r := ReadVarint32(b).value;
    assert (r.rest + more)[..r.value] == r.rest[..r.value];
    assert (r.rest + more)[r.value..] == r.rest[r.value..] + more;
  }

  /** The bytes of a message whose length was read: all that is left when it is shorter. */
  function Clip(b: bytes, length: uint32): bytes {
    if length < INT_LIMIT && length <= |b| then b[..length] else b
  }

  /** Reading the length back, and the bytes of that length. */
  lemma LengthRead(data: bytes, rest: bytes)
    requires |data| < INT_LIMIT
    ensures ReadVarint32(WriteString(data) + rest) == Some(Read(|data|, data + rest))
    ensures Clip(data + rest, |data|) == data && (data + rest)[|data|..] == rest
  {
    hide WriteVarint, ReadVarint32;
    VarintRoundTrip(|data|, data + rest);
    assert WriteString(data) + rest == WriteVarint(|data|) + (data + rest);
  }
}
