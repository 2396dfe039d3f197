/** Fields kept without interpretation: reading any field by its wire type, writing it
    back, and the size of what is written. */
module UnknownFields {
  import opened Options
  import opened Wire

  datatype UnknownField =
    | Varint(number: nat, varint: uint64)
    | Fixed32(number: nat, fixed32: uint32)
    | Fixed64(number: nat, fixed64: uint64)
    | LengthDelimited(number: nat, data: bytes)
    | Group(number: nat, fields: seq<UnknownField>)

  /** How a message loop ends: at the end of its bytes, at an end-group tag, at a bad
      tag, or because a field could not be read. */
  datatype Outcome<+T> =
    | Finished(value: T)
    | AtEndGroup(value: T, tag: uint32, rest: bytes)
    | Stopped(value: T)
    | Failed

  function Cons(f: UnknownField, o: Outcome<seq<UnknownField>>): Outcome<seq<UnknownField>> {
    match o
    case Finished(fs) => Finished([f] + fs)
    case AtEndGroup(fs, tag, rest) => AtEndGroup([f] + fs, tag, rest)
    case Stopped(fs) => Stopped([f] + fs)
    case Failed => Failed
  }

  /** The field with this tag, read from the bytes after the tag.  `budget` is the number
      of groups that may still be opened. */
  function SkipField(b: bytes, tag: uint32, budget: nat): (r: Option<Read<UnknownField>>)
    ensures r.Some? ==> |r.value.rest| <= |b|
    decreases |b|, 1
  {
    var number, wireType := tag / 8, tag % 8;
    if wireType == WIRETYPE_VARINT then
      match ReadVarint64(b)
      case Some(v) => VarintExtends(b, []); Some(Read(Varint(number, v.value), v.rest))
      case None => None
    else if wireType == WIRETYPE_FIXED64 then
      match ReadFixed(b, 8)
      case Some(v) => FixedExtends(b, 8, []); ByteLimits(); Some(Read(Fixed64(number, v.value), v.rest))
      case None => None
    else if wireType == WIRETYPE_LENGTH_DELIMITED then
      match ReadString(b)
      case Some(v) => StringExtends(b, []); Some(Read(LengthDelimited(number, v.value), v.rest))
      case None => None
    else if wireType == WIRETYPE_START_GROUP then
      if budget == 0 then None
      else match SkipMessage(b, budget - 1)
        case AtEndGroup(fs, end, rest) =>
          if end == number * 8 + WIRETYPE_END_GROUP then Some(Read(Group(number, fs), rest)) else None
        case _ => None
    else if wireType == WIRETYPE_FIXED32 then
      match ReadFixed(b, 4)
      case Some(v) => FixedExtends(b, 4, []); ByteLimits(); Some(Read(Fixed32(number, v.value), v.rest))
      case None => None
    else None
  }

  /** Fields up to the end of the bytes or an end-group tag. */
  function SkipMessage(b: bytes, budget: nat): (o: Outcome<seq<UnknownField>>)
    ensures o.AtEndGroup? ==> |o.rest| < |b|
    decreases |b|, 0
  {
    match ReadTag(b)
    case AtEnd => Finished([])
    case BadTag => Stopped([])
    case Tag(tag, rest) =>
      TagExtends(b, []);
      if tag % 8 == WIRETYPE_END_GROUP then AtEndGroup([], tag, rest)
      else match SkipField(rest, tag, budget)
        case Some(r) => Cons(r.value, SkipMessage(r.rest, budget))
        case None => Failed
  }

  function WireTypeOf(f: UnknownField): nat {
    match f
    case Varint(_, _) => WIRETYPE_VARINT
    case Fixed32(_, _) => WIRETYPE_FIXED32
    case Fixed64(_, _) => WIRETYPE_FIXED64
    case LengthDelimited(_, _) => WIRETYPE_LENGTH_DELIMITED
    case Group(_, _) => WIRETYPE_START_GROUP
  }

  function WriteTag(number: nat, wireType: nat): bytes {
    WriteVarint(number * 8 + wireType)
  }

  function WriteField(f: UnknownField): bytes
    decreases f
  {
    WriteTag(f.number, WireTypeOf(f)) + WritePayload(f)
  }

  /** What follows the tag of a field. */
  function WritePayload(f: UnknownField): bytes
    decreases f, 0
  {
    match f
    case Varint(_, v) => WriteVarint(v)
    case Fixed32(_, v) => ToLittleEndian(v, 4)
    case Fixed64(_, v) => ToLittleEndian(v, 8)
    case LengthDelimited(_, s) => WriteString(s)
    case Group(number, fs) => WriteFields(fs) + WriteTag(number, WIRETYPE_END_GROUP)
  }

  function WriteFields(fs: seq<UnknownField>): bytes
    decreases fs
  {
    if fs == [] then [] else WriteField(fs[0]) + WriteFields(fs[1..])
  }

  function TagSize(number: nat, wireType: nat): nat
    requires number < FIELD_LIMIT && wireType < 8
  {
    VarintSize32(MakeTag(number, wireType))
  }

  /** What can be written and read back: field numbers fit a tag, no tag is zero, lengths
      fit an int, and groups are nested no deeper than the budget. */
  predicate Writable(f: UnknownField, budget: nat)
    decreases f
  {
    f.number < FIELD_LIMIT &&
    match f
    case Varint(number, _) => number > 0
    case LengthDelimited(_, s) => |s| < INT_LIMIT
    case Group(_, fs) => budget > 0 && AllWritable(fs, budget - 1)
    case _ => true
  }

  predicate AllWritable(fs: seq<UnknownField>, budget: nat)
    decreases fs
  {
    fs == [] || (Writable(fs[0], budget) && AllWritable(fs[1..], budget))
  }

  /** ComputeUnknownFieldsSize for one field */
  function FieldSize(f: UnknownField, ghost budget: nat): nat
    requires Writable(f, budget)
    decreases f
  {
    TagSize(f.number, WireTypeOf(f)) +
    match f
    case Varint(_, v) => VarintSize64(v)
    case Fixed32(_, _) => 4
    case Fixed64(_, _) => 8
    case LengthDelimited(_, s) => VarintSize32(|s|) + |s|
    case Group(number, fs) => FieldsSize(fs, budget - 1) + TagSize(number, WIRETYPE_END_GROUP)
  }

  function FieldsSize(fs: seq<UnknownField>, ghost budget: nat): nat
    requires AllWritable(fs, budget)
    decreases fs
  {
    if fs == [] then 0 else FieldSize(fs[0], budget) + FieldsSize(fs[1..], budget)
  }

  // ------------------------------------------------------------------
  // Size

  lemma TagSizeExact(number: nat, wireType: nat)
    requires number < FIELD_LIMIT && wireType < 8
    ensures |WriteTag(number, wireType)| == TagSize(number, wireType)
  {
    VarintSizesExact(MakeTag(number, wireType));
  }

  /** The computed size is the number of bytes written. */
  lemma {:induction false} FieldSizeExact(f: UnknownField, budget: nat)
    requires Writable(f, budget)
    ensures |WriteField(f)| == FieldSize(f, budget)
    decreases f
  {
    TagSizeExact(f.number, WireTypeOf(f));
    match f
    case Varint(_, v) => VarintSizesExact(v);
    case LengthDelimited(_, s) => VarintSizesExact(|s|);
    case Group(number, fs) => FieldsSizeExact(fs, budget - 1); TagSizeExact(number, WIRETYPE_END_GROUP);
    case _ =>
  }

  lemma {:induction false} FieldsSizeExact(fs: seq<UnknownField>, budget: nat)
    requires AllWritable(fs, budget)
    ensures |WriteFields(fs)| == FieldsSize(fs, budget)
    decreases fs
  {
    if fs != [] {
      FieldSizeExact(fs[0], budget);
      FieldsSizeExact(fs[1..], budget);
    }
  }

  // ------------------------------------------------------------------
  // Round trip

  /** The outcome with fields put before those it holds. */
  function Prefix(fs: seq<UnknownField>, o: Outcome<seq<UnknownField>>): Outcome<seq<UnknownField>> {
    match o
    case Finished(gs) => Finished(fs + gs)
    case AtEndGroup(gs, tag, rest) => AtEndGroup(fs + gs, tag, rest)
    case Stopped(gs) => Stopped(fs + gs)
    case Failed => Failed
  }

  lemma ConsPrefix(f: UnknownField, fs: seq<UnknownField>, o: Outcome<seq<UnknownField>>)
    ensures Cons(f, Prefix(fs, o)) == Prefix([f] + fs, o)
  {
    if !o.Failed? { assert [f] + (fs + o.value) == [f] + fs + o.value; }
  }

  lemma PrefixNothing(o: Outcome<seq<UnknownField>>)
    ensures Prefix([], o) == o
  {
    if !o.Failed? { assert [] + o.value == o.value; }
  }

  lemma TagParts(number: nat, wireType: nat)
    requires wireType < 8
    ensures (number * 8 + wireType) / 8 == number && (number * 8 + wireType) % 8 == wireType
  {
  }

  lemma WritableTag(f: UnknownField, budget: nat)
    requires Writable(f, budget)
    ensures 0 < f.number * 8 + WireTypeOf(f) < TWO_32
    ensures WireTypeOf(f) < 8 && WireTypeOf(f) != WIRETYPE_END_GROUP
  {
  }

  lemma EndGroupRead(end: uint32, rest: bytes, budget: nat)
    requires end % 8 == WIRETYPE_END_GROUP
    ensures SkipMessage(WriteVarint(end) + rest, budget) == AtEndGroup([], end, rest)
  {
    TagRoundTrip(end, rest);
    hide ReadTag, WriteVarint;
  }

  // ------------------------------------------------------------------
  // What the bytes of each field are

  lemma FieldRead(tag: byte, b: bytes, f: UnknownField, rest: bytes, budget: nat)
    requires 0 < tag < 0x80 && tag % 8 != WIRETYPE_END_GROUP && SkipField(b, tag, budget) == Some(Read(f, rest))
    ensures SkipMessage([tag] + b, budget) == Cons(f, SkipMessage(rest, budget))
  {
    hide SkipField, ReadTag;
    TagByte(tag, b);
  }

  /** One byte for the wire type and a field number below 16, then a varint, or eight or
      four bytes, or a length and so many bytes. */
  lemma ScalarsRead(n: nat, v: uint64, w: uint32, s: bytes, rest: bytes, budget: nat)
    requires 0 < n < 16 && |s| < INT_LIMIT
    ensures SkipMessage([8 * n] + WriteVarint(v) + rest, budget) == Cons(Varint(n, v), SkipMessage(rest, budget))
    ensures SkipMessage([8 * n + 1] + ToLittleEndian(v, 8) + rest, budget)
         == Cons(Fixed64(n, v), SkipMessage(rest, budget))
    ensures SkipMessage([8 * n + 2] + WriteString(s) + rest, budget)
         == Cons(LengthDelimited(n, s), SkipMessage(rest, budget))
    ensures SkipMessage([8 * n + 5] + ToLittleEndian(w, 4) + rest, budget)
         == Cons(Fixed32(n, w), SkipMessage(rest, budget))
  {
    hide SkipMessage, WriteVarint, ToLittleEndian, WriteString, ReadVarint64, ReadFixed, ReadString;
    ByteLimits();
    VarintRoundTrip(v, rest);
    FixedRoundTrip(v, 8, rest);
    FixedRoundTrip(w, 4, rest);
    StringRoundTrip(s, rest);
    FieldRead(8 * n, WriteVarint(v) + rest, Varint(n, v), rest, budget);
    FieldRead(8 * n + 1, ToLittleEndian(v, 8) + rest, Fixed64(n, v), rest, budget);
    FieldRead(8 * n + 2, WriteString(s) + rest, LengthDelimited(n, s), rest, budget);
    FieldRead(8 * n + 5, ToLittleEndian(w, 4) + rest, Fixed32(n, w), rest, budget);
    assert [8 * n] + (WriteVarint(v) + rest) == [8 * n] + WriteVarint(v) + rest;
    assert [8 * n + 1] + (ToLittleEndian(v, 8) + rest) == [8 * n + 1] + ToLittleEndian(v, 8) + rest;
    assert [8 * n + 2] + (WriteString(s) + rest) == [8 * n + 2] + WriteString(s) + rest;
    assert [8 * n + 5] + (ToLittleEndian(w, 4) + rest) == [8 * n + 5] + ToLittleEndian(w, 4) + rest;
  }

  /** A group lasts up to the end tag of its own number; that of another is an error. */
  lemma GroupClosed(n: nat, m: nat, rest: bytes, budget: nat)
    requires 0 < n < 16 && 0 < m < 16 && budget > 0
    ensures SkipMessage([8 * n + 3, 8 * m + 4] + rest, budget) ==
            if m == n then Cons(Group(n, []), SkipMessage(rest, budget)) else Failed
  {
    hide ReadTag, ReadVarint64, ReadFixed, ReadString, SkipField;
    var tail := [8 * m + 4] + rest;
    assert [8 * n + 3] + tail == [8 * n + 3, 8 * m + 4] + rest;
    TagByte(8 * n + 3, tail);
    TagByte(8 * m + 4, rest);
    GroupField(n, m, tail, rest, budget);
  }

  lemma GroupField(n: nat, m: nat, tail: bytes, rest: bytes, budget: nat)
    requires 0 < n < 16 && 0 < m < 16 && budget > 0 && ReadTag(tail) == Tag(8 * m + 4, rest)
    ensures SkipField(tail, 8 * n + 3, budget) == if m == n then Some(Read(Group(n, []), rest)) else None
  {
    hide ReadTag, ReadVarint64, ReadFixed, ReadString;
    assert SkipMessage(tail, budget - 1) == AtEndGroup([], 8 * m + 4, rest);
  }

  /** So are a group that is not closed or for which no budget is left, and the wire types 6
      and 7. */
  lemma OthersRefused(tag: byte, rest: bytes, budget: nat)
    requires 8 <= tag < 0x80
    requires tag % 8 == 6 || tag % 8 == 7 || (tag % 8 == 3 && (rest == [] || budget == 0))
    ensures SkipMessage([tag] + rest, budget) == Failed
  {
    hide ReadTag, ReadVarint64, ReadFixed, ReadString;
    TagByte(tag, rest);
    if rest == [] { NothingToSkip(budget); }
  }

  lemma NothingToSkip(budget: nat)
    ensures forall left: nat :: SkipMessage([], left) == Finished([])
  {
  }

  lemma TagByte(tag: byte, b: bytes)
    requires 0 < tag < 0x80
    ensures ReadTag([tag] + b) == Tag(tag, b)
  {
    assert WriteVarint(tag) == [tag];
    TagRoundTrip(tag, b);
  }

  lemma {:induction false} FieldRoundTrip(f: UnknownField, budget: nat, rest: bytes)
    requires Writable(f, budget)
    ensures SkipField(WritePayload(f) + rest, f.number * 8 + WireTypeOf(f), budget) == Some(Read(f, rest))
    decreases f
  {
    hide WriteVarint, ReadVarint64, ReadFixed, ToLittleEndian, WriteString, ReadString, ReadTag, SkipMessage,
      WriteFields;
    TagParts(f.number, WireTypeOf(f));
    match f
    case Varint(_, v) => VarintRoundTrip(v, rest);
    case Fixed32(_, v) => ByteLimits(); FixedRoundTrip(v, 4, rest);
    case Fixed64(_, v) => ByteLimits(); FixedRoundTrip(v, 8, rest);
    case LengthDelimited(_, s) => StringRoundTrip(s, rest);
    case Group(number, fs) =>
      var end := number * 8 + WIRETYPE_END_GROUP;
      assert WritePayload(f) + rest == WriteFields(fs) + (WriteVarint(end) + rest);
      FieldsRoundTrip(fs, budget - 1, WriteVarint(end) + rest);
      EndGroupRead(end, rest, budget - 1);
      assert fs + [] == fs;
  }

  /** Fields that were written are read back, and reading goes on with what follows. */
  lemma {:induction false} FieldsRoundTrip(fs: seq<UnknownField>, budget: nat, rest: bytes)
    requires AllWritable(fs, budget)
    ensures SkipMessage(WriteFields(fs) + rest, budget) == Prefix(fs, SkipMessage(rest, budget))
    decreases fs
  {
    hide WriteVarint, ReadTag, SkipField, WritePayload, Writable;
    if fs == [] {
      assert WriteFields(fs) + rest == rest;
      PrefixNothing(SkipMessage(rest, budget));
    } else {
      var f, more := fs[0], WriteFields(fs[1..]) + rest;
      assert WriteFields(fs) + rest == WriteVarint(f.number * 8 + WireTypeOf(f)) + (WritePayload(f) + more);
      WritableTag(f, budget);
      TagRoundTrip(f.number * 8 + WireTypeOf(f), WritePayload(f) + more);
      FieldRoundTrip(f, budget, more);
      FieldsRoundTrip(fs[1..], budget, rest);
      ConsPrefix(f, fs[1..], SkipMessage(rest, budget));
      assert fs == [f] + fs[1..];
    }
  }

  // ------------------------------------------------------------------
  // What was read can be written

  lemma {:induction false} SkippedWritable(b: bytes, tag: uint32, budget: nat)
    requires SkipField(b, tag, budget).Some? && tag != 0
    ensures Writable(SkipField(b, tag, budget).value.value, budget)
    decreases |b|, 1
  {
    if tag % 8 == WIRETYPE_LENGTH_DELIMITED { StringExtends(b, []); }
    if tag % 8 == WIRETYPE_START_GROUP { MessageWritable(b, budget - 1); }
  }

  lemma {:induction false} MessageWritable(b: bytes, budget: nat)
    requires !SkipMessage(b, budget).Failed?
    ensures AllWritable(SkipMessage(b, budget).value, budget)
    decreases |b|, 0
  {
    if ReadTag(b).Tag? && ReadTag(b).tag % 8 != WIRETYPE_END_GROUP {
      var tag, rest := ReadTag(b).tag, ReadTag(b).rest;
      TagExtends(b, []);
      SkippedWritable(rest, tag, budget);
      MessageWritable(SkipField(rest, tag, budget).value.rest, budget);
    }
  }

  // ------------------------------------------------------------------
  // Concatenation

  lemma {:induction false} SkipExtends(b: bytes, tag: uint32, budget: nat, more: bytes)
    requires SkipField(b, tag, budget).Some?
    ensures var r := SkipField(b, tag, budget).value;
            SkipField(b + more, tag, budget) == Some(Read(r.value, r.rest + more))
    decreases |b|, 1
  {
    var wireType := tag % 8;
    if wireType == WIRETYPE_VARINT { VarintExtends(b, more); }
    else if wireType == WIRETYPE_FIXED64 { FixedExtends(b, 8, more); }
    else if wireType == WIRETYPE_LENGTH_DELIMITED { StringExtends(b, more); }
    else if wireType == WIRETYPE_START_GROUP { MessageExtends(b, budget - 1, more); }
    else { FixedExtends(b, 4, more); }
  }

  /** More bytes after an end-group tag are left over; more bytes after the end of a
      message are read as more of its fields. */
  lemma {:induction false} MessageExtends(b: bytes, budget: nat, more: bytes)
    ensures match SkipMessage(b, budget)
            case AtEndGroup(fs, tag, rest) => SkipMessage(b + more, budget) == AtEndGroup(fs, tag, rest + more)
            case Finished(fs) => SkipMessage(b + more, budget) == Prefix(fs, SkipMessage(more, budget))
            case _ => true
    decreases |b|, 0
  {
    hide ReadVarint32, SkipField;
    if b == [] {
      assert b + more == more;
      PrefixNothing(SkipMessage(more, budget));
    } else if ReadTag(b).Tag? {
      TagExtends(b, more);
      var tag, rest := ReadTag(b).tag, ReadTag(b).rest;
      if tag % 8 != WIRETYPE_END_GROUP && SkipField(rest, tag, budget).Some? {
        SkipExtends(rest, tag, budget, more);
        var r := SkipField(rest, tag, budget).value;
        MessageExtends(r.rest, budget, more);
        var o := SkipMessage(r.rest, budget);
        if o.Finished? { ConsPrefix(r.value, o.value, SkipMessage(more, budget)); }
      }
    }
  }

  // ------------------------------------------------------------------
  // What was read takes no more bytes to write

  lemma {:induction false} SkippedNotLonger(b: bytes, tag: uint32, budget: nat)
    requires SkipField(b, tag, budget).Some?
    ensures var r := SkipField(b, tag, budget).value; |WriteField(r.value)| + |r.rest| <= |WriteVarint(tag)| + |b|
    decreases |b|, 1
  {
    hide WriteVarint, ReadVarint64, ReadVarint32, SkipMessage, WriteFields;
    var f := SkipField(b, tag, budget).value.value;
    assert f.number * 8 + WireTypeOf(f) == tag;
    if tag % 8 == WIRETYPE_VARINT || tag % 8 == WIRETYPE_LENGTH_DELIMITED { VarintNotLonger(b); }
    if tag % 8 == WIRETYPE_START_GROUP { MessageNotLonger(b, budget - 1); }
  }

  /** Fields that were read take no more bytes to write, whatever forms of varints they
      were read from. */
  lemma {:induction false} MessageNotLonger(b: bytes, budget: nat)
    ensures match SkipMessage(b, budget)
            case Finished(fs) => |WriteFields(fs)| <= |b|
            case AtEndGroup(fs, tag, rest) => |WriteFields(fs)| + |WriteVarint(tag)| + |rest| <= |b|
            case _ => true
    decreases |b|, 0
  {
    hide WriteVarint, ReadVarint32, SkipField, WriteField;
    if ReadTag(b).Tag? {
      VarintNotLonger(b);
      TagExtends(b, []);
      var tag, rest := ReadTag(b).tag, ReadTag(b).rest;
      if tag % 8 != WIRETYPE_END_GROUP && SkipField(rest, tag, budget).Some? {
        var r := SkipField(rest, tag, budget).value;
        SkippedNotLonger(rest, tag, budget);
        MessageNotLonger(r.rest, budget);
        var o := SkipMessage(r.rest, budget);
        if o.Finished? || o.AtEndGroup? { assert ([r.value] + o.value)[1..] == o.value; }
      }
    }
  }
}
