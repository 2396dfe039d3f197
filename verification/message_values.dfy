/** The message set format: each extension is an item, a group with a type number and a
    message, in either order. */
module MessageSetValues {
  import opened Options
  import opened Wire
  import opened UnknownFields
  import opened Primitives
  import opened ExtensionValues
  import opened ExtensionSizes

  const ITEM_START_TAG: uint32 := 1 * 8 + 3
  const ITEM_END_TAG: uint32 := 1 * 8 + 4
  const TYPE_ID_TAG: uint32 := 2 * 8 + 0
  const MESSAGE_TAG: uint32 := 3 * 8 + 2

  /** The recursion limit of a stream that nobody set one for. */
  const DEFAULT_LIMIT: nat := 100

  /** The tag that the extension would have as a field of its own; 32 bits are kept. */
  function FakeTag(typeId: uint32): (tag: uint32)
    ensures tag != 0 && tag % 8 == WIRETYPE_LENGTH_DELIMITED
    ensures typeId < FIELD_LIMIT ==> tag == MakeTag(typeId, WIRETYPE_LENGTH_DELIMITED)
  {
    typeId % FIELD_LIMIT * 8 + WIRETYPE_LENGTH_DELIMITED
  }

  // ------------------------------------------------------------------
  // Reading

  /** What one round of the item loop does: fail, end, or go on. */
  datatype Step =
    | Bad
    | Ended(final: seq<Field>, after: bytes)
    | Next(fs: seq<Field>, fake: uint32, data: bytes, rest: bytes)

  /** One tag and what follows it.  `fake` is zero until the type number was seen; messages
      before it are kept in `data`, and then read as from a stream of their own, of which
      only the first message is used. */
  function ItemStep(reg: Registry, t: nat, fs: seq<Field>, fake: uint32, data: bytes, b: bytes, budget: nat): (s: Step)
    ensures s.Next? ==> |s.rest| < |b|
    ensures s.Ended? ==> |s.after| < |b|
  {
    match ReadTag(b)
    case AtEnd => Bad
    case BadTag => Bad
    case Tag(tag, rest) =>
      TagExtends(b, []);
      if tag == TYPE_ID_TAG then
        match ReadVarint32(rest)
        case Some(r) =>
          VarintExtends(rest, []);
          if data == [] then Next(fs, FakeTag(r.value), [], r.rest)
          else (match ReadField(reg, t, fs, FakeTag(r.value), data, DEFAULT_LIMIT)
            case Some(f) => Next(f.value, FakeTag(r.value), [], r.rest)
            case None => Bad)
        case None => Bad
      else if tag == MESSAGE_TAG then
        if fake == 0 then
          match ReadString(rest)
          case Some(r) => StringExtends(rest, []); Next(fs, fake, data + WriteString(r.value), r.rest)
          case None => Bad
        else
          match ReadField(reg, t, fs, fake, rest, budget)
          case Some(r) => Next(r.value, fake, data, r.rest)
          case None => Bad
      else if tag == ITEM_END_TAG then Ended(fs, rest)
      else
        match SkipField(rest, tag, budget)
        case Some(r) => Next(fs, fake, data, r.rest)
        case None => Bad
  }

  /** One item, up to its end tag. */
  function ReadItem(reg: Registry, t: nat, fs: seq<Field>, fake: uint32, data: bytes, b: bytes,
                    budget: nat): (r: Option<Read<seq<Field>>>)
    ensures r.Some? ==> |r.value.rest| < |b|
    decreases |b|
  {
    match ItemStep(reg, t, fs, fake, data, b, budget)
    case Bad => None
    case Ended(final, after) => Some(Read(final, after))
    case Next(more, tag, kept, rest) => ReadItem(reg, t, more, tag, kept, rest, budget)
  }

  /** Items, and fields in the ordinary format, up to the end of the bytes. */
  function ReadSet(reg: Registry, t: nat, fs: seq<Field>, b: bytes, budget: nat): Outcome<seq<Field>>
    decreases |b|
  {
    match ReadTag(b)
    case AtEnd => Finished(fs)
    case BadTag => Stopped(fs)
    case Tag(tag, rest) =>
      TagExtends(b, []);
      if tag == ITEM_START_TAG then
        match ReadItem(reg, t, fs, 0, [], rest, budget)
        case Some(r) => ReadSet(reg, t, r.value, r.rest, budget)
        case None => Failed
      else
        match ReadField(reg, t, fs, tag, rest, budget)
        case Some(r) => ReadSet(reg, t, r.value, r.rest, budget)
        case None => Failed
  }

  // ------------------------------------------------------------------
  // A delimited field is read by itself

  /** Whatever field the tag names, a length and that many bytes are read the same with
      and without bytes after them. */
  lemma DelimitedAlone(reg: Registry, t: nat, fs: seq<Field>, tag: uint32, s: bytes, more: bytes, budget: nat)
    requires tag % 8 == WIRETYPE_LENGTH_DELIMITED && |s| < INT_LIMIT
    ensures ReadField(reg, t, fs, tag, WriteString(s) + more, budget) ==
            match ReadField(reg, t, fs, tag, WriteString(s), budget)
            case Some(r) => Some(Read(r.value, more))
            case None => None
    ensures ReadField(reg, t, fs, tag, WriteString(s), budget).Some? ==>
              ReadField(reg, t, fs, tag, WriteString(s), budget).value.rest == []
  {
    hide WriteString, ReadString, ReadVarint32, ReadPacked, ReadFields, Store, AddAll, Target, Clip;
    LengthRead(s, more);
    LengthRead(s, []);
    StringRoundTrip(s, more);
    StringRoundTrip(s, []);
    assert WriteString(s) + [] == WriteString(s);
  }

  // ------------------------------------------------------------------
  // Either order

  function TypeFirst(n: uint32, s: bytes): bytes {
    WriteVarint(TYPE_ID_TAG) + WriteVarint(n) + WriteVarint(MESSAGE_TAG) + WriteString(s) + WriteVarint(ITEM_END_TAG)
  }

  function MessageFirst(n: uint32, s: bytes): bytes {
    WriteVarint(MESSAGE_TAG) + WriteString(s) + WriteVarint(TYPE_ID_TAG) + WriteVarint(n) + WriteVarint(ITEM_END_TAG)
  }

  /** What an item with one type number and one message amounts to. */
  function AsField(reg: Registry, t: nat, fs: seq<Field>, n: uint32, s: bytes, rest: bytes,
                   budget: nat): Option<Read<seq<Field>>> {
    match ReadField(reg, t, fs, FakeTag(n), WriteString(s), budget)
    case Some(r) => Some(Read(r.value, rest))
    case None => None
  }

  lemma ItemEnds(reg: Registry, t: nat, fs: seq<Field>, fake: uint32, rest: bytes, budget: nat)
    ensures ReadItem(reg, t, fs, fake, [], WriteVarint(ITEM_END_TAG) + rest, budget) == Some(Read(fs, rest))
  {
    EndStep(reg, t, fs, fake, rest, budget);
    hide ItemStep;
  }

  lemma EndStep(reg: Registry, t: nat, fs: seq<Field>, fake: uint32, rest: bytes, budget: nat)
    ensures ItemStep(reg, t, fs, fake, [], WriteVarint(ITEM_END_TAG) + rest, budget) == Ended(fs, rest)
  {
    hide WriteVarint, ReadTag, ReadField;
    TagRoundTrip(ITEM_END_TAG, rest);
  }

  lemma TypeStep(reg: Registry, t: nat, fs: seq<Field>, n: uint32, data: bytes, b: bytes, budget: nat)
    ensures ItemStep(reg, t, fs, 0, data, WriteVarint(TYPE_ID_TAG) + (WriteVarint(n) + b), budget) ==
            if data == [] then Next(fs, FakeTag(n), [], b)
            else match ReadField(reg, t, fs, FakeTag(n), data, DEFAULT_LIMIT)
              case Some(f) => Next(f.value, FakeTag(n), [], b)
              case None => Bad
  {
    hide WriteVarint, ReadTag, ReadField, ReadVarint32, FakeTag, ItemStep;
    TagRoundTrip(TYPE_ID_TAG, WriteVarint(n) + b);
    VarintRoundTrip(n, b);
    StepOnType(reg, t, fs, n, data, WriteVarint(TYPE_ID_TAG) + (WriteVarint(n) + b), b, budget);
  }

  lemma StepOnType(reg: Registry, t: nat, fs: seq<Field>, n: uint32, data: bytes, item: bytes, b: bytes, budget: nat)
    requires ReadTag(item).Tag? && ReadTag(item).tag == TYPE_ID_TAG
    requires ReadVarint32(ReadTag(item).rest) == Some(Read(n, b))
    ensures ItemStep(reg, t, fs, 0, data, item, budget) ==
            if data == [] then Next(fs, FakeTag(n), [], b)
            else match ReadField(reg, t, fs, FakeTag(n), data, DEFAULT_LIMIT)
              case Some(f) => Next(f.value, FakeTag(n), [], b)
              case None => Bad
  {
    hide ReadTag, ReadField, ReadVarint32, FakeTag, SkipField, ReadString, WriteString;
  }

  lemma ItemType(reg: Registry, t: nat, fs: seq<Field>, n: uint32, data: bytes, b: bytes, budget: nat)
    ensures ReadItem(reg, t, fs, 0, data, WriteVarint(TYPE_ID_TAG) + (WriteVarint(n) + b), budget) ==
            if data == [] then ReadItem(reg, t, fs, FakeTag(n), [], b, budget)
            else match ReadField(reg, t, fs, FakeTag(n), data, DEFAULT_LIMIT)
              case Some(f) => ReadItem(reg, t, f.value, FakeTag(n), [], b, budget)
              case None => None
  {
    TypeStep(reg, t, fs, n, data, b, budget);
    hide ItemStep, ReadField, FakeTag, WriteVarint;
  }

  lemma MessageSetStep(reg: Registry, t: nat, fs: seq<Field>, fake: uint32, s: bytes, b: bytes, budget: nat)
    requires |s| < INT_LIMIT && (fake == 0 || fake % 8 == WIRETYPE_LENGTH_DELIMITED)
    ensures ItemStep(reg, t, fs, fake, [], WriteVarint(MESSAGE_TAG) + (WriteString(s) + b), budget) ==
            if fake == 0 then Next(fs, fake, WriteString(s), b)
            else match ReadField(reg, t, fs, fake, WriteString(s), budget)
              case Some(r) => Next(r.value, fake, [], b)
              case None => Bad
  {
    hide WriteVarint, ReadTag, ReadField, ReadString, WriteString;
    TagRoundTrip(MESSAGE_TAG, WriteString(s) + b);
    StringRoundTrip(s, b);
    if fake != 0 { DelimitedAlone(reg, t, fs, fake, s, b, budget); }
    assert [] + WriteString(s) == WriteString(s);
  }

  lemma ItemMessage(reg: Registry, t: nat, fs: seq<Field>, fake: uint32, s: bytes, b: bytes, budget: nat)
    requires |s| < INT_LIMIT && (fake == 0 || fake % 8 == WIRETYPE_LENGTH_DELIMITED)
    ensures ReadItem(reg, t, fs, fake, [], WriteVarint(MESSAGE_TAG) + (WriteString(s) + b), budget) ==
            if fake == 0 then ReadItem(reg, t, fs, fake, WriteString(s), b, budget)
            else match ReadField(reg, t, fs, fake, WriteString(s), budget)
              case Some(r) => ReadItem(reg, t, r.value, fake, [], b, budget)
              case None => None
  {
    MessageSetStep(reg, t, fs, fake, s, b, budget);
    hide ItemStep, ReadField, WriteString, WriteVarint;
  }

  /** With the type number first the message is read as the field of that number, with
      what is left of the stream's recursion budget. */
  lemma TypeFirstRead(reg: Registry, t: nat, fs: seq<Field>, n: uint32, s: bytes, rest: bytes, budget: nat)
    requires |s| < INT_LIMIT
    ensures ReadItem(reg, t, fs, 0, [], TypeFirst(n, s) + rest, budget) == AsField(reg, t, fs, n, s, rest, budget)
  {
    hide WriteVarint, WriteString, ReadItem, ReadField, FakeTag;
    var end := WriteVarint(ITEM_END_TAG) + rest;
    var message := WriteVarint(MESSAGE_TAG) + (WriteString(s) + end);
    assert TypeFirst(n, s) + rest == WriteVarint(TYPE_ID_TAG) + (WriteVarint(n) + message);
    ItemType(reg, t, fs, n, [], message, budget);
    ItemMessage(reg, t, fs, FakeTag(n), s, end, budget);
    if ReadField(reg, t, fs, FakeTag(n), WriteString(s), budget).Some? {
      ItemEnds(reg, t, ReadField(reg, t, fs, FakeTag(n), WriteString(s), budget).value.value, FakeTag(n), rest, budget);
    }
  }

  /** With the message first it is read in the same way, but with a fresh budget. */
  lemma MessageFirstRead(reg: Registry, t: nat, fs: seq<Field>, n: uint32, s: bytes, rest: bytes, budget: nat)
    requires |s| < INT_LIMIT
    ensures ReadItem(reg, t, fs, 0, [], MessageFirst(n, s) + rest, budget)
         == AsField(reg, t, fs, n, s, rest, DEFAULT_LIMIT)
  {
    hide WriteVarint, ReadItem, ReadField, FakeTag;
    var end := WriteVarint(ITEM_END_TAG) + rest;
    var kind := WriteVarint(TYPE_ID_TAG) + (WriteVarint(n) + end);
    assert MessageFirst(n, s) + rest == WriteVarint(MESSAGE_TAG) + (WriteString(s) + kind);
    ItemMessage(reg, t, fs, 0, s, kind, budget);
    assert WriteString(s) != [];
    ItemType(reg, t, fs, n, WriteString(s), end, budget);
    if ReadField(reg, t, fs, FakeTag(n), WriteString(s), DEFAULT_LIMIT).Some? {
      ItemEnds(reg, t, ReadField(reg, t, fs, FakeTag(n), WriteString(s), DEFAULT_LIMIT).value.value, FakeTag(n), rest,
               budget);
    }
  }

  // ------------------------------------------------------------------
  // When the order does not matter

  lemma {:induction false} SkipMore(b: bytes, tag: uint32, budget: nat, more: nat)
    requires SkipField(b, tag, budget).Some? && budget <= more
    ensures SkipField(b, tag, more) == SkipField(b, tag, budget)
    decreases |b|, 1
  {
    hide ReadVarint64, ReadFixed, ReadString, SkipMessage;
    if tag % 8 == WIRETYPE_START_GROUP { SkipMessageMore(b, budget - 1, more - 1); }
  }

  lemma {:induction false} SkipMessageMore(b: bytes, budget: nat, more: nat)
    requires !SkipMessage(b, budget).Failed? && budget <= more
    ensures SkipMessage(b, more) == SkipMessage(b, budget)
    decreases |b|, 0
  {
    hide SkipField;
    if ReadTag(b).Tag? && ReadTag(b).tag % 8 != WIRETYPE_END_GROUP {
      TagExtends(b, []);
      SkipMore(ReadTag(b).rest, ReadTag(b).tag, budget, more);
      SkipMessageMore(SkipField(ReadTag(b).rest, ReadTag(b).tag, budget).value.rest, budget, more);
    }
  }

  /** What was read with a budget is read the same with a larger one. */
  lemma {:induction false} ReadMore(reg: Registry, t: nat, fs: seq<Field>, tag: uint32, b: bytes, budget: nat,
                                    more: nat)
    requires ReadField(reg, t, fs, tag, b, budget).Some? && budget <= more
    ensures ReadField(reg, t, fs, tag, b, more) == ReadField(reg, t, fs, tag, b, budget)
    decreases |b|, 1
  {
    hide ReadPacked, ReadPrimitive, ReadString, ReadVarint32, Store, AddAll, Target, SkipField;
    var info := InfoFor(reg, t, tag);
    if info.None? { SkipMore(b, tag, budget, more); }
    else if info.value.isPacked || IsPrimitive(info.value.fieldType) {}
    else if info.value.fieldType == STRING || info.value.fieldType == BYTES {}
    else {
      var into := Target(fs, info.value, tag / 8);
      if info.value.fieldType == GROUP { ReadFieldsMore(reg, info.value.messageType, into, b, budget - 1, more - 1); }
      else {
        var r := ReadVarint32(b).value;
        VarintIsShorter(b);
        ReadFieldsMore(reg, info.value.messageType, into, Clip(r.rest, r.value), budget - 1, more - 1);
      }
    }
  }

  lemma VarintIsShorter(b: bytes)
    requires ReadVarint32(b).Some?
    ensures |ReadVarint32(b).value.rest| < |b|
  {
    VarintExtends(b, []);
  }

  lemma {:induction false} ReadFieldsMore(reg: Registry, t: nat, fs: seq<Field>, b: bytes, budget: nat, more: nat)
    requires !ReadFields(reg, t, fs, b, budget).Failed? && budget <= more
    ensures ReadFields(reg, t, fs, b, more) == ReadFields(reg, t, fs, b, budget)
    decreases |b|, 0
  {
    hide ReadField;
    if ReadTag(b).Tag? && ReadTag(b).tag % 8 != WIRETYPE_END_GROUP {
      TagExtends(b, []);
      var tag, rest := ReadTag(b).tag, ReadTag(b).rest;
      ReadMore(reg, t, fs, tag, rest, budget, more);
      var r := ReadField(reg, t, fs, tag, rest, budget).value;
      ReadFieldsMore(reg, t, r.value, r.rest, budget, more);
    }
  }

  /** An item that can be read with the type number first reads the same with the message
      first, unless the recursion limit was raised. */
  lemma EitherOrder(reg: Registry, t: nat, fs: seq<Field>, n: uint32, s: bytes, rest: bytes, budget: nat)
    requires |s| < INT_LIMIT && budget <= DEFAULT_LIMIT
    requires ReadItem(reg, t, fs, 0, [], TypeFirst(n, s) + rest, budget).Some?
    ensures SameEitherWay(reg, t, fs, n, s, rest, budget)
  {
    hide ReadItem, ReadField, TypeFirst, MessageFirst, WriteString;
    TypeFirstRead(reg, t, fs, n, s, rest, budget);
    MessageFirstRead(reg, t, fs, n, s, rest, budget);
    ReadMore(reg, t, fs, FakeTag(n), WriteString(s), budget, DEFAULT_LIMIT);
  }

  // ------------------------------------------------------------------
  // When it does

  /** One message type, with an optional extension of that same type. */
  function NestingRegistry(): Registry {
    (t, n) => if t == 0 && n == 1 then Some(Info(MESSAGE, false, false, 0, k => true)) else None
  }

  /** A message inside a message, and so on; empty at depth 0. */
  function NestingBytes(depth: nat): bytes {
    if depth == 0 then [] else WriteTag(1, WIRETYPE_LENGTH_DELIMITED) + WriteString(NestingBytes(depth - 1))
  }

  lemma {:induction false} NestingBytesSize(depth: nat)
    requires depth < 1000
    ensures |NestingBytes(depth)| <= 10 * depth
  {
    hide WriteVarint;
    if depth > 0 {
      NestingBytesSize(depth - 1);
      VarintSizesExact(|NestingBytes(depth - 1)|);
      VarintSizesExact(MakeTag(1, WIRETYPE_LENGTH_DELIMITED));
    }
  }

  /** Nested messages are read exactly when the budget is no smaller than their depth. */
  lemma {:induction false} NestedRead(fs: seq<Field>, depth: nat, budget: nat)
    requires depth < 1000
    ensures ReadFields(NestingRegistry(), 0, fs, NestingBytes(depth), budget).Finished? <==> depth <= budget
    decreases depth, 0
  {
    hide ReadFields, ReadField, WriteVarint, WriteString, NestingRegistry;
    var reg := NestingRegistry();
    if depth == 0 {
      EndOfBytes(reg, 0, fs, budget);
    } else {
      var b := WriteString(NestingBytes(depth - 1));
      NestedFieldRead(fs, depth - 1, budget);
      TaggedField(reg, 0, fs, 1, WIRETYPE_LENGTH_DELIMITED, b, budget);
      var r := ReadField(reg, 0, fs, MakeTag(1, WIRETYPE_LENGTH_DELIMITED), b, budget);
      if r.Some? { EndOfBytes(reg, 0, r.value.value, budget); }
    }
  }

  lemma {:induction false} NestedFieldRead(fs: seq<Field>, depth: nat, budget: nat)
    requires depth < 1000
    ensures var r := ReadField(NestingRegistry(), 0, fs, MakeTag(1, WIRETYPE_LENGTH_DELIMITED),
                               WriteString(NestingBytes(depth)), budget);
      (r.Some? <==> depth < budget) && (r.Some? ==> r.value.rest == [])
    decreases depth, 1
  {
    hide ReadFields, WriteString, ReadVarint32, Clip, Store;
    var reg, data := NestingRegistry(), NestingBytes(depth);
    NestingBytesSize(depth);
    LengthRead(data, []);
    assert WriteString(data) + [] == WriteString(data) && data + [] == data;
    if budget > 0 {
      NestedRead(Target(fs, reg(0, 1).value, 1), depth, budget - 1);
    }
  }

  predicate SameEitherWay(reg: Registry, t: nat, fs: seq<Field>, n: uint32, s: bytes, rest: bytes, budget: nat) {
    ReadItem(reg, t, fs, 0, [], TypeFirst(n, s) + rest, budget)
      == ReadItem(reg, t, fs, 0, [], MessageFirst(n, s) + rest, budget)
  }

  ghost predicate OrderFree(budget: nat) {
    forall reg: Registry, t: nat, fs, n, s, rest :: |s| < INT_LIMIT ==> SameEitherWay(reg, t, fs, n, s, rest, budget)
  }

  /** Messages that are nested too deep for one of the orders only. */
  lemma OrderMatters(fs: seq<Field>, budget: nat, rest: bytes)
    requires budget != DEFAULT_LIMIT
    ensures var s := NestingBytes(if budget < DEFAULT_LIMIT then budget else DEFAULT_LIMIT);
            |s| < INT_LIMIT && !SameEitherWay(NestingRegistry(), 0, fs, 1, s, rest, budget)
  {
    hide ReadItem, ReadField, TypeFirst, MessageFirst, WriteString;
    var depth := if budget < DEFAULT_LIMIT then budget else DEFAULT_LIMIT;
    NestingBytesSize(depth);
    TypeFirstRead(NestingRegistry(), 0, fs, 1, NestingBytes(depth), rest, budget);
    MessageFirstRead(NestingRegistry(), 0, fs, 1, NestingBytes(depth), rest, budget);
    NestedFieldRead(fs, depth, budget);
    NestedFieldRead(fs, depth, DEFAULT_LIMIT);
  }

  /** The order of type number and message is free exactly where the recursion budget that
      is left is that of a fresh stream: the message read first is parsed from a stream of
      its own.  Elsewhere a message nested deep enough is refused in one order only. */
  lemma OrderFreeExactly(budget: nat)
    ensures OrderFree(budget) <==> budget == 100
  {
    hide ReadItem, ReadField, TypeFirst, MessageFirst, WriteString, SameEitherWay, NestingBytes;
    if budget == DEFAULT_LIMIT {
      forall reg: Registry, t: nat, fs, n, s, rest | |s| < INT_LIMIT
        ensures SameEitherWay(reg, t, fs, n, s, rest, budget)
      {
        SameAtLimit(reg, t, fs, n, s, rest);
      }
    } else {
      OrderMatters([], budget, []);
    }
  }

  lemma SameAtLimit(reg: Registry, t: nat, fs: seq<Field>, n: uint32, s: bytes, rest: bytes)
    requires |s| < INT_LIMIT
    ensures SameEitherWay(reg, t, fs, n, s, rest, DEFAULT_LIMIT)
  {
    hide ReadItem, ReadField, TypeFirst, MessageFirst, WriteString;
    TypeFirstRead(reg, t, fs, n, s, rest, DEFAULT_LIMIT);
    MessageFirstRead(reg, t, fs, n, s, rest, DEFAULT_LIMIT);
  }

  // ------------------------------------------------------------------
  // Writing

  /** The field is a singular message, as every extension of a message set is. */
  predicate IsItem(reg: Registry, t: nat, f: Field) {
    f.content.One? && f.content.value.Message? && reg(t, f.number).Some? && reg(t, f.number).value.fieldType == MESSAGE
  }

  lemma ItemParts(reg: Registry, t: nat, f: Field, budget: nat)
    requires TypedField(reg, t, f, budget) && IsItem(reg, t, f)
    ensures budget > 0 && Typed(reg, reg(t, f.number).value.messageType, f.content.value.fields, budget - 1)
    ensures FitsField(reg, t, f, budget) ==>
      && Fits(reg, reg(t, f.number).value.messageType, f.content.value.fields, budget - 1)
      && |WriteFieldsOf(reg, reg(t, f.number).value.messageType, f.content.value.fields, budget - 1)| < INT_LIMIT
  {
    var info := reg(t, f.number).value;
    assert TypedValue(reg, info, f.content.value, budget);
    if FitsField(reg, t, f, budget) { assert FitsValue(reg, info, f.content.value, budget); }
  }

  function WriteItem(reg: Registry, t: nat, f: Field, budget: nat): bytes
    requires TypedField(reg, t, f, budget) && IsItem(reg, t, f)
  {
    ItemParts(reg, t, f, budget);
    WriteVarint(ITEM_START_TAG)
    + TypeFirst(f.number, WriteFieldsOf(reg, reg(t, f.number).value.messageType, f.content.value.fields, budget - 1))
  }

  /** What is written for a singular message, byte by byte: the number of its type, then the
      message, between the tags of an item. */
  lemma ItemWritten(reg: Registry, t: nat, f: Field, budget: nat)
    requires TypedField(reg, t, f, budget) && reg(t, f.number).value.fieldType == MESSAGE
    requires !reg(t, f.number).value.isRepeated
    ensures f.content.One? && f.content.value.Message? && budget > 0
    ensures var inner := reg(t, f.number).value.messageType;
      Typed(reg, inner, f.content.value.fields, budget - 1)
      && WriteSet(reg, t, [f], budget)
         == [11, 16] + WriteVarint(f.number)
            + [26] + WriteString(WriteFieldsOf(reg, inner, f.content.value.fields, budget - 1)) + [12]
  {
    hide WriteFieldsOf, WriteString, TypeFirst;
    assert TypedValue(reg, reg(t, f.number).value, f.content.value, budget);
    assert IsItem(reg, t, f);
    var data := WriteFieldsOf(reg, reg(t, f.number).value.messageType, f.content.value.fields, budget - 1);
    ItemBytes(f.number, data, []);
    OneWritten(reg, t, f, budget);
    var b := [11, 16] + WriteVarint(f.number) + [26] + WriteString(data) + [12];
    assert b + [] == b && TypeFirst(f.number, data) + [] == TypeFirst(f.number, data);
  }

  lemma OneWritten(reg: Registry, t: nat, f: Field, budget: nat)
    requires TypedField(reg, t, f, budget)
    ensures Typed(reg, t, [f], budget) && WriteSet(reg, t, [f], budget) == WriteSetField(reg, t, f, budget)
  {
    hide WriteSetField, TypedField;
    assert [f][1..] == [];
  }

  predicate AllItems(reg: Registry, t: nat, fs: seq<Field>) {
    forall i :: 0 <= i < |fs| ==> IsItem(reg, t, fs[i])
  }

  /** An extension that does not belong into a message set is written as a field. */
  function WriteSetField(reg: Registry, t: nat, f: Field, budget: nat): bytes
    requires TypedField(reg, t, f, budget)
  {
    if IsItem(reg, t, f) then WriteItem(reg, t, f, budget) else WriteFieldOf(reg, t, f, budget)
  }

  function WriteSet(reg: Registry, t: nat, fs: seq<Field>, budget: nat): bytes
    requires Typed(reg, t, fs, budget)
    decreases fs
  {
    if fs == [] then [] else WriteSetField(reg, t, fs[0], budget) + WriteSet(reg, t, fs[1..], budget)
  }

  /** The four tags of an item take a byte each. */
  const ITEM_TAGS_SIZE: nat := 4

  /** MessageSetItemByteSize */
  function ItemSize(reg: Registry, t: nat, f: Field, ghost budget: nat): nat
    requires TypedField(reg, t, f, budget) && FitsField(reg, t, f, budget) && IsItem(reg, t, f)
  {
    var inner := reg(t, f.number).value.messageType;
    ItemParts(reg, t, f, budget);
    FieldsSizeMatches(reg, inner, f.content.value.fields, budget - 1);
    var size := FieldsByteSize(reg, inner, f.content.value.fields, budget - 1);
    ITEM_TAGS_SIZE + VarintSize32(f.number) + VarintSize32(size) + size
  }

  /** The size of an item is the number of bytes written for it. */
  lemma ItemSizeExact(reg: Registry, t: nat, f: Field, budget: nat)
    requires TypedField(reg, t, f, budget) && FitsField(reg, t, f, budget) && IsItem(reg, t, f)
    ensures |WriteItem(reg, t, f, budget)| == ItemSize(reg, t, f, budget)
  {
    var inner := reg(t, f.number).value.messageType;
    ItemParts(reg, t, f, budget);
    FieldsSizeMatches(reg, inner, f.content.value.fields, budget - 1);
    VarintSizesExact(f.number);
    VarintSizesExact(|WriteFieldsOf(reg, inner, f.content.value.fields, budget - 1)|);
    SmallTags();
    hide WriteVarint, WriteFieldsOf, FieldsByteSize, VarintSize32;
  }

  function SetFieldSize(reg: Registry, t: nat, f: Field, ghost budget: nat): nat
    requires TypedField(reg, t, f, budget) && FitsField(reg, t, f, budget)
  {
    if IsItem(reg, t, f) then ItemSize(reg, t, f, budget) else FieldByteSize(reg, t, f, budget)
  }

  /** MessageSetByteSize */
  function SetByteSize(reg: Registry, t: nat, fs: seq<Field>, ghost budget: nat): nat
    requires Typed(reg, t, fs, budget) && Fits(reg, t, fs, budget)
    decreases fs
  {
    if fs == [] then 0 else SetFieldSize(reg, t, fs[0], budget) + SetByteSize(reg, t, fs[1..], budget)
  }

  /** The size of a message set is the number of bytes written for it. */
  lemma {:induction false} SetSizeExact(reg: Registry, t: nat, fs: seq<Field>, budget: nat)
    requires Typed(reg, t, fs, budget) && Fits(reg, t, fs, budget)
    ensures |WriteSet(reg, t, fs, budget)| == SetByteSize(reg, t, fs, budget)
    decreases fs
  {
    hide WriteItem, WriteFieldOf, ItemSize, FieldByteSize, TypedField, FitsField, IsItem;
    if fs != [] {
      if IsItem(reg, t, fs[0]) {
        ItemSizeExact(reg, t, fs[0], budget);
      } else {
        FieldSizeMatches(reg, t, fs[0], budget);
      }
      SetSizeExact(reg, t, fs[1..], budget);
    }
  }

  lemma SmallTags()
    ensures |WriteVarint(ITEM_START_TAG)| == 1 && |WriteVarint(ITEM_END_TAG)| == 1
    ensures |WriteVarint(TYPE_ID_TAG)| == 1 && |WriteVarint(MESSAGE_TAG)| == 1
  {
  }

  // ------------------------------------------------------------------
  // Round trip

  /** The encoding of the message in an item. */
  function ItemData(reg: Registry, t: nat, f: Field, budget: nat): bytes
    requires TypedField(reg, t, f, budget) && IsItem(reg, t, f)
  {
    ItemParts(reg, t, f, budget);
    WriteFieldsOf(reg, reg(t, f.number).value.messageType, f.content.value.fields, budget - 1)
  }

  lemma ItemMessageRead(reg: Registry, t: nat, fs: seq<Field>, f: Field, budget: nat)
    requires Ordered(fs) && TypedField(reg, t, f, budget) && FitsField(reg, t, f, budget) && IsItem(reg, t, f)
    ensures ReadField(reg, t, fs, FakeTag(f.number), WriteString(ItemData(reg, t, f, budget)), budget)
         == Some(Read(MergeField(fs, f), []))
    ensures |ItemData(reg, t, f, budget)| < INT_LIMIT && f.number < FIELD_LIMIT
  {
    var info := reg(t, f.number).value;
    var inner := f.content.value.fields;
    var data := ItemData(reg, t, f, budget);
    var merged := MergeFields(Target(fs, info, f.number), inner);
    ItemParts(reg, t, f, budget);
    GetOrdered(fs, f.number);
    hide WriteVarint, ReadField, ReadFields, WriteString, WriteFieldsOf, MergeFields, Typed, Fits;
    ParseIsMerge(reg, info.messageType, Target(fs, info, f.number), inner, budget - 1);
    MessageRead(reg, t, fs, info, f.number, data, merged, [], budget);
    assert WriteString(data) + [] == WriteString(data);
  }

  lemma ItemReadBack(reg: Registry, t: nat, fs: seq<Field>, f: Field, rest: bytes, budget: nat)
    requires Ordered(fs) && TypedField(reg, t, f, budget) && FitsField(reg, t, f, budget) && IsItem(reg, t, f)
    ensures ReadSet(reg, t, fs, WriteItem(reg, t, f, budget) + rest, budget)
         == ReadSet(reg, t, MergeField(fs, f), rest, budget)
  {
    hide WriteVarint, ReadItem, ReadField, ReadFields, WriteString, WriteFieldsOf, MergeField, ReadTag, TypeFirst,
      Typed, Fits, TypedField, FitsField, Ordered, FakeTag;
    ItemMessageRead(reg, t, fs, f, budget);
    var data := ItemData(reg, t, f, budget);
    TypeFirstRead(reg, t, fs, f.number, data, rest, budget);
    assert WriteItem(reg, t, f, budget) + rest == WriteVarint(ITEM_START_TAG) + (TypeFirst(f.number, data) + rest);
    TagRoundTrip(ITEM_START_TAG, TypeFirst(f.number, data) + rest);
  }

  /** An item byte by byte: a message with the number of its type is the field of that
      number. */
  lemma ItemBytesRead(reg: Registry, t: nat, fs: seq<Field>, n: nat, s: bytes, rest: bytes, budget: nat)
    requires 0 < n < FIELD_LIMIT && |s| < INT_LIMIT
    ensures ReadSet(reg, t, fs, [11, 16] + WriteVarint(n) + [26] + WriteString(s) + [12] + rest, budget) ==
            match ReadField(reg, t, fs, MakeTag(n, WIRETYPE_LENGTH_DELIMITED), WriteString(s), budget)
            case Some(r) => ReadSet(reg, t, r.value, rest, budget)
            case None => Failed
  {
    ItemTagBytes();
    hide WriteVarint, ReadItem, ReadField, WriteString, ReadTag, TypeFirst;
    TypeFirstRead(reg, t, fs, n, s, rest, budget);
    ItemBytes(n, s, rest);
    TagRoundTrip(ITEM_START_TAG, TypeFirst(n, s) + rest);
  }

  lemma ItemTagBytes()
    ensures WriteVarint(ITEM_START_TAG) == [11] && WriteVarint(TYPE_ID_TAG) == [16]
    ensures WriteVarint(MESSAGE_TAG) == [26] && WriteVarint(ITEM_END_TAG) == [12]
  {
  }

  lemma ItemBytes(n: nat, s: bytes, rest: bytes)
    requires n < FIELD_LIMIT
    ensures [11, 16] + WriteVarint(n) + [26] + WriteString(s) + [12] + rest
         == WriteVarint(ITEM_START_TAG) + (TypeFirst(n, s) + rest)
  {
    ItemTagBytes();
    hide WriteVarint, WriteString;
    assert [11, 16] == [11] + [16];
  }

  /** In an item other fields are passed over. */
  lemma OthersInItem(reg: Registry, t: nat, fs: seq<Field>, fake: uint32, data: bytes, f: UnknownField, rest: bytes,
                     budget: nat)
    requires Writable(f, budget) && !(f.Varint? && f.number == 2) && !(f.LengthDelimited? && f.number == 3)
    ensures ReadItem(reg, t, fs, fake, data, WriteField(f) + rest, budget)
         == ReadItem(reg, t, fs, fake, data, rest, budget)
  {
    hide ItemStep, WriteField;
    StepOnOther(reg, t, fs, fake, data, f, rest, budget);
  }

  lemma StepOnOther(reg: Registry, t: nat, fs: seq<Field>, fake: uint32, data: bytes, f: UnknownField, rest: bytes,
                    budget: nat)
    requires Writable(f, budget) && !(f.Varint? && f.number == 2) && !(f.LengthDelimited? && f.number == 3)
    ensures ItemStep(reg, t, fs, fake, data, WriteField(f) + rest, budget) == Next(fs, fake, data, rest)
  {
    hide ReadTag, ReadField, ReadVarint32, SkipField, ReadString, WriteVarint, WritePayload, Writable, FakeTag;
    var tag := f.number * 8 + WireTypeOf(f);
    WritableTag(f, budget);
    assert WriteField(f) + rest == WriteVarint(tag) + (WritePayload(f) + rest);
    TagRoundTrip(tag, WritePayload(f) + rest);
    FieldRoundTrip(f, budget, rest);
    TagParts(f.number, WireTypeOf(f));
  }

  /** Of several messages before the type number the first is used, and the others are not
      even looked at. */
  lemma FirstMessageOnly(reg: Registry, t: nat, fs: seq<Field>, n: uint32, s: bytes, more: bytes, b: bytes, budget: nat)
    requires |s| < INT_LIMIT
    ensures ReadItem(reg, t, fs, 0, WriteString(s) + more, [16] + WriteVarint(n) + b, budget)
         == ReadItem(reg, t, fs, 0, WriteString(s), [16] + WriteVarint(n) + b, budget)
  {
    ItemTagBytes();
    hide WriteVarint, ReadItem, ReadField, FakeTag;
    DelimitedAlone(reg, t, fs, FakeTag(n), s, more, DEFAULT_LIMIT);
    assert WriteString(s) != [] && WriteString(s) + more != [];
    assert [16] + WriteVarint(n) + b == WriteVarint(TYPE_ID_TAG) + (WriteVarint(n) + b);
    ItemType(reg, t, fs, n, WriteString(s) + more, b, budget);
    ItemType(reg, t, fs, n, WriteString(s), b, budget);
  }

  /** An item that is cut off is an error. */
  lemma ItemCutOff(reg: Registry, t: nat, fs: seq<Field>, fake: uint32, data: bytes, budget: nat)
    ensures ReadItem(reg, t, fs, fake, data, [], budget) == None
  {
    assert ReadTag([]) == AtEnd;
  }

  /** A message without a type number is dropped. */
  lemma NoType(reg: Registry, t: nat, fs: seq<Field>, s: bytes, rest: bytes, budget: nat)
    requires |s| < INT_LIMIT
    ensures ReadItem(reg, t, fs, 0, [], [26] + WriteString(s) + [12] + rest, budget) == Some(Read(fs, rest))
  {
    ItemTagBytes();
    hide WriteVarint, ReadItem, ReadField, WriteString, ReadTag;
    var end := WriteVarint(ITEM_END_TAG) + rest;
    assert [26] + WriteString(s) + [12] + rest == WriteVarint(MESSAGE_TAG) + (WriteString(s) + end);
    ItemMessage(reg, t, fs, 0, s, end, budget);
    EndStepWith(reg, t, fs, WriteString(s), rest, budget);
  }

  lemma EndStepWith(reg: Registry, t: nat, fs: seq<Field>, data: bytes, rest: bytes, budget: nat)
    ensures ReadItem(reg, t, fs, 0, data, WriteVarint(ITEM_END_TAG) + rest, budget) == Some(Read(fs, rest))
  {
    hide WriteVarint, ReadTag, ReadField;
    TagRoundTrip(ITEM_END_TAG, rest);
  }

  /** A group with number 1 begins like an item. */
  predicate LooksLikeItem(reg: Registry, t: nat, f: Field) {
    f.number == 1 && reg(t, 1).Some? && !reg(t, 1).value.isPacked && reg(t, 1).value.fieldType == GROUP
  }

  predicate NoneLooksLikeItem(reg: Registry, t: nat, fs: seq<Field>) {
    forall i :: 0 <= i < |fs| ==> !LooksLikeItem(reg, t, fs[i])
  }

  lemma AfterOneInSet(reg: Registry, t: nat, fs: seq<Field>, b: bytes, tag: uint32, after: seq<Field>,
                      rest: bytes, budget: nat)
    requires ReadsOne(reg, t, fs, b, tag, after, rest, budget) && tag != ITEM_START_TAG
    ensures ReadSet(reg, t, fs, b, budget) == ReadSet(reg, t, after, rest, budget)
  {
    hide ReadTag, ReadField;
  }

  lemma {:induction false} ValuesInSet(reg: Registry, t: nat, fs: seq<Field>, info: Info, n: nat, vs: seq<Value>,
                                       rest: bytes, budget: nat)
    requires Ordered(fs) && 0 < n < FIELD_LIMIT && reg(t, n) == Some(info) && !info.isPacked && info.isRepeated
    requires MakeTag(n, WireTypeFor(info.fieldType)) != ITEM_START_TAG
    requires TypedValues(reg, info, vs, budget) && FitsValues(reg, info, vs, budget)
    ensures ReadSet(reg, t, fs, WriteValues(reg, info, n, vs, budget) + rest, budget)
         == ReadSet(reg, t, AddAll(fs, n, vs), rest, budget)
    decreases vs
  {
    hide ReadSet, ReadsOne, WriteValue, TypedValue, FitsValue, MergeFields, Ordered, OrderedValue;
    if vs == [] {
      assert WriteValues(reg, info, n, vs, budget) + rest == rest;
    } else {
      var v, more := vs[0], WriteValues(reg, info, n, vs[1..], budget) + rest;
      assert WriteValues(reg, info, n, vs, budget) + rest == WriteValue(reg, info, n, v, budget) + more;
      ValueReads(reg, t, fs, info, n, v, more, budget);
      AfterOneInSet(reg, t, fs, WriteValue(reg, info, n, v, budget) + more, MakeTag(n, WireTypeFor(info.fieldType)),
                    StoreMerged(fs, info, n, v), more, budget);
      TypedValueOrdered(reg, info, v, budget);
      ValueIntoNothing(v);
      assert StoreMerged(fs, info, n, v) == AddAll(fs, n, [v]);
      PutOrdered(fs, n, Many(ValuesOf(fs, n) + [v]));
      ValuesInSet(reg, t, AddAll(fs, n, [v]), info, n, vs[1..], rest, budget);
      IsSorted(fs);
      AddAllTwice(fs, n, [v], vs[1..]);
      assert [v] + vs[1..] == vs;
    }
  }

  /** A field in the ordinary format is read back in a message set, unless it looks like an
      item. */
  lemma FieldReadBack(reg: Registry, t: nat, fs: seq<Field>, f: Field, rest: bytes, budget: nat)
    requires Ordered(fs) && TypedField(reg, t, f, budget) && FitsField(reg, t, f, budget) && !LooksLikeItem(reg, t, f)
    ensures ReadSet(reg, t, fs, WriteFieldOf(reg, t, f, budget) + rest, budget)
         == ReadSet(reg, t, MergeField(fs, f), rest, budget)
  {
    hide ReadSet, ReadsOne, WriteValue, WriteValues, TypedValue, TypedValues, FitsValue, FitsValues, MergeFields,
      Ordered;
    var info := reg(t, f.number).value;
    if info.isPacked {
      PackedReads(reg, t, fs, f, rest, budget);
      AfterOneInSet(reg, t, fs, WriteFieldOf(reg, t, f, budget) + rest, MakeTag(f.number, WIRETYPE_LENGTH_DELIMITED),
                    MergeField(fs, f), rest, budget);
    } else {
      match f.content
      case One(v) =>
        ValueReads(reg, t, fs, info, f.number, v, rest, budget);
        AfterOneInSet(reg, t, fs, WriteFieldOf(reg, t, f, budget) + rest,
                      MakeTag(f.number, WireTypeFor(info.fieldType)),
                      StoreMerged(fs, info, f.number, v), rest, budget);
      case Many(vs) => ValuesInSet(reg, t, fs, info, f.number, vs, rest, budget);
    }
  }

  /** Parsing a written message set into `a` is merging it into `a`, items and ordinary
      fields alike, as long as none of them is a group with number 1. */
  lemma {:induction false} SetRoundTrip(reg: Registry, t: nat, a: seq<Field>, b: seq<Field>, budget: nat)
    requires Ordered(a) && Typed(reg, t, b, budget) && Fits(reg, t, b, budget) && NoneLooksLikeItem(reg, t, b)
    ensures ReadSet(reg, t, a, WriteSet(reg, t, b, budget), budget) == Finished(MergeFields(a, b))
    decreases b
  {
    hide WriteItem, WriteFieldOf, TypedField, FitsField, MergeField, Ordered, IsItem, LooksLikeItem;
    if b != [] {
      var more := WriteSet(reg, t, b[1..], budget);
      if IsItem(reg, t, b[0]) { ItemReadBack(reg, t, a, b[0], more, budget); }
      else { FieldReadBack(reg, t, a, b[0], more, budget); }
      TypedFieldOrdered(reg, t, b[0], budget);
      MergeFieldOrdered(a, b[0]);
      SetRoundTrip(reg, t, MergeField(a, b[0]), b[1..], budget);
    }
  }

  // ------------------------------------------------------------------
  // A group with number 1 is lost

  predicate Lacks(fs: seq<Field>, n: nat) {
    forall i :: 0 <= i < |fs| ==> fs[i].number != n
  }

  lemma {:induction false} PutLacks(fs: seq<Field>, n: nat, c: Content, m: nat)
    requires Lacks(fs, m) && n != m
    ensures Lacks(Put(fs, n, c), m)
  {
    if fs != [] && !(n < fs[0].number) && fs[0].number != n { PutLacks(fs[1..], n, c, m); }
  }

  /** The type has a group with number 1. */
  predicate HasGroupOne(reg: Registry, t: nat) {
    reg(t, 1).Some? && !reg(t, 1).value.isPacked && reg(t, 1).value.fieldType == GROUP
  }

  /** Only the tag that begins an item would store the group. */
  lemma FieldLacks(reg: Registry, t: nat, fs: seq<Field>, tag: uint32, b: bytes, budget: nat)
    requires HasGroupOne(reg, t) && Lacks(fs, 1) && tag != ITEM_START_TAG
    ensures ReadField(reg, t, fs, tag, b, budget).Some? ==> Lacks(ReadField(reg, t, fs, tag, b, budget).value.value, 1)
  {
    hide ReadFields, ReadPacked, ReadPrimitive, ReadString, ReadVarint32, SkipField, Put, Get, Clip;
    forall c ensures tag / 8 != 1 ==> Lacks(Put(fs, tag / 8, c), 1) {
      if tag / 8 != 1 { PutLacks(fs, tag / 8, c, 1); }
    }
  }

  lemma StepLacks(reg: Registry, t: nat, fs: seq<Field>, fake: uint32, data: bytes, b: bytes, budget: nat)
    requires HasGroupOne(reg, t) && Lacks(fs, 1) && fake != ITEM_START_TAG
    ensures match ItemStep(reg, t, fs, fake, data, b, budget)
            case Bad => true
            case Ended(final, _) => Lacks(final, 1)
            case Next(more, tag, _, _) => Lacks(more, 1) && tag != ITEM_START_TAG
  {
    hide ReadField, ReadString, ReadVarint32, SkipField, FakeTag, WriteString;
    if ReadTag(b).Tag? {
      var rest := ReadTag(b).rest;
      if ReadVarint32(rest).Some? {
        FieldLacks(reg, t, fs, FakeTag(ReadVarint32(rest).value.value), data, DEFAULT_LIMIT);
      }
      FieldLacks(reg, t, fs, fake, rest, budget);
    }
  }

  lemma {:induction false} ItemLacks(reg: Registry, t: nat, fs: seq<Field>, fake: uint32, data: bytes, b: bytes,
                                     budget: nat)
    requires HasGroupOne(reg, t) && Lacks(fs, 1) && fake != ITEM_START_TAG
    ensures ReadItem(reg, t, fs, fake, data, b, budget).Some? ==>
              Lacks(ReadItem(reg, t, fs, fake, data, b, budget).value.value, 1)
    decreases |b|
  {
    hide ItemStep, Lacks;
    StepLacks(reg, t, fs, fake, data, b, budget);
    match ItemStep(reg, t, fs, fake, data, b, budget)
    case Next(more, tag, kept, rest) => ItemLacks(reg, t, more, tag, kept, rest, budget);
    case _ =>
  }

  /** No message set makes its reader store a group with number 1. */
  lemma {:induction false} SetLacks(reg: Registry, t: nat, fs: seq<Field>, b: bytes, budget: nat)
    requires HasGroupOne(reg, t) && Lacks(fs, 1)
    ensures ReadSet(reg, t, fs, b, budget).Finished? ==> Lacks(ReadSet(reg, t, fs, b, budget).value, 1)
    decreases |b|
  {
    hide ReadItem, ReadField, Lacks;
    if ReadTag(b).Tag? {
      TagExtends(b, []);
      var tag, rest := ReadTag(b).tag, ReadTag(b).rest;
      if tag == ITEM_START_TAG {
        ItemLacks(reg, t, fs, 0, [], rest, budget);
        var r := ReadItem(reg, t, fs, 0, [], rest, budget);
        if r.Some? { SetLacks(reg, t, r.value.value, r.value.rest, budget); }
      } else {
        FieldLacks(reg, t, fs, tag, rest, budget);
        var r := ReadField(reg, t, fs, tag, rest, budget);
        if r.Some? { SetLacks(reg, t, r.value.value, r.value.rest, budget); }
      }
    }
  }

  /** A message set is read back exactly if it has no group with number 1: the tag that
      starts such a group is the one that starts an item. */
  lemma SetReadBackExactly(reg: Registry, t: nat, b: seq<Field>, budget: nat)
    requires Typed(reg, t, b, budget) && Fits(reg, t, b, budget)
    ensures ReadSet(reg, t, [], WriteSet(reg, t, b, budget), budget) == Finished(b) <==> NoneLooksLikeItem(reg, t, b)
  {
    hide ReadSet, WriteSet, TypedField, Fits;
    if NoneLooksLikeItem(reg, t, b) {
      SetRoundTrip(reg, t, [], b, budget);
      TypedOrdered(reg, t, b, budget);
      MergeIntoNothing(b);
    } else {
      assert HasGroupOne(reg, t);
      SetLacks(reg, t, [], WriteSet(reg, t, b, budget), budget);
    }
  }

  /** A type with nothing but a group that has number 1, and messages without fields. */
  function GroupRegistry(): Registry {
    (t, n) => if t == 0 && n == 1 then Some(Info(GROUP, false, false, 1, _ => false)) else None
  }

  /** The two tags of an empty group are taken for an item without contents. */
  lemma {:induction false} GroupLost()
    ensures var b := [Field(1, One(Message([])))];
      && Typed(GroupRegistry(), 0, b, 5) && Fits(GroupRegistry(), 0, b, 5) && !NoneLooksLikeItem(GroupRegistry(), 0, b)
      && ReadSet(GroupRegistry(), 0, [], WriteSet(GroupRegistry(), 0, b, 5), 5) != Finished(b)
  {
    var reg, b := GroupRegistry(), [Field(1, One(Message([])))];
    hide ReadSet, WriteSet;
    assert TypedField(reg, 0, b[0], 5);
    assert LooksLikeItem(reg, 0, b[0]);
    assert b[1..] == [];
    SetReadBackExactly(reg, 0, b, 5);
  }
}
