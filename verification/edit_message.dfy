/** The Edit message as a value: a plain loop that reads a tag and dispatches on it, its
    encoding, and how the two relate. */
module EditMessage {
  import opened Options
  import opened Wire
  import opened UnknownFields

  datatype EditValue = EditValue(kind: Option<int32>, text: Option<bytes>, location: Option<int32>,
                                 isUndo: Option<bool>, isRedo: Option<bool>, unknown: seq<UnknownField>)

  const NO_EDIT := EditValue(None, None, None, None, None, [])

  /** INSERT, REMOVE and CURSOR */
  predicate IsChangeType(value: int32) {
    value == 0 || value == 1 || value == 2
  }

  function Keep(m: EditValue, f: UnknownField): EditValue {
    m.(unknown := m.unknown + [f])
  }

  /** A value that is no change type is kept as an unknown field. */
  function SetKind(m: EditValue, value: int32): EditValue {
    if IsChangeType(value) then m.(kind := Some(value)) else Keep(m, Varint(1, ToUInt64(value)))
  }

  // ------------------------------------------------------------------
  // Reading

  /** The field with this tag. */
  function MergeField(m: EditValue, tag: uint32, b: bytes, budget: nat): (r: Option<Read<EditValue>>)
    ensures r.Some? ==> |r.value.rest| <= |b|
  {
    var number, wireType := tag / 8, tag % 8;
    if wireType == WIRETYPE_VARINT && (number == 1 || number == 3 || number == 4 || number == 5) then
      match ReadVarint32(b)
      case Some(r) =>
        VarintExtends(b, []);
        var v := r.value;
        Some(Read(
          (if number == 1 then SetKind(m, ToInt32(v))
           else if number == 3 then m.(location := Some(ToInt32(v)))
           else if number == 4 then m.(isUndo := Some(v != 0))
           else m.(isRedo := Some(v != 0))), r.rest))
      case None => None
    else if wireType == WIRETYPE_LENGTH_DELIMITED && number == 2 then
      match ReadString(b)
      case Some(r) => StringExtends(b, []); Some(Read(m.(text := Some(r.value)), r.rest))
      case None => None
    else
      match SkipField(b, tag, budget)
      case Some(r) => Some(Read(Keep(m, r.value), r.rest))
      case None => None
  }

  /** Read a tag and dispatch, until the bytes end or an end-group tag. */
  function Merge(m: EditValue, b: bytes, budget: nat): Outcome<EditValue>
    decreases |b|
  {
    match ReadTag(b)
    case AtEnd => Finished(m)
    case BadTag => Stopped(m)
    case Tag(tag, rest) =>
      TagExtends(b, []);
      if tag % 8 == WIRETYPE_END_GROUP then AtEndGroup(m, tag, rest)
      else match MergeField(m, tag, rest, budget)
        case Some(r) => Merge(r.value, r.rest, budget)
        case None => Failed
  }

  // ------------------------------------------------------------------
  // A generic reading, then an interpretation of its fields

  /** What a field means to an Edit. */
  function Interpret(m: EditValue, f: UnknownField): EditValue {
    match f
    case Varint(number, v) =>
      var low: uint32 := v % TWO_32;
      if number == 1 then SetKind(m, ToInt32(low))
      else if number == 3 then m.(location := Some(ToInt32(low)))
      else if number == 4 then m.(isUndo := Some(low != 0))
      else if number == 5 then m.(isRedo := Some(low != 0))
      else Keep(m, f)
    case LengthDelimited(number, s) => if number == 2 then m.(text := Some(s)) else Keep(m, f)
    case _ => Keep(m, f)
  }

  function InterpretAll(m: EditValue, fs: seq<UnknownField>): EditValue
    decreases fs
  {
    if fs == [] then m else InterpretAll(Interpret(m, fs[0]), fs[1..])
  }

  function Interpreted(m: EditValue, o: Outcome<seq<UnknownField>>): Outcome<EditValue> {
    match o
    case Finished(fs) => Finished(InterpretAll(m, fs))
    case AtEndGroup(fs, tag, rest) => AtEndGroup(InterpretAll(m, fs), tag, rest)
    case Stopped(fs) => Stopped(InterpretAll(m, fs))
    case Failed => Failed
  }

  lemma FieldIsInterpreted(m: EditValue, tag: uint32, b: bytes, budget: nat)
    ensures MergeField(m, tag, b, budget) ==
            match SkipField(b, tag, budget)
            case Some(r) => Some(Read(Interpret(m, r.value), r.rest))
            case None => None
  {
    hide ReadGroups, ReadString, SkipMessage, SetKind, ToInt32, ReadFixed;
    if ReadVarint64(b).Some? {
      LowHalf(ReadGroups(b, MAX_VARINT_BYTES).value.value);
    }
  }

  lemma LowHalf(v: nat)
    ensures v % TWO_64 % TWO_32 == v % TWO_32
  {
    assert v == v / TWO_64 * TWO_64 + v % TWO_64;
    assert v == (v / TWO_64 * TWO_32 + v % TWO_64 / TWO_32) * TWO_32 + v % TWO_64 % TWO_32;
  }

  lemma InterpretCons(m: EditValue, f: UnknownField, o: Outcome<seq<UnknownField>>)
    ensures Interpreted(m, Cons(f, o)) == Interpreted(Interpret(m, f), o)
  {
    if !o.Failed? { assert ([f] + o.value)[1..] == o.value; }
  }

  /** The dispatch loop accepts exactly the bytes that a generic reading accepts, ends in
      the same way, and gives the interpretation of the generic fields. */
  lemma {:induction false} MergeIsInterpretation(m: EditValue, b: bytes, budget: nat)
    ensures Merge(m, b, budget) == Interpreted(m, SkipMessage(b, budget))
    decreases |b|
  {
    hide MergeField, SkipField, Interpret;
    if ReadTag(b).Tag? {
      var tag, rest := ReadTag(b).tag, ReadTag(b).rest;
      TagExtends(b, []);
      FieldIsInterpreted(m, tag, rest, budget);
      if tag % 8 != WIRETYPE_END_GROUP && SkipField(rest, tag, budget).Some? {
        var r := SkipField(rest, tag, budget).value;
        MergeIsInterpretation(Interpret(m, r.value), r.rest, budget);
        InterpretCons(m, r.value, SkipMessage(r.rest, budget));
      }
    }
  }

  // ------------------------------------------------------------------
  // Merging

  function Or<T>(a: Option<T>, b: Option<T>): Option<T> {
    if b.Some? then b else a
  }

  /** The fields that are set in `b` replace those of `a`; unknown fields are appended. */
  function MergeValues(a: EditValue, b: EditValue): EditValue {
    EditValue(Or(a.kind, b.kind), Or(a.text, b.text), Or(a.location, b.location),
              Or(a.isUndo, b.isUndo), Or(a.isRedo, b.isRedo), a.unknown + b.unknown)
  }

  lemma KeepIsMerge(a: EditValue, m: EditValue, f: UnknownField)
    ensures Keep(MergeValues(a, m), f) == MergeValues(a, Keep(m, f))
  {
    assert a.unknown + m.unknown + [f] == a.unknown + (m.unknown + [f]);
  }

  lemma InterpretIsMerge(a: EditValue, m: EditValue, f: UnknownField)
    ensures Interpret(MergeValues(a, m), f) == MergeValues(a, Interpret(m, f))
  {
    KeepIsMerge(a, m, f);
    if f.Varint? { KeepIsMerge(a, m, Varint(1, ToUInt64(ToInt32(f.varint % TWO_32)))); }
    hide ToInt32, ToUInt64, IsChangeType, Keep;
  }

  lemma {:induction false} InterpretAllIsMerge(a: EditValue, m: EditValue, fs: seq<UnknownField>)
    ensures InterpretAll(MergeValues(a, m), fs) == MergeValues(a, InterpretAll(m, fs))
    decreases fs
  {
    if fs != [] {
      InterpretIsMerge(a, m, fs[0]);
      InterpretAllIsMerge(a, Interpret(m, fs[0]), fs[1..]);
    }
  }

  lemma {:induction false} InterpretAllAppend(m: EditValue, fs: seq<UnknownField>, gs: seq<UnknownField>)
    ensures InterpretAll(m, fs + gs) == InterpretAll(InterpretAll(m, fs), gs)
    decreases fs
  {
    if fs == [] { assert fs + gs == gs; }
    else {
      assert (fs + gs)[1..] == fs[1..] + gs;
      InterpretAllAppend(Interpret(m, fs[0]), fs[1..], gs);
    }
  }

  /** The outcome of a parse merged into a message. */
  function MergedInto(m: EditValue, o: Outcome<EditValue>): Outcome<EditValue> {
    match o
    case Finished(v) => Finished(MergeValues(m, v))
    case AtEndGroup(v, tag, rest) => AtEndGroup(MergeValues(m, v), tag, rest)
    case Stopped(v) => Stopped(MergeValues(m, v))
    case Failed => Failed
  }

  /** Parsing into a message is parsing on its own and merging the result in. */
  lemma ParseIntoIsMerge(m: EditValue, b: bytes, budget: nat)
    ensures Merge(m, b, budget) == MergedInto(m, Merge(NO_EDIT, b, budget))
  {
    MergeIsInterpretation(NO_EDIT, b, budget);
    MergeIsInterpretation(m, b, budget);
    var o := SkipMessage(b, budget);
    if !o.Failed? {
      InterpretAllIsMerge(m, NO_EDIT, o.value);
      MergeNothing(m);
    }
  }

  lemma MergeNothing(m: EditValue)
    ensures MergeValues(m, NO_EDIT) == m && MergeValues(NO_EDIT, m) == m
  {
    assert m.unknown + [] == m.unknown && [] + m.unknown == m.unknown;
  }

  /** Parsing two fully consumed byte strings one after the other is parsing each and
      merging. */
  lemma ParseOfConcatenation(a: bytes, b: bytes, budget: nat)
    requires Merge(NO_EDIT, a, budget).Finished? && Merge(NO_EDIT, b, budget).Finished?
    ensures Merge(NO_EDIT, a + b, budget)
         == Finished(MergeValues(Merge(NO_EDIT, a, budget).value, Merge(NO_EDIT, b, budget).value))
  {
    MergeIsInterpretation(NO_EDIT, a, budget);
    MergeIsInterpretation(NO_EDIT, b, budget);
    MergeIsInterpretation(NO_EDIT, a + b, budget);
    MessageExtends(a, budget, b);
    var fs, gs := SkipMessage(a, budget).value, SkipMessage(b, budget).value;
    InterpretAllAppend(NO_EDIT, fs, gs);
    InterpretAllIsMerge(InterpretAll(NO_EDIT, fs), NO_EDIT, gs);
    MergeNothing(InterpretAll(NO_EDIT, fs));
  }

  // ------------------------------------------------------------------
  // Writing

  function WriteInt32(tag: byte, v: Option<int32>): bytes {
    if v.Some? then [tag] + WriteVarint32SignExtended(v.value) else []
  }

  function WriteBool(tag: byte, v: Option<bool>): bytes {
    if v.Some? then [tag, if v.value then 1 else 0] else []
  }

  function WriteText(tag: byte, v: Option<bytes>): bytes {
    if v.Some? then [tag] + WriteString(v.value) else []
  }

  /** The fields that are set, in order of their numbers, then the unknown fields. */
  function Encode(m: EditValue): bytes {
    WriteInt32(8, m.kind) + WriteText(18, m.text) + WriteInt32(24, m.location)
    + WriteBool(32, m.isUndo) + WriteBool(40, m.isRedo) + WriteFields(m.unknown)
  }

  /** ByteSize */
  function Size(m: EditValue, ghost budget: nat): nat
    requires AllWritable(m.unknown, budget) && (m.text.Some? ==> |m.text.value| < INT_LIMIT)
  {
    (if m.kind.Some? then 1 + VarintSize32SignExtended(m.kind.value) else 0)
    + (if m.text.Some? then 1 + VarintSize32(|m.text.value|) + |m.text.value| else 0)
    + (if m.location.Some? then 1 + VarintSize32SignExtended(m.location.value) else 0)
    + (if m.isUndo.Some? then 1 + 1 else 0)
    + (if m.isRedo.Some? then 1 + 1 else 0)
    + FieldsSize(m.unknown, budget)
  }

  /** The size is the number of bytes written. */
  lemma EditSizeExact(m: EditValue, budget: nat)
    requires AllWritable(m.unknown, budget) && (m.text.Some? ==> |m.text.value| < INT_LIMIT)
    ensures |Encode(m)| == Size(m, budget)
  {
    hide WriteVarint, VarintSize32, VarintSize64, WriteFields, FieldsSize;
    FieldsSizeExact(m.unknown, budget);
    if m.kind.Some? { SignExtendedSizeExact(m.kind.value); }
    if m.location.Some? { SignExtendedSizeExact(m.location.value); }
    if m.text.Some? { VarintSizesExact(|m.text.value|); }
  }

  function Int32Field(number: nat, v: Option<int32>): seq<UnknownField> {
    if v.Some? then [Varint(number, ToUInt64(v.value))] else []
  }

  function BoolField(number: nat, v: Option<bool>): seq<UnknownField> {
    if v.Some? then [Varint(number, if v.value then 1 else 0)] else []
  }

  function TextField(number: nat, v: Option<bytes>): seq<UnknownField> {
    if v.Some? then [LengthDelimited(number, v.value)] else []
  }

  /** The fields that are set, as generic fields. */
  function KnownFields(m: EditValue): seq<UnknownField> {
    Int32Field(1, m.kind) + TextField(2, m.text) + Int32Field(3, m.location)
    + BoolField(4, m.isUndo) + BoolField(5, m.isRedo)
  }

  /** A field that an Edit keeps as it is. */
  predicate Foreign(f: UnknownField) {
    Interpret(NO_EDIT, f) == Keep(NO_EDIT, f)
  }

  predicate AllForeign(fs: seq<UnknownField>) {
    fs == [] || (Foreign(fs[0]) && AllForeign(fs[1..]))
  }

  /** What a parse can produce. */
  predicate Sane(m: EditValue, budget: nat) {
    && (m.kind.Some? ==> IsChangeType(m.kind.value))
    && (m.text.Some? ==> |m.text.value| < INT_LIMIT)
    && AllForeign(m.unknown) && AllWritable(m.unknown, budget)
  }

  lemma WriteFieldsAppend(fs: seq<UnknownField>, gs: seq<UnknownField>)
    ensures WriteFields(fs + gs) == WriteFields(fs) + WriteFields(gs)
    decreases fs
  {
    if fs == [] { assert fs + gs == gs; }
    else { assert (fs + gs)[1..] == fs[1..] + gs; WriteFieldsAppend(fs[1..], gs); }
  }

  lemma WriteOne(f: UnknownField)
    ensures WriteFields([f]) == WriteField(f)
  {
    assert [f][1..] == [];
  }

  lemma SmallVarint(v: nat)
    requires v < 0x80
    ensures WriteVarint(v) == [v]
  {
  }

  lemma FieldsWritten(number: nat, i: Option<int32>, t: Option<bool>, s: Option<bytes>)
    requires number < 16
    ensures WriteFields(Int32Field(number, i)) == WriteInt32(8 * number, i)
    ensures WriteFields(BoolField(number, t)) == WriteBool(8 * number, t)
    ensures number < 15 ==> WriteFields(TextField(number, s)) == WriteText(8 * number + 2, s)
  {
    WriteNone();
    hide WriteFields;
    if i.Some? { WriteOne(Int32Field(number, i)[0]); SmallVarint(8 * number); }
    if t.Some? { WriteOne(BoolField(number, t)[0]); SmallVarint(8 * number); SmallVarint(if t.value then 1 else 0); }
    if s.Some? && number < 15 { WriteOne(TextField(number, s)[0]); SmallVarint(8 * number + 2); }
  }

  lemma WritePartsAppend(a: seq<UnknownField>, b: seq<UnknownField>, c: seq<UnknownField>,
                         d: seq<UnknownField>, e: seq<UnknownField>, f: seq<UnknownField>)
    ensures WriteFields(a + b + c + d + e + f)
         == WriteFields(a) + WriteFields(b) + WriteFields(c) + WriteFields(d) + WriteFields(e) + WriteFields(f)
  {
    WriteFieldsAppend(a + b + c + d + e, f);
    WriteFieldsAppend(a + b + c + d, e);
    WriteFieldsAppend(a + b + c, d);
    WriteFieldsAppend(a + b, c);
    WriteFieldsAppend(a, b);
  }

  /** The generated writer writes the generic fields. */
  lemma EncodeIsGeneric(m: EditValue)
    ensures Encode(m) == WriteFields(KnownFields(m) + m.unknown)
  {
    hide WriteFields, WriteInt32, WriteBool, WriteText, Int32Field, BoolField, TextField;
    WritePartsAppend(Int32Field(1, m.kind), TextField(2, m.text), Int32Field(3, m.location),
                     BoolField(4, m.isUndo), BoolField(5, m.isRedo), m.unknown);
    FieldsWritten(1, m.kind, None, None);
    FieldsWritten(2, None, None, m.text);
    FieldsWritten(3, m.location, None, None);
    FieldsWritten(4, None, m.isUndo, None);
    FieldsWritten(5, None, m.isRedo, None);
  }

  lemma WriteNone()
    ensures WriteFields([]) == []
  {
  }

  // ------------------------------------------------------------------
  // Round trip

  lemma KeepAll(m: EditValue, fs: seq<UnknownField>)
    requires AllForeign(fs)
    ensures InterpretAll(m, fs) == m.(unknown := m.unknown + fs)
    decreases fs
  {
    if fs == [] { assert m.unknown + fs == m.unknown; }
    else {
      ForeignKept(m, fs[0]);
      KeepAll(Keep(m, fs[0]), fs[1..]);
      assert m.unknown + fs == m.unknown + [fs[0]] + fs[1..];
    }
  }

  lemma ForeignKept(m: EditValue, f: UnknownField)
    requires Foreign(f)
    ensures Interpret(m, f) == Keep(m, f)
  {
    InterpretIsMerge(m, NO_EDIT, f);
    KeepIsMerge(m, NO_EDIT, f);
    MergeNothing(m);
  }

  lemma KnownRoundTrip(m: EditValue)
    requires m.kind.Some? ==> IsChangeType(m.kind.value)
    ensures InterpretAll(NO_EDIT, KnownFields(m)) == m.(unknown := [])
  {
    var a, b, c, d, e := Int32Field(1, m.kind), TextField(2, m.text), Int32Field(3, m.location),
      BoolField(4, m.isUndo), BoolField(5, m.isRedo);
    InterpretAllAppend(NO_EDIT, a + b + c + d, e);
    InterpretAllAppend(NO_EDIT, a + b + c, d);
    InterpretAllAppend(NO_EDIT, a + b, c);
    InterpretAllAppend(NO_EDIT, a, b);
    hide ToInt32, ToUInt64;
    if m.kind.Some? { CastsInvert(0, 0, m.kind.value, 0); InterpretOne(NO_EDIT, a[0]); }
    var m1 := NO_EDIT.(kind := m.kind);
    if m.text.Some? { InterpretOne(m1, b[0]); }
    var m2 := m1.(text := m.text);
    if m.location.Some? { CastsInvert(0, 0, m.location.value, 0); InterpretOne(m2, c[0]); }
    var m3 := m2.(location := m.location);
    if m.isUndo.Some? { InterpretOne(m3, d[0]); }
    var m4 := m3.(isUndo := m.isUndo);
    if m.isRedo.Some? { InterpretOne(m4, e[0]); }
  }

  lemma InterpretOne(m: EditValue, f: UnknownField)
    ensures InterpretAll(m, [f]) == Interpret(m, f)
  {
    assert [f][1..] == [];
  }

  lemma KnownWritable(m: EditValue, budget: nat)
    requires m.text.Some? ==> |m.text.value| < INT_LIMIT
    requires AllWritable(m.unknown, budget)
    ensures AllWritable(KnownFields(m) + m.unknown, budget)
  {
    WritableAppend(KnownFields(m), m.unknown, budget);
    AllWritableAt(KnownFields(m), budget);
  }

  lemma WritableAppend(fs: seq<UnknownField>, gs: seq<UnknownField>, budget: nat)
    ensures AllWritable(fs + gs, budget) <==> AllWritable(fs, budget) && AllWritable(gs, budget)
    decreases fs
  {
    if fs == [] { assert fs + gs == gs; }
    else { assert (fs + gs)[1..] == fs[1..] + gs; WritableAppend(fs[1..], gs, budget); }
  }

  lemma AllWritableAt(fs: seq<UnknownField>, budget: nat)
    requires forall i :: 0 <= i < |fs| ==> Writable(fs[i], budget)
    ensures AllWritable(fs, budget)
    decreases fs
  {
    if fs != [] { AllWritableAt(fs[1..], budget); }
  }

  /** An encoded Edit is parsed back, in place of what is there to start with or, merged
      into a message, over it. */
  lemma EditRoundTrip(m: EditValue, budget: nat)
    requires Sane(m, budget)
    ensures Merge(NO_EDIT, Encode(m), budget) == Finished(m)
  {
    var fs := KnownFields(m) + m.unknown;
    EncodeIsGeneric(m);
    KnownWritable(m, budget);
    FieldsRoundTrip(fs, budget, []);
    assert WriteFields(fs) + [] == WriteFields(fs) && fs + [] == fs;
    MergeIsInterpretation(NO_EDIT, Encode(m), budget);
    InterpretAllAppend(NO_EDIT, KnownFields(m), m.unknown);
    KnownRoundTrip(m);
    KeepAll(m.(unknown := []), m.unknown);
    assert [] + m.unknown == m.unknown;
  }

  // ------------------------------------------------------------------
  // What the bytes of each field do

  const INSERT: int32 := 0
  const REMOVE: int32 := 1
  const CURSOR: int32 := 2

  /** A type is set if it is one of the three, and kept as an unknown field otherwise; of a
      varint the low half counts. */
  lemma KindParsed(m: EditValue, v: uint64, rest: bytes, budget: nat)
    ensures var kind := ToInt32(v % TWO_32);
      Merge(m, [8] + WriteVarint(v) + rest, budget) ==
      Merge(if kind == INSERT || kind == REMOVE || kind == CURSOR then m.(kind := Some(kind))
            else m.(unknown := m.unknown + [Varint(1, ToUInt64(kind))]), rest, budget)
  {
    hide Merge;
    VarintFieldParsed(m, 8, v, rest, budget);
  }

  lemma VarintFieldParsed(m: EditValue, tag: byte, v: uint64, rest: bytes, budget: nat)
    requires tag == 8 || tag == 24 || tag == 32 || tag == 40
    ensures Merge(m, [tag] + WriteVarint(v) + rest, budget) == Merge(Interpret(m, Varint(tag / 8, v)), rest, budget)
  {
    hide ReadTag, ReadVarint64, WriteVarint, Interpret, MergeField;
    SmallVarint(tag);
    assert [tag] + WriteVarint(v) + rest == WriteVarint(tag) + (WriteVarint(v) + rest);
    TagRoundTrip(tag, WriteVarint(v) + rest);
    VarintRoundTrip(v, rest);
    FieldIsInterpreted(m, tag, WriteVarint(v) + rest, budget);
  }

  /** A message of one type field has that type, and nothing else, exactly if it is one of
      the three. */
  lemma KindExactly(v: int32, budget: nat)
    ensures Merge(NO_EDIT, [8] + WriteVarint32SignExtended(v), budget) == Finished(NO_EDIT.(kind := Some(v)))
      <==> v == INSERT || v == REMOVE || v == CURSOR
    ensures var o := Merge(NO_EDIT, [8] + WriteVarint32SignExtended(v), budget);
      o.Finished? && (o.value.kind.None? ==> o.value == NO_EDIT.(unknown := [Varint(1, ToUInt64(v))]))
  {
    KindParsed(NO_EDIT, ToUInt64(v), [], budget);
    CastsInvert(0, 0, v, 0);
    assert [8] + WriteVarint32SignExtended(v) + [] == [8] + WriteVarint32SignExtended(v);
  }

  lemma LocationParsed(m: EditValue, v: uint64, rest: bytes, budget: nat)
    ensures Merge(m, [24] + WriteVarint(v) + rest, budget)
         == Merge(m.(location := Some(ToInt32(v % TWO_32))), rest, budget)
  {
    hide Merge;
    VarintFieldParsed(m, 24, v, rest, budget);
  }

  /** A flag is set by anything but zero in the low half. */
  lemma FlagParsed(m: EditValue, tag: byte, v: uint64, rest: bytes, budget: nat)
    requires tag == 32 || tag == 40
    ensures var flag := Some(v % TWO_32 != 0);
      Merge(m, [tag] + WriteVarint(v) + rest, budget)
      == Merge(if tag == 32 then m.(isUndo := flag) else m.(isRedo := flag), rest, budget)
  {
    hide Merge;
    VarintFieldParsed(m, tag, v, rest, budget);
  }

  lemma TextParsed(m: EditValue, s: bytes, rest: bytes, budget: nat)
    requires |s| < INT_LIMIT
    ensures Merge(m, [18] + WriteString(s) + rest, budget) == Merge(m.(text := Some(s)), rest, budget)
  {
    hide ReadTag, ReadString, WriteString, WriteVarint, MergeField;
    SmallVarint(18);
    assert [18] + WriteString(s) + rest == WriteVarint(18) + (WriteString(s) + rest);
    TagRoundTrip(18, WriteString(s) + rest);
    TextFieldRead(m, s, rest, budget);
  }

  lemma TextFieldRead(m: EditValue, s: bytes, rest: bytes, budget: nat)
    requires |s| < INT_LIMIT
    ensures MergeField(m, 18, WriteString(s) + rest, budget) == Some(Read(m.(text := Some(s)), rest))
  {
    hide ReadString, WriteString;
    StringRoundTrip(s, rest);
  }

  /** Every other field, known number or not, is kept as it is. */
  lemma OthersKept(m: EditValue, f: UnknownField, rest: bytes, budget: nat)
    requires Writable(f, budget)
    requires !(f.Varint? && f.number in {1, 3, 4, 5}) && !(f.LengthDelimited? && f.number == 2)
    ensures Merge(m, WriteField(f) + rest, budget) == Merge(m.(unknown := m.unknown + [f]), rest, budget)
  {
    hide WriteField, Merge, SkipMessage, Writable;
    WriteOne(f);
    assert AllWritable([f], budget);
    FieldsRoundTrip([f], budget, rest);
    assert Prefix([f], SkipMessage(rest, budget)) == Cons(f, SkipMessage(rest, budget));
    MergeIsInterpretation(m, WriteField(f) + rest, budget);
    MergeIsInterpretation(Keep(m, f), rest, budget);
    InterpretCons(m, f, SkipMessage(rest, budget));
  }

  // ------------------------------------------------------------------
  // What a parse produces

  lemma InterpretSane(m: EditValue, f: UnknownField, budget: nat)
    requires Sane(m, budget) && Writable(f, budget)
    ensures Sane(Interpret(m, f), budget)
  {
    var low := if f.Varint? then ToInt32(f.varint % TWO_32) else 0;
    var g := if Interpret(m, f).unknown == m.unknown then f
             else if f.Varint? && f.number == 1 then Varint(1, ToUInt64(low)) else f;
    CastsInvert(0, low, low, 0);
    hide ToInt32, ToUInt64;
    assert [g][1..] == [];
    if Foreign(g) {
      ForeignAppend(m.unknown, [g]);
      WritableAppend(m.unknown, [g], budget);
    }
  }

  lemma ForeignAppend(fs: seq<UnknownField>, gs: seq<UnknownField>)
    ensures AllForeign(fs + gs) <==> AllForeign(fs) && AllForeign(gs)
    decreases fs
  {
    if fs == [] { assert fs + gs == gs; }
    else { assert (fs + gs)[1..] == fs[1..] + gs; ForeignAppend(fs[1..], gs); }
  }

  lemma {:induction false} InterpretAllSane(m: EditValue, fs: seq<UnknownField>, budget: nat)
    requires Sane(m, budget) && AllWritable(fs, budget)
    ensures Sane(InterpretAll(m, fs), budget)
    decreases fs
  {
    if fs != [] {
      InterpretSane(m, fs[0], budget);
      InterpretAllSane(Interpret(m, fs[0]), fs[1..], budget);
    }
  }

  /** A successful parse gives a message that can be encoded. */
  lemma ParsedSane(m: EditValue, b: bytes, budget: nat)
    requires Sane(m, budget) && !Merge(m, b, budget).Failed?
    ensures Sane(Merge(m, b, budget).value, budget)
  {
    MergeIsInterpretation(m, b, budget);
    MessageWritable(b, budget);
    InterpretAllSane(m, SkipMessage(b, budget).value, budget);
  }

  /** Parsing what was encoded from a parsed message gives the message again, with its
      unknown fields and its invalid change types. */
  lemma ParseEncodeParse(b: bytes, budget: nat)
    requires Merge(NO_EDIT, b, budget).Finished?
    ensures Merge(NO_EDIT, Encode(Merge(NO_EDIT, b, budget).value), budget) == Merge(NO_EDIT, b, budget)
  {
    ParsedSane(NO_EDIT, b, budget);
    EditRoundTrip(Merge(NO_EDIT, b, budget).value, budget);
  }

  // ------------------------------------------------------------------
  // How much longer it gets

  lemma KeepLonger(m: EditValue, f: UnknownField)
    ensures |Encode(Keep(m, f))| == |Encode(m)| + |WriteField(f)|
  {
    hide WriteFields, WriteField, WriteInt32, WriteText, WriteBool;
    WriteFieldsAppend(m.unknown, [f]);
    WriteOne(f);
  }

  lemma EncodeLength(m: EditValue)
    ensures |Encode(m)| == |WriteInt32(8, m.kind)| + |WriteText(18, m.text)| + |WriteInt32(24, m.location)|
                         + |WriteBool(32, m.isUndo)| + |WriteBool(40, m.isRedo)| + |WriteFields(m.unknown)|
  {
    hide WriteFields, WriteInt32, WriteText, WriteBool;
  }

  lemma NumberLonger(number: nat, v: uint64)
    ensures 1 + |WriteVarint32SignExtended(ToInt32(v % TWO_32))| <= 2 * |WriteField(Varint(number, v))|
    ensures 2 <= |WriteField(Varint(number, v))|
    ensures |WriteField(Varint(1, ToUInt64(ToInt32(v % TWO_32))))| <= 2 * |WriteField(Varint(1, v))|
  {
    hide WriteVarint, ToInt32, ToUInt64;
    SignExtendedDoubles(v);
    SmallVarint(8);
  }

  /** A field adds at most twice its own bytes: a negative number takes ten bytes, and
      five are the fewest that it was read from. */
  lemma InterpretLonger(m: EditValue, f: UnknownField)
    ensures |Encode(Interpret(m, f))| <= |Encode(m)| + 2 * |WriteField(f)|
  {
    hide Encode, WriteFields, WriteField, WriteVarint32SignExtended, ToInt32, ToUInt64, Keep;
    KeepLonger(m, f);
    EncodeLength(m);
    if f.Varint? { VarintLonger(m, f); }
    if f.LengthDelimited? && f.number == 2 {
      TextLonger(f.data);
      EncodeLength(Interpret(m, f));
    }
  }

  lemma VarintLonger(m: EditValue, f: UnknownField)
    requires f.Varint?
    ensures |Encode(Interpret(m, f))| <= |Encode(m)| + 2 * |WriteField(f)|
  {
    hide Encode, WriteFields, WriteField, WriteVarint32SignExtended, ToInt32, ToUInt64, Keep;
    KeepLonger(m, f);
    EncodeLength(m);
    NumberLonger(f.number, f.varint);
    KeepLonger(m, Varint(1, ToUInt64(ToInt32(f.varint % TWO_32))));
    EncodeLength(Interpret(m, f));
  }

  lemma TextLonger(s: bytes)
    ensures |WriteText(18, Some(s))| == |WriteField(LengthDelimited(2, s))|
  {
    hide WriteVarint;
    SmallVarint(18);
  }

  lemma {:induction false} InterpretAllLonger(m: EditValue, fs: seq<UnknownField>)
    ensures |Encode(InterpretAll(m, fs))| <= |Encode(m)| + 2 * |WriteFields(fs)|
    decreases fs
  {
    hide Encode, WriteField, Interpret;
    if fs != [] {
      InterpretLonger(m, fs[0]);
      InterpretAllLonger(Interpret(m, fs[0]), fs[1..]);
    }
  }

  /** Encoding what was parsed takes at most twice as many bytes. */
  lemma ReencodedSize(b: bytes, budget: nat)
    requires Merge(NO_EDIT, b, budget).Finished?
    ensures |Encode(Merge(NO_EDIT, b, budget).value)| <= 2 * |b|
  {
    MergeIsInterpretation(NO_EDIT, b, budget);
    MessageNotLonger(b, budget);
    InterpretAllLonger(NO_EDIT, SkipMessage(b, budget).value);
  }
}
