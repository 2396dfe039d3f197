/** What an extension set holds, without the bookkeeping of the object: reading it from
    bytes, writing it, and merging.  A nested message is one that has extensions only. */
module ExtensionValues {
  import opened Options
  import opened Wire
  import opened UnknownFields
  import opened Primitives

  datatype Value = Number(n: int) | Text(s: bytes) | Message(fields: seq<Field>)

  datatype Content = One(value: Value) | Many(values: seq<Value>)

  datatype Field = Field(number: nat, content: Content)

  /** What is registered for a field number of a message type: the field type, the type
      of a nested message, and which values an enum has. */
  datatype Info = Info(fieldType: FieldType, isRepeated: bool, isPacked: bool,
                       messageType: nat, isValid: int -> bool)

  type Registry = (nat, nat) -> Option<Info>

  /** Only repeated primitive fields are packed. */
  ghost predicate RegistrySound(reg: Registry) {
    forall t, n :: reg(t, n).Some? && reg(t, n).value.isPacked ==>
      reg(t, n).value.isRepeated && IsPrimitive(reg(t, n).value.fieldType)
  }

  // ------------------------------------------------------------------
  // The ordered map

  predicate Sorted(fs: seq<Field>) {
    forall i, j :: 0 <= i < j < |fs| ==> fs[i].number < fs[j].number
  }

  function Get(fs: seq<Field>, n: nat): Option<Content> {
    if fs == [] then None
    else if fs[0].number == n then Some(fs[0].content)
    else Get(fs[1..], n)
  }

  function Put(fs: seq<Field>, n: nat, c: Content): seq<Field> {
    if fs == [] || n < fs[0].number then [Field(n, c)] + fs
    else if fs[0].number == n then [Field(n, c)] + fs[1..]
    else [fs[0]] + Put(fs[1..], n, c)
  }

  lemma {:induction false} PutSorted(fs: seq<Field>, n: nat, c: Content)
    requires Sorted(fs)
    ensures Sorted(Put(fs, n, c))
    ensures forall i :: 0 <= i < |Put(fs, n, c)| ==>
              Put(fs, n, c)[i].number == n || exists j :: 0 <= j < |fs| && fs[j].number == Put(fs, n, c)[i].number
  {
    if fs != [] && fs[0].number < n {
      var t := Put(fs[1..], n, c);
      PutSorted(fs[1..], n, c);
      forall i | 0 <= i < |t|
        ensures fs[0].number < t[i].number
        ensures t[i].number == n || exists j :: 0 <= j < |fs| && fs[j].number == t[i].number
      {
        if t[i].number != n {
          var j :| 0 <= j < |fs[1..]| && fs[1..][j].number == t[i].number;
          assert fs[j + 1].number == t[i].number;
        }
      }
    }
  }

  /** A map from numbers to contents: reading after writing. */
  lemma {:induction false} GetPut(fs: seq<Field>, n: nat, c: Content, m: nat)
    requires Sorted(fs)
    ensures Get(Put(fs, n, c), m) == if m == n then Some(c) else Get(fs, m)
  {
    if fs != [] && !(n < fs[0].number) && fs[0].number != n {
      GetPut(fs[1..], n, c, m);
    } else if fs != [] && n < fs[0].number {
      if m == n { assert Put(fs, n, c)[0].number == n; }
      else { assert Put(fs, n, c)[1..] == fs; }
    }
  }

  // ------------------------------------------------------------------
  // The setters

  /** The value of a singular field is replaced; a value is added to a repeated one. */
  function Store(fs: seq<Field>, info: Info, n: nat, v: Value): seq<Field> {
    Put(fs, n, if info.isRepeated then Many(ValuesOf(fs, n) + [v]) else One(v))
  }

  function ValuesOf(fs: seq<Field>, n: nat): seq<Value> {
    match Get(fs, n)
    case Some(Many(vs)) => vs
    case _ => []
  }

  /** The fields of the message that a nested one is read into: for a repeated field a
      new one. */
  function Target(fs: seq<Field>, info: Info, n: nat): seq<Field> {
    if info.isRepeated then []
    else match Get(fs, n)
      case Some(One(Message(inner))) => inner
      case _ => []
  }

  // ------------------------------------------------------------------
  // Reading

  /** FindExtensionInfoFromTag: the registered field, when its wire type is the one
      expected of it. */
  function InfoFor(reg: Registry, t: nat, tag: uint32): Option<Info> {
    match reg(t, tag / 8)
    case Some(info) =>
      if tag % 8 == (if info.isPacked then WIRETYPE_LENGTH_DELIMITED else WireTypeFor(info.fieldType))
      then Some(info) else None
    case None => None
  }

  /** The values of a packed field, up to the end of its bytes; values that an enum does
      not have are dropped. */
  function ReadPacked(info: Info, b: bytes): Option<seq<int>>
    decreases |b|
  {
    if b == [] then Some([])
    else match ReadPrimitive(info.fieldType, b)
      case Some(r) =>
        PrimitiveExtends(info.fieldType, b, []);
        (match ReadPacked(info, r.rest)
         case Some(ns) => Some((if Valid(info, r.value) then [r.value] else []) + ns)
         case None => None)
      case None => None
  }

  predicate Valid(info: Info, n: int) {
    info.fieldType == ENUM ==> info.isValid(n)
  }

  function Numbers(ns: seq<int>): (vs: seq<Value>)
    ensures |vs| == |ns|
  {
    if ns == [] then [] else [Number(ns[0])] + Numbers(ns[1..])
  }

  /** Values added to a repeated field one by one; adding none leaves no trace. */
  function AddAll(fs: seq<Field>, n: nat, vs: seq<Value>): seq<Field> {
    if vs == [] then fs else Put(fs, n, Many(ValuesOf(fs, n) + vs))
  }

  /** One field, from the bytes after its tag. */
  function ReadField(reg: Registry, t: nat, fs: seq<Field>, tag: uint32, b: bytes,
                     budget: nat): (r: Option<Read<seq<Field>>>)
    ensures r.Some? ==> |r.value.rest| <= |b|
    decreases |b|, 1
  {
    var n := tag / 8;
    match InfoFor(reg, t, tag)
    case None =>
      (match SkipField(b, tag, budget)
       case Some(r) => Some(Read(fs, r.rest))
       case None => None)
    case Some(info) =>
      if info.isPacked then
        match ReadVarint32(b)
        case Some(r) =>
          VarintExtends(b, []);
          var data := Clip(r.rest, r.value);
          (match ReadPacked(info, data)
           case Some(ns) => Some(Read(AddAll(fs, n, Numbers(ns)), r.rest[|data|..]))
           case None => None)
        case None => None
      else if IsPrimitive(info.fieldType) then
        match ReadPrimitive(info.fieldType, b)
        case Some(r) =>
          PrimitiveExtends(info.fieldType, b, []);
          Some(Read(if Valid(info, r.value) then Store(fs, info, n, Number(r.value)) else fs, r.rest))
        case None => None
      else if info.fieldType == STRING || info.fieldType == BYTES then
        match ReadString(b)
        case Some(r) => StringExtends(b, []); Some(Read(Store(fs, info, n, Text(r.value)), r.rest))
        case None => None
      else if budget == 0 then None
      else if info.fieldType == GROUP then
        match ReadFields(reg, info.messageType, Target(fs, info, n), b, budget - 1)
        case AtEndGroup(inner, end, rest) =>
          if end == n * 8 + WIRETYPE_END_GROUP then Some(Read(Store(fs, info, n, Message(inner)), rest)) else None
        case _ => None
      else
        match ReadVarint32(b)
        case Some(r) =>
          VarintExtends(b, []);
          var data := Clip(r.rest, r.value);
          (match ReadFields(reg, info.messageType, Target(fs, info, n), data, budget - 1)
           case Finished(inner) => Some(Read(Store(fs, info, n, Message(inner)), r.rest[|data|..]))
           case _ => None)
        case None => None
  }

  /** The message loop: fields up to the end of the bytes or an end-group tag. */
  function ReadFields(reg: Registry, t: nat, fs: seq<Field>, b: bytes, budget: nat): (o: Outcome<seq<Field>>)
    ensures o.AtEndGroup? ==> |o.rest| < |b|
    decreases |b|, 0
  {
    match ReadTag(b)
    case AtEnd => Finished(fs)
    case BadTag => Stopped(fs)
    case Tag(tag, rest) =>
      TagExtends(b, []);
      if tag % 8 == WIRETYPE_END_GROUP then AtEndGroup(fs, tag, rest)
      else match ReadField(reg, t, fs, tag, rest, budget)
        case Some(r) => ReadFields(reg, t, r.value, r.rest, budget)
        case None => Failed
  }

  // ------------------------------------------------------------------
  // Merging

  /** The fields of `b` one by one into `a`: nested singular messages are merged, other
      singular values replaced, repeated values appended. */
  function MergeFields(a: seq<Field>, b: seq<Field>): seq<Field>
    decreases b
  {
    if b == [] then a else MergeFields(MergeField(a, b[0]), b[1..])
  }

  function MergeField(a: seq<Field>, f: Field): seq<Field>
    decreases f
  {
    match f.content
    case Many(vs) => AddAll(a, f.number, vs)
    case One(Message(inner)) => Put(a, f.number, One(Message(MergeFields(InnerOf(a, f.number), inner))))
    case One(v) => Put(a, f.number, One(v))
  }

  function InnerOf(fs: seq<Field>, n: nat): seq<Field> {
    match Get(fs, n)
    case Some(One(Message(inner))) => inner
    case _ => []
  }

  // ------------------------------------------------------------------
  // Well-typed contents

  /** The value is one of the field's type, with `budget` levels of nesting to go. */
  predicate TypedValue(reg: Registry, info: Info, v: Value, budget: nat)
    decreases v
  {
    match v
    case Number(n) => IsPrimitive(info.fieldType) && InRange(info.fieldType, n) && Valid(info, n)
    case Text(s) => (info.fieldType == STRING || info.fieldType == BYTES) && |s| < INT_LIMIT
    case Message(inner) =>
      && (info.fieldType == MESSAGE || info.fieldType == GROUP)
      && budget > 0 && Typed(reg, info.messageType, inner, budget - 1)
  }

  predicate TypedValues(reg: Registry, info: Info, vs: seq<Value>, budget: nat)
    decreases vs
  {
    vs == [] || (TypedValue(reg, info, vs[0], budget) && TypedValues(reg, info, vs[1..], budget))
  }

  predicate TypedField(reg: Registry, t: nat, f: Field, budget: nat)
    decreases f
  {
    && 0 < f.number < FIELD_LIMIT && reg(t, f.number).Some?
    && var info := reg(t, f.number).value;
       match f.content
       case One(v) => !info.isRepeated && !info.isPacked && TypedValue(reg, info, v, budget)
       case Many(vs) =>
         info.isRepeated && vs != [] && TypedValues(reg, info, vs, budget)
         && (info.isPacked ==> IsPrimitive(info.fieldType))
  }

  predicate Typed(reg: Registry, t: nat, fs: seq<Field>, budget: nat)
    decreases fs
  {
    && Sorted(fs)
    && forall i :: 0 <= i < |fs| ==> TypedField(reg, t, fs[i], budget)
  }

  // ------------------------------------------------------------------
  // Writing

  function WriteValue(reg: Registry, info: Info, n: nat, v: Value, budget: nat): bytes
    requires TypedValue(reg, info, v, budget)
    decreases v
  {
    match v
    case Number(k) => WriteTag(n, WireTypeFor(info.fieldType)) + WritePrimitive(info.fieldType, k)
    case Text(s) => WriteTag(n, WIRETYPE_LENGTH_DELIMITED) + WriteString(s)
    case Message(inner) =>
      var data := WriteFieldsOf(reg, info.messageType, inner, budget - 1);
      if info.fieldType == GROUP then
        WriteTag(n, WIRETYPE_START_GROUP) + data + WriteTag(n, WIRETYPE_END_GROUP)
      else
        WriteTag(n, WIRETYPE_LENGTH_DELIMITED) + WriteString(data)
  }

  function WriteValues(reg: Registry, info: Info, n: nat, vs: seq<Value>, budget: nat): bytes
    requires TypedValues(reg, info, vs, budget)
    decreases vs
  {
    if vs == [] then []
    else WriteValue(reg, info, n, vs[0], budget) + WriteValues(reg, info, n, vs[1..], budget)
  }

  function WritePacked(reg: Registry, info: Info, vs: seq<Value>, budget: nat): bytes
    requires IsPrimitive(info.fieldType) && TypedValues(reg, info, vs, budget)
  {
    if vs == [] then []
    else
      assert TypedValue(reg, info, vs[0], budget);
      WritePrimitive(info.fieldType, vs[0].n) + WritePacked(reg, info, vs[1..], budget)
  }

  function WriteFieldOf(reg: Registry, t: nat, f: Field, budget: nat): bytes
    requires TypedField(reg, t, f, budget)
    decreases f
  {
    var info := reg(t, f.number).value;
    match f.content
    case One(v) => WriteValue(reg, info, f.number, v, budget)
    case Many(vs) =>
      if info.isPacked then
        WriteTag(f.number, WIRETYPE_LENGTH_DELIMITED) + WriteString(WritePacked(reg, info, vs, budget))
      else WriteValues(reg, info, f.number, vs, budget)
  }

  function WriteFieldsOf(reg: Registry, t: nat, fs: seq<Field>, budget: nat): bytes
    requires Typed(reg, t, fs, budget)
    decreases fs
  {
    if fs == [] then []
    else WriteFieldOf(reg, t, fs[0], budget) + WriteFieldsOf(reg, t, fs[1..], budget)
  }

  /** Every length that is written fits an int. */
  predicate FitsValue(reg: Registry, info: Info, v: Value, budget: nat)
    requires TypedValue(reg, info, v, budget)
    decreases v
  {
    v.Message? ==>
      && Fits(reg, info.messageType, v.fields, budget - 1)
      && (info.fieldType == MESSAGE ==> |WriteFieldsOf(reg, info.messageType, v.fields, budget - 1)| < INT_LIMIT)
  }

  predicate FitsValues(reg: Registry, info: Info, vs: seq<Value>, budget: nat)
    requires TypedValues(reg, info, vs, budget)
    decreases vs
  {
    vs == [] || (FitsValue(reg, info, vs[0], budget) && FitsValues(reg, info, vs[1..], budget))
  }

  predicate FitsField(reg: Registry, t: nat, f: Field, budget: nat)
    requires TypedField(reg, t, f, budget)
    decreases f
  {
    var info := reg(t, f.number).value;
    match f.content
    case One(v) => FitsValue(reg, info, v, budget)
    case Many(vs) =>
      if info.isPacked then |WritePacked(reg, info, vs, budget)| < INT_LIMIT
      else FitsValues(reg, info, vs, budget)
  }

  predicate Fits(reg: Registry, t: nat, fs: seq<Field>, budget: nat)
    requires Typed(reg, t, fs, budget)
    decreases fs
  {
    fs == [] || (FitsField(reg, t, fs[0], budget) && Fits(reg, t, fs[1..], budget))
  }

  // ------------------------------------------------------------------
  // Reading one written value

  /** A written tag leads to the reading of its field. */
  lemma TaggedField(reg: Registry, t: nat, fs: seq<Field>, n: nat, wireType: nat, b: bytes, budget: nat)
    requires 0 < n < FIELD_LIMIT && wireType < 8 && wireType != WIRETYPE_END_GROUP
    ensures ReadFields(reg, t, fs, WriteTag(n, wireType) + b, budget) ==
            match ReadField(reg, t, fs, MakeTag(n, wireType), b, budget)
            case Some(r) => ReadFields(reg, t, r.value, r.rest, budget)
            case None => Failed
  {
    hide WriteVarint, ReadTag, ReadField;
    TagRoundTrip(MakeTag(n, wireType), b);
  }

  lemma NumberRead(reg: Registry, t: nat, fs: seq<Field>, info: Info, n: nat, k: int, rest: bytes, budget: nat)
    requires 0 < n < FIELD_LIMIT && reg(t, n) == Some(info) && !info.isPacked
    requires IsPrimitive(info.fieldType) && InRange(info.fieldType, k) && Valid(info, k)
    ensures ReadField(reg, t, fs, MakeTag(n, WireTypeFor(info.fieldType)), WritePrimitive(info.fieldType, k) + rest,
                      budget)
         == Some(Read(Store(fs, info, n, Number(k)), rest))
  {
    hide ReadPrimitive, WritePrimitive, Store, InRange;
    PrimitiveRoundTrip(info.fieldType, k, rest);
  }

  lemma TextRead(reg: Registry, t: nat, fs: seq<Field>, info: Info, n: nat, s: bytes, rest: bytes, budget: nat)
    requires 0 < n < FIELD_LIMIT && reg(t, n) == Some(info) && !info.isPacked && |s| < INT_LIMIT
    requires info.fieldType == STRING || info.fieldType == BYTES
    ensures ReadField(reg, t, fs, MakeTag(n, WIRETYPE_LENGTH_DELIMITED), WriteString(s) + rest, budget)
         == Some(Read(Store(fs, info, n, Text(s)), rest))
  {
    hide ReadString, WriteString, Store;
    StringRoundTrip(s, rest);
  }

  lemma MessageRead(reg: Registry, t: nat, fs: seq<Field>, info: Info, n: nat, data: bytes, inner: seq<Field>,
                    rest: bytes, budget: nat)
    requires 0 < n < FIELD_LIMIT && reg(t, n) == Some(info) && !info.isPacked && info.fieldType == MESSAGE
    requires |data| < INT_LIMIT && budget > 0
    requires ReadFields(reg, info.messageType, Target(fs, info, n), data, budget - 1) == Finished(inner)
    ensures ReadField(reg, t, fs, MakeTag(n, WIRETYPE_LENGTH_DELIMITED), WriteString(data) + rest, budget)
         == Some(Read(Store(fs, info, n, Message(inner)), rest))
  {
    hide ReadVarint32, WriteString, Store, ReadFields, Clip;
    LengthRead(data, rest);
  }

  lemma GroupRead(reg: Registry, t: nat, fs: seq<Field>, info: Info, n: nat, b: bytes, inner: seq<Field>,
                  rest: bytes, budget: nat)
    requires 0 < n < FIELD_LIMIT && reg(t, n) == Some(info) && !info.isPacked && info.fieldType == GROUP && budget > 0
    requires ReadFields(reg, info.messageType, Target(fs, info, n), b, budget - 1)
          == AtEndGroup(inner, MakeTag(n, WIRETYPE_END_GROUP), rest)
    ensures ReadField(reg, t, fs, MakeTag(n, WIRETYPE_START_GROUP), b, budget)
         == Some(Read(Store(fs, info, n, Message(inner)), rest))
  {
    hide Store, ReadFields;
  }

  lemma PackedRead(reg: Registry, t: nat, fs: seq<Field>, info: Info, n: nat, data: bytes, ns: seq<int>,
                   rest: bytes, budget: nat)
    requires 0 < n < FIELD_LIMIT && reg(t, n) == Some(info) && info.isPacked
    requires |data| < INT_LIMIT && ReadPacked(info, data) == Some(ns)
    ensures ReadField(reg, t, fs, MakeTag(n, WIRETYPE_LENGTH_DELIMITED), WriteString(data) + rest, budget)
         == Some(Read(AddAll(fs, n, Numbers(ns)), rest))
  {
    hide ReadVarint32, WriteString, AddAll, ReadPacked, Clip;
    LengthRead(data, rest);
  }

  lemma {:induction false} PackedRoundTrip(reg: Registry, info: Info, vs: seq<Value>, budget: nat)
    requires IsPrimitive(info.fieldType) && TypedValues(reg, info, vs, budget)
    ensures ReadPacked(info, WritePacked(reg, info, vs, budget)).Some?
    ensures Numbers(ReadPacked(info, WritePacked(reg, info, vs, budget)).value) == vs
    decreases vs
  {
    hide ReadPrimitive, WritePrimitive;
    if vs != [] {
      assert TypedValue(reg, info, vs[0], budget);
      PrimitiveRoundTrip(info.fieldType, vs[0].n, WritePacked(reg, info, vs[1..], budget));
      PackedRoundTrip(reg, info, vs[1..], budget);
      var ns := ReadPacked(info, WritePacked(reg, info, vs[1..], budget)).value;
      assert ([vs[0].n] + ns)[1..] == ns;
      assert vs == [vs[0]] + vs[1..];
    }
  }

  lemma EndOfGroup(reg: Registry, t: nat, fs: seq<Field>, n: nat, rest: bytes, budget: nat)
    requires 0 < n < FIELD_LIMIT
    ensures ReadFields(reg, t, fs, WriteTag(n, WIRETYPE_END_GROUP) + rest, budget)
         == AtEndGroup(fs, MakeTag(n, WIRETYPE_END_GROUP), rest)
  {
    hide WriteVarint, ReadTag, ReadField;
    TagRoundTrip(MakeTag(n, WIRETYPE_END_GROUP), rest);
  }

  // ------------------------------------------------------------------
  // Values that an enum does not have

  /** Such a value is passed over, and reading goes on behind it. */
  lemma InvalidDropped(reg: Registry, t: nat, fs: seq<Field>, info: Info, n: nat, v: int32, rest: bytes, budget: nat)
    requires 0 < n < FIELD_LIMIT && reg(t, n) == Some(info) && info.fieldType == ENUM && !info.isPacked
    requires !info.isValid(v)
    ensures ReadFields(reg, t, fs, WriteTag(n, WIRETYPE_VARINT) + WriteVarint(ToUInt64(v)) + rest, budget)
         == ReadFields(reg, t, fs, rest, budget)
  {
    hide ReadFields, WriteVarint;
    var b := WriteVarint(ToUInt64(v)) + rest;
    InvalidSkipped(reg, t, fs, info, n, v, rest, budget);
    assert WriteTag(n, WIRETYPE_VARINT) + WriteVarint(ToUInt64(v)) + rest == WriteTag(n, WIRETYPE_VARINT) + b;
    TaggedField(reg, t, fs, n, WIRETYPE_VARINT, b, budget);
  }

  lemma InvalidSkipped(reg: Registry, t: nat, fs: seq<Field>, info: Info, n: nat, v: int32, rest: bytes, budget: nat)
    requires 0 < n < FIELD_LIMIT && reg(t, n) == Some(info) && info.fieldType == ENUM && !info.isPacked
    requires !info.isValid(v)
    ensures ReadField(reg, t, fs, MakeTag(n, WIRETYPE_VARINT), WriteVarint(ToUInt64(v)) + rest, budget)
         == Some(Read(fs, rest))
  {
    hide ReadPrimitive, WriteVarint, Store;
    PrimitiveRoundTrip(ENUM, v, rest);
    assert WritePrimitive(ENUM, v) == WriteVarint(ToUInt64(v));
  }

  /** The varints of a packed enum, one after the other. */
  function PackedVarints(vs: seq<int32>): bytes {
    if vs == [] then [] else WriteVarint(ToUInt64(vs[0])) + PackedVarints(vs[1..])
  }

  function OnlyValid(isValid: int -> bool, vs: seq<int32>): seq<int> {
    if vs == [] then [] else (if isValid(vs[0]) then [vs[0]] else []) + OnlyValid(isValid, vs[1..])
  }

  lemma {:induction false} NoneValid(isValid: int -> bool, vs: seq<int32>)
    requires forall i :: 0 <= i < |vs| ==> !isValid(vs[i])
    ensures OnlyValid(isValid, vs) == []
    decreases vs
  {
    if vs != [] { NoneValid(isValid, vs[1..]); }
  }

  lemma NothingAdded(fs: seq<Field>, n: nat)
    ensures AddAll(fs, n, Numbers([])) == fs
  {
  }

  lemma {:induction false} PackedRead32(info: Info, vs: seq<int32>)
    requires info.fieldType == ENUM
    ensures ReadPacked(info, PackedVarints(vs)) == Some(OnlyValid(info.isValid, vs))
    decreases vs
  {
    hide ReadPrimitive, WriteVarint;
    if vs != [] {
      PrimitiveRoundTrip(ENUM, vs[0], PackedVarints(vs[1..]));
      assert WritePrimitive(ENUM, vs[0]) == WriteVarint(ToUInt64(vs[0]));
      PackedRead32(info, vs[1..]);
    }
  }

  /** Of a packed enum the values that it has are added, and the others leave no trace. */
  lemma InvalidDroppedFromPacked(reg: Registry, t: nat, fs: seq<Field>, info: Info, n: nat, vs: seq<int32>, rest: bytes,
                                 budget: nat)
    requires 0 < n < FIELD_LIMIT && reg(t, n) == Some(info) && info.fieldType == ENUM && info.isPacked
    requires |PackedVarints(vs)| < INT_LIMIT
    ensures ReadFields(reg, t, fs, WriteTag(n, WIRETYPE_LENGTH_DELIMITED) + WriteString(PackedVarints(vs)) + rest,
                       budget)
         == ReadFields(reg, t, AddAll(fs, n, Numbers(OnlyValid(info.isValid, vs))), rest, budget)
    ensures (forall i :: 0 <= i < |vs| ==> !info.isValid(vs[i])) ==>
      AddAll(fs, n, Numbers(OnlyValid(info.isValid, vs))) == fs
  {
    if forall i :: 0 <= i < |vs| ==> !info.isValid(vs[i]) { NoneValid(info.isValid, vs); NothingAdded(fs, n); }
    hide ReadFields, ReadPacked, PackedVarints, WriteVarint, WriteString, AddAll, Numbers, OnlyValid;
    var data := PackedVarints(vs);
    PackedRead32(info, vs);
    PackedRead(reg, t, fs, info, n, data, OnlyValid(info.isValid, vs), rest, budget);
    assert WriteTag(n, WIRETYPE_LENGTH_DELIMITED) + WriteString(data) + rest
        == WriteTag(n, WIRETYPE_LENGTH_DELIMITED) + (WriteString(data) + rest);
    TaggedField(reg, t, fs, n, WIRETYPE_LENGTH_DELIMITED, WriteString(data) + rest, budget);
  }

  // ------------------------------------------------------------------
  // Laws of the ordered map

  /** In order, without empty repeated fields, and so are nested singular messages. */
  predicate Ordered(fs: seq<Field>)
    decreases fs
  {
    Sorted(fs) && forall i :: 0 <= i < |fs| ==> OrderedField(fs[i])
  }

  predicate OrderedField(f: Field)
    decreases f
  {
    if f.content.One? then OrderedValue(f.content.value) else f.content.values != []
  }

  predicate OrderedValue(v: Value)
    decreases v
  {
    v.Message? ==> Ordered(v.fields)
  }

  predicate OrderedContent(c: Content) {
    if c.One? then OrderedValue(c.value) else c.values != []
  }

  lemma {:induction false} PutOrdered(fs: seq<Field>, n: nat, c: Content)
    requires Ordered(fs) && OrderedContent(c)
    ensures Ordered(Put(fs, n, c))
  {
    PutSorted(fs, n, c);
    PutContents(fs, n, c);
  }

  lemma {:induction false} PutContents(fs: seq<Field>, n: nat, c: Content)
    requires (forall i :: 0 <= i < |fs| ==> OrderedField(fs[i])) && OrderedContent(c)
    ensures forall i :: 0 <= i < |Put(fs, n, c)| ==> OrderedField(Put(fs, n, c)[i])
  {
    hide OrderedValue;
    if fs != [] && fs[0].number < n { PutContents(fs[1..], n, c); }
  }

  lemma {:induction false} GetOrdered(fs: seq<Field>, n: nat)
    requires Ordered(fs)
    ensures Get(fs, n).Some? ==> OrderedContent(Get(fs, n).value)
    ensures Ordered(InnerOf(fs, n))
  {
    hide OrderedValue;
    if fs != [] && fs[0].number != n { GetOrdered(fs[1..], n); }
    InnerOrdered(fs, n);
  }

  lemma InnerOrdered(fs: seq<Field>, n: nat)
    requires Get(fs, n).Some? ==> OrderedContent(Get(fs, n).value)
    ensures Ordered(InnerOf(fs, n))
  {
  }

  lemma {:induction false} PutPut(fs: seq<Field>, n: nat, c: Content, d: Content)
    ensures Put(Put(fs, n, c), n, d) == Put(fs, n, d)
  {
    if fs != [] && !(n < fs[0].number) && fs[0].number != n { PutPut(fs[1..], n, c, d); }
  }

  lemma AddAllTwice(fs: seq<Field>, n: nat, vs: seq<Value>, ws: seq<Value>)
    requires Sorted(fs) && vs != []
    ensures AddAll(AddAll(fs, n, vs), n, ws) == AddAll(fs, n, vs + ws)
  {
    var c := Many(ValuesOf(fs, n) + vs);
    GetPut(fs, n, c, n);
    if ws == [] { assert vs + ws == vs; }
    else {
      PutPut(fs, n, c, Many(ValuesOf(fs, n) + vs + ws));
      assert ValuesOf(fs, n) + vs + ws == ValuesOf(fs, n) + (vs + ws);
    }
  }

  lemma {:induction false} TypedOrdered(reg: Registry, t: nat, fs: seq<Field>, budget: nat)
    requires Typed(reg, t, fs, budget)
    ensures Ordered(fs)
    decreases fs
  {
    forall i | 0 <= i < |fs| ensures OrderedField(fs[i]) {
      TypedFieldOrdered(reg, t, fs[i], budget);
    }
  }

  lemma {:induction false} TypedFieldOrdered(reg: Registry, t: nat, f: Field, budget: nat)
    requires TypedField(reg, t, f, budget)
    ensures OrderedField(f)
    decreases f
  {
    if f.content.One? { TypedValueOrdered(reg, reg(t, f.number).value, f.content.value, budget); }
  }

  lemma {:induction false} TypedValueOrdered(reg: Registry, info: Info, v: Value, budget: nat)
    requires TypedValue(reg, info, v, budget)
    ensures OrderedValue(v)
    decreases v
  {
    if v.Message? { TypedOrdered(reg, info.messageType, v.fields, budget - 1); }
  }

  lemma {:induction false} MergeFieldOrdered(a: seq<Field>, f: Field)
    requires Ordered(a) && OrderedField(f)
    ensures Ordered(MergeField(a, f))
    decreases f
  {
    GetOrdered(a, f.number);
    match f.content
    case Many(vs) => if vs != [] { PutOrdered(a, f.number, Many(ValuesOf(a, f.number) + vs)); }
    case One(Message(inner)) =>
      assert OrderedValue(f.content.value) && Ordered(inner);
      MergeOrdered(InnerOf(a, f.number), inner);
      PutOrdered(a, f.number, One(Message(MergeFields(InnerOf(a, f.number), inner))));
    case One(v) => PutOrdered(a, f.number, One(v));
  }

  lemma {:induction false} MergeOrdered(a: seq<Field>, b: seq<Field>)
    requires Ordered(a) && forall i :: 0 <= i < |b| ==> OrderedField(b[i])
    ensures Ordered(MergeFields(a, b))
    decreases b
  {
    hide Ordered, OrderedField, MergeField;
    if b != [] {
      MergeFieldOrdered(a, b[0]);
      MergeOrdered(MergeField(a, b[0]), b[1..]);
    }
  }

  lemma {:induction false} PutLast(fs: seq<Field>, n: nat, c: Content)
    requires forall i :: 0 <= i < |fs| ==> fs[i].number < n
    ensures Put(fs, n, c) == fs + [Field(n, c)] && Get(fs, n) == None
  {
    if fs != [] {
      PutLast(fs[1..], n, c);
      assert fs == [fs[0]] + fs[1..];
    }
  }

  /** Merging into an empty message gives the message. */
  lemma {:induction false} MergeIntoNothing(fs: seq<Field>)
    requires Ordered(fs)
    ensures MergeFields([], fs) == fs
    decreases fs, |fs| + 1
  {
    MergeAfter([], fs, fs);
    assert [] + fs == fs;
  }

  lemma {:induction false} MergeAfter(pre: seq<Field>, fs: seq<Field>, whole: seq<Field>)
    requires Ordered(whole) && pre + fs == whole
    ensures MergeFields(pre, fs) == pre + fs
    decreases whole, |fs|
  {
    if fs == [] {
      assert pre + fs == pre;
    } else {
      var f := fs[0];
      assert whole[|pre|] == f;
      forall i | 0 <= i < |pre| ensures pre[i].number < f.number { assert whole[i] == pre[i]; }
      MergeLast(pre, f);
      assert pre + [f] + fs[1..] == whole;
      MergeAfter(pre + [f], fs[1..], whole);
    }
  }

  lemma {:induction false} MergeLast(pre: seq<Field>, f: Field)
    requires OrderedField(f)
    requires forall i :: 0 <= i < |pre| ==> pre[i].number < f.number
    ensures MergeField(pre, f) == pre + [f]
    decreases f
  {
    PutLast(pre, f.number, f.content);
    if f.content.Many? {
      assert [] + f.content.values == f.content.values;
    } else {
      ValueIntoNothing(f.content.value);
    }
  }

  lemma {:induction false} ValueIntoNothing(v: Value)
    requires OrderedValue(v)
    ensures v.Message? ==> MergeFields([], v.fields) == v.fields
    decreases v
  {
    if v.Message? { MergeIntoNothing(v.fields); }
  }

  // ------------------------------------------------------------------
  // Round trip

  /** What reading a value does to the fields it is read into. */
  function StoreMerged(fs: seq<Field>, info: Info, n: nat, v: Value): seq<Field> {
    Store(fs, info, n, if v.Message? then Message(MergeFields(Target(fs, info, n), v.fields)) else v)
  }

  /** The bytes begin with this tag and one field, which makes `after` of the fields and
      leaves `rest`. */
  ghost predicate ReadsOne(reg: Registry, t: nat, fs: seq<Field>, b: bytes, tag: uint32, after: seq<Field>,
                           rest: bytes, budget: nat)
  {
    match ReadTag(b)
    case Tag(next, more) => next == tag && ReadField(reg, t, fs, tag, more, budget) == Some(Read(after, rest))
    case _ => false
  }

  lemma FieldAfterTag(reg: Registry, t: nat, fs: seq<Field>, n: nat, wireType: nat, b: bytes, after: seq<Field>,
                      rest: bytes, budget: nat)
    requires 0 < n < FIELD_LIMIT && wireType < 8
    requires ReadField(reg, t, fs, MakeTag(n, wireType), b, budget) == Some(Read(after, rest))
    ensures ReadsOne(reg, t, fs, WriteTag(n, wireType) + b, MakeTag(n, wireType), after, rest, budget)
  {
    hide WriteVarint, ReadTag, ReadField;
    TagRoundTrip(MakeTag(n, wireType), b);
  }

  /** A message loop goes on after the field. */
  lemma AfterOne(reg: Registry, t: nat, fs: seq<Field>, b: bytes, tag: uint32, after: seq<Field>, rest: bytes,
                 budget: nat)
    requires ReadsOne(reg, t, fs, b, tag, after, rest, budget) && tag % 8 != WIRETYPE_END_GROUP
    ensures ReadFields(reg, t, fs, b, budget) == ReadFields(reg, t, after, rest, budget)
  {
    hide ReadTag, ReadField;
  }

  /** A written value is one field. */
  lemma {:induction false} ValueReads(reg: Registry, t: nat, fs: seq<Field>, info: Info, n: nat, v: Value,
                                      rest: bytes, budget: nat)
    requires Ordered(fs) && 0 < n < FIELD_LIMIT && reg(t, n) == Some(info) && !info.isPacked
    requires TypedValue(reg, info, v, budget) && FitsValue(reg, info, v, budget)
    ensures ReadsOne(reg, t, fs, WriteValue(reg, info, n, v, budget) + rest, MakeTag(n, WireTypeFor(info.fieldType)),
                     StoreMerged(fs, info, n, v), rest, budget)
    decreases v, 0
  {
    hide ReadsOne, ReadField, ReadTag, WriteVarint, WritePrimitive, WriteString, InRange;
    match v
    case Number(k) => NumberReads(reg, t, fs, info, n, k, rest, budget);
    case Text(s) => TextReads(reg, t, fs, info, n, s, rest, budget);
    case Message(inner) =>
      GetOrdered(fs, n);
      var into := Target(fs, info, n);
      var after := if info.fieldType == GROUP then WriteTag(n, WIRETYPE_END_GROUP) + rest else [];
      ExtensionsRoundTrip(reg, info.messageType, into, inner, after, budget - 1);
      if info.fieldType == GROUP {
        EndOfGroup(reg, info.messageType, MergeFields(into, inner), n, rest, budget - 1);
        GroupReads(reg, t, fs, info, n, inner, rest, budget);
      } else {
        var data := WriteFieldsOf(reg, info.messageType, inner, budget - 1);
        assert data + [] == data;
        EndOfBytes(reg, info.messageType, MergeFields(into, inner), budget - 1);
        MessageReads(reg, t, fs, info, n, inner, rest, budget);
      }
  }

  lemma NumberReads(reg: Registry, t: nat, fs: seq<Field>, info: Info, n: nat, k: int, rest: bytes, budget: nat)
    requires 0 < n < FIELD_LIMIT && reg(t, n) == Some(info) && !info.isPacked
    requires TypedValue(reg, info, Number(k), budget)
    ensures ReadsOne(reg, t, fs, WriteValue(reg, info, n, Number(k), budget) + rest,
                     MakeTag(n, WireTypeFor(info.fieldType)),
                     StoreMerged(fs, info, n, Number(k)), rest, budget)
  {
    hide ReadsOne, ReadField, WritePrimitive, WriteVarint, WireTypeFor;
    var data := WritePrimitive(info.fieldType, k);
    assert WriteValue(reg, info, n, Number(k), budget) + rest
        == WriteTag(n, WireTypeFor(info.fieldType)) + (data + rest);
    WireTypeSmall(info.fieldType);
    NumberRead(reg, t, fs, info, n, k, rest, budget);
    FieldAfterTag(reg, t, fs, n, WireTypeFor(info.fieldType), data + rest, StoreMerged(fs, info, n, Number(k)), rest,
                  budget);
  }

  lemma WireTypeSmall(t: FieldType)
    ensures WireTypeFor(t) < 8 && WireTypeFor(t) != WIRETYPE_END_GROUP
  {
  }

  lemma TextReads(reg: Registry, t: nat, fs: seq<Field>, info: Info, n: nat, s: bytes, rest: bytes, budget: nat)
    requires 0 < n < FIELD_LIMIT && reg(t, n) == Some(info) && !info.isPacked
    requires TypedValue(reg, info, Text(s), budget)
    ensures ReadsOne(reg, t, fs, WriteValue(reg, info, n, Text(s), budget) + rest,
                     MakeTag(n, WIRETYPE_LENGTH_DELIMITED),
                     StoreMerged(fs, info, n, Text(s)), rest, budget)
  {
    hide ReadsOne, ReadField, WriteString, WriteVarint;
    assert WriteValue(reg, info, n, Text(s), budget) + rest
        == WriteTag(n, WIRETYPE_LENGTH_DELIMITED) + (WriteString(s) + rest);
    TextRead(reg, t, fs, info, n, s, rest, budget);
    FieldAfterTag(reg, t, fs, n, WIRETYPE_LENGTH_DELIMITED, WriteString(s) + rest, StoreMerged(fs, info, n, Text(s)),
                  rest, budget);
  }

  lemma GroupReads(reg: Registry, t: nat, fs: seq<Field>, info: Info, n: nat, inner: seq<Field>, rest: bytes,
                   budget: nat)
    requires 0 < n < FIELD_LIMIT && reg(t, n) == Some(info) && !info.isPacked && info.fieldType == GROUP
    requires TypedValue(reg, info, Message(inner), budget)
    requires var merged := MergeFields(Target(fs, info, n), inner);
             ReadFields(reg, info.messageType, Target(fs, info, n),
                        WriteFieldsOf(reg, info.messageType, inner, budget - 1)
                          + (WriteTag(n, WIRETYPE_END_GROUP) + rest),
                        budget - 1) == AtEndGroup(merged, MakeTag(n, WIRETYPE_END_GROUP), rest)
    ensures ReadsOne(reg, t, fs, WriteValue(reg, info, n, Message(inner), budget) + rest,
                     MakeTag(n, WIRETYPE_START_GROUP),
                     StoreMerged(fs, info, n, Message(inner)), rest, budget)
  {
    hide ReadField, ReadFields, WriteVarint, MergeFields, WriteFieldsOf, Typed;
    var b := WriteFieldsOf(reg, info.messageType, inner, budget - 1) + (WriteTag(n, WIRETYPE_END_GROUP) + rest);
    assert WriteValue(reg, info, n, Message(inner), budget) + rest == WriteTag(n, WIRETYPE_START_GROUP) + b;
    GroupRead(reg, t, fs, info, n, b, MergeFields(Target(fs, info, n), inner), rest, budget);
    FieldAfterTag(reg, t, fs, n, WIRETYPE_START_GROUP, b, StoreMerged(fs, info, n, Message(inner)), rest, budget);
  }

  lemma MessageReads(reg: Registry, t: nat, fs: seq<Field>, info: Info, n: nat, inner: seq<Field>, rest: bytes,
                     budget: nat)
    requires 0 < n < FIELD_LIMIT && reg(t, n) == Some(info) && !info.isPacked && info.fieldType == MESSAGE
    requires TypedValue(reg, info, Message(inner), budget)
    requires |WriteFieldsOf(reg, info.messageType, inner, budget - 1)| < INT_LIMIT
    requires var merged := MergeFields(Target(fs, info, n), inner);
             ReadFields(reg, info.messageType, Target(fs, info, n),
                        WriteFieldsOf(reg, info.messageType, inner, budget - 1), budget - 1) == Finished(merged)
    ensures ReadsOne(reg, t, fs, WriteValue(reg, info, n, Message(inner), budget) + rest,
                     MakeTag(n, WIRETYPE_LENGTH_DELIMITED), StoreMerged(fs, info, n, Message(inner)), rest, budget)
  {
    hide ReadField, ReadFields, WriteVarint, WriteString, MergeFields, WriteFieldsOf, Typed, Target, Store;
    var data := WriteFieldsOf(reg, info.messageType, inner, budget - 1);
    assert WriteTag(n, WIRETYPE_LENGTH_DELIMITED) + WriteString(data) + rest
        == WriteTag(n, WIRETYPE_LENGTH_DELIMITED) + (WriteString(data) + rest);
    MessageRead(reg, t, fs, info, n, data, MergeFields(Target(fs, info, n), inner), rest, budget);
    FieldAfterTag(reg, t, fs, n, WIRETYPE_LENGTH_DELIMITED, WriteString(data) + rest,
                  StoreMerged(fs, info, n, Message(inner)), rest, budget);
  }

  lemma {:induction false} ValueRoundTrip(reg: Registry, t: nat, fs: seq<Field>, info: Info, n: nat, v: Value,
                                          rest: bytes, budget: nat)
    requires Ordered(fs) && 0 < n < FIELD_LIMIT && reg(t, n) == Some(info) && !info.isPacked
    requires TypedValue(reg, info, v, budget) && FitsValue(reg, info, v, budget)
    ensures ReadFields(reg, t, fs, WriteValue(reg, info, n, v, budget) + rest, budget)
         == ReadFields(reg, t, StoreMerged(fs, info, n, v), rest, budget)
    decreases v, 1
  {
    hide ReadFields, ReadsOne, WriteValue, StoreMerged, TypedValue, FitsValue;
    ValueReads(reg, t, fs, info, n, v, rest, budget);
    AfterOne(reg, t, fs, WriteValue(reg, info, n, v, budget) + rest, MakeTag(n, WireTypeFor(info.fieldType)),
             StoreMerged(fs, info, n, v), rest, budget);
  }

  lemma EndOfBytes(reg: Registry, t: nat, fs: seq<Field>, budget: nat)
    ensures ReadFields(reg, t, fs, [], budget) == Finished(fs)
  {
  }

  lemma {:induction false} ValuesRoundTrip(reg: Registry, t: nat, fs: seq<Field>, info: Info, n: nat, vs: seq<Value>,
                                           rest: bytes, budget: nat)
    requires Ordered(fs) && 0 < n < FIELD_LIMIT && reg(t, n) == Some(info) && !info.isPacked && info.isRepeated
    requires TypedValues(reg, info, vs, budget) && FitsValues(reg, info, vs, budget)
    ensures ReadFields(reg, t, fs, WriteValues(reg, info, n, vs, budget) + rest, budget)
         == ReadFields(reg, t, AddAll(fs, n, vs), rest, budget)
    decreases vs
  {
    hide ReadFields, WriteValue, TypedValue, FitsValue, MergeFields, Ordered, OrderedValue;
    if vs == [] {
      assert WriteValues(reg, info, n, vs, budget) + rest == rest;
    } else {
      var v, more := vs[0], WriteValues(reg, info, n, vs[1..], budget) + rest;
      assert WriteValues(reg, info, n, vs, budget) + rest == WriteValue(reg, info, n, v, budget) + more;
      ValueRoundTrip(reg, t, fs, info, n, v, more, budget);
      TypedValueOrdered(reg, info, v, budget);
      ValueIntoNothing(v);
      assert StoreMerged(fs, info, n, v) == AddAll(fs, n, [v]);
      PutOrdered(fs, n, Many(ValuesOf(fs, n) + [v]));
      ValuesRoundTrip(reg, t, AddAll(fs, n, [v]), info, n, vs[1..], rest, budget);
      IsSorted(fs);
      AddAllTwice(fs, n, [v], vs[1..]);
      assert [v] + vs[1..] == vs;
    }
  }

  lemma IsSorted(fs: seq<Field>)
    requires Ordered(fs)
    ensures Sorted(fs)
  {
  }

  /** A written packed field is one field. */
  lemma PackedReads(reg: Registry, t: nat, fs: seq<Field>, f: Field, rest: bytes, budget: nat)
    requires TypedField(reg, t, f, budget) && FitsField(reg, t, f, budget) && reg(t, f.number).value.isPacked
    ensures ReadsOne(reg, t, fs, WriteFieldOf(reg, t, f, budget) + rest, MakeTag(f.number, WIRETYPE_LENGTH_DELIMITED),
                     MergeField(fs, f), rest, budget)
  {
    hide ReadFields, ReadField, WriteVarint, WriteString, TypedValues, AddAll;
    var info := reg(t, f.number).value;
    var data := WritePacked(reg, info, f.content.values, budget);
    PackedRoundTrip(reg, info, f.content.values, budget);
    assert WriteFieldOf(reg, t, f, budget) + rest
        == WriteTag(f.number, WIRETYPE_LENGTH_DELIMITED) + (WriteString(data) + rest);
    PackedRead(reg, t, fs, info, f.number, data, ReadPacked(info, data).value, rest, budget);
    FieldAfterTag(reg, t, fs, f.number, WIRETYPE_LENGTH_DELIMITED, WriteString(data) + rest, MergeField(fs, f), rest,
                  budget);
  }

  lemma {:induction false} FieldMerged(reg: Registry, t: nat, fs: seq<Field>, f: Field, rest: bytes, budget: nat)
    requires Ordered(fs) && TypedField(reg, t, f, budget) && FitsField(reg, t, f, budget)
    ensures ReadFields(reg, t, fs, WriteFieldOf(reg, t, f, budget) + rest, budget)
         == ReadFields(reg, t, MergeField(fs, f), rest, budget)
    decreases f
  {
    hide ReadFields, WriteValue, WriteValues, TypedValue, TypedValues, FitsValue, FitsValues, MergeFields, Ordered;
    var info := reg(t, f.number).value;
    if info.isPacked {
      PackedReads(reg, t, fs, f, rest, budget);
      AfterOne(reg, t, fs, WriteFieldOf(reg, t, f, budget) + rest, MakeTag(f.number, WIRETYPE_LENGTH_DELIMITED),
               MergeField(fs, f), rest, budget);
    } else {
      match f.content
      case One(v) => ValueRoundTrip(reg, t, fs, info, f.number, v, rest, budget);
      case Many(vs) => ValuesRoundTrip(reg, t, fs, info, f.number, vs, rest, budget);
    }
  }

  /** Reading what was written from one set into another is merging the first into the
      second, after which reading goes on with what follows. */
  lemma {:induction false} ExtensionsRoundTrip(reg: Registry, t: nat, a: seq<Field>, b: seq<Field>, rest: bytes,
                                               budget: nat)
    requires Ordered(a) && Typed(reg, t, b, budget) && Fits(reg, t, b, budget)
    ensures ReadFields(reg, t, a, WriteFieldsOf(reg, t, b, budget) + rest, budget)
         == ReadFields(reg, t, MergeFields(a, b), rest, budget)
    decreases b
  {
    hide ReadFields, WriteFieldOf, FitsField, TypedField, Ordered, MergeField;
    if b == [] {
      assert WriteFieldsOf(reg, t, b, budget) + rest == rest;
    } else {
      var more := WriteFieldsOf(reg, t, b[1..], budget) + rest;
      assert WriteFieldsOf(reg, t, b, budget) + rest == WriteFieldOf(reg, t, b[0], budget) + more;
      FieldMerged(reg, t, a, b[0], more, budget);
      TypedFieldOrdered(reg, t, b[0], budget);
      MergeFieldOrdered(a, b[0]);
      ExtensionsRoundTrip(reg, t, MergeField(a, b[0]), b[1..], rest, budget);
    }
  }

  /** Parsing the encoding of `b` into `a` is merging `b` into `a`; into an empty message
      it gives `b` back. */
  lemma ParseIsMerge(reg: Registry, t: nat, a: seq<Field>, b: seq<Field>, budget: nat)
    requires Ordered(a) && Typed(reg, t, b, budget) && Fits(reg, t, b, budget)
    ensures ReadFields(reg, t, a, WriteFieldsOf(reg, t, b, budget), budget) == Finished(MergeFields(a, b))
    ensures ReadFields(reg, t, [], WriteFieldsOf(reg, t, b, budget), budget) == Finished(b)
  {
    hide ReadFields;
    var data := WriteFieldsOf(reg, t, b, budget);
    assert data + [] == data;
    ExtensionsRoundTrip(reg, t, a, b, [], budget);
    EndOfBytes(reg, t, MergeFields(a, b), budget);
    ExtensionsRoundTrip(reg, t, [], b, [], budget);
    EndOfBytes(reg, t, MergeFields([], b), budget);
    TypedOrdered(reg, t, b, budget);
    MergeIntoNothing(b);
  }
}
