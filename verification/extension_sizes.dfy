/** The byte size of extensions, and the ranges of field numbers in which they are
    written. */
module ExtensionSizes {
  import opened Options
  import opened Wire
  import opened UnknownFields
  import opened Primitives
  import opened ExtensionValues

  /** The size of a tag; a group has two. */
  function TagSizeOf(n: nat, t: FieldType): nat
    requires n < FIELD_LIMIT
  {
    var size := VarintSize32(n * 8);
    if t == GROUP then size * 2 else size
  }

  function LengthDelimitedSize(length: nat): nat
    requires length < INT_LIMIT
  {
    VarintSize32(length) + length
  }

  function ValueSize(reg: Registry, info: Info, v: Value, ghost budget: nat): nat
    requires TypedValue(reg, info, v, budget) && FitsValue(reg, info, v, budget)
    decreases v, 0
  {
    match v
    case Number(k) => PrimitiveSize(info.fieldType, k)
    case Text(s) => LengthDelimitedSize(|s|)
    case Message(inner) =>
      FieldsSizeMatches(reg, info.messageType, inner, budget - 1);
      var size := FieldsByteSize(reg, info.messageType, inner, budget - 1);
      if info.fieldType == GROUP then size else LengthDelimitedSize(size)
  }

  function ValuesSize(reg: Registry, info: Info, vs: seq<Value>, ghost budget: nat): nat
    requires TypedValues(reg, info, vs, budget) && FitsValues(reg, info, vs, budget)
    decreases vs, 0
  {
    if vs == [] then 0 else ValueSize(reg, info, vs[0], budget) + ValuesSize(reg, info, vs[1..], budget)
  }

  function PackedSize(reg: Registry, info: Info, vs: seq<Value>, ghost budget: nat): nat
    requires IsPrimitive(info.fieldType) && TypedValues(reg, info, vs, budget)
    decreases vs
  {
    if vs == [] then 0
    else
      assert TypedValue(reg, info, vs[0], budget);
      PrimitiveSize(info.fieldType, vs[0].n) + PackedSize(reg, info, vs[1..], budget)
  }

  /** Extension::ByteSize */
  function FieldByteSize(reg: Registry, t: nat, f: Field, ghost budget: nat): nat
    requires TypedField(reg, t, f, budget) && FitsField(reg, t, f, budget)
    decreases f, 0
  {
    var info := reg(t, f.number).value;
    match f.content
    case One(v) => TagSizeOf(f.number, info.fieldType) + ValueSize(reg, info, v, budget)
    case Many(vs) =>
      if info.isPacked then
        PackedSizeMatches(reg, info, vs, budget);
        var size := PackedSize(reg, info, vs, budget);
        if size > 0 then
          size + VarintSize32(size) + VarintSize32(MakeTag(f.number, WIRETYPE_LENGTH_DELIMITED))
        else size
      else TagSizeOf(f.number, info.fieldType) * |vs| + ValuesSize(reg, info, vs, budget)
  }

  function FieldsByteSize(reg: Registry, t: nat, fs: seq<Field>, ghost budget: nat): nat
    requires Typed(reg, t, fs, budget) && Fits(reg, t, fs, budget)
    decreases fs, 0
  {
    if fs == [] then 0
    else FieldByteSize(reg, t, fs[0], budget) + FieldsByteSize(reg, t, fs[1..], budget)
  }

  lemma TagSizeMatches(n: nat, wireType: nat)
    requires n < FIELD_LIMIT && wireType < 8
    ensures |WriteTag(n, wireType)| == VarintSize32(n * 8) == VarintSize32(MakeTag(n, wireType))
  {
    VarintSizesExact(MakeTag(n, wireType));
  }

  lemma {:induction false} PackedSizeMatches(reg: Registry, info: Info, vs: seq<Value>, budget: nat)
    requires IsPrimitive(info.fieldType) && TypedValues(reg, info, vs, budget)
    ensures PackedSize(reg, info, vs, budget) == |WritePacked(reg, info, vs, budget)|
    ensures vs != [] ==> PackedSize(reg, info, vs, budget) > 0
    decreases vs
  {
    hide WritePrimitive, PrimitiveSize;
    if vs != [] {
      assert TypedValue(reg, info, vs[0], budget);
      PrimitiveSizeExact(info.fieldType, vs[0].n);
      PrimitiveRoundTrip(info.fieldType, vs[0].n, []);
      PackedSizeMatches(reg, info, vs[1..], budget);
    }
  }

  lemma {:induction false} ValueSizeMatches(reg: Registry, info: Info, n: nat, v: Value, budget: nat)
    requires n < FIELD_LIMIT && TypedValue(reg, info, v, budget) && FitsValue(reg, info, v, budget)
    ensures |WriteValue(reg, info, n, v, budget)| == TagSizeOf(n, info.fieldType) + ValueSize(reg, info, v, budget)
    decreases v, 1
  {
    hide WriteVarint, VarintSize32, WriteFieldsOf, FieldsByteSize, Typed, Fits;
    TagSizeMatches(n, WIRETYPE_LENGTH_DELIMITED);
    TagSizeMatches(n, WIRETYPE_START_GROUP);
    TagSizeMatches(n, WIRETYPE_END_GROUP);
    match v
    case Number(k) =>
      TagSizeMatches(n, WireTypeFor(info.fieldType));
      PrimitiveSizeExact(info.fieldType, k);
    case Text(s) => VarintSizesExact(|s|);
    case Message(inner) =>
      FieldsSizeMatches(reg, info.messageType, inner, budget - 1);
      if info.fieldType == MESSAGE { VarintSizesExact(|WriteFieldsOf(reg, info.messageType, inner, budget - 1)|); }
  }

  lemma {:induction false} ValuesSizeMatches(reg: Registry, info: Info, n: nat, vs: seq<Value>, budget: nat)
    requires n < FIELD_LIMIT && TypedValues(reg, info, vs, budget) && FitsValues(reg, info, vs, budget)
    ensures |WriteValues(reg, info, n, vs, budget)|
         == TagSizeOf(n, info.fieldType) * |vs| + ValuesSize(reg, info, vs, budget)
    decreases vs, 1
  {
    hide WriteValue, ValueSize, TypedValue, FitsValue, TagSizeOf;
    if vs != [] {
      ValueSizeMatches(reg, info, n, vs[0], budget);
      ValuesSizeMatches(reg, info, n, vs[1..], budget);
      assert TagSizeOf(n, info.fieldType) * |vs|
          == TagSizeOf(n, info.fieldType) + TagSizeOf(n, info.fieldType) * (|vs| - 1);
    }
  }

  /** The size of an extension is the number of bytes written for it. */
  lemma {:induction false} FieldSizeMatches(reg: Registry, t: nat, f: Field, budget: nat)
    requires TypedField(reg, t, f, budget) && FitsField(reg, t, f, budget)
    ensures |WriteFieldOf(reg, t, f, budget)| == FieldByteSize(reg, t, f, budget)
    decreases f, 1
  {
    hide WriteVarint, VarintSize32, WriteValue, WriteValues, ValueSize, ValuesSize, WritePacked, PackedSize,
      TypedValue, TypedValues, FitsValue, FitsValues, TagSizeOf;
    var info := reg(t, f.number).value;
    match f.content
    case One(v) => ValueSizeMatches(reg, info, f.number, v, budget);
    case Many(vs) =>
      if info.isPacked {
        PackedSizeMatches(reg, info, vs, budget);
        VarintSizesExact(|WritePacked(reg, info, vs, budget)|);
        TagSizeMatches(f.number, WIRETYPE_LENGTH_DELIMITED);
      } else {
        ValuesSizeMatches(reg, info, f.number, vs, budget);
      }
  }

  lemma {:induction false} FieldsSizeMatches(reg: Registry, t: nat, fs: seq<Field>, budget: nat)
    requires Typed(reg, t, fs, budget) && Fits(reg, t, fs, budget)
    ensures |WriteFieldsOf(reg, t, fs, budget)| == FieldsByteSize(reg, t, fs, budget)
    decreases fs, 1
  {
    hide WriteFieldOf, FieldByteSize, TypedField, FitsField;
    if fs != [] {
      FieldSizeMatches(reg, t, fs[0], budget);
      FieldsSizeMatches(reg, t, fs[1..], budget);
    }
  }

  // ------------------------------------------------------------------
  // Ranges of field numbers

  function InRangeOf(fs: seq<Field>, start: nat, end: nat): seq<Field> {
    if fs == [] then []
    else if start <= fs[0].number < end then [fs[0]] + InRangeOf(fs[1..], start, end)
    else InRangeOf(fs[1..], start, end)
  }

  lemma {:induction false} RangeTyped(reg: Registry, t: nat, fs: seq<Field>, start: nat, end: nat, budget: nat)
    requires Typed(reg, t, fs, budget)
    ensures Typed(reg, t, InRangeOf(fs, start, end), budget)
    ensures forall f :: f in InRangeOf(fs, start, end) ==> f in fs
    decreases fs
  {
    hide TypedField;
    if fs != [] {
      var r := InRangeOf(fs[1..], start, end);
      RangeTyped(reg, t, fs[1..], start, end, budget);
      forall i | 0 <= i < |r| ensures fs[0].number < r[i].number { assert r[i] in fs[1..]; }
    }
  }

  /** Consecutive ranges concatenate. */
  lemma {:induction false} RangesConcatenate(fs: seq<Field>, start: nat, mid: nat, end: nat)
    requires Sorted(fs) && start <= mid <= end
    ensures InRangeOf(fs, start, end) == InRangeOf(fs, start, mid) + InRangeOf(fs, mid, end)
  {
    if fs != [] {
      var more := fs[1..];
      forall i, j | 0 <= i < j < |more| ensures more[i].number < more[j].number {
        assert fs[i + 1].number < fs[j + 1].number;
      }
      RangesConcatenate(more, start, mid, end);
      if mid <= fs[0].number {
        forall i | 0 <= i < |more| ensures mid <= more[i].number { assert fs[0].number < fs[i + 1].number; }
        RangeEmpty(more, start, mid);
      }
      RangeStep(fs[0], InRangeOf(more, start, mid), InRangeOf(more, mid, end), fs, start, mid, end);
    }
  }

  lemma RangeStep(f: Field, left: seq<Field>, right: seq<Field>, fs: seq<Field>, start: nat, mid: nat, end: nat)
    requires fs != [] && f == fs[0] && start <= mid <= end && (mid <= f.number ==> left == [])
    requires left == InRangeOf(fs[1..], start, mid) && right == InRangeOf(fs[1..], mid, end)
    requires InRangeOf(fs[1..], start, end) == left + right
    ensures InRangeOf(fs, start, end) == InRangeOf(fs, start, mid) + InRangeOf(fs, mid, end)
  {
    if mid <= f.number {
      assert left + right == right;
      assert InRangeOf(fs, start, mid) == [];
    } else {
      assert [f] + (left + right) == [f] + left + right;
    }
  }

  lemma {:induction false} RangeEmpty(fs: seq<Field>, start: nat, end: nat)
    requires forall i :: 0 <= i < |fs| ==> end <= fs[i].number
    ensures InRangeOf(fs, start, end) == []
  {
    if fs != [] { RangeEmpty(fs[1..], start, end); }
  }

  /** A range that has every number is the whole. */
  lemma {:induction false} RangeWhole(fs: seq<Field>, start: nat, end: nat)
    requires forall i :: 0 <= i < |fs| ==> start <= fs[i].number < end
    ensures InRangeOf(fs, start, end) == fs
  {
    if fs != [] { RangeWhole(fs[1..], start, end); }
  }

  lemma {:induction false} WriteAppend(reg: Registry, t: nat, fs: seq<Field>, gs: seq<Field>, budget: nat)
    requires Typed(reg, t, fs, budget) && Typed(reg, t, gs, budget) && Typed(reg, t, fs + gs, budget)
    ensures WriteFieldsOf(reg, t, fs + gs, budget)
         == WriteFieldsOf(reg, t, fs, budget) + WriteFieldsOf(reg, t, gs, budget)
    decreases fs
  {
    hide WriteFieldOf, TypedField;
    if fs == [] { assert fs + gs == gs; }
    else {
      assert (fs + gs)[1..] == fs[1..] + gs;
      WriteAppend(reg, t, fs[1..], gs, budget);
    }
  }

  /** What is written for two consecutive ranges is what is written for both as one. */
  lemma WrittenRangesConcatenate(reg: Registry, t: nat, fs: seq<Field>, start: nat, mid: nat, end: nat, budget: nat)
    requires Typed(reg, t, fs, budget) && start <= mid <= end
    ensures Typed(reg, t, InRangeOf(fs, start, mid), budget) && Typed(reg, t, InRangeOf(fs, mid, end), budget)
    ensures Typed(reg, t, InRangeOf(fs, start, end), budget)
    ensures WriteFieldsOf(reg, t, InRangeOf(fs, start, end), budget)
         == WriteFieldsOf(reg, t, InRangeOf(fs, start, mid), budget)
           + WriteFieldsOf(reg, t, InRangeOf(fs, mid, end), budget)
  {
    RangeTyped(reg, t, fs, start, mid, budget);
    RangeTyped(reg, t, fs, mid, end, budget);
    RangeTyped(reg, t, fs, start, end, budget);
    RangesConcatenate(fs, start, mid, end);
    hide Typed, WriteFieldsOf;
    WriteAppend(reg, t, InRangeOf(fs, start, mid), InRangeOf(fs, mid, end), budget);
  }
}
