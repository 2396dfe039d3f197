/** What fits where a dynamic message keeps a field: every value that the wire format can
    give to it. */
module LayoutValues {
  import opened Options
  import opened Wire
  import opened Primitives
  import opened MessageLayout

  /** The C++ type that holds a field of this type. */
  function CppTypeOf(t: FieldType): CppType {
    match t
    case DOUBLE => CPP_DOUBLE
    case FLOAT => CPP_FLOAT
    case INT64 | SFIXED64 | SINT64 => CPP_INT64
    case UINT64 | FIXED64 => CPP_UINT64
    case INT32 | SFIXED32 | SINT32 => CPP_INT32
    case FIXED32 | UINT32 => CPP_UINT32
    case BOOL => CPP_BOOL
    case ENUM => CPP_ENUM
    case STRING | BYTES => CPP_STRING
    case GROUP | MESSAGE => CPP_MESSAGE
  }

  /** So many bytes have a pattern for each value of the type, and fewer have not. */
  ghost predicate IsWidth(t: FieldType, w: nat) {
    && w > 0
    && (forall m, n :: InRange(t, m) && InRange(t, n) ==> n - m < ByteLimit(w))
    && (exists m, n :: InRange(t, m) && InRange(t, n) && n - m >= ByteLimit(w - 1))
  }

  /** Where the part after a field begins. */
  function NextStart(l: Layout, i: nat): nat {
    if i + 1 < |l.offsets| then l.offsets[i + 1] else l.unknownFields
  }

  lemma {:induction false} ByteLimitGrows(v: nat, w: nat)
    requires v <= w
    ensures ByteLimit(v) <= ByteLimit(w)
    decreases w - v
  {
    if v < w { ByteLimitGrows(v, w - 1); }
  }

  lemma FewByteLimits()
    ensures ByteLimit(0) == 1 && ByteLimit(1) == 0x100 && ByteLimit(3) == 0x100_0000 && ByteLimit(4) == TWO_32
    ensures ByteLimit(7) == 0x100_0000_0000_0000 && ByteLimit(8) == TWO_64
  {
  }

  lemma OneWidth(t: FieldType, v: nat, w: nat)
    requires IsWidth(t, v) && IsWidth(t, w)
    ensures v == w
  {
    if v < w { ByteLimitGrows(v, w - 1); }
    if w < v { ByteLimitGrows(w, v - 1); }
  }

  lemma FarApart(t: FieldType) returns (m: int, n: int)
    requires IsPrimitive(t)
    ensures InRange(t, m) && InRange(t, n)
    ensures n - m == if t.BOOL? then 1 else if CppTypeOf(t).CPP_INT64? || CppTypeOf(t).CPP_UINT64? || t.DOUBLE?
      then TWO_64 - 1 else TWO_32 - 1
    ensures forall k :: InRange(t, k) ==> m <= k <= n
  {
    match t
    case INT32 | SINT32 | SFIXED32 | ENUM => m, n := -0x8000_0000, 0x7fff_ffff;
    case INT64 | SINT64 | SFIXED64 => m, n := -0x8000_0000_0000_0000, 0x7fff_ffff_ffff_ffff;
    case UINT32 | FIXED32 | FLOAT => m, n := 0, TWO_32 - 1;
    case UINT64 | FIXED64 | DOUBLE => m, n := 0, TWO_64 - 1;
    case BOOL => m, n := 0, 1;
  }

  /** The space of a field that is one number is the width of its type. */
  lemma SpaceIsWidth(s: Sizes, t: FieldType, w: nat)
    requires Positive(s) && IsPrimitive(t) && IsWidth(t, w)
    ensures FieldSpaceUsed(s, FieldShape(CppTypeOf(t), false)) == w
    ensures w == 1 || w == 4 || w == 8
  {
    FewByteLimits();
    hide ByteLimit;
    var space := FieldSpaceUsed(s, FieldShape(CppTypeOf(t), false));
    var m, n := FarApart(t);
    hide InRange;
    assert IsWidth(t, space);
    OneWidth(t, space, w);
  }

  lemma EndsBeforeNext(s: Sizes, fields: seq<FieldShape>, hasExtensions: bool, l: Layout, i: nat)
    requires Positive(s) && LaidOut(s, fields, hasExtensions, l) && i < |fields|
    ensures l.offsets[i] + FieldSpaceUsed(s, fields[i]) <= NextStart(l, i)
  {
    hide FieldSpaceUsed, AllAligned, Tight;
    var rs := Regions(s, fields, l);
    var k := (if l.extensions.Some? then 3 else 2) + i;
    assert rs[k] == FieldRegions(s, fields, l.offsets)[i];
    assert rs[k + 1].start == NextStart(l, i);
  }

  /** Every value of the type has a place between the offset of a field and the next part,
      and the offset is aligned for it. */
  lemma ValuesFit(s: Sizes, fields: seq<FieldShape>, hasExtensions: bool, l: Layout, i: nat, t: FieldType, w: nat)
    requires Positive(s) && LaidOut(s, fields, hasExtensions, l)
    requires i < |fields| && fields[i] == FieldShape(CppTypeOf(t), false)
    requires IsPrimitive(t) && IsWidth(t, w)
    ensures l.offsets[i] + w <= NextStart(l, i) && l.offsets[i] % w == 0
  {
    SpaceIsWidth(s, t, w);
    EndsBeforeNext(s, fields, hasExtensions, l, i);
    hide FieldSpaceUsed, Packed, Tight, Regions, IsWidth, InRange;
    assert l.offsets[i] % Alignment(s, fields[i]) == 0;
  }

  /** Of two numbers that follow each other the second begins where it first can. */
  lemma ValuesTight(s: Sizes, fields: seq<FieldShape>, hasExtensions: bool, l: Layout, i: nat, t: FieldType, v: nat,
                    u: FieldType, w: nat)
    requires Positive(s) && LaidOut(s, fields, hasExtensions, l)
    requires i + 1 < |fields| && fields[i] == FieldShape(CppTypeOf(t), false)
    requires fields[i + 1] == FieldShape(CppTypeOf(u), false)
    requires IsPrimitive(t) && IsWidth(t, v) && IsPrimitive(u) && IsWidth(u, w)
    ensures l.offsets[i + 1] < l.offsets[i] + v + w
  {
    SpaceIsWidth(s, t, v);
    SpaceIsWidth(s, u, w);
    hide FieldSpaceUsed, Packed, AllAligned, Regions, IsWidth, InRange;
    assert l.offsets[i + 1] < l.offsets[i + 1 - 1] + FieldSpaceUsed(s, fields[i + 1 - 1]) + Alignment(s, fields[i + 1]);
  }

  /** A string or a message is a pointer, and a repeated field an object. */
  lemma ObjectsFit(s: Sizes, fields: seq<FieldShape>, hasExtensions: bool, l: Layout, i: nat, t: FieldType)
    requires Positive(s) && LaidOut(s, fields, hasExtensions, l)
    requires i < |fields| && fields[i].cppType == CppTypeOf(t) && (fields[i].isRepeated || !IsPrimitive(t))
    ensures l.offsets[i] + (if !fields[i].isRepeated then s.pointer
                            else if IsPrimitive(t) then s.repeatedField else s.repeatedPtrField) <= NextStart(l, i)
  {
    EndsBeforeNext(s, fields, hasExtensions, l, i);
    hide LaidOut;
  }

  lemma WidthsExist(t: FieldType)
    requires IsPrimitive(t)
    ensures exists w :: IsWidth(t, w)
  {
    FewByteLimits();
    hide ByteLimit;
    var m, n := FarApart(t);
    hide InRange;
    assert IsWidth(t, if n - m == 1 then 1 else if n - m == TWO_32 - 1 then 4 else 8);
  }
}
