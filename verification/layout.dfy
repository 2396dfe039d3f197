/** Where a dynamic message keeps its parts: the object, the presence bits, the extension
    set, the fields and the unknown fields, one after the other in a block of memory. */
module MessageLayout {
  import opened Options

  datatype CppType =
    | CPP_INT32 | CPP_INT64 | CPP_UINT32 | CPP_UINT64 | CPP_DOUBLE | CPP_FLOAT | CPP_BOOL | CPP_ENUM
    | CPP_STRING | CPP_MESSAGE

  datatype FieldShape = FieldShape(cppType: CppType, isRepeated: bool)

  /** The sizes of the classes, which depend on the platform. */
  datatype Sizes = Sizes(dynamicMessage: nat, extensionSet: nat, unknownFieldSet: nat,
                         repeatedField: nat, repeatedPtrField: nat, pointer: nat)

  const SAFE_ALIGNMENT: nat := 8

  /** No class is empty, and what a field takes is a power of two up to eight, or more. */
  predicate Positive(s: Sizes) {
    && s.dynamicMessage > 0 && s.extensionSet > 0 && s.unknownFieldSet > 0
    && IsPlain(s.repeatedField) && IsPlain(s.repeatedPtrField) && IsPlain(s.pointer)
  }

  predicate IsPlain(size: nat) {
    size == 1 || size == 2 || size == 4 || size >= SAFE_ALIGNMENT
  }

  function FieldSpaceUsed(s: Sizes, f: FieldShape): (size: nat)
    requires Positive(s)
    ensures IsPlain(size)
  {
    if f.isRepeated then
      if f.cppType.CPP_STRING? || f.cppType.CPP_MESSAGE? then s.repeatedPtrField else s.repeatedField
    else match f.cppType
      case CPP_INT32 | CPP_UINT32 | CPP_FLOAT | CPP_ENUM => 4
      case CPP_INT64 | CPP_UINT64 | CPP_DOUBLE => 8
      case CPP_BOOL => 1
      case CPP_STRING | CPP_MESSAGE => s.pointer
  }

  function DivideRoundingUp(i: nat, j: nat): nat
    requires j > 0
  {
    (i + (j - 1)) / j
  }

  /** The first multiple of the alignment from the offset on. */
  function AlignTo(offset: nat, alignment: nat): (r: nat)
    requires alignment > 0
    ensures offset <= r < offset + alignment && r % alignment == 0
  {
    RoundUp(offset, alignment);
    DivideRoundingUp(offset, alignment) * alignment
  }

  lemma RoundUp(offset: nat, alignment: nat)
    requires alignment > 0
    ensures offset <= DivideRoundingUp(offset, alignment) * alignment < offset + alignment
    ensures DivideRoundingUp(offset, alignment) * alignment % alignment == 0
  {
    var i := offset + (alignment - 1);
    assert i == i / alignment * alignment + i % alignment;
    MultipleOf(i / alignment, alignment);
  }

  lemma MultipleOf(q: nat, a: nat)
    requires a > 0
    ensures q * a % a == 0
  {
    var p, r := q * a / a, q * a % a;
    assert q * a == p * a + r;
    assert (q - p) * a == r;
    if q - p >= 1 { AtLeast(q - p, a); }
    else if q - p < 0 { AtLeast(p - q, a); }
  }

  lemma AtLeast(k: nat, a: nat)
    requires k >= 1
    ensures k * a >= a
  {
  }

  function AlignOffset(offset: nat): nat {
    AlignTo(offset, SAFE_ALIGNMENT)
  }

  function Min(a: nat, b: nat): nat {
    if a < b then a else b
  }

  datatype Layout = Layout(hasBits: nat, hasBitsWords: nat, extensions: Option<nat>, offsets: seq<nat>,
                           unknownFields: nat, size: nat)

  datatype Region = Region(start: nat, end: nat)

  // ------------------------------------------------------------------
  // What a layout promises

  function FieldRegions(s: Sizes, fields: seq<FieldShape>, offsets: seq<nat>): (r: seq<Region>)
    requires Positive(s) && |fields| == |offsets|
    ensures |r| == |fields|
    ensures forall i :: 0 <= i < |r| ==> r[i] == Region(offsets[i], offsets[i] + FieldSpaceUsed(s, fields[i]))
  {
    seq(|fields|, i requires 0 <= i < |fields| => Region(offsets[i], offsets[i] + FieldSpaceUsed(s, fields[i])))
  }

  /** The parts of the block in order. */
  function Regions(s: Sizes, fields: seq<FieldShape>, l: Layout): seq<Region>
    requires Positive(s) && |fields| == |l.offsets|
  {
    [Region(0, s.dynamicMessage), Region(l.hasBits, l.hasBits + 4 * l.hasBitsWords)]
    + (if l.extensions.Some? then [Region(l.extensions.value, l.extensions.value + s.extensionSet)] else [])
    + FieldRegions(s, fields, l.offsets)
    + [Region(l.unknownFields, l.unknownFields + s.unknownFieldSet)]
  }

  /** Each part begins less than eight bytes after the end of the one before. */
  predicate Packed(rs: seq<Region>) {
    && (forall i :: 0 <= i < |rs| ==> rs[i].start <= rs[i].end)
    && (forall i :: 0 <= i < |rs| - 1 ==> rs[i].end <= rs[i + 1].start < rs[i].end + SAFE_ALIGNMENT)
  }

  predicate Disjoint(a: Region, b: Region) {
    a.end <= b.start || b.end <= a.start
  }

  predicate LaidOut(s: Sizes, fields: seq<FieldShape>, hasExtensions: bool, l: Layout)
    requires Positive(s)
  {
    && |l.offsets| == |fields| && l.extensions.Some? == hasExtensions
    && Packed(Regions(s, fields, l))
    && l.unknownFields + s.unknownFieldSet <= l.size < l.unknownFields + s.unknownFieldSet + SAFE_ALIGNMENT
    && l.hasBits % 8 == 0 && l.unknownFields % 8 == 0 && l.size % 8 == 0
    && (l.extensions.Some? ==> l.extensions.value % 8 == 0)
    && |fields| <= 32 * l.hasBitsWords < |fields| + 32
    && AllAligned(s, fields, l.offsets) && Tight(s, fields, l.offsets)
  }

  /** The alignment of a field is its size, but at most eight. */
  function Alignment(s: Sizes, f: FieldShape): (a: nat)
    requires Positive(s)
    ensures a == 1 || a == 2 || a == 4 || a == 8
  {
    Min(SAFE_ALIGNMENT, FieldSpaceUsed(s, f))
  }

  predicate AllAligned(s: Sizes, fields: seq<FieldShape>, offsets: seq<nat>)
    requires Positive(s) && |offsets| <= |fields|
  {
    forall i :: 0 <= i < |offsets| ==> offsets[i] % Alignment(s, fields[i]) == 0
  }

  /** After a field, the next begins at the first offset that is aligned for it. */
  predicate Tight(s: Sizes, fields: seq<FieldShape>, offsets: seq<nat>)
    requires Positive(s) && |offsets| <= |fields|
  {
    forall i :: 0 < i < |offsets| ==>
      offsets[i] < offsets[i - 1] + FieldSpaceUsed(s, fields[i - 1]) + Alignment(s, fields[i])
  }

  /** No two parts of a layout overlap, and all lie inside the block. */
  lemma PartsDisjoint(s: Sizes, fields: seq<FieldShape>, hasExtensions: bool, l: Layout, i: nat, j: nat)
    requires Positive(s) && LaidOut(s, fields, hasExtensions, l)
    requires i < j < |Regions(s, fields, l)|
    ensures Disjoint(Regions(s, fields, l)[i], Regions(s, fields, l)[j])
    ensures Regions(s, fields, l)[j].end <= l.size
  {
    var rs := Regions(s, fields, l);
    PackedOrder(rs, i, j);
    PackedOrder(rs, j, |rs| - 1);
  }

  lemma {:induction false} PackedOrder(rs: seq<Region>, i: nat, j: nat)
    requires Packed(rs) && i <= j < |rs|
    ensures i < j ==> rs[i].end <= rs[j].start
    ensures rs[i].end <= rs[j].end
    decreases j - i
  {
    if i < j {
      PackedOrder(rs, i, j - 1);
      assert rs[j - 1].end <= rs[j - 1 + 1].start;
    }
  }

  /** The parts so far, and a size that the next part may start at. */
  predicate Ready(rs: seq<Region>, size: nat) {
    rs != [] && Packed(rs) && rs[|rs| - 1].end <= size < rs[|rs| - 1].end + SAFE_ALIGNMENT
  }

  lemma OneMore(rs: seq<Region>, start: nat, end: nat)
    requires Ready(rs, start) && start <= end
    ensures Placeable(rs + [Region(start, end)], end) && Ready(rs + [Region(start, end)], AlignOffset(end))
  {
    hide DivideRoundingUp;
    var more := rs + [Region(start, end)];
    assert more[|more| - 2] == rs[|rs| - 1];
  }

  /** The parts are placed one after the other, each at the first aligned offset. */
  method ComputeLayout(s: Sizes, fields: seq<FieldShape>, hasExtensions: bool) returns (l: Layout)
    requires Positive(s)
    ensures LaidOut(s, fields, hasExtensions, l)
  {
    hide AlignTo, DivideRoundingUp, Ready, Packed, FieldSpaceUsed, Alignment, AllAligned, Tight;
    Front(s);
    var size := AlignOffset(s.dynamicMessage);
    var hasBits := size;
    var words := BitWords(|fields|);
    size := size + words * 4;
    ghost var parts := [Region(0, s.dynamicMessage)];
    OneMore(parts, hasBits, size);
    parts := parts + [Region(hasBits, size)];
    size := AlignOffset(size);
    var extensions := None;
    if hasExtensions {
      extensions := Some(size);
      OneMore(parts, size, size + s.extensionSet);
      parts := parts + [Region(size, size + s.extensionSet)];
      size := AlignOffset(size + s.extensionSet);
    }
    var offsets;
    ghost var head := parts;
    offsets, size := PlaceFields(s, fields, size, head);
    parts := head + FieldRegions(s, fields, offsets);
    var unknownFields := size;
    OneMore(parts, size, size + s.unknownFieldSet);
    size := AlignOffset(size + s.unknownFieldSet);
    l := Layout(hasBits, words, extensions, offsets, unknownFields, size);
    assert Regions(s, fields, l) == parts + [Region(unknownFields, unknownFields + s.unknownFieldSet)];
    ReadyPacked(Regions(s, fields, l), size);
  }

  lemma Front(s: Sizes)
    ensures Ready([Region(0, s.dynamicMessage)], AlignOffset(s.dynamicMessage))
  {
  }

  lemma ReadyPacked(rs: seq<Region>, size: nat)
    requires Ready(rs, size)
    ensures Packed(rs) && rs[|rs| - 1].end <= size < rs[|rs| - 1].end + SAFE_ALIGNMENT
  {
  }

  /** Enough words of 32 bits for as many bits. */
  function BitWords(n: nat): (words: nat)
    ensures n <= 32 * words < n + 32
  {
    DivideRoundingUp(n, 32)
  }

  /** Each field at the first offset that is aligned for it; then the end is aligned. */
  method PlaceFields(s: Sizes, fields: seq<FieldShape>, from: nat, ghost head: seq<Region>)
    returns (offsets: seq<nat>, size: nat)
    requires Positive(s) && Ready(head, from) && from % 8 == 0
    ensures |offsets| == |fields| && Ready(head + FieldRegions(s, fields, offsets), size) && size % 8 == 0
    ensures AllAligned(s, fields, offsets) && Tight(s, fields, offsets)
  {
    hide AlignTo, Ready, FieldSpaceUsed, Alignment, Placeable, Tight, AllAligned, FieldRegions;
    NonePlaced(s, fields, head, from);
    offsets, size := [], from;
    var i := 0;
    while i < |fields|
      invariant 0 <= i <= |fields| && |offsets| == i
      invariant Tight(s, fields, offsets) && (i > 0 ==> size == offsets[i - 1] + FieldSpaceUsed(s, fields[i - 1]))
      invariant AllAligned(s, fields, offsets) && Placeable(head + FieldRegions(s, fields[..i], offsets), size)
    {
      FieldPlaced(s, fields, head, offsets, size);
      size := AlignTo(size, Alignment(s, fields[i]));
      offsets := offsets + [size];
      size := size + FieldSpaceUsed(s, fields[i]);
      i := i + 1;
    }
    assert fields[..i] == fields;
    PlaceableAligned(head + FieldRegions(s, fields, offsets), size, SAFE_ALIGNMENT);
    size := AlignOffset(size);
  }

  lemma NonePlaced(s: Sizes, fields: seq<FieldShape>, head: seq<Region>, from: nat)
    requires Positive(s) && Ready(head, from) && from % 8 == 0
    ensures Tight(s, fields, []) && AllAligned(s, fields, [])
    ensures Placeable(head + FieldRegions(s, fields[..0], []), from)
  {
    assert head + FieldRegions(s, fields[..0], []) == head;
  }

  /** One more field keeps what was promised of those before it. */
  lemma FieldPlaced(s: Sizes, fields: seq<FieldShape>, head: seq<Region>, offsets: seq<nat>, size: nat)
    requires Positive(s) && |offsets| < |fields| && Tight(s, fields, offsets) && AllAligned(s, fields, offsets)
    requires |offsets| > 0 ==> size == offsets[|offsets| - 1] + FieldSpaceUsed(s, fields[|offsets| - 1])
    requires Placeable(head + FieldRegions(s, fields[..|offsets|], offsets), size)
    ensures var i := |offsets|;
      var offset := AlignTo(size, Alignment(s, fields[i]));
      && Tight(s, fields, offsets + [offset]) && AllAligned(s, fields, offsets + [offset])
      && Placeable(head + FieldRegions(s, fields[..i + 1], offsets + [offset]), offset + FieldSpaceUsed(s, fields[i]))
  {
    hide AlignTo, Ready, FieldSpaceUsed, Alignment, Placeable;
    var i := |offsets|;
    var parts := head + FieldRegions(s, fields[..i], offsets);
    var offset := AlignTo(size, Alignment(s, fields[i]));
    PlaceableAligned(parts, size, Alignment(s, fields[i]));
    OneMore(parts, offset, offset + FieldSpaceUsed(s, fields[i]));
    assert head + FieldRegions(s, fields[..i + 1], offsets + [offset])
        == parts + [Region(offset, offset + FieldSpaceUsed(s, fields[i]))];
  }

  /** Whatever alignment the next field wants, less than eight bytes will be left out. */
  predicate Placeable(rs: seq<Region>, size: nat) {
    Ready(rs, size) && (size % 8 == 0 || size == rs[|rs| - 1].end)
  }

  lemma PlaceableAligned(rs: seq<Region>, size: nat, alignment: nat)
    requires Placeable(rs, size) && (alignment == 1 || alignment == 2 || alignment == 4 || alignment == 8)
    ensures Ready(rs, AlignTo(size, alignment))
  {
    hide AlignTo, Packed;
    var r := AlignTo(size, alignment);
    if size % 8 == 0 {
      AlsoAligned(size, alignment);
      Stays(size, r, alignment);
    }
  }

  lemma AlsoAligned(size: nat, alignment: nat)
    requires size % 8 == 0 && (alignment == 1 || alignment == 2 || alignment == 4 || alignment == 8)
    ensures size % alignment == 0
  {
    if alignment == 1 { assert size % 1 == 0; }
    else if alignment == 2 { assert size % 2 == 0; }
    else if alignment == 4 { assert size % 4 == 0; }
  }

  /** Two multiples that are less than one step apart are the same. */
  lemma Stays(size: nat, r: nat, a: nat)
    requires a > 0 && size <= r < size + a && size % a == 0 && r % a == 0
    ensures r == size
  {
    var k, m := r / a, size / a;
    assert r == k * a && size == m * a;
    if k - m >= 1 { AtLeast(k - m, a); }
    else if m - k >= 1 { AtLeast(m - k, a); }
  }
}
