/** The Edit class: fields and presence bits that parsing, merging and clearing change in
    place. */
module Edits {
  import opened Options
  import opened Wire
  import opened UnknownFields
  import opened CodedStream
  import opened EditMessage
  import opened CodedOutput
  import WireFormat

  const TYPE: bv32 := 1
  const TEXT: bv32 := 2
  const LOCATION: bv32 := 4
  const IS_UNDO: bv32 := 8
  const IS_REDO: bv32 := 16

  function If<T>(has: bool, v: T): Option<T> {
    if has then Some(v) else None
  }

  class Edit {
    var kind: int32
    var text: bytes
    var location: int32
    var isUndo: bool
    var isRedo: bool
    var hasBits: bv32
    var unknown: seq<UnknownField>
    var cachedSize: nat

    predicate Has(bit: bv32)
      reads this`hasBits
    {
      hasBits & bit != 0
    }

    /** No bits but the five are set, the kind is a change type, and a field whose bit is clear has its default. */
    predicate Valid()
      reads this
    {
      && hasBits < 32 && IsChangeType(kind)
      && (!Has(TYPE) ==> kind == 0) && (!Has(TEXT) ==> text == []) && (!Has(LOCATION) ==> location == 0)
      && (!Has(IS_UNDO) ==> !isUndo) && (!Has(IS_REDO) ==> !isRedo)
    }

    function Value(): EditValue
      reads this
    {
      EditValue(If(Has(TYPE), kind), If(Has(TEXT), text), If(Has(LOCATION), location),
                If(Has(IS_UNDO), isUndo), If(Has(IS_REDO), isRedo), unknown)
    }

    constructor ()
      ensures Valid() && Value() == NO_EDIT
    {
      kind, text, location, isUndo, isRedo, hasBits, unknown, cachedSize := 0, [], 0, false, false, 0, [], 0;
    }

    method SetType(value: int32)
      requires Valid() && IsChangeType(value)
      modifies this`kind, this`hasBits
      ensures Valid() && Value() == old(Value()).(kind := Some(value))
    {
      hasBits, kind := hasBits | TYPE, value;
    }

    method ClearType()
      requires Valid()
      modifies this`kind, this`hasBits
      ensures Valid() && Value() == old(Value()).(kind := None)
    {
      hasBits, kind := hasBits & 0xFFFF_FFFE, 0;
    }

    method SetText(value: bytes)
      requires Valid()
      modifies this`text, this`hasBits
      ensures Valid() && Value() == old(Value()).(text := Some(value))
    {
      hasBits, text := hasBits | TEXT, value;
    }

    method ClearText()
      requires Valid()
      modifies this`text, this`hasBits
      ensures Valid() && Value() == old(Value()).(text := None)
    {
      hasBits, text := hasBits & 0xFFFF_FFFD, [];
    }

    method SetLocation(value: int32)
      requires Valid()
      modifies this`location, this`hasBits
      ensures Valid() && Value() == old(Value()).(location := Some(value))
    {
      hasBits, location := hasBits | LOCATION, value;
    }

    method ClearLocation()
      requires Valid()
      modifies this`location, this`hasBits
      ensures Valid() && Value() == old(Value()).(location := None)
    {
      hasBits, location := hasBits & 0xFFFF_FFFB, 0;
    }

    method SetIsUndo(value: bool)
      requires Valid()
      modifies this`isUndo, this`hasBits
      ensures Valid() && Value() == old(Value()).(isUndo := Some(value))
    {
      hasBits, isUndo := hasBits | IS_UNDO, value;
    }

    method ClearIsUndo()
      requires Valid()
      modifies this`isUndo, this`hasBits
      ensures Valid() && Value() == old(Value()).(isUndo := None)
    {
      hasBits, isUndo := hasBits & 0xFFFF_FFF7, false;
    }

    method SetIsRedo(value: bool)
      requires Valid()
      modifies this`isRedo, this`hasBits
      ensures Valid() && Value() == old(Value()).(isRedo := Some(value))
    {
      hasBits, isRedo := hasBits | IS_REDO, value;
    }

    method ClearIsRedo()
      requires Valid()
      modifies this`isRedo, this`hasBits
      ensures Valid() && Value() == old(Value()).(isRedo := None)
    {
      hasBits, isRedo := hasBits & 0xFFFF_FFEF, false;
    }

    /** Fields are reset only when some bit is set; bits and unknown fields always. */
    method Clear()
      requires Valid()
      modifies this
      ensures Valid() && Value() == NO_EDIT
    {
      if hasBits & 0xFF != 0 {
        kind := 0;
        if Has(TEXT) { text := []; }
        location, isUndo, isRedo := 0, false, false;
      }
      hasBits, unknown := 0, [];
    }

    /** The fields that are set in the other replace those of this; its unknown fields are
        appended. */
    method MergeFrom(from: Edit)
      requires from != this && Valid() && from.Valid()
      modifies this
      ensures Valid() && Value() == MergeValues(old(Value()), from.Value())
    {
      hide Edit.Valid, Edit.Has;
      if from.hasBits & 0xFF == 0 { from.NothingSet(); }
      if from.hasBits & 0xFF != 0 {
        MergeFieldsFrom(from);
      }
      AppendUnknown(from.unknown);
    }

    method AppendUnknown(fs: seq<UnknownField>)
      requires Valid()
      modifies this`unknown
      ensures Valid() && Value() == old(Value()).(unknown := old(Value()).unknown + fs)
    {
      unknown := unknown + fs;
    }

    lemma NothingSet()
      requires Valid() && hasBits & 0xFF == 0
      ensures Value() == NO_EDIT.(unknown := unknown)
    {
    }

    lemma Shown()
      requires Valid()
      ensures IsChangeType(kind)
      ensures Value() == EditValue(If(Has(TYPE), kind), If(Has(TEXT), text), If(Has(LOCATION), location),
                                   If(Has(IS_UNDO), isUndo), If(Has(IS_REDO), isRedo), unknown)
    {
    }

    method MergeFieldsFrom(from: Edit)
      requires from != this && Valid() && from.Valid()
      modifies this`kind, this`text, this`location, this`isUndo, this`isRedo, this`hasBits
      ensures Valid() && Value() == MergeValues(old(Value()), from.Value()).(unknown := old(Value()).unknown)
    {
      hide Edit.Has, Edit.Valid, Edit.Value, IsChangeType;
      from.Shown();
      ghost var a, b := Value(), from.Value();
      if from.Has(TYPE) { SetType(from.kind); }
      ghost var a1 := a.(kind := Or(a.kind, b.kind));
      assert Value() == a1;
      if from.Has(TEXT) { SetText(from.text); }
      ghost var a2 := a1.(text := Or(a.text, b.text));
      assert Value() == a2;
      if from.Has(LOCATION) { SetLocation(from.location); }
      ghost var a3 := a2.(location := Or(a.location, b.location));
      assert Value() == a3;
      if from.Has(IS_UNDO) { SetIsUndo(from.isUndo); }
      ghost var a4 := a3.(isUndo := Or(a.isUndo, b.isUndo));
      assert Value() == a4;
      if from.Has(IS_REDO) { SetIsRedo(from.isRedo); }
    }

    method CopyFrom(from: Edit)
      requires Valid() && from.Valid()
      modifies this
      ensures Valid() && Value() == old(from.Value())
    {
      if from == this { return; }
      Clear();
      MergeNothing(from.Value());
      MergeFrom(from);
    }

    predicate IsInitialized()
      reads this
    {
      hasBits & 1 == 1
    }

    method ByteSize(ghost budget: nat) returns (total: nat)
      requires Valid() && Sane(Value(), budget)
      modifies this`cachedSize
      ensures Valid() && Value() == old(Value())
      ensures total == cachedSize == Size(Value(), budget)
    {
      total := 0;
      if hasBits & 0xFF != 0 {
        if Has(TYPE) { total := total + 1 + VarintSize32SignExtended(kind); }
        if Has(TEXT) { total := total + 1 + VarintSize32(|text|) + |text|; }
        if Has(LOCATION) { total := total + 1 + VarintSize32SignExtended(location); }
        if Has(IS_UNDO) { total := total + 1 + 1; }
        if Has(IS_REDO) { total := total + 1 + 1; }
      }
      if unknown != [] {
        total := total + FieldsSize(unknown, budget);
      }
      cachedSize := total;
    }

    /** Read a tag and dispatch; after a field, jump straight to the next one in order when
        its tag is at hand.  The result is that of the plain loop. */
    method MergePartialFromCodedStream(input: CodedInputStream) returns (ok: bool)
      requires Valid() && input.Valid()
      modifies this, input`position, input`lastTag, input`legitimateEnd, input`depth
      ensures var o := Merge(old(Value()), old(input.Rest()), old(input.Budget()));
              if o.Failed? then !ok
              else Valid() && input.Valid() && input.Reports(o, ok, old(input.legitimateEnd)) && Value() == o.value
      ensures ok ==> input.depth == old(input.depth)
    {
      hide Edit.Has, Edit.Valid, Edit.Value, MergeField, Merge, Wire.ReadTag, Pending;
      ghost var whole := Merge(Value(), input.Rest(), input.Budget());
      ghost var budget, was := input.Budget(), input.legitimateEnd;
      NothingPending(input.Rest());
      var expected: uint32 := 0;
      while true
        invariant Valid() && input.Valid() && input.Budget() == budget && input.legitimateEnd == was
        invariant expected < 0x80 && expected % 8 != WIRETYPE_END_GROUP
        invariant whole == Merge(Value(), Pending(expected) + input.Rest(), budget)
        decreases |input.Rest()| + if expected == 0 then 0 else 1
      {
        var tag := expected;
        if expected == 0 {
          NothingPending(input.Rest());
          MergeUnfolds(Value(), input.Rest(), budget);
          tag := input.ReadTag();
          if tag == 0 { return true; }
          if tag % 8 == WIRETYPE_END_GROUP { return true; }
        } else {
          MergePending(Value(), expected, input.Rest(), budget);
        }
        assert whole == match MergeField(Value(), tag, input.Rest(), budget)
                        case Some(r) => Merge(r.value, r.rest, budget)
                        case None => Failed;
        ok := ParseField(input, tag);
        if !ok { return; }
        expected := NextInOrder(tag);
        if expected != 0 {
          var jump := input.ExpectTag(expected);
          OnePending(expected);
          if !jump { expected := 0; }
        } else if tag == 40 {
          var end := input.ExpectAtEnd();
          MergeUnfolds(Value(), input.Rest(), budget);
          if end { return true; }
        }
        NothingPending(input.Rest());
      }
    }

    /** The case of the switch for this tag. */
    method ParseField(input: CodedInputStream, tag: uint32) returns (ok: bool)
      requires Valid() && input.Valid() && tag != 0 && tag % 8 != WIRETYPE_END_GROUP
      modifies this, input`position, input`lastTag, input`legitimateEnd, input`depth
      ensures match MergeField(old(Value()), tag, old(input.Rest()), old(input.Budget()))
              case Some(r) => ok && Valid() && input.Valid() && Value() == r.value && input.Rest() == r.rest
              case None => !ok
      ensures ok ==> input.depth == old(input.depth) && input.legitimateEnd == old(input.legitimateEnd)
    {
      hide Edit.Has, Edit.Valid, Edit.Value, Wire.ReadVarint32, Wire.ReadString, UnknownFields.SkipField, ToInt32,
        ToUInt64;
      var number, wireType := tag / 8, tag % 8;
      if wireType == WIRETYPE_VARINT && number == 1 {
        var value;
        ok, value := input.ReadVarint32();
        if !ok { return; }
        if IsChangeType(ToInt32(value)) { SetType(ToInt32(value)); }
        else { AppendUnknown([Varint(1, ToUInt64(ToInt32(value)))]); }
      } else if wireType == WIRETYPE_LENGTH_DELIMITED && number == 2 {
        var value;
        ok, value := input.ReadString();
        if !ok { return; }
        SetText(value);
      } else if wireType == WIRETYPE_VARINT && number == 3 {
        var value;
        ok, value := input.ReadVarint32();
        if !ok { return; }
        SetLocation(ToInt32(value));
      } else if wireType == WIRETYPE_VARINT && number == 4 {
        var value;
        ok, value := input.ReadVarint32();
        if !ok { return; }
        SetIsUndo(value != 0);
      } else if wireType == WIRETYPE_VARINT && number == 5 {
        var value;
        ok, value := input.ReadVarint32();
        if !ok { return; }
        SetIsRedo(value != 0);
      } else {
        var field;
        ok, field := WireFormat.SkipField(input, tag);
        if !ok { return; }
        AppendUnknown([field]);
      }
    }

    method SerializeWithCachedSizes(output: CodedOutputStream)
      requires Valid()
      modifies output
      ensures output.written == old(output.written) + Encode(Value())
    {
      hide Edit.Has, WriteInt32, WriteText, WriteBool, WriteFields;
      var m := Value();
      Regroup(output.written, WriteInt32(8, m.kind), WriteText(18, m.text), WriteInt32(24, m.location),
              WriteBool(32, m.isUndo), WriteBool(40, m.isRedo), WriteFields(m.unknown));
      WriteInt32Field(8, If(Has(TYPE), kind), output);
      WriteTextField(18, If(Has(TEXT), text), output);
      WriteInt32Field(24, If(Has(LOCATION), location), output);
      WriteBoolField(32, If(Has(IS_UNDO), isUndo), output);
      WriteBoolField(40, If(Has(IS_REDO), isRedo), output);
      if unknown != [] { output.SerializeUnknownFields(unknown); } else { WriteNone(); }
    }

    /** The same bytes, into an array, and nothing else in it changes. */
    method SerializeWithCachedSizesToArray(a: array<byte>, target: nat) returns (end: nat)
      requires Valid() && target + |Encode(Value())| <= a.Length
      modifies a
      ensures end == target + |Encode(Value())| && a[..] == Patched(old(a[..]), target, Encode(Value()))
    {
      hide Edit.Has, Patched, WriteInt32, WriteText, WriteBool, WriteFields;
      var m := Value();
      PatchedSixTimes(a[..], target, WriteInt32(8, m.kind), WriteText(18, m.text), WriteInt32(24, m.location),
                      WriteBool(32, m.isUndo), WriteBool(40, m.isRedo), WriteFields(m.unknown));
      end := WriteInt32ToArray(8, If(Has(TYPE), kind), a, target);
      end := WriteTextToArray(18, If(Has(TEXT), text), a, end);
      end := WriteInt32ToArray(24, If(Has(LOCATION), location), a, end);
      end := WriteBoolToArray(32, If(Has(IS_UNDO), isUndo), a, end);
      end := WriteBoolToArray(40, If(Has(IS_REDO), isRedo), a, end);
      if unknown != [] {
        end := SerializeUnknownFieldsToArray(unknown, a, end);
      } else {
        WriteNone();
        PatchedNothing(a[..], end);
      }
    }

    /** Parse from scratch: all of the bytes must be consumed and the type be set. */
    method ParseFromArray(data: bytes) returns (ok: bool)
      requires Valid()
      modifies this
      ensures var o := Merge(NO_EDIT, data, RECURSION_LIMIT);
              (ok <==> o.Finished? && o.value.kind.Some?) && (ok ==> Valid() && Value() == o.value)
    {
      var input := new CodedInputStream(data, RECURSION_LIMIT);
      Clear();
      ok := MergePartialFromCodedStream(input);
      if !ok { return; }
      if !IsInitialized() { return false; }
      ok := input.legitimateEnd;
    }
  }

  const RECURSION_LIMIT: nat := 100

  // ------------------------------------------------------------------
  // Writing one field if it is set

  method WriteInt32Field(tag: byte, v: Option<int32>, output: CodedOutputStream)
    requires tag < 0x80
    modifies output
    ensures output.written == old(output.written) + WriteInt32(tag, v)
  {
    hide Wire.WriteVarint;
    SmallVarint(tag);
    if v.Some? {
      ghost var start, number := output.written, Wire.WriteVarint(ToUInt64(v.value));
      output.WriteVarint(tag);
      output.WriteVarint(ToUInt64(v.value));
      assert start + [tag] + number == start + ([tag] + number);
    }
  }

  method WriteBoolField(tag: byte, v: Option<bool>, output: CodedOutputStream)
    requires tag < 0x80
    modifies output
    ensures output.written == old(output.written) + WriteBool(tag, v)
  {
    SmallVarint(tag);
    if v.Some? {
      SmallVarint(if v.value then 1 else 0);
      output.WriteVarint(tag);
      output.WriteVarint(if v.value then 1 else 0);
    }
  }

  method WriteTextField(tag: byte, v: Option<bytes>, output: CodedOutputStream)
    requires tag < 0x80
    modifies output
    ensures output.written == old(output.written) + WriteText(tag, v)
  {
    hide Wire.WriteVarint;
    SmallVarint(tag);
    if v.Some? {
      ghost var start, length := output.written, Wire.WriteVarint(|v.value|);
      output.WriteVarint(tag);
      output.WriteVarint(|v.value|);
      output.WriteRaw(v.value);
      assert start + [tag] + length + v.value == start + ([tag] + (length + v.value));
    }
  }

  method WriteInt32ToArray(tag: byte, v: Option<int32>, a: array<byte>, target: nat) returns (end: nat)
    requires tag < 0x80 && target + |WriteInt32(tag, v)| <= a.Length
    modifies a
    ensures end == target + |WriteInt32(tag, v)| && a[..] == Patched(old(a[..]), target, WriteInt32(tag, v))
  {
    hide Patched, Wire.WriteVarint;
    PatchedNothing(a[..], target);
    end := target;
    if v.Some? {
      SmallVarint(tag);
      PatchedTwice(a[..], target, [tag], WriteVarint32SignExtended(v.value));
      end := WriteVarintToArray(tag, a, target);
      end := WriteVarintToArray(ToUInt64(v.value), a, end);
    }
  }

  method WriteBoolToArray(tag: byte, v: Option<bool>, a: array<byte>, target: nat) returns (end: nat)
    requires tag < 0x80 && target + |WriteBool(tag, v)| <= a.Length
    modifies a
    ensures end == target + |WriteBool(tag, v)| && a[..] == Patched(old(a[..]), target, WriteBool(tag, v))
  {
    hide Patched, Wire.WriteVarint;
    PatchedNothing(a[..], target);
    end := target;
    if v.Some? {
      var bit := if v.value then 1 else 0;
      SmallVarint(tag);
      SmallVarint(bit);
      PatchedTwice(a[..], target, [tag], [bit]);
      assert [tag] + [bit] == [tag, bit];
      end := WriteVarintToArray(tag, a, target);
      end := WriteVarintToArray(bit, a, end);
    }
  }

  method WriteTextToArray(tag: byte, v: Option<bytes>, a: array<byte>, target: nat) returns (end: nat)
    requires tag < 0x80 && target + |WriteText(tag, v)| <= a.Length
    modifies a
    ensures end == target + |WriteText(tag, v)| && a[..] == Patched(old(a[..]), target, WriteText(tag, v))
  {
    hide Patched, Wire.WriteVarint;
    PatchedNothing(a[..], target);
    end := target;
    if v.Some? {
      SmallVarint(tag);
      PatchedTwice(a[..], target, [tag], Wire.WriteVarint(|v.value|));
      PatchedTwice(a[..], target, [tag] + Wire.WriteVarint(|v.value|), v.value);
      assert [tag] + WriteString(v.value) == [tag] + Wire.WriteVarint(|v.value|) + v.value;
      end := WriteVarintToArray(tag, a, target);
      end := WriteVarintToArray(|v.value|, a, end);
      end := WriteRawToArray(v.value, a, end);
    }
  }

  lemma Regroup(s: bytes, a: bytes, b: bytes, c: bytes, d: bytes, e: bytes, f: bytes)
    ensures s + a + b + c + d + e + f == s + (a + b + c + d + e + f)
  {
  }

  lemma PatchedSixTimes(s: bytes, at: nat, a: bytes, b: bytes, c: bytes, d: bytes, e: bytes, f: bytes)
    requires at + |a| + |b| + |c| + |d| + |e| + |f| <= |s|
    ensures var s1 := Patched(s, at, a); var s2 := Patched(s1, at + |a|, b);
            var s3 := Patched(s2, at + |a| + |b|, c); var s4 := Patched(s3, at + |a| + |b| + |c|, d);
            var s5 := Patched(s4, at + |a| + |b| + |c| + |d|, e);
            Patched(s5, at + |a| + |b| + |c| + |d| + |e|, f) == Patched(s, at, a + b + c + d + e + f)
  {
    hide Patched;
    PatchedTwice(s, at, a, b);
    PatchedTwice(s, at, a + b, c);
    PatchedTwice(s, at, a + b + c, d);
    PatchedTwice(s, at, a + b + c + d, e);
    PatchedTwice(s, at, a + b + c + d + e, f);
  }

  /** The bytes of a tag that was consumed ahead of the field it announces. */
  ghost function Pending(expected: uint32): bytes {
    if expected == 0 then [] else WriteVarint(expected)
  }

  lemma NothingPending(b: bytes)
    ensures Pending(0) + b == b
  {
  }

  lemma OnePending(expected: uint32)
    requires 0 < expected < 0x80
    ensures Pending(expected) == [expected]
  {
    SmallVarint(expected);
  }

  lemma MergeUnfolds(m: EditValue, b: bytes, budget: nat)
    ensures Merge(m, b, budget) == match Wire.ReadTag(b)
            case AtEnd => Finished(m)
            case BadTag => Stopped(m)
            case Tag(tag, rest) =>
              if tag % 8 == WIRETYPE_END_GROUP then AtEndGroup(m, tag, rest)
              else match MergeField(m, tag, rest, budget)
                case Some(r) => Merge(r.value, r.rest, budget)
                case None => Failed
    ensures b == [] ==> Wire.ReadTag(b) == AtEnd
  {
    hide MergeField, Wire.ReadVarint32;
  }

  lemma MergePending(m: EditValue, expected: uint32, b: bytes, budget: nat)
    requires 0 < expected && expected % 8 != WIRETYPE_END_GROUP
    ensures Merge(m, Pending(expected) + b, budget) == match MergeField(m, expected, b, budget)
            case Some(r) => Merge(r.value, r.rest, budget)
            case None => Failed
  {
    hide MergeField, Wire.ReadTag, Merge;
    TagRoundTrip(expected, b);
    MergeUnfolds(m, Pending(expected) + b, budget);
  }

  /** The tag tried after a field that was read in its own wire type, or 0. */
  function NextInOrder(tag: uint32): uint32 {
    if tag == 8 then 18
    else if tag == 18 then 24
    else if tag == 24 then 32
    else if tag == 32 then 40
    else 0
  }
}
