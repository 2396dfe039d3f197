/** The EditSeries class, which owns the Edit objects of its repeated field. */
module EditSeriesClass {
  import opened Options
  import opened Wire
  import opened UnknownFields
  import opened CodedStream
  import opened CodedOutput
  import opened EditMessage
  import opened Edits
  import opened SeriesMessage
  import WireFormat

  class EditSeries {
    var user: int64
    var hasUser: bool
    var edits: seq<Edit>
    var unknown: seq<UnknownField>
    var cachedSize: nat

    /** The edits are distinct objects. */
    predicate Valid()
      reads this, edits
    {
      && (!hasUser ==> user == 0)
      && (forall i, j :: 0 <= i < j < |edits| ==> edits[i] != edits[j])
      && (forall i :: 0 <= i < |edits| ==> edits[i].Valid())
    }

    function Value(): SeriesValue
      reads this, edits
    {
      SeriesValue(If(hasUser, user), Values(edits), unknown)
    }

    constructor ()
      ensures Valid() && Value() == NO_SERIES && edits == []
    {
      user, hasUser, edits, unknown, cachedSize := 0, false, [], [], 0;
    }

    method Clear()
      requires Valid()
      modifies this
      ensures Valid() && Value() == NO_SERIES
    {
      if hasUser { user := 0; }
      edits, hasUser, unknown := [], false, [];
    }

    method SetUser(value: int64)
      requires Valid()
      modifies this`user, this`hasUser
      ensures Valid() && Value() == old(Value()).(user := Some(value))
    {
      hasUser, user := true, value;
    }

    /** A new, empty edit at the end. */
    method AddEdits() returns (edit: Edit)
      requires Valid()
      modifies this`edits
      ensures fresh(edit) && edit.Valid() && edit.Value() == NO_EDIT && edits == old(edits) + [edit] && Valid()
      ensures unchanged(old(edits))
    {
      edit := new Edit();
      edits := edits + [edit];
    }

    /** A copy of an edit at the end. */
    method AddCopy(from: Edit)
      requires Valid() && from.Valid()
      modifies this`edits
      ensures Valid() && Value() == old(Value()).(edits := old(Value()).edits + [from.Value()])
      ensures |edits| == |old(edits)| + 1
    {
      hide Edit.Has, Edit.Valid, Edit.Value;
      var copy := new Edit();
      MergeNothing(from.Value());
      copy.MergeFrom(from);
      ValuesAppend(edits, copy);
      edits := edits + [copy];
    }

    /** The edits of the other are copied; its user replaces the one here if it is set. */
    method MergeFrom(from: EditSeries)
      requires from != this && Valid() && from.Valid()
      modifies this
      ensures Valid() && Value() == MergeSeriesValues(old(Value()), from.Value())
    {
      hide Edit.Has, Edit.Valid, Edit.Value, Values;
      ghost var mine, theirs := Value(), from.Value();
      MergeNoSeries(mine);
      var i := 0;
      while i < |from.edits|
        invariant 0 <= i <= |from.edits| == |theirs.edits|
        invariant Valid() && from.Valid() && from.Value() == theirs
        invariant Value() == mine.(edits := mine.edits + theirs.edits[..i])
      {
        ValuesAt(from.edits, i);
        AddCopy(from.edits[i]);
        assert mine.edits + theirs.edits[..i] + [theirs.edits[i]] == mine.edits + theirs.edits[..i + 1];
        i := i + 1;
      }
      if from.hasUser { SetUser(from.user); }
      unknown := unknown + from.unknown;
    }

    predicate IsInitialized()
      reads this, edits
    {
      hasUser && forall i :: 0 <= i < |edits| ==> edits[i].IsInitialized()
    }

    /** Read a tag and dispatch; after a user or an edit, go on with an edit when its tag
        is at hand.  The result is that of the plain loop. */
    method MergePartialFromCodedStream(input: CodedInputStream) returns (ok: bool)
      requires Valid() && input.Valid() && !input.legitimateEnd
      modifies this, input`position, input`lastTag, input`legitimateEnd, input`depth, input`currentLimit
      ensures var o := MergeSeries(old(Value()), old(input.Rest()), old(input.Budget()));
              if o.Failed? then !ok
              else Valid() && input.Valid() && input.Reports(o, ok, false) && Value() == o.value
    {
      hide EditSeries.Valid, EditSeries.Value, ReadSeriesField, MergeSeries, Wire.ReadTag, Pending;
      ghost var whole := MergeSeries(Value(), input.Rest(), input.Budget());
      ghost var budget := input.Budget();
      NothingPending(input.Rest());
      var expected: uint32 := 0;
      while true
        invariant Valid() && input.Valid() && input.Budget() == budget && !input.legitimateEnd
        invariant expected == 0 || expected == 18
        invariant whole == MergeSeries(Value(), Pending(expected) + input.Rest(), budget)
        decreases |input.Rest()| + if expected == 0 then 0 else 1
      {
        var tag := expected;
        if expected == 0 {
          NothingPending(input.Rest());
          SeriesUnfolds(Value(), input.Rest(), budget);
          tag := input.ReadTag();
          if tag == 0 { return true; }
          if tag % 8 == WIRETYPE_END_GROUP { return true; }
        } else {
          SeriesPending(Value(), expected, input.Rest(), budget);
        }
        assert whole == match ReadSeriesField(Value(), tag, input.Rest(), budget)
                        case Some(r) => MergeSeries(r.value, r.rest, budget)
                        case None => Failed;
        var end;
        ok, expected, end := ParseAndLookAhead(input, tag);
        if !ok { return; }
        if end {
          SeriesUnfolds(Value(), [], budget);
          return true;
        }
      }
    }

    /** The field with this tag, and whether an edit, or the end of the bytes, is known to
        come next. */
    method ParseAndLookAhead(input: CodedInputStream, tag: uint32)
      returns (ok: bool, expected: uint32, end: bool)
      requires Valid() && input.Valid() && !input.legitimateEnd && tag != 0
      modifies this, input`position, input`lastTag, input`legitimateEnd, input`depth, input`currentLimit
      ensures match ReadSeriesField(old(Value()), tag, old(input.Rest()), old(input.Budget()))
              case Some(r) => ok && Valid() && input.Valid() && Value() == r.value
                && Pending(expected) + input.Rest() == r.rest
              case None => !ok
      ensures ok ==> input.depth == old(input.depth) && (expected == 0 || expected == 18) && input.legitimateEnd == end
      ensures ok && end ==> expected == 0 && input.Rest() == [] && input.lastTag == 0
      ensures ok ==> |input.Rest()| + (if expected == 0 then 0 else 1) <= |old(input.Rest())|
    {
      hide EditSeries.Valid, EditSeries.Value, ReadSeriesField, Pending;
      expected, end := 0, false;
      ok := ParseField(input, tag);
      if ok { expected, end := LookAhead(input, tag); }
    }

    /** The case of the switch for this tag. */
    method ParseField(input: CodedInputStream, tag: uint32) returns (ok: bool)
      requires Valid() && input.Valid() && !input.legitimateEnd && tag != 0
      modifies this, input`position, input`lastTag, input`legitimateEnd, input`depth, input`currentLimit
      ensures match ReadSeriesField(old(Value()), tag, old(input.Rest()), old(input.Budget()))
              case Some(r) => ok && Valid() && input.Valid() && Value() == r.value && input.Rest() == r.rest
              case None => !ok
      ensures ok ==> input.depth == old(input.depth) && !input.legitimateEnd
    {
      hide EditSeries.Valid, EditSeries.Value, ReadSeriesField, SeriesMessage.ReadMessage, IsUser, IsEdit,
        CodedInputStream.Rest, CodedInputStream.Valid, CodedInputStream.Budget;
      if IsUser(tag) {
        ok := ParseUser(input, tag);
      } else if IsEdit(tag) {
        EditField(Value(), tag, input.Rest(), input.Budget());
        ok := ParseEdit(input);
      } else {
        ok := ParseUnknown(input, tag);
      }
    }

    method ParseUser(input: CodedInputStream, tag: uint32) returns (ok: bool)
      requires Valid() && input.Valid() && IsUser(tag)
      modifies this`user, this`hasUser, input`position
      ensures match ReadSeriesField(old(Value()), tag, old(input.Rest()), old(input.Budget()))
              case Some(r) => ok && Valid() && input.Valid() && Value() == r.value && input.Rest() == r.rest
              case None => !ok
    {
      hide EditSeries.Valid, EditSeries.Value, ReadSeriesField, Wire.ReadVarint64, ToInt64, CodedInputStream.Rest,
        CodedInputStream.Valid, CodedInputStream.Budget;
      UserField(Value(), tag, input.Rest(), input.Budget());
      var value;
      ok, value := input.ReadVarint64();
      if ok { SetUser(ToInt64(value)); }
    }

    method ParseUnknown(input: CodedInputStream, tag: uint32) returns (ok: bool)
      requires Valid() && input.Valid() && tag != 0 && !IsUser(tag) && !IsEdit(tag)
      modifies this`unknown, input`position, input`lastTag, input`legitimateEnd, input`depth
      ensures match ReadSeriesField(old(Value()), tag, old(input.Rest()), old(input.Budget()))
              case Some(r) => ok && Valid() && input.Valid() && Value() == r.value && input.Rest() == r.rest
              case None => !ok
      ensures ok ==> input.depth == old(input.depth) && input.legitimateEnd == old(input.legitimateEnd)
    {
      hide EditSeries.Valid, EditSeries.Value, ReadSeriesField, UnknownFields.SkipField, CodedInputStream.Rest,
        CodedInputStream.Valid, CodedInputStream.Budget;
      OtherField(Value(), tag, input.Rest(), input.Budget());
      var field;
      ok, field := WireFormat.SkipField(input, tag);
      if ok { AppendUnknown([field]); }
    }

    method AppendUnknown(fs: seq<UnknownField>)
      requires Valid()
      modifies this`unknown
      ensures Valid() && Value() == old(Value()).(unknown := old(Value()).unknown + fs)
    {
      unknown := unknown + fs;
    }

    method ParseEdit(input: CodedInputStream) returns (ok: bool)
      requires Valid() && input.Valid() && !input.legitimateEnd
      modifies this`edits, input`position, input`lastTag, input`legitimateEnd, input`depth, input`currentLimit
      ensures match SeriesMessage.ReadMessage(old(input.Rest()), old(input.Budget()))
              case Some(r) => ok && Valid() && input.Valid() && input.Rest() == r.rest
                && Value() == old(Value()).(edits := old(Value()).edits + [r.value])
              case None => !ok
      ensures ok ==> input.depth == old(input.depth) && !input.legitimateEnd
    {
      hide Edit.Has, Edit.Valid, Edit.Value, SeriesMessage.ReadMessage;
      ghost var before := edits;
      var edit := AddEdits();
      ok := ReadMessageNoVirtual(input, edit);
      if !ok { return; }
      ValuesAppend(before, edit);
    }

    /** Each edit caches the size of its encoding. */
    predicate SizesCached()
      reads this, edits
    {
      forall i :: 0 <= i < |edits| ==> edits[i].cachedSize == |Encode(edits[i].Value())|
    }

    /** The size, which is cached here and, for each edit, in the edit. */
    method ByteSize(ghost budget: nat) returns (total: nat)
      requires Valid() && SaneSeries(Value(), budget) && EditsFit(Value().edits)
      modifies this`cachedSize, edits`cachedSize
      ensures Valid() && Value() == old(Value()) && SizesCached()
      ensures total == cachedSize == SeriesSize(Value(), budget) == |EncodeSeries(Value())|
    {
      hide Edit.Has, Edit.Valid, Edit.Value, Values, Encode, Size, EditsSize;
      SeriesSizeExact(Value(), budget);
      total := 0;
      if hasUser { total := total + 1 + VarintSize64(ToUInt64(user)); }
      total := total + 1 * |edits|;
      var nested := EditsByteSize(budget);
      total := total + nested;
      if unknown != [] { total := total + FieldsSize(unknown, budget); }
      cachedSize := total;
    }

    /** The lengths and the bytes of the edits, without their tags. */
    method EditsByteSize(ghost budget: nat) returns (total: nat)
      requires Valid() && SaneSeries(Value(), budget) && EditsFit(Value().edits)
      modifies edits`cachedSize
      ensures Valid() && Value() == old(Value()) && SizesCached()
      ensures total + |edits| == EditsSize(Value().edits, budget)
    {
      hide Edit.Has, Edit.Valid, Edit.Value, Values, Encode, Sane, Size, VarintSize32, EditsSize;
      ghost var vs := Values(edits);
      forall k | 0 <= k < |edits| ensures edits[k].Value() == vs[k] { ValuesAt(edits, k); }
      total := 0;
      var i := 0;
      while i < |edits|
        invariant 0 <= i <= |edits|
        invariant forall k :: 0 <= k < |edits| ==> edits[k].Valid() && edits[k].Value() == vs[k]
        invariant forall k :: 0 <= k < i ==> edits[k].cachedSize == |Encode(vs[k])|
        invariant total + EditsSize(vs[i..], budget) + i == EditsSize(vs, budget)
      {
        assert SaneEdit(vs[i], budget);
        EditsSizeNext(vs, i, budget);
        var size := SizeOf(edits[i], budget);
        total := total + VarintSize32(size) + size;
        i := i + 1;
      }
      EditsSizeNone(vs, budget);
      ValuesAre(edits, vs);
    }

    /** With the sizes that ByteSize cached, what is written is the encoding. */
    method SerializeWithCachedSizes(output: CodedOutputStream)
      requires Valid() && SizesCached()
      modifies output
      ensures output.written == old(output.written) + EncodeSeries(Value())
    {
      hide EditSeries.Valid, EditSeries.SizesCached, Wire.WriteVarint, WriteFields, WriteEdits;
      SmallVarint(8);
      ghost var start, m := output.written, Value();
      if hasUser { output.WriteVarint(8); output.WriteVarint(ToUInt64(user)); }
      assert output.written == start + WriteUser(m.user);
      SerializeEdits(output);
      if unknown != [] { output.SerializeUnknownFields(unknown); } else { WriteNone(); }
      hide WriteUser;
      assert start + WriteUser(m.user) + WriteEdits(m.edits) + WriteFields(m.unknown)
          == start + (WriteUser(m.user) + WriteEdits(m.edits) + WriteFields(m.unknown));
    }

    method SerializeEdits(output: CodedOutputStream)
      requires Valid() && SizesCached()
      modifies output
      ensures output.written == old(output.written) + WriteEdits(Value().edits)
    {
      hide Edit.Has, Edit.Valid, Edit.Value, Values, Encode, SeriesMessage.WriteEdit;
      ghost var base, vs := output.written, Values(edits);
      var i := 0;
      while i < |edits|
        invariant 0 <= i <= |edits|
        invariant output.written + WriteEdits(vs[i..]) == base + WriteEdits(vs)
      {
        ghost var before := output.written;
        ValuesAt(edits, i);
        assert vs[i..][1..] == vs[i + 1..];
        WriteEditMessage(edits[i], output);
        assert before + WriteEdits(vs[i..]) == output.written + WriteEdits(vs[i + 1..]);
        i := i + 1;
      }
    }

    /** The same bytes, into an array, and nothing else in it changes. */
    method SerializeWithCachedSizesToArray(a: array<byte>, target: nat) returns (end: nat)
      requires Valid() && SizesCached() && target + |EncodeSeries(Value())| <= a.Length
      modifies a
      ensures end == target + |EncodeSeries(Value())| && a[..] == Patched(old(a[..]), target, EncodeSeries(Value()))
    {
      hide EditSeries.Valid, EditSeries.SizesCached, Patched, WriteFields, WriteEdits, WriteUser;
      ghost var m := Value();
      PatchedTwice(a[..], target, WriteUser(m.user), WriteEdits(m.edits));
      PatchedTwice(a[..], target, WriteUser(m.user) + WriteEdits(m.edits), WriteFields(m.unknown));
      end := WriteUserToArray(If(hasUser, user), a, target);
      end := EditsToArray(a, end);
      if unknown != [] {
        end := SerializeUnknownFieldsToArray(unknown, a, end);
      } else {
        WriteNone();
        PatchedNothing(a[..], end);
      }
    }

    method EditsToArray(a: array<byte>, target: nat) returns (end: nat)
      requires Valid() && SizesCached() && target + |WriteEdits(Value().edits)| <= a.Length
      modifies a
      ensures end == target + |WriteEdits(Value().edits)|
      ensures a[..] == Patched(old(a[..]), target, WriteEdits(Value().edits))
    {
      hide Edit.Has, Edit.Valid, Edit.Value, Values, Encode, SeriesMessage.WriteEdit, Patched;
      ghost var vs := Values(edits);
      ghost var done: bytes := [];
      PatchedNothing(a[..], target);
      assert vs[0..] == vs && done + WriteEdits(vs) == WriteEdits(vs);
      end := target;
      var i := 0;
      while i < |edits|
        invariant 0 <= i <= |edits| && done + WriteEdits(vs[i..]) == WriteEdits(vs)
        invariant end == target + |done| && a[..] == Patched(old(a[..]), target, done)
      {
        ValuesAt(edits, i);
        assert vs[i..][1..] == vs[i + 1..];
        ghost var part := SeriesMessage.WriteEdit(vs[i]);
        assert done + (part + WriteEdits(vs[i + 1..])) == done + part + WriteEdits(vs[i + 1..]);
        PatchedTwice(old(a[..]), target, done, part);
        end := EditMessageToArray(edits[i], a, end);
        done, i := done + part, i + 1;
      }
      assert vs[i..] == [] && done + [] == done;
    }

    /** Parse from scratch: all of the bytes must be consumed, the user be set, and the
        type of every edit. */
    method ParseFromArray(data: bytes) returns (ok: bool)
      requires Valid()
      modifies this
      ensures var o := MergeSeries(NO_SERIES, data, RECURSION_LIMIT);
              (ok <==> o.Finished? && Complete(o.value)) && (ok ==> Valid() && Value() == o.value)
    {
      hide Edit.Has, Edit.Valid, Edit.Value, Values, MergeSeries;
      var input := new CodedInputStream(data, RECURSION_LIMIT);
      Clear();
      ok := MergePartialFromCodedStream(input);
      if !ok { return; }
      InitializedExactly();
      if !IsInitialized() { return false; }
      ok := input.legitimateEnd;
    }

    /** The check of required fields, on the value. */
    lemma InitializedExactly()
      requires Valid()
      ensures IsInitialized() <==> Complete(Value())
    {
      forall i | 0 <= i < |edits| ensures edits[i].IsInitialized() <==> Values(edits)[i].kind.Some? {
        ValuesAt(edits, i);
      }
    }
  }

  /** Every required field is set. */
  predicate Complete(m: SeriesValue) {
    m.user.Some? && forall i :: 0 <= i < |m.edits| ==> m.edits[i].kind.Some?
  }

  method SizeOf(edit: Edit, ghost budget: nat) returns (size: uint32)
    requires edit.Valid() && SaneEdit(edit.Value(), budget) && |Encode(edit.Value())| < INT_LIMIT
    modifies edit`cachedSize
    ensures edit.Valid() && edit.Value() == old(edit.Value())
    ensures size == edit.cachedSize == Size(edit.Value(), budget - 1) == |Encode(edit.Value())|
  {
    hide Edit.Has, Edit.Valid, Edit.Value, Encode, Size;
    EditSizeExact(edit.Value(), budget - 1);
    size := edit.ByteSize(budget - 1);
  }

  method WriteEditMessage(edit: Edit, output: CodedOutputStream)
    requires edit.Valid() && edit.cachedSize == |Encode(edit.Value())|
    modifies output
    ensures output.written == old(output.written) + SeriesMessage.WriteEdit(edit.Value())
  {
    hide Edit.Has, Edit.Valid, Edit.Value, Encode, Wire.WriteVarint;
    SmallVarint(18);
    output.WriteVarint(18);
    output.WriteVarint(edit.cachedSize);
    edit.SerializeWithCachedSizes(output);
  }

  method EditMessageToArray(edit: Edit, a: array<byte>, target: nat) returns (end: nat)
    requires edit.Valid() && edit.cachedSize == |Encode(edit.Value())|
    requires target + |SeriesMessage.WriteEdit(edit.Value())| <= a.Length
    modifies a
    ensures end == target + |SeriesMessage.WriteEdit(edit.Value())|
    ensures a[..] == Patched(old(a[..]), target, SeriesMessage.WriteEdit(edit.Value()))
  {
    hide Edit.Has, Edit.Valid, Edit.Value, Encode, Wire.WriteVarint, Patched;
    SmallVarint(18);
    ghost var tag, length, data := [18], Wire.WriteVarint(edit.cachedSize), Encode(edit.Value());
    assert tag + length + data == tag + (length + data);
    PatchedTwice(a[..], target, tag, length);
    PatchedTwice(a[..], target, tag + length, data);
    end := WriteVarintToArray(18, a, target);
    end := WriteVarintToArray(edit.cachedSize, a, end);
    end := edit.SerializeWithCachedSizesToArray(a, end);
  }

  method WriteUserToArray(user: Option<int64>, a: array<byte>, target: nat) returns (end: nat)
    requires target + |WriteUser(user)| <= a.Length
    modifies a
    ensures end == target + |WriteUser(user)| && a[..] == Patched(old(a[..]), target, WriteUser(user))
  {
    hide Wire.WriteVarint, Patched;
    PatchedNothing(a[..], target);
    end := target;
    if user.Some? {
      SmallVarint(8);
      PatchedTwice(a[..], target, [8], Wire.WriteVarint(ToUInt64(user.value)));
      end := WriteVarintToArray(8, a, target);
      end := WriteVarintToArray(ToUInt64(user.value), a, end);
    }
  }

  /** After a user or an edit, whether an edit comes next, and after an edit also whether
      the end does. */
  method LookAhead(input: CodedInputStream, tag: uint32) returns (expected: uint32, end: bool)
    requires input.Valid() && !input.legitimateEnd
    modifies input`position, input`lastTag, input`legitimateEnd
    ensures input.Valid() && (expected == 0 || expected == 18) && input.legitimateEnd == end
    ensures Pending(expected) + input.Rest() == old(input.Rest())
    ensures |input.Rest()| + (if expected == 0 then 0 else 1) == |old(input.Rest())|
    ensures end ==> expected == 0 && input.Rest() == [] && input.lastTag == 0
  {
    hide Pending;
    expected, end := 0, false;
    NothingPending(input.Rest());
    if tag == 8 || tag == 18 {
      OnePending(18);
      var jump := input.ExpectTag(18);
      if jump { expected := 18; }
      else if tag == 18 { end := input.ExpectAtEnd(); }
    }
  }

  /** A nested message, read up to its length or the limit in force. */
  method ReadMessageNoVirtual(input: CodedInputStream, value: Edit) returns (ok: bool)
    requires input.Valid() && value.Valid() && value.Value() == NO_EDIT && !input.legitimateEnd
    modifies value, input`position, input`lastTag, input`legitimateEnd, input`depth, input`currentLimit
    ensures match SeriesMessage.ReadMessage(old(input.Rest()), old(input.Budget()))
            case Some(r) => ok && value.Valid() && input.Valid() && value.Value() == r.value && input.Rest() == r.rest
            case None => !ok
    ensures ok ==> input.depth == old(input.depth) && !input.legitimateEnd
  {
    hide Edit.Valid, Edit.Value, Wire.ReadVarint32, Merge, Clip;
    var length;
    ok, length := input.ReadVarint32();
    if !ok { return; }
    ok := input.IncrementRecursionDepth();
    if !ok { return; }
    ok := ReadUpTo(length, input, value);
    if ok { input.DecrementRecursionDepth(); }
  }

  /** Everything up to the length or the limit in force. */
  method ReadUpTo(length: uint32, input: CodedInputStream, value: Edit) returns (ok: bool)
    requires input.Valid() && value.Valid() && value.Value() == NO_EDIT && !input.legitimateEnd
    modifies value, input`position, input`lastTag, input`legitimateEnd, input`depth, input`currentLimit
    ensures var data := Clip(old(input.Rest()), length);
      match Merge(NO_EDIT, data, old(input.Budget()))
      case Finished(m) =>
        ok && value.Valid() && input.Valid() && value.Value() == m && input.Rest() == old(input.Rest())[|data|..]
      case _ => !ok
    ensures ok ==> input.depth == old(input.depth) && !input.legitimateEnd
  {
    hide Edit.Valid, Edit.Value, Merge;
    ghost var rest := input.Rest();
    var limit := input.PushLimit(length);
    ok := value.MergePartialFromCodedStream(input);
    if !ok { return; }
    if !input.legitimateEnd { return false; }
    input.PopLimit(limit);
    assert input.Rest() == rest[|Clip(rest, length)|..];
  }

  lemma UserField(m: SeriesValue, tag: uint32, b: bytes, budget: nat)
    requires IsUser(tag)
    ensures ReadSeriesField(m, tag, b, budget) == match Wire.ReadVarint64(b)
            case Some(r) => Some(Read(m.(user := Some(ToInt64(r.value))), r.rest))
            case None => None
  {
  }

  lemma EditField(m: SeriesValue, tag: uint32, b: bytes, budget: nat)
    requires IsEdit(tag)
    ensures ReadSeriesField(m, tag, b, budget) == match SeriesMessage.ReadMessage(b, budget)
            case Some(r) => Some(Read(m.(edits := m.edits + [r.value]), r.rest))
            case None => None
  {
  }

  lemma OtherField(m: SeriesValue, tag: uint32, b: bytes, budget: nat)
    requires !IsUser(tag) && !IsEdit(tag)
    ensures ReadSeriesField(m, tag, b, budget) == match UnknownFields.SkipField(b, tag, budget)
            case Some(r) => Some(Read(m.(unknown := m.unknown + [r.value]), r.rest))
            case None => None
  {
  }

  lemma SeriesUnfolds(m: SeriesValue, b: bytes, budget: nat)
    ensures MergeSeries(m, b, budget) == match Wire.ReadTag(b)
            case AtEnd => Finished(m)
            case BadTag => Stopped(m)
            case Tag(tag, rest) =>
              if tag % 8 == WIRETYPE_END_GROUP then AtEndGroup(m, tag, rest)
              else match ReadSeriesField(m, tag, rest, budget)
                case Some(r) => MergeSeries(r.value, r.rest, budget)
                case None => Failed
    ensures b == [] ==> Wire.ReadTag(b) == AtEnd
  {
    hide ReadSeriesField, Wire.ReadVarint32;
  }

  lemma SeriesPending(m: SeriesValue, expected: uint32, b: bytes, budget: nat)
    requires 0 < expected && expected % 8 != WIRETYPE_END_GROUP
    ensures MergeSeries(m, Pending(expected) + b, budget) == match ReadSeriesField(m, expected, b, budget)
            case Some(r) => MergeSeries(r.value, r.rest, budget)
            case None => Failed
  {
    hide ReadSeriesField, Wire.ReadTag, MergeSeries;
    TagRoundTrip(expected, b);
    SeriesUnfolds(m, Pending(expected) + b, budget);
  }

  function Values(es: seq<Edit>): (vs: seq<EditValue>)
    reads es
    ensures |vs| == |es|
  {
    if es == [] then [] else [es[0].Value()] + Values(es[1..])
  }

  lemma {:induction false} ValuesAt(es: seq<Edit>, i: nat)
    requires i < |es|
    ensures Values(es)[i] == es[i].Value()
  {
    if i > 0 { ValuesAt(es[1..], i - 1); }
  }

  lemma {:induction false} ValuesAre(es: seq<Edit>, vs: seq<EditValue>)
    requires |es| == |vs| && forall k :: 0 <= k < |es| ==> es[k].Value() == vs[k]
    ensures Values(es) == vs
  {
    if es != [] {
      ValuesAre(es[1..], vs[1..]);
      assert vs == [vs[0]] + vs[1..];
    }
  }

  lemma {:induction false} ValuesAppend(es: seq<Edit>, e: Edit)
    ensures Values(es + [e]) == Values(es) + [e.Value()]
  {
    if es != [] {
      assert (es + [e])[1..] == es[1..] + [e];
      ValuesAppend(es[1..], e);
    }
  }
}
