/** Reading a field that is kept as unknown from a stream. */
module WireFormat {
  import opened Options
  import opened Wire
  import opened UnknownFields
  import opened CodedStream

  /** The field with this tag.  Nested groups are read with one level less to go. */
  method SkipField(input: CodedInputStream, tag: uint32) returns (ok: bool, field: UnknownField)
    requires input.Valid() && tag != 0
    modifies input`position, input`lastTag, input`legitimateEnd, input`depth
    ensures match UnknownFields.SkipField(old(input.Rest()), tag, old(input.Budget()))
            case Some(r) => ok && input.Valid() && field == r.value && input.Rest() == r.rest
            case None => !ok
    ensures ok ==> input.depth == old(input.depth) && input.legitimateEnd == old(input.legitimateEnd)
    decreases |input.Rest()|, 1
  {
    hide Wire.ReadVarint64, Wire.ReadString, Wire.ReadFixed, UnknownFields.SkipMessage;
    var number, wireType := tag / 8, tag % 8;
    ok, field := false, Varint(number, 0);
    if wireType == WIRETYPE_VARINT {
      var value;
      ok, value := input.ReadVarint64();
      field := Varint(number, value);
    } else if wireType == WIRETYPE_FIXED64 {
      FixedValues(input.Rest());
      var value;
      ok, value := input.ReadLittleEndian(8);
      if ok { field := Fixed64(number, value); }
    } else if wireType == WIRETYPE_LENGTH_DELIMITED {
      var value;
      ok, value := input.ReadString();
      field := LengthDelimited(number, value);
    } else if wireType == WIRETYPE_START_GROUP {
      ok := input.IncrementRecursionDepth();
      if !ok { return; }
      var fields;
      ok, fields := SkipMessage(input);
      if !ok { return; }
      input.DecrementRecursionDepth();
      ok := input.lastTag == number * 8 + WIRETYPE_END_GROUP;
      field := Group(number, fields);
    } else if wireType == WIRETYPE_FIXED32 {
      FixedValues(input.Rest());
      var value;
      ok, value := input.ReadLittleEndian(4);
      if ok { field := Fixed32(number, value); }
    }
  }

  lemma FixedValues(b: bytes)
    ensures ReadFixed(b, 8).Some? ==> ReadFixed(b, 8).value.value < TWO_64
    ensures ReadFixed(b, 4).Some? ==> ReadFixed(b, 4).value.value < TWO_32
  {
    ByteLimits();
    if 8 <= |b| { FixedExtends(b, 8, []); }
    if 4 <= |b| { FixedExtends(b, 4, []); }
  }

  /** Fields up to the end of the bytes or an end-group tag. */
  method SkipMessage(input: CodedInputStream) returns (ok: bool, fields: seq<UnknownField>)
    requires input.Valid()
    modifies input`position, input`lastTag, input`legitimateEnd, input`depth
    ensures var o := UnknownFields.SkipMessage(old(input.Rest()), old(input.Budget()));
            if o.Failed? then !ok
            else input.Valid() && input.Reports(o, ok, old(input.legitimateEnd)) && fields == o.value
    ensures ok ==> input.depth == old(input.depth)
    decreases |input.Rest()|, 0
  {
    ghost var start, budget, was := input.Rest(), input.Budget(), input.legitimateEnd;
    fields := [];
    PrefixNothing(UnknownFields.SkipMessage(start, budget));
    while true
      invariant input.Valid() && input.depth == old(input.depth) && input.legitimateEnd == was
      invariant |input.Rest()| <= |start|
      invariant UnknownFields.SkipMessage(start, budget)
             == Prefix(fields, UnknownFields.SkipMessage(input.Rest(), budget))
      decreases |input.Rest()|
    {
      ghost var here := input.Rest();
      var tag := input.ReadTag();
      if tag == 0 { assert fields + [] == fields; return true, fields; }
      if tag % 8 == WIRETYPE_END_GROUP { assert fields + [] == fields; return true, fields; }
      ghost var rest := input.Rest();
      var field;
      ok, field := SkipField(input, tag);
      if !ok { return; }
      PrefixMore(fields, field, UnknownFields.SkipMessage(input.Rest(), budget));
      fields := fields + [field];
    }
  }

  lemma PrefixMore(fs: seq<UnknownField>, f: UnknownField, o: Outcome<seq<UnknownField>>)
    ensures Prefix(fs, Cons(f, o)) == Prefix(fs + [f], o)
  {
    if !o.Failed? { assert fs + ([f] + o.value) == fs + [f] + o.value; }
  }
}
