/** Where the serialisers write: a stream that grows, or an array from a position on. */
module CodedOutput {
  import opened Options
  import opened Wire
  import opened UnknownFields

  class CodedOutputStream {
    var written: bytes

    constructor ()
      ensures written == []
    {
      written := [];
    }

    method WriteRaw(b: bytes)
      modifies this
      ensures written == old(written) + b
    {
      written := written + b;
    }

    /** Groups of seven bits, the last without the continuation bit. */
    method WriteVarint(value: nat)
      modifies this
      ensures written == old(written) + Wire.WriteVarint(value)
    {
      hide Wire.WriteVarint;
      ghost var start := written;
      var v := value;
      while v > 0x7F
        invariant written + Wire.WriteVarint(v) == start + Wire.WriteVarint(value)
      {
        VarintStep(v);
        var group: byte := v % 0x80 + 0x80;
        v := v / 0x80;
        assert written + ([group] + Wire.WriteVarint(v)) == written + [group] + Wire.WriteVarint(v);
        written := written + [group];
      }
      VarintStep(v);
      written := written + [v];
    }

    method SerializeUnknownFields(fs: seq<UnknownField>)
      modifies this
      ensures written == old(written) + WriteFields(fs)
      decreases fs, 0
    {
      hide WriteField;
      ghost var start := written;
      var i := 0;
      while i < |fs|
        invariant 0 <= i <= |fs|
        invariant written + WriteFields(fs[i..]) == start + WriteFields(fs)
      {
        ghost var before, rest := written, WriteFields(fs[i + 1..]);
        assert fs[i..][1..] == fs[i + 1..];
        SerializeUnknownField(fs[i]);
        assert before + (WriteField(fs[i]) + rest) == written + rest;
        i := i + 1;
      }
      assert fs[i..] == [] && written + [] == written;
    }

    method SerializeUnknownField(f: UnknownField)
      modifies this
      ensures written == old(written) + WriteField(f)
      decreases f, 1
    {
      hide Wire.WriteVarint, WritePayload, WireTypeOf;
      WriteVarint(f.number * 8 + WireTypeOf(f));
      SerializePayload(f);
    }

    method SerializePayload(f: UnknownField)
      modifies this
      ensures written == old(written) + WritePayload(f)
      decreases f, 0
    {
      hide Wire.WriteVarint, ToLittleEndian, WriteFields;
      match f {
        case Varint(_, v) => WriteVarint(v);
        case Fixed32(_, v) => WriteRaw(ToLittleEndian(v, 4));
        case Fixed64(_, v) => WriteRaw(ToLittleEndian(v, 8));
        case LengthDelimited(_, s) => WriteVarint(|s|); WriteRaw(s);
        case Group(number, fields) =>
          SerializeUnknownFields(fields);
          WriteVarint(number * 8 + WIRETYPE_END_GROUP);
      }
    }
  }

  // ------------------------------------------------------------------
  // Arrays

  /** The contents with bytes from a position on replaced. */
  ghost function Patched(s: bytes, at: nat, b: bytes): bytes
    requires at + |b| <= |s|
  {
    s[..at] + b + s[at + |b|..]
  }

  lemma PatchedTwice(s: bytes, at: nat, b: bytes, c: bytes)
    requires at + |b| + |c| <= |s|
    ensures Patched(Patched(s, at, b), at + |b|, c) == Patched(s, at, b + c)
  {
    var t := Patched(s, at, b);
    assert t[..at + |b|] == s[..at] + b;
    assert t[at + |b| + |c|..] == s[at + |b| + |c|..];
  }

  lemma PatchedNothing(s: bytes, at: nat)
    requires at <= |s|
    ensures Patched(s, at, []) == s
  {
  }

  method WriteRawToArray(b: bytes, a: array<byte>, target: nat) returns (end: nat)
    requires target + |b| <= a.Length
    modifies a
    ensures end == target + |b| && a[..] == Patched(old(a[..]), target, b)
  {
    forall i | 0 <= i < |b| { a[target + i] := b[i]; }
    end := target + |b|;
  }

  method WriteByteToArray(x: byte, a: array<byte>, target: nat)
    requires target < a.Length
    modifies a
    ensures a[..] == Patched(old(a[..]), target, [x])
  {
    a[target] := x;
  }

  lemma VarintStep(v: nat)
    ensures Wire.WriteVarint(v) == if v < 0x80 then [v] else [v % 0x80 + 0x80] + Wire.WriteVarint(v / 0x80)
  {
  }

  method WriteVarintToArray(value: nat, a: array<byte>, target: nat) returns (end: nat)
    requires target + |Wire.WriteVarint(value)| <= a.Length
    modifies a
    ensures end == target + |Wire.WriteVarint(value)|
    ensures a[..] == Patched(old(a[..]), target, Wire.WriteVarint(value))
  {
    hide Patched, Wire.WriteVarint;
    PatchedNothing(a[..], target);
    var v := value;
    end := target;
    ghost var done: bytes := [];
    while v > 0x7F
      invariant Wire.WriteVarint(value) == done + Wire.WriteVarint(v) && end == target + |done|
      invariant a[..] == Patched(old(a[..]), target, done)
    {
      VarintStep(v);
      var group: byte := v % 0x80 + 0x80;
      v := v / 0x80;
      assert done + ([group] + Wire.WriteVarint(v)) == done + [group] + Wire.WriteVarint(v);
      PatchedTwice(old(a[..]), target, done, [group]);
      WriteByteToArray(group, a, end);
      done, end := done + [group], end + 1;
    }
    VarintStep(v);
    PatchedTwice(old(a[..]), target, done, [v]);
    WriteByteToArray(v, a, end);
    end := end + 1;
  }

  method SerializeUnknownFieldsToArray(fs: seq<UnknownField>, a: array<byte>, target: nat) returns (end: nat)
    requires target + |WriteFields(fs)| <= a.Length
    modifies a
    ensures end == target + |WriteFields(fs)| && a[..] == Patched(old(a[..]), target, WriteFields(fs))
    decreases fs, 0
  {
    hide Patched, WriteField;
    var i := 0;
    end := target;
    ghost var done: bytes := [];
    PatchedNothing(a[..], target);
    while i < |fs|
      invariant 0 <= i <= |fs|
      invariant WriteFields(fs) == done + WriteFields(fs[i..]) && end == target + |done|
      invariant a[..] == Patched(old(a[..]), target, done)
    {
      assert fs[i..][1..] == fs[i + 1..];
      assert WriteFields(fs[i..]) == WriteField(fs[i]) + WriteFields(fs[i + 1..]);
      PatchedTwice(old(a[..]), target, done, WriteField(fs[i]));
      end := SerializeUnknownFieldToArray(fs[i], a, end);
      done, i := done + WriteField(fs[i]), i + 1;
    }
    assert fs[i..] == [] && done == WriteFields(fs);
  }

  method SerializeUnknownFieldToArray(f: UnknownField, a: array<byte>, target: nat) returns (end: nat)
    requires target + |WriteField(f)| <= a.Length
    modifies a
    ensures end == target + |WriteField(f)| && a[..] == Patched(old(a[..]), target, WriteField(f))
    decreases f, 1
  {
    hide Patched, Wire.WriteVarint, WritePayload, WireTypeOf;
    ghost var tag := WriteTag(f.number, WireTypeOf(f));
    PatchedTwice(a[..], target, tag, WritePayload(f));
    end := WriteVarintToArray(f.number * 8 + WireTypeOf(f), a, target);
    end := SerializePayloadToArray(f, a, end);
  }

  method SerializePayloadToArray(f: UnknownField, a: array<byte>, target: nat) returns (end: nat)
    requires target + |WritePayload(f)| <= a.Length
    modifies a
    ensures end == target + |WritePayload(f)| && a[..] == Patched(old(a[..]), target, WritePayload(f))
    decreases f, 0
  {
    hide Patched, Wire.WriteVarint, ToLittleEndian, WriteFields;
    match f {
      case Varint(_, v) => end := WriteVarintToArray(v, a, target);
      case Fixed32(_, v) => end := WriteRawToArray(ToLittleEndian(v, 4), a, target);
      case Fixed64(_, v) => end := WriteRawToArray(ToLittleEndian(v, 8), a, target);
      case LengthDelimited(_, s) =>
        PatchedTwice(a[..], target, Wire.WriteVarint(|s|), s);
        end := WriteVarintToArray(|s|, a, target);
        end := WriteRawToArray(s, a, end);
      case Group(number, fields) =>
        PatchedTwice(a[..], target, WriteFields(fields), WriteTag(number, WIRETYPE_END_GROUP));
        end := SerializeUnknownFieldsToArray(fields, a, target);
        end := WriteVarintToArray(number * 8 + WIRETYPE_END_GROUP, a, end);
    }
  }
}
