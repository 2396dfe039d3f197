/** The input stream of the parsers: a position, a limit that nested messages push and
    pop, the last tag, and the recursion depth. */
module CodedStream {
  import opened Options
  import opened Wire
  import opened UnknownFields

  /** `rest` is what is left of `b` after reading some of it. */
  predicate IsRest(rest: bytes, b: bytes) {
    |rest| <= |b| && rest == b[|b| - |rest|..]
  }

  lemma IsRestTransitive(a: bytes, b: bytes, c: bytes)
    requires IsRest(a, b) && IsRest(b, c)
    ensures IsRest(a, c)
  {
    assert b == c[|c| - |b|..];
  }

  lemma {:induction false} GroupsLeaveRest(b: bytes, most: nat)
    requires ReadGroups(b, most).Some?
    ensures IsRest(ReadGroups(b, most).value.rest, b) && |ReadGroups(b, most).value.rest| < |b|
    decreases most
  {
    if b[0] >= 0x80 { GroupsLeaveRest(b[1..], most - 1); }
  }

  class CodedInputStream {
    const buffer: bytes
    const recursionLimit: nat
    var position: nat
    var currentLimit: nat
    var lastTag: uint32
    var legitimateEnd: bool
    var depth: nat

    predicate Valid()
      reads this
    {
      position <= currentLimit <= |buffer| && depth <= recursionLimit
    }

    function Rest(): bytes
      requires Valid()
      reads this
    {
      buffer[position..currentLimit]
    }

    /** How many messages and groups may still be entered. */
    function Budget(): nat
      requires Valid()
      reads this
    {
      recursionLimit - depth
    }

    constructor (data: bytes, recursionLimit: nat)
      ensures Valid() && Rest() == data && Budget() == recursionLimit && !legitimateEnd && depth == 0
    {
      buffer, this.recursionLimit := data, recursionLimit;
      position, currentLimit, lastTag, legitimateEnd, depth := 0, |data|, 0, false, 0;
    }

    /** What a message loop reports when it returns: whether it read its fields, and in
        the stream, how it ended. */
    predicate Reports<T>(o: Outcome<T>, ok: bool, was: bool)
      requires Valid()
      reads this
    {
      match o
      case Failed => !ok
      case Finished(_) => ok && lastTag == 0 && legitimateEnd && Rest() == []
      case AtEndGroup(_, tag, rest) => ok && lastTag == tag && legitimateEnd == was && Rest() == rest
      case Stopped(_) => ok && lastTag == 0 && legitimateEnd == was
    }

    method Advance(ghost rest: bytes, count: nat)
      requires Valid() && IsRest(rest, Rest()) && count == |Rest()| - |rest|
      modifies this`position
      ensures Valid() && Rest() == rest
    {
      position := position + count;
    }

    method ReadVarint32() returns (ok: bool, value: uint32)
      requires Valid()
      modifies this`position
      ensures Valid()
      ensures match Wire.ReadVarint32(old(Rest()))
              case Some(r) => ok && value == r.value && Rest() == r.rest && IsRest(r.rest, old(Rest()))
              case None => !ok
    {
      var r := Wire.ReadVarint32(Rest());
      if r.None? { return false, 0; }
      GroupsLeaveRest(Rest(), MAX_VARINT_BYTES);
      Advance(r.value.rest, |Rest()| - |r.value.rest|);
      return true, r.value.value;
    }

    method ReadVarint64() returns (ok: bool, value: uint64)
      requires Valid()
      modifies this`position
      ensures Valid()
      ensures match Wire.ReadVarint64(old(Rest()))
              case Some(r) => ok && value == r.value && Rest() == r.rest && IsRest(r.rest, old(Rest()))
              case None => !ok
    {
      var r := Wire.ReadVarint64(Rest());
      if r.None? { return false, 0; }
      GroupsLeaveRest(Rest(), MAX_VARINT_BYTES);
      Advance(r.value.rest, |Rest()| - |r.value.rest|);
      return true, r.value.value;
    }

    method ReadLittleEndian(n: nat) returns (ok: bool, value: nat)
      requires Valid()
      modifies this`position
      ensures Valid()
      ensures match ReadFixed(old(Rest()), n)
              case Some(r) => ok && value == r.value && Rest() == r.rest && IsRest(r.rest, old(Rest()))
              case None => !ok
    {
      if currentLimit - position < n { return false, 0; }
      value := FromLittleEndian(Rest()[..n]);
      Advance(Rest()[n..], n);
      ok := true;
    }

    /** The length, then that many bytes. */
    method ReadString() returns (ok: bool, value: bytes)
      requires Valid()
      modifies this`position
      ensures Valid()
      ensures match Wire.ReadString(old(Rest()))
              case Some(r) => ok && value == r.value && Rest() == r.rest && IsRest(r.rest, old(Rest()))
              case None => !ok
    {
      ghost var start := Rest();
      var length;
      ok, length := ReadVarint32();
      if !ok { return false, []; }
      if length >= INT_LIMIT || currentLimit - position < length { return false, []; }
      value := Rest()[..length];
      IsRestTransitive(Rest()[length..], Rest(), start);
      Advance(Rest()[length..], length);
      ok := true;
    }

    /** Zero at the end of the bytes, which is a place where a message may end, and for a
        tag that is malformed or zero, which is not. */
    method ReadTag() returns (tag: uint32)
      requires Valid()
      modifies this`position, this`lastTag, this`legitimateEnd
      ensures Valid() && lastTag == tag
      ensures match Wire.ReadTag(old(Rest()))
              case AtEnd => tag == 0 && legitimateEnd && Rest() == []
              case BadTag => tag == 0 && legitimateEnd == old(legitimateEnd)
              case Tag(t, rest) => tag == t && legitimateEnd == old(legitimateEnd) && Rest() == rest
      ensures tag != 0 ==> |Rest()| < |old(Rest())| && IsRest(Rest(), old(Rest()))
    {
      if position == currentLimit {
        lastTag, legitimateEnd := 0, true;
        return 0;
      }
      TagShorter(Rest());
      var ok;
      ok, tag := ReadVarint32();
      if !ok { tag := 0; }
      lastTag := tag;
    }

    /** Consume a tag of one byte if it is the next byte.  The answer may be no although
        it is: the byte can lie beyond the block of input that is at hand. */
    method ExpectTag(expected: uint32) returns (ok: bool)
      requires Valid() && 0 < expected < 0x80
      modifies this`position
      ensures Valid()
      ensures ok ==> old(Rest()) == [expected] + Rest() && IsRest(Rest(), old(Rest()))
      ensures !ok ==> position == old(position)
    {
      var atHand: bool := *;
      ok := atHand && position < currentLimit && buffer[position] == expected;
      if ok {
        assert Rest() == [expected] + Rest()[1..];
        Advance(Rest()[1..], 1);
      }
    }

    /** Whether the end is known to be reached; the answer may be no although it is. */
    method ExpectAtEnd() returns (ok: bool)
      requires Valid()
      modifies this`lastTag, this`legitimateEnd
      ensures Valid()
      ensures ok ==> Rest() == [] && lastTag == 0 && legitimateEnd
      ensures !ok ==> lastTag == old(lastTag) && legitimateEnd == old(legitimateEnd)
    {
      var known: bool := *;
      ok := known && position == currentLimit;
      if ok { lastTag, legitimateEnd := 0, true; }
    }

    /** A new limit, never beyond the one in force; a length that does not fit an int
        leaves that one. */
    method PushLimit(length: uint32) returns (oldLimit: nat)
      requires Valid()
      modifies this`currentLimit
      ensures Valid() && oldLimit == old(currentLimit) && currentLimit <= oldLimit
      ensures Rest() == Clip(old(Rest()), length)
    {
      oldLimit := currentLimit;
      if length < INT_LIMIT && position + length < currentLimit {
        currentLimit := position + length;
      }
    }

    method PopLimit(limit: nat)
      requires Valid() && currentLimit <= limit <= |buffer|
      modifies this`currentLimit, this`legitimateEnd
      ensures Valid() && currentLimit == limit && !legitimateEnd
    {
      currentLimit, legitimateEnd := limit, false;
    }

    method IncrementRecursionDepth() returns (ok: bool)
      requires Valid()
      modifies this`depth
      ensures ok <==> old(Budget()) > 0
      ensures ok ==> Valid() && Budget() == old(Budget()) - 1 && depth == old(depth) + 1
    {
      depth := depth + 1;
      ok := depth <= recursionLimit;
    }

    method DecrementRecursionDepth()
      requires Valid()
      modifies this`depth
      ensures Valid() && depth == if old(depth) > 0 then old(depth) - 1 else 0
    {
      if depth > 0 { depth := depth - 1; }
    }
  }

  lemma TagShorter(b: bytes)
    ensures Wire.ReadTag(b).Tag? ==> |Wire.ReadTag(b).rest| < |b| && IsRest(Wire.ReadTag(b).rest, b)
  {
    if Wire.ReadTag(b).Tag? { GroupsLeaveRest(b, MAX_VARINT_BYTES); }
  }
}
