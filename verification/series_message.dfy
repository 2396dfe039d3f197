/** The EditSeries message as a value: its reader, which gives an edit whose length
    overruns the bytes whatever is there, its encoding, and how the two relate. */
module SeriesMessage {
  import opened Options
  import opened Wire
  import opened UnknownFields
  import opened EditMessage

  datatype SeriesValue = SeriesValue(user: Option<int64>, edits: seq<EditValue>, unknown: seq<UnknownField>)

  const NO_SERIES := SeriesValue(None, [], [])

  predicate IsUser(tag: uint32) { tag / 8 == 1 && tag % 8 == WIRETYPE_VARINT }

  predicate IsEdit(tag: uint32) { tag / 8 == 2 && tag % 8 == WIRETYPE_LENGTH_DELIMITED }

  // ------------------------------------------------------------------
  // Reading

  /** A nested message: its length, one level of nesting, and a parse that consumes every
      byte up to that length or up to the end, whichever is nearer. */
  function ReadMessage(b: bytes, budget: nat): (r: Option<Read<EditValue>>)
    ensures r.Some? ==> |r.value.rest| < |b|
  {
    match ReadVarint32(b)
    case Some(r) =>
      VarintExtends(b, []);
      var data := Clip(r.rest, r.value);
      if budget == 0 then None
      else (match Merge(NO_EDIT, data, budget - 1)
        case Finished(m) => Some(Read(m, r.rest[|data|..]))
        case _ => None)
    case None => None
  }

  function ReadSeriesField(m: SeriesValue, tag: uint32, b: bytes, budget: nat): (r: Option<Read<SeriesValue>>)
    ensures r.Some? ==> |r.value.rest| <= |b|
  {
    if IsUser(tag) then
      match ReadVarint64(b)
      case Some(r) => VarintExtends(b, []); Some(Read(m.(user := Some(ToInt64(r.value))), r.rest))
      case None => None
    else if IsEdit(tag) then
      match ReadMessage(b, budget)
      case Some(r) => Some(Read(m.(edits := m.edits + [r.value]), r.rest))
      case None => None
    else
      match SkipField(b, tag, budget)
      case Some(r) => Some(Read(m.(unknown := m.unknown + [r.value]), r.rest))
      case None => None
  }

  function MergeSeries(m: SeriesValue, b: bytes, budget: nat): Outcome<SeriesValue>
    decreases |b|
  {
    match ReadTag(b)
    case AtEnd => Finished(m)
    case BadTag => Stopped(m)
    case Tag(tag, rest) =>
      TagExtends(b, []);
      if tag % 8 == WIRETYPE_END_GROUP then AtEndGroup(m, tag, rest)
      else match ReadSeriesField(m, tag, rest, budget)
        case Some(r) => MergeSeries(r.value, r.rest, budget)
        case None => Failed
  }

  // ------------------------------------------------------------------
  // Merging

  function MergeSeriesValues(a: SeriesValue, b: SeriesValue): SeriesValue {
    SeriesValue(Or(a.user, b.user), a.edits + b.edits, a.unknown + b.unknown)
  }

  function MergedSeries(m: SeriesValue, o: Outcome<SeriesValue>): Outcome<SeriesValue> {
    match o
    case Finished(v) => Finished(MergeSeriesValues(m, v))
    case AtEndGroup(v, tag, rest) => AtEndGroup(MergeSeriesValues(m, v), tag, rest)
    case Stopped(v) => Stopped(MergeSeriesValues(m, v))
    case Failed => Failed
  }

  lemma FieldIntoIsMerge(a: SeriesValue, m: SeriesValue, tag: uint32, b: bytes, budget: nat)
    ensures ReadSeriesField(MergeSeriesValues(a, m), tag, b, budget) ==
            match ReadSeriesField(m, tag, b, budget)
            case Some(r) => Some(Read(MergeSeriesValues(a, r.value), r.rest))
            case None => None
  {
    hide ReadMessage, SkipField, ReadVarint64, ToInt64;
    if IsUser(tag) {}
    else if IsEdit(tag) {
      if ReadMessage(b, budget).Some? {
        var e := ReadMessage(b, budget).value.value;
        assert a.edits + m.edits + [e] == a.edits + (m.edits + [e]);
      }
    } else if SkipField(b, tag, budget).Some? {
      var f := SkipField(b, tag, budget).value.value;
      assert a.unknown + m.unknown + [f] == a.unknown + (m.unknown + [f]);
    }
  }

  /** Parsing into a message is parsing on its own and merging the result in. */
  lemma {:induction false} SeriesIntoIsMerge(a: SeriesValue, m: SeriesValue, b: bytes, budget: nat)
    ensures MergeSeries(MergeSeriesValues(a, m), b, budget) == MergedSeries(a, MergeSeries(m, b, budget))
    decreases |b|
  {
    hide ReadSeriesField, MergeSeriesValues;
    if ReadTag(b).Tag? {
      var tag, rest := ReadTag(b).tag, ReadTag(b).rest;
      TagExtends(b, []);
      FieldIntoIsMerge(a, m, tag, rest, budget);
      if tag % 8 != WIRETYPE_END_GROUP && ReadSeriesField(m, tag, rest, budget).Some? {
        var r := ReadSeriesField(m, tag, rest, budget).value;
        SeriesIntoIsMerge(a, r.value, r.rest, budget);
      }
    }
  }

  lemma MergeNoSeries(m: SeriesValue)
    ensures MergeSeriesValues(m, NO_SERIES) == m
  {
    assert m.edits + [] == m.edits && m.unknown + [] == m.unknown;
  }

  // ------------------------------------------------------------------
  // Concatenation, and the edit that overruns

  /** The length of the nested message is beyond the bytes that are left. */
  predicate LengthOverruns(b: bytes) {
    match ReadVarint32(b)
    case Some(r) => r.value >= INT_LIMIT || r.value > |r.rest|
    case None => false
  }

  /** Some edit in these bytes has a length that is beyond their end. */
  predicate Overruns(b: bytes, budget: nat)
    decreases |b|
  {
    match ReadTag(b)
    case Tag(tag, rest) =>
      TagExtends(b, []);
      tag % 8 != WIRETYPE_END_GROUP
      && ((IsEdit(tag) && LengthOverruns(rest))
          || match ReadSeriesField(NO_SERIES, tag, rest, budget)
             case Some(r) => Overruns(r.rest, budget)
             case None => false)
    case _ => false
  }

  lemma MessageReadExtends(b: bytes, budget: nat, more: bytes)
    requires ReadMessage(b, budget).Some? && !LengthOverruns(b)
    ensures ReadMessage(b + more, budget)
         == Some(Read(ReadMessage(b, budget).value.value, ReadMessage(b, budget).value.rest + more))
  {
    hide Merge;
    VarintExtends(b, more);
    var r := ReadVarint32(b).value;
    assert Clip(r.rest + more, r.value) == Clip(r.rest, r.value);
    assert (r.rest + more)[r.value..] == r.rest[r.value..] + more;
  }

  lemma FieldExtends(m: SeriesValue, tag: uint32, b: bytes, budget: nat, more: bytes)
    requires ReadSeriesField(m, tag, b, budget).Some? && !(IsEdit(tag) && LengthOverruns(b))
    ensures ReadSeriesField(m, tag, b + more, budget)
         == Some(Read(ReadSeriesField(m, tag, b, budget).value.value,
                      ReadSeriesField(m, tag, b, budget).value.rest + more))
  {
    hide ReadMessage, LengthOverruns;
    if IsUser(tag) { VarintExtends(b, more); }
    else if IsEdit(tag) { MessageReadExtends(b, budget, more); }
    else { SkipExtends(b, tag, budget, more); }
  }

  lemma {:induction false} SeriesExtends(m: SeriesValue, b: bytes, budget: nat, more: bytes)
    requires MergeSeries(m, b, budget).Finished? && !Overruns(b, budget)
    ensures MergeSeries(m, b + more, budget) == MergeSeries(MergeSeries(m, b, budget).value, more, budget)
    decreases |b|
  {
    hide ReadSeriesField, LengthOverruns;
    if b == [] {
      assert b + more == more;
    } else {
      var tag, rest := ReadTag(b).tag, ReadTag(b).rest;
      TagExtends(b, more);
      FieldIntoIsMerge(m, NO_SERIES, tag, rest, budget);
      MergeNoSeries(m);
      FieldExtends(m, tag, rest, budget, more);
      var r := ReadSeriesField(m, tag, rest, budget).value;
      SeriesExtends(r.value, r.rest, budget, more);
    }
  }

  /** Bytes after which the law fails: a user number that differs. */
  function Spoiler(m: SeriesValue): bytes {
    if m.user == Some(0) then [8, 1] else [8, 0]
  }

  function SpoilerUser(m: SeriesValue): int64 {
    if m.user == Some(0) then 1 else 0
  }

  lemma SpoilerParses(m: SeriesValue, budget: nat)
    ensures MergeSeries(NO_SERIES, Spoiler(m), budget) == Finished(NO_SERIES.(user := Some(SpoilerUser(m))))
  {
    var v := SpoilerUser(m);
    SmallVarint(8);
    SmallVarint(v);
    assert Spoiler(m) == WriteVarint(8) + WriteVarint(v);
    TagRoundTrip(8, WriteVarint(v));
    assert WriteVarint(v) + [] == WriteVarint(v);
    VarintRoundTrip(v, []);
    hide ReadTag, ReadVarint64, WriteVarint;
    assert ReadTag([]) == AtEnd by { EmptyAtEnd(); }
  }

  lemma EmptyAtEnd()
    ensures ReadTag([]) == AtEnd
  {
  }

  /** The one byte that a spoiler can leave behind finishes no message. */
  lemma LeftoverNotFinished(m: SeriesValue, x: byte, budget: nat)
    requires x == 0 || x == 1
    ensures !MergeSeries(m, [x], budget).Finished?
  {
    assert [x][1..] == [];
    assert ReadGroups([x], MAX_VARINT_BYTES) == Some(Read(x, []));
    assert ReadTag([x]) == if x == 0 then BadTag else Tag(1, []);
  }

  /** What a nested message that overruns takes of two more bytes: all of them, or all but
      the last. */
  lemma OverrunTakes(b: bytes, budget: nat, s: bytes)
    requires LengthOverruns(b) && |s| == 2 && ReadMessage(b + s, budget).Some?
    ensures var rest := ReadMessage(b + s, budget).value.rest; rest == [] || rest == s[1..]
  {
    hide Merge;
    VarintExtends(b, s);
    var r := ReadVarint32(b).value;
    if r.value < INT_LIMIT && r.value <= |r.rest + s| {
      assert (r.rest + s)[r.value..] == s[r.value - |r.rest|..];
    }
  }

  lemma {:induction false} OverrunSpoils(m: SeriesValue, a: bytes, budget: nat, x: byte)
    requires MergeSeries(m, a, budget).Finished? && Overruns(a, budget) && (x == 0 || x == 1)
    ensures var o := MergeSeries(m, a + [8, x], budget);
            o.Finished? ==> o.value.user == MergeSeries(m, a, budget).value.user
    decreases |a|
  {
    hide ReadMessage, LengthOverruns;
    var tag, rest := ReadTag(a).tag, ReadTag(a).rest;
    TagExtends(a, [8, x]);
    if IsEdit(tag) && LengthOverruns(rest) {
      OverrunEndsBytes(rest, budget);
      if ReadMessage(rest + [8, x], budget).Some? {
        OverrunTakes(rest, budget, [8, x]);
        var r := ReadMessage(rest + [8, x], budget).value;
        var more := m.(edits := m.edits + [r.value]);
        LeftoverNotFinished(more, x, budget);
        assert [8, x][1..] == [x];
      }
    } else {
      FieldIntoIsMerge(m, NO_SERIES, tag, rest, budget);
      MergeNoSeries(m);
      FieldExtends(m, tag, rest, budget, [8, x]);
      hide ReadSeriesField;
      var r := ReadSeriesField(m, tag, rest, budget).value;
      OverrunSpoils(r.value, r.rest, budget, x);
    }
  }

  lemma OverrunEndsBytes(b: bytes, budget: nat)
    requires LengthOverruns(b) && ReadMessage(b, budget).Some?
    ensures ReadMessage(b, budget).value.rest == []
  {
    hide Merge;
  }

  /** The law of concatenation for bytes `a` and `b`: parsing them as one is parsing each
      and merging. */
  predicate Concatenates(a: bytes, b: bytes, budget: nat)
    requires MergeSeries(NO_SERIES, a, budget).Finished? && MergeSeries(NO_SERIES, b, budget).Finished?
  {
    MergeSeries(NO_SERIES, a + b, budget)
      == Finished(MergeSeriesValues(MergeSeries(NO_SERIES, a, budget).value, MergeSeries(NO_SERIES, b, budget).value))
  }

  ghost predicate AlwaysConcatenates(a: bytes, budget: nat)
    requires MergeSeries(NO_SERIES, a, budget).Finished?
  {
    forall b :: MergeSeries(NO_SERIES, b, budget).Finished? ==> Concatenates(a, b, budget)
  }

  /** Fully consumed bytes can be followed by any others exactly when no edit in them
      overruns.  The reader does not refuse such an edit: it takes what is there, and
      takes more when more follows. */
  lemma ConcatenatesExactly(a: bytes, budget: nat)
    requires MergeSeries(NO_SERIES, a, budget).Finished?
    ensures AlwaysConcatenates(a, budget) <==> !Overruns(a, budget)
  {
    hide MergeSeries, Overruns;
    var v := MergeSeries(NO_SERIES, a, budget).value;
    if Overruns(a, budget) {
      SpoilerParses(v, budget);
      OverrunSpoils(NO_SERIES, a, budget, SpoilerUser(v));
      assert Spoiler(v) == [8, SpoilerUser(v)];
      assert !Concatenates(a, Spoiler(v), budget);
    } else {
      forall b | MergeSeries(NO_SERIES, b, budget).Finished? ensures Concatenates(a, b, budget) {
        SeriesExtends(NO_SERIES, a, budget, b);
        MergeNoSeries(v);
        SeriesIntoIsMerge(v, NO_SERIES, b, budget);
      }
    }
  }

  /** An edit that claims five bytes and has none is accepted at the end of the bytes,
      and then swallows what is appended. */
  lemma OverrunExample(budget: nat)
    requires budget > 0
    ensures MergeSeries(NO_SERIES, [18, 5], budget) == Finished(NO_SERIES.(edits := [NO_EDIT]))
    ensures Overruns([18, 5], budget)
    ensures MergeSeries(NO_SERIES, [18, 5, 8, 1], budget)
         == Finished(NO_SERIES.(edits := [NO_EDIT.(kind := Some(1))]))
  {
    hide Merge, MergeSeries, Overruns, ReadTag;
    EmptyAtEnd();
    EmptyEdit(budget - 1);
    OneByteOverrun([], NO_EDIT, budget);
    assert [18, 5] + [] == [18, 5];
    TypeOnlyEncoded();
    EditRoundTrip(NO_EDIT.(kind := Some(1)), budget - 1);
    OneByteOverrun([8, 1], NO_EDIT.(kind := Some(1)), budget);
    assert [18, 5] + [8, 1] == [18, 5, 8, 1];
  }

  lemma EmptyEdit(budget: nat)
    ensures Merge(NO_EDIT, [], budget) == Finished(NO_EDIT)
  {
  }

  lemma TypeOnlyEncoded()
    ensures Encode(NO_EDIT.(kind := Some(1))) == [8, 1]
    ensures Sane(NO_EDIT.(kind := Some(1)), 0)
  {
    SmallVarint(1);
  }

  lemma OneByteOverrun(data: bytes, e: EditValue, budget: nat)
    requires budget > 0 && |data| < 5 && Merge(NO_EDIT, data, budget - 1) == Finished(e)
    ensures MergeSeries(NO_SERIES, [18, 5] + data, budget) == Finished(NO_SERIES.(edits := [e]))
    ensures Overruns([18, 5] + data, budget)
  {
    hide Merge;
    var b := [18, 5] + data;
    assert b[1..] == [5] + data && b[1..][1..] == data;
    assert ReadGroups(b, MAX_VARINT_BYTES) == Some(Read(18, b[1..]));
    assert ReadGroups(b[1..], MAX_VARINT_BYTES) == Some(Read(5, data));
    assert ReadMessage(b[1..], budget) == Some(Read(e, []));
    EmptyAtEnd();
    hide ReadMessage;
    assert NO_SERIES.edits + [e] == [e];
    assert ReadSeriesField(NO_SERIES, 18, b[1..], budget) == Some(Read(NO_SERIES.(edits := [e]), []));
    assert MergeSeries(NO_SERIES.(edits := [e]), [], budget) == Finished(NO_SERIES.(edits := [e]));
  }

  // ------------------------------------------------------------------
  // Writing

  function WriteEdit(e: EditValue): bytes {
    [18] + WriteString(Encode(e))
  }

  function WriteEdits(es: seq<EditValue>): bytes {
    if es == [] then [] else WriteEdit(es[0]) + WriteEdits(es[1..])
  }

  function WriteUser(user: Option<int64>): bytes {
    if user.Some? then [8] + WriteVarint(ToUInt64(user.value)) else []
  }

  function EncodeSeries(m: SeriesValue): bytes {
    WriteUser(m.user) + WriteEdits(m.edits) + WriteFields(m.unknown)
  }

  predicate ForeignToSeries(f: UnknownField) {
    !(f.Varint? && f.number == 1) && !(f.LengthDelimited? && f.number == 2)
  }

  predicate AllForeignToSeries(fs: seq<UnknownField>) {
    fs == [] || (ForeignToSeries(fs[0]) && AllForeignToSeries(fs[1..]))
  }

  /** What a parse of a nested edit can produce. */
  predicate SaneEdit(e: EditValue, budget: nat) {
    budget > 0 && Sane(e, budget - 1)
  }

  /** What a parse can produce. */
  predicate SaneSeries(m: SeriesValue, budget: nat) {
    && (forall i :: 0 <= i < |m.edits| ==> SaneEdit(m.edits[i], budget))
    && AllForeignToSeries(m.unknown) && AllWritable(m.unknown, budget)
  }

  /** The encoded edits have lengths that fit an int. */
  predicate EditsFit(es: seq<EditValue>) {
    forall i :: 0 <= i < |es| ==> |Encode(es[i])| < INT_LIMIT
  }

  /** ByteSize */
  function SeriesSize(m: SeriesValue, ghost budget: nat): nat
    requires SaneSeries(m, budget) && EditsFit(m.edits)
  {
    (if m.user.Some? then 1 + VarintSize64(ToUInt64(m.user.value)) else 0)
    + EditsSize(m.edits, budget) + FieldsSize(m.unknown, budget)
  }

  /** A tag byte, the size of the length and the length, for each edit. */
  function EditsSize(es: seq<EditValue>, ghost budget: nat): nat
    requires (forall i :: 0 <= i < |es| ==> SaneEdit(es[i], budget)) && EditsFit(es)
  {
    if es == [] then 0
    else
      assert SaneEdit(es[0], budget);
      EditSizeExact(es[0], budget - 1);
      var size := Size(es[0], budget - 1);
      1 + VarintSize32(size) + size + EditsSize(es[1..], budget)
  }

  lemma {:induction false} EditsSizeExact(es: seq<EditValue>, budget: nat)
    requires (forall i :: 0 <= i < |es| ==> SaneEdit(es[i], budget)) && EditsFit(es)
    ensures |WriteEdits(es)| == EditsSize(es, budget)
  {
    hide Encode, Size;
    if es != [] {
      EditSizeExact(es[0], budget - 1);
      VarintSizesExact(|Encode(es[0])|);
      EditsSizeExact(es[1..], budget);
    }
  }

  lemma EditsSizeNext(es: seq<EditValue>, i: nat, budget: nat)
    requires (forall k :: 0 <= k < |es| ==> SaneEdit(es[k], budget)) && EditsFit(es) && i < |es|
    ensures EditsSize(es[i..], budget)
         == 1 + VarintSize32(|Encode(es[i])|) + |Encode(es[i])| + EditsSize(es[i + 1..], budget)
  {
    hide Encode, Size;
    assert es[i..][1..] == es[i + 1..];
    EditSizeExact(es[i], budget - 1);
  }

  lemma EditsSizeNone(es: seq<EditValue>, budget: nat)
    ensures EditsSize(es[|es|..], budget) == 0
  {
  }

  /** The size is the number of bytes written. */
  lemma SeriesSizeExact(m: SeriesValue, budget: nat)
    requires SaneSeries(m, budget) && EditsFit(m.edits)
    ensures |EncodeSeries(m)| == SeriesSize(m, budget)
  {
    if m.user.Some? { VarintSizesExact(ToUInt64(m.user.value)); }
    EditsSizeExact(m.edits, budget);
    FieldsSizeExact(m.unknown, budget);
  }

  // ------------------------------------------------------------------
  // Round trip

  lemma UserRoundTrip(m: SeriesValue, user: int64, rest: bytes, budget: nat)
    ensures MergeSeries(m, WriteUser(Some(user)) + rest, budget) == MergeSeries(m.(user := Some(user)), rest, budget)
  {
    var v := ToUInt64(user);
    SmallVarint(8);
    assert WriteUser(Some(user)) + rest == WriteVarint(8) + (WriteVarint(v) + rest);
    TagRoundTrip(8, WriteVarint(v) + rest);
    VarintRoundTrip(v, rest);
    CastsInvert(0, user, 0, 0);
    hide ReadTag, ReadVarint64, WriteVarint;
  }

  lemma MessageRead(data: bytes, e: EditValue, rest: bytes, budget: nat)
    requires |data| < INT_LIMIT && budget > 0 && Merge(NO_EDIT, data, budget - 1) == Finished(e)
    ensures ReadMessage(WriteString(data) + rest, budget) == Some(Read(e, rest))
  {
    hide Merge, ReadVarint32, WriteString;
    LengthRead(data, rest);
  }

  lemma MessageRoundTrip(e: EditValue, rest: bytes, budget: nat)
    requires SaneEdit(e, budget) && |Encode(e)| < INT_LIMIT
    ensures ReadMessage(WriteString(Encode(e)) + rest, budget) == Some(Read(e, rest))
  {
    hide Encode, Merge, ReadMessage, WriteString, Sane;
    EditRoundTrip(e, budget - 1);
    MessageRead(Encode(e), e, rest, budget);
  }

  lemma {:induction false} EditsRoundTrip(m: SeriesValue, es: seq<EditValue>, rest: bytes, budget: nat)
    requires (forall i :: 0 <= i < |es| ==> SaneEdit(es[i], budget)) && EditsFit(es)
    ensures MergeSeries(m, WriteEdits(es) + rest, budget)
         == MergeSeries(m.(edits := m.edits + es), rest, budget)
    decreases es
  {
    hide Encode, ReadMessage, WriteString, ReadTag, SaneEdit;
    if es == [] {
      assert WriteEdits(es) + rest == rest && m.edits + es == m.edits;
    } else {
      var more := WriteEdits(es[1..]) + rest;
      SmallVarint(18);
      assert WriteEdits(es) + rest == WriteVarint(18) + (WriteString(Encode(es[0])) + more);
      TagRoundTrip(18, WriteString(Encode(es[0])) + more);
      MessageRoundTrip(es[0], more, budget);
      EditsRoundTrip(m.(edits := m.edits + [es[0]]), es[1..], rest, budget);
      assert m.edits + [es[0]] + es[1..] == m.edits + es;
    }
  }

  lemma ForeignFieldRead(m: SeriesValue, f: UnknownField, b: bytes, budget: nat)
    requires Writable(f, budget) && ForeignToSeries(f)
    ensures ReadSeriesField(m, f.number * 8 + WireTypeOf(f), b, budget) ==
            match SkipField(b, f.number * 8 + WireTypeOf(f), budget)
            case Some(r) => Some(Read(m.(unknown := m.unknown + [r.value]), r.rest))
            case None => None
  {
    hide SkipField;
    TagParts(f.number, WireTypeOf(f));
  }

  /** Every field but the user and the edits is kept as it is. */
  lemma OthersKept(m: SeriesValue, f: UnknownField, rest: bytes, budget: nat)
    requires Writable(f, budget) && !(f.Varint? && f.number == 1) && !(f.LengthDelimited? && f.number == 2)
    ensures MergeSeries(m, WriteField(f) + rest, budget)
         == MergeSeries(m.(unknown := m.unknown + [f]), rest, budget)
  {
    hide SkipField, ReadTag, Writable, WritePayload, ReadSeriesField, MergeSeries, WriteVarint;
    var tag := f.number * 8 + WireTypeOf(f);
    WritableTag(f, budget);
    assert WriteField(f) + rest == WriteVarint(tag) + (WritePayload(f) + rest);
    TagRoundTrip(tag, WritePayload(f) + rest);
    FieldRoundTrip(f, budget, rest);
    ForeignFieldRead(m, f, WritePayload(f) + rest, budget);
    OneFieldRead(m, WriteField(f) + rest, m.(unknown := m.unknown + [f]), rest, budget);
  }

  lemma OneFieldRead(m: SeriesValue, b: bytes, after: SeriesValue, rest: bytes, budget: nat)
    requires ReadTag(b).Tag? && ReadTag(b).tag % 8 != WIRETYPE_END_GROUP
    requires ReadSeriesField(m, ReadTag(b).tag, ReadTag(b).rest, budget) == Some(Read(after, rest))
    ensures MergeSeries(m, b, budget) == MergeSeries(after, rest, budget)
  {
    hide ReadTag, ReadSeriesField;
  }

  lemma {:induction false} ForeignRoundTrip(m: SeriesValue, fs: seq<UnknownField>, budget: nat)
    requires AllWritable(fs, budget) && AllForeignToSeries(fs)
    ensures MergeSeries(m, WriteFields(fs), budget) == Finished(m.(unknown := m.unknown + fs))
    decreases fs
  {
    hide Writable, WriteField, MergeSeries;
    if fs == [] {
      EmptyIsFinished(m, budget);
      assert m.unknown + fs == m.unknown;
    } else {
      OthersKept(m, fs[0], WriteFields(fs[1..]), budget);
      ForeignRoundTrip(m.(unknown := m.unknown + [fs[0]]), fs[1..], budget);
      assert m.unknown + [fs[0]] + fs[1..] == m.unknown + fs;
    }
  }

  lemma EmptyIsFinished(m: SeriesValue, budget: nat)
    ensures MergeSeries(m, [], budget) == Finished(m)
  {
    EmptyAtEnd();
  }

  /** An encoded series is parsed back. */
  lemma SeriesRoundTrip(m: SeriesValue, budget: nat)
    requires SaneSeries(m, budget) && EditsFit(m.edits)
    ensures MergeSeries(NO_SERIES, EncodeSeries(m), budget) == Finished(m)
  {
    hide MergeSeries, WriteEdits, WriteFields;
    var rest := WriteEdits(m.edits) + WriteFields(m.unknown);
    var withUser := NO_SERIES.(user := m.user);
    assert EncodeSeries(m) == WriteUser(m.user) + rest;
    if m.user.Some? { UserRoundTrip(NO_SERIES, m.user.value, rest, budget); }
    else { assert EncodeSeries(m) == rest; }
    EditsRoundTrip(withUser, m.edits, WriteFields(m.unknown), budget);
    assert withUser.edits + m.edits == m.edits;
    ForeignRoundTrip(withUser.(edits := m.edits), m.unknown, budget);
    assert withUser.unknown + m.unknown == m.unknown;
  }

  // ------------------------------------------------------------------
  // What the bytes of each field do

  /** The user number. */
  lemma UserParsed(m: SeriesValue, user: int64, rest: bytes, budget: nat)
    ensures MergeSeries(m, [8] + WriteVarint(ToUInt64(user)) + rest, budget)
         == MergeSeries(m.(user := Some(user)), rest, budget)
  {
    hide MergeSeries, WriteVarint;
    UserRoundTrip(m, user, rest, budget);
  }

  /** An edit, whatever bytes it was parsed from. */
  lemma EditParsed(m: SeriesValue, data: bytes, e: EditValue, rest: bytes, budget: nat)
    requires |data| < INT_LIMIT && budget > 0 && Merge(NO_EDIT, data, budget - 1) == Finished(e)
    ensures MergeSeries(m, [18] + WriteString(data) + rest, budget)
         == MergeSeries(m.(edits := m.edits + [e]), rest, budget)
  {
    hide Merge, ReadMessage, WriteString, ReadTag, WriteVarint;
    SmallVarint(18);
    assert [18] + WriteString(data) + rest == WriteVarint(18) + (WriteString(data) + rest);
    TagRoundTrip(18, WriteString(data) + rest);
    MessageRead(data, e, rest, budget);
  }

  /** Without budget no edit is read. */
  lemma EditRefused(m: SeriesValue, data: bytes)
    ensures MergeSeries(m, [18] + data, 0) == Failed
  {
    hide ReadVarint32, ReadTag;
    SmallVarint(18);
    TagRoundTrip(18, data);
  }

  lemma ReadFieldSane(m: SeriesValue, tag: uint32, b: bytes, budget: nat)
    requires SaneSeries(m, budget) && tag != 0 && ReadSeriesField(m, tag, b, budget).Some?
    ensures SaneSeries(ReadSeriesField(m, tag, b, budget).value.value, budget)
  {
    hide SkipField, Merge, ReadVarint32, ReadVarint64, Sane;
    if IsUser(tag) {}
    else if IsEdit(tag) {
      var r := ReadVarint32(b).value;
      ParsedSane(NO_EDIT, Clip(r.rest, r.value), budget - 1) by { NothingSane(budget - 1); }
    } else {
      SkippedWritable(b, tag, budget);
      SkippedForeign(b, tag, budget);
      var f := SkipField(b, tag, budget).value.value;
      WritableAppend(m.unknown, [f], budget);
      ForeignToSeriesMore(m.unknown, f);
      assert [f][1..] == [];
    }
  }

  lemma NothingSane(budget: nat)
    ensures Sane(NO_EDIT, budget)
  {
  }

  lemma SkippedForeign(b: bytes, tag: uint32, budget: nat)
    requires SkipField(b, tag, budget).Some? && !IsUser(tag) && !IsEdit(tag)
    ensures ForeignToSeries(SkipField(b, tag, budget).value.value)
  {
  }

  lemma ForeignToSeriesMore(fs: seq<UnknownField>, f: UnknownField)
    requires AllForeignToSeries(fs) && ForeignToSeries(f)
    ensures AllForeignToSeries(fs + [f])
    decreases fs
  {
    if fs == [] { assert [f][1..] == [] && fs + [f] == [f]; }
    else { assert (fs + [f])[1..] == fs[1..] + [f]; ForeignToSeriesMore(fs[1..], f); }
  }

  lemma {:induction false} ParsedSeriesSane(m: SeriesValue, b: bytes, budget: nat)
    requires SaneSeries(m, budget) && !MergeSeries(m, b, budget).Failed?
    ensures SaneSeries(MergeSeries(m, b, budget).value, budget)
    decreases |b|
  {
    hide ReadSeriesField, SaneSeries;
    if ReadTag(b).Tag? && ReadTag(b).tag % 8 != WIRETYPE_END_GROUP {
      var tag, rest := ReadTag(b).tag, ReadTag(b).rest;
      TagExtends(b, []);
      ReadFieldSane(m, tag, rest, budget);
      var r := ReadSeriesField(m, tag, rest, budget).value;
      ParsedSeriesSane(r.value, r.rest, budget);
    }
  }

  /** Every edit that was read from `b` can be encoded with an int for its length. */
  lemma {:induction false} ParsedFits(m: SeriesValue, b: bytes, budget: nat)
    requires EditsFit(m.edits) && |b| < INT_LIMIT / 2 && MergeSeries(m, b, budget).Finished?
    ensures EditsFit(MergeSeries(m, b, budget).value.edits)
    decreases |b|
  {
    hide ReadSeriesField, Encode;
    if ReadTag(b).Tag? {
      var tag, rest := ReadTag(b).tag, ReadTag(b).rest;
      TagExtends(b, []);
      ReadFieldFits(m, tag, rest, budget);
      var r := ReadSeriesField(m, tag, rest, budget).value;
      ParsedFits(r.value, r.rest, budget);
    }
  }

  lemma ReadFieldFits(m: SeriesValue, tag: uint32, b: bytes, budget: nat)
    requires EditsFit(m.edits) && |b| < INT_LIMIT / 2 && ReadSeriesField(m, tag, b, budget).Some?
    ensures EditsFit(ReadSeriesField(m, tag, b, budget).value.value.edits)
  {
    hide Encode, Merge, SkipField, ReadVarint32, ReadVarint64;
    if !IsUser(tag) && IsEdit(tag) {
      VarintNotLonger(b);
      var r := ReadVarint32(b).value;
      ReencodedSize(Clip(r.rest, r.value), budget - 1);
    }
  }

  /** Parsing what was encoded from a parsed series gives the series again, with its
      unknown fields, as long as the lengths of its edits fit an int. */
  lemma SeriesReparses(b: bytes, budget: nat)
    requires MergeSeries(NO_SERIES, b, budget).Finished?
    requires EditsFit(MergeSeries(NO_SERIES, b, budget).value.edits)
    ensures MergeSeries(NO_SERIES, EncodeSeries(MergeSeries(NO_SERIES, b, budget).value), budget)
         == MergeSeries(NO_SERIES, b, budget)
  {
    ParsedSeriesSane(NO_SERIES, b, budget);
    SeriesRoundTrip(MergeSeries(NO_SERIES, b, budget).value, budget);
  }

  /** They do fit when the bytes were fewer than half of what an int can count, because
      encoding what was parsed takes at most twice as many. */
  lemma SeriesParseEncodeParse(b: bytes, budget: nat)
    requires |b| < INT_LIMIT / 2 && MergeSeries(NO_SERIES, b, budget).Finished?
    ensures MergeSeries(NO_SERIES, EncodeSeries(MergeSeries(NO_SERIES, b, budget).value), budget)
         == MergeSeries(NO_SERIES, b, budget)
  {
    ParsedFits(NO_SERIES, b, budget);
    SeriesReparses(b, budget);
  }
}
