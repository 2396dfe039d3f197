/** Parsing, sizing and writing an extension set as a message set. */
module MessageSets {
  import opened Options
  import opened Wire
  import opened UnknownFields
  import opened CodedStream
  import opened CodedOutput
  import opened Primitives
  import opened ExtensionValues
  import opened ExtensionSizes
  import opened ExtensionSlots
  import opened ExtensionSets
  import opened ExtensionOutput
  import opened ExtensionArray
  import opened MessageSetValues
  import WireFormat

  /** Items, and fields in the ordinary format, up to the end of the bytes. */
  method ParseMessageSet(extensions: ExtensionSet, input: CodedInputStream) returns (ok: bool)
    requires extensions.Valid() && input.Valid() && !input.legitimateEnd
    modifies extensions, input`position, input`lastTag, input`legitimateEnd, input`depth, input`currentLimit
    ensures var o := ReadSet(extensions.reg, extensions.t, old(extensions.Fields()), old(input.Rest()),
                             old(input.Budget()));
            if o.Failed? then !ok
            else extensions.Valid() && input.Valid() && input.Reports(o, ok, false) && extensions.Fields() == o.value
  {
    hide ExtensionSet.Valid, ExtensionSet.Fields, ReadSet, ReadItem, ReadField, Wire.ReadTag;
    ghost var reg, t, budget := extensions.reg, extensions.t, input.Budget();
    ghost var whole := ReadSet(reg, t, extensions.Fields(), input.Rest(), budget);
    while true
      invariant extensions.Valid() && input.Valid() && input.Budget() == budget && !input.legitimateEnd
      invariant whole == ReadSet(reg, t, extensions.Fields(), input.Rest(), budget)
      decreases |input.Rest()|
    {
      SetUnfolds(reg, t, extensions.Fields(), input.Rest(), budget);
      var tag := input.ReadTag();
      if tag == 0 { return true; }
      if tag == ITEM_START_TAG { ok := ParseMessageSetItem(extensions, input); }
      else { ok := extensions.ParseField(tag, input); }
      if !ok { return; }
    }
  }

  /** What the loop does after a field or an item. */
  function GoOn(reg: Registry, t: nat, r: Option<Read<seq<Field>>>, budget: nat): Outcome<seq<Field>> {
    match r
    case Some(f) => ReadSet(reg, t, f.value, f.rest, budget)
    case None => Failed
  }

  function AfterTag(reg: Registry, t: nat, fs: seq<Field>, next: NextTag, budget: nat): Outcome<seq<Field>> {
    match next
    case AtEnd => Finished(fs)
    case BadTag => Stopped(fs)
    case Tag(tag, rest) =>
      if tag == ITEM_START_TAG then GoOn(reg, t, ReadItem(reg, t, fs, 0, [], rest, budget), budget)
      else GoOn(reg, t, ReadField(reg, t, fs, tag, rest, budget), budget)
  }

  lemma SetUnfolds(reg: Registry, t: nat, fs: seq<Field>, b: bytes, budget: nat)
    ensures ReadSet(reg, t, fs, b, budget) == AfterTag(reg, t, fs, Wire.ReadTag(b), budget)
  {
    hide ReadItem, ReadField, Wire.ReadVarint32;
  }

  /** One item: a message is read at once when the type number is known, and kept until
      then otherwise. */
  method ParseMessageSetItem(extensions: ExtensionSet, input: CodedInputStream) returns (ok: bool)
    requires extensions.Valid() && input.Valid() && !input.legitimateEnd
    modifies extensions, input`position, input`lastTag, input`legitimateEnd, input`depth, input`currentLimit
    ensures match ReadItem(extensions.reg, extensions.t, old(extensions.Fields()), 0, [], old(input.Rest()),
                           old(input.Budget()))
            case Some(r) => ok && extensions.Valid() && input.Valid() && extensions.Fields() == r.value
              && input.Rest() == r.rest
            case None => !ok
    ensures ok ==> input.depth == old(input.depth) && !input.legitimateEnd
  {
    hide ExtensionSet.Valid, ExtensionSet.Fields, ReadItem, ItemStep;
    ghost var reg, t, budget := extensions.reg, extensions.t, input.Budget();
    ghost var whole := ReadItem(reg, t, extensions.Fields(), 0, [], input.Rest(), budget);
    var fakeTag: uint32, messageData: bytes := 0, [];
    while true
      invariant extensions.Valid() && input.Valid() && input.Budget() == budget && !input.legitimateEnd
      invariant whole == ReadItem(reg, t, extensions.Fields(), fakeTag, messageData, input.Rest(), budget)
      decreases |input.Rest()|
    {
      ItemUnfolds(reg, t, extensions.Fields(), fakeTag, messageData, input.Rest(), budget);
      var end;
      ok, end, fakeTag, messageData := ParseItemStep(extensions, input, fakeTag, messageData);
      if !ok || end { return; }
    }
  }

  lemma ItemUnfolds(reg: Registry, t: nat, fs: seq<Field>, fake: uint32, data: bytes, b: bytes, budget: nat)
    ensures ReadItem(reg, t, fs, fake, data, b, budget) == match ItemStep(reg, t, fs, fake, data, b, budget)
            case Bad => None
            case Ended(final, after) => Some(Read(final, after))
            case Next(more, tag, kept, rest) => ReadItem(reg, t, more, tag, kept, rest, budget)
  {
    hide ItemStep;
  }

  /** One round of the loop of ParseMessageSetItem. */
  method ParseItemStep(extensions: ExtensionSet, input: CodedInputStream, fake: uint32, data: bytes)
    returns (ok: bool, end: bool, fakeTag: uint32, messageData: bytes)
    requires extensions.Valid() && input.Valid() && !input.legitimateEnd
    modifies extensions, input`position, input`lastTag, input`legitimateEnd, input`depth, input`currentLimit
    ensures match ItemStep(extensions.reg, extensions.t, old(extensions.Fields()), fake, data, old(input.Rest()),
                           old(input.Budget()))
            case Bad => !ok
            case Ended(final, after) =>
              ok && end && extensions.Valid() && input.Valid() && extensions.Fields() == final && input.Rest() == after
            case Next(fs, tag, kept, rest) =>
              ok && !end && extensions.Valid() && input.Valid() && extensions.Fields() == fs && input.Rest() == rest
              && fakeTag == tag && messageData == kept
    ensures ok ==> input.depth == old(input.depth) && !input.legitimateEnd
  {
    hide ExtensionSet.Valid, ExtensionSet.Fields, ReadField, Wire.ReadTag, Wire.ReadVarint32, Wire.ReadString,
      UnknownFields.SkipField, Wire.WriteString, FakeTag;
    end, fakeTag, messageData := false, fake, data;
    var tag := input.ReadTag();
    if tag == 0 { return false, end, fakeTag, messageData; }
    if tag == TYPE_ID_TAG {
      var typeId;
      ok, typeId := input.ReadVarint32();
      if !ok { return; }
      fakeTag := FakeTag(typeId);
      if messageData != [] {
        ok := ParseKept(extensions, fakeTag, messageData);
        messageData := [];
      }
    } else if tag == MESSAGE_TAG {
      if fakeTag == 0 {
        var temp;
        ok, temp := input.ReadString();
        if ok { messageData := messageData + Wire.WriteString(temp); }
      } else {
        ok := extensions.ParseField(fakeTag, input);
      }
    } else if tag == ITEM_END_TAG {
      ok, end := true, true;
    } else {
      var field;
      ok, field := WireFormat.SkipField(input, tag);
    }
  }

  /** Parse a message that was kept, from a stream of its own. */
  method ParseKept(extensions: ExtensionSet, tag: uint32, data: bytes) returns (ok: bool)
    requires extensions.Valid() && tag != 0
    modifies extensions
    ensures match ReadField(extensions.reg, extensions.t, old(extensions.Fields()), tag, data, DEFAULT_LIMIT)
            case Some(r) => ok && extensions.Valid() && extensions.Fields() == r.value
            case None => !ok
  {
    hide ExtensionSet.Valid, ExtensionSet.Fields, ReadField;
    var subInput := new CodedInputStream(data, DEFAULT_LIMIT);
    ok := extensions.ParseField(tag, subInput);
  }

  // ------------------------------------------------------------------
  // The size pass

  /** The size of the set as a message set, with every size inside it cached. */
  method MessageSetByteSize(extensions: ExtensionSet, ghost budget: nat) returns (total: nat)
    requires extensions.Valid() && Typed(extensions.reg, extensions.t, extensions.Fields(), budget)
    requires Fits(extensions.reg, extensions.t, extensions.Fields(), budget)
    modifies extensions
    ensures extensions.Valid() && extensions.Fields() == old(extensions.Fields())
    ensures SlotsCached(extensions.reg, extensions.t, extensions.slots, budget)
    ensures Typed(extensions.reg, extensions.t, extensions.Fields(), budget)
    ensures Fits(extensions.reg, extensions.t, extensions.Fields(), budget)
    ensures total == SetByteSize(extensions.reg, extensions.t, extensions.Fields(), budget)
    ensures total == |WriteSet(extensions.reg, extensions.t, extensions.Fields(), budget)|
  {
    hide SlotFormed, Sized, Visible, ViewSlot, ExtensionCached, SetFieldSize, SetByteSize, TypedField, FitsField, View,
      Typed,
      Fits, SlotDone, SlotsCached;
    ghost var reg, t := extensions.reg, extensions.t;
    var ss := extensions.slots;
    SizedExactly(reg, t, ss, budget);
    SetSizeExact(reg, t, View(ss), budget);
    NoSlots(reg, t, budget);
    NoSet(reg, t, budget);
    assert ss[0..] == ss;
    total := 0;
    var sized: seq<Slot> := [];
    var i := 0;
    while i < |ss|
      invariant 0 <= i <= |ss| && |sized| == i
      invariant forall k :: 0 <= k < i ==> SlotDone(reg, t, ss[k], sized[k], budget)
      invariant Typed(reg, t, View(ss[i..]), budget) && Fits(reg, t, View(ss[i..]), budget)
      invariant total + SetByteSize(reg, t, View(ss[i..]), budget) == SetByteSize(reg, t, View(ss), budget)
    {
      TailSized(reg, t, ss, i, budget);
      SetTail(reg, t, ss, i, budget);
      var size, s := SetSlotByteSize(extensions.reg, extensions.t, ss[i], budget);
      SlotIsDone(reg, t, ss[i], s, budget);
      total, sized, i := total + size, sized + [s], i + 1;
    }
    assert ss[i..] == [];
    AllDone(reg, t, ss, sized, budget);
    extensions.slots := sized;
  }

  lemma NoSet(reg: Registry, t: nat, budget: nat)
    requires Typed(reg, t, [], budget) && Fits(reg, t, [], budget)
    ensures SetByteSize(reg, t, [], budget) == 0 && WriteSet(reg, t, [], budget) == []
  {
  }

  lemma SetTail(reg: Registry, t: nat, ss: seq<Slot>, i: nat, budget: nat)
    requires i < |ss| && Typed(reg, t, View(ss[i..]), budget) && Fits(reg, t, View(ss[i..]), budget)
    requires Typed(reg, t, View(ss[i + 1..]), budget) && Fits(reg, t, View(ss[i + 1..]), budget)
    requires Visible(ss[i].ext) ==>
      TypedField(reg, t, ViewSlot(ss[i]), budget) && FitsField(reg, t, ViewSlot(ss[i]), budget)
    ensures SetByteSize(reg, t, View(ss[i..]), budget) ==
            (if Visible(ss[i].ext) then SetFieldSize(reg, t, ViewSlot(ss[i]), budget) else 0)
            + SetByteSize(reg, t, View(ss[i + 1..]), budget)
  {
    hide Typed, Fits, Visible, ViewSlot, SetFieldSize, TypedField, FitsField;
    assert ss[i..][1..] == ss[i + 1..] && ss[i..][0] == ss[i];
    var more := View(ss[i + 1..]);
    if Visible(ss[i].ext) { assert ([ViewSlot(ss[i])] + more)[1..] == more; }
  }

  /** The slot shows a singular message. */
  predicate IsMessageSlot(s: Slot) {
    s.ext.fieldType == MESSAGE && !s.ext.isRepeated
  }

  lemma MessageSlots(reg: Registry, t: nat, s: Slot)
    requires SlotFormed(reg, t, s) && Visible(s.ext)
    ensures IsMessageSlot(s) <==> IsItem(reg, t, ViewSlot(s))
    ensures IsMessageSlot(s) ==>
      s.ext.item.Msg? && ItemFormed(reg, reg(t, s.number).value, s.ext.item)
      && Formed(reg, reg(t, s.number).value.messageType, s.ext.item.slots)
      && ViewSlot(s) == Field(s.number, One(Message(View(s.ext.item.slots))))
  {
    var info := reg(t, s.number).value;
    assert ExtensionFormed(reg, info, s.ext);
    assert ViewSlot(s) == Field(s.number, ContentOf(s.ext));
    if !s.ext.isRepeated {
      assert ItemFormed(reg, info, s.ext.item) && ContentOf(s.ext) == One(ViewItem(s.ext.item));
    }
  }

  method SetSlotByteSize(reg: Registry, t: nat, s: Slot, ghost budget: nat) returns (size: nat, sized: Slot)
    requires RegistrySound(reg) && SlotFormed(reg, t, s) && Sized(reg, t, s, budget)
    ensures SlotFormed(reg, t, sized) && sized.number == s.number && Visible(sized.ext) == Visible(s.ext)
    ensures Visible(s.ext) ==> ViewSlot(sized) == ViewSlot(s)
    ensures ExtensionCached(reg, t, sized, budget)
    ensures size == if Visible(s.ext) then SetFieldSize(reg, t, ViewSlot(s), budget) else 0
  {
    hide SlotFormed, Sized, ViewSlot, ExtensionCached, FieldByteSize, ItemSize, TypedField, FitsField, IsItem;
    if Visible(s.ext) { MessageSlots(reg, t, s); SizedMeans(reg, t, s, budget); }
    if IsMessageSlot(s) && !s.ext.isCleared {
      size, sized := ItemSlotByteSize(reg, t, s, budget);
    } else {
      size, sized := SlotByteSize(reg, t, s, budget);
    }
  }

  lemma SizedMeans(reg: Registry, t: nat, s: Slot, budget: nat)
    requires Sized(reg, t, s, budget) && Visible(s.ext)
    ensures TypedField(reg, t, ViewSlot(s), budget) && FitsField(reg, t, ViewSlot(s), budget)
  {
  }

  method ItemSlotByteSize(reg: Registry, t: nat, s: Slot, ghost budget: nat) returns (size: nat, sized: Slot)
    requires RegistrySound(reg) && SlotFormed(reg, t, s) && Visible(s.ext) && Sized(reg, t, s, budget)
    requires IsMessageSlot(s)
    ensures SlotFormed(reg, t, sized) && sized.number == s.number && Visible(sized.ext)
    ensures ViewSlot(sized) == ViewSlot(s) && ExtensionCached(reg, t, sized, budget)
    ensures IsItem(reg, t, ViewSlot(s)) && size == ItemSize(reg, t, ViewSlot(s), budget)
  {
    MessageSlots(reg, t, s);
    TypedSlot(reg, t, s, budget);
    ItemParts(reg, t, ViewSlot(s), budget);
    var info := reg(t, s.number).value;
    var message := new ExtensionSet(reg, info.messageType, s.ext.item.slots);
    var messageSize := ByteSize(message, budget - 1);
    size := ITEM_TAGS_SIZE + VarintSize32(s.number) + VarintSize32(messageSize) + messageSize;
    sized := s.(ext := s.ext.(item := Msg(message.slots, messageSize)));
    assert ItemFormed(reg, info, sized.ext.item);
    MessageSlots(reg, t, sized);
    TypedSlot(reg, t, sized, budget);
  }

  // ------------------------------------------------------------------
  // The write pass

  ghost function SetSlotBytes(reg: Registry, t: nat, s: Slot, budget: nat): bytes
    requires Visible(s.ext) ==> TypedField(reg, t, ViewSlot(s), budget)
  {
    if Visible(s.ext) then WriteSetField(reg, t, ViewSlot(s), budget) else []
  }

  /** Every extension as an item, with the sizes that were cached. */
  method SerializeMessageSetWithCachedSizes(extensions: ExtensionSet, output: CodedOutputStream, ghost budget: nat)
    requires extensions.Valid() && Typed(extensions.reg, extensions.t, extensions.Fields(), budget)
    requires SlotsCached(extensions.reg, extensions.t, extensions.slots, budget)
    modifies output
    ensures output.written == old(output.written) + WriteSet(extensions.reg, extensions.t, extensions.Fields(), budget)
  {
    hide Typed, Visible, ViewSlot, ExtensionCached, TypedField, SlotFormed, Formed, SlotsCached, View, WriteSet,
      SetSlotBytes;
    ghost var reg, t, before := extensions.reg, extensions.t, output.written;
    var ss := extensions.slots;
    ghost var whole := WriteSet(reg, t, View(ss), budget);
    assert ss[0..] == ss;
    var i := 0;
    while i < |ss|
      invariant 0 <= i <= |ss| && Typed(reg, t, View(ss[i..]), budget)
      invariant output.written + WriteSet(reg, t, View(ss[i..]), budget) == before + whole
    {
      SetBytesTail(reg, t, ss, i, budget);
      SlotFacts(reg, t, ss, i, budget);
      ghost var done, rest := output.written, WriteSet(reg, t, View(ss[i + 1..]), budget);
      SerializeMessageSetItem(extensions.reg, extensions.t, ss[i], output, budget);
      assert done + (SetSlotBytes(reg, t, ss[i], budget) + rest) == output.written + rest;
      i := i + 1;
    }
    SetBytesEnd(reg, t, ss, i, budget);
    assert output.written + [] == output.written;
  }

  lemma SetBytesEnd(reg: Registry, t: nat, ss: seq<Slot>, i: nat, budget: nat)
    requires i == |ss| && Typed(reg, t, View(ss[i..]), budget)
    ensures WriteSet(reg, t, View(ss[i..]), budget) == []
  {
  }

  lemma SetBytesTail(reg: Registry, t: nat, ss: seq<Slot>, i: nat, budget: nat)
    requires i < |ss| && Typed(reg, t, View(ss[i..]), budget)
    ensures Typed(reg, t, View(ss[i + 1..]), budget)
    ensures Visible(ss[i].ext) ==> TypedField(reg, t, ViewSlot(ss[i]), budget)
    ensures WriteSet(reg, t, View(ss[i..]), budget)
         == SetSlotBytes(reg, t, ss[i], budget) + WriteSet(reg, t, View(ss[i + 1..]), budget)
  {
    hide Visible, WriteSetField, TypedField, ViewSlot;
    assert ss[i..][1..] == ss[i + 1..] && ss[i..][0] == ss[i];
    var more := View(ss[i + 1..]);
    if Visible(ss[i].ext) {
      TypedCons(reg, t, ViewSlot(ss[i]), more, budget);
      assert ([ViewSlot(ss[i])] + more)[1..] == more;
    } else {
      assert [] + WriteSet(reg, t, more, budget) == WriteSet(reg, t, more, budget);
    }
  }

  method SerializeMessageSetItem(reg: Registry, t: nat, s: Slot, output: CodedOutputStream, ghost budget: nat)
    requires SlotFormed(reg, t, s) && (Visible(s.ext) ==> TypedField(reg, t, ViewSlot(s), budget))
    requires ExtensionCached(reg, t, s, budget)
    modifies output
    ensures output.written == old(output.written) + SetSlotBytes(reg, t, s, budget)
  {
    hide SlotFormed, TypedField, ExtensionCached, ViewSlot, WriteItem, WriteFieldOf, IsItem;
    if Visible(s.ext) { MessageSlots(reg, t, s); }
    if !IsMessageSlot(s) { SerializeSlot(reg, t, s, output, budget); return; }
    if s.ext.isCleared { return; }
    ItemSlotCached(reg, t, s, budget);
    SerializeItemBytes(reg, reg(t, s.number).value.messageType, s.number, s.ext.item.slots, s.ext.item.cachedSize,
                       output, budget - 1);
  }

  lemma ItemSlotCached(reg: Registry, t: nat, s: Slot, budget: nat)
    requires SlotFormed(reg, t, s) && Visible(s.ext) && TypedField(reg, t, ViewSlot(s), budget)
    requires ExtensionCached(reg, t, s, budget) && IsMessageSlot(s)
    ensures budget > 0 && s.ext.item.Msg? && reg(t, s.number).Some?
    ensures var inner := reg(t, s.number).value.messageType;
      && Formed(reg, inner, s.ext.item.slots) && Typed(reg, inner, View(s.ext.item.slots), budget - 1)
      && SlotsCached(reg, inner, s.ext.item.slots, budget - 1) && s.number < FIELD_LIMIT
      && s.ext.item.cachedSize == |WriteFieldsOf(reg, inner, View(s.ext.item.slots), budget - 1)|
      && SetSlotBytes(reg, t, s, budget)
           == WriteVarint(ITEM_START_TAG)
             + TypeFirst(s.number, WriteFieldsOf(reg, inner, View(s.ext.item.slots), budget - 1))
  {
    MessageSlots(reg, t, s);
    TypedSlot(reg, t, s, budget);
    hide WriteVarint, TypeFirst, WriteFieldsOf;
    NestedBytes(reg, reg(t, s.number).value, s.number, s.ext.item, budget);
  }

  method SerializeItemBytes(reg: Registry, t: nat, n: uint32, slots: seq<Slot>, size: nat, output: CodedOutputStream,
                            ghost budget: nat)
    requires Formed(reg, t, slots) && Typed(reg, t, View(slots), budget) && SlotsCached(reg, t, slots, budget)
    requires size == |WriteFieldsOf(reg, t, View(slots), budget)|
    modifies output
    ensures output.written == old(output.written)
              + (WriteVarint(ITEM_START_TAG) + TypeFirst(n, WriteFieldsOf(reg, t, View(slots), budget)))
  {
    hide Wire.WriteVarint, WriteFieldsOf, Formed, Typed, View, SlotsCached;
    ghost var start, data := output.written, WriteFieldsOf(reg, t, View(slots), budget);
    output.WriteVarint(ITEM_START_TAG);
    output.WriteVarint(TYPE_ID_TAG);
    output.WriteVarint(n);
    output.WriteVarint(MESSAGE_TAG);
    output.WriteVarint(size);
    SerializeMessage(reg, t, slots, output, budget);
    output.WriteVarint(ITEM_END_TAG);
    ItemRegroup(start, WriteVarint(ITEM_START_TAG), WriteVarint(TYPE_ID_TAG), WriteVarint(n), WriteVarint(MESSAGE_TAG),
                WriteVarint(size), data, WriteVarint(ITEM_END_TAG));
  }

  lemma ItemRegroup(s: bytes, a: bytes, b: bytes, c: bytes, d: bytes, e: bytes, f: bytes, g: bytes)
    ensures s + a + b + c + d + e + f + g == s + (a + (b + c + d + (e + f) + g))
  {
    assert a + b == a + b;
  }

  // ------------------------------------------------------------------
  // The write pass into an array

  /** The same bytes as into a stream, and nothing else in the array changes. */
  method SerializeMessageSetWithCachedSizesToArray(extensions: ExtensionSet, a: array<byte>, target: nat,
                                                   ghost budget: nat)
    returns (next: nat)
    requires extensions.Valid() && Typed(extensions.reg, extensions.t, extensions.Fields(), budget)
    requires SlotsCached(extensions.reg, extensions.t, extensions.slots, budget)
    requires target + |WriteSet(extensions.reg, extensions.t, extensions.Fields(), budget)| <= a.Length
    modifies a
    ensures var b := WriteSet(extensions.reg, extensions.t, extensions.Fields(), budget);
            next == target + |b| && a[..] == Patched(old(a[..]), target, b)
  {
    hide Typed, Visible, ViewSlot, ExtensionCached, TypedField, SlotFormed, Formed, SlotsCached, View, WriteSet,
      SetSlotBytes,
      Patched;
    ghost var reg, t := extensions.reg, extensions.t;
    var ss := extensions.slots;
    ghost var whole := WriteSet(reg, t, View(ss), budget);
    ghost var done: bytes := [];
    PatchedNothing(a[..], target);
    assert ss[0..] == ss && done + whole == whole;
    next := target;
    var i := 0;
    while i < |ss|
      invariant 0 <= i <= |ss| && Typed(reg, t, View(ss[i..]), budget)
      invariant done + WriteSet(reg, t, View(ss[i..]), budget) == whole
      invariant next == target + |done| && a[..] == Patched(old(a[..]), target, done)
    {
      SetBytesTail(reg, t, ss, i, budget);
      SlotFacts(reg, t, ss, i, budget);
      ghost var part, rest := SetSlotBytes(reg, t, ss[i], budget), WriteSet(reg, t, View(ss[i + 1..]), budget);
      assert done + (part + rest) == done + part + rest;
      PatchedTwice(old(a[..]), target, done, part);
      next := SetItemToArray(extensions.reg, extensions.t, ss[i], a, next, budget);
      done, i := done + part, i + 1;
    }
    SetBytesEnd(reg, t, ss, i, budget);
    assert done + [] == done;
  }

  method SetItemToArray(reg: Registry, t: nat, s: Slot, a: array<byte>, target: nat, ghost budget: nat)
    returns (next: nat)
    requires SlotFormed(reg, t, s) && (Visible(s.ext) ==> TypedField(reg, t, ViewSlot(s), budget))
    requires ExtensionCached(reg, t, s, budget) && target + |SetSlotBytes(reg, t, s, budget)| <= a.Length
    modifies a
    ensures next == target + |SetSlotBytes(reg, t, s, budget)|
    ensures a[..] == Patched(old(a[..]), target, SetSlotBytes(reg, t, s, budget))
  {
    hide SlotFormed, TypedField, ExtensionCached, ViewSlot, WriteItem, WriteFieldOf, IsItem, Patched;
    if Visible(s.ext) { MessageSlots(reg, t, s); }
    if !IsMessageSlot(s) { next := SlotToArray(reg, t, s, a, target, budget); return; }
    if s.ext.isCleared { PatchedNothing(a[..], target); return target; }
    ItemSlotCached(reg, t, s, budget);
    next := ItemBytesToArray(reg, reg(t, s.number).value.messageType, s.number, s.ext.item.slots, s.ext.item.cachedSize,
                             a, target, budget - 1);
  }

  method ItemBytesToArray(reg: Registry, t: nat, n: uint32, slots: seq<Slot>, size: nat, a: array<byte>, target: nat,
                          ghost budget: nat)
    returns (next: nat)
    requires Formed(reg, t, slots) && Typed(reg, t, View(slots), budget) && SlotsCached(reg, t, slots, budget)
    requires size == |WriteFieldsOf(reg, t, View(slots), budget)|
    requires target + |WriteVarint(ITEM_START_TAG)|
      + |TypeFirst(n, WriteFieldsOf(reg, t, View(slots), budget))| <= a.Length
    modifies a
    ensures var b := WriteVarint(ITEM_START_TAG) + TypeFirst(n, WriteFieldsOf(reg, t, View(slots), budget));
            next == target + |b| && a[..] == Patched(old(a[..]), target, b)
  {
    hide Wire.WriteVarint, WriteFieldsOf, Formed, Typed, View, SlotsCached, Patched;
    ghost var data := WriteFieldsOf(reg, t, View(slots), budget);
    ghost var front := WriteVarint(ITEM_START_TAG) + WriteVarint(TYPE_ID_TAG) + WriteVarint(n)
      + WriteVarint(MESSAGE_TAG);
    ghost var message := WriteVarint(size) + data;
    assert WriteVarint(ITEM_START_TAG) + TypeFirst(n, data) == front + message + WriteVarint(ITEM_END_TAG);
    PatchedTwice(a[..], target, front, message);
    PatchedTwice(a[..], target, front + message, WriteVarint(ITEM_END_TAG));
    next := FrontToArray(n, a, target);
    PatchedTwice(a[..], next, WriteVarint(size), data);
    next := WriteVarintToArray(size, a, next);
    next := MessageToArray(reg, t, slots, a, next, budget);
    next := WriteVarintToArray(ITEM_END_TAG, a, next);
  }

  /** The start tag, the type number and the tag of the message. */
  method FrontToArray(n: uint32, a: array<byte>, target: nat) returns (next: nat)
    requires target + |WriteVarint(ITEM_START_TAG)| + |WriteVarint(TYPE_ID_TAG)| + |WriteVarint(n)|
      + |WriteVarint(MESSAGE_TAG)|
             <= a.Length
    modifies a
    ensures var b := WriteVarint(ITEM_START_TAG) + WriteVarint(TYPE_ID_TAG) + WriteVarint(n) + WriteVarint(MESSAGE_TAG);
            next == target + |b| && a[..] == Patched(old(a[..]), target, b)
  {
    hide Wire.WriteVarint, Patched;
    ghost var w, x, y, z := WriteVarint(ITEM_START_TAG), WriteVarint(TYPE_ID_TAG), WriteVarint(n),
      WriteVarint(MESSAGE_TAG);
    PatchedTwice(a[..], target, w, x);
    PatchedTwice(a[..], target, w + x, y);
    PatchedTwice(a[..], target, w + x + y, z);
    next := WriteVarintToArray(ITEM_START_TAG, a, target);
    next := WriteVarintToArray(TYPE_ID_TAG, a, next);
    next := WriteVarintToArray(n, a, next);
    next := WriteVarintToArray(MESSAGE_TAG, a, next);
  }
}
