/** The write pass of an extension set into an array: the same bytes as into a stream,
    and nothing else in the array changes. */
module ExtensionArray {
  import opened Options
  import opened Wire
  import opened UnknownFields
  import opened CodedOutput
  import opened Primitives
  import opened ExtensionValues
  import opened ExtensionSizes
  import opened ExtensionSlots
  import opened ExtensionSets
  import opened ExtensionOutput

  method SerializeWithCachedSizesToArray(extensions: ExtensionSet, start: nat, end: nat, a: array<byte>, target: nat,
                                         ghost budget: nat)
    returns (next: nat)
    requires extensions.Valid() && Typed(extensions.reg, extensions.t, extensions.Fields(), budget)
    requires SlotsCached(extensions.reg, extensions.t, extensions.slots, budget)
    requires Typed(extensions.reg, extensions.t, InRangeOf(extensions.Fields(), start, end), budget)
    requires target + |WriteFieldsOf(extensions.reg, extensions.t, InRangeOf(extensions.Fields(), start, end),
                                     budget)| <= a.Length
    modifies a
    ensures var b := WriteFieldsOf(extensions.reg, extensions.t, InRangeOf(extensions.Fields(), start, end), budget);
            next == target + |b| && a[..] == Patched(old(a[..]), target, b)
  {
    next := SlotsToArray(extensions.reg, extensions.t, extensions.slots, start, end, a, target, budget);
  }

  method SlotsToArray(reg: Registry, t: nat, ss: seq<Slot>, start: nat, end: nat, a: array<byte>, target: nat,
                      ghost budget: nat)
    returns (next: nat)
    requires Formed(reg, t, ss) && Typed(reg, t, View(ss), budget) && SlotsCached(reg, t, ss, budget)
    requires Typed(reg, t, InRangeOf(View(ss), start, end), budget)
    requires target + |WriteFieldsOf(reg, t, InRangeOf(View(ss), start, end), budget)| <= a.Length
    modifies a
    ensures var b := WriteFieldsOf(reg, t, InRangeOf(View(ss), start, end), budget);
            next == target + |b| && a[..] == Patched(old(a[..]), target, b)
    decreases ss, 1
  {
    hide Typed, Visible, ViewSlot, ExtensionCached, TypedField, InRangeOf, SlotFormed, Formed, SlotsCached, View,
      WriteFieldsOf,
      TailTyped, TailBytes, SlotBytes, Patched;
    TailStart(reg, t, ss, start, end, budget);
    ghost var whole := TailBytes(reg, t, ss, 0, start, end, budget);
    ghost var done: bytes := [];
    PatchedNothing(a[..], target);
    FormedInOrder(reg, t, ss);
    next := target;
    var i := 0;
    while i < |ss| && ss[i].number < start
      invariant 0 <= i <= |ss| && TailTyped(reg, t, ss, i, start, end, budget)
      invariant TailBytes(reg, t, ss, i, start, end, budget) == whole && a[..] == old(a[..])
    {
      TailStep(reg, t, ss, i, start, end, budget);
      assert [] + TailBytes(reg, t, ss, i + 1, start, end, budget) == TailBytes(reg, t, ss, i + 1, start, end, budget);
      i := i + 1;
    }
    assert done + whole == whole;
    while i < |ss| && ss[i].number < end
      invariant 0 <= i <= |ss| && TailTyped(reg, t, ss, i, start, end, budget)
      invariant i < |ss| ==> start <= ss[i].number
      invariant done + TailBytes(reg, t, ss, i, start, end, budget) == whole
      invariant next == target + |done| && a[..] == Patched(old(a[..]), target, done)
    {
      TailStep(reg, t, ss, i, start, end, budget);
      SlotFacts(reg, t, ss, i, budget);
      ghost var part, rest := SlotBytes(reg, t, ss[i], budget), TailBytes(reg, t, ss, i + 1, start, end, budget);
      assert done + (part + rest) == done + part + rest;
      PatchedTwice(old(a[..]), target, done, part);
      next := SlotToArray(reg, t, ss[i], a, next, budget);
      done, i := done + part, i + 1;
    }
    TailEnd(reg, t, ss, i, start, end, budget);
    assert done + [] == done;
  }

  method SlotToArray(reg: Registry, t: nat, s: Slot, a: array<byte>, target: nat, ghost budget: nat) returns (next: nat)
    requires SlotFormed(reg, t, s) && (Visible(s.ext) ==> TypedField(reg, t, ViewSlot(s), budget))
    requires ExtensionCached(reg, t, s, budget) && target + |SlotBytes(reg, t, s, budget)| <= a.Length
    modifies a
    ensures next == target + |SlotBytes(reg, t, s, budget)|
    ensures a[..] == Patched(old(a[..]), target, SlotBytes(reg, t, s, budget))
    decreases s, 0
  {
    SlotParts(reg, t, s, budget);
    PatchedNothing(a[..], target);
    hide SlotFormed, TypedField, ExtensionCached, SlotBytes, WriteValue, WriteValues, WritePacked, ItemCached,
      ItemsCached,
      ViewItem, ViewItems, WriteString, Patched;
    var info := reg(t, s.number).value;
    next := target;
    if s.ext.isRepeated {
      if s.ext.isPacked {
        if s.ext.cachedSize == 0 { return; }
        next := PackedToArray(reg, info, s.number, s.ext, a, target, budget);
      } else if s.ext.items != [] {
        next := ItemsToArray(reg, info, s.number, s.ext.items, a, target, budget);
      }
    } else if !s.ext.isCleared {
      next := ItemToArray(reg, info, s.number, s.ext.item, a, target, budget);
    }
  }

  method PackedToArray(reg: Registry, info: Info, n: nat, e: Extension, a: array<byte>, target: nat, ghost budget: nat)
    returns (next: nat)
    requires IsPrimitive(info.fieldType) && TypedValues(reg, info, ViewItems(e.items), budget)
    requires e.cachedSize == |WritePacked(reg, info, ViewItems(e.items), budget)|
    requires target + |PackedField(reg, info, n, e.items, budget)| <= a.Length
    modifies a
    ensures next == target + |PackedField(reg, info, n, e.items, budget)|
    ensures a[..] == Patched(old(a[..]), target, PackedField(reg, info, n, e.items, budget))
  {
    hide Wire.WriteVarint, WritePacked, TypedValues, ViewItems, Patched;
    ghost var tag, length := WriteTag(n, WIRETYPE_LENGTH_DELIMITED), Wire.WriteVarint(e.cachedSize);
    ghost var data := WritePacked(reg, info, ViewItems(e.items), budget);
    assert tag + length + data == tag + (length + data);
    PatchedTwice(a[..], target, tag, length);
    PatchedTwice(a[..], target, tag + length, data);
    next := WriteVarintToArray(n * 8 + WIRETYPE_LENGTH_DELIMITED, a, target);
    next := WriteVarintToArray(e.cachedSize, a, next);
    next := PackedValuesToArray(reg, info, e.items, a, next, budget);
  }

  ghost function PackedField(reg: Registry, info: Info, n: nat, items: seq<Item>, budget: nat): bytes
    requires IsPrimitive(info.fieldType) && TypedValues(reg, info, ViewItems(items), budget)
  {
    WriteTag(n, WIRETYPE_LENGTH_DELIMITED) + WriteString(WritePacked(reg, info, ViewItems(items), budget))
  }

  method PackedValuesToArray(reg: Registry, info: Info, items: seq<Item>, a: array<byte>, target: nat,
                             ghost budget: nat)
    returns (next: nat)
    requires IsPrimitive(info.fieldType) && TypedValues(reg, info, ViewItems(items), budget)
    requires target + |WritePacked(reg, info, ViewItems(items), budget)| <= a.Length
    modifies a
    ensures next == target + |WritePacked(reg, info, ViewItems(items), budget)|
    ensures a[..] == Patched(old(a[..]), target, WritePacked(reg, info, ViewItems(items), budget))
  {
    hide WritePrimitive, TypedValue, ViewItem, Patched;
    ghost var data := WritePacked(reg, info, ViewItems(items), budget);
    ghost var done: bytes := [];
    PatchedNothing(a[..], target);
    assert items[0..] == items && done + data == data;
    next := target;
    var i := 0;
    while i < |items|
      invariant 0 <= i <= |items| && TypedValues(reg, info, ViewItems(items[i..]), budget)
      invariant done + WritePacked(reg, info, ViewItems(items[i..]), budget) == data
      invariant next == target + |done| && a[..] == Patched(old(a[..]), target, done)
    {
      ghost var rest := ViewItems(items[i + 1..]);
      assert items[i..][1..] == items[i + 1..];
      assert ViewItems(items[i..])[1..] == rest;
      PackedItem(reg, info, items[i], budget);
      var part := WritePrimitive(info.fieldType, items[i].n);
      assert done + (part + WritePacked(reg, info, rest, budget)) == done + part + WritePacked(reg, info, rest, budget);
      PatchedTwice(old(a[..]), target, done, part);
      next := WriteRawToArray(part, a, next);
      done, i := done + part, i + 1;
    }
    assert items[i..] == [] && done == data;
  }

  method ItemsToArray(reg: Registry, info: Info, n: nat, items: seq<Item>, a: array<byte>, target: nat,
                      ghost budget: nat)
    returns (next: nat)
    requires TypedValues(reg, info, ViewItems(items), budget) && ItemsCached(reg, info, items, budget)
    requires ItemsFormed(reg, info, items)
    requires target + |WriteValues(reg, info, n, ViewItems(items), budget)| <= a.Length
    modifies a
    ensures next == target + |WriteValues(reg, info, n, ViewItems(items), budget)|
    ensures a[..] == Patched(old(a[..]), target, WriteValues(reg, info, n, ViewItems(items), budget))
    decreases items, 1
  {
    hide WriteValue, TypedValue, ViewItem, ItemCached, ItemFormed, Patched;
    ghost var data := WriteValues(reg, info, n, ViewItems(items), budget);
    ghost var done: bytes := [];
    PatchedNothing(a[..], target);
    assert items[0..] == items && done + data == data;
    next := target;
    var i := 0;
    while i < |items|
      invariant 0 <= i <= |items| && TypedValues(reg, info, ViewItems(items[i..]), budget)
      invariant ItemsCached(reg, info, items[i..], budget) && ItemsFormed(reg, info, items[i..])
      invariant done + WriteValues(reg, info, n, ViewItems(items[i..]), budget) == data
      invariant next == target + |done| && a[..] == Patched(old(a[..]), target, done)
    {
      ghost var rest := ViewItems(items[i + 1..]);
      assert items[i..][1..] == items[i + 1..];
      assert ViewItems(items[i..])[1..] == rest;
      ghost var part := WriteValue(reg, info, n, ViewItem(items[i]), budget);
      assert done + (part + WriteValues(reg, info, n, rest, budget))
          == done + part + WriteValues(reg, info, n, rest, budget);
      PatchedTwice(old(a[..]), target, done, part);
      next := ItemToArray(reg, info, n, items[i], a, next, budget);
      done, i := done + part, i + 1;
    }
    assert items[i..] == [] && done == data;
  }

  method ItemToArray(reg: Registry, info: Info, n: nat, i: Item, a: array<byte>, target: nat, ghost budget: nat)
    returns (next: nat)
    requires TypedValue(reg, info, ViewItem(i), budget) && ItemCached(reg, info, i, budget) && ItemFormed(reg, info, i)
    requires target + |WriteValue(reg, info, n, ViewItem(i), budget)| <= a.Length
    modifies a
    ensures next == target + |WriteValue(reg, info, n, ViewItem(i), budget)|
    ensures a[..] == Patched(old(a[..]), target, WriteValue(reg, info, n, ViewItem(i), budget))
    decreases i, 0
  {
    hide Wire.WriteVarint, WritePrimitive, WriteFieldsOf, Patched;
    match i {
      case Num(k) =>
        PatchedTwice(a[..], target, WriteTag(n, WireTypeFor(info.fieldType)), WritePrimitive(info.fieldType, k));
        next := WriteVarintToArray(n * 8 + WireTypeFor(info.fieldType), a, target);
        next := WriteRawToArray(WritePrimitive(info.fieldType, k), a, next);
      case Str(s) =>
        PatchedTwice(a[..], target, WriteTag(n, WIRETYPE_LENGTH_DELIMITED), WriteString(s));
        next := WriteVarintToArray(n * 8 + WIRETYPE_LENGTH_DELIMITED, a, target);
        next := StringToArray(s, a, next);
      case Msg(slots, _) =>
        NestedBytes(reg, info, n, i, budget);
        hide WriteTag, WriteValue, TypedValue, ItemCached, ItemFormed, WriteString;
        if info.fieldType == GROUP { next := GroupToArray(reg, info.messageType, n, slots, a, target, budget - 1); }
        else { next := DelimitedToArray(reg, info.messageType, n, slots, i.cachedSize, a, target, budget - 1); }
    }
  }

  method StringToArray(s: bytes, a: array<byte>, target: nat) returns (next: nat)
    requires target + |WriteString(s)| <= a.Length
    modifies a
    ensures next == target + |WriteString(s)| && a[..] == Patched(old(a[..]), target, WriteString(s))
  {
    hide Wire.WriteVarint, Patched;
    PatchedTwice(a[..], target, Wire.WriteVarint(|s|), s);
    next := WriteVarintToArray(|s|, a, target);
    next := WriteRawToArray(s, a, next);
  }

  method GroupToArray(reg: Registry, t: nat, n: nat, slots: seq<Slot>, a: array<byte>, target: nat, ghost budget: nat)
    returns (next: nat)
    requires Formed(reg, t, slots) && Typed(reg, t, View(slots), budget) && SlotsCached(reg, t, slots, budget)
    requires target + |WriteTag(n, WIRETYPE_START_GROUP)| + |WriteFieldsOf(reg, t, View(slots), budget)|
             + |WriteTag(n, WIRETYPE_END_GROUP)| <= a.Length
    modifies a
    ensures var b := WriteTag(n, WIRETYPE_START_GROUP) + WriteFieldsOf(reg, t, View(slots), budget)
      + WriteTag(n, WIRETYPE_END_GROUP);
            next == target + |b| && a[..] == Patched(old(a[..]), target, b)
    decreases slots, 3
  {
    hide Wire.WriteVarint, WriteFieldsOf, Formed, Typed, View, SlotsCached, Patched;
    ghost var open, data, close :=
      WriteTag(n, WIRETYPE_START_GROUP), WriteFieldsOf(reg, t, View(slots), budget), WriteTag(n, WIRETYPE_END_GROUP);
    PatchedTwice(a[..], target, open, data);
    PatchedTwice(a[..], target, open + data, close);
    next := WriteVarintToArray(n * 8 + WIRETYPE_START_GROUP, a, target);
    next := MessageToArray(reg, t, slots, a, next, budget);
    next := WriteVarintToArray(n * 8 + WIRETYPE_END_GROUP, a, next);
  }

  method DelimitedToArray(reg: Registry, t: nat, n: nat, slots: seq<Slot>, size: nat, a: array<byte>, target: nat,
                          ghost budget: nat)
    returns (next: nat)
    requires Formed(reg, t, slots) && Typed(reg, t, View(slots), budget) && SlotsCached(reg, t, slots, budget)
    requires size == |WriteFieldsOf(reg, t, View(slots), budget)|
    requires target + |WriteTag(n, WIRETYPE_LENGTH_DELIMITED)|
      + |WriteString(WriteFieldsOf(reg, t, View(slots), budget))| <= a.Length
    modifies a
    ensures var b := WriteTag(n, WIRETYPE_LENGTH_DELIMITED) + WriteString(WriteFieldsOf(reg, t, View(slots), budget));
            next == target + |b| && a[..] == Patched(old(a[..]), target, b)
    decreases slots, 3
  {
    hide Wire.WriteVarint, WriteFieldsOf, Formed, Typed, View, SlotsCached, Patched;
    ghost var tag, length, data :=
      WriteTag(n, WIRETYPE_LENGTH_DELIMITED), Wire.WriteVarint(size), WriteFieldsOf(reg, t, View(slots), budget);
    assert tag + length + data == tag + (length + data);
    PatchedTwice(a[..], target, tag, length);
    PatchedTwice(a[..], target, tag + length, data);
    next := WriteVarintToArray(n * 8 + WIRETYPE_LENGTH_DELIMITED, a, target);
    next := WriteVarintToArray(size, a, next);
    next := MessageToArray(reg, t, slots, a, next, budget);
  }

  method MessageToArray(reg: Registry, t: nat, slots: seq<Slot>, a: array<byte>, target: nat, ghost budget: nat)
    returns (next: nat)
    requires Formed(reg, t, slots) && Typed(reg, t, View(slots), budget) && SlotsCached(reg, t, slots, budget)
    requires target + |WriteFieldsOf(reg, t, View(slots), budget)| <= a.Length
    modifies a
    ensures next == target + |WriteFieldsOf(reg, t, View(slots), budget)|
    ensures a[..] == Patched(old(a[..]), target, WriteFieldsOf(reg, t, View(slots), budget))
    decreases slots, 2
  {
    hide SlotFormed, TypedField;
    RangeWhole(View(slots), 0, FIELD_LIMIT) by { NumbersInRange(reg, t, View(slots), budget); }
    next := SlotsToArray(reg, t, slots, 0, FIELD_LIMIT, a, target, budget);
  }
}
