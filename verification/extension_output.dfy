/** The size pass and the write pass of an extension set: the first caches the sizes
    that the second writes. */
module ExtensionOutput {
  import opened Options
  import opened Wire
  import opened UnknownFields
  import opened CodedOutput
  import opened Primitives
  import opened ExtensionValues
  import opened ExtensionSizes
  import opened ExtensionSlots
  import opened ExtensionSets

  // ------------------------------------------------------------------
  // Typed states

  /** What shows of the extension is of its registered type, and its lengths fit. */
  ghost predicate Sized(reg: Registry, t: nat, s: Slot, budget: nat) {
    Visible(s.ext) ==> TypedField(reg, t, ViewSlot(s), budget) && FitsField(reg, t, ViewSlot(s), budget)
  }

  ghost predicate AllSized(reg: Registry, t: nat, ss: seq<Slot>, budget: nat) {
    forall i :: 0 <= i < |ss| ==> Sized(reg, t, ss[i], budget)
  }

  /** A state is sized when what it shows is typed and fits. */
  lemma {:induction false} SizedExactly(reg: Registry, t: nat, ss: seq<Slot>, budget: nat)
    requires InOrder(ss)
    ensures AllSized(reg, t, ss, budget) <==> Typed(reg, t, View(ss), budget) && Fits(reg, t, View(ss), budget)
  {
    hide TypedField, FitsField, ViewSlot, Visible;
    ViewSorted(ss);
    if ss != [] {
      var more := View(ss[1..]);
      SizedExactly(reg, t, ss[1..], budget);
      AllSizedCons(reg, t, ss, budget);
      if Visible(ss[0].ext) {
        TypedCons(reg, t, ViewSlot(ss[0]), more, budget);
      }
    }
  }

  lemma AllSizedCons(reg: Registry, t: nat, ss: seq<Slot>, budget: nat)
    requires ss != []
    ensures AllSized(reg, t, ss, budget) <==> Sized(reg, t, ss[0], budget) && AllSized(reg, t, ss[1..], budget)
  {
    hide Sized;
    if AllSized(reg, t, ss[1..], budget) && Sized(reg, t, ss[0], budget) {
      forall i | 0 <= i < |ss| ensures Sized(reg, t, ss[i], budget) {
        if i > 0 { assert ss[i] == ss[1..][i - 1]; }
      }
    }
  }

  lemma TypedCons(reg: Registry, t: nat, f: Field, fs: seq<Field>, budget: nat)
    requires Sorted([f] + fs)
    ensures Typed(reg, t, [f] + fs, budget) <==> TypedField(reg, t, f, budget) && Typed(reg, t, fs, budget)
    ensures Typed(reg, t, [f] + fs, budget) ==>
              (Fits(reg, t, [f] + fs, budget) <==> FitsField(reg, t, f, budget) && Fits(reg, t, fs, budget))
  {
    hide TypedField, FitsField;
    var all := [f] + fs;
    assert all[1..] == fs;
    if TypedField(reg, t, f, budget) && Typed(reg, t, fs, budget) {
      forall i | 0 <= i < |all| ensures TypedField(reg, t, all[i], budget) {
        if i > 0 { assert all[i] == fs[i - 1]; }
      }
    }
    if Typed(reg, t, all, budget) {
      assert TypedField(reg, t, all[0], budget);
      forall i | 0 <= i < |fs| ensures TypedField(reg, t, fs[i], budget) { assert fs[i] == all[i + 1]; }
      forall i, j | 0 <= i < j < |fs| ensures fs[i].number < fs[j].number {
        assert all[i + 1].number < all[j + 1].number;
      }
    }
  }

  // ------------------------------------------------------------------
  // Cached sizes

  /** The size that a message caches is that of its encoding. */
  ghost predicate ItemCached(reg: Registry, info: Info, i: Item, budget: nat)
    requires TypedValue(reg, info, ViewItem(i), budget)
    decreases i
  {
    i.Msg? ==>
      && i.cachedSize == |WriteFieldsOf(reg, info.messageType, View(i.slots), budget - 1)|
      && SlotsCached(reg, info.messageType, i.slots, budget - 1)
  }

  ghost predicate ItemsCached(reg: Registry, info: Info, items: seq<Item>, budget: nat)
    requires TypedValues(reg, info, ViewItems(items), budget)
    decreases items
  {
    items == [] ||
    (assert ViewItems(items)[1..] == ViewItems(items[1..]);
     ItemCached(reg, info, items[0], budget) && ItemsCached(reg, info, items[1..], budget))
  }

  lemma TypedSlot(reg: Registry, t: nat, s: Slot, budget: nat)
    requires Visible(s.ext) && TypedField(reg, t, ViewSlot(s), budget)
    ensures reg(t, s.number).Some? && 0 < s.number < FIELD_LIMIT
    ensures ViewSlot(s) == Field(s.number, ContentOf(s.ext))
    ensures var info := reg(t, s.number).value;
            if s.ext.isRepeated then
              && ContentOf(s.ext) == Many(ViewItems(s.ext.items))
              && info.isRepeated && TypedValues(reg, info, ViewItems(s.ext.items), budget)
              && (info.isPacked ==> IsPrimitive(info.fieldType))
            else
              && ContentOf(s.ext) == One(ViewItem(s.ext.item))
              && !info.isRepeated && !info.isPacked && TypedValue(reg, info, ViewItem(s.ext.item), budget)
  {
    hide TypedValue, TypedValues, ViewItem, ViewItems;
    assert ContentOf(s.ext) == if s.ext.isRepeated then Many(ViewItems(s.ext.items)) else One(ViewItem(s.ext.item));
  }

  /** A packed extension caches the size of its data, also when it has none. */
  ghost predicate ExtensionCached(reg: Registry, t: nat, s: Slot, budget: nat)
    requires Visible(s.ext) ==> TypedField(reg, t, ViewSlot(s), budget)
    decreases s
  {
    if !Visible(s.ext) then s.ext.isRepeated && s.ext.isPacked ==> s.ext.cachedSize == 0
    else
      TypedSlot(reg, t, s, budget);
      var info := reg(t, s.number).value;
      if s.ext.isRepeated then
        if info.isPacked then s.ext.cachedSize == |WritePacked(reg, info, ViewItems(s.ext.items), budget)|
        else ItemsCached(reg, info, s.ext.items, budget)
      else ItemCached(reg, info, s.ext.item, budget)
  }

  ghost predicate SlotsCached(reg: Registry, t: nat, ss: seq<Slot>, budget: nat)
    decreases ss
  {
    forall i :: 0 <= i < |ss| ==>
      && (Visible(ss[i].ext) ==> TypedField(reg, t, ViewSlot(ss[i]), budget))
      && ExtensionCached(reg, t, ss[i], budget)
  }

  // ------------------------------------------------------------------
  // The size pass

  /** The size of what the set shows, with every size inside it cached. */
  method ByteSize(extensions: ExtensionSet, ghost budget: nat) returns (total: nat)
    requires extensions.Valid() && Typed(extensions.reg, extensions.t, extensions.Fields(), budget)
    requires Fits(extensions.reg, extensions.t, extensions.Fields(), budget)
    modifies extensions
    ensures extensions.Valid() && extensions.Fields() == old(extensions.Fields())
    ensures SlotsCached(extensions.reg, extensions.t, extensions.slots, budget)
    ensures Typed(extensions.reg, extensions.t, extensions.Fields(), budget)
    ensures Fits(extensions.reg, extensions.t, extensions.Fields(), budget)
    ensures total == FieldsByteSize(extensions.reg, extensions.t, extensions.Fields(), budget)
    ensures total == |WriteFieldsOf(extensions.reg, extensions.t, extensions.Fields(), budget)|
    decreases extensions.slots, 2
  {
    ghost var reg, t, before := extensions.reg, extensions.t, extensions.slots;
    SizedExactly(reg, t, before, budget) by { FormedInOrder(reg, t, before); }
    FieldsSizeMatches(reg, t, View(before), budget);
    var sized;
    total, sized := SlotsByteSize(extensions.reg, extensions.t, extensions.slots, budget);
    extensions.slots := sized;
  }

  /** The sizes of slots, added up, and the slots with their sizes cached. */
  method SlotsByteSize(reg: Registry, t: nat, ss: seq<Slot>, ghost budget: nat) returns (total: nat, sized: seq<Slot>)
    requires RegistrySound(reg) && Formed(reg, t, ss) && AllSized(reg, t, ss, budget)
    ensures Formed(reg, t, sized) && View(sized) == View(ss) && SlotsCached(reg, t, sized, budget)
    ensures Typed(reg, t, View(ss), budget) && Fits(reg, t, View(ss), budget)
    ensures total == FieldsByteSize(reg, t, View(ss), budget)
    decreases ss, 1
  {
    hide SlotFormed, Sized, Visible, ViewSlot, ExtensionCached, FieldByteSize, FieldsByteSize, TypedField, FitsField,
      View, Typed,
      Fits, SlotDone, SlotsCached;
    SizedExactly(reg, t, ss, budget);
    NoSlots(reg, t, budget);
    assert ss[0..] == ss;
    total, sized := 0, [];
    var i := 0;
    while i < |ss|
      invariant 0 <= i <= |ss| && |sized| == i
      invariant forall k :: 0 <= k < i ==> SlotDone(reg, t, ss[k], sized[k], budget)
      invariant Typed(reg, t, View(ss[i..]), budget) && Fits(reg, t, View(ss[i..]), budget)
      invariant total + FieldsByteSize(reg, t, View(ss[i..]), budget) == FieldsByteSize(reg, t, View(ss), budget)
    {
      TailSized(reg, t, ss, i, budget);
      var size, s := SlotByteSize(reg, t, ss[i], budget);
      SlotIsDone(reg, t, ss[i], s, budget);
      total, sized, i := total + size, sized + [s], i + 1;
    }
    assert ss[i..] == [];
    AllDone(reg, t, ss, sized, budget);
  }

  /** A slot as the size pass leaves it. */
  ghost predicate SlotDone(reg: Registry, t: nat, s: Slot, r: Slot, budget: nat) {
    && SlotFormed(reg, t, r) && SameSlot(s, r)
    && (Visible(r.ext) ==> TypedField(reg, t, ViewSlot(r), budget)) && ExtensionCached(reg, t, r, budget)
  }

  lemma SlotIsDone(reg: Registry, t: nat, s: Slot, r: Slot, budget: nat)
    requires SlotFormed(reg, t, r) && r.number == s.number && Visible(r.ext) == Visible(s.ext)
    requires Visible(s.ext) ==> ViewSlot(r) == ViewSlot(s) && TypedField(reg, t, ViewSlot(s), budget)
    requires ExtensionCached(reg, t, r, budget)
    ensures SlotDone(reg, t, s, r, budget)
  {
  }

  lemma NoSlots(reg: Registry, t: nat, budget: nat)
    ensures View([]) == [] && Typed(reg, t, [], budget) && Fits(reg, t, [], budget)
    ensures FieldsByteSize(reg, t, [], budget) == 0
  {
  }

  lemma AllDone(reg: Registry, t: nat, ss: seq<Slot>, rs: seq<Slot>, budget: nat)
    requires InOrder(ss) && |ss| == |rs|
    requires forall k :: 0 <= k < |ss| ==> SlotDone(reg, t, ss[k], rs[k], budget)
    ensures Formed(reg, t, rs) && View(rs) == View(ss) && SlotsCached(reg, t, rs, budget)
  {
    hide SlotFormed, Visible, ViewSlot, ExtensionCached, TypedField, View;
    forall k | 0 <= k < |ss| ensures SameSlot(ss[k], rs[k]) { assert SlotDone(reg, t, ss[k], rs[k], budget); }
    SameSlotsView(ss, rs);
    forall j, k | 0 <= j < k < |rs| ensures rs[j].number < rs[k].number {
      assert SameSlot(ss[j], rs[j]) && SameSlot(ss[k], rs[k]);
    }
    forall k | 0 <= k < |rs| ensures SlotFormed(reg, t, rs[k]) { assert SlotDone(reg, t, ss[k], rs[k], budget); }
    forall k | 0 <= k < |rs|
      ensures (Visible(rs[k].ext) ==> TypedField(reg, t, ViewSlot(rs[k]), budget))
      ensures ExtensionCached(reg, t, rs[k], budget)
    {
      assert SlotDone(reg, t, ss[k], rs[k], budget);
    }
  }

  /** Slots that show the same. */
  predicate SameSlot(s: Slot, r: Slot) {
    s.number == r.number && Visible(s.ext) == Visible(r.ext) && (Visible(s.ext) ==> ViewSlot(s) == ViewSlot(r))
  }

  lemma {:induction false} SameSlotsView(ss: seq<Slot>, rs: seq<Slot>)
    requires |ss| == |rs| && forall k :: 0 <= k < |ss| ==> SameSlot(ss[k], rs[k])
    ensures View(ss) == View(rs)
  {
    hide Visible, ViewSlot;
    if ss != [] {
      assert SameSlot(ss[0], rs[0]);
      SameSlotsView(ss[1..], rs[1..]);
    }
  }

  lemma TailSized(reg: Registry, t: nat, ss: seq<Slot>, i: nat, budget: nat)
    requires Formed(reg, t, ss) && AllSized(reg, t, ss, budget) && i < |ss|
    requires Typed(reg, t, View(ss[i..]), budget) && Fits(reg, t, View(ss[i..]), budget)
    ensures Typed(reg, t, View(ss[i + 1..]), budget) && Fits(reg, t, View(ss[i + 1..]), budget)
    ensures Visible(ss[i].ext) ==>
      TypedField(reg, t, ViewSlot(ss[i]), budget) && FitsField(reg, t, ViewSlot(ss[i]), budget)
    ensures FieldsByteSize(reg, t, View(ss[i..]), budget) ==
            (if Visible(ss[i].ext) then FieldByteSize(reg, t, ViewSlot(ss[i]), budget) else 0)
            + FieldsByteSize(reg, t, View(ss[i + 1..]), budget)
  {
    hide SlotFormed, Visible, ViewSlot, FieldByteSize, TypedField, FitsField;
    assert ss[i..][1..] == ss[i + 1..] && ss[i..][0] == ss[i];
    assert Sized(reg, t, ss[i], budget);
    var more := View(ss[i + 1..]);
    if Visible(ss[i].ext) {
      TypedCons(reg, t, ViewSlot(ss[i]), more, budget);
      assert ([ViewSlot(ss[i])] + more)[1..] == more;
    }
  }

  method SlotByteSize(reg: Registry, t: nat, s: Slot, ghost budget: nat) returns (size: nat, sized: Slot)
    requires RegistrySound(reg) && SlotFormed(reg, t, s) && Sized(reg, t, s, budget)
    ensures SlotFormed(reg, t, sized) && sized.number == s.number && Visible(sized.ext) == Visible(s.ext)
    ensures Visible(s.ext) ==> ViewSlot(sized) == ViewSlot(s)
    ensures ExtensionCached(reg, t, sized, budget)
    ensures size == if Visible(s.ext) then FieldByteSize(reg, t, ViewSlot(s), budget) else 0
    decreases s, 2
  {
    var info := reg(t, s.number).value;
    var e := s.ext;
    if e.isRepeated {
      size, e := RepeatedByteSize(reg, t, s, budget);
    } else if !e.isCleared {
      TypedSlot(reg, t, s, budget);
      var item;
      size, item := ItemByteSize(reg, info, e.item, budget);
      size := size + TagSizeOf(s.number, info.fieldType);
      e := e.(item := item);
    } else {
      size := 0;
    }
    sized := s.(ext := e);
    if Visible(sized.ext) { assert ViewSlot(sized) == ViewSlot(s); TypedSlot(reg, t, sized, budget); }
  }

  /** For packed data the size of the values alone is cached; no data, no bytes. */
  method RepeatedByteSize(reg: Registry, t: nat, s: Slot, ghost budget: nat) returns (size: nat, e: Extension)
    requires RegistrySound(reg) && SlotFormed(reg, t, s) && Sized(reg, t, s, budget) && s.ext.isRepeated
    ensures SlotFormed(reg, t, Slot(s.number, e)) && e.isRepeated && Visible(e) == Visible(s.ext)
    ensures ViewItems(e.items) == ViewItems(s.ext.items)
    ensures Visible(e) ==> TypedField(reg, t, ViewSlot(Slot(s.number, e)), budget)
    ensures ExtensionCached(reg, t, Slot(s.number, e), budget)
    ensures size == if Visible(s.ext) then FieldByteSize(reg, t, ViewSlot(s), budget) else 0
    decreases s, 1
  {
    e := s.ext;
    var info := reg(t, s.number).value;
    if e.items == [] {
      size := 0;
      if e.isPacked { e := e.(cachedSize := 0); }
    } else if e.isPacked {
      TypedSlot(reg, t, s, budget);
      PackedSizeMatches(reg, info, ViewItems(e.items), budget);
      size := PackedBytes(reg, info, e.items, budget);
      e := e.(cachedSize := size);
      if size > 0 { size := size + VarintSize32(size) + VarintSize32(MakeTag(s.number, WIRETYPE_LENGTH_DELIMITED)); }
      TypedSlot(reg, t, Slot(s.number, e), budget);
    } else {
      size, e := UnpackedByteSize(reg, t, s, budget);
    }
  }

  method UnpackedByteSize(reg: Registry, t: nat, s: Slot, ghost budget: nat) returns (size: nat, e: Extension)
    requires RegistrySound(reg) && SlotFormed(reg, t, s) && Visible(s.ext) && Sized(reg, t, s, budget)
    requires s.ext.isRepeated && !s.ext.isPacked
    ensures SlotFormed(reg, t, Slot(s.number, e)) && e.isRepeated && Visible(e)
    ensures ViewItems(e.items) == ViewItems(s.ext.items)
    ensures TypedField(reg, t, ViewSlot(Slot(s.number, e)), budget)
    ensures ExtensionCached(reg, t, Slot(s.number, e), budget)
    ensures size == FieldByteSize(reg, t, ViewSlot(s), budget)
    decreases s, 0
  {
    hide ItemsFormed, TypedValues, FitsValues, ItemsCached, ValuesSize, ViewItems, TagSizeOf;
    e := s.ext;
    var info := reg(t, s.number).value;
    TypedSlot(reg, t, s, budget);
    var items;
    size, items := ItemsByteSize(reg, info, e.items, budget);
    size := TagSizeOf(s.number, info.fieldType) * |e.items| + size;
    e := e.(items := items);
    assert ViewSlot(Slot(s.number, e)) == ViewSlot(s);
    TypedSlot(reg, t, Slot(s.number, e), budget);
  }

  method PackedBytes(reg: Registry, info: Info, items: seq<Item>, ghost budget: nat) returns (total: nat)
    requires IsPrimitive(info.fieldType) && TypedValues(reg, info, ViewItems(items), budget)
    ensures total == PackedSize(reg, info, ViewItems(items), budget)
  {
    hide PrimitiveSize, InRange;
    total := 0;
    var i := 0;
    assert items[0..] == items;
    while i < |items|
      invariant 0 <= i <= |items| && TypedValues(reg, info, ViewItems(items[i..]), budget)
      invariant total + PackedSize(reg, info, ViewItems(items[i..]), budget)
             == PackedSize(reg, info, ViewItems(items), budget)
    {
      assert items[i..][1..] == items[i + 1..];
      assert ViewItems(items[i..])[1..] == ViewItems(items[i + 1..]);
      assert TypedValue(reg, info, ViewItem(items[i]), budget);
      total, i := total + PrimitiveSize(info.fieldType, items[i].n), i + 1;
    }
  }

  method ItemByteSize(reg: Registry, info: Info, i: Item, ghost budget: nat) returns (size: nat, j: Item)
    requires RegistrySound(reg) && ItemFormed(reg, info, i)
    requires TypedValue(reg, info, ViewItem(i), budget) && FitsValue(reg, info, ViewItem(i), budget)
    ensures ItemFormed(reg, info, j) && ViewItem(j) == ViewItem(i) && ItemCached(reg, info, j, budget)
    ensures size == ValueSize(reg, info, ViewItem(i), budget)
    decreases i, 0
  {
    match i {
      case Num(n) => size, j := PrimitiveSize(info.fieldType, n), i;
      case Str(s) => size, j := LengthDelimitedSize(|s|), i;
      case Msg(slots, _) =>
        var message := new ExtensionSet(reg, info.messageType, slots);
        size := ByteSize(message, budget - 1);
        j := Msg(message.slots, size);
        if info.fieldType == MESSAGE { size := LengthDelimitedSize(size); }
    }
  }

  method ItemsByteSize(reg: Registry, info: Info, items: seq<Item>, ghost budget: nat)
    returns (total: nat, sized: seq<Item>)
    requires RegistrySound(reg) && ItemsFormed(reg, info, items)
    requires TypedValues(reg, info, ViewItems(items), budget) && FitsValues(reg, info, ViewItems(items), budget)
    ensures ItemsFormed(reg, info, sized) && ViewItems(sized) == ViewItems(items)
    ensures ItemsCached(reg, info, sized, budget)
    ensures total == ValuesSize(reg, info, ViewItems(items), budget)
    decreases items, 1
  {
    hide ItemFormed, ViewItem, ItemsFormed, ViewItems, ValueSize, ValuesSize, ItemCached, ItemsCached, TypedValue,
      TypedValues,
      FitsValue, FitsValues;
    NoItems(reg, info, budget);
    total, sized := 0, [];
    var i := 0;
    assert items[0..] == items;
    while i < |items|
      invariant 0 <= i <= |items| && ItemsFormed(reg, info, sized) && ItemsFormed(reg, info, items[i..])
      invariant ViewItems(sized) + ViewItems(items[i..]) == ViewItems(items)
      invariant TypedValues(reg, info, ViewItems(items[i..]), budget)
      invariant FitsValues(reg, info, ViewItems(items[i..]), budget)
      invariant TypedValues(reg, info, ViewItems(sized), budget) && ItemsCached(reg, info, sized, budget)
      invariant total + ValuesSize(reg, info, ViewItems(items[i..]), budget)
             == ValuesSize(reg, info, ViewItems(items), budget)
    {
      ItemsTail(reg, info, items, i, budget);
      ghost var done := ViewItems(sized);
      var size, item := ItemByteSize(reg, info, items[i], budget);
      CachedAppend(reg, info, sized, item, budget);
      assert done + ([ViewItem(items[i])] + ViewItems(items[i + 1..]))
          == done + [ViewItem(item)] + ViewItems(items[i + 1..]);
      total, sized, i := total + size, sized + [item], i + 1;
    }
    assert items[i..] == [] && ViewItems(sized) + [] == ViewItems(sized);
  }

  lemma NoItems(reg: Registry, info: Info, budget: nat)
    ensures ItemsFormed(reg, info, []) && ViewItems([]) == []
    ensures TypedValues(reg, info, [], budget) && ItemsCached(reg, info, [], budget)
    ensures FitsValues(reg, info, [], budget) && ValuesSize(reg, info, [], budget) == 0
  {
  }

  lemma ItemsTail(reg: Registry, info: Info, items: seq<Item>, i: nat, budget: nat)
    requires i < |items| && ItemsFormed(reg, info, items[i..])
    requires TypedValues(reg, info, ViewItems(items[i..]), budget)
    requires FitsValues(reg, info, ViewItems(items[i..]), budget)
    ensures ItemFormed(reg, info, items[i]) && ItemsFormed(reg, info, items[i + 1..])
    ensures ViewItems(items[i..]) == [ViewItem(items[i])] + ViewItems(items[i + 1..])
    ensures TypedValue(reg, info, ViewItem(items[i]), budget) && FitsValue(reg, info, ViewItem(items[i]), budget)
    ensures TypedValues(reg, info, ViewItems(items[i + 1..]), budget)
    ensures FitsValues(reg, info, ViewItems(items[i + 1..]), budget)
    ensures ValuesSize(reg, info, ViewItems(items[i..]), budget)
         == ValueSize(reg, info, ViewItem(items[i]), budget) + ValuesSize(reg, info, ViewItems(items[i + 1..]), budget)
  {
    hide ItemFormed, ViewItem, ValueSize, TypedValue, FitsValue;
    assert items[i..][1..] == items[i + 1..];
    assert ViewItems(items[i..])[1..] == ViewItems(items[i + 1..]);
  }

  lemma {:induction false} CachedAppend(reg: Registry, info: Info, items: seq<Item>, i: Item, budget: nat)
    requires ItemsFormed(reg, info, items) && ItemFormed(reg, info, i)
    requires TypedValues(reg, info, ViewItems(items), budget) && ItemsCached(reg, info, items, budget)
    requires TypedValue(reg, info, ViewItem(i), budget) && ItemCached(reg, info, i, budget)
    ensures ItemsFormed(reg, info, items + [i]) && ViewItems(items + [i]) == ViewItems(items) + [ViewItem(i)]
    ensures TypedValues(reg, info, ViewItems(items + [i]), budget) && ItemsCached(reg, info, items + [i], budget)
    decreases items
  {
    hide ItemFormed, ViewItem, ItemCached, TypedValue;
    var all := items + [i];
    ItemsFormedAppend(reg, info, items, [i]);
    ItemsFormedOne(reg, info, i);
    ViewItemsAppend(items, [i]);
    ViewItemsOne(i);
    if items == [] {
      assert all == [i] && all[1..] == [] && ViewItems(all)[1..] == [];
    } else {
      assert ViewItems(items)[1..] == ViewItems(items[1..]);
      assert all[1..] == items[1..] + [i] && ViewItems(all)[1..] == ViewItems(all[1..]);
      CachedAppend(reg, info, items[1..], i, budget);
    }
  }

  // ------------------------------------------------------------------
  // The write pass

  /** What is written of one slot. */
  ghost function SlotBytes(reg: Registry, t: nat, s: Slot, budget: nat): bytes
    requires Visible(s.ext) ==> TypedField(reg, t, ViewSlot(s), budget)
  {
    if Visible(s.ext) then WriteFieldOf(reg, t, ViewSlot(s), budget) else []
  }

  /** The extensions with numbers from `start` up to `end`, with the sizes that were
      cached. */
  method SerializeWithCachedSizes(extensions: ExtensionSet, start: nat, end: nat, output: CodedOutputStream,
                                  ghost budget: nat)
    requires extensions.Valid() && Typed(extensions.reg, extensions.t, extensions.Fields(), budget)
    requires SlotsCached(extensions.reg, extensions.t, extensions.slots, budget)
    modifies output
    ensures Typed(extensions.reg, extensions.t, InRangeOf(extensions.Fields(), start, end), budget)
    ensures output.written == old(output.written)
              + WriteFieldsOf(extensions.reg, extensions.t, InRangeOf(extensions.Fields(), start, end), budget)
  {
    SerializeSlots(extensions.reg, extensions.t, extensions.slots, start, end, output, budget);
  }

  method SerializeSlots(reg: Registry, t: nat, ss: seq<Slot>, start: nat, end: nat, output: CodedOutputStream,
                        ghost budget: nat)
    requires Formed(reg, t, ss) && Typed(reg, t, View(ss), budget) && SlotsCached(reg, t, ss, budget)
    modifies output
    ensures Typed(reg, t, InRangeOf(View(ss), start, end), budget)
    ensures output.written == old(output.written) + WriteFieldsOf(reg, t, InRangeOf(View(ss), start, end), budget)
    decreases ss, 1
  {
    hide Typed, Visible, ViewSlot, ExtensionCached, TypedField, InRangeOf, SlotFormed, Formed, SlotsCached, View,
      WriteFieldsOf,
      TailTyped, TailBytes, SlotBytes;
    TailStart(reg, t, ss, start, end, budget);
    ghost var before, whole := output.written, TailBytes(reg, t, ss, 0, start, end, budget);
    FormedInOrder(reg, t, ss);
    var i := 0;
    while i < |ss| && ss[i].number < start
      invariant 0 <= i <= |ss| && TailTyped(reg, t, ss, i, start, end, budget)
      invariant TailBytes(reg, t, ss, i, start, end, budget) == whole && output.written == before
    {
      TailStep(reg, t, ss, i, start, end, budget);
      assert [] + TailBytes(reg, t, ss, i + 1, start, end, budget) == TailBytes(reg, t, ss, i + 1, start, end, budget);
      i := i + 1;
    }
    while i < |ss| && ss[i].number < end
      invariant 0 <= i <= |ss| && TailTyped(reg, t, ss, i, start, end, budget)
      invariant i < |ss| ==> start <= ss[i].number
      invariant output.written + TailBytes(reg, t, ss, i, start, end, budget) == before + whole
    {
      TailStep(reg, t, ss, i, start, end, budget);
      SlotFacts(reg, t, ss, i, budget);
      ghost var rest := TailBytes(reg, t, ss, i + 1, start, end, budget);
      ghost var done := output.written;
      SerializeSlot(reg, t, ss[i], output, budget);
      assert done + (SlotBytes(reg, t, ss[i], budget) + rest) == output.written + rest;
      i := i + 1;
    }
    TailEnd(reg, t, ss, i, start, end, budget);
    assert output.written + [] == output.written;
  }

  lemma TailStart(reg: Registry, t: nat, ss: seq<Slot>, start: nat, end: nat, budget: nat)
    requires Typed(reg, t, View(ss), budget)
    ensures TailTyped(reg, t, ss, 0, start, end, budget)
    ensures Typed(reg, t, InRangeOf(View(ss), start, end), budget)
    ensures TailBytes(reg, t, ss, 0, start, end, budget)
         == WriteFieldsOf(reg, t, InRangeOf(View(ss), start, end), budget)
  {
    assert ss[0..] == ss;
    RangeTyped(reg, t, View(ss), start, end, budget);
  }

  lemma SlotFacts(reg: Registry, t: nat, ss: seq<Slot>, i: nat, budget: nat)
    requires Formed(reg, t, ss) && SlotsCached(reg, t, ss, budget) && i < |ss|
    ensures SlotFormed(reg, t, ss[i]) && (Visible(ss[i].ext) ==> TypedField(reg, t, ViewSlot(ss[i]), budget))
    ensures ExtensionCached(reg, t, ss[i], budget)
    ensures i + 1 < |ss| ==> ss[i].number < ss[i + 1].number
  {
    hide SlotFormed, TypedField, ViewSlot, ExtensionCached;
  }

  /** What is left to write from position `i` on. */
  ghost predicate TailTyped(reg: Registry, t: nat, ss: seq<Slot>, i: nat, start: nat, end: nat, budget: nat)
    requires i <= |ss|
  {
    Typed(reg, t, View(ss[i..]), budget) && Typed(reg, t, InRangeOf(View(ss[i..]), start, end), budget)
  }

  ghost function TailBytes(reg: Registry, t: nat, ss: seq<Slot>, i: nat, start: nat, end: nat, budget: nat): bytes
    requires i <= |ss| && TailTyped(reg, t, ss, i, start, end, budget)
  {
    WriteFieldsOf(reg, t, InRangeOf(View(ss[i..]), start, end), budget)
  }

  lemma TailStep(reg: Registry, t: nat, ss: seq<Slot>, i: nat, start: nat, end: nat, budget: nat)
    requires i < |ss| && TailTyped(reg, t, ss, i, start, end, budget)
    ensures TailTyped(reg, t, ss, i + 1, start, end, budget)
    ensures Visible(ss[i].ext) ==> TypedField(reg, t, ViewSlot(ss[i]), budget)
    ensures TailBytes(reg, t, ss, i, start, end, budget) ==
            (if start <= ss[i].number < end then SlotBytes(reg, t, ss[i], budget) else [])
            + TailBytes(reg, t, ss, i + 1, start, end, budget)
  {
    hide Visible, WriteFieldOf, TypedField, ContentOf;
    assert ss[i..][1..] == ss[i + 1..] && ss[i..][0] == ss[i];
    var more := View(ss[i + 1..]);
    if Visible(ss[i].ext) {
      TypedCons(reg, t, ViewSlot(ss[i]), more, budget);
      assert ([ViewSlot(ss[i])] + more)[1..] == more;
      var kept := InRangeOf(more, start, end);
      assert ([ViewSlot(ss[i])] + kept)[1..] == kept;
    }
    RangeTyped(reg, t, more, start, end, budget);
  }

  lemma TailEnd(reg: Registry, t: nat, ss: seq<Slot>, i: nat, start: nat, end: nat, budget: nat)
    requires InOrder(ss) && i <= |ss| && TailTyped(reg, t, ss, i, start, end, budget)
    requires i < |ss| ==> end <= ss[i].number
    ensures TailBytes(reg, t, ss, i, start, end, budget) == []
  {
    forall k | 0 <= k < |ss[i..]| ensures end <= ss[i..][k].number { assert ss[i].number <= ss[i + k].number; }
    ViewNumbers(ss[i..], end);
    RangeEmpty(View(ss[i..]), start, end);
  }

  method SerializeSlot(reg: Registry, t: nat, s: Slot, output: CodedOutputStream, ghost budget: nat)
    requires SlotFormed(reg, t, s) && (Visible(s.ext) ==> TypedField(reg, t, ViewSlot(s), budget))
    requires ExtensionCached(reg, t, s, budget)
    modifies output
    ensures output.written == old(output.written) + SlotBytes(reg, t, s, budget)
    decreases s, 0
  {
    SlotParts(reg, t, s, budget);
    hide SlotFormed, TypedField, ExtensionCached, SlotBytes, WriteValue, WriteValues, WritePacked, ItemCached,
      ItemsCached,
      ViewItem, ViewItems, WriteString;
    var info := reg(t, s.number).value;
    if s.ext.isRepeated {
      if s.ext.isPacked {
        if s.ext.cachedSize == 0 { return; }
        SerializePacked(reg, info, s.number, s.ext, output, budget);
      } else if s.ext.items != [] {
        SerializeItems(reg, info, s.number, s.ext.items, output, budget);
      }
    } else if !s.ext.isCleared {
      SerializeItem(reg, info, s.number, s.ext.item, output, budget);
    }
  }

  /** What is written of a slot, and what its cached sizes are, by cases. */
  lemma SlotParts(reg: Registry, t: nat, s: Slot, budget: nat)
    requires SlotFormed(reg, t, s) && (Visible(s.ext) ==> TypedField(reg, t, ViewSlot(s), budget))
    requires ExtensionCached(reg, t, s, budget)
    ensures reg(t, s.number).Some? && s.number < FIELD_LIMIT
    ensures !Visible(s.ext) ==> SlotBytes(reg, t, s, budget) == []
    ensures s.ext.isRepeated && s.ext.isPacked ==> (s.ext.cachedSize == 0 <==> !Visible(s.ext))
    ensures var info := reg(t, s.number).value;
      Visible(s.ext) ==>
        if s.ext.isRepeated then
          && TypedValues(reg, info, ViewItems(s.ext.items), budget)
          && (if s.ext.isPacked then
                && IsPrimitive(info.fieldType)
                && s.ext.cachedSize == |WritePacked(reg, info, ViewItems(s.ext.items), budget)|
                && SlotBytes(reg, t, s, budget) == WriteTag(s.number, WIRETYPE_LENGTH_DELIMITED)
                     + WriteString(WritePacked(reg, info, ViewItems(s.ext.items), budget))
              else
                && ItemsCached(reg, info, s.ext.items, budget)
                && SlotBytes(reg, t, s, budget) == WriteValues(reg, info, s.number, ViewItems(s.ext.items), budget))
        else
          && TypedValue(reg, info, ViewItem(s.ext.item), budget)
          && ItemCached(reg, info, s.ext.item, budget)
          && SlotBytes(reg, t, s, budget) == WriteValue(reg, info, s.number, ViewItem(s.ext.item), budget)
  {
    if Visible(s.ext) {
      TypedSlot(reg, t, s, budget);
      if s.ext.isRepeated && s.ext.isPacked {
        PackedSizeMatches(reg, reg(t, s.number).value, ViewItems(s.ext.items), budget);
      }
      hide TypedValue, TypedValues, WriteValue, WriteValues, WritePacked, ItemCached, ItemsCached, ViewItem, ViewItems,
        WriteString;
    }
  }

  method SerializePacked(reg: Registry, info: Info, n: nat, e: Extension, output: CodedOutputStream, ghost budget: nat)
    requires IsPrimitive(info.fieldType) && TypedValues(reg, info, ViewItems(e.items), budget)
    requires e.cachedSize == |WritePacked(reg, info, ViewItems(e.items), budget)|
    modifies output
    ensures output.written == old(output.written) + (WriteTag(n, WIRETYPE_LENGTH_DELIMITED)
              + WriteString(WritePacked(reg, info, ViewItems(e.items), budget)))
  {
    hide Wire.WriteVarint, WritePrimitive, TypedValue, ViewItem;
    ghost var data := WritePacked(reg, info, ViewItems(e.items), budget);
    ghost var start := output.written;
    output.WriteVarint(n * 8 + WIRETYPE_LENGTH_DELIMITED);
    output.WriteVarint(e.cachedSize);
    ghost var head := output.written;
    assert e.items[0..] == e.items;
    var i := 0;
    while i < |e.items|
      invariant 0 <= i <= |e.items| && TypedValues(reg, info, ViewItems(e.items[i..]), budget)
      invariant output.written + WritePacked(reg, info, ViewItems(e.items[i..]), budget) == head + data
    {
      ghost var done, rest := output.written, ViewItems(e.items[i + 1..]);
      assert e.items[i..][1..] == e.items[i + 1..];
      assert ViewItems(e.items[i..])[1..] == rest;
      PackedItem(reg, info, e.items[i], budget);
      output.WriteRaw(WritePrimitive(info.fieldType, e.items[i].n));
      assert done + (WritePrimitive(info.fieldType, e.items[i].n) + WritePacked(reg, info, rest, budget))
          == output.written + WritePacked(reg, info, rest, budget);
      i := i + 1;
    }
    assert head + data == start + (WriteTag(n, WIRETYPE_LENGTH_DELIMITED) + WriteString(data));
  }

  lemma PackedItem(reg: Registry, info: Info, i: Item, budget: nat)
    requires IsPrimitive(info.fieldType) && TypedValue(reg, info, ViewItem(i), budget)
    ensures i.Num? && ViewItem(i) == Number(i.n) && InRange(info.fieldType, i.n)
  {
  }

  method SerializeItems(reg: Registry, info: Info, n: nat, items: seq<Item>, output: CodedOutputStream,
                        ghost budget: nat)
    requires TypedValues(reg, info, ViewItems(items), budget) && ItemsCached(reg, info, items, budget)
    requires ItemsFormed(reg, info, items)
    modifies output
    ensures output.written == old(output.written) + WriteValues(reg, info, n, ViewItems(items), budget)
    decreases items, 1
  {
    hide WriteValue, TypedValue, ViewItem, ItemCached, ItemFormed;
    ghost var base := output.written;
    assert items[0..] == items;
    var i := 0;
    while i < |items|
      invariant 0 <= i <= |items| && TypedValues(reg, info, ViewItems(items[i..]), budget)
      invariant ItemsCached(reg, info, items[i..], budget) && ItemsFormed(reg, info, items[i..])
      invariant output.written + WriteValues(reg, info, n, ViewItems(items[i..]), budget)
             == base + WriteValues(reg, info, n, ViewItems(items), budget)
    {
      ghost var done, rest := output.written, ViewItems(items[i + 1..]);
      assert items[i..][1..] == items[i + 1..];
      assert ViewItems(items[i..])[1..] == rest;
      SerializeItem(reg, info, n, items[i], output, budget);
      assert done + (WriteValue(reg, info, n, ViewItem(items[i]), budget) + WriteValues(reg, info, n, rest, budget))
          == output.written + WriteValues(reg, info, n, rest, budget);
      i := i + 1;
    }
  }

  method SerializeItem(reg: Registry, info: Info, n: nat, i: Item, output: CodedOutputStream, ghost budget: nat)
    requires TypedValue(reg, info, ViewItem(i), budget) && ItemCached(reg, info, i, budget) && ItemFormed(reg, info, i)
    modifies output
    ensures output.written == old(output.written) + WriteValue(reg, info, n, ViewItem(i), budget)
    decreases i, 0
  {
    hide Wire.WriteVarint, WritePrimitive, WriteFieldsOf;
    match i {
      case Num(k) =>
        output.WriteVarint(n * 8 + WireTypeFor(info.fieldType));
        output.WriteRaw(WritePrimitive(info.fieldType, k));
      case Str(s) =>
        output.WriteVarint(n * 8 + WIRETYPE_LENGTH_DELIMITED);
        output.WriteVarint(|s|);
        output.WriteRaw(s);
      case Msg(slots, size) =>
        SerializeNested(reg, info, n, i, output, budget);
    }
  }

  method SerializeNested(reg: Registry, info: Info, n: nat, i: Item, output: CodedOutputStream, ghost budget: nat)
    requires i.Msg? && TypedValue(reg, info, ViewItem(i), budget) && ItemCached(reg, info, i, budget)
    requires ItemFormed(reg, info, i)
    modifies output
    ensures output.written == old(output.written) + WriteValue(reg, info, n, ViewItem(i), budget)
    decreases i.slots, 4
  {
    NestedBytes(reg, info, n, i, budget);
    hide WriteTag, WriteFieldsOf, WriteValue, TypedValue, ItemCached, ItemFormed, WriteString;
    if info.fieldType == GROUP { SerializeGroup(reg, info.messageType, n, i.slots, output, budget - 1); }
    else { SerializeDelimited(reg, info.messageType, n, i.slots, i.cachedSize, output, budget - 1); }
  }

  lemma NestedBytes(reg: Registry, info: Info, n: nat, i: Item, budget: nat)
    requires i.Msg? && TypedValue(reg, info, ViewItem(i), budget) && ItemCached(reg, info, i, budget)
    requires ItemFormed(reg, info, i)
    ensures budget > 0 && Typed(reg, info.messageType, View(i.slots), budget - 1)
    ensures SlotsCached(reg, info.messageType, i.slots, budget - 1) && Formed(reg, info.messageType, i.slots)
    ensures var data := WriteFieldsOf(reg, info.messageType, View(i.slots), budget - 1);
      && i.cachedSize == |data|
      && WriteValue(reg, info, n, ViewItem(i), budget) ==
           if info.fieldType == GROUP then WriteTag(n, WIRETYPE_START_GROUP) + data + WriteTag(n, WIRETYPE_END_GROUP)
           else WriteTag(n, WIRETYPE_LENGTH_DELIMITED) + WriteString(data)
  {
    hide Wire.WriteVarint, WriteFieldsOf;
  }

  method SerializeGroup(reg: Registry, t: nat, n: nat, slots: seq<Slot>, output: CodedOutputStream, ghost budget: nat)
    requires Formed(reg, t, slots) && Typed(reg, t, View(slots), budget) && SlotsCached(reg, t, slots, budget)
    modifies output
    ensures output.written == old(output.written) + (WriteTag(n, WIRETYPE_START_GROUP)
              + WriteFieldsOf(reg, t, View(slots), budget) + WriteTag(n, WIRETYPE_END_GROUP))
    decreases slots, 3
  {
    hide Wire.WriteVarint, WriteFieldsOf, Formed, Typed, View, SlotsCached;
    output.WriteVarint(n * 8 + WIRETYPE_START_GROUP);
    SerializeMessage(reg, t, slots, output, budget);
    output.WriteVarint(n * 8 + WIRETYPE_END_GROUP);
  }

  method SerializeDelimited(reg: Registry, t: nat, n: nat, slots: seq<Slot>, size: nat, output: CodedOutputStream,
                            ghost budget: nat)
    requires Formed(reg, t, slots) && Typed(reg, t, View(slots), budget) && SlotsCached(reg, t, slots, budget)
    requires size == |WriteFieldsOf(reg, t, View(slots), budget)|
    modifies output
    ensures output.written == old(output.written)
              + (WriteTag(n, WIRETYPE_LENGTH_DELIMITED) + WriteString(WriteFieldsOf(reg, t, View(slots), budget)))
    decreases slots, 3
  {
    hide Wire.WriteVarint, WriteFieldsOf, Formed, Typed, View, SlotsCached;
    ghost var start, data := output.written, WriteFieldsOf(reg, t, View(slots), budget);
    output.WriteVarint(n * 8 + WIRETYPE_LENGTH_DELIMITED);
    output.WriteVarint(size);
    SerializeMessage(reg, t, slots, output, budget);
    assert start + WriteTag(n, WIRETYPE_LENGTH_DELIMITED) + Wire.WriteVarint(size) + data
        == start + (WriteTag(n, WIRETYPE_LENGTH_DELIMITED) + (Wire.WriteVarint(size) + data));
  }

  /** A nested message writes all of its extensions. */
  method SerializeMessage(reg: Registry, t: nat, slots: seq<Slot>, output: CodedOutputStream, ghost budget: nat)
    requires Formed(reg, t, slots) && Typed(reg, t, View(slots), budget) && SlotsCached(reg, t, slots, budget)
    modifies output
    ensures output.written == old(output.written) + WriteFieldsOf(reg, t, View(slots), budget)
    decreases slots, 2
  {
    hide SlotFormed, TypedField;
    assert forall i :: 0 <= i < |View(slots)| ==> TypedField(reg, t, View(slots)[i], budget);
    RangeWhole(View(slots), 0, FIELD_LIMIT) by { NumbersInRange(reg, t, View(slots), budget); }
    SerializeSlots(reg, t, slots, 0, FIELD_LIMIT, output, budget);
  }

  lemma NumbersInRange(reg: Registry, t: nat, fs: seq<Field>, budget: nat)
    requires Typed(reg, t, fs, budget)
    ensures forall i :: 0 <= i < |fs| ==> 0 <= fs[i].number < FIELD_LIMIT
  {
    forall i | 0 <= i < |fs| ensures 0 <= fs[i].number < FIELD_LIMIT { assert TypedField(reg, t, fs[i], budget); }
  }
}
