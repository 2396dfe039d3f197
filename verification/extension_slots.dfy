/** The state of an extension set object: an ordered map to extensions that may be
    cleared or empty and that cache sizes, and what such a state stands for. */
module ExtensionSlots {
  import opened Options
  import opened Wire
  import opened UnknownFields
  import opened Primitives
  import opened ExtensionValues

  /** A stored value; a message has an extension set of its own and caches its size. */
  datatype Item = Num(n: int) | Str(s: bytes) | Msg(slots: seq<Slot>, cachedSize: nat)

  /** A singular extension keeps its last value when it is cleared, a repeated one has
      no values then.  `cachedSize` is the size of packed data. */
  datatype Extension = Extension(fieldType: FieldType, isRepeated: bool, isCleared: bool, isPacked: bool,
                                 cachedSize: nat, item: Item, items: seq<Item>)

  datatype Slot = Slot(number: nat, ext: Extension)

  // ------------------------------------------------------------------
  // What a state stands for

  function ViewItem(i: Item): Value
    decreases i
  {
    match i
    case Num(n) => Number(n)
    case Str(s) => Text(s)
    case Msg(slots, _) => Message(View(slots))
  }

  function ViewItems(items: seq<Item>): (vs: seq<Value>)
    ensures |vs| == |items|
    decreases items
  {
    if items == [] then [] else [ViewItem(items[0])] + ViewItems(items[1..])
  }

  /** Has for a singular extension, a size above zero for a repeated one. */
  predicate Visible(e: Extension) {
    if e.isRepeated then e.items != [] else !e.isCleared
  }

  function ContentOf(e: Extension): Content
    decreases e
  {
    if e.isRepeated then Many(ViewItems(e.items)) else One(ViewItem(e.item))
  }

  function ViewSlot(s: Slot): Field
    decreases s
  {
    Field(s.number, ContentOf(s.ext))
  }

  function View(ss: seq<Slot>): seq<Field>
    decreases ss
  {
    if ss == [] then []
    else if Visible(ss[0].ext) then [ViewSlot(ss[0])] + View(ss[1..])
    else View(ss[1..])
  }

  // ------------------------------------------------------------------
  // Well-formed states

  predicate Kind(t: FieldType, i: Item) {
    match i
    case Num(_) => IsPrimitive(t)
    case Str(_) => t == STRING || t == BYTES
    case Msg(_, _) => t == MESSAGE || t == GROUP
  }

  predicate ItemFormed(reg: Registry, info: Info, i: Item)
    decreases i
  {
    Kind(info.fieldType, i) && (i.Msg? ==> Formed(reg, info.messageType, i.slots))
  }

  predicate ItemsFormed(reg: Registry, info: Info, items: seq<Item>)
    decreases items
  {
    items == [] || (ItemFormed(reg, info, items[0]) && ItemsFormed(reg, info, items[1..]))
  }

  /** A string or message that was cleared has been emptied. */
  predicate Blank(i: Item) {
    match i
    case Num(_) => true
    case Str(s) => s == []
    case Msg(slots, _) => View(slots) == []
  }

  predicate ExtensionFormed(reg: Registry, info: Info, e: Extension)
    decreases e
  {
    && e.fieldType == info.fieldType && e.isRepeated == info.isRepeated && e.isPacked == info.isPacked
    && (if e.isRepeated then !e.isCleared && ItemsFormed(reg, info, e.items)
        else ItemFormed(reg, info, e.item) && (e.isCleared ==> Blank(e.item)))
  }

  predicate SlotFormed(reg: Registry, t: nat, s: Slot)
    decreases s
  {
    s.number < FIELD_LIMIT && reg(t, s.number).Some? && ExtensionFormed(reg, reg(t, s.number).value, s.ext)
  }

  predicate InOrder(ss: seq<Slot>) {
    forall i, j :: 0 <= i < j < |ss| ==> ss[i].number < ss[j].number
  }

  predicate Formed(reg: Registry, t: nat, ss: seq<Slot>)
    decreases ss
  {
    InOrder(ss) && forall i :: 0 <= i < |ss| ==> SlotFormed(reg, t, ss[i])
  }

  // ------------------------------------------------------------------
  // The map

  function Find(ss: seq<Slot>, n: nat): Option<Extension> {
    if ss == [] then None else if ss[0].number == n then Some(ss[0].ext) else Find(ss[1..], n)
  }

  function Update(ss: seq<Slot>, n: nat, e: Extension): seq<Slot> {
    if ss == [] || n < ss[0].number then [Slot(n, e)] + ss
    else if ss[0].number == n then [Slot(n, e)] + ss[1..]
    else [ss[0]] + Update(ss[1..], n, e)
  }

  function Without(fs: seq<Field>, n: nat): seq<Field> {
    if fs == [] then []
    else if fs[0].number == n then Without(fs[1..], n)
    else [fs[0]] + Without(fs[1..], n)
  }

  lemma {:induction false} UpdateInOrder(ss: seq<Slot>, n: nat, e: Extension, low: nat)
    requires InOrder(ss) && low <= n && forall i :: 0 <= i < |ss| ==> low <= ss[i].number
    ensures InOrder(Update(ss, n, e))
    ensures forall i :: 0 <= i < |Update(ss, n, e)| ==> low <= Update(ss, n, e)[i].number
  {
    if ss != [] && ss[0].number < n {
      forall i | 0 <= i < |ss[1..]| ensures ss[0].number + 1 <= ss[1..][i].number {
        assert ss[0].number < ss[i + 1].number;
      }
      UpdateInOrder(ss[1..], n, e, ss[0].number + 1);
    }
  }

  lemma {:induction false} UpdateSlotsFormed(reg: Registry, t: nat, ss: seq<Slot>, n: nat, e: Extension)
    requires (forall i :: 0 <= i < |ss| ==> SlotFormed(reg, t, ss[i])) && SlotFormed(reg, t, Slot(n, e))
    ensures forall i :: 0 <= i < |Update(ss, n, e)| ==> SlotFormed(reg, t, Update(ss, n, e)[i])
  {
    hide SlotFormed;
    if ss != [] && ss[0].number < n { UpdateSlotsFormed(reg, t, ss[1..], n, e); }
  }

  lemma UpdateFormed(reg: Registry, t: nat, ss: seq<Slot>, n: nat, e: Extension)
    requires Formed(reg, t, ss) && SlotFormed(reg, t, Slot(n, e))
    ensures Formed(reg, t, Update(ss, n, e))
  {
    hide SlotFormed, Update;
    UpdateInOrder(ss, n, e, 0);
    UpdateSlotsFormed(reg, t, ss, n, e);
  }

  lemma {:induction false} FindFormed(reg: Registry, t: nat, ss: seq<Slot>, n: nat)
    requires Formed(reg, t, ss)
    ensures Find(ss, n).Some? ==> SlotFormed(reg, t, Slot(n, Find(ss, n).value))
  {
    hide SlotFormed;
    if ss != [] && ss[0].number != n { FindFormed(reg, t, ss[1..], n); }
    else if ss != [] { assert ss[0] == Slot(n, ss[0].ext); }
  }

  /** The numbers that show are those of slots, in order. */
  lemma {:induction false} ViewNumbers(ss: seq<Slot>, low: nat)
    requires InOrder(ss) && forall i :: 0 <= i < |ss| ==> low <= ss[i].number
    ensures Sorted(View(ss)) && forall i :: 0 <= i < |View(ss)| ==> low <= View(ss)[i].number
  {
    hide ContentOf;
    if ss != [] {
      forall i | 0 <= i < |ss[1..]| ensures ss[0].number + 1 <= ss[1..][i].number {
        assert ss[0].number < ss[i + 1].number;
      }
      ViewNumbers(ss[1..], ss[0].number + 1);
    }
  }

  lemma ViewSorted(ss: seq<Slot>)
    requires InOrder(ss)
    ensures Sorted(View(ss))
  {
    ViewNumbers(ss, 0);
  }

  lemma {:induction false} ViewFind(ss: seq<Slot>, n: nat)
    requires InOrder(ss)
    ensures Get(View(ss), n) == match Find(ss, n)
            case Some(e) => if Visible(e) then Some(ContentOf(e)) else None
            case None => None
  {
    hide ContentOf, Visible;
    if ss != [] {
      ViewFind(ss[1..], n);
      if ss[0].number == n && !Visible(ss[0].ext) {
        forall i | 0 <= i < |ss[1..]| ensures n + 1 <= ss[1..][i].number { assert ss[0].number < ss[i + 1].number; }
        ViewNumbers(ss[1..], n + 1);
        GetNone(View(ss[1..]), n);
      }
    }
  }

  lemma {:induction false} GetNone(fs: seq<Field>, n: nat)
    requires forall i :: 0 <= i < |fs| ==> fs[i].number != n
    ensures Get(fs, n) == None && Without(fs, n) == fs
  {
    if fs != [] { GetNone(fs[1..], n); }
  }

  /** Storing an extension that shows is a Put; storing one that does not removes the
      number. */
  lemma {:induction false} ViewUpdate(ss: seq<Slot>, n: nat, e: Extension)
    requires InOrder(ss)
    ensures View(Update(ss, n, e)) == if Visible(e) then Put(View(ss), n, ContentOf(e)) else Without(View(ss), n)
  {
    hide ContentOf, Visible;
    if ss != [] && ss[0].number < n {
      var u := Update(ss[1..], n, e);
      ViewUpdate(ss[1..], n, e);
      assert ([ss[0]] + u)[1..] == u;
    } else {
      ViewUpdateFront(ss, n, e);
    }
  }

  lemma ViewUpdateFront(ss: seq<Slot>, n: nat, e: Extension)
    requires InOrder(ss) && (ss == [] || n <= ss[0].number)
    ensures View(Update(ss, n, e)) == if Visible(e) then Put(View(ss), n, ContentOf(e)) else Without(View(ss), n)
  {
    hide ContentOf, Visible;
    var later := if ss != [] && ss[0].number == n then ss[1..] else ss;
    assert Update(ss, n, e) == [Slot(n, e)] + later && ([Slot(n, e)] + later)[1..] == later;
    forall i | 0 <= i < |later| ensures n + 1 <= later[i].number {
      if later != ss { assert ss[0].number < ss[i + 1].number; }
    }
    ViewNumbers(later, n + 1);
    GetNone(View(later), n);
  }

  // ------------------------------------------------------------------
  // Storing values

  /** The extension with a number, or a new one of the registered type. */
  function FoundOrNew(ss: seq<Slot>, info: Info, n: nat): Extension {
    match Find(ss, n)
    case Some(e) => e
    case None => Extension(info.fieldType, info.isRepeated, false, info.isPacked, 0, Num(0), [])
  }

  /** A singular extension is given the value and is no longer cleared; a repeated one
      has the value added. */
  function WithItem(e: Extension, i: Item): Extension {
    if e.isRepeated then e.(items := e.items + [i]) else e.(isCleared := false, item := i)
  }

  function StoreItem(ss: seq<Slot>, info: Info, n: nat, i: Item): seq<Slot> {
    Update(ss, n, WithItem(FoundOrNew(ss, info, n), i))
  }

  lemma {:induction false} ViewItemsAppend(items: seq<Item>, more: seq<Item>)
    ensures ViewItems(items + more) == ViewItems(items) + ViewItems(more)
    decreases items
  {
    if items == [] { assert items + more == more; }
    else {
      assert (items + more)[1..] == items[1..] + more;
      ViewItemsAppend(items[1..], more);
    }
  }

  lemma ViewItemsOne(i: Item)
    ensures ViewItems([i]) == [ViewItem(i)]
  {
    assert [i][1..] == [];
  }

  lemma {:induction false} ItemsFormedAppend(reg: Registry, info: Info, items: seq<Item>, more: seq<Item>)
    ensures ItemsFormed(reg, info, items + more) <==> ItemsFormed(reg, info, items) && ItemsFormed(reg, info, more)
    decreases items
  {
    hide ItemFormed;
    if items == [] { assert items + more == more; }
    else {
      assert (items + more)[1..] == items[1..] + more;
      ItemsFormedAppend(reg, info, items[1..], more);
    }
  }

  lemma ItemsFormedOne(reg: Registry, info: Info, i: Item)
    ensures ItemsFormed(reg, info, [i]) <==> ItemFormed(reg, info, i)
  {
    assert [i][1..] == [];
  }

  lemma WithItemFormed(reg: Registry, info: Info, e: Extension, i: Item)
    requires ItemFormed(reg, info, i)
    requires e.fieldType == info.fieldType && e.isRepeated == info.isRepeated && e.isPacked == info.isPacked
    requires e.isRepeated ==> !e.isCleared && ItemsFormed(reg, info, e.items)
    ensures ExtensionFormed(reg, info, WithItem(e, i))
    ensures Visible(WithItem(e, i))
    ensures ContentOf(WithItem(e, i))
         == if e.isRepeated then Many(ViewItems(e.items) + [ViewItem(i)]) else One(ViewItem(i))
  {
    if e.isRepeated {
      ItemsFormedAppend(reg, info, e.items, [i]);
      ItemsFormedOne(reg, info, i);
      ViewItemsAppend(e.items, [i]);
      ViewItemsOne(i);
    }
  }

  /** The extension with a number, and what shows of it. */
  lemma FoundOrNewFormed(reg: Registry, t: nat, ss: seq<Slot>, info: Info, n: nat)
    requires Formed(reg, t, ss) && n < FIELD_LIMIT && reg(t, n) == Some(info)
    ensures var e := FoundOrNew(ss, info, n);
      (e.fieldType == info.fieldType && e.isRepeated == info.isRepeated && e.isPacked == info.isPacked
       && (e.isRepeated ==>
              !e.isCleared && ItemsFormed(reg, info, e.items) && ValuesOf(View(ss), n) == ViewItems(e.items))
       && (!e.isRepeated && Find(ss, n).Some? ==> ItemFormed(reg, info, e.item) && (e.isCleared ==> Blank(e.item))))
  {
    FindFormed(reg, t, ss, n);
    ViewFind(ss, n);
  }

  /** Storing an item is storing the value it stands for. */
  lemma StoreItemView(reg: Registry, t: nat, ss: seq<Slot>, info: Info, n: nat, i: Item)
    requires Formed(reg, t, ss) && n < FIELD_LIMIT && reg(t, n) == Some(info) && ItemFormed(reg, info, i)
    ensures Formed(reg, t, StoreItem(ss, info, n, i))
    ensures View(StoreItem(ss, info, n, i)) == Store(View(ss), info, n, ViewItem(i))
  {
    hide Formed, ItemFormed, ItemsFormed, View, Update, WithItem, ContentOf, Visible, ViewItem, ExtensionFormed, Blank;
    FormedInOrder(reg, t, ss);
    FoundOrNewFormed(reg, t, ss, info, n);
    var e := FoundOrNew(ss, info, n);
    WithItemFormed(reg, info, e, i);
    UpdateFormed(reg, t, ss, n, WithItem(e, i));
    ViewUpdate(ss, n, WithItem(e, i));
  }

  lemma FormedInOrder(reg: Registry, t: nat, ss: seq<Slot>)
    requires Formed(reg, t, ss)
    ensures InOrder(ss)
  {
  }

  // ------------------------------------------------------------------
  // Clearing

  function ClearedItem(i: Item): Item
    decreases i, 1
  {
    match i
    case Num(_) => i
    case Str(_) => Str([])
    case Msg(slots, size) => Msg(ClearedSlots(slots), size)
  }

  function ClearedExtension(e: Extension): Extension
    decreases e, 1
  {
    if e.isRepeated then e.(items := [])
    else if e.isCleared then e
    else e.(item := ClearedItem(e.item), isCleared := true)
  }

  function ClearedSlot(s: Slot): Slot
    decreases s, 1
  {
    s.(ext := ClearedExtension(s.ext))
  }

  function ClearedSlots(ss: seq<Slot>): (r: seq<Slot>)
    ensures |r| == |ss|
    decreases ss, 1
  {
    if ss == [] then [] else [ClearedSlot(ss[0])] + ClearedSlots(ss[1..])
  }

  /** A cleared set shows nothing and keeps its extensions. */
  lemma {:induction false} ClearedSlotsFormed(reg: Registry, t: nat, ss: seq<Slot>)
    requires forall i :: 0 <= i < |ss| ==> SlotFormed(reg, t, ss[i])
    ensures View(ClearedSlots(ss)) == []
    ensures forall i :: 0 <= i < |ss| ==>
              ClearedSlots(ss)[i].number == ss[i].number && SlotFormed(reg, t, ClearedSlots(ss)[i])
    decreases ss
  {
    hide SlotFormed, Visible, ClearedExtension;
    if ss != [] {
      ClearedSlotFormed(reg, t, ss[0]);
      ClearedSlotsFormed(reg, t, ss[1..]);
    }
  }

  lemma {:induction false} ClearedSlotFormed(reg: Registry, t: nat, s: Slot)
    requires SlotFormed(reg, t, s)
    ensures SlotFormed(reg, t, ClearedSlot(s)) && !Visible(ClearedSlot(s).ext)
    decreases s
  {
    ClearedExtensionFormed(reg, reg(t, s.number).value, s.ext);
  }

  lemma {:induction false} ClearedExtensionFormed(reg: Registry, info: Info, e: Extension)
    requires ExtensionFormed(reg, info, e)
    ensures ExtensionFormed(reg, info, ClearedExtension(e)) && !Visible(ClearedExtension(e))
    decreases e
  {
    if !e.isRepeated { ClearedItemFormed(reg, info, e.item); }
  }

  lemma {:induction false} ClearedItemFormed(reg: Registry, info: Info, i: Item)
    requires ItemFormed(reg, info, i)
    ensures ItemFormed(reg, info, ClearedItem(i)) && Blank(ClearedItem(i))
    decreases i
  {
    if i.Msg? {
      ClearedSlotsFormed(reg, info.messageType, i.slots);
      ClearedInOrder(reg, info.messageType, i.slots);
    }
  }

  lemma ClearedInOrder(reg: Registry, t: nat, ss: seq<Slot>)
    requires InOrder(ss)
    requires forall i :: 0 <= i < |ss| ==>
               ClearedSlots(ss)[i].number == ss[i].number && SlotFormed(reg, t, ClearedSlots(ss)[i])
    ensures Formed(reg, t, ClearedSlots(ss))
  {
    hide ClearedSlots, SlotFormed;
  }

  // ------------------------------------------------------------------
  // What shows is tidy

  lemma {:induction false} ViewOrdered(reg: Registry, t: nat, ss: seq<Slot>)
    requires Formed(reg, t, ss)
    ensures Ordered(View(ss))
    decreases ss
  {
    ViewSorted(ss);
    ViewFieldsOrdered(reg, t, ss);
  }

  lemma {:induction false} ViewFieldsOrdered(reg: Registry, t: nat, ss: seq<Slot>)
    requires forall i :: 0 <= i < |ss| ==> SlotFormed(reg, t, ss[i])
    ensures forall i :: 0 <= i < |View(ss)| ==> OrderedField(View(ss)[i])
    decreases ss, 0
  {
    hide SlotFormed, OrderedField, ViewSlot, Visible;
    if ss != [] {
      if Visible(ss[0].ext) { ViewSlotOrdered(reg, t, ss[0]); }
      ViewFieldsOrdered(reg, t, ss[1..]);
    }
  }

  lemma {:induction false} ViewSlotOrdered(reg: Registry, t: nat, s: Slot)
    requires SlotFormed(reg, t, s) && Visible(s.ext)
    ensures OrderedField(ViewSlot(s))
    decreases s
  {
    ViewExtensionOrdered(reg, reg(t, s.number).value, s.ext);
  }

  lemma {:induction false} ViewExtensionOrdered(reg: Registry, info: Info, e: Extension)
    requires ExtensionFormed(reg, info, e) && Visible(e)
    ensures OrderedContent(ContentOf(e))
    decreases e
  {
    if !e.isRepeated { ViewItemOrdered(reg, info, e.item); }
  }

  lemma {:induction false} ViewItemOrdered(reg: Registry, info: Info, i: Item)
    requires ItemFormed(reg, info, i)
    ensures OrderedValue(ViewItem(i))
    decreases i
  {
    if i.Msg? { ViewOrdered(reg, info.messageType, i.slots); }
  }
}
