/** The extension set object: accessors, clearing, merging, parsing, sizes and
    serialisation, each related to what the set shows. */
module ExtensionSets {
  import opened Options
  import opened Wire
  import opened UnknownFields
  import opened CodedStream
  import opened CodedOutput
  import opened Primitives
  import opened ExtensionValues
  import opened ExtensionSlots
  import WireFormat

  class ExtensionSet {
    const reg: Registry
    const t: nat
    var slots: seq<Slot>

    ghost predicate Valid()
      reads this
    {
      RegistrySound(reg) && Formed(reg, t, slots)
    }

    /** What the set shows. */
    function Fields(): seq<Field>
      reads this
    {
      View(slots)
    }

    constructor (reg: Registry, t: nat, slots: seq<Slot>)
      requires RegistrySound(reg) && Formed(reg, t, slots)
      ensures this.reg == reg && this.t == t && this.slots == slots && Valid()
    {
      this.reg, this.t, this.slots := reg, t, slots;
    }

    // ----------------------------------------------------------------
    // Accessors

    /** For a singular extension. */
    predicate Has(n: nat)
      requires Valid()
      reads this
      ensures Find(slots, n).Some? && !Find(slots, n).value.isRepeated ==> (Has(n) <==> Get(Fields(), n).Some?)
      ensures Find(slots, n).None? ==> !Has(n) && Get(Fields(), n).None?
    {
      FormedInOrder(reg, t, slots);
      ViewFind(slots, n);
      match Find(slots, n) case Some(e) => !e.isCleared case None => false
    }

    /** For a repeated extension, its number of values. */
    function ExtensionSize(n: nat): (size: nat)
      requires Valid()
      reads this
      ensures Find(slots, n).Some? && Find(slots, n).value.isRepeated ==> size == |ValuesOf(Fields(), n)|
    {
      FormedInOrder(reg, t, slots);
      ViewFind(slots, n);
      match Find(slots, n) case Some(e) => |e.items| case None => 0
    }

    /** The value of a singular primitive or string extension. */
    function GetValue(n: nat, default: Value): (v: Value)
      requires Valid() && (Find(slots, n).Some? ==> !Find(slots, n).value.isRepeated)
      reads this
      ensures v == match Get(Fields(), n) case Some(One(x)) => x case _ => default
    {
      FormedInOrder(reg, t, slots);
      ViewFind(slots, n);
      match Find(slots, n)
      case Some(e) => if e.isCleared then default else ViewItem(e.item)
      case None => default
    }

    /** The message of a singular extension.  A cleared one is not asked about: it has been
        emptied, and an empty message is the default. */
    function GetMessage(n: nat): (v: Value)
      requires Valid() && (Find(slots, n).Some? ==> !Find(slots, n).value.isRepeated && Find(slots, n).value.item.Msg?)
      reads this
      ensures v == match Get(Fields(), n) case Some(One(x)) => x case _ => Message([])
    {
      FormedInOrder(reg, t, slots);
      ViewFind(slots, n);
      FindFormed(reg, t, slots, n);
      match Find(slots, n)
      case Some(e) => ViewItem(e.item)
      case None => Message([])
    }

    function GetRepeated(n: nat, i: nat): (v: Value)
      requires Valid() && Find(slots, n).Some? && Find(slots, n).value.isRepeated && i < |Find(slots, n).value.items|
      reads this
      ensures i < |ValuesOf(Fields(), n)| && v == ValuesOf(Fields(), n)[i]
    {
      FormedInOrder(reg, t, slots);
      ViewFind(slots, n);
      ViewItemsAt(Find(slots, n).value.items, i);
      ViewItem(Find(slots, n).value.items[i])
    }

    /** Store a value under a registered number: replace or add. */
    method SetItem(n: nat, info: Info, i: Item)
      requires Valid() && n < FIELD_LIMIT && reg(t, n) == Some(info) && ItemFormed(reg, info, i)
      modifies this
      ensures Valid() && Fields() == Store(old(Fields()), info, n, ViewItem(i))
    {
      StoreItemView(reg, t, slots, info, n, i);
      slots := StoreItem(slots, info, n, i);
    }

    /** Set of a singular primitive extension, Add of a repeated one. */
    method SetNumber(n: nat, info: Info, value: int)
      requires Valid() && n < FIELD_LIMIT && reg(t, n) == Some(info)
      requires IsPrimitive(info.fieldType) && InRange(info.fieldType, value)
      modifies this
      ensures Valid() && Fields() == Store(old(Fields()), info, n, Number(value))
    {
      SetItem(n, info, Num(value));
    }

    /** MutableString or AddString, and the assignment through the result. */
    method SetString(n: nat, info: Info, value: bytes)
      requires Valid() && n < FIELD_LIMIT && reg(t, n) == Some(info)
      requires info.fieldType == STRING || info.fieldType == BYTES
      modifies this
      ensures Valid() && Fields() == Store(old(Fields()), info, n, Text(value))
    {
      SetItem(n, info, Str(value));
    }

    // ----------------------------------------------------------------
    // Clearing

    method ClearExtension(n: nat)
      requires Valid()
      modifies this
      ensures Valid() && Fields() == Without(old(Fields()), n)
    {
      FormedInOrder(reg, t, slots);
      match Find(slots, n) {
        case None =>
          ViewFind(slots, n);
          WithoutAbsent(View(slots), n);
        case Some(e) =>
          FindFormed(reg, t, slots, n);
          ClearedSlotFormed(reg, t, Slot(n, e));
          UpdateFormed(reg, t, slots, n, ClearedExtension(e));
          ViewUpdate(slots, n, ClearedExtension(e));
          slots := Update(slots, n, ClearedExtension(e));
      }
    }

    method Clear()
      requires Valid()
      modifies this
      ensures Valid() && Fields() == []
    {
      ghost var before := slots;
      ClearedSlotsFormed(reg, t, slots);
      ClearedInOrder(reg, t, slots);
      var i := 0;
      while i < |slots|
        invariant 0 <= i <= |slots| == |before|
        invariant forall k :: 0 <= k < i ==> slots[k] == ClearedSlot(before[k])
        invariant forall k :: i <= k < |slots| ==> slots[k] == before[k]
      {
        slots := slots[i := ClearedSlot(slots[i])];
        i := i + 1;
      }
      ClearedAre(before, slots);
    }

    // ----------------------------------------------------------------
    // Merging

    /** The extensions of the other set one by one. */
    method MergeFrom(other: ExtensionSet)
      requires Valid() && other.Valid() && other != this && reg == other.reg && t == other.t
      modifies this
      ensures Valid() && Fields() == MergeFields(old(Fields()), other.Fields())
      decreases other.slots, 1
    {
      hide SlotFormed, ViewSlot, Visible, MergeField;
      ghost var theirs := other.slots;
      ghost var whole := MergeFields(Fields(), View(theirs));
      var i := 0;
      while i < |other.slots|
        invariant 0 <= i <= |theirs| && other.slots == theirs && Valid()
        invariant MergeFields(Fields(), View(theirs[i..])) == whole
      {
        ghost var here, rest := Fields(), View(theirs[i + 1..]);
        assert theirs[i..][1..] == theirs[i + 1..];
        assert SlotFormed(reg, t, theirs[i]);
        if Visible(theirs[i].ext) { assert ([ViewSlot(theirs[i])] + rest)[1..] == rest; }
        MergeSlot(other.slots[i]);
        i := i + 1;
      }
    }

    method MergeSlot(s: Slot)
      requires Valid() && SlotFormed(reg, t, s)
      modifies this
      ensures Valid()
      ensures Fields() == if Visible(s.ext) then MergeField(old(Fields()), ViewSlot(s)) else old(Fields())
      decreases s, 0
    {
      var info := reg(t, s.number).value;
      if s.ext.isRepeated { MergeRepeated(s.number, info, s.ext); }
      else if !s.ext.isCleared { MergeSingular(s.number, info, s.ext.item); }
    }

    /** Values appended; an extension is made even when there are none. */
    method MergeRepeated(n: nat, info: Info, from: Extension)
      requires Valid() && n < FIELD_LIMIT && reg(t, n) == Some(info) && from.isRepeated
      requires ExtensionFormed(reg, info, from)
      modifies this
      ensures Valid() && Fields() == AddAll(old(Fields()), n, ViewItems(from.items))
      decreases from, 0
    {
      var copies := CopyItems(reg, info, from.items);
      StoreItemsView(reg, t, slots, info, n, copies);
      slots := StoreItems(slots, info, n, copies);
    }

    /** Messages are merged into the one that is there, other values replaced. */
    method MergeSingular(n: nat, info: Info, i: Item)
      requires Valid() && n < FIELD_LIMIT && reg(t, n) == Some(info) && !info.isRepeated && ItemFormed(reg, info, i)
      modifies this
      ensures Valid() && Fields() == MergeField(old(Fields()), Field(n, One(ViewItem(i))))
      decreases i, 0
    {
      if i.Msg? {
        InnerSlotsFormed(reg, t, slots, info, n);
        var merged := MergeNested(reg, info.messageType, InnerSlots(slots, n), i.slots);
        SetItem(n, info, Msg(merged, 0));
      } else {
        SetItem(n, info, i);
      }
    }

    // ----------------------------------------------------------------
    // Parsing

    /** One field, from the bytes after its tag; one that is not registered, or has a wire
        type other than the registered one, is skipped and dropped. */
    method ParseField(tag: uint32, input: CodedInputStream) returns (ok: bool)
      requires Valid() && input.Valid() && !input.legitimateEnd && tag != 0
      modifies this, input`position, input`lastTag, input`legitimateEnd, input`depth, input`currentLimit
      ensures match ReadField(reg, t, old(Fields()), tag, old(input.Rest()), old(input.Budget()))
              case Some(r) => ok && Valid() && input.Valid() && Fields() == r.value && input.Rest() == r.rest
              case None => !ok
      ensures ok ==>
        input.depth == old(input.depth) && !input.legitimateEnd && input.currentLimit == old(input.currentLimit)
      decreases |input.Rest()|, 1
    {
      hide ExtensionSet.Valid, ExtensionSet.Fields, CodedInputStream.Rest, CodedInputStream.Valid,
        CodedInputStream.Budget,
        InfoFor, ReadPacked, ReadPrimitive, Wire.ReadString, Wire.ReadVarint32, ReadFields, UnknownFields.SkipField,
        Store, AddAll, Clip;
      TagNumber(tag);
      match InfoFor(reg, t, tag) {
        case None =>
          var field;
          ok, field := WireFormat.SkipField(input, tag);
        case Some(info) =>
          InfoIsRegistered(reg, t, tag);
          RegistryIsSound();
          if info.isPacked {
            ok := ParsePacked(tag / 8, info, input);
          } else if IsPrimitive(info.fieldType) {
            var value;
            ok, value := ReadPrimitiveFrom(info.fieldType, input);
            if !ok { return; }
            if ExtensionValues.Valid(info, value) { SetNumber(tag / 8, info, value); }
          } else if info.fieldType == STRING || info.fieldType == BYTES {
            var value;
            ok, value := input.ReadString();
            if !ok { return; }
            SetString(tag / 8, info, value);
          } else if info.fieldType == GROUP {
            ok := ParseGroup(tag / 8, info, input);
          } else {
            ok := ParseMessage(tag / 8, info, input);
          }
      }
    }

    /** The length, then values up to it, or to the limit in force if that is nearer. */
    method ParsePacked(n: nat, info: Info, input: CodedInputStream) returns (ok: bool)
      requires Valid() && input.Valid() && !input.legitimateEnd
      requires n < FIELD_LIMIT && reg(t, n) == Some(info) && info.isPacked && info.isRepeated
      requires IsPrimitive(info.fieldType)
      modifies this, input`position, input`legitimateEnd, input`currentLimit
      ensures match Wire.ReadVarint32(old(input.Rest()))
              case Some(r) =>
                var data := Clip(r.rest, r.value);
                (match ReadPacked(info, data)
                 case Some(ns) =>
                   ok && Valid() && input.Valid() && Fields() == AddAll(old(Fields()), n, Numbers(ns))
                   && input.Rest() == r.rest[|data|..]
                 case None => !ok)
              case None => !ok
      ensures ok ==> !input.legitimateEnd && input.currentLimit == old(input.currentLimit)
    {
      hide ExtensionSet.Valid, ExtensionSet.Fields, ReadPacked, AddAll, Wire.ReadVarint32, Clip;
      var size;
      ok, size := input.ReadVarint32();
      if !ok { return; }
      ok := ParsePackedUpTo(size, n, info, input);
    }

    method ParsePackedUpTo(size: uint32, n: nat, info: Info, input: CodedInputStream) returns (ok: bool)
      requires Valid() && input.Valid() && !input.legitimateEnd
      requires n < FIELD_LIMIT && reg(t, n) == Some(info) && info.isPacked && info.isRepeated
      requires IsPrimitive(info.fieldType)
      modifies this, input`position, input`legitimateEnd, input`currentLimit
      ensures var data := Clip(old(input.Rest()), size);
        match ReadPacked(info, data)
        case Some(ns) =>
          ok && Valid() && input.Valid() && Fields() == AddAll(old(Fields()), n, Numbers(ns))
          && input.Rest() == old(input.Rest())[|data|..]
        case None => !ok
      ensures ok ==> !input.legitimateEnd && input.currentLimit == old(input.currentLimit)
    {
      hide ExtensionSet.Valid, ExtensionSet.Fields, ReadPacked, AddAll;
      ghost var rest := input.Rest();
      var limit := input.PushLimit(size);
      ok := ParsePackedValues(n, info, input);
      if !ok { return; }
      input.PopLimit(limit);
      assert input.Rest() == rest[|Clip(rest, size)|..];
    }

    /** Values up to the limit; those that an enum does not have are dropped. */
    method ParsePackedValues(n: nat, info: Info, input: CodedInputStream) returns (ok: bool)
      requires Valid() && input.Valid()
      requires n < FIELD_LIMIT && reg(t, n) == Some(info) && info.isPacked && info.isRepeated
      requires IsPrimitive(info.fieldType)
      modifies this, input`position
      ensures input.Valid()
      ensures match ReadPacked(info, old(input.Rest()))
              case Some(ns) => ok && Valid() && Fields() == AddAll(old(Fields()), n, Numbers(ns)) && input.Rest() == []
              case None => !ok
    {
      hide ExtensionSet.Valid, ExtensionSet.Fields, ReadPacked, AddAll, ReadPrimitive;
      ghost var whole := PackedInto(Fields(), n, info, input.Rest());
      while input.currentLimit - input.position > 0
        invariant Valid() && input.Valid()
        invariant PackedInto(Fields(), n, info, input.Rest()) == whole
        decreases |input.Rest()|
      {
        ghost var here, fields := input.Rest(), Fields();
        var value;
        IsSorted();
        PackedStep(fields, n, info, here);
        if ReadPrimitive(info.fieldType, here).Some? { PrimitiveExtends(info.fieldType, here, []); }
        ok, value := ReadPrimitiveFrom(info.fieldType, input);
        if !ok { return; }
        if ExtensionValues.Valid(info, value) { SetNumber(n, info, value); }
      }
      PackedDone(Fields(), n, info);
      ok := true;
    }

    lemma RegistryIsSound()
      requires Valid()
      ensures RegistrySound(reg)
    {
    }

    lemma IsSorted()
      requires Valid()
      ensures Sorted(Fields())
    {
      ViewSorted(slots);
    }

    /** A group: its fields, then the end tag with its number. */
    method ParseGroup(n: nat, info: Info, input: CodedInputStream) returns (ok: bool)
      requires Valid() && input.Valid() && !input.legitimateEnd
      requires n < FIELD_LIMIT && reg(t, n) == Some(info) && info.fieldType == GROUP
      modifies this, input`position, input`lastTag, input`legitimateEnd, input`depth, input`currentLimit
      ensures if old(input.Budget()) == 0 then !ok
        else match ReadFields(reg, info.messageType, Target(old(Fields()), info, n), old(input.Rest()),
                              old(input.Budget()) - 1)
             case AtEndGroup(inner, end, rest) =>
               if end == n * 8 + WIRETYPE_END_GROUP
               then ok && Valid() && input.Valid() && input.Rest() == rest
                    && Fields() == Store(old(Fields()), info, n, Message(inner))
               else !ok
             case _ => !ok
      ensures ok ==>
        input.depth == old(input.depth) && !input.legitimateEnd && input.currentLimit == old(input.currentLimit)
      decreases |input.Rest()|, 0, 3
    {
      hide ExtensionSet.Valid, ExtensionSet.Fields, ReadFields, Target, Store, CodedInputStream.Rest,
        CodedInputStream.Valid,
        CodedInputStream.Budget;
      var nested := NestedSet(n, info);
      ok := ReadGroup(n, input, nested);
      if ok { KeepNested(n, info, nested); }
    }

    /** A message: its length, then fields that take up all of it, or all up to the limit
        in force if that is nearer. */
    method ParseMessage(n: nat, info: Info, input: CodedInputStream) returns (ok: bool)
      requires Valid() && input.Valid() && !input.legitimateEnd
      requires n < FIELD_LIMIT && reg(t, n) == Some(info) && info.fieldType == MESSAGE
      modifies this, input`position, input`lastTag, input`legitimateEnd, input`depth, input`currentLimit
      ensures if old(input.Budget()) == 0 then !ok
        else match Wire.ReadVarint32(old(input.Rest()))
             case Some(r) =>
               var data := Clip(r.rest, r.value);
               (match ReadFields(reg, info.messageType, Target(old(Fields()), info, n), data, old(input.Budget()) - 1)
                case Finished(inner) =>
                  ok && Valid() && input.Valid() && input.Rest() == r.rest[|data|..]
                  && Fields() == Store(old(Fields()), info, n, Message(inner))
                case _ => !ok)
             case None => !ok
      ensures ok ==>
        input.depth == old(input.depth) && !input.legitimateEnd && input.currentLimit == old(input.currentLimit)
      decreases |input.Rest()|, 0, 3
    {
      hide ExtensionSet.Valid, ExtensionSet.Fields, ReadFields, Target, Store, CodedInputStream.Rest,
        CodedInputStream.Valid,
        CodedInputStream.Budget, Wire.ReadVarint32, Clip;
      var nested := NestedSet(n, info);
      ok := ReadMessage(input, nested);
      if ok { KeepNested(n, info, nested); }
    }

    /** The message that a nested one is read into. */
    method NestedSet(n: nat, info: Info) returns (nested: ExtensionSet)
      requires Valid() && n < FIELD_LIMIT && reg(t, n) == Some(info)
      requires info.fieldType == MESSAGE || info.fieldType == GROUP
      ensures fresh(nested) && nested.Valid() && nested.reg == reg && nested.t == info.messageType
      ensures nested.Fields() == Target(Fields(), info, n)
    {
      if info.isRepeated {
        nested := new ExtensionSet(reg, info.messageType, []);
      } else {
        InnerSlotsFormed(reg, t, slots, info, n);
        nested := new ExtensionSet(reg, info.messageType, InnerSlots(slots, n));
      }
    }

    method KeepNested(n: nat, info: Info, nested: ExtensionSet)
      requires Valid() && nested.Valid() && nested != this && n < FIELD_LIMIT && reg(t, n) == Some(info)
      requires info.fieldType == MESSAGE || info.fieldType == GROUP
      requires nested.reg == reg && nested.t == info.messageType
      modifies this
      ensures Valid() && Fields() == Store(old(Fields()), info, n, Message(nested.Fields()))
    {
      SetItem(n, info, Msg(nested.slots, 0));
    }

    /** Read a tag and parse its field, until the bytes end or an end-group tag. */
    method MergePartialFromCodedStream(input: CodedInputStream) returns (ok: bool)
      requires Valid() && input.Valid() && !input.legitimateEnd
      modifies this, input`position, input`lastTag, input`legitimateEnd, input`depth, input`currentLimit
      ensures var o := ReadFields(reg, t, old(Fields()), old(input.Rest()), old(input.Budget()));
              if o.Failed? then !ok
              else Valid() && input.Valid() && input.Reports(o, ok, false) && Fields() == o.value
      ensures ok ==> input.depth == old(input.depth) && input.currentLimit == old(input.currentLimit)
      decreases |input.Rest()|, 0, 0
    {
      hide ExtensionSet.Valid, ExtensionSet.Fields, ReadFields, ReadField, Wire.ReadTag;
      ghost var start := input.Rest();
      ghost var whole := ReadFields(reg, t, Fields(), start, input.Budget());
      ghost var budget := input.Budget();
      while true
        invariant Valid() && input.Valid() && input.Budget() == budget && !input.legitimateEnd
        invariant |input.Rest()| <= |start| && input.currentLimit == old(input.currentLimit)
        invariant whole == ReadFields(reg, t, Fields(), input.Rest(), budget)
        decreases |input.Rest()|
      {
        FieldsUnfold(reg, t, Fields(), input.Rest(), budget);
        var tag := input.ReadTag();
        if tag == 0 { return true; }
        if tag % 8 == WIRETYPE_END_GROUP { return true; }
        ok := ParseField(tag, input);
        if !ok { return; }
      }
    }
  }

  method ReadGroup(n: nat, input: CodedInputStream, value: ExtensionSet) returns (ok: bool)
    requires value.Valid() && input.Valid() && !input.legitimateEnd
    modifies value, input`position, input`lastTag, input`legitimateEnd, input`depth, input`currentLimit
    ensures if old(input.Budget()) == 0 then !ok
      else match ReadFields(value.reg, value.t, old(value.Fields()), old(input.Rest()), old(input.Budget()) - 1)
           case AtEndGroup(inner, end, rest) =>
             if end == n * 8 + WIRETYPE_END_GROUP
             then ok && value.Valid() && input.Valid() && input.Rest() == rest && value.Fields() == inner
             else !ok
           case _ => !ok
    ensures ok ==>
      input.depth == old(input.depth) && !input.legitimateEnd && input.currentLimit == old(input.currentLimit)
    decreases |input.Rest()|, 0, 1
  {
    hide ExtensionSet.Valid, ExtensionSet.Fields, ReadFields;
    ok := input.IncrementRecursionDepth();
    if !ok { return; }
    ok := value.MergePartialFromCodedStream(input);
    if !ok { return; }
    input.DecrementRecursionDepth();
    ok := input.lastTag == n * 8 + WIRETYPE_END_GROUP;
  }

  method ReadMessage(input: CodedInputStream, value: ExtensionSet) returns (ok: bool)
    requires value.Valid() && input.Valid() && !input.legitimateEnd
    modifies value, input`position, input`lastTag, input`legitimateEnd, input`depth, input`currentLimit
    ensures if old(input.Budget()) == 0 then !ok
      else match Wire.ReadVarint32(old(input.Rest()))
           case Some(r) =>
             var data := Clip(r.rest, r.value);
             (match ReadFields(value.reg, value.t, old(value.Fields()), data, old(input.Budget()) - 1)
              case Finished(inner) =>
                ok && value.Valid() && input.Valid() && input.Rest() == r.rest[|data|..] && value.Fields() == inner
              case _ => !ok)
           case None => !ok
    ensures ok ==>
      input.depth == old(input.depth) && !input.legitimateEnd && input.currentLimit == old(input.currentLimit)
    decreases |input.Rest()|, 0, 2
  {
    hide ExtensionSet.Valid, ExtensionSet.Fields, ReadFields, Wire.ReadVarint32, Clip;
    var length;
    ok, length := input.ReadVarint32();
    if !ok { return; }
    ok := input.IncrementRecursionDepth();
    if !ok { return; }
    ok := ReadUpTo(length, input, value);
    if ok { input.DecrementRecursionDepth(); }
  }

  method ReadUpTo(length: uint32, input: CodedInputStream, value: ExtensionSet) returns (ok: bool)
    requires value.Valid() && input.Valid() && !input.legitimateEnd
    modifies value, input`position, input`lastTag, input`legitimateEnd, input`depth, input`currentLimit
    ensures var data := Clip(old(input.Rest()), length);
      match ReadFields(value.reg, value.t, old(value.Fields()), data, old(input.Budget()))
      case Finished(inner) =>
        ok && value.Valid() && input.Valid() && input.Rest() == old(input.Rest())[|data|..] && value.Fields() == inner
      case _ => !ok
    ensures ok ==>
      input.depth == old(input.depth) && !input.legitimateEnd && input.currentLimit == old(input.currentLimit)
    decreases |input.Rest()|, 0, 1
  {
    hide ExtensionSet.Valid, ExtensionSet.Fields, ReadFields;
    ghost var rest := input.Rest();
    var limit := input.PushLimit(length);
    ok := value.MergePartialFromCodedStream(input);
    if !ok { return; }
    if !input.legitimateEnd { return false; }
    input.PopLimit(limit);
    assert input.Rest() == rest[|Clip(rest, length)|..];
  }

  lemma FieldsUnfold(reg: Registry, t: nat, fs: seq<Field>, b: bytes, budget: nat)
    ensures ReadFields(reg, t, fs, b, budget) == match Wire.ReadTag(b)
            case AtEnd => Finished(fs)
            case BadTag => Stopped(fs)
            case Tag(tag, rest) =>
              if tag % 8 == WIRETYPE_END_GROUP then AtEndGroup(fs, tag, rest)
              else match ReadField(reg, t, fs, tag, rest, budget)
                case Some(r) => ReadFields(reg, t, r.value, r.rest, budget)
                case None => Failed
  {
    hide ReadField, Wire.ReadVarint32;
  }

  /** The values of packed bytes added to a field. */
  ghost function PackedInto(fs: seq<Field>, n: nat, info: Info, b: bytes): Option<seq<Field>> {
    match ReadPacked(info, b)
    case Some(ns) => Some(AddAll(fs, n, Numbers(ns)))
    case None => None
  }

  lemma PackedStep(fs: seq<Field>, n: nat, info: Info, b: bytes)
    requires b != [] && Sorted(fs) && info.isRepeated
    ensures PackedInto(fs, n, info, b) == match ReadPrimitive(info.fieldType, b)
            case Some(r) =>
              PackedInto(if ExtensionValues.Valid(info, r.value) then Store(fs, info, n, Number(r.value)) else fs, n,
                         info, r.rest)
            case None => None
  {
    hide ReadPrimitive;
    if ReadPrimitive(info.fieldType, b).Some? {
      var r := ReadPrimitive(info.fieldType, b).value;
      PrimitiveExtends(info.fieldType, b, []);
      if ReadPacked(info, r.rest).Some? && ExtensionValues.Valid(info, r.value) {
        var ns := ReadPacked(info, r.rest).value;
        AddAllTwice(fs, n, [Number(r.value)], Numbers(ns));
        assert ([r.value] + ns)[1..] == ns;
      } else if ReadPacked(info, r.rest).Some? {
        assert [] + ReadPacked(info, r.rest).value == ReadPacked(info, r.rest).value;
      }
    }
  }

  lemma PackedDone(fs: seq<Field>, n: nat, info: Info)
    ensures PackedInto(fs, n, info, []) == Some(fs) && ReadPacked(info, []) == Some([])
  {
  }

  /** A nested message with another merged into it. */
  method MergeNested(reg: Registry, t: nat, into: seq<Slot>, from: seq<Slot>) returns (merged: seq<Slot>)
    requires RegistrySound(reg) && Formed(reg, t, into) && Formed(reg, t, from)
    ensures Formed(reg, t, merged) && View(merged) == MergeFields(View(into), View(from))
    decreases from, 2
  {
    var target := new ExtensionSet(reg, t, into);
    var source := new ExtensionSet(reg, t, from);
    target.MergeFrom(source);
    merged := target.slots;
  }

  /** New values, a message by merging into an empty one. */
  method CopyItems(reg: Registry, info: Info, items: seq<Item>) returns (copies: seq<Item>)
    requires RegistrySound(reg) && ItemsFormed(reg, info, items)
    ensures ItemsFormed(reg, info, copies) && ViewItems(copies) == ViewItems(items)
    decreases items, 0
  {
    hide ItemFormed, ViewItem;
    copies := [];
    var i := 0;
    while i < |items|
      invariant 0 <= i <= |items| && ItemsFormed(reg, info, copies) && ItemsFormed(reg, info, items[i..])
      invariant ViewItems(copies) + ViewItems(items[i..]) == ViewItems(items)
    {
      assert items[i..][1..] == items[i + 1..];
      var copy := CopyItem(reg, info, items[i]);
      ItemsFormedAppend(reg, info, copies, [copy]);
      ItemsFormedOne(reg, info, copy);
      ViewItemsAppend(copies, [copy]);
      ViewItemsOne(copy);
      copies, i := copies + [copy], i + 1;
    }
  }

  method CopyItem(reg: Registry, info: Info, i: Item) returns (copy: Item)
    requires RegistrySound(reg) && ItemFormed(reg, info, i)
    ensures ItemFormed(reg, info, copy) && ViewItem(copy) == ViewItem(i)
    decreases i, 0
  {
    copy := i;
    if i.Msg? {
      var merged := MergeNested(reg, info.messageType, [], i.slots);
      ViewOrdered(reg, info.messageType, i.slots);
      MergeIntoNothing(View(i.slots));
      copy := Msg(merged, 0);
    }
  }

  // ------------------------------------------------------------------
  // Helpers

  lemma {:induction false} ViewItemsAt(items: seq<Item>, i: nat)
    requires i < |items|
    ensures ViewItems(items)[i] == ViewItem(items[i])
  {
    if i > 0 { ViewItemsAt(items[1..], i - 1); }
  }

  lemma {:induction false} WithoutAbsent(fs: seq<Field>, n: nat)
    requires Get(fs, n) == None
    ensures Without(fs, n) == fs
  {
    if fs != [] { WithoutAbsent(fs[1..], n); }
  }

  lemma {:induction false} ClearedAre(before: seq<Slot>, after: seq<Slot>)
    requires |before| == |after| && forall k :: 0 <= k < |before| ==> after[k] == ClearedSlot(before[k])
    ensures after == ClearedSlots(before)
  {
    if before != [] {
      ClearedAre(before[1..], after[1..]);
      assert after == [after[0]] + after[1..];
    }
  }

  /** Values added to a repeated extension together. */
  function StoreItems(ss: seq<Slot>, info: Info, n: nat, items: seq<Item>): seq<Slot> {
    var e := FoundOrNew(ss, info, n);
    Update(ss, n, e.(items := e.items + items))
  }

  lemma StoreItemsView(reg: Registry, t: nat, ss: seq<Slot>, info: Info, n: nat, items: seq<Item>)
    requires Formed(reg, t, ss) && n < FIELD_LIMIT && reg(t, n) == Some(info) && info.isRepeated
    requires ItemsFormed(reg, info, items)
    ensures Formed(reg, t, StoreItems(ss, info, n, items))
    ensures View(StoreItems(ss, info, n, items)) == AddAll(View(ss), n, ViewItems(items))
  {
    hide Formed, ItemsFormed, View, Update;
    FormedInOrder(reg, t, ss);
    FoundOrNewFormed(reg, t, ss, info, n);
    ViewFind(ss, n);
    var e := FoundOrNew(ss, info, n);
    var more := e.(items := e.items + items);
    ItemsFormedAppend(reg, info, e.items, items);
    ViewItemsAppend(e.items, items);
    UpdateFormed(reg, t, ss, n, more);
    ViewUpdate(ss, n, more);
    if items == [] {
      assert e.items + items == e.items;
      if e.items == [] { WithoutAbsent(View(ss), n); } else { ViewSorted(ss); PutSame(View(ss), n, ContentOf(e)); }
    }
  }

  lemma {:induction false} PutSame(fs: seq<Field>, n: nat, c: Content)
    requires Sorted(fs) && Get(fs, n) == Some(c)
    ensures Put(fs, n, c) == fs
  {
    if n < fs[0].number { GetNone(fs, n); }
    else if fs[0].number != n { PutSame(fs[1..], n, c); }
  }

  /** The slots of the nested message that is there, if any. */
  function InnerSlots(ss: seq<Slot>, n: nat): seq<Slot> {
    match Find(ss, n)
    case Some(e) => if !e.isRepeated && e.item.Msg? then e.item.slots else []
    case None => []
  }

  lemma InnerSlotsFormed(reg: Registry, t: nat, ss: seq<Slot>, info: Info, n: nat)
    requires Formed(reg, t, ss) && reg(t, n) == Some(info) && !info.isRepeated
    requires info.fieldType == MESSAGE || info.fieldType == GROUP
    ensures Formed(reg, info.messageType, InnerSlots(ss, n))
    ensures View(InnerSlots(ss, n)) == InnerOf(View(ss), n)
  {
    FindFormed(reg, t, ss, n);
    FormedInOrder(reg, t, ss);
    ViewFind(ss, n);
    if Find(ss, n).Some? && Find(ss, n).value.item.Msg? {
      assert ItemFormed(reg, info, Find(ss, n).value.item);
    }
  }

  // ------------------------------------------------------------------
  // Reading from a stream

  lemma TagNumber(tag: uint32)
    ensures tag / 8 < FIELD_LIMIT
  {
  }

  lemma InfoIsRegistered(reg: Registry, t: nat, tag: uint32)
    ensures InfoFor(reg, t, tag).Some? ==> reg(t, tag / 8) == InfoFor(reg, t, tag)
  {
  }

  method ReadPrimitiveFrom(t: FieldType, input: CodedInputStream) returns (ok: bool, value: int)
    requires input.Valid() && IsPrimitive(t)
    modifies input`position
    ensures input.Valid()
    ensures match ReadPrimitive(t, old(input.Rest()))
            case Some(r) => ok && value == r.value && input.Rest() == r.rest && IsRest(r.rest, old(input.Rest()))
            case None => !ok
    ensures ok ==> InRange(t, value)
  {
    hide CodedInputStream.Rest, CodedInputStream.Valid, Wire.ReadVarint64, ReadFixed, FromPattern;
    WireFormat.FixedValues(input.Rest());
    var n;
    if WireTypeFor(t) == WIRETYPE_FIXED32 { ok, n := input.ReadLittleEndian(4); }
    else if WireTypeFor(t) == WIRETYPE_FIXED64 { ok, n := input.ReadLittleEndian(8); }
    else { ok, n := input.ReadVarint64(); }
    value := if ok then FromPattern(t, n) else 0;
  }
}
