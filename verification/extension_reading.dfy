/** What reading an extension set does to bytes, said of the fields that a reader without a
    registry finds in them. */
module ExtensionReading {
  import opened Options
  import opened Wire
  import opened UnknownFields
  import opened Primitives
  import opened ExtensionValues

  /** The wire type that a field of this kind must have. */
  function ExpectedType(info: Info): nat {
    if info.isPacked then WIRETYPE_LENGTH_DELIMITED else WireTypeFor(info.fieldType)
  }

  /** A pattern is stored as a value of the type, and dropped if the enum does not have it. */
  function StorePattern(fs: seq<Field>, info: Info, n: nat, p: uint64): seq<Field> {
    var v := FromPattern(info.fieldType, p);
    if info.fieldType == ENUM && !info.isValid(v) then fs else Store(fs, info, n, Number(v))
  }

  function StoreMessage(fs: seq<Field>, info: Info, n: nat, inner: Option<seq<Field>>): Option<seq<Field>> {
    match inner
    case Some(fields) => Some(Store(fs, info, n, Message(fields)))
    case None => None
  }

  /** What a field does to the set: one that is not registered, or has another wire type, is
      passed over; None when the bytes inside it cannot be read. */
  function Interpret(reg: Registry, t: nat, fs: seq<Field>, f: UnknownField, budget: nat): Option<seq<Field>>
    decreases f, 1
  {
    match reg(t, f.number)
    case None => Some(fs)
    case Some(info) =>
      if WireTypeOf(f) != ExpectedType(info) then Some(fs)
      else match f
        case Varint(n, p) => Some(StorePattern(fs, info, n, p))
        case Fixed32(n, p) => Some(StorePattern(fs, info, n, p))
        case Fixed64(n, p) => Some(StorePattern(fs, info, n, p))
        case LengthDelimited(n, data) => InterpretData(reg, fs, info, n, data, budget)
        case Group(n, inner) =>
          if budget == 0 then None
          else
            StoreMessage(fs, info, n, InterpretAll(reg, info.messageType, Target(fs, info, n), inner, budget - 1))
  }

  function InterpretData(reg: Registry, fs: seq<Field>, info: Info, n: nat, data: bytes,
                         budget: nat): Option<seq<Field>> {
    if info.isPacked then
      match ReadPacked(info, data)
      case Some(ns) => Some(AddAll(fs, n, Numbers(ns)))
      case None => None
    else if !info.fieldType.MESSAGE? then Some(Store(fs, info, n, Text(data)))
    else if budget == 0 then None
    else match ReadFields(reg, info.messageType, Target(fs, info, n), data, budget - 1)
      case Finished(inner) => Some(Store(fs, info, n, Message(inner)))
      case _ => None
  }

  function InterpretAll(reg: Registry, t: nat, fs: seq<Field>, us: seq<UnknownField>, budget: nat): Option<seq<Field>>
    decreases us, 0
  {
    if us == [] then Some(fs)
    else match Interpret(reg, t, fs, us[0], budget)
      case Some(more) => InterpretAll(reg, t, more, us[1..], budget)
      case None => None
  }

  function Interpreted(reg: Registry, t: nat, fs: seq<Field>, o: Outcome<seq<UnknownField>>,
                       budget: nat): Outcome<seq<Field>> {
    if o.Failed? then Failed
    else match InterpretAll(reg, t, fs, o.value, budget)
      case None => Failed
      case Some(after) =>
        match o
        case Finished(_) => Finished(after)
        case AtEndGroup(_, tag, rest) => AtEndGroup(after, tag, rest)
        case Stopped(_) => Stopped(after)
  }

  lemma InterpretedCons(reg: Registry, t: nat, fs: seq<Field>, u: UnknownField, o: Outcome<seq<UnknownField>>,
                        budget: nat)
    requires !o.Failed?
    ensures Interpreted(reg, t, fs, Cons(u, o), budget) ==
            match Interpret(reg, t, fs, u, budget)
            case Some(more) => Interpreted(reg, t, more, o, budget)
            case None => Failed
  {
    hide Interpret;
    assert ([u] + o.value)[1..] == o.value;
  }

  lemma {:induction false} FieldIsInterpreted(reg: Registry, t: nat, fs: seq<Field>, tag: uint32, b: bytes, budget: nat)
    requires SkipField(b, tag, budget).Some?
    ensures ReadField(reg, t, fs, tag, b, budget) ==
            var r := SkipField(b, tag, budget).value;
            match Interpret(reg, t, fs, r.value, budget)
            case Some(after) => Some(Read(after, r.rest))
            case None => None
    decreases |b|, 1
  {
    hide Store, Target, AddAll, ReadPacked, ReadGroups, ReadFixed, FromPattern, ReadFields, SkipMessage, InterpretAll,
      Interpreted;
    var info := InfoFor(reg, t, tag);
    if info.Some? && tag % 8 == WIRETYPE_START_GROUP {
      var into := Target(fs, info.value, tag / 8);
      ReadIsInterpretation(reg, info.value.messageType, into, b, budget - 1);
      GroupInterpreted(reg, info.value.messageType, into, SkipMessage(b, budget - 1), budget - 1);
    }
  }

  lemma GroupInterpreted(reg: Registry, t: nat, fs: seq<Field>, o: Outcome<seq<UnknownField>>, budget: nat)
    requires o.AtEndGroup?
    ensures Interpreted(reg, t, fs, o, budget) ==
            match InterpretAll(reg, t, fs, o.value, budget)
            case Some(after) => AtEndGroup(after, o.tag, o.rest)
            case None => Failed
  {
    hide InterpretAll;
  }

  /** Where a reader without a registry reads all fields, the reader of the set ends in the
      same way, and what it leaves is what the fields do to the set one by one. */
  lemma {:induction false} ReadIsInterpretation(reg: Registry, t: nat, fs: seq<Field>, b: bytes, budget: nat)
    requires !SkipMessage(b, budget).Failed?
    ensures ReadFields(reg, t, fs, b, budget) == Interpreted(reg, t, fs, SkipMessage(b, budget), budget)
    decreases |b|, 0
  {
    hide ReadField, SkipField, Interpret, Interpreted;
    NothingInterpreted(reg, t, fs, SkipMessage(b, budget), budget);
    if ReadTag(b).Tag? && ReadTag(b).tag % 8 != WIRETYPE_END_GROUP {
      var tag, rest := ReadTag(b).tag, ReadTag(b).rest;
      TagExtends(b, []);
      FieldIsInterpreted(reg, t, fs, tag, rest, budget);
      var r := SkipField(rest, tag, budget).value;
      InterpretedCons(reg, t, fs, r.value, SkipMessage(r.rest, budget), budget);
      var after := Interpret(reg, t, fs, r.value, budget);
      if after.Some? { ReadIsInterpretation(reg, t, after.value, r.rest, budget); }
    }
  }

  lemma NothingInterpreted(reg: Registry, t: nat, fs: seq<Field>, o: Outcome<seq<UnknownField>>, budget: nat)
    ensures !o.Failed? && o.value == [] ==>
      Interpreted(reg, t, fs, o, budget) ==
        match o
        case Finished(_) => Finished(fs)
        case AtEndGroup(_, tag, rest) => AtEndGroup(fs, tag, rest)
        case Stopped(_) => Stopped(fs)
  {
  }
}
