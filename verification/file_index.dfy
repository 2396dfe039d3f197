/** The index of a descriptor database: which file has a name, declares a symbol, or
    declares an extension. */
module FileIndex {
  import opened Options
  import opened DescriptorProtos
  import opened SymbolIndex

  datatype ExtensionEntry<V> = ExtensionEntry(extendee: string, number: int, value: V)

  datatype Index<V> = Index(names: map<string, V>, symbols: seq<Entry<V>>, extensions: seq<ExtensionEntry<V>>)

  function Empty<V>(): Index<V> {
    Index(map[], [], [])
  }

  /** The order of the extension table: by extended type, then by number. */
  predicate Before<V>(e: ExtensionEntry<V>, extendee: string, number: int) {
    Less(e.extendee, extendee) || (e.extendee == extendee && e.number < number)
  }

  predicate InOrder<V>(s: seq<ExtensionEntry<V>>) {
    forall i, j :: 0 <= i < j < |s| ==> Before(s[i], s[j].extendee, s[j].number)
  }

  /** The position of the first entry that is not before the key. */
  function LowerBound<V>(s: seq<ExtensionEntry<V>>, extendee: string, number: int): (l: nat)
    ensures l <= |s|
    ensures forall i :: 0 <= i < l ==> Before(s[i], extendee, number)
    ensures l < |s| ==> !Before(s[l], extendee, number)
  {
    if s == [] || !Before(s[0], extendee, number) then 0 else 1 + LowerBound(s[1..], extendee, number)
  }

  predicate IsAt<V>(s: seq<ExtensionEntry<V>>, l: nat, extendee: string, number: int) {
    l < |s| && s[l].extendee == extendee && s[l].number == number
  }

  /** The value registered for an extension. */
  function ExtensionValue<V>(s: seq<ExtensionEntry<V>>, extendee: string, number: int): Option<V> {
    var l := LowerBound(s, extendee, number);
    if IsAt(s, l, extendee, number) then Some(s[l].value) else None
  }

  function SymbolValue<V>(s: seq<Entry<V>>, name: string): Option<V> {
    match Find(s, name) case Some(e) => Some(e.value) case None => None
  }

  /** The numbers of the entries for a type, from a position on. */
  function NumbersFrom<V>(s: seq<ExtensionEntry<V>>, i: nat, extendee: string): seq<int>
    decreases |s| - i
  {
    if i < |s| && s[i].extendee == extendee then [s[i].number] + NumbersFrom(s, i + 1, extendee) else []
  }

  // ------------------------------------------------------------------
  // What adding a file enters into the index

  /** One entry that a file asks for. */
  datatype Request = SymbolNamed(name: string) | ExtensionOf(extendee: string, number: int)

  function Scoped(package: string, name: string): string {
    (if package == "" then "" else package + ".") + name
  }

  /** Only an extension whose extendee is fully qualified is indexed. */
  function ExtensionRequests(field: FieldProto): seq<Request> {
    match field.extendee
    case Some(e) => if e != "" && e[0] == '.' then [ExtensionOf(e[1..], field.number)] else []
    case None => []
  }

  function AllExtensions(fields: seq<FieldProto>): seq<Request> {
    if fields == [] then [] else ExtensionRequests(fields[0]) + AllExtensions(fields[1..])
  }

  function NestedExtensions(m: MessageProto): seq<Request>
    decreases m, 0
  {
    AllNested(m.nested) + AllExtensions(m.extensions)
  }

  function AllNested(ms: seq<MessageProto>): seq<Request>
    decreases ms, 1
  {
    if ms == [] then [] else NestedExtensions(ms[0]) + AllNested(ms[1..])
  }

  function MessageRequests(package: string, ms: seq<MessageProto>): seq<Request> {
    if ms == [] then []
    else [SymbolNamed(Scoped(package, ms[0].name))] + NestedExtensions(ms[0]) + MessageRequests(package, ms[1..])
  }

  function EnumRequests(package: string, es: seq<EnumProto>): seq<Request> {
    if es == [] then [] else [SymbolNamed(Scoped(package, es[0].name))] + EnumRequests(package, es[1..])
  }

  function FieldRequests(package: string, fs: seq<FieldProto>): seq<Request> {
    if fs == [] then []
    else [SymbolNamed(Scoped(package, fs[0].name))] + ExtensionRequests(fs[0]) + FieldRequests(package, fs[1..])
  }

  function ServiceRequests(package: string, ss: seq<ServiceProto>): seq<Request> {
    if ss == [] then [] else [SymbolNamed(Scoped(package, ss[0].name))] + ServiceRequests(package, ss[1..])
  }

  /** Top-level declarations by name, and extensions at any depth. */
  function Requests(file: FileProto): seq<Request> {
    MessageRequests(file.package, file.messages) + EnumRequests(file.package, file.enums)
    + FieldRequests(file.package, file.extensions) + ServiceRequests(file.package, file.services)
  }

  predicate Grants<V>(x: Index<V>, r: Request) {
    match r
    case SymbolNamed(name) => Accepts(x.symbols, name)
    case ExtensionOf(e, n) => !IsAt(x.extensions, LowerBound(x.extensions, e, n), e, n)
  }

  function With<V>(x: Index<V>, r: Request, v: V): Index<V> {
    match r
    case SymbolNamed(name) => x.(symbols := Inserted(x.symbols, Entry(name, v)))
    case ExtensionOf(e, n) =>
      var l := LowerBound(x.extensions, e, n);
      x.(extensions := x.extensions[..l] + [ExtensionEntry(e, n, v)] + x.extensions[l..])
  }

  /** The requests one after another, up to the first that is refused; what came before
      that one stays. */
  function Serve<V>(x: Index<V>, rs: seq<Request>, v: V): (Index<V>, bool)
    decreases rs
  {
    if rs == [] then (x, true)
    else if Grants(x, rs[0]) then Serve(With(x, rs[0], v), rs[1..], v)
    else (x, false)
  }

  /** Adding a file: its name, unless that is taken, and then its requests. */
  function AddedFile<V>(x: Index<V>, file: FileProto, v: V): (Index<V>, bool) {
    if file.name in x.names then (x, false)
    else Serve(x.(names := x.names[file.name := v]), Requests(file), v)
  }

  lemma {:induction false} ServeAppend<V>(x: Index<V>, a: seq<Request>, b: seq<Request>, v: V)
    ensures Serve(x, a + b, v) == var (y, ok) := Serve(x, a, v); if ok then Serve(y, b, v) else (y, false)
    decreases a
  {
    if a == [] {
      assert a + b == b;
    } else {
      assert (a + b)[1..] == a[1..] + b;
      if Grants(x, a[0]) { ServeAppend(With(x, a[0], v), a[1..], b, v); }
    }
  }

  lemma ServeOne<V>(x: Index<V>, r: Request, v: V)
    ensures Serve(x, [r], v) == if Grants(x, r) then (With(x, r, v), true) else (x, false)
  {
    assert [r][1..] == [];
  }

  class DescriptorIndex<V> {
    var byName: map<string, V>
    var bySymbol: seq<Entry<V>>
    var byExtension: seq<ExtensionEntry<V>>

    function State(): Index<V>
      reads this
    {
      Index(byName, bySymbol, byExtension)
    }

    constructor ()
      ensures State() == Empty()
    {
      byName, bySymbol, byExtension := map[], [], [];
    }

    method AddFile(file: FileProto, value: V) returns (ok: bool)
      modifies this
      ensures (State(), ok) == AddedFile(old(State()), file, value)
    {
      hide Serve, Grants, With, ExtensionRequests, NestedExtensions;
      if file.name in byName { return false; }
      byName := byName[file.name := value];
      ghost var start := State();
      ghost var a, b, c, d := MessageRequests(file.package, file.messages), EnumRequests(file.package, file.enums),
        FieldRequests(file.package, file.extensions), ServiceRequests(file.package, file.services);
      ServeAppend(start, a + b + c, d, value);
      ServeAppend(start, a + b, c, value);
      ServeAppend(start, a, b, value);
      ok := AddMessages(file.package, file.messages, value);
      if !ok { return; }
      ok := AddEnums(file.package, file.enums, value);
      if !ok { return; }
      ok := AddFields(file.package, file.extensions, value);
      if !ok { return; }
      ok := AddServices(file.package, file.services, value);
    }

    method AddMessages(package: string, ms: seq<MessageProto>, value: V) returns (ok: bool)
      modifies this
      ensures (State(), ok) == Serve(old(State()), MessageRequests(package, ms), value)
      ensures byName == old(byName)
    {
      hide Grants, With;
      ServeNothing(State(), value);
      var i := 0;
      while i < |ms|
        invariant 0 <= i <= |ms| && byName == old(byName)
        invariant Serve(old(State()), MessageRequests(package, ms), value)
               == Serve(State(), MessageRequests(package, ms[i..]), value)
      {
        assert ms[i..][1..] == ms[i + 1..];
        ServeAppend(State(), [SymbolNamed(Scoped(package, ms[i].name))] + NestedExtensions(ms[i]),
                    MessageRequests(package, ms[i + 1..]), value);
        ServeAppend(State(), [SymbolNamed(Scoped(package, ms[i].name))], NestedExtensions(ms[i]), value);
        ok := AddSymbol(Scoped(package, ms[i].name), value);
        if !ok { return; }
        ok := AddNestedExtensions(ms[i], value);
        if !ok { return; }
        i := i + 1;
      }
      ServeNothing(State(), value);
      ok := true;
    }

    method AddEnums(package: string, es: seq<EnumProto>, value: V) returns (ok: bool)
      modifies this
      ensures (State(), ok) == Serve(old(State()), EnumRequests(package, es), value)
      ensures byName == old(byName)
    {
      hide Grants, With;
      ServeNothing(State(), value);
      var i := 0;
      while i < |es|
        invariant 0 <= i <= |es| && byName == old(byName)
        invariant Serve(old(State()), EnumRequests(package, es), value)
               == Serve(State(), EnumRequests(package, es[i..]), value)
      {
        assert es[i..][1..] == es[i + 1..];
        ServeAppend(State(), [SymbolNamed(Scoped(package, es[i].name))], EnumRequests(package, es[i + 1..]), value);
        ok := AddSymbol(Scoped(package, es[i].name), value);
        if !ok { return; }
        i := i + 1;
      }
      ServeNothing(State(), value);
      ok := true;
    }

    method AddFields(package: string, fs: seq<FieldProto>, value: V) returns (ok: bool)
      modifies this
      ensures (State(), ok) == Serve(old(State()), FieldRequests(package, fs), value)
      ensures byName == old(byName)
    {
      hide Grants, With;
      ServeNothing(State(), value);
      var i := 0;
      while i < |fs|
        invariant 0 <= i <= |fs| && byName == old(byName)
        invariant Serve(old(State()), FieldRequests(package, fs), value)
               == Serve(State(), FieldRequests(package, fs[i..]), value)
      {
        assert fs[i..][1..] == fs[i + 1..];
        ServeAppend(State(), [SymbolNamed(Scoped(package, fs[i].name))] + ExtensionRequests(fs[i]),
                    FieldRequests(package, fs[i + 1..]), value);
        ServeAppend(State(), [SymbolNamed(Scoped(package, fs[i].name))], ExtensionRequests(fs[i]), value);
        ok := AddSymbol(Scoped(package, fs[i].name), value);
        if !ok { return; }
        ok := AddExtension(fs[i], value);
        if !ok { return; }
        i := i + 1;
      }
      ServeNothing(State(), value);
      ok := true;
    }

    method AddServices(package: string, ss: seq<ServiceProto>, value: V) returns (ok: bool)
      modifies this
      ensures (State(), ok) == Serve(old(State()), ServiceRequests(package, ss), value)
      ensures byName == old(byName)
    {
      hide Grants, With;
      ServeNothing(State(), value);
      var i := 0;
      while i < |ss|
        invariant 0 <= i <= |ss| && byName == old(byName)
        invariant Serve(old(State()), ServiceRequests(package, ss), value)
               == Serve(State(), ServiceRequests(package, ss[i..]), value)
      {
        assert ss[i..][1..] == ss[i + 1..];
        ServeAppend(State(), [SymbolNamed(Scoped(package, ss[i].name))], ServiceRequests(package, ss[i + 1..]), value);
        ok := AddSymbol(Scoped(package, ss[i].name), value);
        if !ok { return; }
        i := i + 1;
      }
      ServeNothing(State(), value);
      ok := true;
    }

    /** The two checks against the neighbours of the name, then the insertion. */
    method AddSymbol(name: string, value: V) returns (ok: bool)
      modifies this
      ensures (State(), ok) == Serve(old(State()), [SymbolNamed(name)], value)
      ensures byName == old(byName)
    {
      hide Inserted;
      ServeOne(State(), SymbolNamed(name), value);
      if !IsSymbolName(name) { return false; }
      var iter := FindLastLessOrEqual(bySymbol, name);
      if iter == |bySymbol| {
        bySymbol := Inserted(bySymbol, Entry(name, value));
        return true;
      }
      if IsSubSymbol(bySymbol[iter].key, name) { return false; }
      iter := iter + 1;
      if iter != |bySymbol| && IsSubSymbol(name, bySymbol[iter].key) { return false; }
      bySymbol := Inserted(bySymbol, Entry(name, value));
      ok := true;
    }

    method AddNestedExtensions(m: MessageProto, value: V) returns (ok: bool)
      modifies this
      ensures (State(), ok) == Serve(old(State()), NestedExtensions(m), value)
      ensures byName == old(byName)
      decreases m, 0
    {
      ServeAppend(State(), AllNested(m.nested), AllExtensions(m.extensions), value);
      ok := AddAllNested(m.nested, value);
      if !ok { return; }
      ok := AddAllExtensions(m.extensions, value);
    }

    method AddAllNested(ms: seq<MessageProto>, value: V) returns (ok: bool)
      modifies this
      decreases ms, 1
      ensures (State(), ok) == Serve(old(State()), AllNested(ms), value)
      ensures byName == old(byName)
    {
      hide Grants, With;
      ServeNothing(State(), value);
      var i := 0;
      while i < |ms|
        invariant 0 <= i <= |ms| && byName == old(byName)
        invariant Serve(old(State()), AllNested(ms), value) == Serve(State(), AllNested(ms[i..]), value)
      {
        assert ms[i..][1..] == ms[i + 1..];
        ServeAppend(State(), NestedExtensions(ms[i]), AllNested(ms[i + 1..]), value);
        ok := AddNestedExtensions(ms[i], value);
        if !ok { return; }
        i := i + 1;
      }
      ServeNothing(State(), value);
      ok := true;
    }

    method AddAllExtensions(fs: seq<FieldProto>, value: V) returns (ok: bool)
      modifies this
      ensures (State(), ok) == Serve(old(State()), AllExtensions(fs), value)
      ensures byName == old(byName)
    {
      hide Grants, With;
      ServeNothing(State(), value);
      var i := 0;
      while i < |fs|
        invariant 0 <= i <= |fs| && byName == old(byName)
        invariant Serve(old(State()), AllExtensions(fs), value) == Serve(State(), AllExtensions(fs[i..]), value)
      {
        assert fs[i..][1..] == fs[i + 1..];
        ServeAppend(State(), ExtensionRequests(fs[i]), AllExtensions(fs[i + 1..]), value);
        ok := AddExtension(fs[i], value);
        if !ok { return; }
        i := i + 1;
      }
      ServeNothing(State(), value);
      ok := true;
    }

    method AddExtension(field: FieldProto, value: V) returns (ok: bool)
      modifies this
      ensures (State(), ok) == Serve(old(State()), ExtensionRequests(field), value)
      ensures byName == old(byName)
    {
      ServeNothing(State(), value);
      var extendee := match field.extendee case Some(e) => e case None => "";
      if extendee != "" && extendee[0] == '.' {
        ServeOne(State(), ExtensionOf(extendee[1..], field.number), value);
        var l := LowerBound(byExtension, extendee[1..], field.number);
        if IsAt(byExtension, l, extendee[1..], field.number) { return false; }
        byExtension := byExtension[..l] + [ExtensionEntry(extendee[1..], field.number, value)] + byExtension[l..];
      }
      ok := true;
    }

    /** Walk the entries of a type from number 0 on. */
    method FindAllExtensionNumbers(extendee: string, output: seq<int>) returns (success: bool, result: seq<int>)
      ensures result == output + NumbersFrom(byExtension, LowerBound(byExtension, extendee, 0), extendee)
      ensures success == (result != output)
    {
      var it := LowerBound(byExtension, extendee, 0);
      ghost var first := it;
      success, result := false, output;
      while it < |byExtension| && byExtension[it].extendee == extendee
        invariant first <= it <= |byExtension|
        invariant result + NumbersFrom(byExtension, it, extendee) == output + NumbersFrom(byExtension, first, extendee)
        invariant |result| == |output| + (it - first) && success == (it > first)
      {
        result, success, it := result + [byExtension[it].number], true, it + 1;
      }
    }
  }

  lemma ServeNothing<V>(x: Index<V>, v: V)
    ensures Serve(x, [], v) == (x, true)
  {
  }
}
