/** What a file declares, and which declarations can be entered in a store. */
module Declarations {
  import opened Options
  import opened DescriptorProtos
  import opened SymbolStore
  import opened DottedNames
  import opened ImportGraph
  import opened PoolInvariant

  function OfFields(scope: string, fs: seq<FieldProto>): seq<Declaration> {
    if fs == [] then []
    else OfFields(scope, fs[..|fs| - 1]) + [Declaration(Qualify(scope, fs[|fs| - 1].name), FIELD, [])]
  }

  function OfValues(scope: string, values: seq<string>): seq<Declaration> {
    if values == [] then []
    else OfValues(scope, values[..|values| - 1]) + [Declaration(Qualify(scope, values[|values| - 1]), ENUM_VALUE, [])]
  }

  /** The values of an enum are its siblings. */
  function OfEnum(scope: string, e: EnumProto): seq<Declaration> {
    OfValues(scope, e.values) + [Declaration(Qualify(scope, e.name), ENUM, [])]
  }

  function OfEnums(scope: string, es: seq<EnumProto>): seq<Declaration> {
    if es == [] then [] else OfEnums(scope, es[..|es| - 1]) + OfEnum(scope, es[|es| - 1])
  }

  function OfMessage(scope: string, m: MessageProto): seq<Declaration>
    decreases m, 2
  {
    OfParts(Qualify(scope, m.name), m) + [Declaration(Qualify(scope, m.name), MESSAGE, m.ranges)]
  }

  function OfParts(name: string, m: MessageProto): seq<Declaration>
    decreases m, 1
  {
    OfFields(name, m.fields) + OfMessages(name, m.nested) + OfEnums(name, m.enums) + OfFields(name, m.extensions)
  }

  function OfMessages(scope: string, ms: seq<MessageProto>): seq<Declaration>
    decreases ms, 0
  {
    if ms == [] then [] else OfMessages(scope, ms[..|ms| - 1]) + OfMessage(scope, ms[|ms| - 1])
  }

  function OfMethods(service: string, ms: seq<MethodProto>): seq<Declaration> {
    if ms == [] then []
    else OfMethods(service, ms[..|ms| - 1]) + [Declaration(service + "." + ms[|ms| - 1].name, METHOD, [])]
  }

  function OfService(scope: string, s: ServiceProto): seq<Declaration> {
    OfMethods(Qualify(scope, s.name), s.methods) + [Declaration(Qualify(scope, s.name), SERVICE, [])]
  }

  function OfServices(scope: string, ss: seq<ServiceProto>): seq<Declaration> {
    if ss == [] then [] else OfServices(scope, ss[..|ss| - 1]) + OfService(scope, ss[|ss| - 1])
  }

  /** Everything that a file declares, at any depth. */
  function OfFile(proto: FileProto): seq<Declaration> {
    OfMessages(proto.package, proto.messages) + OfEnums(proto.package, proto.enums)
    + OfServices(proto.package, proto.services) + OfFields(proto.package, proto.extensions)
  }

  const MAX_NUMBER := 0x1fff_ffff
  const FIRST_RESERVED_NUMBER := 19000
  const LAST_RESERVED_NUMBER := 19999

  /** The largest number of an extension depends on the message it extends. */
  predicate NumberProper(number: int, isExtension: bool) {
    && 0 < number && (isExtension || number <= MAX_NUMBER)
    && !(FIRST_RESERVED_NUMBER <= number <= LAST_RESERVED_NUMBER)
  }

  predicate FieldProper(f: FieldProto, isExtension: bool) {
    IsIdentifier(f.name) && NumberProper(f.number, isExtension) && (f.extendee.Some? <==> isExtension)
  }

  predicate FieldsProper(fs: seq<FieldProto>, isExtension: bool) {
    forall i :: 0 <= i < |fs| ==> FieldProper(fs[i], isExtension)
  }

  predicate RangesProper(ranges: seq<RangeProto>) {
    forall i :: 0 <= i < |ranges| ==> 0 < ranges[i].start < ranges[i].end
  }

  predicate InRange(number: int, range: RangeProto) {
    range.start <= number < range.end
  }

  predicate Overlap(a: RangeProto, b: RangeProto) {
    a.end > b.start && b.end > a.start
  }

  /** No field has an extension number, and no number is in two ranges. */
  predicate RangesApart(fs: seq<FieldProto>, ranges: seq<RangeProto>) {
    && (forall i, j :: 0 <= i < |fs| && 0 <= j < |ranges| ==> !InRange(fs[i].number, ranges[j]))
    && (forall i, j :: 0 <= i < j < |ranges| ==> !Overlap(ranges[i], ranges[j]))
  }

  /** No extension range, at any depth, goes beyond the largest number. */
  predicate RangesBounded(ms: seq<MessageProto>)
    decreases ms
  {
    forall i :: 0 <= i < |ms| ==>
      && (forall j :: 0 <= j < |ms[i].ranges| ==> ms[i].ranges[j].end <= MAX_NUMBER + 1)
      && RangesBounded(ms[i].nested)
  }

  /** Ranges that are proper overlap exactly if they share a number. */
  lemma {:induction false} OverlapShares(a: RangeProto, b: RangeProto)
    requires a.start < a.end && b.start < b.end
    ensures Overlap(a, b) <==> exists n :: InRange(n, a) && InRange(n, b)
  {
    if Overlap(a, b) {
      var n := if a.start < b.start then b.start else a.start;
      assert InRange(n, a) && InRange(n, b);
    }
  }

  predicate ValuesProper(values: seq<string>) {
    forall i :: 0 <= i < |values| ==> IsIdentifier(values[i])
  }

  predicate EnumProper(e: EnumProto) {
    IsIdentifier(e.name) && e.values != [] && ValuesProper(e.values)
  }

  predicate EnumsProper(es: seq<EnumProto>) {
    forall i :: 0 <= i < |es| ==> EnumProper(es[i])
  }

  predicate MessageProper(m: MessageProto)
    decreases m, 2
  {
    IsIdentifier(m.name) && PartsProper(m) && RangesApart(m.fields, m.ranges)
  }

  predicate PartsProper(m: MessageProto)
    decreases m, 1
  {
    && FieldsProper(m.fields, false) && MessagesProper(m.nested) && EnumsProper(m.enums)
    && RangesProper(m.ranges) && FieldsProper(m.extensions, true)
  }

  predicate MessagesProper(ms: seq<MessageProto>)
    decreases ms, 0
  {
    forall i :: 0 <= i < |ms| ==> MessageProper(ms[i])
  }

  predicate MethodsProper(methods: seq<MethodProto>) {
    forall i :: 0 <= i < |methods| ==> IsIdentifier(methods[i].name)
  }

  predicate ServiceProper(s: ServiceProto) {
    IsIdentifier(s.name) && MethodsProper(s.methods)
  }

  predicate ServicesProper(ss: seq<ServiceProto>) {
    forall i :: 0 <= i < |ss| ==> ServiceProper(ss[i])
  }

  /** Every declared name is an identifier, every enum has a value, numbers are in the
      limits, extension ranges do not clash, and extensions say what they extend. */
  predicate ProperlyDeclared(proto: FileProto) {
    MessagesProper(proto.messages) && EnumsProper(proto.enums) && ServicesProper(proto.services)
    && FieldsProper(proto.extensions, true)
  }

  // ------------------------------------------------------------------
  // Entering declarations

  /** None of the names is taken, and no two are the same. */
  predicate AllNew(s: Store, ds: seq<Declaration>) {
    && (forall i :: 0 <= i < |ds| ==> ds[i].name !in s.symbols)
    && (forall i, j :: 0 <= i < j < |ds| ==> ds[i].name != ds[j].name)
  }

  /** Where a builder stands: its store, and whether it has recorded an error. */
  datatype Point = Point(store: Store, failed: bool)

  /** On the way from `a` to `b` the declarations were entered for file `f`, and nothing
      else: every new symbol is one of them, and an error was recorded exactly if
      something is not `proper` or not new. */
  ghost predicate Entered(a: Point, b: Point, ds: seq<Declaration>, f: nat, proper: bool) {
    && a.store.allocations <= b.store.allocations
    && (forall k :: k in a.store.symbols ==> k in b.store.symbols && b.store.symbols[k] == a.store.symbols[k])
    && (forall k :: k in b.store.symbols && k !in a.store.symbols ==> IsOneOf(b.store, k, ds, f))
    && (forall i :: 0 <= i < |ds| ==> ds[i].name in b.store.symbols)
    && (b.failed <==> a.failed || !proper || !AllNew(a.store, ds))
  }

  /** The table has the name as one of the declarations, of file `f`. */
  ghost predicate IsOneOf(s: Store, k: string, ds: seq<Declaration>, f: nat) {
    && k in s.symbols && s.symbols[k].value.file == f && IsDescriptor(s, s.symbols[k].value.block)
    && Meant(s, s.symbols[k].value).name == k && Meant(s, s.symbols[k].value) in ds
  }

  ghost predicate Has(s: Store, d: Declaration, f: nat) {
    && d.name in s.symbols && s.symbols[d.name].value.file == f && IsDescriptor(s, s.symbols[d.name].value.block)
    && Meant(s, s.symbols[d.name].value) == d
  }

  /** Every declaration is in the flat table as one of file `f`. */
  ghost predicate HasAll(s: Store, ds: seq<Declaration>, f: nat) {
    forall i :: 0 <= i < |ds| ==> Has(s, ds[i], f)
  }

  lemma HasAllKept(s: Store, t: Store, ds: seq<Declaration>, f: nat)
    requires HasAll(s, ds, f) && s.allocations <= t.allocations
    requires forall k :: k in s.symbols ==> k in t.symbols && t.symbols[k] == s.symbols[k]
    ensures HasAll(t, ds, f)
  {
    forall i | 0 <= i < |ds| ensures Has(t, ds[i], f) { assert Has(s, ds[i], f); }
  }

  /** Without errors every name is in the table as what it was declared as. */
  lemma EnteredHas(a: Point, b: Point, ds: seq<Declaration>, f: nat, proper: bool)
    requires Entered(a, b, ds, f, proper) && !b.failed
    ensures HasAll(b.store, ds, f)
  {
    forall i | 0 <= i < |ds| ensures Has(b.store, ds[i], f) {
      var d := Meant(b.store, b.store.symbols[ds[i].name].value);
      assert IsOneOf(b.store, ds[i].name, ds, f);
      var j :| 0 <= j < |ds| && ds[j] == d;
      assert j == i;
    }
  }

  lemma EnteredNone(a: Point, b: Point, f: nat, proper: bool)
    requires b.store.symbols == a.store.symbols && a.store.allocations <= b.store.allocations
    requires b.failed <==> a.failed || !proper
    ensures Entered(a, b, [], f, proper)
  {
  }

  lemma EnteredOne(a: Point, b: Point, d: Declaration, f: nat, proper: bool)
    requires a.store.allocations <= b.store.allocations
    requires forall k :: k in a.store.symbols ==> k in b.store.symbols && b.store.symbols[k] == a.store.symbols[k]
    requires forall k :: k in b.store.symbols <==> k in a.store.symbols || k == d.name
    requires d.name !in a.store.symbols ==> Has(b.store, d, f)
    requires b.failed <==> a.failed || !proper || d.name in a.store.symbols
    ensures Entered(a, b, [d], f, proper)
  {
    assert d.name in a.store.symbols ==> !AllNew(a.store, [d]) by { assert [d][0] == d; }
  }

  lemma EnteredSame(a: Point, b: Point, c: Point, ds: seq<Declaration>, f: nat, proper: bool)
    requires Entered(a, b, ds, f, proper) && c.store.symbols == b.store.symbols && c.failed == b.failed
    requires b.store.allocations <= c.store.allocations
    ensures Entered(a, c, ds, f, proper)
  {
  }

  lemma EnteredMore(a: Point, b: Point, c: Point, ds: seq<Declaration>, es: seq<Declaration>, f: nat, proper: bool,
                    more: bool)
    requires Entered(a, b, ds, f, proper) && Entered(b, c, es, f, more)
    ensures Entered(a, c, ds + es, f, proper && more)
  {
    hide AllNew;
    forall k | k in b.store.symbols && k !in a.store.symbols ensures exists i :: 0 <= i < |ds| && ds[i].name == k {
      assert IsOneOf(b.store, k, ds, f);
    }
    AllNewMore(a.store, b.store, ds, es);
    assert forall i :: |ds| <= i < |ds + es| ==> (ds + es)[i] == es[i - |ds|];
    forall k | k in c.store.symbols && k !in a.store.symbols ensures IsOneOf(c.store, k, ds + es, f) {
      if k in b.store.symbols { assert IsOneOf(b.store, k, ds, f); } else { assert IsOneOf(c.store, k, es, f); }
    }
  }

  lemma AllNewMore(s: Store, t: Store, ds: seq<Declaration>, es: seq<Declaration>)
    requires forall k :: k in s.symbols ==> k in t.symbols
    requires forall k :: k in t.symbols && k !in s.symbols ==> exists i :: 0 <= i < |ds| && ds[i].name == k
    requires forall i :: 0 <= i < |ds| ==> ds[i].name in t.symbols
    ensures AllNew(s, ds + es) <==> AllNew(s, ds) && AllNew(t, es)
  {
    var c := ds + es;
    assert forall i :: 0 <= i < |ds| ==> c[i] == ds[i];
    assert forall i :: |ds| <= i < |c| ==> c[i] == es[i - |ds|];
    if AllNew(s, c) {
      forall i | 0 <= i < |ds| ensures ds[i].name !in s.symbols { assert c[i].name !in s.symbols; }
      forall i, j | 0 <= i < j < |ds| ensures ds[i].name != ds[j].name { assert c[i].name != c[j].name; }
      forall i | 0 <= i < |es| ensures es[i].name !in t.symbols {
        assert c[|ds| + i].name !in s.symbols;
        forall k | 0 <= k < |ds| ensures ds[k].name != es[i].name { assert c[k].name != c[|ds| + i].name; }
      }
      forall i, j | 0 <= i < j < |es| ensures es[i].name != es[j].name { assert c[|ds| + i].name != c[|ds| + j].name; }
    }
    if AllNew(s, ds) && AllNew(t, es) {
      forall i | 0 <= i < |c| ensures c[i].name !in s.symbols {
        if i >= |ds| { assert es[i - |ds|].name !in t.symbols; }
      }
      forall i, j | 0 <= i < j < |c| ensures c[i].name != c[j].name {
        if i < |ds| && j >= |ds| { assert es[j - |ds|].name !in t.symbols && ds[i].name in t.symbols; }
      }
    }
  }

  lemma FieldStep(a: Point, b: Point, c: Point, f: nat, scope: string, xs: seq<FieldProto>, isExtension: bool, i: nat)
    requires i < |xs| && Entered(a, b, OfFields(scope, xs[..i]), f, FieldsProper(xs[..i], isExtension))
    requires Entered(b, c, [Declaration(Qualify(scope, xs[i].name), FIELD, [])], f, FieldProper(xs[i], isExtension))
    ensures Entered(a, c, OfFields(scope, xs[..i + 1]), f, FieldsProper(xs[..i + 1], isExtension))
  {
    hide Entered, FieldProper;
    EnteredMore(a, b, c, OfFields(scope, xs[..i]), [Declaration(Qualify(scope, xs[i].name), FIELD, [])], f,
                FieldsProper(xs[..i], isExtension), FieldProper(xs[i], isExtension));
    assert xs[..i + 1][..i] == xs[..i];
    assert xs[..i + 1] == xs[..i] + [xs[i]];
  }

  lemma ValueStep(a: Point, b: Point, c: Point, f: nat, scope: string, xs: seq<string>, i: nat)
    requires i < |xs| && Entered(a, b, OfValues(scope, xs[..i]), f, ValuesProper(xs[..i]))
    requires Entered(b, c, [Declaration(Qualify(scope, xs[i]), ENUM_VALUE, [])], f, IsIdentifier(xs[i]))
    ensures Entered(a, c, OfValues(scope, xs[..i + 1]), f, ValuesProper(xs[..i + 1]))
  {
    hide Entered, IsIdentifier;
    EnteredMore(a, b, c, OfValues(scope, xs[..i]), [Declaration(Qualify(scope, xs[i]), ENUM_VALUE, [])], f,
                ValuesProper(xs[..i]), IsIdentifier(xs[i]));
    assert xs[..i + 1][..i] == xs[..i];
    assert xs[..i + 1] == xs[..i] + [xs[i]];
  }

  lemma EnumStep(a: Point, b: Point, c: Point, f: nat, scope: string, xs: seq<EnumProto>, i: nat)
    requires i < |xs| && Entered(a, b, OfEnums(scope, xs[..i]), f, EnumsProper(xs[..i]))
    requires Entered(b, c, OfEnum(scope, xs[i]), f, EnumProper(xs[i]))
    ensures Entered(a, c, OfEnums(scope, xs[..i + 1]), f, EnumsProper(xs[..i + 1]))
  {
    hide Entered, OfEnum, EnumProper;
    EnteredMore(a, b, c, OfEnums(scope, xs[..i]), OfEnum(scope, xs[i]), f, EnumsProper(xs[..i]), EnumProper(xs[i]));
    assert xs[..i + 1][..i] == xs[..i];
    assert xs[..i + 1] == xs[..i] + [xs[i]];
  }

  lemma MessageStep(a: Point, b: Point, c: Point, f: nat, scope: string, xs: seq<MessageProto>, i: nat)
    requires i < |xs| && Entered(a, b, OfMessages(scope, xs[..i]), f, MessagesProper(xs[..i]))
    requires Entered(b, c, OfMessage(scope, xs[i]), f, MessageProper(xs[i]))
    ensures Entered(a, c, OfMessages(scope, xs[..i + 1]), f, MessagesProper(xs[..i + 1]))
  {
    hide Entered, OfMessage, MessageProper;
    EnteredMore(a, b, c, OfMessages(scope, xs[..i]), OfMessage(scope, xs[i]), f, MessagesProper(xs[..i]),
                MessageProper(xs[i]));
    assert xs[..i + 1][..i] == xs[..i];
    assert xs[..i + 1] == xs[..i] + [xs[i]];
  }

  lemma MethodStep(a: Point, b: Point, c: Point, f: nat, scope: string, xs: seq<MethodProto>, i: nat)
    requires i < |xs| && Entered(a, b, OfMethods(scope, xs[..i]), f, MethodsProper(xs[..i]))
    requires Entered(b, c, [Declaration(scope + "." + xs[i].name, METHOD, [])], f, IsIdentifier(xs[i].name))
    ensures Entered(a, c, OfMethods(scope, xs[..i + 1]), f, MethodsProper(xs[..i + 1]))
  {
    hide Entered, IsIdentifier;
    EnteredMore(a, b, c, OfMethods(scope, xs[..i]), [Declaration(scope + "." + xs[i].name, METHOD, [])], f,
                MethodsProper(xs[..i]), IsIdentifier(xs[i].name));
    assert xs[..i + 1][..i] == xs[..i];
    assert xs[..i + 1] == xs[..i] + [xs[i]];
  }

  lemma ServiceStep(a: Point, b: Point, c: Point, f: nat, scope: string, xs: seq<ServiceProto>, i: nat)
    requires i < |xs| && Entered(a, b, OfServices(scope, xs[..i]), f, ServicesProper(xs[..i]))
    requires Entered(b, c, OfService(scope, xs[i]), f, ServiceProper(xs[i]))
    ensures Entered(a, c, OfServices(scope, xs[..i + 1]), f, ServicesProper(xs[..i + 1]))
  {
    hide Entered, OfService, ServiceProper;
    EnteredMore(a, b, c, OfServices(scope, xs[..i]), OfService(scope, xs[i]), f, ServicesProper(xs[..i]),
                ServiceProper(xs[i]));
    assert xs[..i + 1][..i] == xs[..i];
    assert xs[..i + 1] == xs[..i] + [xs[i]];
  }

  lemma EnumEntered(a: Point, b: Point, c: Point, d: Point, f: nat, scope: string, e: EnumProto)
    requires b.store.symbols == a.store.symbols && a.store.allocations <= b.store.allocations
    requires b.failed <==> a.failed || !(IsIdentifier(e.name) && e.values != [])
    requires Entered(b, c, OfValues(scope, e.values), f, ValuesProper(e.values))
    requires Entered(c, d, [Declaration(Qualify(scope, e.name), ENUM, [])], f, true)
    ensures Entered(a, d, OfEnum(scope, e), f, EnumProper(e))
  {
    hide Entered, OfValues, ValuesProper, IsIdentifier;
    var values, named := OfValues(scope, e.values), IsIdentifier(e.name) && e.values != [];
    EnteredNone(a, b, f, named);
    EnteredMore(a, b, c, [], values, f, named, ValuesProper(e.values));
    assert [] + values == values;
    EnteredMore(a, c, d, values, [Declaration(Qualify(scope, e.name), ENUM, [])], f, named && ValuesProper(e.values),
                true);
  }

  lemma PartsEntered(a: Point, b: Point, c: Point, d: Point, e: Point, z: Point, f: nat, name: string, m: MessageProto)
    requires Entered(a, b, OfFields(name, m.fields), f, FieldsProper(m.fields, false))
    requires Entered(b, c, OfMessages(name, m.nested), f, MessagesProper(m.nested))
    requires Entered(c, d, OfEnums(name, m.enums), f, EnumsProper(m.enums))
    requires e.store == d.store && (e.failed <==> d.failed || !RangesProper(m.ranges))
    requires Entered(e, z, OfFields(name, m.extensions), f, FieldsProper(m.extensions, true))
    ensures Entered(a, z, OfParts(name, m), f, PartsProper(m))
  {
    hide Entered, OfFields, FieldsProper, OfEnums, EnumsProper, OfMessages, MessagesProper, RangesProper;
    var fs, ms, es, xs := OfFields(name, m.fields), OfMessages(name, m.nested), OfEnums(name, m.enums),
      OfFields(name, m.extensions);
    var p1 := FieldsProper(m.fields, false);
    var p2 := p1 && MessagesProper(m.nested);
    var p3 := p2 && EnumsProper(m.enums);
    EnteredMore(a, b, c, fs, ms, f, p1, MessagesProper(m.nested));
    EnteredMore(a, c, d, fs + ms, es, f, p2, EnumsProper(m.enums));
    EnteredNone(d, e, f, RangesProper(m.ranges));
    EnteredMore(a, d, e, fs + ms + es, [], f, p3, RangesProper(m.ranges));
    assert fs + ms + es + [] == fs + ms + es;
    EnteredMore(a, e, z, fs + ms + es, xs, f, p3 && RangesProper(m.ranges), FieldsProper(m.extensions, true));
  }

  lemma MessageEntered(a: Point, b: Point, c: Point, d: Point, e: Point, f: nat, scope: string, m: MessageProto)
    requires b.store.symbols == a.store.symbols && a.store.allocations <= b.store.allocations
    requires b.failed <==> a.failed || !IsIdentifier(m.name)
    requires Entered(b, c, OfParts(Qualify(scope, m.name), m), f, PartsProper(m))
    requires Entered(c, d, [Declaration(Qualify(scope, m.name), MESSAGE, m.ranges)], f, true)
    requires e.store == d.store && (e.failed <==> d.failed || !RangesApart(m.fields, m.ranges))
    ensures Entered(a, e, OfMessage(scope, m), f, MessageProper(m))
  {
    hide Entered, OfParts, PartsProper, IsIdentifier, RangesApart;
    var parts, last := OfParts(Qualify(scope, m.name), m), [Declaration(Qualify(scope, m.name), MESSAGE, m.ranges)];
    var p1 := IsIdentifier(m.name) && PartsProper(m);
    EnteredNone(a, b, f, IsIdentifier(m.name));
    EnteredMore(a, b, c, [], parts, f, IsIdentifier(m.name), PartsProper(m));
    assert [] + parts == parts;
    EnteredMore(a, c, d, parts, last, f, p1, true);
    EnteredNone(d, e, f, RangesApart(m.fields, m.ranges));
    EnteredMore(a, d, e, parts + last, [], f, p1, RangesApart(m.fields, m.ranges));
    assert parts + last + [] == parts + last;
  }

  lemma ServiceEntered(a: Point, b: Point, c: Point, d: Point, f: nat, scope: string, p: ServiceProto)
    requires b.store.symbols == a.store.symbols && a.store.allocations <= b.store.allocations
    requires b.failed <==> a.failed || !IsIdentifier(p.name)
    requires Entered(b, c, OfMethods(Qualify(scope, p.name), p.methods), f, MethodsProper(p.methods))
    requires Entered(c, d, [Declaration(Qualify(scope, p.name), SERVICE, [])], f, true)
    ensures Entered(a, d, OfService(scope, p), f, ServiceProper(p))
  {
    hide Entered, OfMethods, MethodsProper, IsIdentifier;
    var methods := OfMethods(Qualify(scope, p.name), p.methods);
    EnteredNone(a, b, f, IsIdentifier(p.name));
    EnteredMore(a, b, c, [], methods, f, IsIdentifier(p.name), MethodsProper(p.methods));
    assert [] + methods == methods;
    EnteredMore(a, c, d, methods, [Declaration(Qualify(scope, p.name), SERVICE, [])], f, ServiceProper(p), true);
  }

  lemma FileEntered(a: Point, b: Point, c: Point, d: Point, e: Point, f: nat, p: FileProto)
    requires Entered(a, b, OfMessages(p.package, p.messages), f, MessagesProper(p.messages))
    requires Entered(b, c, OfEnums(p.package, p.enums), f, EnumsProper(p.enums))
    requires Entered(c, d, OfServices(p.package, p.services), f, ServicesProper(p.services))
    requires Entered(d, e, OfFields(p.package, p.extensions), f, FieldsProper(p.extensions, true))
    ensures Entered(a, e, OfFile(p), f, ProperlyDeclared(p))
  {
    hide Entered, OfFields, FieldsProper, OfEnums, EnumsProper, OfMessages, MessagesProper, OfServices, ServicesProper;
    var ms, es, ss := OfMessages(p.package, p.messages), OfEnums(p.package, p.enums), OfServices(p.package, p.services);
    var p1 := MessagesProper(p.messages);
    var p2 := p1 && EnumsProper(p.enums);
    var p3 := p2 && ServicesProper(p.services);
    EnteredMore(a, b, c, ms, es, f, p1, EnumsProper(p.enums));
    EnteredMore(a, c, d, ms + es, ss, f, p2, ServicesProper(p.services));
    EnteredMore(a, d, e, ms + es + ss, OfFields(p.package, p.extensions), f, p3, FieldsProper(p.extensions, true));
  }

  lemma NoneEntered(a: Point, f: nat, scope: string)
    ensures Entered(a, a, OfFields(scope, []), f, FieldsProper([], false))
    ensures Entered(a, a, OfFields(scope, []), f, FieldsProper([], true))
    ensures Entered(a, a, OfValues(scope, []), f, ValuesProper([]))
    ensures Entered(a, a, OfEnums(scope, []), f, EnumsProper([]))
    ensures Entered(a, a, OfMessages(scope, []), f, MessagesProper([]))
    ensures Entered(a, a, OfMethods(scope, []), f, MethodsProper([]))
    ensures Entered(a, a, OfServices(scope, []), f, ServicesProper([]))
  {
    EnteredNone(a, a, f, true);
  }

  // ------------------------------------------------------------------
  // What a file needs for its declarations to be entered

  /** A name is taken by a package, or is not taken and ends in an identifier. */
  ghost predicate NameFits(s: Store, name: string) {
    if name in s.symbols then IsPackage(s, name) else IsIdentifier(name[LastDot(name) + 1..])
  }

  /** Walking from a package to its dotted parents, up to the first name that is
      taken, all names fit. */
  ghost predicate PackageFits(s: Store, name: string)
    decreases |name|
  {
    var d := LastDot(name);
    NameFits(s, name) && (name !in s.symbols && d >= 0 ==> PackageFits(s, name[..d]))
  }

  /** `name` is the package or one of its dotted parents. */
  predicate OfPackage(package: string, name: string) {
    name <= package && (|name| == |package| || package[|name|] == '.')
  }

  /** `name[..i]` is the name or one of its dotted parents. */
  predicate IsPrefixAt(name: string, i: int) {
    0 <= i <= |name| && (i == |name| || name[i] == '.')
  }

  /** The walk, said without walking: the package and all its dotted parents fit. */
  lemma {:induction false} PackageFitsExactly(s: Store, name: string)
    requires PackagesClosed(s, None)
    ensures PackageFits(s, name) <==> forall i :: IsPrefixAt(name, i) ==> NameFits(s, name[..i])
    decreases |name|
  {
    hide NameFits, PackagesClosed;
    var d := LastDot(name);
    assert name[..|name|] == name && IsPrefixAt(name, |name|);
    assert forall i :: IsPrefixAt(name, i) ==> i == |name| || i <= d;
    if d >= 0 {
      var parent := name[..d];
      PackageFitsExactly(s, parent);
      assert forall i :: 0 <= i <= d ==> parent[..i] == name[..i];
      assert forall i :: i <= d ==> (IsPrefixAt(parent, i) <==> IsPrefixAt(name, i));
      if name in s.symbols && NameFits(s, name) { TakenFits(s, name); }
    }
  }

  lemma {:induction false} TakenFits(s: Store, name: string)
    requires PackagesClosed(s, None) && name in s.symbols && NameFits(s, name) && LastDot(name) >= 0
    ensures PackageFits(s, name[..LastDot(name)])
  {
    assert IsPackage(s, name);
    assert IsPackage(s, name[..LastDot(name)]);
  }

  lemma TakenName(s: Store, name: string)
    requires name in s.symbols
    ensures PackageFits(s, name) <==> s.symbols[name].value.kind == PACKAGE
  {
  }

  /** What is left to check of a package that was not taken and has been entered. */
  ghost predicate ParentFits(s: Store, name: string) {
    IsIdentifier(name[LastDot(name) + 1..]) && (LastDot(name) >= 0 ==> PackageFits(s, name[..LastDot(name)]))
  }

  function ParentOf(name: string): Option<string> {
    var d := LastDot(name);
    if d >= 0 then Some(name[..d]) else None
  }

  /** A new package `name` leaves the walk from its parent as it was. */
  lemma NewPackageFits(s: Store, t: Store, name: string)
    requires name !in s.symbols
    requires forall k :: k != name ==>
      (k in t.symbols <==> k in s.symbols) && (k in s.symbols ==> t.symbols[k] == s.symbols[k])
    ensures PackageFits(s, name) <==> ParentFits(t, name)
  {
    if LastDot(name) >= 0 { FitsSame(s, t, name[..LastDot(name)], |name|); }
  }

  lemma {:induction false} FitsSame(s: Store, t: Store, name: string, n: nat)
    requires |name| < n
    requires forall k :: |k| < n ==>
      (k in t.symbols <==> k in s.symbols) && (k in s.symbols ==> t.symbols[k] == s.symbols[k])
    ensures PackageFits(t, name) <==> PackageFits(s, name)
    decreases |name|
  {
    var d := LastDot(name);
    if d >= 0 { FitsSame(s, t, name[..d], n); }
  }

  /** All the files are loaded, and no two are the same. */
  predicate AllLoaded(loaded: set<string>, names: seq<string>) {
    forall i :: 0 <= i < |names| ==> names[i] in loaded && names[i] !in names[..i]
  }

  /** The imports are loaded files and different, and public and weak imports are given
      by positions in the list. */
  predicate ImportsFit(loaded: set<string>, proto: FileProto) {
    && AllLoaded(loaded, proto.dependencies)
    && (forall i :: 0 <= i < |proto.publicDependencies| ==> 0 <= proto.publicDependencies[i] < |proto.dependencies|)
    && (forall i :: 0 <= i < |proto.weakDependencies| ==> 0 <= proto.weakDependencies[i] < |proto.dependencies|)
  }

  /** Package and imports, given the loaded files. */
  ghost predicate HeaderFits(s: Store, loaded: set<string>, proto: FileProto) {
    (proto.package != "" ==> PackageFits(s, proto.package)) && ImportsFit(loaded, proto)
  }

  /** Everything that can be checked of a file, which may import itself, before its
      references are resolved. */
  ghost predicate Enterable(s: Store, proto: FileProto) {
    HeaderFits(s, s.files.Keys + {proto.name}, proto) && ProperlyDeclared(proto) && AllNew(s, OfFile(proto))
  }

  // Full names are longer than the name of the scope, so entering the package of a
  // file takes no name that the file declares.

  predicate Longer(ds: seq<Declaration>, n: nat) {
    forall i :: 0 <= i < |ds| ==> |ds[i].name| > n
  }

  lemma FieldsLonger(scope: string, fs: seq<FieldProto>)
    requires scope != ""
    ensures Longer(OfFields(scope, fs), |scope|)
  {
  }

  lemma ValuesLonger(scope: string, values: seq<string>)
    requires scope != ""
    ensures Longer(OfValues(scope, values), |scope|)
  {
  }

  lemma EnumsLonger(scope: string, es: seq<EnumProto>)
    requires scope != ""
    ensures Longer(OfEnums(scope, es), |scope|)
  {
    if es != [] {
      EnumsLonger(scope, es[..|es| - 1]);
      ValuesLonger(scope, es[|es| - 1].values);
    }
  }

  lemma MethodsLonger(service: string, methods: seq<MethodProto>)
    ensures Longer(OfMethods(service, methods), |service|)
  {
  }

  lemma ServicesLonger(scope: string, ss: seq<ServiceProto>)
    requires scope != ""
    ensures Longer(OfServices(scope, ss), |scope|)
  {
    if ss != [] {
      ServicesLonger(scope, ss[..|ss| - 1]);
      MethodsLonger(Qualify(scope, ss[|ss| - 1].name), ss[|ss| - 1].methods);
    }
  }

  lemma {:induction false} MessageLonger(scope: string, m: MessageProto)
    requires scope != ""
    ensures Longer(OfMessage(scope, m), |scope|)
    decreases m, 1
  {
    var name := Qualify(scope, m.name);
    assert OfMessage(scope, m) == OfParts(name, m) + [Declaration(name, MESSAGE, m.ranges)];
    FieldsLonger(name, m.fields);
    MessagesLonger(name, m.nested);
    EnumsLonger(name, m.enums);
    FieldsLonger(name, m.extensions);
  }

  lemma {:induction false} MessagesLonger(scope: string, ms: seq<MessageProto>)
    requires scope != ""
    ensures Longer(OfMessages(scope, ms), |scope|)
    decreases ms, 0
  {
    if ms != [] {
      MessagesLonger(scope, ms[..|ms| - 1]);
      MessageLonger(scope, ms[|ms| - 1]);
    }
  }

  lemma FileLonger(proto: FileProto)
    requires proto.package != ""
    ensures Longer(OfFile(proto), |proto.package|)
  {
    MessagesLonger(proto.package, proto.messages);
    EnumsLonger(proto.package, proto.enums);
    ServicesLonger(proto.package, proto.services);
    FieldsLonger(proto.package, proto.extensions);
  }

  /** What is new in `t` are packages of file `f`: the package or its dotted parents. */
  ghost predicate PackagesEntered(s: Store, t: Store, package: string, f: nat) {
    && (forall k :: k in s.symbols ==> k in t.symbols && t.symbols[k] == s.symbols[k])
    && (forall k :: k in t.symbols && k !in s.symbols ==>
          t.symbols[k].value == Symbol(PACKAGE, f, f) && OfPackage(package, k))
  }

  /** The same for the package of a file, which may have none. */
  ghost predicate PackageEntered(s: Store, t: Store, package: string, f: nat) {
    PackagesEntered(s, t, package, f) && (package == "" ==> t.symbols == s.symbols)
  }

  /** The declarations of the file are as new after its package was entered as before. */
  lemma NewAfterPackage(s: Store, t: Store, proto: FileProto, f: nat)
    requires PackageEntered(s, t, proto.package, f)
    ensures AllNew(t, OfFile(proto)) <==> AllNew(s, OfFile(proto))
  {
    if proto.package != "" { FileLonger(proto); }
  }

  /** Package and imports, then the declarations. */
  lemma EnterableIs(s: Store, a: Point, b: Point, c: Point, proto: FileProto, f: nat)
    requires b.failed <==> a.failed || !HeaderFits(s, s.files.Keys + {proto.name}, proto)
    requires PackageEntered(s, b.store, proto.package, f)
    requires Entered(b, c, OfFile(proto), f, ProperlyDeclared(proto))
    ensures c.failed <==> a.failed || !Enterable(s, proto)
  {
    hide HeaderFits, ProperlyDeclared, OfFile, AllNew;
    NewAfterPackage(s, b.store, proto, f);
  }
}
