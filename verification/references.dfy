/** What the references in a file mean, and which of them cross-linking accepts. */
module References {
  import opened Options
  import opened DescriptorProtos
  import opened SymbolStore
  import opened DottedNames
  import opened ImportGraph
  import opened PoolInvariant
  import opened NameResolution
  import opened Declarations
  import opened FileBuilds

  predicate InPackage(s: Store, f: nat, name: string) {
    IsFile(s, f) && OfPackage(s.allocations[f].package, name)
  }

  /** A file sees its own symbols, those of the files its imports reach publicly, and
      the packages that it or one of those files lies in. */
  predicate Sees(s: Store, f: nat, deps: set<nat>, name: string, sym: Symbol) {
    sym.file == f || sym.file in deps ||
    (sym.kind == PACKAGE && (InPackage(s, f, name) || exists g :: g in deps && InPackage(s, g, name)))
  }

  function Visible(s: Store, f: nat, deps: set<nat>, name: string): Option<Symbol> {
    var found := Find(s, name);
    if found.Some? && Sees(s, f, deps, name, found.value) then found else None
  }

  /** Every package that the file or a file it sees lies in is in the table. */
  ghost predicate PackagesKnown(s: Store, f: nat, deps: set<nat>) {
    forall g, name :: (g == f || g in deps) && InPackage(s, g, name) && name != "" ==> name in s.symbols
  }

  /** What file `f` sees in `s` does not depend on what may be loaded later. */
  ghost predicate Steady(s: Store, f: nat, deps: set<nat>) {
    Committed(s) && PackagesKnown(s, f, deps) && IsFile(s, f) && forall g :: g in deps ==> IsFile(s, g)
  }

  /** A file sees nothing of files that are loaded while it is linked: they are not
      among those that it imports, and the packages it shares with them were known. */
  lemma VisibleStays(s: Store, t: Store, f: nat, deps: set<nat>, pending: seq<string>, name: string)
    requires Loads(s, t, pending) && Steady(s, f, deps)
    ensures Visible(t, f, deps, name) == Visible(s, f, deps, name)
  {
    hide Sound, Grows, Shaped, ImportsLoaded, PackagesClosed, AllIndexed, AllIndexesSound;
    assert forall g :: g == f || g in deps ==> InPackage(t, g, name) == InPackage(s, g, name);
    if name in t.symbols && name !in s.symbols {
      assert t.symbols[name].value.file >= |s.allocations|;
    }
  }

  lemma SteadyStays(s: Store, t: Store, f: nat, deps: set<nat>, pending: seq<string>)
    requires Loads(s, t, pending) && Steady(s, f, deps)
    ensures Steady(t, f, deps)
  {
    hide Sound, Grows, Consistent;
    assert forall g, name :: g == f || g in deps ==> InPackage(t, g, name) == InPackage(s, g, name);
  }

  /** In a pool whose files are the builds of their database entries, a loaded file is
      steady when it sees the files that its imports reach. */
  lemma LoadedIsSteady(db: Database, s: Store, f: nat, deps: set<nat>)
    requires Committed(s) && Faithful(db, s) && Loaded(s, f) && VisibleFrom(s, f, deps)
    ensures Steady(s, f, deps)
  {
    hide AllIndexed, AllIndexesSound, ImportsLoaded, PackagesClosed, SymbolSound, BlocksSound, Built;
    forall g | g in deps ensures Loaded(s, g) {
      var r :| r in Files(s.allocations[f].dependencies) && Reaches(s, r, g);
      var p :| IsPath(s, p) && p[0] == r && p[|p| - 1] == g;
      RootLoaded(s, f, r);
      PathLoaded(s, p);
    }
    forall g, name | (g == f || g in deps) && InPackage(s, g, name) && name != "" ensures name in s.symbols {
      PackageKnown(db, s, g, name);
    }
  }

  lemma RootLoaded(s: Store, f: nat, r: nat)
    requires Committed(s) && Loaded(s, f) && r in Files(s.allocations[f].dependencies)
    ensures Loaded(s, r)
  {
    hide AllIndexed, AllIndexesSound, Shaped, PackagesClosed;
    assert s.allocations[f].name in s.files;
  }

  lemma {:induction false} PathLoaded(s: Store, p: seq<nat>)
    requires Committed(s) && IsPath(s, p) && Loaded(s, p[0])
    ensures Loaded(s, p[|p| - 1])
    decreases |p|
  {
    hide AllIndexed, AllIndexesSound, ImportsLoaded, PackagesClosed, SymbolSound, BlocksSound, Loaded;
    if |p| > 1 {
      assert Edge(s, p[0], p[1]);
      assert forall i :: 0 <= i < |p[1..]| ==> p[1..][i] == p[i + 1];
      EdgeLoaded(s, p[0], p[1]);
      PathLoaded(s, p[1..]);
    }
  }

  lemma EdgeLoaded(s: Store, f: nat, g: nat)
    requires Committed(s) && Edge(s, f, g) && Loaded(s, f)
    ensures Loaded(s, g)
  {
    hide AllIndexed, AllIndexesSound, PackagesClosed;
    var i :| 0 <= i < |s.allocations[f].publicDependencies| && PublicImport(s, f, i) == Some(g);
    assert s.allocations[f].name in s.files;
  }

  lemma PackageKnown(db: Database, s: Store, g: nat, name: string)
    requires Committed(s) && Faithful(db, s) && Loaded(s, g) && InPackage(s, g, name) && name != ""
    ensures IsPackage(s, name)
  {
    hide Consistent;
    var package := s.allocations[g].package;
    assert Built(s, db.files[s.allocations[g].name], g);
    assert IsPackage(s, package);
    assert package[..|name|] == name;
    if |name| < |package| { PackageAncestors(s, package, |name|); } else { assert name == package; }
  }

  /** What the file finds under a name. */
  function View(s: Store, f: nat, deps: set<nat>): string -> Option<Declaration> {
    name => Meaning(s, Visible(s, f, deps, name))
  }

  // ------------------------------------------------------------------
  // What a reference must mean

  /** Whether a field declared with `kind`, or with none, may have that type. */
  predicate KindFits(kind: Option<FieldKind>, found: Kind) {
    match kind
    case None => found == MESSAGE || found == ENUM
    case Some(MessageField) => found == MESSAGE
    case Some(EnumField) => found == ENUM
    case Some(PrimitiveField) => false
  }

  /** What may be extended with the number: a message with an extension range for it. */
  predicate Extends(d: Declaration, number: int) {
    d.kind == MESSAGE && exists i :: 0 <= i < |d.ranges| && InRange(number, d.ranges[i])
  }

  predicate IsMessage(found: Option<Declaration>) {
    found.Some? && found.value.kind == MESSAGE
  }

  predicate IsTypeOf(found: Option<Declaration>, kind: Option<FieldKind>) {
    found.Some? && KindFits(kind, found.value.kind)
  }

  ghost predicate ExtendeeLinks(find: string -> Option<Declaration>, f: FieldProto, fullName: string) {
    f.extendee.Some? ==>
      var d := Resolved(find, f.extendee.value, fullName, LookupAll);
      d.Some? && Extends(d.value, f.number)
  }

  ghost predicate TypeLinks(find: string -> Option<Declaration>, f: FieldProto, fullName: string) {
    && (f.typeName.Some? ==> IsTypeOf(Resolved(find, f.typeName.value, fullName, LookupTypes), f.kind))
    && (f.typeName.None? ==> f.kind != Some(MessageField) && f.kind != Some(EnumField))
  }

  ghost predicate FieldLinks(find: string -> Option<Declaration>, f: FieldProto, fullName: string) {
    ExtendeeLinks(find, f, fullName) && TypeLinks(find, f, fullName)
  }

  ghost predicate FieldsLink(find: string -> Option<Declaration>, fs: seq<FieldProto>, scope: string) {
    forall i :: 0 <= i < |fs| ==> FieldLinks(find, fs[i], Qualify(scope, fs[i].name))
  }

  ghost predicate MessagesLink(find: string -> Option<Declaration>, ms: seq<MessageProto>, scope: string)
    decreases ms, 0
  {
    forall i :: 0 <= i < |ms| ==> MessageLinks(find, ms[i], Qualify(scope, ms[i].name))
  }

  ghost predicate MessageLinks(find: string -> Option<Declaration>, m: MessageProto, fullName: string)
    decreases m, 1
  {
    MessagesLink(find, m.nested, fullName) && FieldsLink(find, m.fields, fullName)
      && FieldsLink(find, m.extensions, fullName)
  }

  ghost predicate MethodLinks(find: string -> Option<Declaration>, m: MethodProto, fullName: string) {
    && IsMessage(Resolved(find, m.inputType, fullName, LookupAll))
    && IsMessage(Resolved(find, m.outputType, fullName, LookupAll))
  }

  ghost predicate MethodsLink(find: string -> Option<Declaration>, methods: seq<MethodProto>, service: string) {
    forall i :: 0 <= i < |methods| ==> MethodLinks(find, methods[i], service + "." + methods[i].name)
  }

  ghost predicate ServicesLink(find: string -> Option<Declaration>, services: seq<ServiceProto>, scope: string) {
    forall i :: 0 <= i < |services| ==> MethodsLink(find, services[i].methods, Qualify(scope, services[i].name))
  }

  // ------------------------------------------------------------------
  // Field numbers

  /** A message, by its full name, and the number of a field or an extension of it. */
  type NumberKey = (string, int)

  /** The message that has the field: the one it extends, or the one it is declared in. */
  ghost function ContainingType(find: string -> Option<Declaration>, f: FieldProto, fullName: string,
                                parent: string): string {
    match f.extendee
    case Some(e) => (match Resolved(find, e, fullName, LookupAll) case Some(d) => d.name case None => "")
    case None => parent
  }

  ghost function KeyOf(find: string -> Option<Declaration>, f: FieldProto, scope: string, parent: string): NumberKey {
    (ContainingType(find, f, Qualify(scope, f.name), parent), f.number)
  }

  ghost function FieldKeys(find: string -> Option<Declaration>, fs: seq<FieldProto>, scope: string, parent: string)
    : seq<NumberKey>
  {
    if fs == [] then []
    else FieldKeys(find, fs[..|fs| - 1], scope, parent) + [KeyOf(find, fs[|fs| - 1], scope, parent)]
  }

  ghost function MessageKeys(find: string -> Option<Declaration>, m: MessageProto, name: string): seq<NumberKey>
    decreases m, 1
  {
    MessagesKeys(find, m.nested, name) + FieldKeys(find, m.fields, name, name) + FieldKeys(find, m.extensions, name, "")
  }

  ghost function MessagesKeys(find: string -> Option<Declaration>, ms: seq<MessageProto>, scope: string): seq<NumberKey>
    decreases ms, 0
  {
    if ms == [] then []
    else
      MessagesKeys(find, ms[..|ms| - 1], scope)
      + MessageKeys(find, ms[|ms| - 1], Qualify(scope, ms[|ms| - 1].name))
  }

  /** The numbers that the file gives out, in the order of cross-linking. */
  ghost function FileKeys(find: string -> Option<Declaration>, proto: FileProto): seq<NumberKey> {
    MessagesKeys(find, proto.messages, proto.package) + FieldKeys(find, proto.extensions, proto.package, "")
  }

  predicate Distinct(keys: seq<NumberKey>) {
    forall i, j :: 0 <= i < j < |keys| ==> keys[i] != keys[j]
  }

  /** Every reference in the file means something of the right kind. */
  ghost predicate FileRefers(find: string -> Option<Declaration>, proto: FileProto) {
    && MessagesLink(find, proto.messages, proto.package) && FieldsLink(find, proto.extensions, proto.package)
    && ServicesLink(find, proto.services, proto.package)
  }

  /** Every reference means what it should, and the file gives out no number of a message
      twice. */
  ghost predicate FileLinks(find: string -> Option<Declaration>, proto: FileProto) {
    FileRefers(find, proto) && Distinct(FileKeys(find, proto))
  }

  // ------------------------------------------------------------------
  // Checking while numbers are given out

  /** How far cross-linking has come: the numbers it has given out, and whether it has
      recorded an error. */
  datatype Tally = Tally(numbers: set<NumberKey>, failed: bool)

  predicate Fresh(numbers: set<NumberKey>, keys: seq<NumberKey>) {
    Distinct(keys) && forall i :: 0 <= i < |keys| ==> keys[i] !in numbers
  }

  /** From `a` to `b` the keys were given out, and an error was recorded exactly if
      something is not `proper` or a key was given out before. */
  ghost predicate Checked(a: Tally, b: Tally, keys: seq<NumberKey>, proper: bool) {
    && (b.failed <==> a.failed || !proper || !Fresh(a.numbers, keys))
    && (!b.failed ==> forall k :: k in b.numbers <==> k in a.numbers || k in keys)
  }

  lemma CheckedNone(a: Tally, b: Tally, proper: bool)
    requires b.numbers == a.numbers && (b.failed <==> a.failed || !proper)
    ensures Checked(a, b, [], proper)
  {
  }

  lemma CheckedOne(a: Tally, b: Tally, key: NumberKey, proper: bool)
    requires b.numbers == a.numbers + {key} && (b.failed <==> a.failed || !proper || key in a.numbers)
    ensures Checked(a, b, [key], proper)
  {
    assert key in a.numbers ==> !Fresh(a.numbers, [key]) by { assert [key][0] == key; }
  }

  lemma CheckedMore(a: Tally, b: Tally, c: Tally, ks: seq<NumberKey>, ls: seq<NumberKey>, proper: bool, more: bool)
    requires Checked(a, b, ks, proper) && Checked(b, c, ls, more)
    ensures Checked(a, c, ks + ls, proper && more)
  {
    var all := ks + ls;
    assert forall i :: 0 <= i < |ks| ==> all[i] == ks[i];
    assert forall i :: |ks| <= i < |all| ==> all[i] == ls[i - |ks|];
    if !b.failed {
      if Fresh(a.numbers, all) {
        forall i, j | 0 <= i < j < |ks| ensures ks[i] != ks[j] { assert all[i] != all[j]; }
        forall i, j | 0 <= i < j < |ls| ensures ls[i] != ls[j] { assert all[|ks| + i] != all[|ks| + j]; }
        forall i | 0 <= i < |ls| ensures ls[i] !in b.numbers {
          assert all[|ks| + i] !in a.numbers;
          forall k | 0 <= k < |ks| ensures ks[k] != ls[i] { assert all[k] != all[|ks| + i]; }
        }
      }
      if Fresh(a.numbers, ks) && Fresh(b.numbers, ls) {
        forall i | 0 <= i < |all| ensures all[i] !in a.numbers { if i >= |ks| { assert ls[i - |ks|] !in b.numbers; } }
        forall i, j | 0 <= i < j < |all| ensures all[i] != all[j] {
          if i < |ks| && j >= |ks| { assert ls[j - |ks|] !in b.numbers && ks[i] in b.numbers; }
        }
      }
    } else if Fresh(a.numbers, all) {
      forall i, j | 0 <= i < j < |ks| ensures ks[i] != ks[j] { assert all[i] != all[j]; }
      forall i | 0 <= i < |ks| ensures ks[i] !in a.numbers { assert all[i] !in a.numbers; }
    }
  }

  lemma FieldChecked(find: string -> Option<Declaration>, a: Tally, b: Tally, c: Tally, fs: seq<FieldProto>,
                     scope: string,
                     parent: string, i: nat)
    requires i < |fs| && Checked(a, b, FieldKeys(find, fs[..i], scope, parent), FieldsLink(find, fs[..i], scope))
    requires Checked(b, c, [KeyOf(find, fs[i], scope, parent)], FieldLinks(find, fs[i], Qualify(scope, fs[i].name)))
    ensures Checked(a, c, FieldKeys(find, fs[..i + 1], scope, parent), FieldsLink(find, fs[..i + 1], scope))
  {
    hide Checked, FieldLinks, KeyOf;
    CheckedMore(a, b, c, FieldKeys(find, fs[..i], scope, parent), [KeyOf(find, fs[i], scope, parent)],
                FieldsLink(find, fs[..i], scope), FieldLinks(find, fs[i], Qualify(scope, fs[i].name)));
    assert fs[..i + 1][..i] == fs[..i];
    assert fs[..i + 1] == fs[..i] + [fs[i]];
  }

  lemma MessageChecked(find: string -> Option<Declaration>, a: Tally, b: Tally, c: Tally, ms: seq<MessageProto>,
                       scope: string, i: nat)
    requires i < |ms| && Checked(a, b, MessagesKeys(find, ms[..i], scope), MessagesLink(find, ms[..i], scope))
    requires var name := Qualify(scope, ms[i].name);
      Checked(b, c, MessageKeys(find, ms[i], name), MessageLinks(find, ms[i], name))
    ensures Checked(a, c, MessagesKeys(find, ms[..i + 1], scope), MessagesLink(find, ms[..i + 1], scope))
  {
    hide Checked, MessageLinks, MessageKeys;
    var name := Qualify(scope, ms[i].name);
    CheckedMore(a, b, c, MessagesKeys(find, ms[..i], scope), MessageKeys(find, ms[i], name),
                MessagesLink(find, ms[..i], scope), MessageLinks(find, ms[i], name));
    assert ms[..i + 1][..i] == ms[..i];
    assert ms[..i + 1] == ms[..i] + [ms[i]];
  }

  lemma PartsChecked(find: string -> Option<Declaration>, a: Tally, b: Tally, c: Tally, d: Tally, m: MessageProto,
                     name: string)
    requires Checked(a, b, MessagesKeys(find, m.nested, name), MessagesLink(find, m.nested, name))
    requires Checked(b, c, FieldKeys(find, m.fields, name, name), FieldsLink(find, m.fields, name))
    requires Checked(c, d, FieldKeys(find, m.extensions, name, ""), FieldsLink(find, m.extensions, name))
    ensures Checked(a, d, MessageKeys(find, m, name), MessageLinks(find, m, name))
  {
    hide Checked, MessagesKeys, MessagesLink, FieldKeys, FieldsLink;
    var ks, ls := MessagesKeys(find, m.nested, name), FieldKeys(find, m.fields, name, name);
    CheckedMore(a, b, c, ks, ls, MessagesLink(find, m.nested, name), FieldsLink(find, m.fields, name));
    CheckedMore(a, c, d, ks + ls, FieldKeys(find, m.extensions, name, ""),
                MessagesLink(find, m.nested, name) && FieldsLink(find, m.fields, name),
                FieldsLink(find, m.extensions, name));
  }

  lemma FileChecked(find: string -> Option<Declaration>, a: Tally, b: Tally, c: Tally, d: Tally, proto: FileProto)
    requires Checked(a, b, MessagesKeys(find, proto.messages, proto.package),
                     MessagesLink(find, proto.messages, proto.package))
    requires Checked(b, c, FieldKeys(find, proto.extensions, proto.package, ""),
                     FieldsLink(find, proto.extensions, proto.package))
    requires Checked(c, d, [], ServicesLink(find, proto.services, proto.package))
    ensures Checked(a, d, FileKeys(find, proto), FileRefers(find, proto))
    ensures a.numbers == {} ==> (d.failed <==> a.failed || !FileLinks(find, proto))
  {
    assert Checked(a, d, FileKeys(find, proto), FileRefers(find, proto)) by {
      hide Checked, MessagesKeys, MessagesLink, FieldKeys, FieldsLink, ServicesLink;
      var ks, ls := MessagesKeys(find, proto.messages, proto.package),
        FieldKeys(find, proto.extensions, proto.package, "");
      var p := MessagesLink(find, proto.messages, proto.package);
      var q := p && FieldsLink(find, proto.extensions, proto.package);
      CheckedMore(a, b, c, ks, ls, p, FieldsLink(find, proto.extensions, proto.package));
      CheckedMore(a, c, d, ks + ls, [], q, ServicesLink(find, proto.services, proto.package));
      assert ks + ls + [] == ks + ls;
    }
  }

  lemma NoneChecked(find: string -> Option<Declaration>, a: Tally, scope: string, parent: string)
    ensures Checked(a, a, FieldKeys(find, [], scope, parent), FieldsLink(find, [], scope))
    ensures Checked(a, a, MessagesKeys(find, [], scope), MessagesLink(find, [], scope))
  {
  }
}
