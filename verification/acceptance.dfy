/** Which files a pool accepts, said of the store and the file alone, without the builder. */
module Acceptance {
  import opened Options
  import opened DescriptorProtos
  import opened SymbolStore
  import opened DottedNames
  import opened ImportGraph
  import opened PoolInvariant
  import opened NameResolution
  import opened Declarations
  import opened FileBuilds
  import opened References

  /** The loaded imports of the file reach `g` through public imports. */
  ghost predicate InSight(s: Store, proto: FileProto, g: nat)
    requires BlocksSound(s)
  {
    exists i :: 0 <= i < |proto.dependencies| && proto.dependencies[i] in s.files
                && Reaches(s, s.files[proto.dependencies[i]].value, g)
  }

  /** The file would see the symbol that `s` has under the name. */
  ghost predicate Seen(s: Store, proto: FileProto, name: string, sym: Symbol)
    requires BlocksSound(s)
  {
    InSight(s, proto, sym.file) ||
    (sym.kind == PACKAGE
     && (OfPackage(proto.package, name) || exists g :: InSight(s, proto, g) && InPackage(s, g, name)))
  }

  function DeclaredAs(ds: seq<Declaration>, name: string): Option<Declaration> {
    if ds == [] then None
    else if ds[|ds| - 1].name == name then Some(ds[|ds| - 1])
    else DeclaredAs(ds[..|ds| - 1], name)
  }

  /** What the file adds to a store that does not have the name: what it declares, and
      its package with its parents. */
  function Added(proto: FileProto, name: string): Option<Declaration> {
    match DeclaredAs(OfFile(proto), name)
    case Some(d) => Some(d)
    case None =>
      if proto.package != "" && OfPackage(proto.package, name) then Some(Declaration("", PACKAGE, [])) else None
  }

  /** What the file would find under each name, once entered into the store. */
  ghost function Outlook(s: Store, proto: FileProto): string -> Option<Declaration>
    requires BlocksSound(s)
  {
    name =>
      if name !in s.symbols then Added(proto, name)
      else if Seen(s, proto, name, s.symbols[name].value) then Some(Meant(s, s.symbols[name].value))
      else None
  }

  /** The file can be entered, its references mean what they should, it gives out no number
      twice, and no extension range goes beyond the numbers there are. */
  ghost predicate Acceptable(s: Store, proto: FileProto) {
    BlocksSound(s) && Enterable(s, proto) && FileLinks(Outlook(s, proto), proto) && RangesBounded(proto.messages)
  }

  // ------------------------------------------------------------------
  // References depend on what is found alone

  ghost predicate Agree(find: string -> Option<Declaration>, other: string -> Option<Declaration>) {
    forall name :: find(name) == other(name)
  }

  ghost predicate SameResults(find: string -> Option<Declaration>, other: string -> Option<Declaration>) {
    forall name, scope, mode :: Resolved(find, name, scope, mode) == Resolved(other, name, scope, mode)
  }

  lemma ResolvedAlike(find: string -> Option<Declaration>, other: string -> Option<Declaration>)
    requires Agree(find, other)
    ensures SameResults(find, other)
  {
    forall name, scope, mode ensures Resolved(find, name, scope, mode) == Resolved(other, name, scope, mode) {
      var r := Resolved(find, name, scope, mode);
      ResolvesAlike(find, other, name, scope, mode, r);
      ResolvesUniquely(other, name, scope, mode, r, Resolved(other, name, scope, mode));
    }
  }

  lemma ResolvesAlike(find: string -> Option<Declaration>, other: string -> Option<Declaration>, name: string,
                      relativeTo: string, mode: ResolveMode, r: Option<Declaration>)
    requires Agree(find, other) && Resolves(find, name, relativeTo, mode, r)
    ensures Resolves(other, name, relativeTo, mode, r)
  {
    forall d: nat
      ensures CommitsAt(find, name, relativeTo, mode, d) <==> CommitsAt(other, name, relativeTo, mode, d)
    {
      if IsScopeEnd(relativeTo, d) {
        assert find(relativeTo[..d] + "." + FirstPart(name)) == other(relativeTo[..d] + "." + FirstPart(name));
      }
    }
    if name != "" && name[0] == '.' {
      assert find(name[1..]) == other(name[1..]);
    } else {
      forall d: nat | Innermost(other, name, relativeTo, mode, d) ensures r == other(relativeTo[..d] + "." + name) {
        assert Innermost(find, name, relativeTo, mode, d);
        assert find(relativeTo[..d] + "." + name) == other(relativeTo[..d] + "." + name);
      }
      assert find(name) == other(name);
    }
  }

  lemma {:induction false} FieldsAlike(find: string -> Option<Declaration>, other: string -> Option<Declaration>,
                                       fs: seq<FieldProto>, scope: string, parent: string)
    requires SameResults(find, other)
    ensures FieldsLink(find, fs, scope) <==> FieldsLink(other, fs, scope)
    ensures FieldKeys(find, fs, scope, parent) == FieldKeys(other, fs, scope, parent)
    decreases |fs|
  {
    hide Resolved;
    forall i | 0 <= i < |fs|
      ensures FieldLinks(find, fs[i], Qualify(scope, fs[i].name)) <==>
        FieldLinks(other, fs[i], Qualify(scope, fs[i].name))
    {
    }
    if fs != [] { FieldsAlike(find, other, fs[..|fs| - 1], scope, parent); }
  }

  lemma {:induction false} MessageAlike(find: string -> Option<Declaration>, other: string -> Option<Declaration>,
                                        m: MessageProto, name: string)
    requires SameResults(find, other)
    ensures MessageLinks(find, m, name) <==> MessageLinks(other, m, name)
    ensures MessageKeys(find, m, name) == MessageKeys(other, m, name)
    decreases m, 1
  {
    hide SameResults, FieldsLink, FieldKeys;
    MessagesAlike(find, other, m.nested, name);
    FieldsAlike(find, other, m.fields, name, name);
    FieldsAlike(find, other, m.extensions, name, "");
  }

  lemma {:induction false} MessagesAlike(find: string -> Option<Declaration>, other: string -> Option<Declaration>,
                                         ms: seq<MessageProto>, scope: string)
    requires SameResults(find, other)
    ensures MessagesLink(find, ms, scope) <==> MessagesLink(other, ms, scope)
    ensures MessagesKeys(find, ms, scope) == MessagesKeys(other, ms, scope)
    decreases ms, 0
  {
    hide SameResults, MessageLinks, MessageKeys;
    forall i | 0 <= i < |ms|
      ensures MessageLinks(find, ms[i], Qualify(scope, ms[i].name)) <==>
        MessageLinks(other, ms[i], Qualify(scope, ms[i].name))
    {
      MessageAlike(find, other, ms[i], Qualify(scope, ms[i].name));
    }
    if ms != [] {
      MessagesAlike(find, other, ms[..|ms| - 1], scope);
      MessageAlike(find, other, ms[|ms| - 1], Qualify(scope, ms[|ms| - 1].name));
    }
  }

  lemma ServicesAlike(find: string -> Option<Declaration>, other: string -> Option<Declaration>, ss: seq<ServiceProto>,
                      scope: string)
    requires SameResults(find, other)
    ensures ServicesLink(find, ss, scope) <==> ServicesLink(other, ss, scope)
  {
    hide Resolved;
    forall i | 0 <= i < |ss|
      ensures var name := Qualify(scope, ss[i].name);
        MethodsLink(find, ss[i].methods, name) <==> MethodsLink(other, ss[i].methods, name)
    {
      var service := Qualify(scope, ss[i].name);
      forall j | 0 <= j < |ss[i].methods|
        ensures MethodLinks(find, ss[i].methods[j], service + "." + ss[i].methods[j].name)
           <==> MethodLinks(other, ss[i].methods[j], service + "." + ss[i].methods[j].name)
      {
      }
    }
  }

  /** Finders that find the same give the same verdict on references and numbers. */
  lemma LinksAlike(find: string -> Option<Declaration>, other: string -> Option<Declaration>, proto: FileProto)
    requires Agree(find, other)
    ensures FileLinks(find, proto) <==> FileLinks(other, proto)
    ensures FileKeys(find, proto) == FileKeys(other, proto)
  {
    hide SameResults, MessagesLink, FieldsLink, ServicesLink, MessagesKeys, FieldKeys, Agree;
    ResolvedAlike(find, other);
    MessagesAlike(find, other, proto.messages, proto.package);
    FieldsAlike(find, other, proto.extensions, proto.package, "");
    ServicesAlike(find, other, proto.services, proto.package);
  }

  // ------------------------------------------------------------------
  // The outlook is what a builder sees

  /** Store `t` is `s` with file `f`, the build of `proto` as far as its declarations go. */
  ghost predicate EnteredFile(s: Store, t: Store, proto: FileProto, f: nat) {
    && Shaped(s) && Committed(t) && Monotone(s, t) && f == |s.allocations| && s.allocations <= t.allocations
    && (forall n :: n in t.files <==> n in s.files || n == proto.name)
    && proto.name in t.files && t.files[proto.name].value == f
    && (forall k :: k in t.symbols && k !in s.symbols ==> t.symbols[k].value.file == f)
    && Built(t, proto, f)
  }

  ghost predicate IsImport(s: Store, proto: FileProto, g: nat) {
    exists i :: 0 <= i < |proto.dependencies| && proto.dependencies[i] in s.files
                && s.files[proto.dependencies[i]].value == g
  }

  lemma RootInSight(s: Store, t: Store, proto: FileProto, f: nat, r: nat, g: nat)
    requires EnteredFile(s, t, proto, f) && IsImport(s, proto, r)
    ensures Reaches(t, r, g) <==> Reaches(s, r, g)
    ensures Reaches(t, r, g) ==> InSight(s, proto, g)
  {
    hide AllIndexed, AllIndexesSound, ImportsLoaded, PackagesClosed, HasAll, HasOnly, BlocksSound, Reaches;
    ReachesKept(s, t, r, g);
  }

  /** An import is a file of the store, or the new file itself. */
  lemma ImportsInStore(s: Store, t: Store, proto: FileProto, f: nat, r: nat)
    requires EnteredFile(s, t, proto, f)
    ensures r in Files(t.allocations[f].dependencies) && r != f ==> IsImport(s, proto, r)
    ensures IsImport(s, proto, r) ==> r in Files(t.allocations[f].dependencies) && r != f
  {
    hide AllIndexed, AllIndexesSound, ImportsLoaded, PackagesClosed, HasAll, HasOnly, BlocksSound, SymbolSound;
    if r in Files(t.allocations[f].dependencies) && r != f {
      var i :| 0 <= i < |t.allocations[f].dependencies| && t.allocations[f].dependencies[i] == Some(r);
      assert proto.dependencies[i] in s.files;
    }
    if IsImport(s, proto, r) {
      var i :| 0 <= i < |proto.dependencies| && proto.dependencies[i] in s.files
               && s.files[proto.dependencies[i]].value == r;
      assert t.allocations[f].dependencies[i] == Some(r);
    }
  }

  lemma PublicImportIsImport(s: Store, f: nat, g: nat)
    requires BlocksSound(s) && Edge(s, f, g)
    ensures g in Files(s.allocations[f].dependencies)
  {
    var i :| 0 <= i < |s.allocations[f].publicDependencies| && PublicImport(s, f, i) == Some(g);
    assert s.allocations[f].dependencies[s.allocations[f].publicDependencies[i]] == Some(g);
  }

  /** From file `f` itself a path leads on through one of its imports. */
  lemma {:induction false} BeyondSelf(s: Store, t: Store, proto: FileProto, f: nat, p: seq<nat>)
    requires EnteredFile(s, t, proto, f) && IsPath(t, p) && p[0] == f && p[|p| - 1] != f
    ensures InSight(s, proto, p[|p| - 1])
    decreases |p|
  {
    hide AllIndexed, AllIndexesSound, ImportsLoaded, PackagesClosed, HasAll, HasOnly, BlocksSound, Monotone, InSight;
    var q := p[1..];
    assert forall i :: 0 <= i < |q| ==> q[i] == p[i + 1];
    assert Edge(t, p[0], p[1]);
    assert IsPath(t, q) by {
      forall i | 0 <= i < |q| - 1 ensures Edge(t, q[i], q[i + 1]) { assert Edge(t, p[i + 1], p[i + 2]); }
    }
    if q[0] == f {
      BeyondSelf(s, t, proto, f, q);
    } else {
      PublicImportIsImport(t, f, q[0]);
      ImportsInStore(s, t, proto, f, q[0]);
      assert Reaches(t, q[0], q[|q| - 1]);
      RootInSight(s, t, proto, f, q[0], q[|q| - 1]);
    }
  }

  /** The other files that the new file sees are those in its sight. */
  lemma SightIs(s: Store, t: Store, proto: FileProto, f: nat, deps: set<nat>, g: nat)
    requires EnteredFile(s, t, proto, f) && VisibleFrom(t, f, deps) && g != f
    ensures g in deps <==> InSight(s, proto, g)
  {
    hide AllIndexed, AllIndexesSound, ImportsLoaded, PackagesClosed, HasAll, HasOnly, BlocksSound, Monotone;
    var roots := Files(t.allocations[f].dependencies);
    if ReachedFrom(t, roots, g) {
      var r :| r in roots && Reaches(t, r, g);
      if r == f {
        var p :| IsPath(t, p) && p[0] == r && p[|p| - 1] == g;
        BeyondSelf(s, t, proto, f, p);
      } else {
        ImportsInStore(s, t, proto, f, r);
        RootInSight(s, t, proto, f, r, g);
      }
    }
    if InSight(s, proto, g) {
      var i :| 0 <= i < |proto.dependencies| && proto.dependencies[i] in s.files
               && Reaches(s, s.files[proto.dependencies[i]].value, g);
      var r := s.files[proto.dependencies[i]].value;
      assert IsImport(s, proto, r);
      ImportsInStore(s, t, proto, f, r);
      RootInSight(s, t, proto, f, r, g);
    }
  }

  lemma {:induction false} DeclaredAsIs(ds: seq<Declaration>, i: nat)
    requires i < |ds| && forall j, k :: 0 <= j < k < |ds| ==> ds[j].name != ds[k].name
    ensures DeclaredAs(ds, ds[i].name) == Some(ds[i])
    decreases |ds|
  {
    if i < |ds| - 1 {
      assert ds[i].name != ds[|ds| - 1].name;
      DeclaredAsIs(ds[..|ds| - 1], i);
    }
  }

  lemma DeclaredAsNone(ds: seq<Declaration>, name: string)
    requires forall i :: 0 <= i < |ds| ==> ds[i].name != name
    ensures DeclaredAs(ds, name).None?
  {
  }

  /** Names that are new in `t` are those that the file adds, and mean the same. */
  lemma AddedIs(s: Store, t: Store, proto: FileProto, f: nat, deps: set<nat>, name: string)
    requires EnteredFile(s, t, proto, f) && Enterable(s, proto) && name !in s.symbols
    ensures Meaning(t, Visible(t, f, deps, name)) == Added(proto, name)
  {
    hide Shaped, AllIndexed, AllIndexesSound, ImportsLoaded, PackagesClosed, HeaderFits, ProperlyDeclared, OfFile;
    var ds := OfFile(proto);
    if i :| 0 <= i < |ds| && ds[i].name == name {
      DeclaredAsIs(ds, i);
      assert Has(t, ds[i], f);
    } else {
      DeclaredAsNone(ds, name);
      if proto.package != "" && OfPackage(proto.package, name) {
        assert proto.package[..|name|] == name;
        if |name| < |proto.package| {
          PackageAncestors(t, proto.package, |name|);
        } else {
          assert name == proto.package;
        }
        assert IsPackage(t, name);
      }
    }
  }

  lemma EnteredFacts(s: Store, t: Store, proto: FileProto, f: nat)
    requires EnteredFile(s, t, proto, f)
    ensures BlocksSound(s) && BlocksSound(t) && IsFile(t, f) && f == |s.allocations|
  {
  }

  /** The outlook of a file is what its builder sees. */
  lemma OutlookIsView(s: Store, t: Store, proto: FileProto, f: nat, deps: set<nat>)
    requires EnteredFile(s, t, proto, f) && Enterable(s, proto) && VisibleFrom(t, f, deps)
    ensures Agree(Outlook(s, proto), View(t, f, deps))
  {
    hide EnteredFile, Enterable, VisibleFrom, InSight, Seen, Sees, Added, Meant;
    EnteredFacts(s, t, proto, f);
    forall name ensures Outlook(s, proto)(name) == View(t, f, deps)(name) {
      if name in s.symbols {
        SeenIs(s, t, proto, f, deps, name);
      } else {
        AddedIs(s, t, proto, f, deps, name);
        assert Outlook(s, proto)(name) == Added(proto, name);
      }
    }
  }

  lemma SeenIs(s: Store, t: Store, proto: FileProto, f: nat, deps: set<nat>, name: string)
    requires EnteredFile(s, t, proto, f) && VisibleFrom(t, f, deps) && name in s.symbols
    ensures name in t.symbols && t.symbols[name] == s.symbols[name]
    ensures Meant(t, t.symbols[name].value) == Meant(s, s.symbols[name].value)
    ensures Sees(t, f, deps, name, s.symbols[name].value) <==> Seen(s, proto, name, s.symbols[name].value)
  {
    hide AllIndexed, AllIndexesSound, ImportsLoaded, PackagesClosed, HasAll, HasOnly, BlocksSound, VisibleFrom, InSight;
    var sym := s.symbols[name].value;
    assert SymbolSound(s, name, sym);
    SightIs(s, t, proto, f, deps, sym.file);
    forall g | g != f
      ensures g in deps <==> InSight(s, proto, g)
      ensures g in deps ==> InPackage(t, g, name) == InPackage(s, g, name)
    {
      SightIs(s, t, proto, f, deps, g);
      if g in deps { SightIsFile(s, proto, g); }
    }
    forall g | InSight(s, proto, g) ensures g != f { SightIsFile(s, proto, g); }
  }

  lemma SightIsFile(s: Store, proto: FileProto, g: nat)
    requires Shaped(s) && InSight(s, proto, g)
    ensures IsFile(s, g)
  {
    hide DescriptorsSound, SymbolSound;
    var i :| 0 <= i < |proto.dependencies| && proto.dependencies[i] in s.files
             && Reaches(s, s.files[proto.dependencies[i]].value, g);
    var p :| IsPath(s, p) && p[0] == s.files[proto.dependencies[i]].value && p[|p| - 1] == g;
    if |p| > 1 {
      assert Edge(s, p[|p| - 2], p[|p| - 1]);
      EdgeKept(s, s, p[|p| - 2], g);
    }
  }

  /** The verdict of a builder that has entered the file is that of the rule. */
  lemma AcceptableIs(s: Store, t: Store, proto: FileProto, f: nat, deps: set<nat>)
    requires EnteredFile(s, t, proto, f) && Enterable(s, proto) && VisibleFrom(t, f, deps)
    ensures Acceptable(s, proto) <==> FileLinks(View(t, f, deps), proto) && RangesBounded(proto.messages)
  {
    hide Enterable, VisibleFrom, FileLinks, View, Outlook, RangesBounded;
    OutlookIsView(s, t, proto, f, deps);
    LinksAlike(Outlook(s, proto), View(t, f, deps), proto);
  }

  // ------------------------------------------------------------------
  // Numbers

  lemma {:induction false} FieldKeyAt(find: string -> Option<Declaration>, fs: seq<FieldProto>, scope: string,
                                      parent: string, i: nat)
    requires i < |fs|
    ensures |FieldKeys(find, fs, scope, parent)| == |fs|
    ensures FieldKeys(find, fs, scope, parent)[i] == KeyOf(find, fs[i], scope, parent)
    decreases |fs|
  {
    hide KeyOf;
    var less := fs[..|fs| - 1];
    if less == [] {
      assert FieldKeys(find, less, scope, parent) == [];
    } else {
      FieldKeyAt(find, less, scope, parent, if i < |less| then i else 0);
    }
  }

  lemma {:induction false} PartDistinct(a: seq<NumberKey>, b: seq<NumberKey>)
    requires Distinct(a + b)
    ensures Distinct(a) && Distinct(b)
  {
    var c := a + b;
    forall i, j | 0 <= i < j < |a| ensures a[i] != a[j] { assert c[i] == a[i] && c[j] == a[j]; }
    forall i, j | 0 <= i < j < |b| ensures b[i] != b[j] { assert c[|a| + i] == b[i] && c[|a| + j] == b[j]; }
  }

  lemma {:induction false} FieldsDistinct(find: string -> Option<Declaration>, ms: seq<MessageProto>, scope: string,
                                          k: nat)
    requires k < |ms| && Distinct(MessagesKeys(find, ms, scope))
    ensures var name := Qualify(scope, ms[k].name); Distinct(FieldKeys(find, ms[k].fields, name, name))
    decreases |ms|
  {
    hide Distinct, FieldKeys;
    var last := ms[|ms| - 1];
    var name := Qualify(scope, last.name);
    PartDistinct(MessagesKeys(find, ms[..|ms| - 1], scope), MessageKeys(find, last, name));
    if k < |ms| - 1 {
      FieldsDistinct(find, ms[..|ms| - 1], scope, k);
    } else {
      var a, b := MessagesKeys(find, last.nested, name), FieldKeys(find, last.fields, name, name);
      PartDistinct(a + b, FieldKeys(find, last.extensions, name, ""));
      PartDistinct(a, b);
    }
  }

  lemma {:induction false} SameKeyTwice(find: string -> Option<Declaration>, fs: seq<FieldProto>, scope: string,
                                        parent: string, i: nat, j: nat)
    requires i < j < |fs| && FieldsProper(fs, false) && fs[i].number == fs[j].number
    ensures !Distinct(FieldKeys(find, fs, scope, parent))
  {
    hide FieldKeys, Resolved;
    FieldKeyAt(find, fs, scope, parent, i);
    FieldKeyAt(find, fs, scope, parent, j);
    assert FieldProper(fs[i], false) && FieldProper(fs[j], false);
  }

  lemma FieldsOfProper(proto: FileProto, k: nat)
    requires ProperlyDeclared(proto) && k < |proto.messages|
    ensures FieldsProper(proto.messages[k].fields, false)
  {
    assert MessageProper(proto.messages[k]) && PartsProper(proto.messages[k]);
  }

  /** No file is accepted in which two fields of a message have the same number. */
  lemma {:induction false} SameNumberRefused(s: Store, proto: FileProto, k: nat, i: nat, j: nat)
    requires k < |proto.messages| && i < j < |proto.messages[k].fields|
    requires proto.messages[k].fields[i].number == proto.messages[k].fields[j].number
    ensures !Acceptable(s, proto)
  {
    if Acceptable(s, proto) {
      hide HeaderFits, AllNew, FileRefers, RangesBounded, ProperlyDeclared, FieldsProper, Distinct, FieldKeys,
        MessagesKeys, Outlook;
      FieldsOfProper(proto, k);
      var find, m := Outlook(s, proto), proto.messages[k];
      var name := Qualify(proto.package, m.name);
      PartDistinct(MessagesKeys(find, proto.messages, proto.package),
                   FieldKeys(find, proto.extensions, proto.package, ""));
      FieldsDistinct(find, proto.messages, proto.package, k);
      SameKeyTwice(find, m.fields, name, name, i, j);
    }
  }

  /** The table of extensions has no part in the verdict: a file may extend a message with a
      number that a file loaded before has given to an extension of it. */
  lemma ExtensionsIgnored(s: Store, extensions: map<(nat, int), nat>, proto: FileProto)
    ensures Acceptable(s.(extensions := extensions), proto) <==> Acceptable(s, proto)
  {
    var t := s.(extensions := extensions);
    if Acceptable(s, proto) { AcceptedAlike(s, t, proto); }
    if Acceptable(t, proto) { AcceptedAlike(t, s, proto); }
  }

  lemma AcceptedAlike(s: Store, t: Store, proto: FileProto)
    requires Acceptable(s, proto)
    requires t.symbols == s.symbols && t.files == s.files && t.allocations == s.allocations
    requires t.fileTables == s.fileTables
    ensures Acceptable(t, proto)
  {
    hide BlocksSound, ProperlyDeclared, AllNew, FileLinks, RangesBounded, ImportsFit, InSight, PackageFits;
    BlocksAlike(s, t);
    FitsSame(s, t, proto.package, |proto.package| + 1);
    NewAlike(s, t, OfFile(proto));
    forall g ensures InSight(s, proto, g) <==> InSight(t, proto, g) { InSightAlike(s, t, proto, g); }
    assert Agree(Outlook(s, proto), Outlook(t, proto)) by {
      forall name ensures Outlook(s, proto)(name) == Outlook(t, proto)(name) {
        if name in s.symbols {
          assert Seen(s, proto, name, s.symbols[name].value) <==> Seen(t, proto, name, t.symbols[name].value);
        }
      }
    }
    LinksAlike(Outlook(s, proto), Outlook(t, proto), proto);
  }

  lemma BlocksAlike(s: Store, t: Store)
    requires BlocksSound(s) && t.allocations == s.allocations && t.fileTables == s.fileTables
    ensures BlocksSound(t)
  {
  }

  lemma NewAlike(s: Store, t: Store, ds: seq<Declaration>)
    requires t.symbols == s.symbols
    ensures AllNew(s, ds) <==> AllNew(t, ds)
  {
  }

  lemma InSightAlike(s: Store, t: Store, proto: FileProto, g: nat)
    requires BlocksSound(s) && BlocksSound(t) && t.files == s.files && t.allocations == s.allocations
    ensures InSight(s, proto, g) <==> InSight(t, proto, g)
  {
    hide BlocksSound, Reaches;
    forall r ensures Reaches(s, r, g) <==> Reaches(t, r, g) {
      ReachesKept(s, t, r, g);
      ReachesKept(t, s, r, g);
    }
  }
}
