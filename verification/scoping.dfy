/** What names mean in files, without the rule for which symbols settle a lookup: the part
    of the name before its first dot is looked for scope by scope. */
module Scoping {
  import opened Options
  import opened DescriptorProtos
  import opened SymbolStore
  import opened DottedNames
  import opened ImportGraph
  import opened PoolInvariant
  import opened NameResolution
  import opened Declarations
  import opened FileBuilds
  import opened References

  // ------------------------------------------------------------------
  // Whoever sees a declaration sees what it lies in

  /** Only messages, services and packages have members. */
  predicate HasMembers(kind: Kind) {
    kind == MESSAGE || kind == SERVICE || kind == PACKAGE
  }

  /** Every dotted parent of what is found is found, and is something with members. */
  ghost predicate ParentsFound(find: string -> Option<Declaration>) {
    forall k, n :: 0 < n < |k| && k[n] == '.' && find(k).Some? ==>
      find(k[..n]).Some? && HasMembers(find(k[..n]).value.kind)
  }

  /** The file is loaded in a committed pool of built files, and sees what its imports
      reach. */
  ghost predicate InPool(db: Database, s: Store, f: nat, deps: set<nat>) {
    Committed(s) && Faithful(db, s) && Loaded(s, f) && VisibleFrom(s, f, deps)
  }

  lemma SeenIsLoaded(db: Database, s: Store, f: nat, deps: set<nat>, g: nat)
    requires InPool(db, s, f, deps) && (g == f || g in deps)
    ensures Loaded(s, g)
  {
    hide AllIndexed, AllIndexesSound, ImportsLoaded, PackagesClosed, SymbolSound, BlocksSound, Built;
    if g != f {
      var r :| r in Files(s.allocations[f].dependencies) && Reaches(s, r, g);
      var p :| IsPath(s, p) && p[0] == r && p[|p| - 1] == g;
      RootLoaded(s, f, r);
      PathLoaded(s, p);
    }
  }

  /** A package that was entered with a file is one that the file lies in. */
  lemma OwnPackage(db: Database, s: Store, g: nat, k: string)
    requires Committed(s) && Faithful(db, s) && Loaded(s, g) && IsPackage(s, k) && s.symbols[k].value.file == g
    ensures InPackage(s, g, k)
  {
    hide AllIndexed, AllIndexesSound, ImportsLoaded, PackagesClosed, SymbolSound, BlocksSound, HasAll, OfFile;
    assert Built(s, db.files[s.allocations[g].name], g);
  }

  /** A package that a seen file lies in is seen, and so are its dotted parents. */
  lemma PackageSeen(db: Database, s: Store, f: nat, deps: set<nat>, g: nat, k: string)
    requires InPool(db, s, f, deps) && (g == f || g in deps) && InPackage(s, g, k) && k != ""
    ensures Visible(s, f, deps, k).Some? && Visible(s, f, deps, k).value.kind == PACKAGE
  {
    hide Committed, Faithful, VisibleFrom;
    SeenIsLoaded(db, s, f, deps, g);
    PackageKnown(db, s, g, k);
  }

  lemma ParentInPackage(s: Store, g: nat, k: string, n: nat)
    requires InPackage(s, g, k) && n < |k| && k[n] == '.'
    ensures InPackage(s, g, k[..n])
  {
    var package := s.allocations[g].package;
    assert package[..|k|] == k && package[n] == '.';
    assert k[..n] == package[..n];
  }

  lemma PackageParents(db: Database, s: Store, f: nat, deps: set<nat>, k: string, n: nat)
    requires InPool(db, s, f, deps) && 0 < n < |k| && k[n] == '.'
    requires Visible(s, f, deps, k).Some? && Visible(s, f, deps, k).value.kind == PACKAGE
    ensures Visible(s, f, deps, k[..n]).Some? && Visible(s, f, deps, k[..n]).value.kind == PACKAGE
  {
    hide Committed, Faithful, VisibleFrom, Loaded, InPackage;
    var sym := Visible(s, f, deps, k).value;
    var g := if sym.file == f || sym.file in deps then sym.file
      else if InPackage(s, f, k) then f
      else var h :| h in deps && InPackage(s, h, k); h;
    if g == sym.file { SeenIsLoaded(db, s, f, deps, g); OwnPackage(db, s, g, k); }
    ParentInPackage(s, g, k, n);
    PackageSeen(db, s, f, deps, g, k[..n]);
  }

  /** What a declaration lies in: a package of its file, or a message or service of it. */
  lemma ScopeOf(s: Store, k: string)
    returns (package: bool)
    requires Committed(s) && k in s.symbols && s.symbols[k].value.kind != PACKAGE && LastDot(k) > 0
    ensures var p, g := k[..LastDot(k)], s.symbols[k].value.file;
      if package then InPackage(s, g, p)
      else p in s.symbols && s.symbols[p].value.file == g
           && (s.symbols[p].value.kind == MESSAGE || s.symbols[p].value.kind == SERVICE)
  {
    hide AllIndexesSound, ImportsLoaded, PackagesClosed, BlocksSound;
    assert Indexed(s, k, {});
    var d := s.allocations[s.symbols[k].value.block];
    package := d.parent.FileScope?;
    match d.parent
    case FileScope(f) => QualifyLastDot(s.allocations[f].package, d.name);
    case DescriptorScope(b) => QualifyLastDot(s.allocations[b].fullName, d.name);
  }

  lemma {:induction false} ParentSeen(db: Database, s: Store, f: nat, deps: set<nat>, k: string, n: nat)
    requires InPool(db, s, f, deps) && 0 < n < |k| && k[n] == '.' && Visible(s, f, deps, k).Some?
    ensures Visible(s, f, deps, k[..n]).Some? && HasMembers(Visible(s, f, deps, k[..n]).value.kind)
    decreases |k|
  {
    hide Committed, Faithful, VisibleFrom, Loaded, InPackage;
    var sym := Visible(s, f, deps, k).value;
    if sym.kind == PACKAGE {
      PackageParents(db, s, f, deps, k, n);
    } else {
      var d := LastDot(k);
      var p := k[..d];
      assert p[..n] == k[..n];
      var package := ScopeOf(s, k);
      if package { PackageSeen(db, s, f, deps, sym.file, p); }
      if n < d { ParentSeen(db, s, f, deps, p, n); }
    }
  }

  /** What a file finds has all its dotted parents found. */
  lemma ViewHasParents(db: Database, s: Store, f: nat, deps: set<nat>)
    requires InPool(db, s, f, deps)
    ensures ParentsFound(View(s, f, deps))
  {
    hide InPool, Visible;
    forall k, n | 0 < n < |k| && k[n] == '.' && View(s, f, deps)(k).Some?
      ensures View(s, f, deps)(k[..n]).Some? && HasMembers(View(s, f, deps)(k[..n]).value.kind)
    {
      ParentSeen(db, s, f, deps, k, n);
    }
  }

  /** A file imports publicly what the description of it marks as public. */
  lemma PublicByDescription(db: Database, s: Store, f: nat, g: nat)
    requires Committed(s) && Faithful(db, s) && Loaded(s, f)
    ensures var proto := db.files[s.allocations[f].name];
      Edge(s, f, g) <==>
        exists p: nat :: p in proto.publicDependencies && p < |proto.dependencies|
          && proto.dependencies[p] in s.files && s.files[proto.dependencies[p]].value == g
  {
    hide AllIndexed, AllIndexesSound, ImportsLoaded, PackagesClosed, SymbolSound, DescriptorsSound, HasAll, HasOnly;
    var proto := db.files[s.allocations[f].name];
    assert Built(s, proto, f);
    if Edge(s, f, g) {
      var i :| 0 <= i < |s.allocations[f].publicDependencies| && PublicImport(s, f, i) == Some(g);
      assert proto.publicDependencies[i] in proto.publicDependencies;
    }
    if p: nat :| p in proto.publicDependencies && p < |proto.dependencies|
                 && proto.dependencies[p] in s.files && s.files[proto.dependencies[p]].value == g {
      var i :| 0 <= i < |proto.publicDependencies| && proto.publicDependencies[i] == p;
      assert PublicImport(s, f, i) == Some(g);
    }
  }

  // ------------------------------------------------------------------
  // What a name means

  /** The enclosing scope that ends at `d` has something called `part`. */
  ghost predicate FoundAt(find: string -> Option<Declaration>, part: string, relativeTo: string, d: nat) {
    IsScopeEnd(relativeTo, d) && find(relativeTo[..d] + "." + part).Some?
  }

  /** It is the innermost one that has. */
  ghost predicate FoundFirstAt(find: string -> Option<Declaration>, part: string, relativeTo: string, d: nat) {
    FoundAt(find, part, relativeTo, d) && forall e: nat :: d < e < |relativeTo| ==> !FoundAt(find, part, relativeTo, e)
  }

  ghost predicate FoundNowhere(find: string -> Option<Declaration>, part: string, relativeTo: string) {
    forall e: nat :: e < |relativeTo| ==> !FoundAt(find, part, relativeTo, e)
  }

  /** The name has a dot, but not at its beginning. */
  predicate IsCompound(name: string) {
    0 < |FirstPart(name)| < |name|
  }

  predicate IsSimple(name: string) {
    name != "" && FirstPart(name) == name
  }

  lemma CommitsWhereFound(find: string -> Option<Declaration>, name: string, relativeTo: string, mode: ResolveMode,
                          e: nat)
    requires CommitsAt(find, name, relativeTo, mode, e)
    ensures FoundAt(find, FirstPart(name), relativeTo, e)
  {
  }

  lemma NoneCommitsBeyond(find: string -> Option<Declaration>, name: string, relativeTo: string, mode: ResolveMode,
                          d: nat)
    requires FoundFirstAt(find, FirstPart(name), relativeTo, d)
    ensures NoneBeyond(find, name, relativeTo, mode, d + 1)
  {
    hide FoundAt, CommitsAt;
    forall e: nat | d + 1 <= e < |relativeTo| ensures !CommitsAt(find, name, relativeTo, mode, e) {
      if CommitsAt(find, name, relativeTo, mode, e) { CommitsWhereFound(find, name, relativeTo, mode, e); }
    }
  }

  lemma SettledAt(find: string -> Option<Declaration>, name: string, relativeTo: string, mode: ResolveMode, d: nat,
                  r: Option<Declaration>)
    requires name != "" && name[0] != '.' && Resolves(find, name, relativeTo, mode, r)
    requires FoundFirstAt(find, FirstPart(name), relativeTo, d)
    requires CommitsAt(find, name, relativeTo, mode, d)
    ensures r == find(relativeTo[..d] + "." + name)
  {
    hide CommitsAt, FoundFirstAt;
    NoneCommitsBeyond(find, name, relativeTo, mode, d);
    assert Innermost(find, name, relativeTo, mode, d);
  }

  /** A scope that does not settle the lookup is passed over: the name means what it means
      in the scope itself, of which only the enclosing scopes are looked at. */
  lemma PassedOver(find: string -> Option<Declaration>, name: string, relativeTo: string, mode: ResolveMode, d: nat,
                   r: Option<Declaration>)
    requires name != "" && name[0] != '.' && Resolves(find, name, relativeTo, mode, r)
    requires d < |relativeTo| && NoneBeyond(find, name, relativeTo, mode, d)
    ensures Resolves(find, name, relativeTo[..d], mode, r)
  {
    hide Commits;
    var outer := relativeTo[..d];
    forall e: nat | e < d ensures CommitsAt(find, name, outer, mode, e) <==> CommitsAt(find, name, relativeTo, mode, e)
    {
      assert outer[..e] == relativeTo[..e];
    }
    forall e: nat | Innermost(find, name, outer, mode, e) ensures r == find(outer[..e] + "." + name) {
      assert CommitsAt(find, name, outer, mode, e);
      assert outer[..e] == relativeTo[..e];
      assert Innermost(find, name, relativeTo, mode, e);
    }
  }

  /** A name that begins with a dot is looked up without the dot, wherever it stands. */
  lemma LeadingDot(find: string -> Option<Declaration>, name: string, relativeTo: string, mode: ResolveMode,
                   r: Option<Declaration>)
    requires Resolves(find, "." + name, relativeTo, mode, r)
    ensures r == find(name)
  {
    assert ("." + name)[1..] == name;
  }

  /** A compound name whose first part is found nowhere around means what is found under
      the bare name. */
  lemma NowhereMeansBare(find: string -> Option<Declaration>, name: string, relativeTo: string, mode: ResolveMode,
                         r: Option<Declaration>)
    requires name != "" && name[0] != '.' && Resolves(find, name, relativeTo, mode, r)
    requires FoundNowhere(find, FirstPart(name), relativeTo)
    ensures r == find(name)
  {
    hide FoundAt, CommitsAt;
    forall e: nat | e < |relativeTo| ensures !CommitsAt(find, name, relativeTo, mode, e) {
      if CommitsAt(find, name, relativeTo, mode, e) { CommitsWhereFound(find, name, relativeTo, mode, e); }
    }
  }

  /** The scope has the whole name only if what it has for the first part has members. */
  lemma FirstHasMembers(find: string -> Option<Declaration>, name: string, scope: string)
    requires ParentsFound(find) && IsCompound(name) && find(scope + "." + name).Some?
    ensures find(scope + "." + FirstPart(name)).Some?
    ensures HasMembers(find(scope + "." + FirstPart(name)).value.kind)
  {
    var k, first := scope + "." + name, FirstPart(name);
    var n := |scope| + 1 + |first|;
    assert k[..n] == scope + "." + first && k[n] == name[|first|];
  }

  /** What a compound name means is decided at the innermost scope that has its first part:
      if that has the whole name, it is that. */
  lemma CompoundMeans(find: string -> Option<Declaration>, name: string, relativeTo: string, mode: ResolveMode, d: nat,
                      r: Option<Declaration>)
    requires ParentsFound(find) && IsCompound(name) && Resolves(find, name, relativeTo, mode, r)
    requires FoundFirstAt(find, FirstPart(name), relativeTo, d)
    requires find(relativeTo[..d] + "." + name).Some?
    ensures r == find(relativeTo[..d] + "." + name)
  {
    hide Resolves, ParentsFound;
    FirstHasMembers(find, name, relativeTo[..d]);
    SettledAt(find, name, relativeTo, mode, d, r);
  }

  /** Otherwise it is nothing if the first part has members or is an enum, which hides what
      is further out, and a field, enum value or method is passed over. */
  lemma CompoundMisses(find: string -> Option<Declaration>, name: string, relativeTo: string, mode: ResolveMode, d: nat,
                       r: Option<Declaration>)
    requires ParentsFound(find) && IsCompound(name) && Resolves(find, name, relativeTo, mode, r)
    requires FoundFirstAt(find, FirstPart(name), relativeTo, d)
    requires find(relativeTo[..d] + "." + name).None?
    ensures var kind := find(relativeTo[..d] + "." + FirstPart(name)).value.kind;
      match kind
      case MESSAGE | SERVICE | PACKAGE | ENUM => r == None
      case FIELD | ENUM_VALUE | METHOD => Resolves(find, name, relativeTo[..d], mode, r)
  {
    hide Resolves, ParentsFound;
    var kind := find(relativeTo[..d] + "." + FirstPart(name)).value.kind;
    NoneCommitsBeyond(find, name, relativeTo, mode, d);
    if CommitsAt(find, name, relativeTo, mode, d) { SettledAt(find, name, relativeTo, mode, d, r); }
    else {
      BeyondOneMore(find, name, relativeTo, mode, d);
      PassedOver(find, name, relativeTo, mode, d, r);
    }
  }

  /** A name without a dot is what the innermost scope has that has it; where a type is
      wanted, whatever is no message and no enum is passed over. */
  lemma SimpleMeans(find: string -> Option<Declaration>, name: string, relativeTo: string, mode: ResolveMode, d: nat,
                    r: Option<Declaration>)
    requires IsSimple(name) && Resolves(find, name, relativeTo, mode, r)
    requires FoundFirstAt(find, name, relativeTo, d)
    ensures var found := find(relativeTo[..d] + "." + name);
      if mode == LookupAll || found.value.kind == MESSAGE || found.value.kind == ENUM then r == found
      else Resolves(find, name, relativeTo[..d], mode, r)
  {
    hide Resolves;
    NoneCommitsBeyond(find, name, relativeTo, mode, d);
    if CommitsAt(find, name, relativeTo, mode, d) { SettledAt(find, name, relativeTo, mode, d, r); }
    else {
      BeyondOneMore(find, name, relativeTo, mode, d);
      PassedOver(find, name, relativeTo, mode, d, r);
    }
  }

  // ------------------------------------------------------------------
  // In files

  ghost predicate IsEnum(found: Option<Declaration>) {
    found.Some? && found.value.kind == ENUM
  }

  /** What a lookup returns for a compound name in a file of a pool: what the innermost scope
      has under the name that has something under its first part, if that is anything; and
      nothing if it is not and the first part is an enum. */
  lemma CompoundInPool(db: Database, s: Store, f: nat, deps: set<nat>, name: string, relativeTo: string,
                       mode: ResolveMode, d: nat, r: Option<Declaration>)
    requires InPool(db, s, f, deps) && IsCompound(name) && d < |relativeTo|
    requires Resolves(View(s, f, deps), name, relativeTo, mode, r)
    requires FoundFirstAt(View(s, f, deps), FirstPart(name), relativeTo, d)
    ensures var found := View(s, f, deps)(relativeTo[..d] + "." + name);
      && (found.Some? ==> r == found)
      && (found.None? && IsEnum(View(s, f, deps)(relativeTo[..d] + "." + FirstPart(name))) ==> r == None)
  {
    hide Resolves, InPool, ParentsFound, View;
    ViewHasParents(db, s, f, deps);
    var find := View(s, f, deps);
    if find(relativeTo[..d] + "." + name).Some? { CompoundMeans(find, name, relativeTo, mode, d, r); }
    else { CompoundMisses(find, name, relativeTo, mode, d, r); }
  }

  /** Package "a" with an enum "E", and a message "E" with an "x" in it outside. */
  function EnumInside(): string -> Option<Declaration> {
    k => if k == "a" then Some(Declaration("", PACKAGE, []))
         else if k == "a.E" then Some(Declaration("a.E", ENUM, []))
         else if k == "E" then Some(Declaration("E", MESSAGE, []))
         else if k == "E.x" then Some(Declaration("E.x", MESSAGE, []))
         else None
  }

  lemma EnumInsideFound()
    ensures ParentsFound(EnumInside())
  {
    assert "a.E"[..1] == "a" && "E.x"[..1] == "E";
  }

  /** Seen from "a.M" the enum hides the message, although it has no members. */
  lemma {:induction false} EnumHides(mode: ResolveMode, r: Option<Declaration>)
    requires Resolves(EnumInside(), "E.x", "a.M", mode, r)
    ensures ParentsFound(EnumInside()) && EnumInside()("E.x").Some? && r == None
  {
    hide ParentsFound, Resolves, HasMembers;
    EnumInsideFound();
    assert FirstPart("E.x") == "E" by { assert FirstDot("E.x") == 1; }
    assert "a.M"[..1] == "a" && "a" + "." + "E" == "a.E" && "a" + "." + "E.x" == "a.E.x";
    assert FoundFirstAt(EnumInside(), "E", "a.M", 1);
    CompoundMisses(EnumInside(), "E.x", "a.M", mode, 1, r);
  }

  /** The type of a field is the innermost message or enum of that name: the field itself,
      or a sibling, may have the same name. */
  lemma TypeNameMeans(find: string -> Option<Declaration>, f: FieldProto, fullName: string, d: nat)
    requires f.typeName.Some? && IsSimple(f.typeName.value)
    requires FoundFirstAt(find, f.typeName.value, fullName, d)
    ensures var kind := find(fullName[..d] + "." + f.typeName.value).value.kind;
      && (kind == MESSAGE ==> (TypeLinks(find, f, fullName) <==> f.kind == None || f.kind == Some(MessageField)))
      && (kind == ENUM ==> (TypeLinks(find, f, fullName) <==> f.kind == None || f.kind == Some(EnumField)))
      && (kind != MESSAGE && kind != ENUM ==> (TypeLinks(find, f, fullName) <==>
            IsTypeOf(Resolved(find, f.typeName.value, fullName[..d], LookupTypes), f.kind)))
  {
    hide Resolves, FoundFirstAt;
    var name := f.typeName.value;
    var r := Resolved(find, name, fullName, LookupTypes);
    SimpleMeans(find, name, fullName, LookupTypes, d, r);
    assert FoundAt(find, name, fullName, d) by { FoundThere(find, name, fullName, d); }
    if Resolves(find, name, fullName[..d], LookupTypes, r) {
      ResolvesUniquely(find, name, fullName[..d], LookupTypes, r, Resolved(find, name, fullName[..d], LookupTypes));
    }
  }

  lemma FoundThere(find: string -> Option<Declaration>, part: string, relativeTo: string, d: nat)
    requires FoundFirstAt(find, part, relativeTo, d)
    ensures FoundAt(find, part, relativeTo, d)
  {
  }

  /** The request and the response of a method are the innermost things of their names,
      whatever they are, and must be messages. */
  lemma MethodMeans(find: string -> Option<Declaration>, m: MethodProto, fullName: string, d: nat, e: nat)
    requires IsSimple(m.inputType) && FoundFirstAt(find, m.inputType, fullName, d)
    requires IsSimple(m.outputType) && FoundFirstAt(find, m.outputType, fullName, e)
    ensures MethodLinks(find, m, fullName) <==>
      && find(fullName[..d] + "." + m.inputType).value.kind == MESSAGE
      && find(fullName[..e] + "." + m.outputType).value.kind == MESSAGE
  {
    hide Resolves;
    SimpleMeans(find, m.inputType, fullName, LookupAll, d, Resolved(find, m.inputType, fullName, LookupAll));
    SimpleMeans(find, m.outputType, fullName, LookupAll, e, Resolved(find, m.outputType, fullName, LookupAll));
  }

  /** The extendee is the innermost thing of that name, whatever it is. */
  lemma ExtendeeMeans(find: string -> Option<Declaration>, f: FieldProto, fullName: string, d: nat)
    requires f.extendee.Some? && IsSimple(f.extendee.value)
    requires FoundFirstAt(find, f.extendee.value, fullName, d)
    ensures var found := find(fullName[..d] + "." + f.extendee.value).value;
      ExtendeeLinks(find, f, fullName) <==>
        found.kind == MESSAGE
        && exists i :: 0 <= i < |found.ranges| && found.ranges[i].start <= f.number < found.ranges[i].end
  {
    hide Resolves;
    SimpleMeans(find, f.extendee.value, fullName, LookupAll, d,
                Resolved(find, f.extendee.value, fullName, LookupAll));
    var found := find(fullName[..d] + "." + f.extendee.value).value;
    assert forall i :: 0 <= i < |found.ranges| ==>
      (InRange(f.number, found.ranges[i]) <==> found.ranges[i].start <= f.number < found.ranges[i].end);
  }
}
