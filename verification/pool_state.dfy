/** What a descriptor pool promises about its store, and how that survives each
    thing a builder does to it. */
module PoolInvariant {
  import opened Options
  import opened DescriptorProtos
  import opened SymbolStore
  import opened DottedNames
  import opened ImportGraph

  /** The name under which a child called `name` of `parent` is entered in the flat
      table.  Methods always get a dot; other children only in a non-empty scope. */
  function FullName(s: Store, parent: Parent, name: string): string
    requires ParentSound(s, parent)
  {
    match parent
    case FileScope(f) => Qualify(s.allocations[f].package, name)
    case DescriptorScope(b) =>
      if s.allocations[b].kind == SERVICE then s.allocations[b].fullName + "." + name
      else Qualify(s.allocations[b].fullName, name)
  }

  ghost predicate IsDescriptor(s: Store, b: nat) {
    b < |s.allocations| && s.allocations[b].DescriptorBlock?
  }

  ghost predicate ParentSound(s: Store, parent: Parent) {
    match parent
    case FileScope(f) => IsFile(s, f)
    case DescriptorScope(b) => IsDescriptor(s, b)
  }

  ghost predicate DescriptorsSound(s: Store) {
    forall b :: 0 <= b < |s.allocations| && s.allocations[b].DescriptorBlock? ==>
      ParentSound(s, s.allocations[b].parent) && IsFile(s, s.allocations[b].file)
  }

  ghost predicate SymbolSound(s: Store, k: string, sym: Symbol) {
    && IsFile(s, sym.file)
    && (sym.kind != PACKAGE ==>
          IsDescriptor(s, sym.block)
          && var d := s.allocations[sym.block];
             d.kind == sym.kind && d.fullName == k && d.file == sym.file)
  }

  /** Memory and tables refer to each other as they should; holds in every state,
      whatever errors the open builds have met. */
  ghost predicate Shaped(s: Store) {
    && BlocksSound(s) && DescriptorsSound(s)
    && (forall n :: n in s.files ==> IsFile(s, s.files[n].value) && s.allocations[s.files[n].value].name == n)
    && (forall k :: k in s.symbols ==> SymbolSound(s, k, s.symbols[k].value))
  }

  ghost predicate Sound(s: Store) {
    Valid(s) && Shaped(s)
  }

  ghost predicate Loaded(s: Store, f: nat) {
    && IsFile(s, f)
    && s.allocations[f].name in s.files && s.files[s.allocations[f].name].value == f
  }

  function Table(s: Store, f: nat): ParentIndex
    requires BlocksSound(s) && IsFile(s, f)
  {
    s.fileTables[s.allocations[f].table]
  }

  function Find(s: Store, name: string): Option<Symbol> {
    if name in s.symbols then Some(s.symbols[name].value) else None
  }

  function FindNested(s: Store, f: nat, parent: Parent, name: string): Option<Symbol>
    requires BlocksSound(s) && IsFile(s, f)
  {
    if (parent, name) in Table(s, f) then Some(Table(s, f)[(parent, name)]) else None
  }

  /** What a symbol stands for, wherever it lies in memory: its full name, unless it is a
      package, its kind, and the extension ranges of a message. */
  datatype Declaration = Declaration(name: string, kind: Kind, ranges: seq<RangeProto>)

  ghost predicate IsDeclared(s: Store, sym: Symbol) {
    sym.kind != PACKAGE ==> IsDescriptor(s, sym.block)
  }

  function Meant(s: Store, sym: Symbol): Declaration {
    if sym.kind != PACKAGE && sym.block < |s.allocations| && s.allocations[sym.block].DescriptorBlock? then
      Declaration(s.allocations[sym.block].fullName, sym.kind, s.allocations[sym.block].ranges)
    else
      Declaration("", sym.kind, [])
  }

  function Meaning(s: Store, found: Option<Symbol>): Option<Declaration> {
    match found
    case Some(sym) => Some(Meant(s, sym))
    case None => None
  }

  ghost predicate IsPackage(s: Store, name: string) {
    name in s.symbols && s.symbols[name].value.kind == PACKAGE
  }

  /** Every import of a loaded file is itself loaded. */
  ghost predicate ImportsLoaded(s: Store) {
    forall n, i :: n in s.files && IsFile(s, s.files[n].value)
                   && 0 <= i < |s.allocations[s.files[n].value].dependencies| ==>
      var d := s.allocations[s.files[n].value].dependencies[i];
      d.Some? && Loaded(s, d.value)
  }

  /** The dotted parent of every package is a package; `missing` may be exempt. */
  ghost predicate PackagesClosed(s: Store, missing: Option<string>) {
    forall k :: IsPackage(s, k) && LastDot(k) >= 0 && missing != Some(k[..LastDot(k)]) ==>
      IsPackage(s, k[..LastDot(k)])
  }

  /** `parent` is declared in file `f`, or is still under construction. */
  ghost predicate ScopeDeclared(s: Store, parent: Parent, f: nat, open: set<nat>)
    requires ParentSound(s, parent)
  {
    match parent
    case FileScope(g) => g == f && (s.allocations[g].package == "" || IsPackage(s, s.allocations[g].package))
    case DescriptorScope(b) =>
      var d := s.allocations[b];
      && d.file == f && (d.kind == MESSAGE || d.kind == SERVICE) && d.fullName != ""
      && (b in open || (d.fullName in s.symbols && s.symbols[d.fullName].value == Symbol(d.kind, b, f)))
  }

  /** Entry `k` of the flat table is a valid name declared in a declared scope, and
      the index of its file has it under that scope. */
  ghost predicate Indexed(s: Store, k: string, open: set<nat>)
    requires Shaped(s) && k in s.symbols
  {
    var sym := s.symbols[k].value;
    && Loaded(s, sym.file)
    && (sym.kind != PACKAGE ==>
          var d := s.allocations[sym.block];
          && IsIdentifier(d.name) && k == FullName(s, d.parent, d.name)
          && ScopeDeclared(s, d.parent, sym.file, open)
          && FindNested(s, sym.file, d.parent, d.name) == Some(sym))
  }

  /** What a file's index has under a file, message or service is what the flat table
      has under the full name.  (An enum's own index of its values is apart: the
      values are siblings of the enum in the flat table.) */
  ghost predicate IndexSound(s: Store, f: nat)
    requires BlocksSound(s) && IsFile(s, f)
  {
    forall key :: key in Table(s, f) ==>
      && ParentSound(s, key.0)
      && (key.0.FileScope? || s.allocations[key.0.block].kind != ENUM ==>
            Find(s, FullName(s, key.0, key.1)) == Some(Table(s, f)[key]))
  }

  ghost predicate AllIndexed(s: Store, open: set<nat>)
    requires Shaped(s)
  {
    forall k :: k in s.symbols ==> Indexed(s, k, open)
  }

  ghost predicate AllIndexesSound(s: Store)
    requires Shaped(s)
  {
    forall n :: n in s.files ==> IndexSound(s, s.files[n].value)
  }

  /** The promises of an error-free pool while the descriptors in `open` are still
      being built, and while the package `missing` may still be absent. */
  ghost predicate Consistent(s: Store, open: set<nat>, missing: Option<string>) {
    && Shaped(s) && "" !in s.symbols
    && ImportsLoaded(s) && PackagesClosed(s, missing)
    && AllIndexed(s, open) && AllIndexesSound(s)
  }

  ghost predicate Committed(s: Store) {
    Consistent(s, {}, None)
  }

  // ------------------------------------------------------------------
  // What Committed means to a user of the pool

  /** For a loaded message or service and an identifier, looking in the parent index
      and looking up the full name give the same answer. */
  lemma NestedLookupAgrees(s: Store, p: string, name: string)
    requires Committed(s) && p in s.symbols && p != ""
    requires s.symbols[p].value.kind == MESSAGE || s.symbols[p].value.kind == SERVICE
    requires IsIdentifier(name)
    ensures FindNested(s, s.symbols[p].value.file, DescriptorScope(s.symbols[p].value.block), name)
         == Find(s, p + "." + name)
  {
    var sym := s.symbols[p].value;
    var k := p + "." + name;
    QualifyLastDot(p, name);
    if (DescriptorScope(sym.block), name) in Table(s, sym.file) {
      assert IndexSound(s, sym.file);
    } else if k in s.symbols {
      assert k[..LastDot(k)] == p;
      if !IsPackage(s, k) {
        ChildOf(s, p, name);
      }
    }
  }

  lemma ChildOf(s: Store, p: string, name: string)
    requires Committed(s) && p in s.symbols && p != "" && s.symbols[p].value.kind != PACKAGE
    requires IsIdentifier(name) && p + "." + name in s.symbols
    requires s.symbols[p + "." + name].value.kind != PACKAGE
    ensures var sym := s.symbols[p].value;
      FindNested(s, sym.file, DescriptorScope(sym.block), name) == Some(s.symbols[p + "." + name].value)
  {
    var k := p + "." + name;
    assert Indexed(s, k, {});
    var child := s.symbols[k].value;
    var d := s.allocations[child.block];
    match d.parent
    case FileScope(f) => QualifyInjective(s.allocations[f].package, d.name, p, name);
    case DescriptorScope(b) => QualifyInjective(s.allocations[b].fullName, d.name, p, name);
  }

  /** Every dotted ancestor of a package is a package. */
  lemma {:induction false} PackageAncestors(s: Store, k: string, i: nat)
    requires Committed(s) && IsPackage(s, k) && i < |k| && k[i] == '.'
    ensures IsPackage(s, k[..i])
    decreases |k|
  {
    var d := LastDot(k);
    if i < d {
      assert k[..d][..i] == k[..i];
      PackageAncestors(s, k[..d], i);
    }
  }

  /** The imports of a loaded file are loaded, and were so before it or are it. */
  lemma ImportsAreEarlier(s: Store, f: nat, i: nat)
    requires Committed(s) && Loaded(s, f) && i < |s.allocations[f].dependencies|
    ensures s.allocations[f].dependencies[i].Some?
    ensures Loaded(s, s.allocations[f].dependencies[i].value) && s.allocations[f].dependencies[i].value <= f
  {
  }

  // ------------------------------------------------------------------
  // One addition at a time

  /** `t` has the tables of `s`, and at least its memory. */
  ghost predicate SameTables(s: Store, t: Store) {
    && t.symbols == s.symbols && t.files == s.files
    && s.allocations <= t.allocations && s.fileTables <= t.fileTables
  }

  lemma ConsistentFrame(s: Store, t: Store, open: set<nat>, missing: Option<string>)
    requires Consistent(s, open, missing) && Shaped(t) && SameTables(s, t)
    ensures Consistent(t, open, missing)
  {
    IndexedFrame(s, t, open);
    forall n | n in t.files ensures IndexSound(t, t.files[n].value) {
      IndexFrame(s, t, s.files[n].value);
    }
  }

  lemma IndexedFrame(s: Store, t: Store, open: set<nat>)
    requires Shaped(s) && AllIndexed(s, open) && Shaped(t) && SameTables(s, t)
    ensures AllIndexed(t, open)
  {
    forall k | k in t.symbols ensures Indexed(t, k, open) {
      assert Indexed(s, k, open);
    }
  }

  lemma IndexFrame(s: Store, t: Store, f: nat)
    requires Shaped(s) && Shaped(t) && IsFile(s, f) && IndexSound(s, f)
    requires s.allocations <= t.allocations && s.fileTables <= t.fileTables
    requires forall k :: k in s.symbols ==> k in t.symbols && t.symbols[k].value == s.symbols[k].value
    ensures IsFile(t, f) && IndexSound(t, f)
  {
  }

  /** The tables of a shaped store stay good when memory grows. */
  lemma ShapedGrows(s: Store, t: Store)
    requires Shaped(s) && SameTables(s, t) && BlocksSound(t) && DescriptorsSound(t)
    ensures Shaped(t)
  {
    hide BlocksSound, DescriptorsSound;
    forall k | k in t.symbols ensures SymbolSound(t, k, t.symbols[k].value) {
      assert SymbolSound(s, k, s.symbols[k].value);
    }
  }

  /** More strings, messages or checkpoints leave a store shaped. */
  lemma ShapedSame(s: Store, t: Store)
    requires Shaped(s) && t.allocations == s.allocations && t.fileTables == s.fileTables
    requires t.symbols == s.symbols && t.files == s.files
    ensures Shaped(t) && SameTables(s, t)
  {
    hide SymbolSound;
    ShapedGrows(s, t);
  }

  lemma BlocksSoundWith(s: Store, block: Block)
    requires BlocksSound(s) && block.DescriptorBlock?
    ensures BlocksSound(s.(allocations := s.allocations + [block]))
  {
  }

  lemma DescriptorsSoundWith(s: Store, block: Block, tables: seq<ParentIndex>)
    requires DescriptorsSound(s)
    requires block.DescriptorBlock? ==> ParentSound(s, block.parent) && IsFile(s, block.file)
    ensures DescriptorsSound(s.(allocations := s.allocations + [block], fileTables := tables))
  {
  }

  lemma AllocateShaped(s: Store, block: Block)
    requires Shaped(s) && block.DescriptorBlock?
    requires ParentSound(s, block.parent) && IsFile(s, block.file)
    ensures var t := s.(allocations := s.allocations + [block]); Shaped(t) && SameTables(s, t)
  {
    hide BlocksSound, DescriptorsSound, SymbolSound;
    BlocksSoundWith(s, block);
    DescriptorsSoundWith(s, block, s.fileTables);
    ShapedGrows(s, s.(allocations := s.allocations + [block]));
  }

  /** A new file block with a table of its own. */
  function NewFile(s: Store, name: string, package: string): Store {
    s.(allocations := s.allocations + [FileBlock(name, package, |s.fileTables|, [], [])],
       fileTables := s.fileTables + [map[]])
  }

  lemma NewFileBlocksSound(s: Store, name: string, package: string)
    requires BlocksSound(s)
    ensures BlocksSound(NewFile(s, name, package))
  {
  }

  lemma NewFileShaped(s: Store, name: string, package: string)
    requires Shaped(s)
    ensures Shaped(NewFile(s, name, package)) && SameTables(s, NewFile(s, name, package))
  {
    hide BlocksSound, DescriptorsSound, SymbolSound;
    NewFileBlocksSound(s, name, package);
    DescriptorsSoundWith(s, FileBlock(name, package, |s.fileTables|, [], []), s.fileTables + [map[]]);
    ShapedGrows(s, NewFile(s, name, package));
  }

  lemma AddFileShaped(s: Store, key: nat, f: nat)
    requires Shaped(s) && key < |s.strings| && IsFile(s, f) && s.allocations[f].name == s.strings[key]
    ensures Shaped(AddFile(s, key, f))
  {
    hide BlocksSound, DescriptorsSound, SymbolSound;
    var t := AddFile(s, key, f);
    SoundAlike(s, t);
    forall k | k in t.symbols ensures SymbolSound(t, k, t.symbols[k].value) {
      SymbolSoundAlike(s, t, k, s.symbols[k].value);
    }
  }

  lemma SoundAlike(s: Store, t: Store)
    requires t.allocations == s.allocations && t.fileTables == s.fileTables && BlocksSound(s) && DescriptorsSound(s)
    ensures BlocksSound(t) && DescriptorsSound(t)
  {
  }

  lemma SymbolSoundAlike(s: Store, t: Store, k: string, sym: Symbol)
    requires t.allocations == s.allocations && t.fileTables == s.fileTables && SymbolSound(s, k, sym)
    ensures SymbolSound(t, k, sym)
  {
  }

  /** Entering a fresh file in the file table. */
  lemma AddFileConsistent(s: Store, key: nat, f: nat)
    requires Committed(s) && key < |s.strings| && s.strings[key] !in s.files
    requires IsFile(s, f) && s.allocations[f].name == s.strings[key]
    requires s.allocations[f].dependencies == [] && Table(s, f) == map[]
    ensures Committed(AddFile(s, key, f))
  {
    AddFileShaped(s, key, f);
    var t := AddFile(s, key, f);
    FilesMoreIndexed(s, t);
    forall n | n in t.files ensures IndexSound(t, t.files[n].value) {
      if n in s.files { IndexFrame(s, t, s.files[n].value); }
    }
  }

  lemma FilesMoreIndexed(s: Store, t: Store)
    requires Shaped(s) && AllIndexed(s, {}) && Shaped(t)
    requires t.symbols == s.symbols && s.allocations == t.allocations && s.fileTables == t.fileTables
    requires forall n :: n in s.files ==> n in t.files && t.files[n] == s.files[n]
    ensures AllIndexed(t, {})
  {
    forall k | k in t.symbols ensures Indexed(t, k, {}) {
      assert Indexed(s, k, {});
    }
  }

  /** Filling in the imports of a file. */
  function WithImports(s: Store, f: nat, deps: seq<Option<nat>>, publicDeps: seq<nat>): Store
    requires IsFile(s, f)
  {
    s.(allocations := s.allocations[f := s.allocations[f].(dependencies := deps, publicDependencies := publicDeps)])
  }

  ghost predicate ImportsSound(s: Store, f: nat, deps: seq<Option<nat>>, publicDeps: seq<nat>) {
    && (forall i :: 0 <= i < |deps| && deps[i].Some? ==> deps[i].value <= f && IsFile(s, deps[i].value))
    && (forall i :: 0 <= i < |publicDeps| ==> publicDeps[i] < |deps|)
  }

  lemma WithImportsShaped(s: Store, f: nat, deps: seq<Option<nat>>, publicDeps: seq<nat>)
    requires Shaped(s) && IsFile(s, f) && ImportsSound(s, f, deps, publicDeps)
    ensures Shaped(WithImports(s, f, deps, publicDeps))
  {
    assert BlocksSound(WithImports(s, f, deps, publicDeps));
    assert forall k :: k in s.symbols ==> SymbolSound(s, k, s.symbols[k].value);
  }

  lemma WithImportsConsistent(s: Store, f: nat, deps: seq<Option<nat>>, publicDeps: seq<nat>)
    requires Committed(s) && IsFile(s, f) && ImportsSound(s, f, deps, publicDeps)
    requires forall i :: 0 <= i < |deps| ==> deps[i].Some? && Loaded(s, deps[i].value)
    ensures Committed(WithImports(s, f, deps, publicDeps))
  {
    var t := WithImports(s, f, deps, publicDeps);
    WithImportsShaped(s, f, deps, publicDeps);
    assert forall g :: Loaded(s, g) ==> Loaded(t, g);
    forall k | k in t.symbols ensures Indexed(t, k, {}) {
      WithImportsIndexed(s, f, deps, publicDeps, k);
    }
    forall n | n in t.files ensures IndexSound(t, t.files[n].value) {
      WithImportsIndexSound(s, f, deps, publicDeps, s.files[n].value);
    }
  }

  lemma WithImportsIndexed(s: Store, f: nat, deps: seq<Option<nat>>, publicDeps: seq<nat>, k: string)
    requires Shaped(s) && IsFile(s, f) && Shaped(WithImports(s, f, deps, publicDeps))
    requires k in s.symbols && Indexed(s, k, {})
    ensures Indexed(WithImports(s, f, deps, publicDeps), k, {})
  {
  }

  lemma WithImportsIndexSound(s: Store, f: nat, deps: seq<Option<nat>>, publicDeps: seq<nat>, g: nat)
    requires Shaped(s) && IsFile(s, f) && Shaped(WithImports(s, f, deps, publicDeps))
    requires IsFile(s, g) && IndexSound(s, g)
    ensures IndexSound(WithImports(s, f, deps, publicDeps), g)
  {
  }

  // ------------------------------------------------------------------
  // Symbols

  lemma AddSymbolShaped(s: Store, key: nat, sym: Symbol)
    requires Shaped(s) && key < |s.strings| && SymbolSound(s, s.strings[key], sym)
    ensures Shaped(AddSymbol(s, key, sym))
  {
    assert forall k :: k in s.symbols ==> SymbolSound(s, k, s.symbols[k].value);
  }

  /** Entering a package: its parent is the only one that may now be missing. */
  lemma AddPackageConsistent(s: Store, key: nat, f: nat)
    requires key < |s.strings| && s.strings[key] !in s.symbols && s.strings[key] != ""
    requires Consistent(s, {}, Some(s.strings[key])) && Loaded(s, f)
    ensures var d := LastDot(s.strings[key]);
      Consistent(AddSymbol(s, key, Symbol(PACKAGE, f, f)), {}, if d >= 0 then Some(s.strings[key][..d]) else None)
  {
    hide BlocksSound, DescriptorsSound, SymbolSound, IndexSound;
    var t := AddSymbol(s, key, Symbol(PACKAGE, f, f));
    AddSymbolShaped(s, key, Symbol(PACKAGE, f, f));
    forall k | k in t.symbols ensures Indexed(t, k, {}) {
      if k in s.symbols { SymbolsMoreIndexed(s, t, k, {}); }
    }
    forall n | n in t.files ensures IndexSound(t, t.files[n].value) {
      IndexFrame(s, t, s.files[n].value);
    }
  }

  lemma SymbolsMoreIndexed(s: Store, t: Store, k: string, open: set<nat>)
    requires Shaped(s) && Shaped(t) && k in s.symbols && Indexed(s, k, open)
    requires s.allocations == t.allocations && s.fileTables == t.fileTables && s.files == t.files
    requires forall n :: n in s.symbols ==> n in t.symbols && t.symbols[n] == s.symbols[n]
    ensures Indexed(t, k, open)
  {
  }

  /** A declaration entered in the flat table and under its parent. */
  function Declare(s: Store, key: nat, sym: Symbol): Store
    requires BlocksSound(s) && key < |s.strings| && sym.kind != PACKAGE && SymbolSound(s, s.strings[key], sym)
  {
    var d := s.allocations[sym.block];
    AddSymbol(s, key, sym).(fileTables :=
      s.fileTables[s.allocations[sym.file].table := Table(s, sym.file)[(d.parent, d.name) := sym]])
  }

  ghost predicate Declarable(s: Store, key: nat, sym: Symbol) {
    && Shaped(s) && key < |s.strings| && sym.kind != PACKAGE && SymbolSound(s, s.strings[key], sym)
    && s.strings[key] == FullName(s, s.allocations[sym.block].parent, s.allocations[sym.block].name)
    && s.strings[key] !in s.symbols
  }

  lemma DeclareShaped(s: Store, key: nat, sym: Symbol)
    requires Declarable(s, key, sym)
    ensures Shaped(Declare(s, key, sym))
  {
    assert forall k :: k in s.symbols ==> SymbolSound(s, k, s.symbols[k].value);
  }

  lemma DeclareIndexSound(s: Store, key: nat, sym: Symbol, f: nat)
    requires Declarable(s, key, sym) && Shaped(Declare(s, key, sym)) && IsFile(s, f) && IndexSound(s, f)
    ensures IndexSound(Declare(s, key, sym), f)
  {
    var t := Declare(s, key, sym);
    var d := s.allocations[sym.block];
    forall entry | entry in Table(t, f)
      ensures ParentSound(t, entry.0)
      ensures entry.0.FileScope? || t.allocations[entry.0.block].kind != ENUM ==>
        Find(t, FullName(t, entry.0, entry.1)) == Some(Table(t, f)[entry])
    {
      if entry in Table(s, f) && Table(t, f)[entry] == Table(s, f)[entry] {
      } else {
        assert entry == (d.parent, d.name);
      }
    }
  }

  lemma DeclareConsistent(s: Store, key: nat, sym: Symbol, open: set<nat>)
    requires Consistent(s, open, None) && Declarable(s, key, sym)
    requires Loaded(s, sym.file) && IsIdentifier(s.allocations[sym.block].name)
    requires ScopeDeclared(s, s.allocations[sym.block].parent, sym.file, open)
    requires s.allocations[sym.block].parent != DescriptorScope(sym.block)
    ensures Consistent(Declare(s, key, sym), open - {sym.block}, None)
  {
    hide BlocksSound, DescriptorsSound, SymbolSound, Indexed, IndexSound;
    var t := Declare(s, key, sym);
    DeclareShaped(s, key, sym);
    forall k | k in t.symbols ensures Indexed(t, k, open - {sym.block}) {
      if k in s.symbols {
        DeclareKeeps(s, key, sym, open, k);
      } else {
        DeclareAdds(s, key, sym, open);
      }
    }
    forall n | n in t.files ensures IndexSound(t, t.files[n].value) {
      DeclareIndexSound(s, key, sym, s.files[n].value);
    }
  }

  lemma DeclareAdds(s: Store, key: nat, sym: Symbol, open: set<nat>)
    requires Declarable(s, key, sym) && Shaped(Declare(s, key, sym))
    requires Loaded(s, sym.file) && IsIdentifier(s.allocations[sym.block].name)
    requires ScopeDeclared(s, s.allocations[sym.block].parent, sym.file, open)
    requires s.allocations[sym.block].parent != DescriptorScope(sym.block)
    ensures Indexed(Declare(s, key, sym), s.strings[key], open - {sym.block})
  {
  }

  lemma DeclareKeeps(s: Store, key: nat, sym: Symbol, open: set<nat>, k: string)
    requires Declarable(s, key, sym) && Shaped(Declare(s, key, sym))
    requires k in s.symbols && Indexed(s, k, open)
    requires IsFile(s, sym.file) && IndexSound(s, sym.file)
    ensures Indexed(Declare(s, key, sym), k, open - {sym.block})
  {
    var t := Declare(s, key, sym);
    var kept := s.symbols[k].value;
    if kept.kind != PACKAGE {
      var d := s.allocations[kept.block];
      var e := s.allocations[sym.block];
      assert (d.parent, d.name) != (e.parent, e.name);
    }
  }

  // ------------------------------------------------------------------
  // What a whole load does to a store

  ghost predicate Monotone(s: Store, t: Store) {
    && (forall n :: n in s.files ==> n in t.files && t.files[n] == s.files[n])
    && (forall k :: k in s.symbols ==> k in t.symbols && t.symbols[k] == s.symbols[k])
  }

  /** The symbols that `t` has in addition are those of files that `s` does not have. */
  ghost predicate NewerSymbols(s: Store, t: Store) {
    forall k :: k in t.symbols && k !in s.symbols ==> t.symbols[k].value.file >= |s.allocations|
  }

  /** A load, failed or not, from `s` to `t` while the files `pending` are being
      read: it leaves the stack of checkpoints as it was, loses no file and no
      symbol, adds no symbol to a file that was there, records its additions in the
      undo logs of any checkpoint open around it, keeps the promises of the pool, and does not load a pending file. */
  ghost predicate Loads(s: Store, t: Store, pending: seq<string>) {
    && Sound(s) && Sound(t)
    && t.checkpoints == s.checkpoints && Monotone(s, t) && NewerSymbols(s, t)
    && s.strings <= t.strings && s.allocations <= t.allocations && s.fileTables <= t.fileTables
    && (s.checkpoints != [] ==> Grows(s, t))
    && (Committed(s) ==> Committed(t))
    && (forall n :: n in pending && n in t.files ==> n in s.files)
  }

  lemma LoadsReflexive(s: Store, pending: seq<string>)
    requires Sound(s)
    ensures Loads(s, s, pending)
  {
    GrowsReflexive(s);
  }

  lemma LoadsTransitive(s: Store, t: Store, u: Store, pending: seq<string>)
    requires Loads(s, t, pending) && Loads(t, u, pending)
    ensures Loads(s, u, pending)
  {
    if s.checkpoints != [] {
      GrowsTransitive(s, t, u);
    }
  }

  /** Entering an extension is a load that loads nothing. */
  lemma LoadsExtension(s: Store, extendee: nat, number: int, field: nat, pending: seq<string>)
    requires Sound(s)
    ensures Loads(s, AddExtension(s, extendee, number, field), pending)
  {
    hide Grows, Valid, BlocksSound, DescriptorsSound, Indexed, IndexSound;
    var t := AddExtension(s, extendee, number, field);
    var op := OpExtension(extendee, number, field);
    GrowsReflexive(s);
    StepValid(s, op);
    ShapedSame(s, t);
    if s.checkpoints != [] { StepGrows(s, s, op); }
    if Committed(s) { ConsistentFrame(s, t, {}, None); }
  }

  /** The store `s` of a builder that took the checkpoint on top of `base` and owns
      the loaded file `f`. */
  ghost predicate Building(base: Store, s: Store, f: nat) {
    && Valid(base) && Sound(s)
    && base.checkpoints != [] && s.checkpoints == base.checkpoints && Grows(base, s)
    && base.checkpoints[|base.checkpoints| - 1].fileTables == |base.fileTables|
    && base.checkpoints[|base.checkpoints| - 1].allocations == |base.allocations|
    && Loaded(s, f) && |base.allocations| <= f && |base.fileTables| <= s.allocations[f].table
    && IndexSound(s, f) && NewerSymbols(base, s)
  }

  lemma BuildingFacts(base: Store, s: Store, f: nat)
    requires Building(base, s, f)
    ensures Valid(s) && Shaped(s) && BlocksSound(s) && Sound(s) && Loaded(s, f) && IsFile(s, f) && IndexSound(s, f)
    ensures s.allocations[f].table < |s.fileTables| && s.checkpoints != []
  {
  }

  /** A nested load keeps a builder going. */
  lemma LoadKeepsBuilding(base: Store, s: Store, t: Store, f: nat, pending: seq<string>)
    requires Building(base, s, f) && Loads(s, t, pending)
    ensures Building(base, t, f)
  {
    GrowsTransitive(base, s, t);
    IndexFrame(s, t, f);
  }

  /** What a step of the declaration phase leaves alone. */
  ghost predicate Kept(s: Store, t: Store) {
    && t.checkpoints == s.checkpoints && t.files == s.files
    && s.strings <= t.strings && s.allocations <= t.allocations
    && (forall k :: k in s.symbols ==> k in t.symbols && t.symbols[k] == s.symbols[k])
  }

  lemma ScopeKept(s: Store, t: Store, parent: Parent, f: nat, open: set<nat>)
    requires Kept(s, t) && ParentSound(s, parent)
    ensures ParentSound(t, parent)
    ensures forall name :: FullName(t, parent, name) == FullName(s, parent, name)
    ensures ScopeDeclared(s, parent, f, open) ==> ScopeDeclared(t, parent, f, open)
  {
  }

  lemma OpenMore(s: Store, open: set<nat>, more: set<nat>)
    requires Consistent(s, open, None) && open <= more
    ensures Consistent(s, more, None)
  {
    forall k | k in s.symbols ensures Indexed(s, k, more) {
      assert Indexed(s, k, open);
    }
  }

  // ------------------------------------------------------------------
  // A builder's own steps

  lemma BuildingString(base: Store, s: Store, f: nat, text: string)
    requires Building(base, s, f)
    ensures var t := Step(s, OpString(text)); Building(base, t, f) && Kept(s, t) && SameTables(s, t)
  {
    StepGrows(base, s, OpString(text));
    ShapedSame(s, Step(s, OpString(text)));
    IndexFrame(s, Step(s, OpString(text)), f);
  }

  lemma BuildingDescriptor(base: Store, s: Store, f: nat, block: Block)
    requires Building(base, s, f)
    requires block.DescriptorBlock? && ParentSound(s, block.parent) && block.file == f
    ensures var t := Step(s, OpAllocate(block)); Building(base, t, f) && Kept(s, t) && SameTables(s, t)
  {
    StepGrows(base, s, OpAllocate(block));
    AllocateShaped(s, block);
    IndexFrame(s, Step(s, OpAllocate(block)), f);
  }

  lemma BuildingDeclare(base: Store, s: Store, f: nat, key: nat, sym: Symbol)
    requires Building(base, s, f) && Declarable(s, key, sym) && sym.file == f
    ensures Valid(AddSymbol(s, key, sym)) && WritableTable(AddSymbol(s, key, sym), s.allocations[f].table)
    ensures var t := Declare(s, key, sym); Building(base, t, f) && Kept(s, t)
  {
    hide Grows, Valid, BlocksSound, DescriptorsSound, IndexSound;
    var t := AddSymbol(s, key, sym);
    var d := s.allocations[sym.block];
    var table := s.allocations[f].table;
    StepGrows(base, s, OpSymbol(key, sym));
    TableInRange(s, f);
    var op := OpWriteTable(table, Table(s, f)[(d.parent, d.name) := sym]);
    StepGrows(base, t, op);
    assert Step(t, op) == Declare(s, key, sym);
    DeclareShaped(s, key, sym);
    DeclareIndexSound(s, key, sym, f);
  }

  lemma TableInRange(s: Store, f: nat)
    requires BlocksSound(s) && IsFile(s, f)
    ensures s.allocations[f].table < |s.fileTables|
  {
  }

  /** The file's index has nothing under the parent and the name of the declaration. */
  ghost predicate Unindexed(s: Store, sym: Symbol) {
    && IsFile(s, sym.file) && IsDescriptor(s, sym.block) && s.allocations[sym.file].table < |s.fileTables|
    && (s.allocations[sym.block].parent, s.allocations[sym.block].name) !in s.fileTables[s.allocations[sym.file].table]
  }

  /** A name that is not in the flat table is in no index that agrees with it. */
  lemma UndeclaredIsUnindexed(s: Store, key: nat, sym: Symbol)
    requires Declarable(s, key, sym) && IndexSound(s, sym.file)
    requires var p := s.allocations[sym.block].parent; p.FileScope? || s.allocations[p.block].kind != ENUM
    ensures Unindexed(s, sym)
  {
  }

  /** An enum's own index of its values. */
  function WithAlias(s: Store, f: nat, e: nat, name: string, sym: Symbol): Store
    requires BlocksSound(s) && IsFile(s, f)
  {
    s.(fileTables := s.fileTables[s.allocations[f].table := Table(s, f)[(DescriptorScope(e), name) := sym]])
  }

  lemma BuildingAlias(base: Store, s: Store, f: nat, e: nat, name: string, sym: Symbol)
    requires Building(base, s, f) && IsDescriptor(s, e) && s.allocations[e].kind == ENUM
    ensures WritableTable(s, s.allocations[f].table)
    ensures var t := WithAlias(s, f, e, name, sym); Building(base, t, f) && Kept(s, t) && Shaped(t)
  {
    hide Grows, Valid, BlocksSound, DescriptorsSound, IndexSound;
    TableInRange(s, f);
    var t := WithAlias(s, f, e, name, sym);
    var op := OpWriteTable(s.allocations[f].table, Table(s, f)[(DescriptorScope(e), name) := sym]);
    StepGrows(base, s, op);
    assert Step(s, op) == t;
    AliasShaped(s, f, e, name, sym);
    AliasIndexSound(s, f, e, name, sym, f);
  }

  lemma AliasShaped(s: Store, f: nat, e: nat, name: string, sym: Symbol)
    requires Shaped(s) && IsFile(s, f)
    ensures Shaped(WithAlias(s, f, e, name, sym))
  {
    assert forall k :: k in s.symbols ==> SymbolSound(s, k, s.symbols[k].value);
  }

  lemma AliasIndexSound(s: Store, f: nat, e: nat, name: string, sym: Symbol, g: nat)
    requires Shaped(s) && IsFile(s, f) && Shaped(WithAlias(s, f, e, name, sym))
    requires IsDescriptor(s, e) && s.allocations[e].kind == ENUM
    requires IsFile(s, g) && IndexSound(s, g)
    ensures IndexSound(WithAlias(s, f, e, name, sym), g)
  {
    var t := WithAlias(s, f, e, name, sym);
    forall key | key in Table(t, g)
      ensures ParentSound(t, key.0)
      ensures key.0.FileScope? || t.allocations[key.0.block].kind != ENUM ==>
        Find(t, FullName(t, key.0, key.1)) == Some(Table(t, g)[key])
    {
      if key != (DescriptorScope(e), name) {
        assert key in Table(s, g);
      }
    }
  }

  lemma AliasConsistent(s: Store, f: nat, e: nat, name: string, sym: Symbol, open: set<nat>)
    requires Consistent(s, open, None) && IsFile(s, f)
    requires IsDescriptor(s, e) && s.allocations[e].kind == ENUM
    ensures Consistent(WithAlias(s, f, e, name, sym), open, None)
  {
    hide IndexSound, BlocksSound, DescriptorsSound;
    var t := WithAlias(s, f, e, name, sym);
    AliasShaped(s, f, e, name, sym);
    forall k | k in t.symbols ensures Indexed(t, k, open) {
      AliasIndexed(s, f, e, name, sym, open, k);
    }
    forall n | n in t.files ensures IndexSound(t, t.files[n].value) {
      AliasIndexSound(s, f, e, name, sym, s.files[n].value);
    }
  }

  lemma AliasIndexed(s: Store, f: nat, e: nat, name: string, sym: Symbol, open: set<nat>, k: string)
    requires Shaped(s) && IsFile(s, f) && Shaped(WithAlias(s, f, e, name, sym))
    requires IsDescriptor(s, e) && s.allocations[e].kind == ENUM
    requires k in s.symbols && Indexed(s, k, open)
    ensures Indexed(WithAlias(s, f, e, name, sym), k, open)
  {
  }

  // ------------------------------------------------------------------
  // The start of a build

  /** The store when a file has just been entered: a checkpoint, the file block and
      its table, the strings of its name and package, and the file table entry. */
  function Begun(s: Store, name: string, package: string): Store {
    var t := NewFile(AddCheckpoint(s), name, package);
    AddFile(t.(strings := t.strings + [name] + [package]), |t.strings|, |s.allocations|)
  }

  lemma BeginBuilding(s: Store, name: string, package: string)
    requires Sound(s) && name !in s.files
    ensures Building(AddCheckpoint(s), Begun(s, name, package), |s.allocations|)
    ensures Committed(s) ==> Committed(Begun(s, name, package))
  {
    hide BlocksSound, DescriptorsSound, IndexSound, Grows, Valid;
    var base := AddCheckpoint(s);
    var t := NewFile(base, name, package);
    var u := t.(strings := t.strings + [name] + [package]);
    var f := |s.allocations|;
    CheckpointValid(s);
    GrowsReflexive(base);
    BeginGrows(base, name, package, t, u, f);
    ShapedSame(s, base);
    NewFileShaped(base, name, package);
    ShapedSame(t, u);
    AddFileShaped(u, |t.strings|, f);
    NewIndexSound(Begun(s, name, package), f);
    if Committed(s) {
      ConsistentFrame(s, base, {}, None);
      ConsistentFrame(base, t, {}, None);
      ConsistentFrame(t, u, {}, None);
      AddFileConsistent(u, |t.strings|, f);
    }
  }

  lemma BeginGrows(base: Store, name: string, package: string, t: Store, u: Store, f: nat)
    requires Valid(base) && Grows(base, base) && base.checkpoints != []
    requires t == NewFile(base, name, package) && u == t.(strings := t.strings + [name] + [package])
    ensures Valid(AddFile(u, |t.strings|, f)) && Grows(base, AddFile(u, |t.strings|, f))
  {
    hide Grows, Valid;
    var block := FileBlock(name, package, |base.fileTables|, [], []);
    var t1 := Step(base, OpAllocate(block));
    StepGrows(base, base, OpAllocate(block));
    StepGrows(base, t1, OpFileTables);
    assert Step(t1, OpFileTables) == t;
    StepGrows(base, t, OpString(name));
    var t2 := Step(t, OpString(name));
    StepGrows(base, t2, OpString(package));
    assert Step(t2, OpString(package)) == u;
    StepGrows(base, u, OpFile(|t.strings|, f));
  }

  lemma NewIndexSound(s: Store, f: nat)
    requires Shaped(s) && IsFile(s, f) && Table(s, f) == map[]
    ensures IndexSound(s, f)
  {
  }

  lemma BuildingImports(base: Store, s: Store, f: nat, deps: seq<Option<nat>>, publicDeps: seq<nat>)
    requires Building(base, s, f) && ImportsSound(s, f, deps, publicDeps)
    ensures WritableBlock(s, f)
    ensures var t := WithImports(s, f, deps, publicDeps);
      Building(base, t, f) && Shaped(t) && t.symbols == s.symbols && t.files == s.files
        && t.checkpoints == s.checkpoints
  {
    hide Grows, Valid, BlocksSound, DescriptorsSound, IndexSound;
    var t := WithImports(s, f, deps, publicDeps);
    var op := OpWriteBlock(f, t.allocations[f]);
    StepGrows(base, s, op);
    assert Step(s, op) == t;
    WithImportsShaped(s, f, deps, publicDeps);
    WithImportsIndexSound(s, f, deps, publicDeps, f);
  }

  // ------------------------------------------------------------------
  // Packages

  lemma BuildingPackage(base: Store, s: Store, f: nat, key: nat)
    requires Building(base, s, f) && key < |s.strings|
    ensures var t := AddSymbol(s, key, Symbol(PACKAGE, f, f)); Building(base, t, f) && Kept(s, t) && Shaped(t)
  {
    hide Grows, Valid, BlocksSound, DescriptorsSound, IndexSound;
    var sym := Symbol(PACKAGE, f, f);
    StepGrows(base, s, OpSymbol(key, sym));
    AddSymbolShaped(s, key, sym);
    IndexFrame(s, AddSymbol(s, key, sym), f);
  }

  lemma PackageNotMissing(s: Store, missing: string)
    requires Consistent(s, {}, Some(missing)) && IsPackage(s, missing)
    ensures Consistent(s, {}, None)
  {
    hide Indexed, IndexSound, BlocksSound, DescriptorsSound;
  }

  lemma PackageMayMiss(s: Store, missing: string)
    requires Consistent(s, {}, None)
    ensures Consistent(s, {}, Some(missing))
  {
    hide Indexed, IndexSound, BlocksSound, DescriptorsSound;
  }

  // ------------------------------------------------------------------
  // The end of a build

  /** An error: the rollback gives back the store at the checkpoint. */
  lemma RollbackLoads(s: Store, t: Store, f: nat)
    requires Sound(s) && Building(AddCheckpoint(s), t, f)
    ensures Rollback(t) == s
  {
    hide BlocksSound, DescriptorsSound, IndexSound, Grows, Valid;
    RollbackUndoesGrowth(s, t);
  }

  lemma GrowsMonotone(s: Store, t: Store)
    requires Valid(t) && Grows(s, t)
    ensures Monotone(s, t)
    ensures s.strings <= t.strings && s.allocations <= t.allocations && s.fileTables <= t.fileTables
  {
    hide Valid;
  }

  /** Success: everything since the checkpoint stays. */
  lemma CommitLoads(s: Store, t: Store, f: nat, pending: seq<string>)
    requires Sound(s) && Building(AddCheckpoint(s), t, f)
    requires Committed(s) ==> Committed(t)
    requires forall n :: n in pending && n in t.files ==> n in s.files
    ensures Loads(s, ClearLastCheckpoint(t), pending)
  {
    hide BlocksSound, DescriptorsSound, IndexSound, Valid, Grows, Consistent;
    var u := ClearLastCheckpoint(t);
    GrowsMonotone(AddCheckpoint(s), t);
    ClearValid(t);
    ShapedSame(t, u);
    if Committed(t) { ConsistentFrame(t, u, {}, None); }
    if s.checkpoints != [] { ClearGrows(s, t); }
  }

  // ------------------------------------------------------------------
  // Names left to load

  /** The files of a database that are neither loaded nor being read. */
  function Left(names: set<string>, s: Store, pending: seq<string>): set<string> {
    names - (set n | n in pending) - s.files.Keys
  }

  lemma LeftShrinks(names: set<string>, s: Store, t: Store, pending: seq<string>)
    requires Monotone(s, t)
    ensures |Left(names, t, pending)| <= |Left(names, s, pending)|
  {
    Subset(Left(names, t, pending), Left(names, s, pending));
  }

  lemma LeftLess(names: set<string>, s: Store, t: Store, pending: seq<string>, more: seq<string>, name: string)
    requires Monotone(s, t) && name in names && name !in pending && name !in s.files
    requires name in more || name in t.files
    requires forall n :: n in pending ==> n in more
    ensures |Left(names, t, more)| < |Left(names, s, pending)|
  {
    var less, all := Left(names, t, more), Left(names, s, pending);
    assert less <= all - {name};
    Subset(less, all - {name});
  }

  lemma Subset(a: set<string>, b: set<string>)
    requires a <= b
    ensures |a| <= |b|
  {
    assert b == a + (b - a);
  }

  /** A load during which more files were marked as being read. */
  lemma LoadsFewer(s: Store, t: Store, pending: seq<string>, more: seq<string>)
    requires Loads(s, t, more) && forall n :: n in pending ==> n in more
    ensures Loads(s, t, pending) && Sound(t)
    ensures forall n :: n in more && n in t.files ==> n in s.files
  {
  }

  /** No pending file has been loaded while the new file was linked. */
  lemma FilesAfterLinking(s: Store, t: Store, u: Store, name: string, package: string, pending: seq<string>)
    requires t.files == Begun(s, name, package).files && name !in s.files && name !in pending
    requires Loads(t, u, pending)
    ensures forall n :: n in pending && n in u.files ==> n in s.files
    ensures name in u.files && u.files[name].value == |s.allocations|
  {
    hide Sound, Committed, Grows;
  }

  lemma LoadsMonotone(s: Store, t: Store, pending: seq<string>)
    requires Loads(s, t, pending)
    ensures Monotone(s, t)
  {
  }

  lemma LoadsSound(s: Store, t: Store, pending: seq<string>)
    requires Loads(s, t, pending)
    ensures Sound(t)
  {
  }

  /** Entering a file adds its name to the file table and nothing else. */
  lemma BeginMonotone(s: Store, name: string, package: string)
    requires name !in s.files
    ensures Begun(s, name, package).symbols == s.symbols && Monotone(s, Begun(s, name, package))
    ensures |Begun(s, name, package).strings| > 0
    ensures Begun(s, name, package).strings[|Begun(s, name, package).strings| - 1] == package
    ensures |Begun(s, name, package).allocations| == |s.allocations| + 1
    ensures Begun(s, name, package).allocations[|s.allocations|] == FileBlock(name, package, |s.fileTables|, [], [])
    ensures Begun(s, name, package).files.Keys == s.files.Keys + {name}
    ensures Begun(s, name, package).files[name].value == |s.allocations|
  {
  }

  lemma LeftFewerFiles(names: set<string>, s: Store, t: Store, pending: seq<string>, name: string)
    requires name in names && name !in pending && name !in s.files && t.files.Keys == s.files.Keys + {name}
    ensures |Left(names, t, pending)| < |Left(names, s, pending)|
  {
    assert Left(names, t, pending) == Left(names, s, pending) - {name};
  }
}
