/** The descriptor pool and the builder of one file, which may load other files. */
module DescriptorPool {
  import opened Options
  import opened DescriptorProtos
  import opened SymbolStore
  import opened DottedNames
  import opened ImportGraph
  import opened PoolInvariant
  import opened NameResolution
  import opened FileBuilds
  import opened Declarations
  import opened References
  import opened Acceptance
  import opened Loading

  /** What the link phase established holds after the declarations. */
  lemma LinkedStays(s: Store, a: Point, b: Point, c: Point, proto: FileProto, f: nat, deps: set<nat>)
    requires BlocksSound(b.store) && BlocksSound(c.store) && IsFile(b.store, f) && VisibleFrom(b.store, f, deps)
    requires Monotone(s, b.store) && Kept(b.store, c.store) && (forall g :: g in deps ==> IsFile(b.store, g))
    requires b.store.files.Keys == s.files.Keys + {proto.name} && PackageEntered(s, b.store, proto.package, f)
    requires b.failed <==> a.failed || !HeaderFits(s, b.store.files.Keys, proto)
    requires !b.failed ==> HasImports(b.store, proto, f)
    requires Entered(b, c, OfFile(proto), f, ProperlyDeclared(proto))
    ensures c.store.files == b.store.files && Monotone(s, c.store) && IsFile(c.store, f)
    ensures VisibleFrom(c.store, f, deps)
    ensures forall g :: g in deps ==> IsFile(c.store, g)
    ensures c.failed <==> a.failed || !Enterable(s, proto)
    ensures !c.failed ==> HasImports(c.store, proto, f)
  {
    hide BlocksSound, VisibleFrom, HeaderFits, Enterable, HasImports, OfFile, ProperlyDeclared, AllNew;
    VisibleFromKept(b.store, c.store, f, deps);
    EnterableIs(s, a, b, c, proto, f);
    if !b.failed { HasImportsKept(b.store, c.store, proto, f); }
  }

  /** The new symbols are those of file `f`: what it declares, and its package. */
  lemma OnlyOwn(s: Store, b: Point, c: Point, proto: FileProto, f: nat)
    requires Shaped(s) && f >= |s.allocations|
    requires PackageEntered(s, b.store, proto.package, f) && Entered(b, c, OfFile(proto), f, ProperlyDeclared(proto))
    ensures HasOnly(c.store, proto, f)
    ensures forall k :: k in c.store.symbols && k !in s.symbols ==> c.store.symbols[k].value.file == f
  {
    hide BlocksSound, DescriptorsSound, ProperlyDeclared, OfFile, AllNew;
    OlderFiles(s);
  }

  lemma OlderFiles(s: Store)
    requires Shaped(s)
    ensures forall k :: k in s.symbols ==> s.symbols[k].value.file < |s.allocations|
  {
    hide BlocksSound, DescriptorsSound;
    forall k | k in s.symbols ensures s.symbols[k].value.file < |s.allocations| {
      assert SymbolSound(s, k, s.symbols[k].value);
    }
  }

  /** The imports have been read as far as they can be: each is loaded or known to be bad. */
  ghost predicate AllTried(s: Store, names: seq<string>, bad: set<string>) {
    forall i :: 0 <= i < |names| ==> names[i] in s.files || names[i] in bad
  }

  lemma TriedMore(s: Store, t: Store, names: seq<string>, bad: set<string>, more: set<string>)
    requires AllTried(s, names, bad) && Monotone(s, t) && bad <= more
    ensures AllTried(t, names, more)
  {
  }

  lemma NotEnterable(s: Store, proto: FileProto)
    ensures Acceptable(s, proto) ==> Enterable(s, proto)
  {
  }

  lemma EnteredFileIs(s: Store, t: Store, base: Store, proto: FileProto, f: nat)
    requires Sound(s) && Committed(t) && base == AddCheckpoint(s) && Building(base, t, f) && f == |s.allocations|
    requires Monotone(s, t) && Built(t, proto, f) && t.files == Begun(s, proto.name, proto.package).files
    requires proto.name !in s.files
    requires forall k :: k in t.symbols && k !in s.symbols ==> t.symbols[k].value.file == f
    ensures EnteredFile(s, t, proto, f)
  {
    hide Consistent, Built, Grows, Valid, BlocksSound, DescriptorsSound, Monotone, Begun;
    BeginMonotone(s, proto.name, proto.package);
    GrowsMonotone(base, t);
  }

  /** What is visible is declared. */
  lemma VisibleDeclared(s: Store, f: nat, deps: set<nat>, name: string)
    requires Shaped(s)
    ensures Visible(s, f, deps, name).Some? ==> IsDeclared(s, Visible(s, f, deps, name).value)
  {
    hide BlocksSound, DescriptorsSound;
    if name in s.symbols { assert SymbolSound(s, name, s.symbols[name].value); }
  }

  lemma SoundValid(s: Store)
    requires Sound(s)
    ensures Valid(s)
  {
  }

  lemma LoadsCommitted(s: Store, t: Store, pending: seq<string>)
    requires Loads(s, t, pending)
    ensures Committed(s) ==> Committed(t)
    ensures s.allocations <= t.allocations
    ensures forall g :: IsFile(s, g) ==> IsFile(t, g)
  {
    hide Sound, Consistent, Grows;
  }

  lemma DeclaredStays(s: Store, t: Store, sym: Symbol)
    requires IsDeclared(s, sym) && s.allocations <= t.allocations
    ensures IsDeclared(t, sym) && Meant(t, sym) == Meant(s, sym)
  {
  }

  /** The builder of one file. */
  class Builder {
    const pool: Pool
    var file: nat
    var dependencies: set<nat>
    var numbers: set<NumberKey>
    var hadErrors: bool
    ghost var base: Store
    ghost var good: bool

    constructor (pool: Pool)
      ensures this.pool == pool && !hadErrors && dependencies == {} && numbers == {}
    {
      this.pool := pool;
      file, dependencies, numbers, hadErrors := 0, {}, {}, false;
      base, good := EMPTY, false;
    }

    function Now(): Store
      reads this, pool.tables
    {
      pool.tables.State()
    }

    ghost function Here(): Point
      reads this, pool.tables
    {
      Point(Now(), hadErrors)
    }

    ghost predicate Going()
      reads this, pool.tables
    {
      Building(base, Now(), file)
    }

    /** Error-free so far, and, if the pool was good when the build began, consistent
        but for what is still being declared. */
    ghost predicate Clean(open: set<nat>, missing: Option<string>)
      reads this, pool.tables
    {
      !hadErrors && good ==> Consistent(Now(), open, missing)
    }

    method NewString(text: string, ghost open: set<nat>, ghost missing: Option<string>) returns (key: nat)
      requires Going() && Clean(open, missing)
      modifies pool.tables`strings
      ensures Going() && Clean(open, missing) && Kept(old(Now()), Now())
      ensures key < |Now().strings| && Now().strings[key] == text
      ensures Now().symbols == old(Now()).symbols && Now().allocations == old(Now()).allocations
      ensures Now().fileTables == old(Now()).fileTables
    {
      hide Building, Consistent, Valid, Shaped, IndexSound, SameTables;
      BuildingFacts(base, Now(), file);
      ghost var s := Now();
      BuildingString(base, s, file, text);
      key := pool.tables.AllocateString(text);
      BuildingFacts(base, Now(), file);
      if !hadErrors && good { ConsistentFrame(s, Now(), open, missing); }
    }

    method CheckIdentifier(name: string)
      modifies `hadErrors
      ensures hadErrors <==> old(hadErrors) || !IsIdentifier(name)
    {
      if name == "" {
        hadErrors := true;
      } else {
        for i := 0 to |name|
          invariant hadErrors <==> old(hadErrors) || exists k :: 0 <= k < i && !IsIdentifierChar(name[k])
        {
          if !IsIdentifierChar(name[i]) {
            hadErrors := true;
          }
        }
      }
    }

    /** The memory of a declaration: its block, and its full name as a table key. */
    method NewDescriptor(kind: Kind, parent: Parent, name: string, fullName: string, ranges: seq<RangeProto>,
                         ghost open: set<nat>)
      returns (block: nat, key: nat)
      requires Going() && Clean(open, None) && ParentSound(Now(), parent) && kind != PACKAGE
      modifies pool.tables`strings, pool.tables`allocations, `hadErrors
      ensures Going() && Clean(open, None) && Kept(old(Now()), Now())
      ensures old(|Now().allocations|) <= block && IsDescriptor(Now(), block)
      ensures Now().allocations[block] == DescriptorBlock(kind, file, parent, name, fullName, ranges)
      ensures key < |Now().strings| && Now().strings[key] == fullName
      ensures hadErrors <==> old(hadErrors) || !IsIdentifier(name)
      ensures Now().symbols == old(Now()).symbols
    {
      hide Building, Consistent, Valid, Shaped, IndexSound, SameTables;
      key := NewString(fullName, open, None);
      CheckIdentifier(name);
      BuildingFacts(base, Now(), file);
      ghost var s := Now();
      var content := DescriptorBlock(kind, file, parent, name, fullName, ranges);
      BuildingDescriptor(base, s, file, content);
      block := pool.tables.Allocate(content);
      BuildingFacts(base, Now(), file);
      if !hadErrors && good { ConsistentFrame(s, Now(), open, None); }
    }

    /** Enter a declaration in the flat table and, if that succeeds, in the index of
        its parent.  The second entry cannot fail. */
    method AddSymbol(key: nat, symbol: Symbol, ghost open: set<nat>) returns (added: bool)
      requires Going() && Clean(open, None) && symbol.kind != PACKAGE && symbol.file == file
      requires key < |Now().strings| && SymbolSound(Now(), Now().strings[key], symbol)
      requires Now().strings[key]
            == FullName(Now(), Now().allocations[symbol.block].parent, Now().allocations[symbol.block].name)
      requires !hadErrors ==> IsIdentifier(Now().allocations[symbol.block].name)
      requires !hadErrors ==> ScopeDeclared(Now(), Now().allocations[symbol.block].parent, file, open)
      requires Now().allocations[symbol.block].parent.DescriptorScope? ==>
        Now().allocations[Now().allocations[symbol.block].parent.block].kind != ENUM
      requires Now().allocations[symbol.block].parent != DescriptorScope(symbol.block)
      modifies pool.tables, `hadErrors
      ensures Going() && Clean(open - {symbol.block}, None) && Kept(old(Now()), Now())
      ensures hadErrors <==> old(hadErrors) || !added
      ensures added <==> old(Now().strings[key] !in Now().symbols)
      ensures added ==> Now() == Declare(old(Now()), key, symbol) && Unindexed(old(Now()), symbol)
      ensures !added ==> Now() == old(Now())
      ensures added ==> Has(Now(), Meant(old(Now()), symbol), file)
    {
      hide Building, Consistent, Valid, Shaped, IndexSound, SameTables;
      BuildingFacts(base, Now(), file);
      ghost var s := Now();
      var d := pool.tables.allocations[symbol.block];
      added := pool.tables.InsertSymbol(key, symbol);
      if added {
        BuildingDeclare(base, s, file, key, symbol);
        UndeclaredIsUnindexed(s, key, symbol);
        // The entry under the parent is new as well, so it always succeeds.
        assert (d.parent, d.name) !in pool.tables.fileTables[pool.tables.allocations[file].table];
        var table := pool.tables.allocations[file].table;
        pool.tables.WriteTable(table, pool.tables.fileTables[table][(d.parent, d.name) := symbol]);
        assert Now() == Declare(s, key, symbol);
        if !hadErrors && good { DeclareConsistent(s, key, symbol, open); }
      } else {
        hadErrors := true;
      }
    }

    /** `parent` can take declarations of this file, as far as there are no errors. */
    ghost predicate Declares(parent: Parent, open: set<nat>)
      reads this, pool.tables
    {
      && ParentSound(Now(), parent)
      && (parent.DescriptorScope? ==> Now().allocations[parent.block].kind != ENUM)
      && (!hadErrors ==> ScopeDeclared(Now(), parent, file, open))
    }

    function ScopeText(parent: Parent): string
      reads this, pool.tables
      requires ParentSound(Now(), parent)
    {
      match parent
      case FileScope(f) => pool.tables.allocations[f].package
      case DescriptorScope(b) => pool.tables.allocations[b].fullName
    }

    /** The full name of a child, put together as the builders do. */
    function ScopeName(parent: Parent, name: string): (r: string)
      reads this, pool.tables
      requires ParentSound(Now(), parent)
      ensures r == FullName(Now(), parent, name)
    {
      match parent
      case FileScope(f) =>
        var scope := pool.tables.allocations[f].package;
        if scope == "" then name else scope + "." + name
      case DescriptorScope(b) =>
        var scope := pool.tables.allocations[b].fullName;
        if scope == "" && pool.tables.allocations[b].kind != SERVICE then name else scope + "." + name
    }

    /** Allocate a declaration and enter it at once. */
    method Enter(kind: Kind, parent: Parent, name: string, fullName: string, ghost open: set<nat>)
      returns (added: bool, block: nat)
      requires Going() && Clean(open, None) && Declares(parent, open) && kind != PACKAGE
      requires fullName == FullName(Now(), parent, name)
      modifies pool.tables, `hadErrors
      ensures Going() && Clean(open, None) && Kept(old(Now()), Now())
      ensures Entered(old(Here()), Here(), [Declaration(fullName, kind, [])], file, IsIdentifier(name))
      ensures (old(hadErrors) ==> hadErrors) && (!added ==> hadErrors)
    {
      hide Building, Consistent, Valid, Shaped, Sound, IndexSound, BlocksSound, ScopeDeclared, Entered, IsIdentifier;
      BuildingFacts(base, Now(), file);
      ghost var s, start := Now(), Here();
      var key;
      block, key := NewDescriptor(kind, parent, name, fullName, [], open);
      ScopeKept(s, Now(), parent, file, open);
      BuildingFacts(base, Now(), file);
      added := AddSymbol(key, Symbol(kind, block, file), open);
      if !hadErrors && good { OpenMore(Now(), open - {block}, open); }
      EnteredOne(start, Here(), Declaration(fullName, kind, []), file, IsIdentifier(name));
    }

    method CheckField(proto: FieldProto, isExtension: bool)
      modifies `hadErrors
      ensures hadErrors <==>
        old(hadErrors) || !NumberProper(proto.number, isExtension) || (proto.extendee.Some? != isExtension)
    {
      if proto.number <= 0 {
        hadErrors := true;
      } else if !isExtension && proto.number > MAX_NUMBER {
        hadErrors := true;
      } else if proto.number >= FIRST_RESERVED_NUMBER && proto.number <= LAST_RESERVED_NUMBER {
        hadErrors := true;
      }
      if isExtension {
        if proto.extendee.None? { hadErrors := true; }
      } else {
        if proto.extendee.Some? { hadErrors := true; }
      }
    }

    method BuildField(proto: FieldProto, isExtension: bool, parent: Parent, ghost open: set<nat>)
      requires Going() && Clean(open, None) && Declares(parent, open)
      modifies pool.tables, `hadErrors
      ensures Going() && Clean(open, None) && Kept(old(Now()), Now())
      ensures old(hadErrors) ==> hadErrors
      ensures Entered(old(Here()), Here(), [Declaration(old(FullName(Now(), parent, proto.name)), FIELD, [])], file,
                      FieldProper(proto, isExtension))
    {
      hide Building, Consistent, ScopeDeclared, AllNew;
      CheckField(proto, isExtension);
      var _, _ := Enter(FIELD, parent, proto.name, ScopeName(parent, proto.name), open);
    }

    method BuildEnumValue(name: string, enum: nat, parent: Parent, ghost open: set<nat>)
      requires Going() && Clean(open, None) && Declares(parent, open)
      requires parent.DescriptorScope? ==> Now().allocations[parent.block].kind != SERVICE
      requires IsDescriptor(Now(), enum) && Now().allocations[enum].kind == ENUM
      requires Now().allocations[enum].fullName == FullName(Now(), parent, Now().allocations[enum].name)
      modifies pool.tables, `hadErrors
      ensures Going() && Clean(open, None) && Kept(old(Now()), Now())
      ensures old(hadErrors) ==> hadErrors
      ensures Entered(old(Here()), Here(), [Declaration(old(FullName(Now(), parent, name)), ENUM_VALUE, [])], file,
                      IsIdentifier(name))
    {
      hide Building, Consistent, Valid, Shaped, Sound, IndexSound, BlocksSound, ScopeDeclared, Entered, IsIdentifier;
      // The value is a sibling of the enum: its name replaces the enum's own.
      var scope := pool.tables.allocations[enum].fullName;
      var fullName := scope[..|scope| - |pool.tables.allocations[enum].name|] + name;
      var added, value := Enter(ENUM_VALUE, parent, name, fullName, open);

      // It is also a child of the enum, unless that has it already.
      BuildingFacts(base, Now(), file);
      var table := pool.tables.allocations[file].table;
      var index := pool.tables.fileTables[table];
      if (DescriptorScope(enum), name) !in index {
        ghost var s, here := Now(), Here();
        var sym := Symbol(ENUM_VALUE, value, file);
        BuildingAlias(base, s, file, enum, name, sym);
        pool.tables.WriteTable(table, index[(DescriptorScope(enum), name) := sym]);
        assert Now() == WithAlias(s, file, enum, name, sym);
        if !hadErrors && good { AliasConsistent(s, file, enum, name, sym, open); }
        if !added { hadErrors := true; }
        EnteredSame(old(Here()), here, Here(), [Declaration(fullName, ENUM_VALUE, [])], file, IsIdentifier(name));
      }
    }

    method BuildEnumValues(names: seq<string>, enum: nat, parent: Parent, ghost open: set<nat>)
      requires Going() && Clean(open, None) && Declares(parent, open)
      requires parent.DescriptorScope? ==> Now().allocations[parent.block].kind != SERVICE
      requires IsDescriptor(Now(), enum) && Now().allocations[enum].kind == ENUM
      requires Now().allocations[enum].fullName == FullName(Now(), parent, Now().allocations[enum].name)
      modifies pool.tables, `hadErrors
      ensures Going() && Clean(open, None) && Kept(old(Now()), Now()) && Declares(parent, open)
      ensures old(hadErrors) ==> hadErrors
      ensures Entered(old(Here()), Here(), OfValues(old(ScopeText(parent)), names), file, ValuesProper(names))
    {
      hide Building, Consistent, ScopeDeclared, Entered, OfValues, ValuesProper, IsIdentifier;
      ghost var scope, start := ScopeText(parent), Here();
      NoneEntered(start, file, scope);
      assert names[..0] == [];
      for i := 0 to |names|
        invariant Going() && Clean(open, None) && Kept(old(Now()), Now()) && (old(hadErrors) ==> hadErrors)
        invariant Declares(parent, open) && ScopeText(parent) == scope
        invariant Entered(start, Here(), OfValues(scope, names[..i]), file, ValuesProper(names[..i]))
      {
        ghost var s, here := Now(), Here();
        ScopeKept(old(Now()), s, parent, file, open);
        BuildEnumValue(names[i], enum, parent, open);
        ScopeKept(s, Now(), parent, file, open);
        ValueStep(start, here, Here(), file, scope, names, i);
      }
      assert names[..|names|] == names;
    }

    method BuildEnum(proto: EnumProto, parent: Parent, ghost open: set<nat>)
      requires Going() && Clean(open, None) && Declares(parent, open)
      requires parent.DescriptorScope? ==> Now().allocations[parent.block].kind != SERVICE
      modifies pool.tables, `hadErrors
      ensures Going() && Clean(open, None) && Kept(old(Now()), Now()) && Declares(parent, open)
      ensures old(hadErrors) ==> hadErrors
      ensures Entered(old(Here()), Here(), OfEnum(old(ScopeText(parent)), proto), file, EnumProper(proto))
    {
      hide Building, Consistent, Valid, Shaped, IndexSound, ScopeDeclared, Entered, OfValues, ValuesProper,
        IsIdentifier;
      ghost var a, scope := Here(), ScopeText(parent);
      var block, key := OpenScope(ENUM, parent, proto.name, [], open);
      if proto.values == [] { hadErrors := true; }
      ghost var b := Here();
      BuildEnumValues(proto.values, block, parent, open + {block});
      ghost var c := Here();
      CloseScope(b.store, block, key, open);
      EnumEntered(a, b, c, Here(), file, scope, proto);
    }

    method BuildFields(protos: seq<FieldProto>, isExtension: bool, parent: Parent, ghost open: set<nat>)
      requires Going() && Clean(open, None) && Declares(parent, open)
      requires parent.DescriptorScope? ==> Now().allocations[parent.block].kind != SERVICE
      modifies pool.tables, `hadErrors
      ensures Going() && Clean(open, None) && Kept(old(Now()), Now()) && Declares(parent, open)
      ensures old(hadErrors) ==> hadErrors
      ensures Entered(old(Here()), Here(), OfFields(old(ScopeText(parent)), protos), file,
                      FieldsProper(protos, isExtension))
    {
      hide Building, Consistent, ScopeDeclared, Entered, OfFields, FieldsProper, FieldProper;
      ghost var scope, start := ScopeText(parent), Here();
      NoneEntered(start, file, scope);
      assert protos[..0] == [];
      for i := 0 to |protos|
        invariant Going() && Clean(open, None) && Kept(old(Now()), Now()) && (old(hadErrors) ==> hadErrors)
        invariant Declares(parent, open) && ScopeText(parent) == scope
        invariant Entered(start, Here(), OfFields(scope, protos[..i]), file, FieldsProper(protos[..i], isExtension))
      {
        ghost var s, here := Now(), Here();
        BuildField(protos[i], isExtension, parent, open);
        ScopeKept(s, Now(), parent, file, open);
        FieldStep(start, here, Here(), file, scope, protos, isExtension, i);
      }
      assert protos[..|protos|] == protos;
    }

    method BuildEnums(protos: seq<EnumProto>, parent: Parent, ghost open: set<nat>)
      requires Going() && Clean(open, None) && Declares(parent, open)
      requires parent.DescriptorScope? ==> Now().allocations[parent.block].kind != SERVICE
      modifies pool.tables, `hadErrors
      ensures Going() && Clean(open, None) && Kept(old(Now()), Now()) && Declares(parent, open)
      ensures old(hadErrors) ==> hadErrors
      ensures Entered(old(Here()), Here(), OfEnums(old(ScopeText(parent)), protos), file, EnumsProper(protos))
    {
      hide Building, Consistent, ScopeDeclared, Entered, OfEnums, EnumsProper;
      ghost var scope, start := ScopeText(parent), Here();
      NoneEntered(start, file, scope);
      assert protos[..0] == [];
      for i := 0 to |protos|
        invariant Going() && Clean(open, None) && Kept(old(Now()), Now()) && (old(hadErrors) ==> hadErrors)
        invariant Declares(parent, open) && ScopeText(parent) == scope
        invariant Entered(start, Here(), OfEnums(scope, protos[..i]), file, EnumsProper(protos[..i]))
      {
        ghost var s, here := Now(), Here();
        BuildEnum(protos[i], parent, open);
        EnumStep(start, here, Here(), file, scope, protos, i);
      }
      assert protos[..|protos|] == protos;
    }

    method BuildMessages(protos: seq<MessageProto>, parent: Parent, ghost open: set<nat>)
      requires Going() && Clean(open, None) && Declares(parent, open)
      requires parent.DescriptorScope? ==> Now().allocations[parent.block].kind != SERVICE
      modifies pool.tables, `hadErrors
      ensures Going() && Clean(open, None) && Kept(old(Now()), Now()) && Declares(parent, open)
      ensures old(hadErrors) ==> hadErrors
      ensures Entered(old(Here()), Here(), OfMessages(old(ScopeText(parent)), protos), file, MessagesProper(protos))
      decreases protos, 0
    {
      hide Building, Consistent, ScopeDeclared, Entered, OfMessages, MessagesProper;
      ghost var scope, start := ScopeText(parent), Here();
      NoneEntered(start, file, scope);
      assert protos[..0] == [];
      for i := 0 to |protos|
        invariant Going() && Clean(open, None) && Kept(old(Now()), Now()) && (old(hadErrors) ==> hadErrors)
        invariant Declares(parent, open) && ScopeText(parent) == scope
        invariant Entered(start, Here(), OfMessages(scope, protos[..i]), file, MessagesProper(protos[..i]))
      {
        ghost var s, here := Now(), Here();
        BuildMessage(protos[i], parent, open);
        MessageStep(start, here, Here(), file, scope, protos, i);
      }
      assert protos[..|protos|] == protos;
    }

    method BuildMessage(proto: MessageProto, parent: Parent, ghost open: set<nat>)
      requires Going() && Clean(open, None) && Declares(parent, open)
      requires parent.DescriptorScope? ==> Now().allocations[parent.block].kind != SERVICE
      modifies pool.tables, `hadErrors
      ensures Going() && Clean(open, None) && Kept(old(Now()), Now()) && Declares(parent, open)
      ensures old(hadErrors) ==> hadErrors
      ensures Entered(old(Here()), Here(), OfMessage(old(ScopeText(parent)), proto), file, MessageProper(proto))
      decreases proto, 2
    {
      hide Building, Consistent, ScopeDeclared, Entered, OfParts, PartsProper, OfMessage, MessageProper, IsIdentifier;
      ghost var a, outer := Here(), ScopeText(parent);
      var block, key := OpenScope(MESSAGE, parent, proto.name, proto.ranges, open);
      ghost var b := Here();
      BuildParts(proto, block, open + {block});
      ghost var c := Here();
      CloseScope(b.store, block, key, open);
      ghost var d := Here();
      CheckRangesApart(proto.fields, proto.ranges);
      MessageEntered(a, b, c, d, Here(), file, outer, proto);
    }

    /** The declarations inside the message at `block`. */
    method BuildParts(proto: MessageProto, block: nat, ghost open: set<nat>)
      requires Going() && Clean(open, None) && Declares(DescriptorScope(block), open)
      requires Now().allocations[block].kind == MESSAGE
      modifies pool.tables, `hadErrors
      ensures Going() && Clean(open, None) && Kept(old(Now()), Now())
      ensures old(hadErrors) ==> hadErrors
      ensures Entered(old(Here()), Here(), OfParts(old(Now().allocations[block].fullName), proto), file,
                      PartsProper(proto))
      decreases proto, 1
    {
      hide Building, Consistent, ScopeDeclared, Entered, OfFields, FieldsProper, OfEnums, EnumsProper, OfMessages,
        MessagesProper, RangesProper, OfParts, PartsProper;
      ghost var a := Here();
      var scope := DescriptorScope(block);
      ghost var name := ScopeText(scope);
      BuildFields(proto.fields, false, scope, open);
      ghost var b := Here();
      BuildMessages(proto.nested, scope, open);
      ghost var c := Here();
      BuildEnums(proto.enums, scope, open);
      ghost var d := Here();
      BuildExtensionRanges(proto.ranges);
      ghost var e := Here();
      BuildFields(proto.extensions, true, scope, open);
      PartsEntered(a, b, c, d, e, Here(), file, name, proto);
    }

    method BuildExtensionRanges(ranges: seq<RangeProto>)
      modifies `hadErrors
      ensures hadErrors <==> old(hadErrors) || !RangesProper(ranges)
    {
      for i := 0 to |ranges|
        invariant hadErrors <==> old(hadErrors) || !RangesProper(ranges[..i])
      {
        assert ranges[..i + 1] == ranges[..i] + [ranges[i]];
        if ranges[i].start <= 0 { hadErrors := true; }
        if ranges[i].start >= ranges[i].end { hadErrors := true; }
      }
      assert ranges[..|ranges|] == ranges;
    }

    method CheckRangesApart(fields: seq<FieldProto>, ranges: seq<RangeProto>)
      modifies `hadErrors
      ensures hadErrors <==> old(hadErrors) || !RangesApart(fields, ranges)
    {
      hide InRange, Overlap;
      for i := 0 to |fields|
        invariant hadErrors <==> old(hadErrors) ||
                                 exists k, j :: 0 <= k < i && 0 <= j < |ranges| && InRange(fields[k].number, ranges[j])
      {
        ghost var before := hadErrors;
        for j := 0 to |ranges|
          invariant hadErrors <==> before || exists k :: 0 <= k < j && InRange(fields[i].number, ranges[k])
        {
          if InRange(fields[i].number, ranges[j]) { hadErrors := true; }
        }
      }
      ghost var middle := hadErrors;
      for i := 0 to |ranges|
        invariant hadErrors <==>
          middle || exists k, j :: 0 <= k < i && k < j < |ranges| && Overlap(ranges[k], ranges[j])
      {
        ghost var before := hadErrors;
        for j := i + 1 to |ranges|
          invariant hadErrors <==> before || exists k :: i < k < j && Overlap(ranges[i], ranges[k])
        {
          if Overlap(ranges[i], ranges[j]) { hadErrors := true; }
        }
      }
    }

    method BuildMethods(protos: seq<MethodProto>, parent: Parent, ghost open: set<nat>)
      requires Going() && Clean(open, None) && Declares(parent, open)
      requires parent.DescriptorScope? && Now().allocations[parent.block].kind == SERVICE
      modifies pool.tables, `hadErrors
      ensures Going() && Clean(open, None) && Kept(old(Now()), Now()) && Declares(parent, open)
      ensures old(hadErrors) ==> hadErrors
      ensures Entered(old(Here()), Here(), OfMethods(old(ScopeText(parent)), protos), file, MethodsProper(protos))
    {
      hide Building, Consistent, ScopeDeclared, Entered, OfMethods, MethodsProper, IsIdentifier;
      ghost var scope, start := ScopeText(parent), Here();
      NoneEntered(start, file, scope);
      assert protos[..0] == [];
      for i := 0 to |protos|
        invariant Going() && Clean(open, None) && Kept(old(Now()), Now()) && (old(hadErrors) ==> hadErrors)
        invariant Declares(parent, open) && ScopeText(parent) == scope
        invariant Entered(start, Here(), OfMethods(scope, protos[..i]), file, MethodsProper(protos[..i]))
      {
        ghost var s, here := Now(), Here();
        var _, _ := Enter(METHOD, parent, protos[i].name, ScopeName(parent, protos[i].name), open);
        ScopeKept(s, Now(), parent, file, open);
        MethodStep(start, here, Here(), file, scope, protos, i);
      }
      assert protos[..|protos|] == protos;
    }

    method BuildService(proto: ServiceProto, parent: Parent, ghost open: set<nat>)
      requires Going() && Clean(open, None) && Declares(parent, open) && parent.FileScope?
      modifies pool.tables, `hadErrors
      ensures Going() && Clean(open, None) && Kept(old(Now()), Now()) && Declares(parent, open)
      ensures old(hadErrors) ==> hadErrors
      ensures Entered(old(Here()), Here(), OfService(old(ScopeText(parent)), proto), file, ServiceProper(proto))
    {
      hide Building, Consistent, ScopeDeclared, Entered, OfMethods, MethodsProper, IsIdentifier, OfService,
        ServiceProper;
      ghost var a, scope := Here(), ScopeText(parent);
      var block, key := OpenScope(SERVICE, parent, proto.name, [], open);
      ghost var b := Here();
      BuildMethods(proto.methods, DescriptorScope(block), open + {block});
      ghost var c := Here();
      CloseScope(b.store, block, key, open);
      ServiceEntered(a, b, c, Here(), file, scope, proto);
    }

    method BuildServices(protos: seq<ServiceProto>, parent: Parent, ghost open: set<nat>)
      requires Going() && Clean(open, None) && Declares(parent, open) && parent.FileScope?
      modifies pool.tables, `hadErrors
      ensures Going() && Clean(open, None) && Kept(old(Now()), Now()) && Declares(parent, open)
      ensures old(hadErrors) ==> hadErrors
      ensures Entered(old(Here()), Here(), OfServices(old(ScopeText(parent)), protos), file, ServicesProper(protos))
    {
      hide Building, Consistent, ScopeDeclared, Entered, OfServices, ServicesProper, OfService, ServiceProper;
      ghost var scope, start := ScopeText(parent), Here();
      NoneEntered(start, file, scope);
      assert protos[..0] == [];
      for i := 0 to |protos|
        invariant Going() && Clean(open, None) && Kept(old(Now()), Now()) && (old(hadErrors) ==> hadErrors)
        invariant Declares(parent, open) && ScopeText(parent) == scope
        invariant Entered(start, Here(), OfServices(scope, protos[..i]), file, ServicesProper(protos[..i]))
      {
        ghost var s, here := Now(), Here();
        BuildService(protos[i], parent, open);
        ServiceStep(start, here, Here(), file, scope, protos, i);
      }
      assert protos[..|protos|] == protos;
    }

    /** Start a message, service or enum: allocate it, and let it take declarations. */
    method OpenScope(kind: Kind, parent: Parent, name: string, ranges: seq<RangeProto>, ghost open: set<nat>)
      returns (block: nat, key: nat)
      requires Going() && Clean(open, None) && Declares(parent, open)
      requires kind == MESSAGE || kind == SERVICE || kind == ENUM
      modifies pool.tables, `hadErrors
      ensures Going() && Clean(open + {block}, None) && Kept(old(Now()), Now())
      ensures kind != ENUM ==> Declares(DescriptorScope(block), open + {block})
      ensures Declares(parent, open + {block})
      ensures Opened(Now(), block, key, parent, kind, open) && Now().allocations[block].name == name
      ensures Now().allocations[block].ranges == ranges
      ensures Now().symbols == old(Now()).symbols && (hadErrors <==> old(hadErrors) || !IsIdentifier(name))
    {
      hide Building, Consistent, Valid, Shaped, IndexSound;
      ghost var s := Now();
      block, key := NewDescriptor(kind, parent, name, ScopeName(parent, name), ranges, open);
      ScopeKept(s, Now(), parent, file, open);
      if !hadErrors && good { OpenMore(Now(), open, open + {block}); }
    }

    /** What is known of a message, service or enum when its children are about to be
        built in store `t`. */
    ghost predicate Opened(t: Store, block: nat, key: nat, parent: Parent, kind: Kind, open: set<nat>)
      reads this
    {
      && ParentSound(t, parent) && parent != DescriptorScope(block)
      && (parent.DescriptorScope? ==> t.allocations[parent.block].kind != ENUM)
      && (!hadErrors ==> ScopeDeclared(t, parent, file, open))
      && IsDescriptor(t, block) && kind != PACKAGE
      && t.allocations[block].kind == kind && t.allocations[block].file == file && t.allocations[block].parent == parent
      && t.allocations[block].fullName == FullName(t, parent, t.allocations[block].name)
      && key < |t.strings| && t.strings[key] == t.allocations[block].fullName
      && (!IsIdentifier(t.allocations[block].name) ==> hadErrors)
    }

    /** What the descriptor at `block` declares. */
    function DeclarationAt(t: Store, block: nat): Declaration
      requires block < |t.allocations| && t.allocations[block].DescriptorBlock?
    {
      Declaration(t.allocations[block].fullName, t.allocations[block].kind, t.allocations[block].ranges)
    }

    /** The children are built: enter the declaration itself. */
    method CloseScope(ghost t: Store, block: nat, key: nat, ghost open: set<nat>)
      requires Going() && Clean(open + {block}, None) && Kept(t, Now())
      requires IsDescriptor(t, block)
      requires Opened(t, block, key, t.allocations[block].parent, t.allocations[block].kind, open)
      modifies pool.tables, `hadErrors
      ensures Kept(old(Now()), Now())
      ensures Going() && Clean(open, None) && Kept(t, Now()) && Declares(t.allocations[block].parent, open)
      ensures old(hadErrors) ==> hadErrors
      ensures Entered(old(Here()), Here(), [DeclarationAt(t, block)],
                      file, true)
    {
      hide Building, Consistent, Valid, Shaped, IndexSound, Entered;
      ghost var parent := t.allocations[block].parent;
      ScopeKept(t, Now(), parent, file, open);
      BuildingFacts(base, Now(), file);
      ghost var u, here := Now(), Here();
      var _ := AddSymbol(key, Symbol(pool.tables.allocations[block].kind, block, file), open + {block});
      EnteredOne(here, Here(), DeclarationAt(t, block), file, true);
      ScopeKept(u, Now(), parent, file, open);
      if !hadErrors && good { OpenMore(Now(), open + {block} - {block}, open); }
    }

    /** Enter a package and, if it is new, its dotted parents. */
    method AddPackage(key: nat, name: string)
      requires Going() && Clean({}, Some(name))
      requires key < |Now().strings| && Now().strings[key] == name
      modifies pool.tables, `hadErrors
      ensures Going() && Clean({}, None) && Kept(old(Now()), Now()) && Now().allocations == old(Now().allocations)
      ensures hadErrors <==> old(hadErrors) || !PackageFits(old(Now()), name)
      ensures PackagesEntered(old(Now()), Now(), name, file)
      ensures !hadErrors ==> IsPackage(Now(), name)
      decreases |name|, 1
    {
      hide Building, Consistent, Valid, Shaped, IndexSound, BlocksSound, Sound, ParentFits, PackageFits;
      BuildingFacts(base, Now(), file);
      ghost var s := Now();
      var added := pool.tables.InsertSymbol(key, Symbol(PACKAGE, file, file));
      BuildingPackage(base, s, file, key);
      if added {
        if !hadErrors && good && name != "" { AddPackageConsistent(s, key, file); }
        NewPackageFits(s, Now(), name);
        AddParentPackage(name);
      } else {
        TakenName(s, name);
        if pool.tables.symbols[name].value.kind != PACKAGE { hadErrors := true; }
        if !hadErrors && good { PackageNotMissing(Now(), name); }
      }
    }

    /** After a new package: its parent, if any, and the check of its last component. */
    method AddParentPackage(name: string)
      requires Going() && (name != "" ==> Clean({}, ParentOf(name)))
      modifies pool.tables, `hadErrors
      ensures Going() && Clean({}, None) && Kept(old(Now()), Now()) && Now().allocations == old(Now().allocations)
      ensures hadErrors <==> old(hadErrors) || !ParentFits(old(Now()), name)
      ensures PackagesEntered(old(Now()), Now(), name, file)
      decreases |name|, 0
    {
      hide Building, Consistent, Valid, Shaped, IndexSound, PackageFits;
      var d := LastDot(name);
      if d < 0 {
        assert name[d + 1..] == name;
        CheckIdentifier(name);
      } else {
        var parent := name[..d];
        ghost var s := Now();
        var parentKey := NewString(parent, {}, Some(parent));
        FitsSame(s, Now(), parent, |name|);
        AddPackage(parentKey, parent);
        CheckIdentifier(name[d + 1..]);
      }
    }

    /** Allocate the file and enter it; a name that is not loaded cannot clash. */
    method Begin(proto: FileProto)
      requires Sound(pool.tables.State()) && proto.name !in pool.tables.files
      modifies this, pool.tables
      ensures base == AddCheckpoint(old(pool.tables.State())) && file == old(|pool.tables.allocations|)
      ensures Now() == Begun(old(pool.tables.State()), proto.name, proto.package)
      ensures good <==> Committed(old(pool.tables.State()))
      ensures Going() && Clean({}, None) && hadErrors == old(hadErrors) && dependencies == old(dependencies)
      ensures numbers == old(numbers)
    {
      hide Building, Valid, Shaped, Consistent;
      ghost var s := Now();
      good := Committed(s);
      BeginBuilding(s, proto.name, proto.package);
      pool.tables.PushCheckpoint();
      base := Now();
      file := EnterFile(proto);
    }

    method EnterFile(proto: FileProto) returns (f: nat)
      requires Valid(Now()) && proto.name !in pool.tables.files
      modifies pool.tables
      ensures Valid(Now())
      ensures var t := NewFile(old(Now()), proto.name, proto.package);
        Now() == AddFile(t.(strings := t.strings + [proto.name] + [proto.package]), |t.strings|,
                         |old(Now()).allocations|)
      ensures f == |old(Now()).allocations|
    {
      hide Valid;
      ghost var s := Now();
      f := pool.tables.Allocate(FileBlock(proto.name, proto.package, |pool.tables.fileTables|, [], []));
      var _ := pool.tables.AllocateFileTables();
      assert Now() == NewFile(s, proto.name, proto.package);
      var key := pool.tables.AllocateString(proto.name);
      var _ := pool.tables.AllocateString(proto.package);
      var added := pool.tables.InsertFile(key, f);
      assert added;
    }

    /** Look up the imports, check the positions of the public and weak ones, and
        collect the files whose symbols this file may use. */
    method LinkImports(proto: FileProto)
      requires Going() && Clean({}, None) && |Now().allocations| == file + 1
      modifies pool.tables`allocations, `hadErrors, `dependencies
      ensures Going() && Clean({}, None)
      ensures hadErrors <==> old(hadErrors) || !ImportsFit(Now().files.Keys, proto)
      ensures Now().symbols == old(Now()).symbols && Now().files == old(Now()).files
      ensures Now().checkpoints == old(Now()).checkpoints && Now().strings == old(Now()).strings
      ensures IsFile(Now(), file)
      ensures Now().allocations[file].package == old(Now().allocations[file].package)
      ensures !hadErrors ==> ImportsAre(Now(), proto, file)
      ensures Now().allocations[file].name == old(Now().allocations[file].name)
      ensures BlocksSound(Now()) && VisibleFiles() && DependenciesAreFiles()
    {
      hide Building, Consistent, Valid, IndexSound, BlocksSound, DescriptorsSound;
      BuildingFacts(base, Now(), file);
      var deps := FindImports(proto.dependencies);
      var publicDeps := ValidPositions(proto.publicDependencies, |deps|);
      if |publicDeps| < |proto.publicDependencies| { hadErrors := true; }
      FillImports(deps, publicDeps);
      CollectDependencies(deps);
      var weakDeps := ValidPositions(proto.weakDependencies, |deps|);
      if |weakDeps| < |proto.weakDependencies| { hadErrors := true; }
    }

    /** The loaded file of each import; a missing or repeated import is an error. */
    method FindImports(names: seq<string>) returns (deps: seq<Option<nat>>)
      modifies `hadErrors
      ensures hadErrors <==> old(hadErrors) || !AllLoaded(Now().files.Keys, names)
      ensures |deps| == |names|
      ensures forall i :: 0 <= i < |names| ==>
        deps[i] == if names[i] in Now().files then Some(Now().files[names[i]].value) else None
    {
      deps := [];
      for i := 0 to |names|
        invariant |deps| == i
        invariant forall k :: 0 <= k < i ==>
          deps[k] == if names[k] in Now().files then Some(Now().files[names[k]].value) else None
        invariant hadErrors <==> old(hadErrors) || !AllLoaded(Now().files.Keys, names[..i])
      {
        assert forall k :: 0 <= k <= i ==>
          names[..i + 1][..k] == names[..k] && (k < i ==> names[..i][..k] == names[..k]);
        if names[i] in names[..i] { hadErrors := true; }
        if names[i] in pool.tables.files {
          deps := deps + [Some(pool.tables.files[names[i]].value)];
        } else {
          hadErrors := true;
          deps := deps + [None];
        }
      }
    }

    method ValidPositions(positions: seq<int>, count: nat) returns (valid: seq<nat>)
      ensures |valid| <= |positions|
      ensures forall i :: 0 <= i < |valid| ==> valid[i] < count && valid[i] in positions
      ensures |valid| == |positions| <==> forall i :: 0 <= i < |positions| ==> 0 <= positions[i] < count
      ensures |valid| == |positions| ==> valid == positions
    {
      valid := [];
      for i := 0 to |positions|
        invariant |valid| <= i
        invariant forall k :: 0 <= k < |valid| ==> valid[k] < count && valid[k] in positions
        invariant |valid| == i <==> forall k :: 0 <= k < i ==> 0 <= positions[k] < count
        invariant |valid| == i ==> valid == positions[..i]
      {
        if 0 <= positions[i] < count { valid := valid + [positions[i]]; }
      }
    }

    method FillImports(deps: seq<Option<nat>>, publicDeps: seq<nat>)
      requires Going() && Clean({}, None) && ImportsSound(Now(), file, deps, publicDeps)
      requires !hadErrors ==> forall i :: 0 <= i < |deps| ==> deps[i].Some? && Loaded(Now(), deps[i].value)
      modifies pool.tables`allocations
      ensures IsFile(old(Now()), file) && Now() == WithImports(old(Now()), file, deps, publicDeps)
      ensures Going() && Clean({}, None) && Shaped(Now())
    {
      hide Building, Consistent, Valid, Shaped, IndexSound, BlocksSound, Loaded;
      BuildingFacts(base, Now(), file);
      ghost var s := Now();
      BuildingImports(base, s, file, deps, publicDeps);
      var block := pool.tables.allocations[file];
      pool.tables.WriteBlock(file, block.(dependencies := deps, publicDependencies := publicDeps));
      assert Now() == WithImports(s, file, deps, publicDeps);
      if !hadErrors && good { WithImportsConsistent(s, file, deps, publicDeps); }
    }

    /** The files that the imports of this file reach through public imports. */
    ghost predicate VisibleFiles()
      reads this, pool.tables
      requires BlocksSound(Now()) && IsFile(Now(), file)
    {
      VisibleFrom(Now(), file, dependencies)
    }

    method CollectDependencies(deps: seq<Option<nat>>)
      requires BlocksSound(Now()) && IsFile(Now(), file) && Now().allocations[file].dependencies == deps
      modifies `dependencies
      ensures VisibleFiles() && DependenciesAreFiles()
    {
      hide BlocksSound, Reaches, Closed, AllReached, ReachedFrom;
      ghost var s := Now();
      dependencies := {};
      NothingReached(s);
      assert Files(deps[..0]) == {};
      for i := 0 to |deps|
        invariant Files(deps[..i]) <= dependencies && Closed(s, {}, dependencies)
        invariant AllReached(s, Files(deps[..i]), dependencies)
        invariant forall g :: g in dependencies ==> IsFile(s, g)
      {
        ghost var before := dependencies;
        DependencyIsFile(s, file, i);
        RecordPublicDependencies(deps[i]);
        ClosedMore(s, {}, before, dependencies);
        FilesNext(deps, i);
        if deps[i].Some? {
          AllReachedMore(s, Files(deps[..i]), before, dependencies, deps[i].value);
        } else {
          assert dependencies == before;
        }
      }
      assert deps[..|deps|] == deps;
      ClosureIsReachable(s, dependencies, Files(deps));
    }

    /** Depth first through public imports, stopping at files already recorded. */
    method RecordPublicDependencies(dep: Option<nat>)
      requires BlocksSound(Now()) && (dep.Some? ==> IsFile(Now(), dep.value))
      requires forall g :: g in dependencies ==> IsFile(Now(), g)
      modifies `dependencies
      ensures old(dependencies) <= dependencies && (dep.Some? ==> dep.value in dependencies)
      ensures forall g :: g in dependencies ==> IsFile(Now(), g)
      ensures Closed(Now(), old(dependencies), dependencies)
      ensures forall g :: g in dependencies ==> g in old(dependencies) || (dep.Some? && Reaches(Now(), dep.value, g))
      decreases |Unvisited(Now(), dependencies)|, 0
    {
      hide BlocksSound, Reaches;
      if dep.None? || dep.value in dependencies { return; }
      ghost var before := dependencies;
      UnvisitedLess(Now(), dependencies, dep.value);
      dependencies := dependencies + {dep.value};
      RecordPublicImports(dep.value);
      ReachesSelf(Now(), dep.value);
    }

    method RecordPublicImports(f: nat)
      requires BlocksSound(Now()) && IsFile(Now(), f)
      requires forall g :: g in dependencies ==> IsFile(Now(), g)
      modifies `dependencies
      ensures old(dependencies) <= dependencies
      ensures forall g :: g in dependencies ==> IsFile(Now(), g)
      ensures Closed(Now(), old(dependencies), dependencies) && Closed(Now(), dependencies - {f}, dependencies)
      ensures forall g :: g in dependencies ==> g in old(dependencies) || Reaches(Now(), f, g)
      decreases |Unvisited(Now(), dependencies)|, 1
    {
      hide BlocksSound, Reaches;
      ghost var s, start := Now(), dependencies;
      for i := 0 to |pool.tables.allocations[f].publicDependencies|
        invariant start <= dependencies && (forall g :: g in dependencies ==> IsFile(s, g))
        invariant Closed(s, start, dependencies)
        invariant forall k :: 0 <= k < i && PublicImport(s, f, k).Some? ==> PublicImport(s, f, k).value in dependencies
        invariant forall g :: g in dependencies ==> g in start || Reaches(s, f, g)
      {
        ghost var before := dependencies;
        UnvisitedShrinks(s, start, before);
        PublicImportIsFile(s, f, i);
        var next := pool.tables.allocations[f].dependencies[pool.tables.allocations[f].publicDependencies[i]];
        RecordPublicDependencies(next);
        ClosedMore(s, start, before, dependencies);
        forall g | g in dependencies && g !in before ensures Reaches(s, f, g) {
          ReachesFrom(s, f, next.value, g);
        }
      }
    }

    ghost predicate DependenciesAreFiles()
      reads this, pool.tables
    {
      forall g :: g in dependencies ==> IsFile(Now(), g)
    }

    // ----------------------------------------------------------------
    // Looking up symbols, which may load files

    /** What may be used while references are resolved. */
    ghost predicate Linking()
      reads this, pool, pool.tables
    {
      && pool.Ready() && DependenciesAreFiles() && IsFile(Now(), file)
    }

    method FindSymbolNotEnforcingDeps(name: string) returns (r: Option<Symbol>)
      requires pool.Ready()
      modifies pool, pool.tables
      ensures pool.RanFrom(old(Now()), old(pool.Doing()))
      ensures r == if name in old(Now()).symbols || OwnerLoaded(pool.database, old(Now()), Now(), name)
                   then Find(Now(), name) else None
      decreases |pool.Unloaded()|, 3
    {
      hide Loads, Fine, Follows, Faithful;
      RanReflexive(pool.database, Now(), pool.Doing());
      r := Find(pool.tables.State(), name);
      if r.None? {
        var found := pool.TryFindSymbolInFallbackDatabase(name);
        if found {
          r := Find(pool.tables.State(), name);
        }
      }
    }

    lemma LinkingKept(s: Store)
      requires FilesIn(s) && pool.Ready() && Loads(s, Now(), pool.pending)
      ensures Linking()
    {
    }

    method FindSymbol(name: string) returns (r: Option<Symbol>)
      requires Linking()
      modifies pool, pool.tables
      ensures pool.RanFrom(old(Now()), old(pool.Doing())) && Linking()
      ensures Steady(old(Now()), file, dependencies) ==> r == Visible(old(Now()), file, dependencies, name)
      ensures r.Some? ==> r == Visible(Now(), file, dependencies, name) && IsDeclared(Now(), r.value)
      decreases |pool.Unloaded()|, 4
    {
      hide Left, Faithful, Loads, Valid, Shaped, Coherent, Steady, OwnerLoaded, Fine, Follows;
      ghost var s, before := Now(), pool.pending;
      r := FindSymbolNotEnforcingDeps(name);
      LinkingKept(s);
      if r.Some? && !Sees(pool.tables.State(), file, dependencies, name, r.value) {
        r := None;
      }
      LoadsMonotone(s, Now(), before);
      if Steady(s, file, dependencies) { VisibleStays(s, Now(), file, dependencies, before, name); }
      VisibleDeclared(Now(), file, dependencies, name);
    }

    /** FindSymbol, seen from an earlier store `s` since which only loads happened: what
        the file sees is what it saw then. */
    method Look(name: string, ghost s: Store, ghost before: Reading) returns (r: Option<Symbol>)
      requires Linking() && pool.RanFrom(s, before) && FilesIn(s)
      modifies pool, pool.tables
      ensures Linking() && pool.RanFrom(s, before) && Loads(old(Now()), Now(), before.pending)
      ensures r.Some? ==> IsDeclared(Now(), r.value)
      ensures Steady(s, file, dependencies) && r.Some? ==> IsDeclared(s, r.value)
      ensures Steady(s, file, dependencies) ==> r == Visible(s, file, dependencies, name)
      decreases |Left(pool.database.files.Keys, s, before.pending)|, 5
    {
      hide Left, Coherent, Sound, Visible, Steady, Fine, Follows, Faithful, Loads;
      ghost var t, mid := Now(), pool.knownBad;
      pool.UnloadedShrinks(s, t);
      r := FindSymbol(name);
      RanTransitive(pool.database, s, before, t, mid, Now(), pool.knownBad);
      if Steady(s, file, dependencies) {
        SteadyStays(s, t, file, dependencies, before.pending);
        VisibleStays(s, t, file, dependencies, before.pending, name);
        SteadyShaped(s);
        VisibleDeclared(s, file, dependencies, name);
      }
    }

    lemma SteadyShaped(s: Store)
      requires Steady(s, file, dependencies)
      ensures Shaped(s)
    {
    }

    ghost predicate FilesIn(s: Store)
      reads this
    {
      IsFile(s, file) && forall g :: g in dependencies ==> IsFile(s, g)
    }

    /** The string-chopping loop, seen from an earlier store `s` since which only loads
        happened: whatever it loads itself, its result is the one the scoping rule gives
        for what the file saw in `s`. */
    method LookupSymbol(name: string, relativeTo: string, mode: ResolveMode, ghost s: Store, ghost before: Reading)
      returns (r: Option<Symbol>)
      requires Linking() && pool.RanFrom(s, before) && FilesIn(s)
      modifies pool, pool.tables
      ensures Linking() && pool.RanFrom(s, before) && Loads(old(Now()), Now(), before.pending)
      ensures r.Some? ==> IsDeclared(Now(), r.value)
      ensures Steady(s, file, dependencies) && r.Some? ==> IsDeclared(s, r.value)
      ensures Steady(s, file, dependencies) ==>
        Resolves(View(s, file, dependencies), name, relativeTo, mode, Meaning(s, r))
      decreases |Left(pool.database.files.Keys, s, before.pending)|, 7
    {
      hide Left, Faithful, Loads, Sound, Coherent, Visible, NoneBeyond, Resolves, Steady, Fine, Follows, Meant, Ran,
        Building;
      ghost var start := Now();
      LoadsReflexive(start, before.pending);
      if name != "" && name[0] == '.' {
        r := LookQualified(name, relativeTo, mode, s, before);
        return;
      }
      ghost var find := View(s, file, dependencies);
      var first := FirstPart(name);
      var scope := relativeTo;
      NothingBeyond(find, name, relativeTo, mode);
      while true
        invariant Linking() && pool.RanFrom(s, before) && FilesIn(s) && Loads(start, Now(), before.pending)
        invariant scope <= relativeTo
        invariant Steady(s, file, dependencies) ==> NoneBeyond(find, name, relativeTo, mode, |scope|)
        decreases |scope|
      {
        var d := LastDot(scope);
        assert relativeTo[..|scope|] == scope;
        if Steady(s, file, dependencies) { BeyondLastDot(find, name, relativeTo, mode, |scope|); }
        ghost var here := Now();
        if d < 0 {
          r := LookBare(name, relativeTo, mode, s, before);
          LoadsTransitive(start, here, Now(), before.pending);
          return;
        }
        scope := scope[..d];
        assert relativeTo[..d] == scope && IsScopeEnd(relativeTo, d);
        r := Look(scope + "." + first, s, before);
        LoadsTransitive(start, here, Now(), before.pending);
        MeaningKind(s, r);
        if r.Some? && Settles(r.value.kind, |first| < |name|, mode) {
          ghost var again := Now();
          r := LookInside(name, first, scope, r, relativeTo, mode, s, before);
          LoadsTransitive(start, again, Now(), before.pending);
          return;
        }
        if Steady(s, file, dependencies) { BeyondOneMore(find, name, relativeTo, mode, d); }
      }
    }

    lemma MeaningKind(s: Store, r: Option<Symbol>)
      ensures r.Some? <==> Meaning(s, r).Some?
      ensures r.Some? ==> Meaning(s, r).value.kind == r.value.kind
    {
    }

    /** The lookup of a name that no scope claims. */
    method LookBare(name: string, ghost relativeTo: string, ghost mode: ResolveMode, ghost s: Store,
                    ghost before: Reading)
      returns (r: Option<Symbol>)
      requires name == "" || name[0] != '.'
      requires Linking() && pool.RanFrom(s, before) && FilesIn(s)
      requires Steady(s, file, dependencies) ==> NoneBeyond(View(s, file, dependencies), name, relativeTo, mode, 0)
      modifies pool, pool.tables
      ensures Linking() && pool.RanFrom(s, before) && Loads(old(Now()), Now(), before.pending)
      ensures r.Some? ==> IsDeclared(Now(), r.value)
      ensures Steady(s, file, dependencies) && r.Some? ==> IsDeclared(s, r.value)
      ensures Steady(s, file, dependencies) ==>
        Resolves(View(s, file, dependencies), name, relativeTo, mode, Meaning(s, r))
      decreases |Left(pool.database.files.Keys, s, before.pending)|, 6
    {
      hide Left, Faithful, Loads, Sound, Coherent, Visible, NoneBeyond, Resolves, Steady, Fine, Follows, Meant;
      r := Look(name, s, before);
      if Steady(s, file, dependencies) {
        NoScopeResolves(View(s, file, dependencies), name, relativeTo, mode, Meaning(s, r));
      }
    }

    /** The lookup of the rest of a name in the scope where its first part was found. */
    method LookInside(name: string, first: string, scope: string, found: Option<Symbol>,
                      ghost relativeTo: string, ghost mode: ResolveMode, ghost s: Store, ghost before: Reading)
      returns (r: Option<Symbol>)
      requires (name == "" || name[0] != '.') && first == FirstPart(name)
      requires found.Some? && Settles(found.value.kind, |first| < |name|, mode) && IsDeclared(Now(), found.value)
      requires scope <= relativeTo && IsScopeEnd(relativeTo, |scope|)
      requires Linking() && pool.RanFrom(s, before) && FilesIn(s)
      requires Steady(s, file, dependencies) ==>
        && Meaning(s, found) == View(s, file, dependencies)(scope + "." + first) && IsDeclared(s, found.value)
        && NoneBeyond(View(s, file, dependencies), name, relativeTo, mode, |scope| + 1)
      modifies pool, pool.tables
      ensures Linking() && pool.RanFrom(s, before) && Loads(old(Now()), Now(), before.pending)
      ensures r.Some? ==> IsDeclared(Now(), r.value)
      ensures Steady(s, file, dependencies) && r.Some? ==> IsDeclared(s, r.value)
      ensures Steady(s, file, dependencies) ==>
        Resolves(View(s, file, dependencies), name, relativeTo, mode, Meaning(s, r))
      decreases |Left(pool.database.files.Keys, s, before.pending)|, 6
    {
      hide Left, Faithful, Loads, Sound, Coherent, Visible, NoneBeyond, Resolves, Steady, Fine, Follows, Meant;
      ghost var find := View(s, file, dependencies);
      assert relativeTo[..|scope|] == scope;
      MeaningKind(s, found);
      assert Steady(s, file, dependencies) ==> CommitsAt(find, name, relativeTo, mode, |scope|);
      r := found;
      LoadsReflexive(Now(), before.pending);
      if |first| < |name| {
        r := Look(scope + "." + name, s, before);
      } else {
        assert first == name;
      }
      if Steady(s, file, dependencies) { InnermostResolves(find, name, relativeTo, mode, |scope|, Meaning(s, r)); }
    }

    /** A name with a leading dot is looked up without it. */
    method LookQualified(name: string, ghost relativeTo: string, ghost mode: ResolveMode, ghost s: Store,
                         ghost before: Reading)
      returns (r: Option<Symbol>)
      requires name != "" && name[0] == '.'
      requires Linking() && pool.RanFrom(s, before) && FilesIn(s)
      modifies pool, pool.tables
      ensures Linking() && pool.RanFrom(s, before) && Loads(old(Now()), Now(), before.pending)
      ensures r.Some? ==> IsDeclared(Now(), r.value)
      ensures Steady(s, file, dependencies) && r.Some? ==> IsDeclared(s, r.value)
      ensures Steady(s, file, dependencies) ==>
        Resolves(View(s, file, dependencies), name, relativeTo, mode, Meaning(s, r))
      decreases |Left(pool.database.files.Keys, s, before.pending)|, 6
    {
      hide Left, Faithful, Loads, Sound, Coherent, Visible, Steady, Fine, Follows, Meant;
      r := Look(name[1..], s, before);
    }

    // ----------------------------------------------------------------
    // Cross-linking

    ghost predicate Live()
      reads this, pool, pool.tables
    {
      Going() && Clean({}, None) && Linking()
    }

    ghost function Progress(): Tally
      reads this
    {
      Tally(numbers, hadErrors)
    }

    /** A lookup on behalf of this build, which goes on afterwards.  In a steady store it gives
        what the name means, and where it is. */
    method Resolve(name: string, relativeTo: string, mode: ResolveMode, ghost s: Store, ghost before: Reading)
      returns (r: Option<Symbol>)
      requires Live() && pool.RanFrom(s, before) && FilesIn(s)
      modifies pool, pool.tables
      ensures Live() && pool.RanFrom(s, before)
      ensures r.Some? ==> IsDeclared(Now(), r.value)
      ensures Steady(s, file, dependencies) ==>
        Meaning(Now(), r) == Resolved(View(s, file, dependencies), name, relativeTo, mode)
      decreases |Left(pool.database.files.Keys, s, before.pending)|, 9
    {
      hide Building, Resolves, View, Sound, Coherent, Steady, Follows, Faithful, Meant, IsDeclared, Resolved;
      ghost var start := Now();
      r := LookupSymbol(name, relativeTo, mode, s, before);
      LoadKeepsBuilding(base, start, Now(), file, pool.pending);
      if Steady(s, file, dependencies) {
        ghost var find := View(s, file, dependencies);
        ResolvesUniquely(find, name, relativeTo, mode, Meaning(s, r), Resolved(find, name, relativeTo, mode));
        if r.Some? { DeclaredStays(s, Now(), r.value); }
      }
    }

    /** A reference that must be to a message; otherwise an error is recorded. */
    method ResolveMessage(name: string, relativeTo: string, ghost s: Store, ghost before: Reading)
      returns (message: Option<Symbol>)
      requires Live() && pool.RanFrom(s, before) && FilesIn(s)
      modifies pool, pool.tables, `hadErrors
      ensures Live() && pool.RanFrom(s, before) && (hadErrors <==> old(hadErrors) || message.None?)
      ensures message.Some? ==> message.value.kind == MESSAGE && IsDescriptor(Now(), message.value.block)
      ensures Steady(s, file, dependencies) ==>
        var found := Resolved(View(s, file, dependencies), name, relativeTo, LookupAll);
        (message.Some? <==> IsMessage(found)) && (message.Some? ==> Meaning(Now(), message) == found)
      decreases |Left(pool.database.files.Keys, s, before.pending)|, 10
    {
      hide Left, Faithful, Building, Consistent, Loads, Sound, Coherent, View, Steady, Fine, Follows, Resolved;
      message := Resolve(name, relativeTo, LookupAll, s, before);
      if message.Some? && message.value.kind != MESSAGE { message := None; }
      if message.None? { hadErrors := true; }
    }

    /** A reference that must be to a type that fits the field; otherwise an error is
        recorded.  The checks of the field go on unless nothing fitting was found. */
    method ResolveType(name: string, relativeTo: string, kind: Option<FieldKind>, ghost s: Store, ghost before: Reading)
      returns (goOn: bool)
      requires Live() && pool.RanFrom(s, before) && FilesIn(s)
      modifies pool, pool.tables, `hadErrors
      ensures Live() && pool.RanFrom(s, before) && (old(hadErrors) || !goOn ==> hadErrors)
      ensures Steady(s, file, dependencies) ==>
        var found := Resolved(View(s, file, dependencies), name, relativeTo, LookupTypes);
        (hadErrors <==> old(hadErrors) || !IsTypeOf(found, kind)) && (!goOn ==> !IsTypeOf(found, kind))
      decreases |Left(pool.database.files.Keys, s, before.pending)|, 10
    {
      hide Left, Faithful, Building, Consistent, Loads, Sound, Coherent, View, Steady, Fine, Follows, Resolved;
      var found := Resolve(name, relativeTo, LookupTypes, s, before);
      if found.None? {
        hadErrors := true;
        return false;
      }
      if !KindFits(kind, found.value.kind) { hadErrors := true; }
      goOn := kind == Some(PrimitiveField) || KindFits(kind, found.value.kind);
    }

    method CrossLinkField(field: FieldProto, isExtension: bool, scope: string, parent: string,
                          ghost s: Store, ghost before: Reading)
      requires Live() && pool.RanFrom(s, before) && FilesIn(s)
      modifies pool, pool.tables, `hadErrors, `numbers
      ensures Live() && pool.RanFrom(s, before) && (old(hadErrors) ==> hadErrors)
      ensures Steady(s, file, dependencies) ==>
        var find := View(s, file, dependencies);
        Checked(old(Progress()), Progress(), [KeyOf(find, field, scope, parent)],
                FieldLinks(find, field, Qualify(scope, field.name)))
      decreases |Left(pool.database.files.Keys, s, before.pending)|, 12
    {
      hide Left, Faithful, Building, Consistent, Loads, Sound, Coherent, View, Steady, Fine, Follows, Resolved, Ran;
      ghost var find, start := View(s, file, dependencies), Progress();
      var fullName := Qualify(scope, field.name);
      var goOn, extendee, containingType := CrossLinkExtendee(field, fullName, parent, s, before);
      if !goOn { return; }
      goOn := CrossLinkType(field, fullName, s, before);
      if !goOn { return; }
      var key := (containingType, field.number);
      AddFieldByNumber(key);
      if Steady(s, file, dependencies) { CheckedOne(start, Progress(), key, FieldLinks(find, field, fullName)); }
      if isExtension && extendee.Some? { AddExtension(extendee.value, field.number, fullName, s, before); }
    }

    /** The message that the field is of: the one it extends, which must have an extension
        range for its number, or the one it is declared in. */
    method CrossLinkExtendee(field: FieldProto, fullName: string, parent: string, ghost s: Store, ghost before: Reading)
      returns (goOn: bool, extendee: Option<nat>, containingType: string)
      requires Live() && pool.RanFrom(s, before) && FilesIn(s)
      modifies pool, pool.tables, `hadErrors
      ensures Live() && pool.RanFrom(s, before) && (old(hadErrors) || !goOn ==> hadErrors)
      ensures Steady(s, file, dependencies) ==>
        var find := View(s, file, dependencies);
        && (hadErrors <==> old(hadErrors) || !ExtendeeLinks(find, field, fullName))
        && (!goOn ==> !ExtendeeLinks(find, field, fullName))
        && (goOn ==> containingType == ContainingType(find, field, fullName, parent))
      decreases |Left(pool.database.files.Keys, s, before.pending)|, 11
    {
      hide Left, Faithful, Building, Consistent, Loads, Sound, Coherent, View, Steady, Fine, Follows, Resolved;
      goOn, extendee, containingType := true, None, parent;
      if field.extendee.Some? {
        var message := ResolveMessage(field.extendee.value, fullName, s, before);
        if message.None? { return false, None, ""; }
        var descriptor := pool.tables.allocations[message.value.block];
        extendee, containingType := Some(message.value.block), descriptor.fullName;
        CheckExtensionNumber(field.number, descriptor.ranges);
      }
    }

    /** The type that the field names, or the kind of type it may have without a name. */
    method CrossLinkType(field: FieldProto, fullName: string, ghost s: Store, ghost before: Reading)
      returns (goOn: bool)
      requires Live() && pool.RanFrom(s, before) && FilesIn(s)
      modifies pool, pool.tables, `hadErrors
      ensures Live() && pool.RanFrom(s, before) && (old(hadErrors) || !goOn ==> hadErrors)
      ensures Steady(s, file, dependencies) ==>
        var find := View(s, file, dependencies);
        (hadErrors <==> old(hadErrors) || !TypeLinks(find, field, fullName))
          && (!goOn ==> !TypeLinks(find, field, fullName))
      decreases |Left(pool.database.files.Keys, s, before.pending)|, 11
    {
      hide Left, Faithful, Building, Consistent, Loads, Sound, Coherent, View, Steady, Fine, Follows, Resolved;
      goOn := true;
      if field.typeName.Some? {
        goOn := ResolveType(field.typeName.value, fullName, field.kind, s, before);
      } else if field.kind == Some(MessageField) || field.kind == Some(EnumField) {
        hadErrors := true;
      }
    }

    /** The number must be in an extension range of the extended message. */
    method CheckExtensionNumber(number: int, ranges: seq<RangeProto>)
      modifies `hadErrors
      ensures hadErrors <==> old(hadErrors) || !exists i :: 0 <= i < |ranges| && InRange(number, ranges[i])
    {
      for i := 0 to |ranges|
        invariant hadErrors == old(hadErrors) && forall k :: 0 <= k < i ==> !InRange(number, ranges[k])
      {
        if InRange(number, ranges[i]) { return; }
      }
      hadErrors := true;
    }

    /** A number of a message must be given out once in a file. */
    method AddFieldByNumber(key: NumberKey)
      modifies `hadErrors, `numbers
      ensures numbers == old(numbers) + {key} && (hadErrors <==> old(hadErrors) || key in old(numbers))
    {
      if key in numbers {
        hadErrors := true;
      } else {
        numbers := numbers + {key};
      }
    }

    /** Enter the extension in the table of the pool.  If another file has the number, that
        one stays, and no error is recorded. */
    method AddExtension(extendee: nat, number: int, fullName: string, ghost s: Store, ghost before: Reading)
      requires Live() && pool.RanFrom(s, before) && FilesIn(s)
      modifies pool.tables
      ensures Live() && pool.RanFrom(s, before)
      ensures fullName in Now().symbols ==> (extendee, number) in Now().extensions
    {
      hide Left, Faithful, Loads, Sound, Valid, Coherent, Fine, Follows, Building;
      var field := Find(pool.tables.State(), fullName);
      if field.Some? {
        ghost var t := Now();
        LoadsExtension(t, extendee, number, field.value.block, before.pending);
        RanExtension(pool.database, s, before, t, pool.knownBad, extendee, number, field.value.block);
        LoadKeepsBuilding(base, t, SymbolStore.AddExtension(t, extendee, number, field.value.block), file,
                          before.pending);
        LoadsSound(t, SymbolStore.AddExtension(t, extendee, number, field.value.block), before.pending);
        SoundValid(t);
        var _ := pool.tables.InsertExtension(extendee, number, field.value.block);
        LoadsCommitted(t, Now(), before.pending);
      }
    }

    method CrossLinkFields(fields: seq<FieldProto>, isExtension: bool, scope: string, parent: string,
                           ghost s: Store, ghost before: Reading)
      requires Live() && pool.RanFrom(s, before) && FilesIn(s)
      modifies pool, pool.tables, `hadErrors, `numbers
      ensures Live() && pool.RanFrom(s, before) && (old(hadErrors) ==> hadErrors)
      ensures Steady(s, file, dependencies) ==>
        var find := View(s, file, dependencies);
        Checked(old(Progress()), Progress(), FieldKeys(find, fields, scope, parent), FieldsLink(find, fields, scope))
      decreases |Left(pool.database.files.Keys, s, before.pending)|, 13
    {
      hide Left, Faithful, Building, Consistent, Loads, Sound, Coherent, View, Steady, Fine, Follows, FieldKeys,
        FieldsLink, Checked, KeyOf, FieldLinks;
      ghost var find, start := View(s, file, dependencies), Progress();
      NoneChecked(find, start, scope, parent);
      assert fields[..0] == [];
      for i := 0 to |fields|
        invariant Live() && pool.RanFrom(s, before) && (old(hadErrors) ==> hadErrors)
        invariant Steady(s, file, dependencies) ==>
          Checked(start, Progress(), FieldKeys(find, fields[..i], scope, parent), FieldsLink(find, fields[..i], scope))
      {
        ghost var here := Progress();
        CrossLinkField(fields[i], isExtension, scope, parent, s, before);
        if Steady(s, file, dependencies) { FieldChecked(find, start, here, Progress(), fields, scope, parent, i); }
      }
      assert fields[..|fields|] == fields;
    }

    method CrossLinkMessages(protos: seq<MessageProto>, scope: string, ghost s: Store, ghost before: Reading)
      requires Live() && pool.RanFrom(s, before) && FilesIn(s)
      modifies pool, pool.tables, `hadErrors, `numbers
      ensures Live() && pool.RanFrom(s, before) && (old(hadErrors) ==> hadErrors)
      ensures Steady(s, file, dependencies) ==>
        var find := View(s, file, dependencies);
        Checked(old(Progress()), Progress(), MessagesKeys(find, protos, scope), MessagesLink(find, protos, scope))
      decreases |Left(pool.database.files.Keys, s, before.pending)|, 14, protos, 0
    {
      hide Left, Faithful, Building, Consistent, Loads, Sound, Coherent, View, Steady, Fine, Follows, MessagesKeys,
        MessagesLink, MessageKeys, MessageLinks, Checked;
      ghost var find, start := View(s, file, dependencies), Progress();
      NoneChecked(find, start, scope, "");
      assert protos[..0] == [];
      for i := 0 to |protos|
        invariant Live() && pool.RanFrom(s, before) && (old(hadErrors) ==> hadErrors)
        invariant Steady(s, file, dependencies) ==>
          Checked(start, Progress(), MessagesKeys(find, protos[..i], scope), MessagesLink(find, protos[..i], scope))
      {
        ghost var here := Progress();
        CrossLinkMessage(protos[i], Qualify(scope, protos[i].name), s, before);
        if Steady(s, file, dependencies) { MessageChecked(find, start, here, Progress(), protos, scope, i); }
      }
      assert protos[..|protos|] == protos;
    }

    method CrossLinkMessage(proto: MessageProto, fullName: string, ghost s: Store, ghost before: Reading)
      requires Live() && pool.RanFrom(s, before) && FilesIn(s)
      modifies pool, pool.tables, `hadErrors, `numbers
      ensures Live() && pool.RanFrom(s, before) && (old(hadErrors) ==> hadErrors)
      ensures Steady(s, file, dependencies) ==>
        var find := View(s, file, dependencies);
        Checked(old(Progress()), Progress(), MessageKeys(find, proto, fullName), MessageLinks(find, proto, fullName))
      decreases |Left(pool.database.files.Keys, s, before.pending)|, 14, proto, 1
    {
      hide Left, Faithful, Building, Consistent, Loads, Sound, Coherent, View, Steady, Fine, Follows, MessagesKeys,
        MessagesLink, MessageKeys, MessageLinks, FieldKeys, FieldsLink, Checked;
      ghost var a := Progress();
      CrossLinkMessages(proto.nested, fullName, s, before);
      ghost var b := Progress();
      CrossLinkFields(proto.fields, false, fullName, fullName, s, before);
      ghost var c := Progress();
      CrossLinkFields(proto.extensions, true, fullName, "", s, before);
      if Steady(s, file, dependencies) {
        PartsChecked(View(s, file, dependencies), a, b, c, Progress(), proto, fullName);
      }
    }

    method CrossLinkMethod(proto: MethodProto, fullName: string, ghost s: Store, ghost before: Reading)
      requires Live() && pool.RanFrom(s, before) && FilesIn(s)
      modifies pool, pool.tables, `hadErrors
      ensures Live() && pool.RanFrom(s, before) && (old(hadErrors) ==> hadErrors)
      ensures Steady(s, file, dependencies) ==>
        (hadErrors <==> old(hadErrors) || !MethodLinks(View(s, file, dependencies), proto, fullName))
      decreases |Left(pool.database.files.Keys, s, before.pending)|, 11
    {
      hide Left, Faithful, Building, Consistent, Loads, Sound, Coherent, View, Steady, Fine, Follows, Resolved;
      var _ := ResolveMessage(proto.inputType, fullName, s, before);
      var _ := ResolveMessage(proto.outputType, fullName, s, before);
    }

    method CrossLinkMethods(methods: seq<MethodProto>, service: string, ghost s: Store, ghost before: Reading)
      requires Live() && pool.RanFrom(s, before) && FilesIn(s)
      modifies pool, pool.tables, `hadErrors
      ensures Live() && pool.RanFrom(s, before) && (old(hadErrors) ==> hadErrors)
      ensures Steady(s, file, dependencies) ==>
        (hadErrors <==> old(hadErrors) || !MethodsLink(View(s, file, dependencies), methods, service))
      decreases |Left(pool.database.files.Keys, s, before.pending)|, 12
    {
      hide Left, Faithful, Building, Consistent, Loads, Sound, Coherent, View, Steady, Fine, Follows, MethodLinks;
      ghost var find := View(s, file, dependencies);
      for i := 0 to |methods|
        invariant Live() && pool.RanFrom(s, before) && (old(hadErrors) ==> hadErrors)
        invariant Steady(s, file, dependencies) ==>
          (hadErrors <==> old(hadErrors) ||
                          exists k :: 0 <= k < i && !MethodLinks(find, methods[k], service + "." + methods[k].name))
      {
        CrossLinkMethod(methods[i], service + "." + methods[i].name, s, before);
      }
    }

    method CrossLinkServices(services: seq<ServiceProto>, scope: string, ghost s: Store, ghost before: Reading)
      requires Live() && pool.RanFrom(s, before) && FilesIn(s)
      modifies pool, pool.tables, `hadErrors
      ensures Live() && pool.RanFrom(s, before) && (old(hadErrors) ==> hadErrors)
      ensures Steady(s, file, dependencies) ==>
        (hadErrors <==> old(hadErrors) || !ServicesLink(View(s, file, dependencies), services, scope))
      decreases |Left(pool.database.files.Keys, s, before.pending)|, 13
    {
      hide Left, Faithful, Building, Consistent, Loads, Sound, Coherent, View, Steady, Fine, Follows, MethodsLink;
      ghost var find := View(s, file, dependencies);
      for i := 0 to |services|
        invariant Live() && pool.RanFrom(s, before) && (old(hadErrors) ==> hadErrors)
        invariant Steady(s, file, dependencies) ==>
          (hadErrors <==> old(hadErrors) ||
                          exists k :: 0 <= k < i
                            && !MethodsLink(find, services[k].methods, Qualify(scope, services[k].name)))
      {
        CrossLinkMethods(services[i].methods, Qualify(scope, services[i].name), s, before);
      }
    }

    /** Resolve every reference of the file and give out its numbers.  Whatever is loaded on
        the way, an error is recorded exactly if a reference does not mean what it must or a
        number is given out twice. */
    method CrossLinkFile(proto: FileProto)
      requires Live() && numbers == {}
      modifies pool, pool.tables, `hadErrors, `numbers
      ensures Live() && pool.RanFrom(old(Now()), old(pool.Doing())) && (old(hadErrors) ==> hadErrors)
      ensures Steady(old(Now()), file, dependencies) ==>
        (hadErrors <==> old(hadErrors) || !FileLinks(View(old(Now()), file, dependencies), proto))
      decreases |pool.Unloaded()|, 15
    {
      hide Left, Faithful, Building, Consistent, Loads, Sound, Coherent, View, Steady, Fine, Follows, MessagesKeys,
        MessagesLink, FieldKeys, FieldsLink, ServicesLink, FileLinks;
      ghost var s, before := Now(), pool.Doing();
      RanReflexive(pool.database, s, before);
      ghost var a := Progress();
      CrossLinkMessages(proto.messages, proto.package, s, before);
      ghost var b := Progress();
      CrossLinkFields(proto.extensions, true, proto.package, "", s, before);
      ghost var c := Progress();
      CrossLinkServices(proto.services, proto.package, s, before);
      if Steady(s, file, dependencies) {
        ghost var find := View(s, file, dependencies);
        CheckedNone(c, Progress(), ServicesLink(find, proto.services, proto.package));
        FileChecked(find, a, b, c, Progress(), proto);
      }
    }

    /** Extension ranges may go up to the largest number, unless an option says otherwise. */
    method ValidateMessages(protos: seq<MessageProto>)
      modifies `hadErrors
      ensures hadErrors <==> old(hadErrors) || !RangesBounded(protos)
      decreases protos
    {
      for i := 0 to |protos|
        invariant hadErrors <==> old(hadErrors) || !RangesBounded(protos[..i])
      {
        assert protos[..i + 1] == protos[..i] + [protos[i]];
        ValidateMessages(protos[i].nested);
        ghost var before := hadErrors;
        for j := 0 to |protos[i].ranges|
          invariant hadErrors <==> before || exists k :: 0 <= k < j && protos[i].ranges[k].end > MAX_NUMBER + 1
        {
          if protos[i].ranges[j].end > MAX_NUMBER + 1 { hadErrors := true; }
        }
      }
      assert protos[..|protos|] == protos;
    }

    // ----------------------------------------------------------------
    // Building a file

    /** Load the imports that are not loaded, as far as they can be. */
    method LoadImports(names: seq<string>)
      requires pool.Ready()
      modifies pool, pool.tables
      ensures AllTried(Now(), names, pool.knownBad)
      ensures old(NothingToRead(pool.database, Now(), names, pool.Doing())) ==> Now() == old(Now())
      ensures pool.LoadedFrom(old(Now()), old(pool.Doing()))
      ensures old(Fine(pool.database, Now())) ==>
        CanRead(pool.database, old(Now()), old(pool.Doing()), names, Now(), pool.knownBad)
      decreases |pool.Unloaded()|, 2
    {
      hide Left, Faithful, Loads, Sound, Coherent, Monotone, Fine, CanTry, CanRead;
      ghost var db, s, before := pool.database, Now(), pool.Doing();
      LoadsReflexive(s, before.pending);
      ReadsNone(db, s, before);
      assert names[..0] == [];
      for i := 0 to |names|
        invariant pool.LoadedFrom(s, before) && AllTried(Now(), names[..i], pool.knownBad)
        invariant NothingToRead(db, s, names, before) ==> Now() == s
        invariant Fine(db, s) ==> CanRead(db, s, before, names[..i], Now(), pool.knownBad)
      {
        assert names[..i + 1] == names[..i] + [names[i]];
        ghost var t, mid := Now(), pool.knownBad;
        if names[i] in pool.tables.files {
          if Fine(db, s) { ReadsLoaded(db, s, before, names[..i], names[i], t, mid); }
        } else {
          pool.UnloadedShrinks(s, t);
          var found := pool.TryFindFileInFallbackDatabase(names[i]);
          LoadsTransitive(s, t, Now(), before.pending);
          LoadsMonotone(t, Now(), before.pending);
          TriedMore(t, Now(), names[..i], mid, pool.knownBad);
          if Fine(db, s) {
            FineStays(db, s, t, before.pending);
            ReadsMore(db, s, before, names[..i], names[i], t, mid, Now(), pool.knownBad, found);
          }
        }
      }
      assert names[..|names|] == names;
    }

    /** Build a file of the database that is not loaded.  It ends up loaded, or the
        store has all of its entries from before plus at most the imports. */
    method BuildFile(proto: FileProto) returns (r: Option<nat>)
      requires pool.Ready() && proto.name in pool.database.files && pool.database.files[proto.name] == proto
      requires proto.name !in pool.tables.files
      requires !hadErrors && dependencies == {} && numbers == {}
      modifies this, pool, pool.tables
      ensures pool.LoadedFrom(old(pool.tables.State()), old(pool.Doing()))
      ensures r.Some? ==> proto.name in pool.tables.files && pool.tables.files[proto.name].value == r.value
      ensures r.None? ==> proto.name !in pool.tables.files
      ensures proto.name in old(pool.pending) ==> r.None? && Now() == old(Now()) && pool.knownBad == old(pool.knownBad)
      ensures old(Fine(pool.database, Now())) ==>
        CanBuild(pool.database, old(Now()), old(pool.Doing()), proto.name, Now(), pool.knownBad, r.Some?)
      decreases |pool.Unloaded()|, 0, 1
    {
      hide Left, Faithful, Loads, Sound, Coherent, Building, Committed, Monotone, AllTried, Acceptable, NothingToRead,
        CanRead, CanBuild, Fine, Enterable, Follows, EnteredFile;
      ghost var db, s, before := pool.database, Now(), pool.Doing();
      LoadsReflexive(s, before.pending);
      if proto.name in pool.pending {
        BuildsRefused(db, s, before, proto.name);
        return None;
      }
      ReadImports(proto);
      ghost var t, mid := Now(), pool.knownBad;
      LoadsFewer(s, t, before.pending, before.pending + [proto.name]);
      pool.UnloadedShrinks(s, t);
      Begin(proto);
      BuildingFacts(base, Now(), file);
      ghost var declared, linked;
      r, declared, linked := FinishFile(proto, t);
      LoadsTransitive(s, t, Now(), before.pending);
      if Fine(db, s) {
        FineStays(db, s, t, before.pending);
        FineCommitted(db, t);
        BuildFollows(proto, s, before, t, mid, declared, linked, r.Some?);
      }
    }

    lemma FineCommitted(db: Database, s: Store)
      ensures Fine(db, s) <==> Committed(s) && Faithful(db, s)
    {
      hide Consistent, Faithful;
    }

    /** The record of a build, put together. */
    lemma BuildFollows(proto: FileProto, s: Store, before: Reading, t: Store, mid: set<string>, declared: Store,
                       linked: Store, ok: bool)
      requires proto.name in pool.database.files && pool.database.files[proto.name] == proto
      requires proto.name !in s.files && proto.name !in before.pending && mid <= pool.knownBad
      requires CanRead(pool.database, s, Reading(before.pending + [proto.name], before.bad), proto.dependencies, t, mid)
      requires ok <==> Acceptable(t, proto)
      requires Outcome(proto, t, Reading(before.pending, mid), declared, linked, ok)
      ensures CanBuild(pool.database, s, before, proto.name, Now(), pool.knownBad, ok)
    {
      hide Acceptable, CanRead, CanBuild, Enterable, Follows, EnteredFile;
      if Enterable(t, proto) {
        BuildsWhole(pool.database, s, before, proto.name, t, mid, declared, file, linked, pool.knownBad, Now(), ok);
      } else {
        NotEnterable(t, proto);
        BuildsHalf(pool.database, s, before, proto.name, t, mid, pool.knownBad);
      }
    }

    /** What entering the file in `s`, linking it and deciding about it have led to. */
    ghost predicate Outcome(proto: FileProto, s: Store, r: Reading, declared: Store, linked: Store, ok: bool)
      reads this, pool, pool.tables
    {
      if Enterable(s, proto) then
        && EnteredFile(s, declared, proto, file) && Follows(pool.database, declared, r, linked, pool.knownBad)
        && linked.checkpoints != [] && Now() == if ok then ClearLastCheckpoint(linked) else s
      else
        Now() == s
    }

    /** Load the imports of a file while it is on the list of files being read. */
    method ReadImports(proto: FileProto)
      requires pool.Ready() && proto.name in pool.database.files
      requires proto.name !in pool.tables.files && proto.name !in pool.pending
      modifies pool, pool.tables
      ensures pool.Ready() && pool.pending == old(pool.pending) && proto.name !in pool.tables.files
      ensures old(pool.knownBad) <= pool.knownBad
      ensures Loads(old(Now()), Now(), pool.pending + [proto.name])
      ensures Faithful(pool.database, old(Now())) ==> Faithful(pool.database, Now())
      ensures AllTried(Now(), proto.dependencies, pool.knownBad)
      ensures
        var inner := Reading(old(pool.pending) + [proto.name], old(pool.knownBad));
        && (NothingToRead(pool.database, old(Now()), proto.dependencies, inner) ==> Now() == old(Now()))
        && (Fine(pool.database, old(Now())) ==>
              CanRead(pool.database, old(Now()), inner, proto.dependencies, Now(), pool.knownBad))
      decreases |pool.Unloaded()|, 0, 0
    {
      hide Left, Faithful, Loads, Sound, Coherent, Fine, CanRead, NothingToRead;
      ghost var s, before := Now(), pool.pending;
      var reading := pool.pending + [proto.name];
      LeftLess(pool.database.files.Keys, s, s, before, reading, proto.name);
      pool.pending := reading;
      LoadImports(proto.dependencies);
      LoadsFewer(s, Now(), before, reading);
      pool.pending := pool.pending[..|pool.pending| - 1];
    }

    /** Enter the file that was begun in `s`, link it, and commit or roll back.  In a
        committed pool of built files it is accepted exactly if the rule accepts it. */
    method FinishFile(proto: FileProto, ghost s: Store)
      returns (r: Option<nat>, ghost declared: Store, ghost linked: Store)
      requires pool.Ready() && Started(s, proto) && Sound(s) && (good <==> Committed(s)) && !hadErrors && numbers == {}
      requires proto.name in pool.database.files && pool.database.files[proto.name] == proto
      requires proto.name !in s.files && proto.name !in pool.pending
      modifies pool, pool.tables, `hadErrors, `dependencies, `numbers
      ensures pool.LoadedFrom(s, old(pool.Doing()))
      ensures r.Some? ==> proto.name in pool.tables.files && pool.tables.files[proto.name].value == r.value
      ensures r.None? ==> proto.name !in pool.tables.files
      ensures Committed(s) && Faithful(pool.database, s) ==> (r.Some? <==> Acceptable(s, proto))
      ensures Committed(s) && Faithful(pool.database, s) ==>
        Outcome(proto, s, old(pool.Doing()), declared, linked, r.Some?)
      decreases |Left(pool.database.files.Keys, s, pool.pending)|, 0, 0
    {
      hide Left, Coherent, Building, BlocksSound, Consistent, Valid, Shaped, Loads, Built, Faithful, Monotone,
        Enterable, FileLinks, View, VisibleFrom, Begun, Acceptable, Follows, EnteredFile, RangesBounded;
      BeginMonotone(s, proto.name, proto.package);
      DeclareFile(proto, s);
      declared := Now();
      ghost var failed := hadErrors;
      LeftFewerFiles(pool.database.files.Keys, s, declared, pool.pending, proto.name);
      BuildingFacts(base, declared, file);
      r, linked := Finish(proto, s);
      if good && !failed {
        EnteredFileIs(s, declared, base, proto, file);
        AcceptableIs(s, declared, proto, file, dependencies);
      }
      NotEnterable(s, proto);
    }

    /** Entered by Begin, and nothing else yet. */
    ghost predicate Started(s: Store, proto: FileProto)
      reads this, pool.tables
    {
      && Going() && Clean({}, None)
      && base == AddCheckpoint(s) && file == |s.allocations|
      && Now() == Begun(s, proto.name, proto.package)
    }

    /** The phase that loads nothing: package, imports and declarations.  An error is
        recorded exactly if the file cannot be entered. */
    method DeclareFile(proto: FileProto, ghost s: Store)
      requires Started(s, proto) && proto.name !in s.files && Shaped(s)
      modifies pool.tables, `hadErrors, `dependencies
      ensures Going() && Clean({}, None) && DependenciesAreFiles() && BlocksSound(Now()) && IsFile(Now(), file)
      ensures VisibleFiles()
      ensures Now().files == Begun(s, proto.name, proto.package).files && Monotone(s, Now())
      ensures hadErrors <==> old(hadErrors) || !Enterable(s, proto)
      ensures !hadErrors ==> Built(Now(), proto, file)
      ensures forall k :: k in Now().symbols && k !in s.symbols ==> Now().symbols[k].value.file == file
    {
      hide Building, Consistent, Valid, IndexSound, Shaped, BlocksSound, VisibleFrom, ScopeDeclared, HasAll, HasOnly,
        HasImports, HeaderFits, Enterable, Entered, PackageEntered, Begun, Kept, Monotone;
      BeginMonotone(s, proto.name, proto.package);
      ghost var a := Here();
      LinkFile(proto, s);
      ghost var b := Here();
      BuildingFacts(base, b.store, file);
      BuildDeclarations(proto);
      BuildingFacts(base, Now(), file);
      LinkedStays(s, a, b, Here(), proto, file, dependencies);
      OnlyOwn(s, b, Here(), proto, file);
      if !hadErrors { EnteredHas(b, Here(), OfFile(proto), file, ProperlyDeclared(proto)); }
    }

    /** Everything that the file declares is entered; an error is recorded exactly if
        something is not properly declared, or two declarations have the same full name or
        one that is taken. */
    method BuildDeclarations(proto: FileProto)
      requires Going() && Clean({}, None) && Declares(FileScope(file), {})
      requires Now().allocations[file].package == proto.package
      modifies pool.tables, `hadErrors
      ensures Going() && Clean({}, None) && Kept(old(Now()), Now()) && (old(hadErrors) ==> hadErrors)
      ensures Entered(old(Here()), Here(), OfFile(proto), file, ProperlyDeclared(proto))
    {
      hide Building, Consistent, ScopeDeclared, Entered, OfFields, FieldsProper, OfEnums, EnumsProper, OfMessages,
        MessagesProper, OfServices, ServicesProper, OfFile, ProperlyDeclared;
      var scope := FileScope(file);
      ghost var a := Here();
      BuildMessages(proto.messages, scope, {});
      ghost var b := Here();
      BuildEnums(proto.enums, scope, {});
      ghost var c := Here();
      BuildServices(proto.services, scope, {});
      ghost var d := Here();
      BuildFields(proto.extensions, true, scope, {});
      FileEntered(a, b, c, d, Here(), file, proto);
    }

    /** Package and imports: what the declarations of the file need. */
    method LinkFile(proto: FileProto, ghost s: Store)
      requires Started(s, proto) && proto.name !in s.files
      modifies pool.tables, `hadErrors, `dependencies
      ensures Going() && Clean({}, None) && DependenciesAreFiles() && Declares(FileScope(file), {})
      ensures BlocksSound(Now()) && IsFile(Now(), file) && VisibleFiles()
      ensures Now().files == old(Now()).files && Now().allocations[file].package == proto.package
      ensures hadErrors <==> old(hadErrors) || !HeaderFits(s, Now().files.Keys, proto)
      ensures Monotone(s, Now())
      ensures PackageEntered(s, Now(), proto.package, file)
      ensures !hadErrors ==> HasImports(Now(), proto, file)
    {
      hide Building, Consistent, Valid, IndexSound, Shaped, BlocksSound, VisibleFrom, ImportsFit, ImportsAre,
        PackageFits, Begun;
      BeginMonotone(s, proto.name, proto.package);
      FitsSame(s, Now(), proto.package, |proto.package| + 1);
      EnterPackage(proto.package);
      LinkImports(proto);
    }

    /** Enter the package of the file, whose name is the last string. */
    method EnterPackage(package: string)
      requires Going() && Clean({}, None)
      requires |Now().strings| > 0 && Now().strings[|Now().strings| - 1] == package
      modifies pool.tables, `hadErrors
      ensures Going() && Clean({}, None) && Kept(old(Now()), Now()) && Now().allocations == old(Now().allocations)
      ensures hadErrors <==> old(hadErrors) || (package != "" && !PackageFits(old(Now()), package))
      ensures PackageEntered(old(Now()), Now(), package, file)
      ensures !hadErrors && package != "" ==> IsPackage(Now(), package)
    {
      hide Building, Consistent, Valid, Shaped, PackageFits;
      if package != "" {
        if !hadErrors && good { PackageMayMiss(Now(), package); }
        AddPackage(|pool.tables.strings| - 1, package);
      }
    }

    lemma NewFileFaithful(proto: FileProto, s: Store)
      requires Going() && base == AddCheckpoint(s) && Faithful(pool.database, s) && Built(Now(), proto, file)
      requires proto.name in pool.database.files && pool.database.files[proto.name] == proto && proto.name !in s.files
      requires Now().files == Begun(s, proto.name, proto.package).files && file == |s.allocations|
      ensures Faithful(pool.database, Now())
    {
      hide Faithful, Built, Grows, Valid, Shaped, IndexSound;
      BeginMonotone(s, proto.name, proto.package);
      GrowsMonotone(base, Now());
      assert NewerSymbols(s, Now());
      FaithfulMore(pool.database, s, Now(), proto, file);
    }

    /** Cross-link, validate, and then commit or roll back; `linked` is the store in between. */
    method Finish(proto: FileProto, ghost s: Store) returns (r: Option<nat>, ghost linked: Store)
      requires Live() && Sound(s) && base == AddCheckpoint(s) && (good <==> Committed(s)) && numbers == {}
      requires BlocksSound(Now()) && VisibleFiles()
      requires proto.name !in s.files && proto.name !in pool.pending
      requires proto.name in pool.database.files && pool.database.files[proto.name] == proto
      requires !hadErrors ==> Built(Now(), proto, file)
      requires Now().files == Begun(s, proto.name, proto.package).files && file == |s.allocations|
      modifies pool, pool.tables, `hadErrors, `numbers
      ensures pool.LoadedFrom(s, old(pool.Doing()))
      ensures r.Some? ==> proto.name in pool.tables.files && pool.tables.files[proto.name].value == r.value
      ensures r.None? ==> proto.name !in pool.tables.files
      ensures old(hadErrors) ==> r.None?
      ensures good && Faithful(pool.database, s) ==>
        (r.Some? <==> old(!hadErrors) && FileLinks(View(old(Now()), file, dependencies), proto)
                      && RangesBounded(proto.messages))
      ensures linked.checkpoints != [] && Now() == if r.Some? then ClearLastCheckpoint(linked) else s
      ensures old(!hadErrors) && good && Faithful(pool.database, s) ==>
        Follows(pool.database, old(Now()), old(pool.Doing()), linked, pool.knownBad)
      decreases |pool.Unloaded()|, 16
    {
      hide Left, Building, Consistent, Valid, Loads, Shaped, BlocksSound, Coherent, Faithful, Built, View, FileLinks,
        Begun, VisibleFrom, Steady, Follows, RangesBounded;
      ghost var t, before := Now(), pool.Doing();
      if !hadErrors && Faithful(pool.database, s) {
        NewFileFaithful(proto, s);
        if good {
          BuildingFacts(base, t, file);
          LoadedIsSteady(pool.database, t, file, dependencies);
        }
      }
      CrossLinkFile(proto);
      if !hadErrors { ValidateMessages(proto.messages); }
      linked := Now();
      BuildingFacts(base, linked, file);
      FilesAfterLinking(s, t, linked, proto.name, proto.package, before.pending);
      r := Conclude(s, before);
    }

    /** Commit or roll back the build that started from `s`. */
    method Conclude(ghost s: Store, ghost before: Reading) returns (r: Option<nat>)
      requires Going() && Clean({}, None) && pool.Ready() && Sound(s) && base == AddCheckpoint(s)
      requires (good <==> Committed(s))
      requires pool.pending == before.pending && before.bad <= pool.knownBad
      requires forall n :: n in before.pending && n in Now().files ==> n in s.files
      requires !hadErrors && Faithful(pool.database, s) ==> Faithful(pool.database, Now())
      modifies pool.tables
      ensures pool.LoadedFrom(s, before) && old(Now()).checkpoints != []
      ensures r == if hadErrors then None else Some(file)
      ensures Now() == if hadErrors then s else ClearLastCheckpoint(old(Now()))
    {
      hide Left, Building, Consistent, Valid, Loads, Shaped, Coherent, Faithful, Built;
      BuildingFacts(base, Now(), file);
      if hadErrors {
        RollbackLoads(s, Now(), file);
        pool.tables.RollbackToLastCheckpoint();
        LoadsReflexive(s, before.pending);
        r := None;
      } else {
        CommitLoads(s, Now(), file, before.pending);
        if Faithful(pool.database, s) { FaithfulSame(pool.database, Now(), ClearLastCheckpoint(Now())); }
        LoadsSound(s, ClearLastCheckpoint(Now()), before.pending);
        pool.tables.PopCheckpoint();
        r := Some(file);
      }
    }
  }

  class Pool {
    const tables: Tables
    const database: Database
    var pending: seq<string>
    var knownBad: set<string>

    constructor (database: Database)
      requires Coherent(database)
      ensures Idle() && this.database == database
      ensures fresh(tables)
    {
      this.database := database;
      tables := new Tables();
      pending, knownBad := [], {};
      new;
      EmptyValid();
    }

    ghost predicate Ready()
      reads this, tables
    {
      Sound(tables.State()) && Coherent(database)
    }

    /** Between two requests: no file is being built, the pool keeps its promises, and
        each loaded file is the build of its database entry. */
    ghost predicate Idle()
      reads this, tables
    {
      && Ready() && tables.checkpoints == [] && pending == []
      && Committed(tables.State()) && Faithful(database, tables.State())
    }

    ghost function Doing(): Reading
      reads this
    {
      Reading(pending, knownBad)
    }

    /** Since store `s`, at most loads have happened, and none is still going on that
        was not then. */
    ghost predicate LoadedFrom(s: Store, before: Reading)
      reads this, tables
    {
      && Ready() && pending == before.pending && before.bad <= knownBad && Loads(s, tables.State(), before.pending)
      && (Faithful(database, s) ==> Faithful(database, tables.State()))
    }

    /** The same, and what happened is what lookups do. */
    ghost predicate RanFrom(s: Store, before: Reading)
      reads this, tables
    {
      Ready() && pending == before.pending && Ran(database, s, before, tables.State(), knownBad)
    }

    function Unloaded(): set<string>
      reads this, tables
    {
      Left(database.files.Keys, tables.State(), pending)
    }

    lemma UnloadedShrinks(s: Store, t: Store)
      requires Loads(s, t, pending)
      ensures |Left(database.files.Keys, t, pending)| <= |Left(database.files.Keys, s, pending)|
    {
      LeftShrinks(database.files.Keys, s, t, pending);
    }

    /** Load a file by name. */
    method TryFindFileInFallbackDatabase(name: string) returns (found: bool)
      requires Ready() && name !in tables.files
      modifies this, tables
      ensures LoadedFrom(old(tables.State()), old(Doing()))
      ensures found <==> name in tables.files
      ensures !found ==> name in knownBad
      ensures name in old(knownBad) || name !in database.files || name in old(pending) ==>
        !found && tables.State() == old(tables.State())
      ensures old(Fine(database, tables.State())) ==>
        CanTry(database, old(tables.State()), old(Doing()), name, tables.State(), knownBad, found)
      decreases |Unloaded()|, 1
    {
      hide Fine, CanTry, CanBuild, Loads, Faithful, Sound, Coherent, Left;
      ghost var s, before := tables.State(), Doing();
      LoadsReflexive(s, pending);
      TriesKnown(database, s, before, name);
      if name in knownBad {
        return false;
      }
      if name !in database.files {
        knownBad := knownBad + {name};
        return false;
      }
      FoundByName(database, name);
      var builder := new Builder(this);
      var built := builder.BuildFile(database.files[name]);
      found := built.Some?;
      if Fine(database, s) { TriesBuild(database, s, before, name, tables.State(), knownBad, found); }
      if built.None? {
        knownBad := knownBad + {name};
      }
    }

    method IsSubSymbolOfBuiltType(name: string) returns (r: bool)
      ensures r <==> HasBuiltPrefix(tables.State(), name)
    {
      var prefix := name;
      while true
        invariant prefix <= name
        invariant forall i :: |prefix| <= i < |name| && name[i] == '.' && name[..i] in tables.symbols ==>
          IsPackage(tables.State(), name[..i])
        decreases |prefix|
      {
        var d := LastDot(prefix);
        assert forall i :: 0 <= i < |prefix| ==> prefix[i] == name[i];
        if d < 0 {
          return false;
        }
        prefix := prefix[..d];
        assert prefix == name[..d];
        if prefix in tables.symbols && tables.symbols[prefix].value.kind != PACKAGE {
          return true;
        }
      }
    }

    /** Load the file that is said to own the symbol, unless that is pointless or done. */
    method TryFindSymbolInFallbackDatabase(name: string) returns (found: bool)
      requires Ready()
      modifies this, tables
      ensures RanFrom(old(tables.State()), old(Doing()))
      ensures found <==> OwnerLoaded(database, old(tables.State()), tables.State(), name)
      ensures
        if OwnerAsked(database, old(tables.State()), name) then
          old(Fine(database, tables.State())) ==>
            CanBuild(database, old(tables.State()), old(Doing()), database.owner(name).value, tables.State(), knownBad,
                     found)
        else
          !found && tables.State() == old(tables.State())
      decreases |Unloaded()|, 2
    {
      hide Fine, CanBuild, Loads, Faithful, Sound, Follows, HasBuiltPrefix;
      ghost var s, before := tables.State(), Doing();
      RanReflexive(database, s, before);
      var known := IsSubSymbolOfBuiltType(name);
      if known {
        return false;
      }
      var owner := database.owner(name);
      if owner.None? || database.files[owner.value].name in tables.files {
        return false;
      }
      var builder := new Builder(this);
      var built := builder.BuildFile(database.files[owner.value]);
      found := built.Some?;
      assert Claimed(database, owner.value);
      RanBuild(database, s, before, owner.value, tables.State(), knownBad, found);
    }

    /** The request for a file: it is returned exactly if it is loaded afterwards.  When
        nothing was left to read of its imports, that is exactly if the rule accepts it. */
    method FindFileByName(name: string) returns (r: Option<nat>)
      requires Idle()
      modifies this, tables
      ensures old(knownBad) <= knownBad
      ensures Idle() && Monotone(old(tables.State()), tables.State())
      ensures r == if name in tables.files then Some(tables.files[name].value) else None
      ensures
        if name in old(tables.files) then r.Some? && tables.State() == old(tables.State())
        else CanTry(database, old(tables.State()), old(Doing()), name, tables.State(), knownBad, r.Some?)
      ensures name !in old(tables.files) && name !in old(knownBad) && name in database.files
        && NothingToRead(database, old(tables.State()), database.files[name].dependencies,
                         Reading([name], old(knownBad)))
        ==> (r.Some? <==> Acceptable(old(tables.State()), database.files[name]))
    {
      hide CanTry, Acceptable, NothingToRead, Sound, Consistent, Faithful, Loads;
      if name in tables.files {
        return Some(tables.files[name].value);
      }
      ghost var s, before := tables.State(), Doing();
      var found := TryFindFileInFallbackDatabase(name);
      LoadsIdle(s, tables.State());
      r := if found then Some(tables.files[name].value) else None;
      if name !in before.bad && name in database.files
        && NothingToRead(database, s, database.files[name].dependencies, Reading([name], before.bad))
      {
        assert before.pending + [name] == [name];
        TriedVerdict(database, s, before, name, tables.State(), knownBad, found);
      }
    }

    lemma LoadsIdle(s: Store, t: Store)
      requires Loads(s, t, []) && s.checkpoints == []
      ensures Sound(t) && t.checkpoints == [] && Monotone(s, t) && (Committed(s) ==> Committed(t))
    {
    }

    /** The request for a symbol, in any file. */
    method FindSymbolByName(name: string) returns (r: Option<Symbol>)
      requires Idle()
      modifies this, tables
      ensures old(knownBad) <= knownBad
      ensures Idle() && Monotone(old(tables.State()), tables.State())
      ensures r == if name in old(tables.symbols) || OwnerLoaded(database, old(tables.State()), tables.State(), name)
                   then Find(tables.State(), name) else None
      ensures
        if name !in old(tables.symbols) && OwnerAsked(database, old(tables.State()), name) then
          var owner := database.owner(name).value;
          CanBuild(database, old(tables.State()), old(Doing()), owner, tables.State(), knownBad, owner in tables.files)
        else
          tables.State() == old(tables.State())
    {
      hide CanBuild, Sound, Consistent, Faithful, Loads, Follows, HasBuiltPrefix;
      r := Find(tables.State(), name);
      if r.None? {
        ghost var s := tables.State();
        var found := TryFindSymbolInFallbackDatabase(name);
        LoadsIdle(s, tables.State());
        if found {
          r := Find(tables.State(), name);
        }
      }
    }
  }
}
