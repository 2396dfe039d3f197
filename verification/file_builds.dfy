/** What it means for a file of a fallback database to have been built. */
module FileBuilds {
  import opened Options
  import opened DescriptorProtos
  import opened SymbolStore
  import opened DottedNames
  import opened ImportGraph
  import opened PoolInvariant
  import opened Declarations

  /** A fallback database: its files by name, and which file it claims declares a
      symbol (the claim may be wrong). */
  datatype Database = Database(files: map<string, FileProto>, owner: string -> Option<string>)

  /** A file found by name carries that name; a claimed owner exists. */
  ghost predicate Coherent(db: Database) {
    && (forall n :: n in db.files ==> db.files[n].name == n)
    && (forall symbol :: db.owner(symbol).Some? ==> db.owner(symbol).value in db.files)
  }

  lemma FoundByName(db: Database, name: string)
    requires Coherent(db) && name in db.files
    ensures db.files[name].name == name
  {
  }

  // ------------------------------------------------------------------
  // What a store must hold for a file to have been built

  /** The imports of `proto` are loaded, and the block of file `f` has them. */
  ghost predicate ImportsAre(s: Store, proto: FileProto, f: nat) {
    && IsFile(s, f) && s.allocations[f].publicDependencies == proto.publicDependencies
    && |s.allocations[f].dependencies| == |proto.dependencies|
    && (forall i :: 0 <= i < |proto.dependencies| ==>
          proto.dependencies[i] in s.files
          && s.allocations[f].dependencies[i] == Some(s.files[proto.dependencies[i]].value))
  }

  /** The block of file `f` has the package and the imports of `proto`. */
  ghost predicate HasImports(s: Store, proto: FileProto, f: nat) {
    && IsFile(s, f) && s.allocations[f].name == proto.name && s.allocations[f].package == proto.package
    && ImportsAre(s, proto, f)
    && (proto.package != "" ==> IsPackage(s, proto.package))
  }

  /** What the flat table has of file `f` is what it declares, and packages it lies in. */
  ghost predicate HasOnly(s: Store, proto: FileProto, f: nat) {
    forall k :: k in s.symbols && s.symbols[k].value.file == f ==>
      (IsPackage(s, k) && OfPackage(proto.package, k)) || IsOneOf(s, k, OfFile(proto), f)
  }

  /** The file `f` is the build of `proto`: its block says so, and so do the tables. */
  ghost predicate Built(s: Store, proto: FileProto, f: nat) {
    HasImports(s, proto, f) && HasAll(s, OfFile(proto), f) && HasOnly(s, proto, f)
  }

  /** Every loaded file is the build of the database's file of that name. */
  ghost predicate Faithful(db: Database, s: Store) {
    forall n :: n in s.files ==> n in db.files && Built(s, db.files[n], s.files[n].value)
  }

  lemma BuiltKept(s: Store, t: Store, proto: FileProto, f: nat)
    requires Monotone(s, t) && NewerSymbols(s, t) && s.allocations <= t.allocations && Built(s, proto, f)
    ensures Built(t, proto, f)
  {
    hide OfFile, HasAll;
    HasAllKept(s, t, OfFile(proto), f);
    forall k | k in t.symbols && t.symbols[k].value.file == f
      ensures (IsPackage(t, k) && OfPackage(proto.package, k)) || IsOneOf(t, k, OfFile(proto), f)
    {
      assert f < |s.allocations|;
      assert k in s.symbols;
    }
  }

  lemma HasImportsKept(s: Store, t: Store, proto: FileProto, f: nat)
    requires Kept(s, t) && HasImports(s, proto, f)
    ensures HasImports(t, proto, f)
  {
  }

  /** A new file that is built, beside files that were: all files are built. */
  lemma FaithfulMore(db: Database, s: Store, t: Store, proto: FileProto, f: nat)
    requires Faithful(db, s) && Monotone(s, t) && NewerSymbols(s, t) && s.allocations <= t.allocations
    requires proto.name in db.files && db.files[proto.name] == proto
    requires t.files.Keys == s.files.Keys + {proto.name} && t.files[proto.name].value == f && Built(t, proto, f)
    ensures Faithful(db, t)
  {
    hide Built;
    forall n | n in t.files ensures n in db.files && Built(t, db.files[n], t.files[n].value) {
      if n in s.files && n != proto.name {
        BuiltKept(s, t, db.files[n], s.files[n].value);
      }
    }
  }

  lemma FaithfulSame(db: Database, s: Store, t: Store)
    requires Faithful(db, s) && t.files == s.files && t.symbols == s.symbols && t.allocations == s.allocations
    ensures Faithful(db, t)
  {
    hide Built;
    forall n | n in t.files ensures n in db.files && Built(t, db.files[n], t.files[n].value) {
      BuiltKept(s, t, db.files[n], s.files[n].value);
    }
  }

  /** A dotted prefix of the name is declared as something with a complete definition,
      which is anything but a package. */
  ghost predicate HasBuiltPrefix(s: Store, name: string) {
    exists i :: 0 <= i < |name| && name[i] == '.' && name[..i] in s.symbols && !IsPackage(s, name[..i])
  }

  /** The database claims that a file which is not loaded owns the symbol, and that can be. */
  ghost predicate OwnerAsked(db: Database, s: Store, name: string) {
    !HasBuiltPrefix(s, name) && db.owner(name).Some? && db.owner(name).value !in s.files
  }

  /** Packages are open: when nothing but packages is known of the dotted parents of a name,
      its owner is asked for; what lies in a message, say, must be there already. */
  lemma OnlyPackagesAsk(db: Database, s: Store, name: string)
    requires db.owner(name).Some? && db.owner(name).value !in s.files
    ensures OwnerAsked(db, s, name) <==>
      forall i :: 0 <= i < |name| && name[i] == '.' && name[..i] in s.symbols ==>
        s.symbols[name[..i]].value.kind == PACKAGE
  {
  }

  /** The file that the database claims to own the symbol was loaded between `s` and `t`. */
  ghost predicate OwnerLoaded(db: Database, s: Store, t: Store, name: string) {
    && !HasBuiltPrefix(s, name) && db.owner(name).Some?
    && db.owner(name).value !in s.files && db.owner(name).value in t.files
  }
}
