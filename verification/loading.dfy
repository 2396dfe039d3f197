/** What loading does to a pool, file by file: which files are tried in turn, which of them
    the rule accepts, and which names become known to be bad. */
module Loading {
  import opened Options
  import opened DescriptorProtos
  import opened SymbolStore
  import opened PoolInvariant
  import opened Declarations
  import opened FileBuilds
  import opened References
  import opened Acceptance

  /** The files that are being read, and those known to be bad. */
  datatype Reading = Reading(pending: seq<string>, bad: set<string>)

  /** A committed pool whose files are the builds of their database entries. */
  ghost predicate Fine(db: Database, s: Store) {
    Committed(s) && Faithful(db, s)
  }

  // ------------------------------------------------------------------
  // Records of runs, with the stores that they passed through

  /** How a file of the database was built: it was being read already, it could not be
      entered in the store `read` that reading its imports left, or it was entered there and
      linked.  The names in `spoiled` were found to be bad while a file was linked that could
      not be entered. */
  datatype Build =
    | BeingRead
    | HalfBuilt(imports: Reads, read: Store, mid: set<string>, spoiled: set<string>)
    | WhollyBuilt(imports: Reads, read: Store, mid: set<string>, declared: Store, file: nat, links: Links,
                  linked: Store)

  /** How a file that is not loaded was asked for. */
  datatype Attempt = KnownBad | NotThere | Tried(build: Build, mid: set<string>)

  /** How imports were read, each with the store and the bad names before it. */
  datatype Reads =
    | NoReads
    | Passed(before: Reads)
    | Asked(before: Reads, at: Store, bad: set<string>, attempt: Attempt, found: bool)

  /** What was done while references were looked up. */
  datatype Links =
    | NoLinks
    | ExtensionEntered(before: Links, at: Store)
    | OwnerBuilt(before: Links, at: Store, bad: set<string>, name: string, build: Build, ok: bool)

  // ------------------------------------------------------------------
  // What a run does

  /** A file of the database that is not loaded is built.  One that is being read is
      refused.  Another is accepted exactly if the rule accepts it in the store that reading
      its imports left.  While its references are looked up further files may be loaded,
      which stay if the file is accepted.  A file that cannot even be entered is linked all
      the same, and in its half-built store names may be found to be bad; but it is rolled
      back with all that was loaded then. */
  ghost predicate Builds(b: Build, db: Database, s: Store, r: Reading, name: string, t: Store, bad: set<string>,
                         ok: bool)
    decreases b
  {
    && name in db.files && name !in s.files
    && match b
       case BeingRead => name in r.pending && !ok && t == s && bad == r.bad
       case HalfBuilt(imports, read, mid, spoiled) =>
         && name !in r.pending && !ok && t == read && bad == mid + spoiled && !Enterable(read, db.files[name])
         && ReadsAll(imports, db, s, Reading(r.pending + [name], r.bad), db.files[name].dependencies, read, mid)
       case WhollyBuilt(imports, read, mid, declared, file, links, linked) =>
         && name !in r.pending
         && ReadsAll(imports, db, s, Reading(r.pending + [name], r.bad), db.files[name].dependencies, read, mid)
         && Enterable(read, db.files[name]) && EnteredFile(read, declared, db.files[name], file)
         && LinksTo(links, db, declared, Reading(r.pending, mid), linked, bad)
         && (ok <==> Acceptable(read, db.files[name]))
         && linked.checkpoints != [] && t == (if ok then ClearLastCheckpoint(linked) else read)
  }

  /** A file that is not loaded is asked for by name. */
  ghost predicate Tries(a: Attempt, db: Database, s: Store, r: Reading, name: string, t: Store, bad: set<string>,
                        found: bool)
    decreases a
  {
    match a
    case KnownBad => name in r.bad && !found && t == s && bad == r.bad
    case NotThere => name !in r.bad && name !in db.files && !found && t == s && bad == r.bad + {name}
    case Tried(b, mid) =>
      && name !in r.bad && Builds(b, db, s, r, name, t, mid, found)
      && bad == (if found then mid else mid + {name})
  }

  /** Imports are read one after the other; those that are loaded by then are passed over. */
  ghost predicate ReadsAll(rs: Reads, db: Database, s: Store, r: Reading, names: seq<string>, t: Store,
                           bad: set<string>)
    decreases rs
  {
    match rs
    case NoReads => names == [] && t == s && bad == r.bad
    case Passed(before) =>
      names != [] && names[|names| - 1] in t.files && ReadsAll(before, db, s, r, names[..|names| - 1], t, bad)
    case Asked(before, at, mid, attempt, found) =>
      && names != [] && names[|names| - 1] !in at.files
      && ReadsAll(before, db, s, r, names[..|names| - 1], at, mid)
      && Tries(attempt, db, at, Reading(r.pending, mid), names[|names| - 1], t, bad, found)
  }

  /** Looking up references: extensions are entered, and files that the database claims to
      own a symbol are built. */
  ghost predicate LinksTo(ls: Links, db: Database, s: Store, r: Reading, t: Store, bad: set<string>)
    decreases ls
  {
    match ls
    case NoLinks => t == s && bad == r.bad
    case ExtensionEntered(before, at) => LinksTo(before, db, s, r, at, bad) && EntersExtension(at, t)
    case OwnerBuilt(before, at, mid, name, build, ok) =>
      && LinksTo(before, db, s, r, at, mid) && Claimed(db, name)
      && Builds(build, db, at, Reading(r.pending, mid), name, t, bad, ok)
  }

  ghost predicate EntersExtension(s: Store, t: Store) {
    exists extendee, number, field :: t == AddExtension(s, extendee, number, field)
  }

  ghost predicate Claimed(db: Database, name: string) {
    exists symbol :: db.owner(symbol) == Some(name)
  }

  /** Some run of lookups leads from `s` to `t`. */
  ghost predicate Follows(db: Database, s: Store, r: Reading, t: Store, bad: set<string>) {
    exists ls :: LinksTo(ls, db, s, r, t, bad)
  }

  /** Some build of the file leads from `s` to `t`. */
  ghost predicate CanBuild(db: Database, s: Store, r: Reading, name: string, t: Store, bad: set<string>, ok: bool) {
    exists b :: Builds(b, db, s, r, name, t, bad, ok)
  }

  ghost predicate CanTry(db: Database, s: Store, r: Reading, name: string, t: Store, bad: set<string>, found: bool) {
    exists a :: Tries(a, db, s, r, name, t, bad, found)
  }

  ghost predicate CanRead(db: Database, s: Store, r: Reading, names: seq<string>, t: Store, bad: set<string>) {
    exists rs :: ReadsAll(rs, db, s, r, names, t, bad)
  }

  // ------------------------------------------------------------------
  // Putting runs together

  lemma FollowsNothing(db: Database, s: Store, r: Reading)
    ensures Follows(db, s, r, s, r.bad)
  {
    assert LinksTo(NoLinks, db, s, r, s, r.bad);
  }

  lemma FollowsExtension(db: Database, s: Store, r: Reading, t: Store, bad: set<string>, u: Store)
    requires Follows(db, s, r, t, bad) && EntersExtension(t, u)
    ensures Follows(db, s, r, u, bad)
  {
    hide EntersExtension, Builds;
    var ls :| LinksTo(ls, db, s, r, t, bad);
    assert LinksTo(ExtensionEntered(ls, t), db, s, r, u, bad);
  }

  lemma FollowsBuild(db: Database, s: Store, r: Reading, name: string, t: Store, bad: set<string>, ok: bool)
    requires Claimed(db, name) && CanBuild(db, s, r, name, t, bad, ok)
    ensures Follows(db, s, r, t, bad)
  {
    hide Claimed, Builds;
    var b :| Builds(b, db, s, r, name, t, bad, ok);
    assert Reading(r.pending, r.bad) == r && LinksTo(NoLinks, db, s, r, s, r.bad);
    assert LinksTo(OwnerBuilt(NoLinks, s, r.bad, name, b, ok), db, s, r, t, bad);
  }

  function Appended(a: Links, b: Links): Links {
    match b
    case NoLinks => a
    case ExtensionEntered(before, at) => ExtensionEntered(Appended(a, before), at)
    case OwnerBuilt(before, at, mid, name, build, ok) => OwnerBuilt(Appended(a, before), at, mid, name, build, ok)
  }

  lemma {:induction false} LinksAppend(db: Database, s: Store, r: Reading, a: Links, t: Store, mid: set<string>,
                                       b: Links, u: Store, bad: set<string>)
    requires LinksTo(a, db, s, r, t, mid) && LinksTo(b, db, t, Reading(r.pending, mid), u, bad)
    ensures LinksTo(Appended(a, b), db, s, r, u, bad)
    decreases b
  {
    hide EntersExtension, Claimed, Builds;
    match b
    case NoLinks =>
    case ExtensionEntered(before, at) => LinksAppend(db, s, r, a, t, mid, before, at, bad);
    case OwnerBuilt(before, at, last, name, build, ok) => LinksAppend(db, s, r, a, t, mid, before, at, last);
  }

  lemma FollowsMore(db: Database, s: Store, r: Reading, t: Store, mid: set<string>, u: Store, bad: set<string>)
    requires Follows(db, s, r, t, mid) && Follows(db, t, Reading(r.pending, mid), u, bad)
    ensures Follows(db, s, r, u, bad)
  {
    hide LinksTo;
    var a :| LinksTo(a, db, s, r, t, mid);
    var b :| LinksTo(b, db, t, Reading(r.pending, mid), u, bad);
    LinksAppend(db, s, r, a, t, mid, b, u, bad);
  }

  lemma ReadsNone(db: Database, s: Store, r: Reading)
    ensures CanRead(db, s, r, [], s, r.bad)
  {
    assert ReadsAll(NoReads, db, s, r, [], s, r.bad);
  }

  lemma ReadsLoaded(db: Database, s: Store, r: Reading, names: seq<string>, name: string, t: Store, bad: set<string>)
    requires CanRead(db, s, r, names, t, bad) && name in t.files
    ensures CanRead(db, s, r, names + [name], t, bad)
  {
    hide Tries;
    var rs :| ReadsAll(rs, db, s, r, names, t, bad);
    assert (names + [name])[..|names|] == names;
    assert ReadsAll(Passed(rs), db, s, r, names + [name], t, bad);
  }

  lemma ReadsMore(db: Database, s: Store, r: Reading, names: seq<string>, name: string, u: Store, mid: set<string>,
                  t: Store, bad: set<string>, found: bool)
    requires CanRead(db, s, r, names, u, mid) && name !in u.files
    requires CanTry(db, u, Reading(r.pending, mid), name, t, bad, found)
    ensures CanRead(db, s, r, names + [name], t, bad)
  {
    hide Tries, ReadsAll;
    var rs :| ReadsAll(rs, db, s, r, names, u, mid);
    var a :| Tries(a, db, u, Reading(r.pending, mid), name, t, bad, found);
    ReadsAsked(rs, db, s, r, names, name, u, mid, a, t, bad, found);
  }

  lemma ReadsAsked(rs: Reads, db: Database, s: Store, r: Reading, names: seq<string>, name: string, u: Store,
                   mid: set<string>, a: Attempt, t: Store, bad: set<string>, found: bool)
    requires ReadsAll(rs, db, s, r, names, u, mid) && name !in u.files
    requires Tries(a, db, u, Reading(r.pending, mid), name, t, bad, found)
    ensures ReadsAll(Asked(rs, u, mid, a, found), db, s, r, names + [name], t, bad)
  {
    hide Tries;
    assert (names + [name])[..|names|] == names;
  }

  lemma BuildsRefused(db: Database, s: Store, r: Reading, name: string)
    requires name in db.files && name !in s.files && name in r.pending
    ensures CanBuild(db, s, r, name, s, r.bad, false)
  {
    assert Builds(BeingRead, db, s, r, name, s, r.bad, false);
  }

  lemma BuildsHalf(db: Database, s: Store, r: Reading, name: string, read: Store, mid: set<string>, bad: set<string>)
    requires name in db.files && name !in s.files && name !in r.pending && !Enterable(read, db.files[name])
    requires mid <= bad
    requires CanRead(db, s, Reading(r.pending + [name], r.bad), db.files[name].dependencies, read, mid)
    ensures CanBuild(db, s, r, name, read, bad, false)
  {
    hide ReadsAll, Enterable;
    var rs :| ReadsAll(rs, db, s, Reading(r.pending + [name], r.bad), db.files[name].dependencies, read, mid);
    assert bad == mid + bad;
    assert Builds(HalfBuilt(rs, read, mid, bad), db, s, r, name, read, bad, false);
  }

  lemma BuildsWhole(db: Database, s: Store, r: Reading, name: string, read: Store, mid: set<string>, declared: Store,
                    f: nat, linked: Store, bad: set<string>, t: Store, ok: bool)
    requires name in db.files && name !in s.files && name !in r.pending
    requires CanRead(db, s, Reading(r.pending + [name], r.bad), db.files[name].dependencies, read, mid)
    requires Enterable(read, db.files[name]) && (ok <==> Acceptable(read, db.files[name]))
    requires EnteredFile(read, declared, db.files[name], f)
    requires Follows(db, declared, Reading(r.pending, mid), linked, bad)
    requires linked.checkpoints != [] && t == if ok then ClearLastCheckpoint(linked) else read
    ensures CanBuild(db, s, r, name, t, bad, ok)
  {
    hide EnteredFile, Acceptable, Enterable, ReadsAll, LinksTo;
    var rs :| ReadsAll(rs, db, s, Reading(r.pending + [name], r.bad), db.files[name].dependencies, read, mid);
    var ls :| LinksTo(ls, db, declared, Reading(r.pending, mid), linked, bad);
    assert Builds(WhollyBuilt(rs, read, mid, declared, f, ls, linked), db, s, r, name, t, bad, ok);
  }

  lemma TriesKnown(db: Database, s: Store, r: Reading, name: string)
    ensures name in r.bad ==> CanTry(db, s, r, name, s, r.bad, false)
    ensures name !in r.bad && name !in db.files ==> CanTry(db, s, r, name, s, r.bad + {name}, false)
  {
    if name in r.bad { assert Tries(KnownBad, db, s, r, name, s, r.bad, false); }
    else if name !in db.files { assert Tries(NotThere, db, s, r, name, s, r.bad + {name}, false); }
  }

  lemma TriesBuild(db: Database, s: Store, r: Reading, name: string, t: Store, bad: set<string>, found: bool)
    requires name !in r.bad && CanBuild(db, s, r, name, t, bad, found)
    ensures CanTry(db, s, r, name, t, if found then bad else bad + {name}, found)
  {
    hide Builds;
    var b :| Builds(b, db, s, r, name, t, bad, found);
    assert Tries(Tried(b, bad), db, s, r, name, t, if found then bad else bad + {name}, found);
  }

  /** What lookups may do to a pool: a load, made up of builds of claimed owners and entries
      of extensions. */
  ghost predicate Ran(db: Database, s: Store, r: Reading, t: Store, bad: set<string>) {
    && r.bad <= bad && Loads(s, t, r.pending) && (Faithful(db, s) ==> Faithful(db, t))
    && (Fine(db, s) ==> Follows(db, s, r, t, bad))
  }

  lemma RanReflexive(db: Database, s: Store, r: Reading)
    requires Sound(s)
    ensures Ran(db, s, r, s, r.bad)
  {
    hide Follows, Fine, Sound, Loads;
    LoadsReflexive(s, r.pending);
    FollowsNothing(db, s, r);
  }

  lemma FineStays(db: Database, s: Store, t: Store, pending: seq<string>)
    requires Fine(db, s) && Loads(s, t, pending) && (Faithful(db, s) ==> Faithful(db, t))
    ensures Fine(db, t)
  {
    hide Faithful, Consistent, Sound;
  }

  lemma RanTransitive(db: Database, s: Store, r: Reading, t: Store, mid: set<string>, u: Store, bad: set<string>)
    requires Ran(db, s, r, t, mid) && Ran(db, t, Reading(r.pending, mid), u, bad)
    ensures Ran(db, s, r, u, bad)
  {
    hide Follows, Fine, Loads, Faithful;
    LoadsTransitive(s, t, u, r.pending);
    if Fine(db, s) {
      FineStays(db, s, t, r.pending);
      FollowsMore(db, s, r, t, mid, u, bad);
    }
  }

  lemma RanExtension(db: Database, s: Store, r: Reading, t: Store, bad: set<string>, extendee: nat, number: int,
                     field: nat)
    requires Ran(db, s, r, t, bad) && Sound(t)
    ensures Ran(db, s, r, AddExtension(t, extendee, number, field), bad)
  {
    hide Follows, Fine, Loads, Faithful, Sound;
    var u := AddExtension(t, extendee, number, field);
    LoadsExtension(t, extendee, number, field, r.pending);
    LoadsTransitive(s, t, u, r.pending);
    if Faithful(db, t) { FaithfulSame(db, t, u); }
    if Fine(db, s) { FollowsExtension(db, s, r, t, bad, u); }
  }

  lemma RanBuild(db: Database, s: Store, r: Reading, name: string, t: Store, bad: set<string>, ok: bool)
    requires r.bad <= bad && Loads(s, t, r.pending) && (Faithful(db, s) ==> Faithful(db, t))
    requires Claimed(db, name) && (Fine(db, s) ==> CanBuild(db, s, r, name, t, bad, ok))
    ensures Ran(db, s, r, t, bad)
  {
    hide Follows, Fine, Loads, Faithful, CanBuild;
    if Fine(db, s) { FollowsBuild(db, s, r, name, t, bad, ok); }
  }

  // ------------------------------------------------------------------
  // What runs leave alone

  lemma {:induction false} BuildsMonotone(b: Build, db: Database, s: Store, r: Reading, name: string, t: Store,
                                          bad: set<string>, ok: bool)
    requires Builds(b, db, s, r, name, t, bad, ok)
    ensures Monotone(s, t) && r.bad <= bad && (ok && db.files[name].name == name ==> name in t.files)
    decreases b
  {
    hide Enterable, Acceptable, EnteredFile, ReadsAll, LinksTo, Monotone;
    MonotoneReflexive(s);
    var inner, names := Reading(r.pending + [name], r.bad), db.files[name].dependencies;
    match b
    case BeingRead =>
    case HalfBuilt(imports, read, mid, _) => ReadsMonotone(imports, db, s, inner, names, read, mid);
    case WhollyBuilt(imports, read, mid, declared, file, links, linked) =>
      ReadsMonotone(imports, db, s, inner, names, read, mid);
      LinksMonotone(links, db, declared, Reading(r.pending, mid), linked, bad);
      EnteredMonotone(read, declared, db.files[name], file);
      MonotoneTransitive(s, read, declared);
      MonotoneTransitive(s, declared, linked);
      if ok { Cleared(s, declared, linked, name); }
  }

  lemma MonotoneReflexive(s: Store)
    ensures Monotone(s, s)
  {
  }

  lemma MonotoneTransitive(s: Store, t: Store, u: Store)
    requires Monotone(s, t) && Monotone(t, u)
    ensures Monotone(s, u)
  {
  }

  lemma Cleared(s: Store, declared: Store, linked: Store, name: string)
    requires Monotone(s, linked) && Monotone(declared, linked) && linked.checkpoints != []
    ensures Monotone(s, ClearLastCheckpoint(linked))
    ensures name in declared.files ==> name in ClearLastCheckpoint(linked).files
  {
  }

  lemma EnteredMonotone(s: Store, t: Store, proto: FileProto, f: nat)
    requires EnteredFile(s, t, proto, f)
    ensures Monotone(s, t) && proto.name in t.files
  {
  }

  lemma {:induction false} TriesMonotone(a: Attempt, db: Database, s: Store, r: Reading, name: string, t: Store,
                                         bad: set<string>, found: bool)
    requires Tries(a, db, s, r, name, t, bad, found)
    ensures Monotone(s, t) && r.bad <= bad
    ensures found && name in db.files && db.files[name].name == name ==> name in t.files
    decreases a
  {
    hide Builds;
    if a.Tried? { BuildsMonotone(a.build, db, s, r, name, t, a.mid, found); }
  }

  lemma {:induction false} ReadsMonotone(rs: Reads, db: Database, s: Store, r: Reading, names: seq<string>, t: Store,
                                         bad: set<string>)
    requires ReadsAll(rs, db, s, r, names, t, bad)
    ensures Monotone(s, t) && r.bad <= bad
    decreases rs
  {
    hide Tries;
    match rs
    case NoReads =>
    case Passed(before) => ReadsMonotone(before, db, s, r, names[..|names| - 1], t, bad);
    case Asked(before, at, mid, attempt, found) =>
      ReadsMonotone(before, db, s, r, names[..|names| - 1], at, mid);
      TriesMonotone(attempt, db, at, Reading(r.pending, mid), names[|names| - 1], t, bad, found);
  }

  lemma {:induction false} LinksMonotone(ls: Links, db: Database, s: Store, r: Reading, t: Store, bad: set<string>)
    requires LinksTo(ls, db, s, r, t, bad)
    ensures Monotone(s, t) && r.bad <= bad
    decreases ls
  {
    hide Builds, Claimed;
    match ls
    case NoLinks =>
    case ExtensionEntered(before, at) => LinksMonotone(before, db, s, r, at, bad);
    case OwnerBuilt(before, at, mid, name, build, ok) =>
      LinksMonotone(before, db, s, r, at, mid);
      BuildsMonotone(build, db, at, Reading(r.pending, mid), name, t, bad, ok);
  }

  // ------------------------------------------------------------------
  // Why a name is bad

  /** The file is missing in the database, is being read, or is refused by the rule in the
      store that reading its imports left. */
  ghost predicate Refuses(a: Attempt, db: Database, pending: seq<string>, name: string) {
    match a
    case KnownBad => false
    case NotThere => name !in db.files
    case Tried(build, _) =>
      name in db.files && if build.BeingRead? then name in pending else !Acceptable(build.read, db.files[name])
  }

  /** The record of building `file` tells why the name is bad. */
  ghost predicate BuildTells(b: Build, db: Database, pending: seq<string>, file: string, name: string)
    decreases b
  {
    file in db.files
    && match b
       case BeingRead => false
       case HalfBuilt(imports, _, _, spoiled) =>
         ReadsTell(imports, db, pending + [file], db.files[file].dependencies, name) || name in spoiled
       case WhollyBuilt(imports, _, _, _, _, links, _) =>
         || ReadsTell(imports, db, pending + [file], db.files[file].dependencies, name)
         || LinksTell(links, db, pending, name)
  }

  /** The record of asking for `file` does: it was refused itself, or the reason is further
      down. */
  ghost predicate AttemptTells(a: Attempt, db: Database, pending: seq<string>, file: string, name: string)
    decreases a
  {
    (name == file && Refuses(a, db, pending, name)) || (a.Tried? && BuildTells(a.build, db, pending, file, name))
  }

  ghost predicate ReadsTell(rs: Reads, db: Database, pending: seq<string>, names: seq<string>, name: string)
    decreases rs
  {
    && names != []
    && match rs
       case NoReads => false
       case Passed(before) => ReadsTell(before, db, pending, names[..|names| - 1], name)
       case Asked(before, _, _, attempt, _) =>
         || ReadsTell(before, db, pending, names[..|names| - 1], name)
         || AttemptTells(attempt, db, pending, names[|names| - 1], name)
  }

  ghost predicate LinksTell(ls: Links, db: Database, pending: seq<string>, name: string)
    decreases ls
  {
    match ls
    case NoLinks => false
    case ExtensionEntered(before, _) => LinksTell(before, db, pending, name)
    case OwnerBuilt(before, _, _, file, build, _) =>
      LinksTell(before, db, pending, name) || BuildTells(build, db, pending, file, name)
  }

  lemma {:induction false} BuildExplains(b: Build, db: Database, s: Store, r: Reading, file: string, t: Store,
                                         bad: set<string>, ok: bool, name: string)
    requires Builds(b, db, s, r, file, t, bad, ok) && name in bad && name !in r.bad
    ensures BuildTells(b, db, r.pending, file, name)
    decreases b
  {
    hide Enterable, Acceptable, EnteredFile, ReadsAll, LinksTo, ReadsTell, LinksTell;
    var inner, names := Reading(r.pending + [file], r.bad), db.files[file].dependencies;
    match b
    case BeingRead => assert false;
    case HalfBuilt(imports, read, mid, spoiled) =>
      if name in mid { ReadsExplain(imports, db, s, inner, names, read, mid, name); }
    case WhollyBuilt(imports, read, mid, declared, _, links, linked) =>
      if name in mid { ReadsExplain(imports, db, s, inner, names, read, mid, name); }
      else { LinksExplain(links, db, declared, Reading(r.pending, mid), linked, bad, name); }
  }

  lemma {:induction false} AttemptExplains(a: Attempt, db: Database, s: Store, r: Reading, file: string, t: Store,
                                           bad: set<string>, found: bool, name: string)
    requires Tries(a, db, s, r, file, t, bad, found) && name in bad && name !in r.bad
    ensures AttemptTells(a, db, r.pending, file, name)
    decreases a
  {
    hide Builds, BuildTells, Acceptable;
    if a.Tried? {
      if name in a.mid { BuildExplains(a.build, db, s, r, file, t, a.mid, found, name); }
      else { RefusedBuild(a.build, db, s, r, file, t, a.mid); }
    }
  }

  lemma RefusedBuild(b: Build, db: Database, s: Store, r: Reading, name: string, t: Store, bad: set<string>)
    requires Builds(b, db, s, r, name, t, bad, false)
    ensures name in db.files
    ensures if b.BeingRead? then name in r.pending else !Acceptable(b.read, db.files[name])
  {
    hide Enterable, EnteredFile, ReadsAll, LinksTo, RangesBounded;
  }

  lemma {:induction false} ReadsExplain(rs: Reads, db: Database, s: Store, r: Reading, names: seq<string>, t: Store,
                                        bad: set<string>, name: string)
    requires ReadsAll(rs, db, s, r, names, t, bad) && name in bad && name !in r.bad
    ensures ReadsTell(rs, db, r.pending, names, name)
    decreases rs
  {
    hide Tries, AttemptTells;
    match rs
    case NoReads =>
    case Passed(before) => ReadsExplain(before, db, s, r, names[..|names| - 1], t, bad, name);
    case Asked(before, at, mid, attempt, found) =>
      if name in mid { ReadsExplain(before, db, s, r, names[..|names| - 1], at, mid, name); }
      else { AttemptExplains(attempt, db, at, Reading(r.pending, mid), names[|names| - 1], t, bad, found, name); }
  }

  lemma {:induction false} LinksExplain(ls: Links, db: Database, s: Store, r: Reading, t: Store, bad: set<string>,
                                        name: string)
    requires LinksTo(ls, db, s, r, t, bad) && name in bad && name !in r.bad
    ensures LinksTell(ls, db, r.pending, name)
    decreases ls
  {
    hide Builds, Claimed, BuildTells;
    match ls
    case NoLinks =>
    case ExtensionEntered(before, at) => LinksExplain(before, db, s, r, at, bad, name);
    case OwnerBuilt(before, at, mid, file, build, ok) =>
      if name in mid { LinksExplain(before, db, s, r, at, mid, name); }
      else { BuildExplains(build, db, at, Reading(r.pending, mid), file, t, bad, ok, name); }
  }

  /** Every import that is not loaded afterwards was known to be bad before, or the record
      tells why it is. */
  lemma EachImportExplained(rs: Reads, db: Database, s: Store, r: Reading, names: seq<string>, t: Store,
                            bad: set<string>, name: string)
    requires Coherent(db) && ReadsAll(rs, db, s, r, names, t, bad) && name in names && name !in t.files
    ensures name in r.bad || ReadsTell(rs, db, r.pending, names, name)
  {
    hide ReadsAll, ReadsTell, Coherent;
    NotLoadedIsBad(rs, db, s, r, names, t, bad, name);
    if name !in r.bad { ReadsExplain(rs, db, s, r, names, t, bad, name); }
  }

  lemma {:induction false} NotLoadedIsBad(rs: Reads, db: Database, s: Store, r: Reading, names: seq<string>, t: Store,
                                          bad: set<string>, name: string)
    requires Coherent(db) && ReadsAll(rs, db, s, r, names, t, bad) && name in names && name !in t.files
    ensures name in bad
    decreases rs
  {
    hide Builds;
    assert names == names[..|names| - 1] + [names[|names| - 1]];
    match rs
    case Passed(before) => NotLoadedIsBad(before, db, s, r, names[..|names| - 1], t, bad, name);
    case Asked(before, at, mid, attempt, found) =>
      TriesMonotone(attempt, db, at, Reading(r.pending, mid), names[|names| - 1], t, bad, found);
      if name == names[|names| - 1] {
        FoundIsListed(attempt, db, at, Reading(r.pending, mid), name, t, bad, found);
      } else {
        NotLoadedIsBad(before, db, s, r, names[..|names| - 1], at, mid, name);
      }
  }

  lemma FoundIsListed(a: Attempt, db: Database, s: Store, r: Reading, name: string, t: Store, bad: set<string>,
                      found: bool)
    requires Tries(a, db, s, r, name, t, bad, found)
    ensures found ==> name in db.files
  {
    hide Enterable, Acceptable, EnteredFile, ReadsAll, LinksTo;
  }

  // ------------------------------------------------------------------
  // What can be told before a request

  /** Nothing is left to load of the imports: each is loaded, known to be bad, missing in
      the database, or being read. */
  ghost predicate NothingToRead(db: Database, s: Store, names: seq<string>, r: Reading) {
    forall i :: 0 <= i < |names| ==>
      names[i] in s.files || names[i] in r.bad || names[i] !in db.files || names[i] in r.pending
  }

  /** Reading then changes nothing but what is known to be bad. */
  lemma {:induction false} ReadsNothing(db: Database, s: Store, r: Reading, rs: Reads, names: seq<string>, t: Store,
                                        bad: set<string>)
    requires NothingToRead(db, s, names, r) && ReadsAll(rs, db, s, r, names, t, bad)
    ensures t == s && r.bad <= bad
    decreases rs
  {
    match rs
    case NoReads =>
    case Passed(before) => ReadsNothing(db, s, r, before, names[..|names| - 1], t, bad);
    case Asked(before, at, mid, attempt, found) =>
      hide Builds;
      ReadsNothing(db, s, r, before, names[..|names| - 1], at, mid);
      if attempt.Tried? {
        PendingRefused(attempt.build, db, at, Reading(r.pending, mid), names[|names| - 1], t, attempt.mid, found);
      }
  }

  lemma PendingRefused(b: Build, db: Database, s: Store, r: Reading, name: string, t: Store, bad: set<string>, ok: bool)
    requires Builds(b, db, s, r, name, t, bad, ok)
    ensures name in db.files && name !in s.files
    ensures name in r.pending ==> !ok && t == s && bad == r.bad
  {
    hide Enterable, Acceptable, EnteredFile, ReadsAll, LinksTo;
  }

  /** A file with nothing left to read of its imports is accepted exactly if the rule
      accepts it in the store from before. */
  lemma VerdictWithoutReading(db: Database, s: Store, r: Reading, name: string, t: Store, bad: set<string>, ok: bool)
    requires CanBuild(db, s, r, name, t, bad, ok) && name !in r.pending
    requires NothingToRead(db, s, db.files[name].dependencies, Reading(r.pending + [name], r.bad))
    ensures ok <==> Acceptable(s, db.files[name])
  {
    hide Enterable, EnteredFile, ReadsAll, LinksTo, RangesBounded, NothingToRead;
    var b :| Builds(b, db, s, r, name, t, bad, ok);
    var inner := Reading(r.pending + [name], r.bad);
    match b
    case HalfBuilt(imports, read, mid, _) =>
      ReadsNothing(db, s, inner, imports, db.files[name].dependencies, read, mid);
    case WhollyBuilt(imports, read, mid, _, _, _, _) =>
      ReadsNothing(db, s, inner, imports, db.files[name].dependencies, read, mid);
  }

  lemma TriedVerdict(db: Database, s: Store, r: Reading, name: string, t: Store, bad: set<string>, found: bool)
    requires CanTry(db, s, r, name, t, bad, found) && name !in r.bad && name in db.files && name !in r.pending
    requires NothingToRead(db, s, db.files[name].dependencies, Reading(r.pending + [name], r.bad))
    ensures found <==> Acceptable(s, db.files[name])
  {
    hide Builds, Acceptable, NothingToRead;
    var a :| Tries(a, db, s, r, name, t, bad, found);
    assert Builds(a.build, db, s, r, name, t, a.mid, found);
    VerdictWithoutReading(db, s, r, name, t, a.mid, found);
  }

  /** Reading imports in turn left the store `read`: each of them is loaded in it, was known
      to be bad, or was refused on the way for a reason that the record tells. */
  ghost predicate ReadInTurn(rs: Reads, db: Database, s: Store, r: Reading, names: seq<string>, read: Store) {
    && (exists bad :: ReadsAll(rs, db, s, r, names, read, bad))
    && (forall name :: name in names && name !in read.files && name !in r.bad ==>
          ReadsTell(rs, db, r.pending, names, name))
  }

  /** The verdict on a file in any case: its imports were read in turn, and it is accepted
      exactly if the rule accepts it in the store that they left. */
  lemma VerdictInTurn(db: Database, s: Store, r: Reading, name: string, t: Store, bad: set<string>, ok: bool)
    requires Coherent(db) && CanBuild(db, s, r, name, t, bad, ok) && name !in r.pending
    ensures exists rs, read ::
      && ReadInTurn(rs, db, s, Reading(r.pending + [name], r.bad), db.files[name].dependencies, read)
      && (ok <==> Acceptable(read, db.files[name])) && (!ok ==> t == read)
  {
    hide Enterable, EnteredFile, ReadsAll, LinksTo, RangesBounded, ReadInTurn, Coherent;
    var b :| Builds(b, db, s, r, name, t, bad, ok);
    var inner, names := Reading(r.pending + [name], r.bad), db.files[name].dependencies;
    match b
    case HalfBuilt(imports, read, mid, _) => InTurn(imports, db, s, inner, names, read, mid);
    case WhollyBuilt(imports, read, mid, _, _, _, _) => InTurn(imports, db, s, inner, names, read, mid);
  }

  lemma InTurn(rs: Reads, db: Database, s: Store, r: Reading, names: seq<string>, read: Store, mid: set<string>)
    requires Coherent(db) && ReadsAll(rs, db, s, r, names, read, mid)
    ensures ReadInTurn(rs, db, s, r, names, read)
  {
    hide ReadsAll, ReadsTell, Coherent;
    forall name | name in names && name !in read.files && name !in r.bad
      ensures ReadsTell(rs, db, r.pending, names, name)
    {
      EachImportExplained(rs, db, s, r, names, read, mid, name);
    }
  }

  /** One import that is still to be read, and has none itself that is, is loaded afterwards
      exactly if the rule accepts it. */
  lemma ImportVerdict(db: Database, s: Store, r: Reading, name: string, t: Store, bad: set<string>)
    requires Coherent(db) && CanRead(db, s, r, [name], t, bad)
    requires name in db.files && name !in s.files && name !in r.bad && name !in r.pending
    requires NothingToRead(db, s, db.files[name].dependencies, Reading(r.pending + [name], r.bad))
    ensures name in t.files <==> Acceptable(s, db.files[name])
  {
    hide Builds, Acceptable, NothingToRead;
    var rs :| ReadsAll(rs, db, s, r, [name], t, bad);
    assert [name][..0] == [];
    match rs
    case Passed(before) => NoneRead(before, db, s, r, t, bad);
    case Asked(before, at, mid, attempt, found) =>
      NoneRead(before, db, s, r, at, mid);
      assert Reading(r.pending, r.bad) == r;
      assert [name][|[name]| - 1] == name && at == s;
      assert Tries(attempt, db, s, r, name, t, bad, found);
      assert CanTry(db, s, r, name, t, bad, found);
      TriedVerdict(db, s, r, name, t, bad, found);
      TriesMonotone(attempt, db, s, r, name, t, bad, found);
      if !found { RefusedLeaves(db, s, r, name, t, attempt.mid, attempt.build); }
  }

  lemma NoneRead(rs: Reads, db: Database, s: Store, r: Reading, t: Store, bad: set<string>)
    requires ReadsAll(rs, db, s, r, [], t, bad)
    ensures t == s && bad == r.bad
  {
    hide Tries;
  }

  lemma RefusedLeaves(db: Database, s: Store, r: Reading, name: string, t: Store, bad: set<string>, b: Build)
    requires Builds(b, db, s, r, name, t, bad, false) && name !in r.pending
    requires NothingToRead(db, s, db.files[name].dependencies, Reading(r.pending + [name], r.bad))
    ensures t == s
  {
    hide Enterable, Acceptable, EnteredFile, ReadsAll, LinksTo, NothingToRead;
    var inner := Reading(r.pending + [name], r.bad);
    match b
    case HalfBuilt(imports, read, mid, _) =>
      ReadsNothing(db, s, inner, imports, db.files[name].dependencies, read, mid);
    case WhollyBuilt(imports, read, mid, _, _, _, _) =>
      ReadsNothing(db, s, inner, imports, db.files[name].dependencies, read, mid);
  }
}
