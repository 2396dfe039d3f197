/** The symbol store of a descriptor pool: hash tables, a stack of checkpoints
    and the undo logs that make a rollback possible.

    A pointer to a heap string or to a descriptor is an index into the list that
    owns it (`strings`, `allocations`).  A rollback frees the tail of each list,
    so an index at or beyond the end of its list is a dangling pointer. */
module SymbolStore {
  import opened Options
  import opened DescriptorProtos

  datatype Kind = MESSAGE | FIELD | ENUM | ENUM_VALUE | SERVICE | METHOD | PACKAGE
  {
    predicate IsType() { this == MESSAGE || this == ENUM }

    predicate IsAggregate() { this == MESSAGE || this == PACKAGE || this == ENUM || this == SERVICE }
  }

  /** A symbol: its kind, the block of its descriptor and the block of its file. */
  datatype Symbol = Symbol(kind: Kind, block: nat, file: nat)

  /** What a symbol is declared under: its file, or an enclosing descriptor. */
  datatype Parent = FileScope(file: nat) | DescriptorScope(block: nat)

  /** Memory handed out by Allocate: the block of a file or of a descriptor.  Only
      messages have extension ranges. */
  datatype Block =
    | FileBlock(name: string, package: string, table: nat,
                dependencies: seq<Option<nat>>, publicDependencies: seq<nat>)
    | DescriptorBlock(kind: Kind, file: nat, parent: Parent, name: string, fullName: string,
                      ranges: seq<RangeProto>)

  /** A hash table entry: the pointer used as key, and the value. */
  datatype Entry<+V> = Entry(key: nat, value: V)

  type ParentIndex = map<(Parent, string), Symbol>

  datatype CheckPoint = CheckPoint(strings: nat, messages: nat, fileTables: nat, allocations: nat,
                                   symbols: nat, files: nat, extensions: nat)

  datatype Store = Store(
    strings: seq<string>,
    messages: seq<int>,
    fileTables: seq<ParentIndex>,
    allocations: seq<Block>,
    symbols: map<string, Entry<Symbol>>,
    files: map<string, Entry<nat>>,
    extensions: map<(nat, int), nat>,
    checkpoints: seq<CheckPoint>,
    symbolLog: seq<nat>,
    fileLog: seq<nat>,
    extensionLog: seq<(nat, int)>)

  const EMPTY: Store := Store([], [], [], [], map[], map[], map[], [], [], [], [])

  // ------------------------------------------------------------------
  // What each operation does to the store

  /** The names that the pointers logged from `mark` on point at. */
  function Logged(strings: seq<string>, log: seq<nat>, mark: nat): (r: set<string>) {
    set i | mark <= i < |log| && log[i] < |strings| :: strings[log[i]]
  }

  function LoggedPairs(log: seq<(nat, int)>, mark: nat): (r: set<(nat, int)>) {
    set i | mark <= i < |log| :: log[i]
  }

  function AddCheckpoint(s: Store): Store {
    s.(checkpoints := s.checkpoints +
         [CheckPoint(|s.strings|, |s.messages|, |s.fileTables|, |s.allocations|,
                     |s.symbolLog|, |s.fileLog|, |s.extensionLog|)])
  }

  function ClearLastCheckpoint(s: Store): Store
    requires s.checkpoints != []
  {
    var t := s.(checkpoints := s.checkpoints[..|s.checkpoints| - 1]);
    if t.checkpoints == [] then t.(symbolLog := [], fileLog := [], extensionLog := []) else t
  }

  /** What a rollback frees: the tails of the lists and of the logs. */
  function Truncated(s: Store, c: CheckPoint): Store
    requires Within(c, s) && s.checkpoints != []
  {
    s.(symbolLog := s.symbolLog[..c.symbols],
       fileLog := s.fileLog[..c.files],
       extensionLog := s.extensionLog[..c.extensions],
       strings := s.strings[..c.strings],
       messages := s.messages[..c.messages],
       fileTables := s.fileTables[..c.fileTables],
       allocations := s.allocations[..c.allocations],
       checkpoints := s.checkpoints[..|s.checkpoints| - 1])
  }

  function Rollback(s: Store): Store
    requires Valid(s) && s.checkpoints != []
  {
    var c := s.checkpoints[|s.checkpoints| - 1];
    Truncated(s, c).(symbols := s.symbols - Logged(s.strings, s.symbolLog, c.symbols),
                     files := s.files - Logged(s.strings, s.fileLog, c.files),
                     extensions := s.extensions - LoggedPairs(s.extensionLog, c.extensions))
  }

  function AddSymbol(s: Store, key: nat, symbol: Symbol): Store
    requires key < |s.strings|
  {
    if s.strings[key] in s.symbols then s
    else s.(symbols := s.symbols[s.strings[key] := Entry(key, symbol)], symbolLog := s.symbolLog + [key])
  }

  function AddFile(s: Store, key: nat, file: nat): Store
    requires key < |s.strings|
  {
    if s.strings[key] in s.files then s
    else s.(files := s.files[s.strings[key] := Entry(key, file)], fileLog := s.fileLog + [key])
  }

  function AddExtension(s: Store, extendee: nat, number: int, field: nat): Store {
    var key := (extendee, number);
    if key in s.extensions then s
    else s.(extensions := s.extensions[key := field], extensionLog := s.extensionLog + [key])
  }

  // ------------------------------------------------------------------
  // The invariant of the store

  /** No hash table key points at a freed string, and each key still spells the
      name it is stored under. */
  ghost predicate KeysAlive<V>(strings: seq<string>, m: map<string, Entry<V>>) {
    forall n :: n in m ==> m[n].key < |strings| && strings[m[n].key] == n
  }

  ghost predicate LogAlive(strings: seq<string>, log: seq<nat>) {
    forall i :: 0 <= i < |log| ==> log[i] < |strings|
  }

  /** A checkpoint taken when the lists and logs were no longer than now. */
  ghost predicate Within(c: CheckPoint, s: Store) {
    && c.strings <= |s.strings| && c.messages <= |s.messages|
    && c.fileTables <= |s.fileTables| && c.allocations <= |s.allocations|
    && c.symbols <= |s.symbolLog| && c.files <= |s.fileLog| && c.extensions <= |s.extensionLog|
  }

  ghost predicate Ordered(c: CheckPoint, d: CheckPoint) {
    && c.strings <= d.strings && c.messages <= d.messages
    && c.fileTables <= d.fileTables && c.allocations <= d.allocations
    && c.symbols <= d.symbols && c.files <= d.files && c.extensions <= d.extensions
  }

  /** Everything a checkpoint's rollback frees is out of the tables after it:
      log entries made before the checkpoint point at older strings, and a table
      key newer than the checkpoint is in the part of the log that it undoes. */
  ghost predicate Covers<V>(strings: seq<string>, m: map<string, Entry<V>>, log: seq<nat>, mark: nat, stringMark: nat) {
    && mark <= |log|
    && LogAlive(strings, log)
    && (forall i :: 0 <= i < mark ==> log[i] < stringMark)
    && (forall n :: n in m && m[n].key >= stringMark ==> n in Logged(strings, log, mark))
  }

  ghost predicate Covered(c: CheckPoint, s: Store) {
    && Covers(s.strings, s.symbols, s.symbolLog, c.symbols, c.strings)
    && Covers(s.strings, s.files, s.fileLog, c.files, c.strings)
  }

  ghost predicate Valid(s: Store) {
    && KeysAlive(s.strings, s.symbols) && KeysAlive(s.strings, s.files)
    && LogAlive(s.strings, s.symbolLog) && LogAlive(s.strings, s.fileLog)
    && (forall i :: 0 <= i < |s.checkpoints| ==> Within(s.checkpoints[i], s))
    && (forall i, j :: 0 <= i < j < |s.checkpoints| ==> Ordered(s.checkpoints[i], s.checkpoints[j]))
    && (forall i :: 0 <= i < |s.checkpoints| ==> Covered(s.checkpoints[i], s))
  }

  // ------------------------------------------------------------------
  // What may happen while a checkpoint stays open

  /** A checkpoint taken when the lists and logs were no shorter than in `s`. */
  ghost predicate After(c: CheckPoint, s: Store) {
    && |s.strings| <= c.strings && |s.messages| <= c.messages
    && |s.fileTables| <= c.fileTables && |s.allocations| <= c.allocations
    && |s.symbolLog| <= c.symbols && |s.fileLog| <= c.files && |s.extensionLog| <= c.extensions
  }

  /** `t` is `s` plus additions that the undo logs of `t` record: erasing what was
      logged since `s` gives back the tables of `s`. */
  ghost predicate Grows(s: Store, t: Store)
    requires Valid(t)
  {
    && s.strings <= t.strings && s.messages <= t.messages
    && s.fileTables <= t.fileTables && s.allocations <= t.allocations
    && s.symbolLog <= t.symbolLog && s.fileLog <= t.fileLog && s.extensionLog <= t.extensionLog
    && t.symbols - Logged(t.strings, t.symbolLog, |s.symbolLog|) == s.symbols
    && t.files - Logged(t.strings, t.fileLog, |s.fileLog|) == s.files
    && t.extensions - LoggedPairs(t.extensionLog, |s.extensionLog|) == s.extensions
    && s.checkpoints <= t.checkpoints
    && (forall i :: |s.checkpoints| <= i < |t.checkpoints| ==> After(t.checkpoints[i], s))
  }

  lemma GrowsReflexive(s: Store)
    requires Valid(s)
    ensures Grows(s, s)
  {
    assert Logged(s.strings, s.symbolLog, |s.symbolLog|) == {};
    assert Logged(s.strings, s.fileLog, |s.fileLog|) == {};
  }

  lemma LoggedSplit(strings: seq<string>, log: seq<nat>, early: nat, late: nat, lateStrings: nat)
    requires early <= late <= |log| && lateStrings <= |strings|
    requires forall i :: 0 <= i < late ==> log[i] < lateStrings
    ensures Logged(strings, log, early)
         == Logged(strings[..lateStrings], log[..late], early) + Logged(strings, log, late)
  {
    forall n | n in Logged(strings, log, early)
      ensures n in Logged(strings[..lateStrings], log[..late], early) + Logged(strings, log, late)
    {
      var i :| early <= i < |log| && log[i] < |strings| && strings[log[i]] == n;
      if i < late {
        assert log[..late][i] == log[i] && strings[..lateStrings][log[i]] == n;
      }
    }
  }

  /** The rollback of the last checkpoint, on one table: its keys stay alive, and
      an older checkpoint still covers what it will free. */
  lemma UndoCovers<V>(strings: seq<string>, m: map<string, Entry<V>>, log: seq<nat>,
                      early: nat, earlyStrings: nat, late: nat, lateStrings: nat)
    requires early <= late && earlyStrings <= lateStrings <= |strings|
    requires KeysAlive(strings, m)
    requires Covers(strings, m, log, early, earlyStrings) && Covers(strings, m, log, late, lateStrings)
    ensures KeysAlive(strings[..lateStrings], m - Logged(strings, log, late))
    ensures Covers(strings[..lateStrings], m - Logged(strings, log, late), log[..late], early, earlyStrings)
  {
    LoggedSplit(strings, log, early, late, lateStrings);
  }

  /** Strings allocated later do not change what a log names. */
  lemma LoggedMoreStrings(strings: seq<string>, more: seq<string>, log: seq<nat>, mark: nat)
    requires strings <= more && LogAlive(strings, log)
    ensures LogAlive(more, log) && Logged(more, log, mark) == Logged(strings, log, mark)
  {
    forall n | n in Logged(more, log, mark) ensures n in Logged(strings, log, mark) {
      var i :| mark <= i < |log| && log[i] < |more| && more[log[i]] == n;
      assert strings[log[i]] == n;
    }
    forall n | n in Logged(strings, log, mark) ensures n in Logged(more, log, mark) {
      var i :| mark <= i < |log| && log[i] < |strings| && strings[log[i]] == n;
      assert more[log[i]] == n;
    }
  }

  lemma LoggedPush(strings: seq<string>, log: seq<nat>, key: nat, mark: nat)
    requires key < |strings| && mark <= |log|
    ensures Logged(strings, log + [key], mark) == Logged(strings, log, mark) + {strings[key]}
  {
    var longer := log + [key];
    assert longer[|log|] == key;
    forall n | n in Logged(strings, log, mark) ensures n in Logged(strings, longer, mark) {
      var i :| mark <= i < |log| && log[i] < |strings| && strings[log[i]] == n;
      assert longer[i] == log[i];
    }
  }

  // ------------------------------------------------------------------
  // Runs

  datatype Op =
    | OpCheckpoint
    | OpClear
    | OpRollback
    | OpSymbol(key: nat, symbol: Symbol)
    | OpFile(key: nat, file: nat)
    | OpExtension(extendee: nat, number: int, field: nat)
    | OpString(text: string)
    | OpMessage(message: int)
    | OpFileTables
    | OpAllocate(block: Block)
    | OpWriteTable(table: nat, index: ParentIndex)
    | OpWriteBlock(target: nat, content: Block)

  /** An object the last checkpoint's rollback would free; only such an object is
      written to, because a builder fills in only what it allocated itself. */
  ghost predicate WritableTable(s: Store, i: nat) {
    i < |s.fileTables| && (s.checkpoints == [] || s.checkpoints[|s.checkpoints| - 1].fileTables <= i)
  }

  ghost predicate WritableBlock(s: Store, i: nat) {
    i < |s.allocations| && (s.checkpoints == [] || s.checkpoints[|s.checkpoints| - 1].allocations <= i)
  }

  ghost predicate Enabled(s: Store, op: Op) {
    match op
    case OpClear => s.checkpoints != []
    case OpRollback => s.checkpoints != []
    case OpSymbol(key, _) => key < |s.strings|
    case OpFile(key, _) => key < |s.strings|
    case OpWriteTable(i, _) => WritableTable(s, i)
    case OpWriteBlock(i, _) => WritableBlock(s, i)
    case _ => true
  }

  function Step(s: Store, op: Op): Store
    requires Valid(s) && Enabled(s, op)
  {
    match op
    case OpCheckpoint => AddCheckpoint(s)
    case OpClear => ClearLastCheckpoint(s)
    case OpRollback => Rollback(s)
    case OpSymbol(key, symbol) => AddSymbol(s, key, symbol)
    case OpFile(key, file) => AddFile(s, key, file)
    case OpExtension(extendee, number, field) => AddExtension(s, extendee, number, field)
    case OpString(text) => s.(strings := s.strings + [text])
    case OpMessage(message) => s.(messages := s.messages + [message])
    case OpFileTables => s.(fileTables := s.fileTables + [map[]])
    case OpAllocate(block) => s.(allocations := s.allocations + [block])
    case OpWriteTable(i, index) => s.(fileTables := s.fileTables[i := index])
    case OpWriteBlock(i, content) => s.(allocations := s.allocations[i := content])
  }

  lemma StepValid(s: Store, op: Op)
    requires Valid(s) && Enabled(s, op)
    ensures Valid(Step(s, op))
  {
    match op {
      case OpCheckpoint => CheckpointValid(s);
      case OpClear => ClearValid(s);
      case OpRollback => RollbackValid(s);
      case OpSymbol(key, symbol) => AddSymbolValid(s, key, symbol);
      case OpFile(key, file) => AddFileValid(s, key, file);
      case OpString(text) => StringValid(s, text);
      case _ => OtherValid(s, op);
    }
  }

  lemma CheckpointValid(s: Store)
    requires Valid(s)
    ensures Valid(AddCheckpoint(s))
  {
    var t := AddCheckpoint(s);
    forall i | 0 <= i < |t.checkpoints| ensures Covered(t.checkpoints[i], t) && Within(t.checkpoints[i], t) {
      if i < |s.checkpoints| {
        assert Covered(s.checkpoints[i], s);
      }
    }
  }

  lemma ClearValid(s: Store)
    requires Valid(s) && s.checkpoints != []
    ensures Valid(ClearLastCheckpoint(s))
  {
    var t := ClearLastCheckpoint(s);
    forall i | 0 <= i < |t.checkpoints| ensures Covered(t.checkpoints[i], t) {
      assert Covered(s.checkpoints[i], s);
    }
  }

  lemma AddSymbolValid(s: Store, key: nat, symbol: Symbol)
    requires Valid(s) && key < |s.strings|
    ensures Valid(AddSymbol(s, key, symbol))
  {
    var t := AddSymbol(s, key, symbol);
    forall i | 0 <= i < |t.checkpoints| ensures Covered(t.checkpoints[i], t) {
      StepCovers(s, OpSymbol(key, symbol), s.checkpoints[i]);
    }
  }

  lemma AddFileValid(s: Store, key: nat, file: nat)
    requires Valid(s) && key < |s.strings|
    ensures Valid(AddFile(s, key, file))
  {
    var t := AddFile(s, key, file);
    forall i | 0 <= i < |t.checkpoints| ensures Covered(t.checkpoints[i], t) {
      StepCovers(s, OpFile(key, file), s.checkpoints[i]);
    }
  }

  lemma StringValid(s: Store, text: string)
    requires Valid(s)
    ensures Valid(Step(s, OpString(text)))
  {
    var t := Step(s, OpString(text));
    forall i | 0 <= i < |t.checkpoints| ensures Covered(t.checkpoints[i], t) {
      StepCovers(s, OpString(text), s.checkpoints[i]);
    }
  }

  lemma OtherValid(s: Store, op: Op)
    requires Valid(s) && Enabled(s, op)
    requires op.OpExtension? || op.OpMessage? || op.OpFileTables? || op.OpAllocate?
             || op.OpWriteTable? || op.OpWriteBlock?
    ensures Valid(Step(s, op))
  {
    var t := Step(s, op);
    forall i | 0 <= i < |t.checkpoints| ensures Covered(t.checkpoints[i], t) {
      assert Covered(s.checkpoints[i], s);
    }
  }

  lemma StepCovers(s: Store, op: Op, c: CheckPoint)
    requires Valid(s) && Enabled(s, op) && !op.OpRollback? && !op.OpClear?
    requires Covered(c, s)
    ensures Covered(c, Step(s, op))
  {
    match op {
      case OpSymbol(key, _) => LoggedPush(s.strings, s.symbolLog, key, c.symbols);
      case OpFile(key, _) => LoggedPush(s.strings, s.fileLog, key, c.files);
      case OpString(text) =>
        LoggedMoreStrings(s.strings, s.strings + [text], s.symbolLog, c.symbols);
        LoggedMoreStrings(s.strings, s.strings + [text], s.fileLog, c.files);
      case _ =>
    }
  }

  lemma TopCheckpoint(s: Store)
    requires Valid(s) && s.checkpoints != []
    ensures Within(s.checkpoints[|s.checkpoints| - 1], s)
    ensures s.checkpoints[|s.checkpoints| - 1].symbols <= |s.symbolLog|
    ensures s.checkpoints[|s.checkpoints| - 1].files <= |s.fileLog|
    ensures s.checkpoints[|s.checkpoints| - 1].extensions <= |s.extensionLog|
    ensures LogAlive(s.strings, s.symbolLog) && LogAlive(s.strings, s.fileLog)
  {
  }

  lemma RollbackValid(s: Store)
    requires Valid(s) && s.checkpoints != []
    ensures Valid(Rollback(s))
  {
    var n := |s.checkpoints| - 1;
    var c := s.checkpoints[n];
    var t := Rollback(s);
    forall i | 0 <= i < n
      ensures Covered(t.checkpoints[i], t)
    {
      var d := s.checkpoints[i];
      UndoCovers(s.strings, s.symbols, s.symbolLog, d.symbols, d.strings, c.symbols, c.strings);
      UndoCovers(s.strings, s.files, s.fileLog, d.files, d.strings, c.files, c.strings);
    }
    UndoCovers(s.strings, s.symbols, s.symbolLog, c.symbols, c.strings, c.symbols, c.strings);
    UndoCovers(s.strings, s.files, s.fileLog, c.files, c.strings, c.files, c.strings);
  }

  // ------------------------------------------------------------------
  // A rollback gives back exactly the state of its checkpoint

  /** Growth survives one more step, as long as the step does not take the stack
      of checkpoints below where the growth began. */
  lemma StepGrows(s: Store, t: Store, op: Op)
    requires Valid(t) && Grows(s, t) && Enabled(t, op)
    requires s.checkpoints != []
    requires op.OpClear? || op.OpRollback? ==> |t.checkpoints| > |s.checkpoints|
    requires op.OpWriteTable? ==> |s.fileTables| <= op.table
    requires op.OpWriteBlock? ==> |s.allocations| <= op.target
    ensures Valid(Step(t, op)) && Grows(s, Step(t, op))
  {
    StepValid(t, op);
    match op {
      case OpRollback => RollbackGrows(s, t);
      case OpClear =>
      case _ => AdditionGrows(s, t, op);
    }
  }

  lemma RollbackGrows(s: Store, t: Store)
    requires Valid(t) && Grows(s, t) && |t.checkpoints| > |s.checkpoints|
    requires Valid(Rollback(t))
    ensures Grows(s, Rollback(t))
  {
    var c := t.checkpoints[|t.checkpoints| - 1];
    assert Covered(c, t) && After(c, s);
    UndoTwice(t.strings, t.symbols, t.symbolLog, |s.symbolLog|, c.symbols, c.strings);
    UndoTwice(t.strings, t.files, t.fileLog, |s.fileLog|, c.files, c.strings);
    PairsSplit(t.extensionLog, |s.extensionLog|, c.extensions);
  }

  /** Undoing a table to a mark and then to an earlier mark, with the strings freed
      in between, is undoing it to the earlier mark. */
  lemma UndoTwice<V>(strings: seq<string>, m: map<string, V>, log: seq<nat>,
                     early: nat, late: nat, lateStrings: nat)
    requires early <= late <= |log| && lateStrings <= |strings|
    requires forall i :: 0 <= i < late ==> log[i] < lateStrings
    ensures m - Logged(strings, log, late) - Logged(strings[..lateStrings], log[..late], early)
         == m - Logged(strings, log, early)
  {
    LoggedSplit(strings, log, early, late, lateStrings);
  }

  lemma AdditionGrows(s: Store, t: Store, op: Op)
    requires Valid(t) && Grows(s, t) && Enabled(t, op) && Valid(Step(t, op))
    requires !op.OpClear? && !op.OpRollback?
    requires op.OpWriteTable? ==> |s.fileTables| <= op.table
    requires op.OpWriteBlock? ==> |s.allocations| <= op.target
    ensures Grows(s, Step(t, op))
  {
    match op {
      case OpSymbol(key, symbol) => SymbolGrows(s, t, key, symbol);
      case OpFile(key, file) => FileGrows(s, t, key, file);
      case OpExtension(extendee, number, field) => ExtensionGrows(s, t, op);
      case OpString(text) => StringGrows(s, t, text);
      case _ => OtherGrows(s, t, op);
    }
  }

  lemma SymbolGrows(s: Store, t: Store, key: nat, symbol: Symbol)
    requires Valid(t) && Grows(s, t) && key < |t.strings| && Valid(AddSymbol(t, key, symbol))
    ensures Grows(s, AddSymbol(t, key, symbol))
  {
    LoggedPush(t.strings, t.symbolLog, key, |s.symbolLog|);
  }

  lemma FileGrows(s: Store, t: Store, key: nat, file: nat)
    requires Valid(t) && Grows(s, t) && key < |t.strings| && Valid(AddFile(t, key, file))
    ensures Grows(s, AddFile(t, key, file))
  {
    LoggedPush(t.strings, t.fileLog, key, |s.fileLog|);
  }

  lemma ExtensionGrows(s: Store, t: Store, op: Op)
    requires op.OpExtension? && Valid(t) && Grows(s, t) && Valid(Step(t, op))
    ensures Grows(s, Step(t, op))
  {
    PairsPush(t.extensionLog, (op.extendee, op.number), |s.extensionLog|);
  }

  lemma StringGrows(s: Store, t: Store, text: string)
    requires Valid(t) && Grows(s, t) && Valid(Step(t, OpString(text)))
    ensures Grows(s, Step(t, OpString(text)))
  {
    LoggedMoreStrings(t.strings, t.strings + [text], t.symbolLog, |s.symbolLog|);
    LoggedMoreStrings(t.strings, t.strings + [text], t.fileLog, |s.fileLog|);
  }

  lemma OtherGrows(s: Store, t: Store, op: Op)
    requires Valid(t) && Grows(s, t) && Enabled(t, op) && Valid(Step(t, op))
    requires op.OpCheckpoint? || op.OpMessage? || op.OpFileTables? || op.OpAllocate?
             || op.OpWriteTable? || op.OpWriteBlock?
    requires op.OpWriteTable? ==> |s.fileTables| <= op.table
    requires op.OpWriteBlock? ==> |s.allocations| <= op.target
    ensures Grows(s, Step(t, op))
  {
  }

  lemma PairsPush(log: seq<(nat, int)>, key: (nat, int), mark: nat)
    requires mark <= |log|
    ensures LoggedPairs(log + [key], mark) == LoggedPairs(log, mark) + {key}
  {
    var longer := log + [key];
    assert longer[|log|] == key;
    forall p | p in LoggedPairs(log, mark) ensures p in LoggedPairs(longer, mark) {
      var i :| mark <= i < |log| && log[i] == p;
      assert longer[i] == p;
    }
  }

  lemma PairsSplit(log: seq<(nat, int)>, early: nat, late: nat)
    requires early <= late <= |log|
    ensures LoggedPairs(log, early) == LoggedPairs(log[..late], early) + LoggedPairs(log, late)
  {
    forall p | p in LoggedPairs(log, early) ensures p in LoggedPairs(log[..late], early) + LoggedPairs(log, late) {
      var i :| early <= i < |log| && log[i] == p;
      if i < late { assert log[..late][i] == p; }
    }
  }

  /** Rolling back to a checkpoint undoes all growth since it was taken. */
  lemma RollbackUndoesGrowth(s: Store, t: Store)
    requires Valid(s) && Valid(t)
    requires Grows(AddCheckpoint(s), t) && |t.checkpoints| == |s.checkpoints| + 1
    ensures Rollback(t) == s
  {
    assert t.checkpoints == AddCheckpoint(s).checkpoints;
  }

  lemma GrowsTransitive(s: Store, t: Store, u: Store)
    requires Valid(t) && Valid(u) && Grows(s, t) && Grows(t, u)
    ensures Grows(s, u)
  {
    assert u.strings[..|t.strings|] == t.strings;
    assert u.symbolLog[..|t.symbolLog|] == t.symbolLog && u.fileLog[..|t.fileLog|] == t.fileLog;
    assert u.extensionLog[..|t.extensionLog|] == t.extensionLog;
    UndoTwice(u.strings, u.symbols, u.symbolLog, |s.symbolLog|, |t.symbolLog|, |t.strings|);
    UndoTwice(u.strings, u.files, u.fileLog, |s.fileLog|, |t.fileLog|, |t.strings|);
    PairsSplit(u.extensionLog, |s.extensionLog|, |t.extensionLog|);
  }

  /** Growth past a checkpoint that is then cleared is growth of what was there
      before it, because the checkpoints below are still open. */
  lemma ClearGrows(s: Store, t: Store)
    requires Valid(s) && Valid(t) && s.checkpoints != []
    requires Grows(AddCheckpoint(s), t) && |t.checkpoints| == |s.checkpoints| + 1
    requires Valid(ClearLastCheckpoint(t))
    ensures Grows(s, ClearLastCheckpoint(t))
  {
    assert t.checkpoints == AddCheckpoint(s).checkpoints;
  }

  /** A run all of whose steps are enabled, and which never takes the stack of
      checkpoints below `base`. */
  ghost predicate Legal(s: Store, run: seq<Op>, base: nat)
    requires Valid(s)
    decreases |run|
  {
    run == [] ||
    (&& Enabled(s, run[0])
     && (run[0].OpClear? || run[0].OpRollback? ==> |s.checkpoints| > base)
     && (StepValid(s, run[0]); Legal(Step(s, run[0]), run[1..], base)))
  }

  function Run(s: Store, run: seq<Op>, base: nat): (t: Store)
    requires Valid(s) && Legal(s, run, base)
    ensures Valid(t)
    decreases |run|
  {
    if run == [] then s else
    StepValid(s, run[0]);
    Run(Step(s, run[0]), run[1..], base)
  }

  lemma {:induction false} RunGrows(s: Store, t: Store, run: seq<Op>)
    requires Valid(t) && Grows(s, t) && s.checkpoints != []
    requires Legal(t, run, |s.checkpoints|)
    requires s.checkpoints[|s.checkpoints| - 1].fileTables == |s.fileTables|
    requires s.checkpoints[|s.checkpoints| - 1].allocations == |s.allocations|
    ensures Grows(s, Run(t, run, |s.checkpoints|))
    decreases |run|
  {
    if run != [] {
      StepGrows(s, t, run[0]);
      RunGrows(s, Step(t, run[0]), run[1..]);
    }
  }

  /** The store with one more checkpoint, as valid as it was. */
  function Checkpointed(s: Store): (t: Store)
    requires Valid(s)
    ensures Valid(t) && t == AddCheckpoint(s)
  {
    CheckpointValid(s);
    AddCheckpoint(s)
  }

  /** Whatever happens between a checkpoint and its own rollback -- additions,
      nested checkpoints, cleared or rolled back -- the rollback gives back the
      store exactly as it was. */
  lemma RollbackRestores(s: Store, body: seq<Op>)
    requires Valid(s) && Legal(Checkpointed(s), body, |s.checkpoints| + 1)
    requires |Run(Checkpointed(s), body, |s.checkpoints| + 1).checkpoints| == |s.checkpoints| + 1
    ensures Rollback(Run(Checkpointed(s), body, |s.checkpoints| + 1)) == s
  {
    GrowsReflexive(AddCheckpoint(s));
    RunGrows(AddCheckpoint(s), AddCheckpoint(s), body);
    RollbackUndoesGrowth(s, Run(AddCheckpoint(s), body, |s.checkpoints| + 1));
  }

  lemma EmptyValid()
    ensures Valid(EMPTY)
  {
  }

  function EmptyStore(): (s: Store)
    ensures Valid(s) && s == EMPTY
  {
    EMPTY
  }

  /** In every state a run can reach, no table key refers to a freed string. */
  lemma ReachableKeysAlive(run: seq<Op>)
    requires Legal(EmptyStore(), run, 0)
    ensures KeysAlive(Run(EmptyStore(), run, 0).strings, Run(EmptyStore(), run, 0).symbols)
    ensures KeysAlive(Run(EmptyStore(), run, 0).strings, Run(EmptyStore(), run, 0).files)
  {
  }

  // ------------------------------------------------------------------
  // The tables themselves, updated in place

  class Tables {
    var strings: seq<string>
    var messages: seq<int>
    var fileTables: seq<ParentIndex>
    var allocations: seq<Block>
    var symbols: map<string, Entry<Symbol>>
    var files: map<string, Entry<nat>>
    var extensions: map<(nat, int), nat>
    var checkpoints: seq<CheckPoint>
    var symbolLog: seq<nat>
    var fileLog: seq<nat>
    var extensionLog: seq<(nat, int)>

    function State(): Store
      reads this
    {
      Store(strings, messages, fileTables, allocations, symbols, files, extensions,
            checkpoints, symbolLog, fileLog, extensionLog)
    }

    constructor ()
      ensures State() == EMPTY && Valid(State())
    {
      strings, messages, fileTables, allocations := [], [], [], [];
      symbols, files, extensions := map[], map[], map[];
      checkpoints, symbolLog, fileLog, extensionLog := [], [], [], [];
    }

    method PushCheckpoint()
      requires Valid(State())
      modifies this
      ensures State() == AddCheckpoint(old(State())) && Valid(State())
    {
      CheckpointValid(State());
      checkpoints := checkpoints +
        [CheckPoint(|strings|, |messages|, |fileTables|, |allocations|, |symbolLog|, |fileLog|, |extensionLog|)];
    }

    method PopCheckpoint()
      requires Valid(State()) && checkpoints != []
      modifies this
      ensures State() == ClearLastCheckpoint(old(State())) && Valid(State())
    {
      ClearValid(State());
      checkpoints := checkpoints[..|checkpoints| - 1];
      if checkpoints == [] {
        symbolLog, fileLog, extensionLog := [], [], [];
      }
    }

    method EraseSymbols(mark: nat)
      requires mark <= |symbolLog| && LogAlive(strings, symbolLog)
      modifies `symbols
      ensures symbols == old(symbols) - Logged(strings, symbolLog, mark)
    {
      assert Logged(strings, symbolLog[..mark], mark) == {};
      for i := mark to |symbolLog|
        invariant symbols == old(symbols) - Logged(strings, symbolLog[..i], mark)
      {
        LoggedPush(strings, symbolLog[..i], symbolLog[i], mark);
        assert symbolLog[..i + 1] == symbolLog[..i] + [symbolLog[i]];
        symbols := symbols - {strings[symbolLog[i]]};
      }
      assert symbolLog[..|symbolLog|] == symbolLog;
    }

    method EraseFiles(mark: nat)
      requires mark <= |fileLog| && LogAlive(strings, fileLog)
      modifies `files
      ensures files == old(files) - Logged(strings, fileLog, mark)
    {
      assert Logged(strings, fileLog[..mark], mark) == {};
      for i := mark to |fileLog|
        invariant files == old(files) - Logged(strings, fileLog[..i], mark)
      {
        LoggedPush(strings, fileLog[..i], fileLog[i], mark);
        assert fileLog[..i + 1] == fileLog[..i] + [fileLog[i]];
        files := files - {strings[fileLog[i]]};
      }
      assert fileLog[..|fileLog|] == fileLog;
    }

    method EraseExtensions(mark: nat)
      requires mark <= |extensionLog|
      modifies `extensions
      ensures extensions == old(extensions) - LoggedPairs(extensionLog, mark)
    {
      assert LoggedPairs(extensionLog[..mark], mark) == {};
      for i := mark to |extensionLog|
        invariant extensions == old(extensions) - LoggedPairs(extensionLog[..i], mark)
      {
        PairsPush(extensionLog[..i], extensionLog[i], mark);
        assert extensionLog[..i + 1] == extensionLog[..i] + [extensionLog[i]];
        extensions := extensions - {extensionLog[i]};
      }
      assert extensionLog[..|extensionLog|] == extensionLog;
    }

    method RollbackToLastCheckpoint()
      requires Valid(State()) && checkpoints != []
      modifies this
      ensures State() == Rollback(old(State())) && Valid(State())
    {
      hide Valid, Within, Covered;
      ghost var before := State();
      var c := checkpoints[|checkpoints| - 1];
      TopCheckpoint(before);
      EraseSymbols(c.symbols);
      EraseFiles(c.files);
      EraseExtensions(c.extensions);
      Truncate(c);
      assert State() == Rollback(before);
      RollbackValid(before);
    }

    method Truncate(c: CheckPoint)
      requires checkpoints != [] && Within(c, State())
      modifies this
      ensures State() == Truncated(old(State()), c)
    {
      symbolLog, fileLog, extensionLog := symbolLog[..c.symbols], fileLog[..c.files], extensionLog[..c.extensions];
      strings, messages := strings[..c.strings], messages[..c.messages];
      fileTables, allocations := fileTables[..c.fileTables], allocations[..c.allocations];
      checkpoints := checkpoints[..|checkpoints| - 1];
    }

    method AllocateString(text: string) returns (key: nat)
      requires Valid(State())
      modifies `strings
      ensures State() == Step(old(State()), OpString(text)) && Valid(State())
      ensures key == old(|strings|)
    {
      StringValid(State(), text);
      key := |strings|;
      strings := strings + [text];
    }

    method Allocate(block: Block) returns (index: nat)
      requires Valid(State())
      modifies `allocations
      ensures State() == Step(old(State()), OpAllocate(block)) && Valid(State())
      ensures index == old(|allocations|)
    {
      OtherValid(State(), OpAllocate(block));
      index := |allocations|;
      allocations := allocations + [block];
    }

    method AllocateFileTables() returns (index: nat)
      requires Valid(State())
      modifies `fileTables
      ensures State() == Step(old(State()), OpFileTables) && Valid(State())
      ensures index == old(|fileTables|)
    {
      OtherValid(State(), OpFileTables);
      index := |fileTables|;
      fileTables := fileTables + [map[]];
    }

    method InsertSymbol(key: nat, symbol: Symbol) returns (added: bool)
      requires Valid(State()) && key < |strings|
      modifies `symbols, `symbolLog
      ensures State() == AddSymbol(old(State()), key, symbol) && Valid(State())
      ensures added <==> strings[key] !in old(symbols)
    {
      AddSymbolValid(State(), key, symbol);
      added := strings[key] !in symbols;
      if added {
        symbols := symbols[strings[key] := Entry(key, symbol)];
        symbolLog := symbolLog + [key];
      }
    }

    method InsertFile(key: nat, file: nat) returns (added: bool)
      requires Valid(State()) && key < |strings|
      modifies `files, `fileLog
      ensures State() == AddFile(old(State()), key, file) && Valid(State())
      ensures added <==> strings[key] !in old(files)
    {
      AddFileValid(State(), key, file);
      added := strings[key] !in files;
      if added {
        files := files[strings[key] := Entry(key, file)];
        fileLog := fileLog + [key];
      }
    }

    method InsertExtension(extendee: nat, number: int, field: nat) returns (added: bool)
      requires Valid(State())
      modifies `extensions, `extensionLog
      ensures State() == AddExtension(old(State()), extendee, number, field) && Valid(State())
      ensures added <==> (extendee, number) !in old(extensions)
    {
      OtherValid(State(), OpExtension(extendee, number, field));
      added := (extendee, number) !in extensions;
      if added {
        extensions := extensions[(extendee, number) := field];
        extensionLog := extensionLog + [(extendee, number)];
      }
    }

    method WriteTable(table: nat, index: ParentIndex)
      requires Valid(State()) && WritableTable(State(), table)
      modifies `fileTables
      ensures State() == Step(old(State()), OpWriteTable(table, index)) && Valid(State())
    {
      OtherValid(State(), OpWriteTable(table, index));
      fileTables := fileTables[table := index];
    }

    method WriteBlock(target: nat, content: Block)
      requires Valid(State()) && WritableBlock(State(), target)
      modifies `allocations
      ensures State() == Step(old(State()), OpWriteBlock(target, content)) && Valid(State())
    {
      OtherValid(State(), OpWriteBlock(target, content));
      allocations := allocations[target := content];
    }
  }
}
