/** Databases of file descriptors: one filled file by file, and merges of databases. */
module DescriptorDatabases {
  import opened Options
  import opened DescriptorProtos
  import opened SymbolIndex
  import opened FileIndex
  import Fallback = FileBuilds

  // ------------------------------------------------------------------
  // The index in order

  predicate Sound<V>(x: Index<V>) {
    WellFormed(x.symbols) && InOrder(x.extensions)
  }

  lemma BeforeTransitive<V>(a: ExtensionEntry<V>, b: ExtensionEntry<V>, e: string, n: int)
    requires Before(a, b.extendee, b.number) && Before(b, e, n)
    ensures Before(a, e, n)
  {
    if Less(a.extendee, b.extendee) && Less(b.extendee, e) { LessTransitive(a.extendee, b.extendee, e); }
  }

  lemma BeforeTotal<V>(a: ExtensionEntry<V>, b: ExtensionEntry<V>)
    ensures Before(a, b.extendee, b.number) || Before(b, a.extendee, a.number)
         || (a.extendee == b.extendee && a.number == b.number)
    ensures !(Before(a, b.extendee, b.number) && Before(b, a.extendee, a.number))
  {
    LessTotal(a.extendee, b.extendee);
    LessIrreflexive(a.extendee);
    if Less(a.extendee, b.extendee) && Less(b.extendee, a.extendee) {
      LessTransitive(a.extendee, b.extendee, a.extendee);
    }
  }

  /** The entries before the bound are before the key, and the others are not. */
  lemma LowerBoundSplits<V>(s: seq<ExtensionEntry<V>>, e: string, n: int, k: nat)
    requires InOrder(s) && k < |s|
    ensures k < LowerBound(s, e, n) <==> Before(s[k], e, n)
  {
    var l := LowerBound(s, e, n);
    if l < k && Before(s[k], e, n) { BeforeTransitive(s[l], s[k], e, n); }
  }

  /** An extension is found exactly when the table has an entry for it. */
  lemma FindsExtension<V>(s: seq<ExtensionEntry<V>>, k: nat)
    requires InOrder(s) && k < |s|
    ensures LowerBound(s, s[k].extendee, s[k].number) == k
  {
    var l := LowerBound(s, s[k].extendee, s[k].number);
    BeforeTotal(s[k], s[k]);
    LowerBoundSplits(s, s[k].extendee, s[k].number, k);
  }

  lemma NumbersAscend<V>(s: seq<ExtensionEntry<V>>, e: string, l: nat)
    requires InOrder(s) && l <= |s|
    ensures var r := NumbersFrom(s, l, e); forall i, j :: 0 <= i < j < |r| ==> r[i] < r[j]
  {
    var r := NumbersFrom(s, l, e);
    LessIrreflexive(e);
    forall i, j | 0 <= i < j < |r| ensures r[i] < r[j] {
      NumberIsEntry(s, l, e, i);
      NumberIsEntry(s, l, e, j);
    }
  }

  /** All extension numbers of a type: exactly those registered from 0 up, in ascending
      order, each once. */
  lemma NumbersExact<V>(s: seq<ExtensionEntry<V>>, e: string, n: int)
    requires InOrder(s)
    ensures n in NumbersFrom(s, LowerBound(s, e, 0), e) <==> n >= 0 && ExtensionValue(s, e, n).Some?
    ensures var r := NumbersFrom(s, LowerBound(s, e, 0), e); forall i, j :: 0 <= i < j < |r| ==> r[i] < r[j]
  {
    var l := LowerBound(s, e, 0);
    var r := NumbersFrom(s, l, e);
    NumbersAscend(s, e, l);
    if n in r {
      var i :| 0 <= i < |r| && r[i] == n;
      NumberIsEntry(s, l, e, i);
      FindsExtension(s, l + i);
      LowerBoundSplits(s, e, 0, l + i);
    }
    if n >= 0 && ExtensionValue(s, e, n).Some? {
      var k := LowerBound(s, e, n);
      LowerBoundSplits(s, e, 0, k);
      NumbersReach(s, l, k, e);
    }
  }

  lemma {:induction false} NumberIsEntry<V>(s: seq<ExtensionEntry<V>>, l: nat, e: string, i: nat)
    requires l <= |s| && i < |NumbersFrom(s, l, e)|
    ensures l + i < |s| && s[l + i].extendee == e && s[l + i].number == NumbersFrom(s, l, e)[i]
    decreases i
  {
    if i > 0 { NumberIsEntry(s, l + 1, e, i - 1); }
  }

  /** The entries of a type are next to each other. */
  lemma {:induction false} NumbersReach<V>(s: seq<ExtensionEntry<V>>, l: nat, k: nat, e: string)
    requires InOrder(s) && l <= k < |s| && s[k].extendee == e && !Before(s[l], e, 0)
    ensures s[k].number in NumbersFrom(s, l, e)
    decreases k - l
  {
    LessIrreflexive(e);
    if l < k {
      assert Before(s[l], e, s[k].number);
      assert !Before(s[l + 1], e, 0) by { if Before(s[l + 1], e, 0) { BeforeTransitive(s[l], s[l + 1], e, 0); } }
      NumbersReach(s, l + 1, k, e);
    }
  }

  // ------------------------------------------------------------------
  // What adding a file enters

  ghost predicate Holds<V>(x: Index<V>, q: Request, v: V) {
    match q
    case SymbolNamed(name) => Entry(name, v) in x.symbols
    case ExtensionOf(e, n) => ExtensionEntry(e, n, v) in x.extensions
  }

  lemma InsertedHolds<T>(s: seq<T>, u: nat, e: T, q: T)
    requires u <= |s|
    ensures q in s[..u] + [e] + s[u..] <==> q in s || q == e
  {
    assert s == s[..u] + s[u..];
  }

  lemma WithSymbol<V>(x: Index<V>, name: string, v: V, q: Request, w: V)
    requires Sound(x) && Accepts(x.symbols, name)
    ensures var y := With(x, SymbolNamed(name), v);
      (Sound(y) && y.extensions == x.extensions && y.names == x.names
       && (PrefixFree(y.symbols) <==> PrefixFree(x.symbols) && !Slips(x.symbols, name))
       && (Holds(y, q, w) <==> Holds(x, q, w) || (q == SymbolNamed(name) && w == v)))
  {
    hide Slips, WellFormed, Accepts, PrefixFree, UpperBound;
    AddingKeepsPrefixFree(x.symbols, Entry(name, v));
    forall k | 0 <= k < |x.symbols| ensures x.symbols[k].key != name { AcceptedIsNew(x.symbols, name, k); }
    if q.SymbolNamed? { InsertedHolds(x.symbols, UpperBound(x.symbols, name), Entry(name, v), Entry(q.name, w)); }
  }

  lemma ExtensionInOrder<V>(s: seq<ExtensionEntry<V>>, l: nat, e: ExtensionEntry<V>)
    requires InOrder(s) && l == LowerBound(s, e.extendee, e.number) && !IsAt(s, l, e.extendee, e.number)
    ensures InOrder(s[..l] + [e] + s[l..])
  {
    var t := s[..l] + [e] + s[l..];
    forall k | 0 <= k < |s|
      ensures if k < l then Before(s[k], e.extendee, e.number) else Before(e, s[k].extendee, s[k].number)
    {
      hide LowerBound, Less;
      LowerBoundSplits(s, e.extendee, e.number, k);
      BeforeTotal(s[k], e);
      if l < |s| { BeforeTotal(s[l], e); }
      if l < k { BeforeTransitive(e, s[l], s[k].extendee, s[k].number); }
    }
    hide LowerBound, IsAt, Before;
    assert forall k :: 0 <= k < l ==> t[k] == s[k];
    assert forall k :: l < k < |t| ==> t[k] == s[k - 1];
    forall i, j | 0 <= i < j < |t| ensures Before(t[i], t[j].extendee, t[j].number) {
      if i != l && j != l {
        assert Before(s[if i < l then i else i - 1], t[j].extendee, t[j].number);
      }
    }
  }

  lemma WithKeeps<V>(x: Index<V>, r: Request, v: V, q: Request, w: V)
    requires Sound(x) && Grants(x, r)
    ensures Sound(With(x, r, v)) && With(x, r, v).names == x.names
    ensures Holds(With(x, r, v), q, w) <==> Holds(x, q, w) || (q == r && w == v)
    ensures PrefixFree(With(x, r, v).symbols) <==>
      PrefixFree(x.symbols) && !(r.SymbolNamed? && Slips(x.symbols, r.name))
  {
    match r
    case SymbolNamed(name) => WithSymbol(x, name, v, q, w);
    case ExtensionOf(e, n) =>
      hide Slips, PrefixFree, LowerBound;
      var l := LowerBound(x.extensions, e, n);
      ExtensionInOrder(x.extensions, l, ExtensionEntry(e, n, v));
      if q.ExtensionOf? {
        InsertedHolds(x.extensions, l, ExtensionEntry(e, n, v), ExtensionEntry(q.extendee, q.number, w));
      }
  }

  /** No granted symbol slips past the check. */
  predicate NeverSlips<V>(x: Index<V>, rs: seq<Request>, v: V)
    decreases rs
  {
    rs == [] || !Grants(x, rs[0])
    || (!(rs[0].SymbolNamed? && Slips(x.symbols, rs[0].name)) && NeverSlips(With(x, rs[0], v), rs[1..], v))
  }

  /** What a run of requests leaves behind: the table is in order, holds what it held and
      nothing but that and requested entries, all of them when every request was granted,
      and has lost the prefix invariant exactly if a name slipped through. */
  lemma {:induction false} ServeKeeps<V>(x: Index<V>, rs: seq<Request>, v: V, q: Request, w: V)
    requires Sound(x)
    ensures var (y, ok) := Serve(x, rs, v);
      (Sound(y) && y.names == x.names
       && (Holds(x, q, w) ==> Holds(y, q, w))
       && (Holds(y, q, w) ==> Holds(x, q, w) || (q in rs && w == v))
       && (ok && q in rs && w == v ==> Holds(y, q, w))
       && (PrefixFree(y.symbols) <==> PrefixFree(x.symbols) && NeverSlips(x, rs, v)))
    decreases rs
  {
    hide Slips, PrefixFree, Grants, With, Sound, Holds;
    if rs != [] && Grants(x, rs[0]) {
      WithKeeps(x, rs[0], v, q, w);
      ServeKeeps(With(x, rs[0], v), rs[1..], v, q, w);
    }
  }

  // ------------------------------------------------------------------
  // A database filled by Add

  /** Files are indexed under their own names, and an entry's value is a file of the
      database that asked for the entry. */
  ghost predicate Coherent(x: Index<FileProto>) {
    && Sound(x)
    && (forall n :: n in x.names ==> x.names[n].name == n)
    && (forall q, w :: Holds(x, q, w) ==> Backed(x, q, w))
  }

  predicate Backed(x: Index<FileProto>, q: Request, w: FileProto) {
    w.name in x.names && x.names[w.name] == w && q in Requests(w)
  }

  /** Adding a file keeps the database coherent, whether or not it succeeds. */
  lemma AddKeepsCoherent(x: Index<FileProto>, file: FileProto)
    requires Coherent(x)
    ensures Coherent(AddedFile(x, file, file).0)
    ensures AddedFile(x, file, file).0.names == if file.name in x.names then x.names else x.names[file.name := file]
  {
    hide Requests, Serve, NeverSlips, PrefixFree, Sound, Holds;
    if file.name !in x.names {
      var start := x.(names := x.names[file.name := file]);
      var y := Serve(start, Requests(file), file).0;
      RenamedHolds(x, start);
      ServeKeeps(start, Requests(file), file, SymbolNamed(""), file);
      forall q, w | Holds(y, q, w) ensures Backed(y, q, w) {
        ServeKeeps(start, Requests(file), file, q, w);
        RenamedHolds(x, start);
        if Holds(x, q, w) { assert Backed(x, q, w); }
      }
    }
  }

  lemma RenamedHolds<V(!new)>(x: Index<V>, y: Index<V>)
    requires x.symbols == y.symbols && x.extensions == y.extensions
    ensures Sound(x) <==> Sound(y)
    ensures forall q, w :: Holds(x, q, w) <==> Holds(y, q, w)
  {
  }

  /** The database after a run of Adds, failing ones included. */
  function Filled(files: seq<FileProto>): Index<FileProto> {
    if files == [] then Empty()
    else AddedFile(Filled(files[..|files| - 1]), files[|files| - 1], files[|files| - 1]).0
  }

  ghost predicate RunNeverSlips(files: seq<FileProto>) {
    files == [] ||
    var before, file := files[..|files| - 1], files[|files| - 1];
    && RunNeverSlips(before)
    && (file.name in Filled(before).names
        || NeverSlips(Filled(before).(names := Filled(before).names[file.name := file]), Requests(file), file))
  }

  /** Every run keeps the database coherent, and its symbol table prefix-free exactly
      when no name slipped through. */
  lemma {:induction false} RunCoherent(files: seq<FileProto>)
    ensures Coherent(Filled(files))
    ensures PrefixFree(Filled(files).symbols) <==> RunNeverSlips(files)
  {
    if files != [] {
      hide Requests, Serve, NeverSlips, PrefixFree, Sound, Holds;
      var before, file := files[..|files| - 1], files[|files| - 1];
      RunCoherent(before);
      var x := Filled(before);
      AddKeepsCoherent(x, file);
      var start := x.(names := x.names[file.name := file]);
      RenamedHolds(x, start);
      ServeKeeps(start, Requests(file), file, SymbolNamed(""), file);
    }
  }

  lemma SymbolValueExact<V(!new)>(x: Index<V>, name: string, v: V)
    requires Sound(x)
    ensures SymbolValue(x.symbols, name) == Some(v) ==>
              exists key :: Holds(x, SymbolNamed(key), v) && IsSubSymbol(key, name)
    ensures PrefixFree(x.symbols) && (exists key :: Holds(x, SymbolNamed(key), v) && IsSubSymbol(key, name)) ==>
              SymbolValue(x.symbols, name) == Some(v)
  {
    if SymbolValue(x.symbols, name) == Some(v) {
      var e := Find(x.symbols, name).value;
      assert Holds(x, SymbolNamed(e.key), v) && IsSubSymbol(e.key, name);
    }
    if PrefixFree(x.symbols) && exists key :: Holds(x, SymbolNamed(key), v) && IsSubSymbol(key, name) {
      var key :| Holds(x, SymbolNamed(key), v) && IsSubSymbol(key, name);
      var k :| 0 <= k < |x.symbols| && x.symbols[k] == Entry(key, v);
      FindIsScan(x.symbols, name, k);
    }
  }

  lemma ExtensionValueExact<V>(x: Index<V>, e: string, n: int, v: V)
    requires Sound(x)
    ensures ExtensionValue(x.extensions, e, n) == Some(v) <==> Holds(x, ExtensionOf(e, n), v)
  {
    if Holds(x, ExtensionOf(e, n), v) {
      var k :| 0 <= k < |x.extensions| && x.extensions[k] == ExtensionEntry(e, n, v);
      FindsExtension(x.extensions, k);
    }
  }

  /** The answers after any run of Adds whose names never slipped: a file is returned for
      a symbol exactly when the file entered the symbol or a dotted parent of it, and for
      an extension exactly when the file entered it. */
  lemma RunAnswersExactly(files: seq<FileProto>, name: string, e: string, n: int, f: FileProto)
    requires RunNeverSlips(files)
    ensures SymbolValue(Filled(files).symbols, name) == Some(f)
       <==> exists key :: Holds(Filled(files), SymbolNamed(key), f) && IsSubSymbol(key, name)
    ensures ExtensionValue(Filled(files).extensions, e, n) == Some(f) <==> Holds(Filled(files), ExtensionOf(e, n), f)
  {
    hide Holds;
    RunCoherent(files);
    SymbolValueExact(Filled(files), name, f);
    ExtensionValueExact(Filled(files), e, n, f);
  }

  /** A file whose Add succeeded is found under everything it asked for, also after any
      further run of Adds. */
  lemma {:induction false} AddedStaysFound(files: seq<FileProto>, more: seq<FileProto>, f: FileProto, q: Request)
    requires AddedFile(Filled(files), f, f).1 && q in Requests(f)
    ensures Holds(Filled(files + [f] + more), q, f)
  {
    hide Requests, Serve, NeverSlips, PrefixFree, Sound, Holds;
    if more == [] {
      assert files + [f] + more == files + [f] && (files + [f])[..|files|] == files;
      RunCoherent(files);
      var start := Filled(files).(names := Filled(files).names[f.name := f]);
      RenamedHolds(Filled(files), start);
      ServeKeeps(start, Requests(f), f, q, f);
    } else {
      var last := more[|more| - 1];
      var less := more[..|more| - 1];
      assert (files + [f] + more)[..|files + [f] + more| - 1] == files + [f] + less;
      AddedStaysFound(files, less, f, q);
      RunCoherent(files + [f] + less);
      var x := Filled(files + [f] + less);
      var start := x.(names := x.names[last.name := last]);
      RenamedHolds(x, start);
      ServeKeeps(start, Requests(last), last, q, f);
    }
  }

  /** A database whose files were handed over one by one. */
  class SimpleDescriptorDatabase {
    const index: DescriptorIndex<FileProto>

    constructor ()
      ensures fresh(index) && index.State() == Empty() && Coherent(index.State())
    {
      index := new DescriptorIndex();
    }

    method Add(file: FileProto) returns (ok: bool)
      requires Coherent(index.State())
      modifies index
      ensures (index.State(), ok) == AddedFile(old(index.State()), file, file)
      ensures Coherent(index.State())
    {
      AddKeepsCoherent(index.State(), file);
      ok := index.AddFile(file, file);
    }
  }

  // ------------------------------------------------------------------
  // Merged databases

  /** A database with its contents: an index, or a list of databases tried in order. */
  datatype Source = Simple(index: Index<FileProto>) | Merged(sources: seq<Source>)

  function FileNamed(s: Source, name: string): Option<FileProto>
    decreases s, 0
  {
    match s
    case Simple(x) => if name in x.names then Some(x.names[name]) else None
    case Merged(ss) => FirstFileNamed(ss, name)
  }

  function FirstFileNamed(ss: seq<Source>, name: string): Option<FileProto>
    decreases ss, 1
  {
    if ss == [] then None
    else match FileNamed(ss[0], name) case Some(f) => Some(f) case None => FirstFileNamed(ss[1..], name)
  }

  /** What a search is for. */
  datatype Query = ForSymbol(name: string) | ForExtension(extendee: string, number: int)

  /** The file that answers the query; a merge hides the answer of its first source that
      has one when an earlier source has a file of the same name. */
  function FileWith(s: Source, q: Query): Option<FileProto>
    decreases s, 0
  {
    match s
    case Simple(x) =>
      (match q
       case ForSymbol(name) => SymbolValue(x.symbols, name)
       case ForExtension(e, n) => ExtensionValue(x.extensions, e, n))
    case Merged(ss) =>
      var i := FirstWith(ss, q);
      if i == |ss| then None
      else var answer := FileWith(ss[i], q);
        if answer.Some? && FirstFileNamed(ss[..i], answer.value.name).Some? then None else answer
  }

  /** The first source that answers the query. */
  function FirstWith(ss: seq<Source>, q: Query): (i: nat)
    ensures i <= |ss|
    decreases ss, 1
  {
    if ss == [] || FileWith(ss[0], q).Some? then 0 else 1 + FirstWith(ss[1..], q)
  }

  /** All numbers of extensions of a type, over all sources. */
  function Numbers(s: Source, extendee: string): set<int>
    decreases s, 0
  {
    match s
    case Simple(x) =>
      var r := NumbersFrom(x.extensions, LowerBound(x.extensions, extendee, 0), extendee);
      set n | n in r
    case Merged(ss) => AllNumbers(ss, extendee)
  }

  function AllNumbers(ss: seq<Source>, extendee: string): set<int>
    decreases ss, 1
  {
    if ss == [] then {} else Numbers(ss[0], extendee) + AllNumbers(ss[1..], extendee)
  }

  lemma {:induction false} FirstFileNamedIs(ss: seq<Source>, name: string, i: nat)
    requires i <= |ss| && forall j :: 0 <= j < i ==> FileNamed(ss[j], name).None?
    ensures FirstFileNamed(ss, name) == FirstFileNamed(ss[i..], name)
    decreases i
  {
    if i > 0 { FirstFileNamedIs(ss[1..], name, i - 1); assert ss[1..][i - 1..] == ss[i..]; }
  }

  /** A search of the sources returns the first answer there is. */
  lemma {:induction false} FirstFileNamedExact(ss: seq<Source>, name: string)
    ensures FirstFileNamed(ss, name).Some? <==> exists j :: 0 <= j < |ss| && FileNamed(ss[j], name).Some?
  {
    if ss != [] && FileNamed(ss[0], name).None? {
      FirstFileNamedExact(ss[1..], name);
      forall j | 0 < j < |ss| ensures ss[j] == ss[1..][j - 1] {}
    }
  }

  lemma {:induction false} FirstWithExact(ss: seq<Source>, q: Query, k: nat)
    requires k <= |ss| && (k < |ss| ==> FileWith(ss[k], q).Some?)
    requires forall j :: 0 <= j < k ==> FileWith(ss[j], q).None?
    ensures FirstWith(ss, q) == k
    decreases k
  {
    if k > 0 {
      forall j | 0 <= j < k - 1 ensures FileWith(ss[1..][j], q).None? { assert ss[1..][j] == ss[j + 1]; }
      FirstWithExact(ss[1..], q, k - 1);
    }
  }

  lemma {:induction false} FirstWithAnswers(ss: seq<Source>, q: Query)
    ensures var i := FirstWith(ss, q); i < |ss| ==> FileWith(ss[i], q).Some?
  {
    if ss != [] { FirstWithAnswers(ss[1..], q); }
  }

  /** Every index in the tree was kept coherent. */
  ghost predicate AllCoherent(s: Source)
    decreases s
  {
    match s
    case Simple(x) => Coherent(x)
    case Merged(ss) => forall i :: 0 <= i < |ss| ==> AllCoherent(ss[i])
  }

  /** A file found by name has that name. */
  lemma {:induction false} NamedHasName(s: Source, name: string)
    requires AllCoherent(s)
    ensures FileNamed(s, name).Some? ==> FileNamed(s, name).value.name == name
    decreases s, 0
  {
    if s.Merged? { FirstNamedHasName(s.sources, name); }
  }

  lemma {:induction false} FirstNamedHasName(ss: seq<Source>, name: string)
    requires forall i :: 0 <= i < |ss| ==> AllCoherent(ss[i])
    ensures FirstFileNamed(ss, name).Some? ==> FirstFileNamed(ss, name).value.name == name
    decreases ss, 1
  {
    if ss != [] {
      NamedHasName(ss[0], name);
      FirstNamedHasName(ss[1..], name);
    }
  }

  /** However databases are merged, a file found by a symbol or an extension is the file
      found by its own name. */
  lemma {:induction false} AnswersCoherently(s: Source, q: Query)
    requires AllCoherent(s) && FileWith(s, q).Some?
    ensures FileNamed(s, FileWith(s, q).value.name) == FileWith(s, q)
    decreases s
  {
    var f := FileWith(s, q).value;
    match s
    case Simple(x) =>
      match q {
        case ForSymbol(name) => SymbolValueExact(x, name, f);
        case ForExtension(e, n) => ExtensionValueExact(x, e, n, f);
      }
    case Merged(ss) =>
      var i := FirstWith(ss, q);
      AnswersCoherently(ss[i], q);
      FirstFileNamedExact(ss[..i], f.name);
      forall j | 0 <= j < i ensures FileNamed(ss[j], f.name).None? { assert ss[..i][j] == ss[j]; }
      FirstFileNamedIs(ss, f.name, i);
  }

  /** An extension with a number from 0 up whose file is found is among all the numbers
      of its type. */
  lemma {:induction false} FoundIsListed(s: Source, e: string, n: int)
    requires AllCoherent(s) && n >= 0 && FileWith(s, ForExtension(e, n)).Some?
    ensures n in Numbers(s, e)
    decreases s
  {
    match s
    case Simple(x) => NumbersExact(x.extensions, e, n);
    case Merged(ss) =>
      var i := FirstWith(ss, ForExtension(e, n));
      FoundIsListed(ss[i], e, n);
      AllNumbersHas(ss, i, e);
  }

  lemma {:induction false} AllNumbersHas(ss: seq<Source>, i: nat, e: string)
    requires i < |ss|
    ensures Numbers(ss[i], e) <= AllNumbers(ss, e)
    decreases i
  {
    if i > 0 { AllNumbersHas(ss[1..], i - 1, e); }
  }

  lemma ListedIffFound(s: Source, e: string, n: int)
    requires s.Simple? && AllCoherent(s)
    ensures n in Numbers(s, e) <==> n >= 0 && FileWith(s, ForExtension(e, n)).Some?
  {
    NumbersExact(s.index.extensions, e, n);
  }

  /** The number is listed, and one of the sources is the first that lists it. */
  ghost predicate FirstLists(ss: seq<Source>, e: string, n: int, i: nat) {
    i < |ss| && n in Numbers(ss[i], e) && forall j :: 0 <= j < i ==> n !in Numbers(ss[j], e)
  }

  /** In a merge of databases that were filled by Add a number can be listed and yet its
      file not be found: exactly if an earlier source than the first that lists it has a
      file with the name of that source's answer. */
  lemma {:induction false} ListedIsFoundExactly(ss: seq<Source>, e: string, n: int, i: nat)
    requires FirstLists(ss, e, n, i) && forall j :: 0 <= j < |ss| ==> ss[j].Simple? && AllCoherent(ss[j])
    ensures n in Numbers(Merged(ss), e)
    ensures var answer := FileWith(ss[i], ForExtension(e, n));
      && answer.Some?
      && (FileWith(Merged(ss), ForExtension(e, n)).Some?
          <==> forall j :: 0 <= j < i ==> FileNamed(ss[j], answer.value.name).None?)
      && (FileWith(Merged(ss), ForExtension(e, n)).Some? ==> FileWith(Merged(ss), ForExtension(e, n)) == answer)
  {
    var q := ForExtension(e, n);
    AllNumbersHas(ss, i, e);
    forall j | 0 <= j < |ss| ensures n in Numbers(ss[j], e) <==> n >= 0 && FileWith(ss[j], q).Some? {
      ListedIffFound(ss[j], e, n);
    }
    FirstWithExact(ss, q, i);
    var name := FileWith(ss[i], q).value.name;
    FirstFileNamedExact(ss[..i], name);
    assert forall j :: 0 <= j < i ==> ss[..i][j] == ss[j];
  }

  /** Source `i` of a merge is the first with an answer, and no source before it has a file
      of that name. */
  ghost predicate AnswersOpenly(ss: seq<Source>, q: Query, i: nat) {
    && i < |ss| && FileWith(ss[i], q).Some?
    && forall j :: 0 <= j < i ==>
         FileWith(ss[j], q).None? && FileNamed(ss[j], FileWith(ss[i], q).value.name).None?
  }

  /** In any merge, of filled databases or of merges, the answer is that of a source that
      answers openly, and there is none exactly if no source does. */
  lemma {:induction false} FoundExactly(ss: seq<Source>, q: Query, f: FileProto)
    ensures FileWith(Merged(ss), q) == Some(f) <==>
      exists i: nat :: AnswersOpenly(ss, q, i) && FileWith(ss[i], q).value == f
  {
    var k := FirstWith(ss, q);
    NoneBefore(ss, q);
    FirstWithAnswers(ss, q);
    if k < |ss| {
      var name := FileWith(ss[k], q).value.name;
      FirstFileNamedExact(ss[..k], name);
      assert forall j :: 0 <= j < k ==> ss[..k][j] == ss[j];
    }
    forall i: nat | AnswersOpenly(ss, q, i) ensures i == k { FirstWithExact(ss, q, i); }
    if FileWith(Merged(ss), q) == Some(f) { assert AnswersOpenly(ss, q, k); }
  }

  lemma {:induction false} NoneBefore(ss: seq<Source>, q: Query)
    ensures forall j :: 0 <= j < FirstWith(ss, q) ==> FileWith(ss[j], q).None?
    decreases |ss|
  {
    if ss != [] && FileWith(ss[0], q).None? {
      NoneBefore(ss[1..], q);
      forall j | 0 < j < FirstWith(ss, q) ensures FileWith(ss[j], q).None? { assert ss[j] == ss[1..][j - 1]; }
    }
  }

  /** No two databases that are merged have a file of the same name. */
  ghost predicate NamesApart(s: Source)
    decreases s
  {
    match s
    case Simple(_) => true
    case Merged(ss) =>
      && (forall i :: 0 <= i < |ss| ==> NamesApart(ss[i]))
      && (forall i, j, name :: 0 <= i < j < |ss| ==> FileNamed(ss[i], name).None? || FileNamed(ss[j], name).None?)
  }

  /** However databases are merged, nothing is hidden when no two have a file of the same
      name: exactly the listed numbers are found. */
  lemma {:induction false} ListedIsFoundApart(s: Source, e: string, n: int)
    requires AllCoherent(s) && NamesApart(s)
    ensures n in Numbers(s, e) <==> n >= 0 && FileWith(s, ForExtension(e, n)).Some?
    decreases s
  {
    if n >= 0 && FileWith(s, ForExtension(e, n)).Some? { FoundIsListed(s, e, n); }
    match s
    case Simple(x) => NumbersExact(x.extensions, e, n);
    case Merged(ss) =>
      if n in AllNumbers(ss, e) {
        var k := ListedSomewhere(ss, e, n);
        ListedIsFoundApart(ss[k], e, n);
        var q := ForExtension(e, n);
        FirstWithBefore(ss, q, k);
        var i := FirstWith(ss, q);
        AnswersCoherently(ss[i], q);
        FirstFileNamedExact(ss[..i], FileWith(ss[i], q).value.name);
        assert forall j :: 0 <= j < i ==> ss[..i][j] == ss[j];
      }
  }

  lemma {:induction false} ListedSomewhere(ss: seq<Source>, e: string, n: int) returns (k: nat)
    requires n in AllNumbers(ss, e)
    ensures k < |ss| && n in Numbers(ss[k], e)
  {
    if n in Numbers(ss[0], e) {
      k := 0;
    } else {
      k := ListedSomewhere(ss[1..], e, n);
      k := k + 1;
    }
  }

  lemma {:induction false} FirstWithBefore(ss: seq<Source>, q: Query, k: nat)
    requires k < |ss| && FileWith(ss[k], q).Some?
    ensures FirstWith(ss, q) <= k && FileWith(ss[FirstWith(ss, q)], q).Some?
    decreases k
  {
    FirstWithAnswers(ss, q);
    if k > 0 && FileWith(ss[0], q).None? { FirstWithBefore(ss[1..], q, k - 1); }
  }

  /** A file that declares nothing but one extension. */
  function OneExtension(name: string, number: int): FileProto {
    FileProto(name, "", [], [], [], [], [], [], [FieldProto("x", number, Some(".M"), None, Some(PrimitiveField))])
  }

  lemma OneExtensionAdded(name: string, number: int)
    ensures var f := OneExtension(name, number);
      f.name == name && Filled([]) == Empty() && AddedFile(Empty(), f, f).1 && ExtensionOf("M", number) in Requests(f)
  {
    var f := OneExtension(name, number);
    var rs := [SymbolNamed("x"), ExtensionOf("M", number)];
    assert ExtensionRequests(f.extensions[0]) == [ExtensionOf("M", number)];
    assert Scoped("", "x") == "x";
    assert FieldRequests("", f.extensions) == rs by { assert FieldRequests("", f.extensions[1..]) == []; }
    assert Requests(f) == rs;
    var start := Empty<FileProto>().(names := map[name := f]);
    assert Grants(start, rs[0]);
    var x := With(start, rs[0], f);
    assert Grants(x, rs[1]);
    assert rs[1..] == [rs[1]];
    ServeOne(x, rs[1], f);
  }

  /** A merge of two files of the same name, the second with an extension: its number is
      listed, and its file is not found. */
  lemma {:induction false} HiddenNumber()
    ensures var plain, other := FileProto("f", "", [], [], [], [], [], [], []), OneExtension("f", 5);
      var s := Merged([Simple(Filled([plain])), Simple(Filled([other]))]);
      AllCoherent(s) && 5 in Numbers(s, "M") && FileWith(s, ForExtension("M", 5)) == None
  {
    hide Filled, OneExtension, ExtensionValue, NumbersFrom, LowerBound, Coherent, Holds;
    var plain, other := FileProto("f", "", [], [], [], [], [], [], []), OneExtension("f", 5);
    var x, y := Simple(Filled([plain])), Simple(Filled([other]));
    EmptyFile(plain);
    OneExtensionFound("f", 5);
    ListedIffFound(x, "M", 5);
    ListedIffFound(y, "M", 5);
    assert FirstLists([x, y], "M", 5, 1);
    ListedIsFoundExactly([x, y], "M", 5, 1);
    assert FileNamed(x, "f").Some?;
  }

  lemma OneExtensionFound(name: string, number: int)
    ensures var f := OneExtension(name, number);
      && f.name == name && AllCoherent(Simple(Filled([f])))
      && FileWith(Simple(Filled([f])), ForExtension("M", number)) == Some(f)
  {
    hide OneExtension, Sound, Backed, Holds, Filled, Requests;
    var f := OneExtension(name, number);
    OneExtensionAdded(name, number);
    AddedStaysFound([], [], f, ExtensionOf("M", number));
    assert [] + [f] + [] == [f];
    RunCoherent([f]);
    ExtensionValueExact(Filled([f]), "M", number, f);
  }

  lemma EmptyFile(f: FileProto)
    requires Requests(f) == []
    ensures AllCoherent(Simple(Filled([f]))) && Filled([f]).names == map[f.name := f]
    ensures forall e, n :: ExtensionValue(Filled([f]).extensions, e, n).None?
  {
    RunCoherent([f]);
    assert [f][..0] == [];
  }

  /** A file with an extension of a negative number is accepted, and found by it, but the
      number is not listed. */
  lemma {:induction false} NegativeNumber()
    ensures var f := OneExtension("f", -1);
      && AddedFile(Empty(), f, f).1
      && FileWith(Simple(Filled([f])), ForExtension("M", -1)) == Some(f)
      && -1 !in Numbers(Simple(Filled([f])), "M")
  {
    hide OneExtension, Filled;
    OneExtensionAdded("f", -1);
    OneExtensionFound("f", -1);
    ListedIffFound(Simple(Filled([OneExtension("f", -1)])), "M", -1);
  }

  // ------------------------------------------------------------------
  // The searches

  method FindFileByName(s: Source, name: string) returns (r: Option<FileProto>)
    ensures r == FileNamed(s, name)
    decreases s
  {
    match s
    case Simple(x) => return if name in x.names then Some(x.names[name]) else None;
    case Merged(ss) =>
      var i := 0;
      while i < |ss|
        invariant 0 <= i <= |ss|
        invariant forall j :: 0 <= j < i ==> FileNamed(ss[j], name).None?
      {
        r := FindFileByName(ss[i], name);
        if r.Some? { FirstFileNamedIs(ss, name, i); return; }
        i := i + 1;
      }
      FirstFileNamedIs(ss, name, i);
      return None;
  }

  method FindFileContaining(s: Source, q: Query) returns (r: Option<FileProto>)
    ensures r == FileWith(s, q)
    decreases s
  {
    hide FirstFileNamed, FirstWith;
    match s
    case Simple(x) =>
      return match q
        case ForSymbol(name) => SymbolValue(x.symbols, name)
        case ForExtension(e, n) => ExtensionValue(x.extensions, e, n);
    case Merged(ss) =>
      var i := 0;
      while i < |ss|
        invariant 0 <= i <= |ss|
        invariant forall j :: 0 <= j < i ==> FileWith(ss[j], q).None?
      {
        r := FindFileContaining(ss[i], q);
        if r.Some? {
          FirstWithExact(ss, q, i);
          FirstFileNamedExact(ss[..i], r.value.name);
          var j := 0;
          while j < i
            invariant 0 <= j <= i
            invariant forall k :: 0 <= k < j ==> FileNamed(ss[k], r.value.name).None?
          {
            assert ss[..i][j] == ss[j];
            var temp := FindFileByName(ss[j], r.value.name);
            if temp.Some? { return None; }
            j := j + 1;
          }
          assert forall k :: 0 <= k < i ==> ss[..i][k] == ss[k];
          return;
        }
        i := i + 1;
      }
      FirstWithExact(ss, q, i);
      return None;
  }

  predicate Ascending(s: seq<int>) {
    forall i, j :: 0 <= i < j < |s| ==> s[i] < s[j]
  }

  /** Insertion into an ordered set. */
  function InsertNumber(s: seq<int>, n: int): seq<int> {
    if s == [] || n < s[0] then [n] + s
    else if n == s[0] then s
    else [s[0]] + InsertNumber(s[1..], n)
  }

  lemma {:induction false} InsertNumberExact(s: seq<int>, n: int)
    requires Ascending(s)
    ensures Ascending(InsertNumber(s, n))
    ensures forall m :: m in InsertNumber(s, n) <==> m in s || m == n
  {
    if s != [] && s[0] < n {
      var t := InsertNumber(s[1..], n);
      InsertNumberExact(s[1..], n);
      forall i, j | 0 <= i < j < |[s[0]] + t| ensures ([s[0]] + t)[i] < ([s[0]] + t)[j] {
        if i == 0 { assert t[j - 1] in t; }
      }
    }
  }

  /** The numbers are appended in ascending order, each once. */
  method FindAllExtensionNumbers(s: Source, extendee: string, output: seq<int>)
    returns (success: bool, numbers: seq<int>)
    requires AllCoherent(s)
    ensures |output| <= |numbers| && numbers[..|output|] == output
    ensures Ascending(numbers[|output|..])
    ensures forall n :: n in numbers[|output|..] <==> n in Numbers(s, extendee)
    ensures success <==> |numbers| > |output|
    decreases s
  {
    match s
    case Simple(x) =>
      NumbersExact(x.extensions, extendee, 0);
      var r := NumbersFrom(x.extensions, LowerBound(x.extensions, extendee, 0), extendee);
      assert (output + r)[|output|..] == r;
      return r != [], output + r;
    case Merged(ss) =>
      var merged: seq<int> := [];
      var i := 0;
      success := false;
      assert ss[0..] == ss;
      while i < |ss|
        invariant 0 <= i <= |ss| && Ascending(merged) && (success <==> merged != [])
        invariant forall n :: n in AllNumbers(ss, extendee) <==> n in merged || n in AllNumbers(ss[i..], extendee)
      {
        var found, results := FindAllExtensionNumbers(ss[i], extendee, []);
        assert ss[i..][1..] == ss[i + 1..];
        if found {
          success := true;
          merged := InsertAll(merged, results);
          assert results[0..] == results;
          assert results[0] in results && results[0] in merged;
        }
        i := i + 1;
      }
      numbers := output + merged;
      assert numbers[|output|..] == merged;
  }

  method InsertAll(into: seq<int>, numbers: seq<int>) returns (s: seq<int>)
    requires Ascending(into)
    ensures Ascending(s)
    ensures forall m :: m in s <==> m in into || m in numbers
  {
    s := into;
    var i := 0;
    while i < |numbers|
      invariant 0 <= i <= |numbers| && Ascending(s)
      invariant forall m :: m in s <==> m in into || m in numbers[..i]
    {
      InsertNumberExact(s, numbers[i]);
      assert numbers[..i + 1] == numbers[..i] + [numbers[i]];
      s := InsertNumber(s, numbers[i]);
      i := i + 1;
    }
    assert numbers[..i] == numbers;
  }

  // ------------------------------------------------------------------
  // As the fallback of a descriptor pool

  function NamesOf(s: Source): set<string>
    decreases s, 0
  {
    match s
    case Simple(x) => x.names.Keys
    case Merged(ss) => AllNames(ss)
  }

  function AllNames(ss: seq<Source>): set<string>
    decreases ss, 1
  {
    if ss == [] then {} else NamesOf(ss[0]) + AllNames(ss[1..])
  }

  lemma {:induction false} NamesAreFiles(s: Source, name: string)
    ensures name in NamesOf(s) <==> FileNamed(s, name).Some?
    decreases s, 0
  {
    if s.Merged? { AllNamesAreFiles(s.sources, name); }
  }

  lemma {:induction false} AllNamesAreFiles(ss: seq<Source>, name: string)
    ensures name in AllNames(ss) <==> FirstFileNamed(ss, name).Some?
    decreases ss, 1
  {
    if ss != [] {
      NamesAreFiles(ss[0], name);
      AllNamesAreFiles(ss[1..], name);
    }
  }

  /** What a pool sees of a database. */
  function AsFallback(s: Source): Fallback.Database {
    Fallback.Database(
      map n | n in NamesOf(s) && FileNamed(s, n).Some? :: FileNamed(s, n).value,
      symbol => match FileWith(s, ForSymbol(symbol)) case Some(f) => Some(f.name) case None => None)
  }

  /** Any merge of databases filled by Add is a coherent fallback database, and what the
      pool sees of it are its own answers. */
  lemma MergeIsFallback(s: Source, name: string, symbol: string)
    requires AllCoherent(s)
    ensures Fallback.Coherent(AsFallback(s))
    ensures FileNamed(s, name) == if name in AsFallback(s).files then Some(AsFallback(s).files[name]) else None
    ensures match AsFallback(s).owner(symbol)
            case Some(n) => n in AsFallback(s).files && FileWith(s, ForSymbol(symbol)) == Some(AsFallback(s).files[n])
            case None => FileWith(s, ForSymbol(symbol)) == None
  {
    var db := AsFallback(s);
    NamesAreFiles(s, name);
    forall n | n in db.files ensures db.files[n].name == n { NamedHasName(s, n); }
    forall q | db.owner(q).Some?
      ensures db.owner(q).value in db.files && FileWith(s, ForSymbol(q)) == Some(db.files[db.owner(q).value])
    {
      AnswersCoherently(s, ForSymbol(q));
      NamesAreFiles(s, db.owner(q).value);
    }
  }
}
