/** Which names a descriptor database answers: those that its files declare, said with the
    full names that a pool enters. */
module DatabaseNames {
  import opened Options
  import opened DescriptorProtos
  import opened DottedNames
  import opened Declarations
  import opened SymbolIndex
  import opened FileIndex
  import opened DescriptorDatabases
  import opened PoolInvariant
  import Symbols = SymbolStore

  // ------------------------------------------------------------------
  // What a file asks for

  ghost predicate AmongMessages(scope: string, ms: seq<MessageProto>, key: string) {
    exists i :: 0 <= i < |ms| && key == Qualify(scope, ms[i].name)
  }

  ghost predicate AmongEnums(scope: string, es: seq<EnumProto>, key: string) {
    exists i :: 0 <= i < |es| && key == Qualify(scope, es[i].name)
  }

  ghost predicate AmongServices(scope: string, ss: seq<ServiceProto>, key: string) {
    exists i :: 0 <= i < |ss| && key == Qualify(scope, ss[i].name)
  }

  ghost predicate AmongFields(scope: string, fs: seq<FieldProto>, key: string) {
    exists i :: 0 <= i < |fs| && key == Qualify(scope, fs[i].name)
  }

  /** The full name of a message, an enum, a service or an extension of the file itself. */
  ghost predicate IsTopLevel(f: FileProto, key: string) {
    || AmongMessages(f.package, f.messages, key) || AmongEnums(f.package, f.enums, key)
    || AmongServices(f.package, f.services, key) || AmongFields(f.package, f.extensions, key)
  }

  /** One of the fields extends the type, given by its full name with a leading dot, with
      the number. */
  ghost predicate Extends(fs: seq<FieldProto>, e: string, n: int) {
    exists i :: 0 <= i < |fs| && fs[i].extendee == Some("." + e) && fs[i].number == n
  }

  ghost predicate ExtendsInside(m: MessageProto, e: string, n: int)
    decreases m, 0
  {
    Extends(m.extensions, e, n) || ExtendsInAny(m.nested, e, n)
  }

  ghost predicate ExtendsInAny(ms: seq<MessageProto>, e: string, n: int)
    decreases ms, 1
  {
    exists i :: 0 <= i < |ms| && ExtendsInside(ms[i], e, n)
  }

  /** The file does, at any depth. */
  ghost predicate DeclaresExtension(f: FileProto, e: string, n: int) {
    Extends(f.extensions, e, n) || ExtendsInAny(f.messages, e, n)
  }

  lemma OneExtension(f: FieldProto, e: string, n: int)
    ensures ExtensionOf(e, n) in ExtensionRequests(f) <==> f.extendee == Some("." + e) && f.number == n
    ensures forall key :: SymbolNamed(key) !in ExtensionRequests(f)
  {
    if f.extendee.Some? {
      var name := f.extendee.value;
      assert ("." + e)[1..] == e;
      if name != "" && name[0] == '.' { assert name == "." + name[1..]; }
    }
  }

  lemma {:induction false} ExtensionsAre(fs: seq<FieldProto>, e: string, n: int, key: string)
    ensures ExtensionOf(e, n) in AllExtensions(fs) <==> Extends(fs, e, n)
    ensures SymbolNamed(key) !in AllExtensions(fs)
  {
    hide ExtensionRequests;
    if fs != [] {
      OneExtension(fs[0], e, n);
      ExtensionsAre(fs[1..], e, n, key);
      assert forall i :: 0 < i < |fs| ==> fs[i] == fs[1..][i - 1];
    }
  }

  lemma {:induction false} NestedAre(m: MessageProto, e: string, n: int, key: string)
    ensures ExtensionOf(e, n) in NestedExtensions(m) <==> ExtendsInside(m, e, n)
    ensures SymbolNamed(key) !in NestedExtensions(m)
    decreases m, 0
  {
    hide AllNested, AllExtensions, Extends, ExtendsInAny;
    AllNestedAre(m.nested, e, n, key);
    ExtensionsAre(m.extensions, e, n, key);
  }

  lemma {:induction false} AllNestedAre(ms: seq<MessageProto>, e: string, n: int, key: string)
    ensures ExtensionOf(e, n) in AllNested(ms) <==> ExtendsInAny(ms, e, n)
    ensures SymbolNamed(key) !in AllNested(ms)
    decreases ms, 1
  {
    hide NestedExtensions, ExtendsInside;
    if ms != [] {
      NestedAre(ms[0], e, n, key);
      AllNestedAre(ms[1..], e, n, key);
      assert forall i :: 0 < i < |ms| ==> ms[i] == ms[1..][i - 1];
    }
  }

  lemma ScopedIsQualified(scope: string, name: string)
    ensures Scoped(scope, name) == Qualify(scope, name)
  {
    assert "" + name == name;
  }

  lemma {:induction false} MessagesAre(scope: string, ms: seq<MessageProto>, e: string, n: int, key: string)
    ensures SymbolNamed(key) in MessageRequests(scope, ms) <==> AmongMessages(scope, ms, key)
    ensures ExtensionOf(e, n) in MessageRequests(scope, ms) <==> ExtendsInAny(ms, e, n)
    decreases ms
  {
    hide Scoped, Qualify, NestedExtensions, ExtendsInside;
    if ms != [] {
      ScopedIsQualified(scope, ms[0].name);
      NestedAre(ms[0], e, n, key);
      MessagesAre(scope, ms[1..], e, n, key);
      assert forall i :: 0 < i < |ms| ==> ms[i] == ms[1..][i - 1];
    }
  }

  lemma {:induction false} EnumsAre(scope: string, es: seq<EnumProto>, e: string, n: int, key: string)
    ensures SymbolNamed(key) in EnumRequests(scope, es) <==> AmongEnums(scope, es, key)
    ensures ExtensionOf(e, n) !in EnumRequests(scope, es)
    decreases es
  {
    if es != [] {
      ScopedIsQualified(scope, es[0].name);
      EnumsAre(scope, es[1..], e, n, key);
      assert forall i :: 0 < i < |es| ==> es[i] == es[1..][i - 1];
    }
  }

  lemma {:induction false} ServicesAre(scope: string, ss: seq<ServiceProto>, e: string, n: int, key: string)
    ensures SymbolNamed(key) in ServiceRequests(scope, ss) <==> AmongServices(scope, ss, key)
    ensures ExtensionOf(e, n) !in ServiceRequests(scope, ss)
    decreases ss
  {
    if ss != [] {
      ScopedIsQualified(scope, ss[0].name);
      ServicesAre(scope, ss[1..], e, n, key);
      assert forall i :: 0 < i < |ss| ==> ss[i] == ss[1..][i - 1];
    }
  }

  lemma {:induction false} FieldsAre(scope: string, fs: seq<FieldProto>, e: string, n: int, key: string)
    ensures SymbolNamed(key) in FieldRequests(scope, fs) <==> AmongFields(scope, fs, key)
    ensures ExtensionOf(e, n) in FieldRequests(scope, fs) <==> Extends(fs, e, n)
    decreases fs
  {
    hide ExtensionRequests;
    if fs != [] {
      ScopedIsQualified(scope, fs[0].name);
      OneExtension(fs[0], e, n);
      FieldsAre(scope, fs[1..], e, n, key);
      assert forall i :: 0 < i < |fs| ==> fs[i] == fs[1..][i - 1];
    }
  }

  /** A file asks for the full names of what it declares at its top level, and for the
      extensions that it declares at any depth, and for nothing else. */
  lemma RequestsAre(f: FileProto, e: string, n: int, key: string)
    ensures SymbolNamed(key) in Requests(f) <==> IsTopLevel(f, key)
    ensures ExtensionOf(e, n) in Requests(f) <==> DeclaresExtension(f, e, n)
  {
    hide MessageRequests, EnumRequests, ServiceRequests, FieldRequests, AmongMessages, AmongEnums, AmongServices,
      AmongFields, Extends, ExtendsInAny;
    MessagesAre(f.package, f.messages, e, n, key);
    EnumsAre(f.package, f.enums, e, n, key);
    ServicesAre(f.package, f.services, e, n, key);
    FieldsAre(f.package, f.extensions, e, n, key);
  }

  // ------------------------------------------------------------------
  // What a database answers

  /** The file was handed over, with success, in this run of Adds. */
  ghost predicate WasAdded(files: seq<FileProto>, f: FileProto) {
    exists k :: 0 <= k < |files| && files[k] == f && AddedFile(Filled(files[..k]), f, f).1
  }

  lemma AddedHolds(files: seq<FileProto>, f: FileProto, q: Request)
    requires WasAdded(files, f)
    ensures Holds(Filled(files), q, f) <==> q in Requests(f)
  {
    hide Requests, AddedFile, Holds;
    var k :| 0 <= k < |files| && files[k] == f && AddedFile(Filled(files[..k]), f, f).1;
    assert files == files[..k] + [f] + files[k + 1..];
    if q in Requests(f) { AddedStaysFound(files[..k], files[k + 1..], f, q); }
    RunCoherent(files);
    if Holds(Filled(files), q, f) { assert Backed(Filled(files), q, f); }
  }

  /** A file that was added is the answer for a name exactly if the name is the full name of
      something at its top level or lies inside that, and for an extension exactly if it
      declares it; unless some name slipped into the table. */
  lemma AddedIsAnswer(files: seq<FileProto>, f: FileProto, name: string, e: string, n: int)
    requires RunNeverSlips(files) && WasAdded(files, f)
    ensures FileWith(Simple(Filled(files)), ForSymbol(name)) == Some(f)
       <==> exists key :: IsTopLevel(f, key) && IsSubSymbol(key, name)
    ensures FileWith(Simple(Filled(files)), ForExtension(e, n)) == Some(f) <==> DeclaresExtension(f, e, n)
  {
    hide Holds, Requests, IsTopLevel, DeclaresExtension, WasAdded, Filled, RunNeverSlips, IsSubSymbol;
    RunAnswersExactly(files, name, e, n, f);
    AddedHolds(files, f, ExtensionOf(e, n));
    RequestsAre(f, e, n, "");
    forall key ensures Holds(Filled(files), SymbolNamed(key), f) <==> IsTopLevel(f, key) {
      AddedHolds(files, f, SymbolNamed(key));
      RequestsAre(f, e, n, key);
    }
  }

  /** What may be entered is made of dots and what identifiers are made of. */
  lemma SymbolNamesAre(name: string)
    ensures IsSymbolName(name) <==> forall i :: 0 <= i < |name| ==> name[i] == '.' || IsIdentifierChar(name[i])
  {
  }

  // ------------------------------------------------------------------
  // Which declarations are answered

  /** The name lies inside the scope, at any depth. */
  predicate Inside(scope: string, name: string) {
    |scope| < |name| && name[..|scope|] == scope && name[|scope|] == '.'
  }

  ghost predicate AllInside(scope: string, ds: seq<Declaration>) {
    forall d :: d in ds ==> Inside(scope, d.name)
  }

  lemma QualifiedInside(scope: string, name: string)
    requires scope != ""
    ensures Inside(scope, Qualify(scope, name)) && Inside(scope, scope + "." + name)
  {
    var q := scope + "." + name;
    assert q[..|scope|] == scope && q[|scope|] == '.';
  }

  lemma InsideInside(a: string, b: string, c: string)
    requires Inside(a, b) && Inside(b, c)
    ensures Inside(a, c)
  {
    assert c[..|a|] == b[..|a|] && c[|a|] == b[|a|];
  }

  lemma {:induction false} FieldsInside(scope: string, fs: seq<FieldProto>)
    requires scope != ""
    ensures AllInside(scope, OfFields(scope, fs))
    decreases |fs|
  {
    hide Inside, Qualify;
    if fs != [] {
      QualifiedInside(scope, fs[|fs| - 1].name);
      FieldsInside(scope, fs[..|fs| - 1]);
    }
  }

  lemma {:induction false} ValuesInside(scope: string, values: seq<string>)
    requires scope != ""
    ensures AllInside(scope, OfValues(scope, values))
    decreases |values|
  {
    hide Inside, Qualify;
    if values != [] {
      QualifiedInside(scope, values[|values| - 1]);
      ValuesInside(scope, values[..|values| - 1]);
    }
  }

  lemma {:induction false} EnumsInside(scope: string, es: seq<EnumProto>)
    requires scope != ""
    ensures AllInside(scope, OfEnums(scope, es))
    decreases |es|
  {
    hide Inside, Qualify, OfValues;
    if es != [] {
      var e := es[|es| - 1];
      QualifiedInside(scope, e.name);
      ValuesInside(scope, e.values);
      EnumsInside(scope, es[..|es| - 1]);
    }
  }

  lemma {:induction false} MethodsInside(service: string, ms: seq<MethodProto>)
    requires service != ""
    ensures AllInside(service, OfMethods(service, ms))
    decreases |ms|
  {
    hide Inside;
    if ms != [] {
      QualifiedInside(service, ms[|ms| - 1].name);
      MethodsInside(service, ms[..|ms| - 1]);
    }
  }

  lemma {:induction false} PartsInside(name: string, m: MessageProto)
    requires name != ""
    ensures AllInside(name, OfParts(name, m))
    decreases m, 1
  {
    hide Inside, OfFields, OfEnums, OfMessages;
    FieldsInside(name, m.fields);
    MessagesInside(name, m.nested);
    EnumsInside(name, m.enums);
    FieldsInside(name, m.extensions);
  }

  lemma {:induction false} MessagesInside(scope: string, ms: seq<MessageProto>)
    requires scope != ""
    ensures AllInside(scope, OfMessages(scope, ms))
    decreases ms, 0
  {
    hide Inside, OfParts, Qualify;
    if ms != [] {
      var m := ms[|ms| - 1];
      var name := Qualify(scope, m.name);
      QualifiedInside(scope, m.name);
      NotEmpty(scope, name);
      MessagesInside(scope, ms[..|ms| - 1]);
      PartsInside(name, m);
      forall d | d in OfParts(name, m) ensures Inside(scope, d.name) { InsideInside(scope, name, d.name); }
    }
  }

  lemma NotEmpty(a: string, b: string)
    requires Inside(a, b)
    ensures b != ""
  {
  }

  /** The name is that of a value of an enum of the file itself. */
  ghost predicate IsTopValue(f: FileProto, name: string) {
    exists i, j :: 0 <= i < |f.enums| && 0 <= j < |f.enums[i].values|
      && name == Qualify(f.package, f.enums[i].values[j])
  }

  ghost predicate Answered(f: FileProto, name: string) {
    exists key :: IsTopLevel(f, key) && IsSubSymbol(key, name)
  }

  lemma {:induction false} MessagesAnswered(scope: string, ms: seq<MessageProto>, d: Declaration)
    requires MessagesProper(ms) && d in OfMessages(scope, ms)
    ensures exists key :: AmongMessages(scope, ms, key) && IsSubSymbol(key, d.name)
    decreases |ms|
  {
    hide OfParts, MessageProper;
    var less, m := ms[..|ms| - 1], ms[|ms| - 1];
    var name := Qualify(scope, m.name);
    if d in OfMessages(scope, less) {
      MessagesAnswered(scope, less, d);
      var key :| AmongMessages(scope, less, key) && IsSubSymbol(key, d.name);
      var i :| 0 <= i < |less| && key == Qualify(scope, less[i].name);
      assert ms[i] == less[i];
      assert AmongMessages(scope, ms, key);
    } else {
      MessageNamed(ms, |ms| - 1);
      if d in OfParts(name, m) { PartsInside(name, m); }
      assert AmongMessages(scope, ms, name) && IsSubSymbol(name, d.name);
    }
  }

  lemma MessageNamed(ms: seq<MessageProto>, i: nat)
    requires MessagesProper(ms) && i < |ms|
    ensures ms[i].name != ""
  {
    assert MessageProper(ms[i]);
  }

  lemma {:induction false} ServicesAnswered(scope: string, ss: seq<ServiceProto>, d: Declaration)
    requires ServicesProper(ss) && d in OfServices(scope, ss)
    ensures exists key :: AmongServices(scope, ss, key) && IsSubSymbol(key, d.name)
    decreases |ss|
  {
    hide OfMethods;
    var less, last := ss[..|ss| - 1], ss[|ss| - 1];
    var name := Qualify(scope, last.name);
    if d in OfServices(scope, less) {
      ServicesAnswered(scope, less, d);
      var key :| AmongServices(scope, less, key) && IsSubSymbol(key, d.name);
      var i :| 0 <= i < |less| && key == Qualify(scope, less[i].name);
      assert ss[i] == less[i];
      assert AmongServices(scope, ss, key);
    } else {
      assert ServiceProper(last);
      if d in OfMethods(name, last.methods) { MethodsInside(name, last.methods); }
      assert AmongServices(scope, ss, name) && IsSubSymbol(name, d.name);
    }
  }

  lemma {:induction false} FieldsAnswered(scope: string, fs: seq<FieldProto>, d: Declaration)
    requires d in OfFields(scope, fs)
    ensures AmongFields(scope, fs, d.name)
    decreases |fs|
  {
    var less := fs[..|fs| - 1];
    if d in OfFields(scope, less) {
      FieldsAnswered(scope, less, d);
      var i :| 0 <= i < |less| && d.name == Qualify(scope, less[i].name);
      assert fs[i] == less[i];
    }
  }

  lemma {:induction false} ValueAt(scope: string, values: seq<string>, d: Declaration)
    requires d in OfValues(scope, values)
    ensures exists j :: 0 <= j < |values| && d.name == Qualify(scope, values[j])
    decreases |values|
  {
    var less := values[..|values| - 1];
    if d in OfValues(scope, less) {
      ValueAt(scope, less, d);
      var j :| 0 <= j < |less| && d.name == Qualify(scope, less[j]);
      assert values[j] == less[j];
    }
  }

  lemma {:induction false} EnumsAnswered(f: FileProto, es: seq<EnumProto>, d: Declaration)
    requires es <= f.enums && d in OfEnums(f.package, es)
    ensures AmongEnums(f.package, f.enums, d.name) || IsTopValue(f, d.name)
    decreases |es|
  {
    hide OfValues;
    var less, e := es[..|es| - 1], es[|es| - 1];
    if d in OfEnums(f.package, less) {
      EnumsAnswered(f, less, d);
    } else if d in OfValues(f.package, e.values) {
      ValueAt(f.package, e.values, d);
      assert f.enums[|es| - 1] == e;
    } else {
      assert f.enums[|es| - 1] == e;
    }
  }

  lemma OneOfMessages(f: FileProto, name: string)
    requires exists key :: AmongMessages(f.package, f.messages, key) && IsSubSymbol(key, name)
    ensures Answered(f, name)
  {
    var key :| AmongMessages(f.package, f.messages, key) && IsSubSymbol(key, name);
    assert IsTopLevel(f, key);
  }

  lemma OneOfServices(f: FileProto, name: string)
    requires exists key :: AmongServices(f.package, f.services, key) && IsSubSymbol(key, name)
    ensures Answered(f, name)
  {
    var key :| AmongServices(f.package, f.services, key) && IsSubSymbol(key, name);
    assert IsTopLevel(f, key);
  }

  lemma ItselfAnswered(f: FileProto, name: string)
    requires IsTopLevel(f, name)
    ensures Answered(f, name)
  {
    assert IsSubSymbol(name, name);
  }

  lemma DeclaredAnswered(f: FileProto, d: Declaration)
    requires ProperlyDeclared(f) && d in OfFile(f)
    ensures Answered(f, d.name) || IsTopValue(f, d.name)
  {
    hide OfMessages, OfEnums, OfServices, OfFields, MessagesProper, Answered, IsTopValue, AmongMessages, AmongServices,
      AmongFields, AmongEnums, IsSubSymbol;
    if d in OfMessages(f.package, f.messages) {
      MessagesAnswered(f.package, f.messages, d);
      OneOfMessages(f, d.name);
    } else if d in OfServices(f.package, f.services) {
      ServicesAnswered(f.package, f.services, d);
      OneOfServices(f, d.name);
    } else if d in OfFields(f.package, f.extensions) {
      FieldsAnswered(f.package, f.extensions, d);
      ItselfAnswered(f, d.name);
    } else {
      EnumsAnswered(f, f.enums, d);
      if AmongEnums(f.package, f.enums, d.name) { ItselfAnswered(f, d.name); }
    }
  }

  /** A sub-symbol of a sibling is the sibling itself. */
  lemma SiblingOnly(scope: string, a: string, b: string)
    requires IsIdentifier(a) && IsIdentifier(b) && IsSubSymbol(Qualify(scope, a), Qualify(scope, b))
    ensures Qualify(scope, a) == Qualify(scope, b)
  {
    QualifyLastDot(scope, b);
  }

  lemma TopLevelNamed(f: FileProto, key: string) returns (name: string)
    requires ProperlyDeclared(f) && IsTopLevel(f, key)
    ensures IsIdentifier(name) && key == Qualify(f.package, name)
  {
    hide IsIdentifier, Qualify;
    if AmongMessages(f.package, f.messages, key) {
      var i :| 0 <= i < |f.messages| && key == Qualify(f.package, f.messages[i].name);
      assert MessageProper(f.messages[i]);
      name := f.messages[i].name;
    } else if AmongEnums(f.package, f.enums, key) {
      var i :| 0 <= i < |f.enums| && key == Qualify(f.package, f.enums[i].name);
      assert EnumProper(f.enums[i]);
      name := f.enums[i].name;
    } else if AmongServices(f.package, f.services, key) {
      var i :| 0 <= i < |f.services| && key == Qualify(f.package, f.services[i].name);
      assert ServiceProper(f.services[i]);
      name := f.services[i].name;
    } else {
      var i :| 0 <= i < |f.extensions| && key == Qualify(f.package, f.extensions[i].name);
      assert FieldProper(f.extensions[i], true);
      name := f.extensions[i].name;
    }
  }

  lemma ValueNamed(f: FileProto, name: string) returns (value: string)
    requires ProperlyDeclared(f) && IsTopValue(f, name)
    ensures IsIdentifier(value) && name == Qualify(f.package, value)
  {
    hide IsIdentifier, Qualify;
    var i, j :| 0 <= i < |f.enums| && 0 <= j < |f.enums[i].values| && name == Qualify(f.package, f.enums[i].values[j]);
    assert EnumProper(f.enums[i]);
    value := f.enums[i].values[j];
  }

  lemma ValueNotAnswered(f: FileProto, name: string)
    requires ProperlyDeclared(f) && IsTopValue(f, name) && Answered(f, name)
    ensures IsTopLevel(f, name)
  {
    hide IsTopLevel, IsTopValue, ProperlyDeclared, IsIdentifier, IsSubSymbol, Qualify;
    var key :| IsTopLevel(f, key) && IsSubSymbol(key, name);
    var a := TopLevelNamed(f, key);
    var b := ValueNamed(f, name);
    SiblingOnly(f.package, a, b);
  }

  /** Of everything that a file declares, at any depth, it is the answer for what is not a
      value of an enum of the file itself.  Such a value is a sibling of its enum, and only
      the enum is entered, so the file is not the answer for the value unless it declares
      something else of that name. */
  lemma DeclaredIsAnswered(files: seq<FileProto>, f: FileProto, d: Declaration)
    requires RunNeverSlips(files) && WasAdded(files, f)
    requires ProperlyDeclared(f) && d in OfFile(f)
    ensures FileWith(Simple(Filled(files)), ForSymbol(d.name)) == Some(f)
       <==> !IsTopValue(f, d.name) || IsTopLevel(f, d.name)
  {
    hide IsTopLevel, IsTopValue, ProperlyDeclared, IsSubSymbol, OfFile, Filled, FileWith, WasAdded, RunNeverSlips;
    AddedIsAnswer(files, f, d.name, "", 0);
    DeclaredAnswered(f, d);
    if IsTopValue(f, d.name) && Answered(f, d.name) { ValueNotAnswered(f, d.name); }
    if IsTopLevel(f, d.name) { ItselfAnswered(f, d.name); }
  }

  /** A file with one enum "E" that has the value "V". */
  const VALUE_FILE := FileProto("f", "", [], [], [], [], [EnumProto("E", ["V"])], [], [])

  /** The file declares "V", and no file is found for it. */
  lemma {:induction false} ValueNotFound()
    ensures Declaration("V", Symbols.ENUM_VALUE, []) in OfFile(VALUE_FILE)
    ensures WasAdded([VALUE_FILE], VALUE_FILE) && FileWith(Simple(Filled([VALUE_FILE])), ForSymbol("V")) == None
  {
    var f := VALUE_FILE;
    assert f.enums[..0] == [] && ["V"][..0] == [];
    assert OfValues("", ["V"]) == [Declaration("V", Symbols.ENUM_VALUE, [])];
    assert OfEnums("", f.enums) == OfEnums("", []) + OfEnum("", f.enums[0]);
    assert f.enums[1..] == [] && EnumRequests("", f.enums) == [SymbolNamed("E")] by { assert "" + "E" == "E"; }
    assert Requests(f) == [SymbolNamed("E")];
    assert [f][..0] == [] && Filled([]) == Empty<FileProto>();
    var start := Empty<FileProto>().(names := map["f" := f]);
    ServeOne(start, SymbolNamed("E"), f);
    assert AddedFile(Filled([f][..0]), f, f) == (With(start, SymbolNamed("E"), f), true);
    assert With(start, SymbolNamed("E"), f).symbols == [Entry("E", f)];
  }
}
