/** The factory of prototypes: a table of what was built, filled recursively along message
    fields, which may form cycles. */
module PrototypeFactory {
  import opened Options
  import opened MessageLayout

  /** A field, with its type of message if it is one. */
  datatype FieldType = FieldType(shape: FieldShape, messageType: nat)

  datatype MessageType = MessageType(fields: seq<FieldType>, hasExtensions: bool)

  /** The field is a pointer to a message. */
  predicate IsLink(f: FieldType) {
    f.shape.cppType.CPP_MESSAGE? && !f.shape.isRepeated
  }

  predicate Closed(types: seq<MessageType>) {
    forall t, i :: 0 <= t < |types| && 0 <= i < |types[t].fields| && IsLink(types[t].fields[i]) ==>
      types[t].fields[i].messageType < |types|
  }

  function Shapes(fields: seq<FieldType>): (r: seq<FieldShape>)
    ensures |r| == |fields| && forall i :: 0 <= i < |r| ==> r[i] == fields[i].shape
  {
    seq(|fields|, i requires 0 <= i < |fields| => fields[i].shape)
  }

  // ------------------------------------------------------------------
  // What a type needs

  /** Each type on the path has a message field of the next one. */
  ghost predicate IsPath(types: seq<MessageType>, p: seq<nat>) {
    && p != [] && (forall i :: 0 <= i < |p| ==> p[i] < |types|)
    && forall i :: 0 <= i < |p| - 1 ==> Links(types, p[i], p[i + 1])
  }

  ghost predicate Links(types: seq<MessageType>, t: nat, u: nat)
    requires t < |types|
  {
    exists i :: 0 <= i < |types[t].fields| && IsLink(types[t].fields[i]) && types[t].fields[i].messageType == u
  }

  ghost predicate Needs(types: seq<MessageType>, t: nat, u: nat) {
    exists p :: IsPath(types, p) && p[0] == t && p[|p| - 1] == u
  }

  lemma NeedsItself(types: seq<MessageType>, t: nat)
    requires t < |types|
    ensures Needs(types, t, t)
  {
    assert IsPath(types, [t]);
  }

  lemma NeedsMore(types: seq<MessageType>, t: nat, u: nat, v: nat)
    requires t < |types| && Links(types, t, u) && Needs(types, u, v)
    ensures Needs(types, t, v)
  {
    var p :| IsPath(types, p) && p[0] == u && p[|p| - 1] == v;
    var q := [t] + p;
    forall i | 0 <= i < |q| - 1 ensures Links(types, q[i], q[i + 1]) {
      if i > 0 { assert q[i] == p[i - 1] && q[i + 1] == p[i]; }
    }
    assert IsPath(types, q) && q[|q| - 1] == v;
  }

  /** A set that is closed under message fields has everything that its members need. */
  lemma {:induction false} ClosedHasNeeds(types: seq<MessageType>, built: set<nat>, p: seq<nat>)
    requires IsPath(types, p) && p[0] in built
    requires forall t, u :: t in built && t < |types| && Links(types, t, u) ==> u in built
    ensures p[|p| - 1] in built
    decreases |p|
  {
    if |p| > 1 {
      var q := p[1..];
      assert Links(types, p[0], p[1]);
      forall i | 0 <= i < |q| - 1 ensures Links(types, q[i], q[i + 1]) { assert q[i] == p[i + 1]; }
      ClosedHasNeeds(types, built, q);
    }
  }

  // ------------------------------------------------------------------
  // The table of prototypes

  /** A prototype: its type, its layout, and for each field the address of the prototype
      that it points to, if any. */
  datatype Prototype = Prototype(kind: nat, layout: Layout, links: seq<Option<nat>>)

  /** The addresses of the cached types, and the memory that prototypes are built in. */
  datatype Table = Table(built: map<nat, nat>, memory: seq<Prototype>)

  datatype World = World(types: seq<MessageType>, sizes: Sizes)
  {
    ghost predicate Sound() {
      Closed(types) && Positive(sizes)
    }
  }

  /** The prototype of a type is one, with the layout of the type. */
  ghost predicate IsBuilt(w: World, s: Table, t: nat)
    requires w.Sound() && t in s.built
  {
    && t < |w.types| && s.built[t] < |s.memory|
    && var p := s.memory[s.built[t]];
       && p.kind == t && |p.links| == |w.types[t].fields|
       && LaidOut(w.sizes, Shapes(w.types[t].fields), w.types[t].hasExtensions, p.layout)
  }

  /** The first `n` fields point to the cached prototypes of their types. */
  ghost predicate Linked(w: World, s: Table, t: nat, n: nat)
    requires w.Sound() && t in s.built && IsBuilt(w, s, t) && n <= |w.types[t].fields|
  {
    forall i :: 0 <= i < n && IsLink(w.types[t].fields[i]) ==>
      var u := w.types[t].fields[i].messageType;
      u in s.built && s.memory[s.built[t]].links[i] == Some(s.built[u])
  }

  /** Everything cached is built, and linked unless its fields are being filled in. */
  ghost predicate Valid(w: World, s: Table, open: set<nat>)
    requires w.Sound()
  {
    && (forall t :: t in s.built ==> IsBuilt(w, s, t))
    && (forall t :: t in s.built && t !in open ==> Linked(w, s, t, |w.types[t].fields|))
  }

  /** What was cached stays cached at its address, and memory keeps its contents, except
      perhaps at one address. */
  ghost predicate Extends(s: Table, r: Table, except: Option<nat>) {
    && (forall t :: t in s.built ==> t in r.built && r.built[t] == s.built[t])
    && |s.memory| <= |r.memory|
    && (forall a :: 0 <= a < |s.memory| && except != Some(a) ==> r.memory[a] == s.memory[a])
  }

  /** What is new is needed by the type. */
  ghost predicate OnlyNeeded(w: World, s: Table, r: Table, t: nat) {
    forall u :: u in r.built && u !in s.built ==> Needs(w.types, t, u)
  }

  lemma LinkedStays(w: World, s: Table, r: Table, t: nat, n: nat)
    requires w.Sound() && t in s.built && IsBuilt(w, s, t) && n <= |w.types[t].fields| && Linked(w, s, t, n)
    requires t in r.built && IsBuilt(w, r, t) && Extends(s, r, None)
    ensures Linked(w, r, t, n)
  {
    hide LaidOut;
  }

  /** A new entry with no links, which is open. */
  lemma BlankAdded(w: World, s: Table, t: nat, p: Prototype, open: set<nat>)
    requires w.Sound() && Valid(w, s, open) && t !in s.built && t < |w.types|
    requires p.kind == t && |p.links| == |w.types[t].fields|
    requires LaidOut(w.sizes, Shapes(w.types[t].fields), w.types[t].hasExtensions, p.layout)
    ensures var r := Table(s.built[t := |s.memory|], s.memory + [p]);
            Valid(w, r, open + {t}) && Extends(s, r, None) && Linked(w, r, t, 0)
  {
    hide LaidOut;
    var r := Table(s.built[t := |s.memory|], s.memory + [p]);
    forall u | u in r.built ensures IsBuilt(w, r, u) { if u != t { assert IsBuilt(w, s, u); } }
    forall u | u in r.built && u !in open + {t} ensures Linked(w, r, u, |w.types[u].fields|) {
      assert IsBuilt(w, s, u) && Linked(w, s, u, |w.types[u].fields|);
      LinkedStays(w, s, r, u, |w.types[u].fields|);
    }
  }

  /** The table with one field of a cached prototype pointed to an address. */
  function WithLink(s: Table, t: nat, i: nat, target: nat): Table
    requires t in s.built && s.built[t] < |s.memory| && i < |s.memory[s.built[t]].links|
  {
    var p := s.memory[s.built[t]];
    s.(memory := s.memory[s.built[t] := p.(links := p.links[i := Some(target)])])
  }

  /** One more field of an open type is linked; nothing else changes. */
  lemma LinkAdded(w: World, s: Table, t: nat, i: nat, open: set<nat>)
    requires w.Sound() && Valid(w, s, open) && t in open && t in s.built && i < |w.types[t].fields|
    requires IsBuilt(w, s, t) && Linked(w, s, t, i) && w.types[t].fields[i].messageType in s.built
    ensures var r := WithLink(s, t, i, s.built[w.types[t].fields[i].messageType]);
            Valid(w, r, open) && IsBuilt(w, r, t) && Linked(w, r, t, i + 1) && Extends(s, r, Some(s.built[t]))
  {
    hide LaidOut;
    var r := WithLink(s, t, i, s.built[w.types[t].fields[i].messageType]);
    forall u | u in r.built ensures IsBuilt(w, r, u) { assert IsBuilt(w, s, u); }
    forall u | u in r.built && u !in open ensures Linked(w, r, u, |w.types[u].fields|) {
      assert IsBuilt(w, s, u) && Linked(w, s, u, |w.types[u].fields|);
      assert s.built[u] != s.built[t];
    }
  }

  lemma ExtendsTransitive(s: Table, r: Table, q: Table, except: Option<nat>)
    requires Extends(s, r, except) && (Extends(r, q, None) || Extends(r, q, except))
    ensures Extends(s, q, except)
  {
  }

  // ------------------------------------------------------------------
  // The factory

  class DynamicMessageFactory {
    const world: World
    var prototypes: map<nat, nat>
    var memory: seq<Prototype>

    constructor (world: World)
      requires world.Sound()
      ensures this.world == world && State() == Table(map[], []) && Valid(world, State(), {})
    {
      this.world, prototypes, memory := world, map[], [];
    }

    function State(): Table
      reads this
    {
      Table(prototypes, memory)
    }

    /** The types that are not cached yet. */
    ghost function Unbuilt(): set<nat>
      reads this
    {
      Below(|world.types|) - prototypes.Keys
    }

    /** A request from outside: afterwards everything cached is linked, and exactly the types
        that the requested one needs were added. */
    method GetPrototype(t: nat) returns (p: nat)
      requires world.Sound() && Valid(world, State(), {}) && t < |world.types|
      modifies this
      ensures Valid(world, State(), {}) && t in prototypes && p == prototypes[t] && p < |memory|
      ensures Extends(old(State()), State(), None)
      ensures forall u :: u in prototypes <==> u in old(prototypes) || Needs(world.types, t, u)
      ensures forall u :: u in prototypes ==>
        IsBuilt(world, State(), u) && Linked(world, State(), u, |world.types[u].fields|)
    {
      hide LaidOut, Linked, Valid, Extends, OnlyNeeded, Needs;
      ghost var before := State();
      p := GetPrototypeNoLock(t, {});
      forall u: nat
        ensures u in prototypes <==> u in before.built || Needs(world.types, t, u)
        ensures u in prototypes ==>
          IsBuilt(world, State(), u) && Linked(world, State(), u, |world.types[u].fields|)
      {
        OutermostRequest(world, before, State(), t, u);
      }
    }

    /** The prototype of a type: the cached one, or a new one with everything that it needs.
        What was cached stays as it is. */
    method GetPrototypeNoLock(t: nat, ghost open: set<nat>) returns (p: nat)
      requires world.Sound() && Valid(world, State(), open) && t < |world.types|
      modifies this
      ensures Valid(world, State(), open) && t in prototypes && p == prototypes[t] && p < |memory|
      ensures Extends(old(State()), State(), None) && OnlyNeeded(world, old(State()), State(), t)
      decreases |Unbuilt()|, 1
    {
      hide LaidOut, Linked, IsBuilt, Valid, Extends, OnlyNeeded, Needs;
      ghost var before := State();
      Cached(world, before, t, open);
      if t in prototypes { return prototypes[t]; }
      p := AddBlank(t, open);
      ghost var added := State();
      CrossLinkPrototypes(t, open + {t});
      FilledIn(world, before, added, State(), t, open);
    }

    /** Lay out a prototype of the type, with no links yet, and cache it. */
    method AddBlank(t: nat, ghost open: set<nat>) returns (p: nat)
      requires world.Sound() && Valid(world, State(), open) && t < |world.types| && t !in prototypes
      modifies this
      ensures p == old(|memory|) && prototypes == old(prototypes)[t := p]
      ensures Valid(world, State(), open + {t}) && IsBuilt(world, State(), t) && Linked(world, State(), t, 0)
      ensures Extends(old(State()), State(), None) && |Unbuilt()| < |old(Unbuilt())|
    {
      hide LaidOut, Linked, Valid, Extends;
      var fields := world.types[t].fields;
      var layout := ComputeLayout(world.sizes, Shapes(fields), world.types[t].hasExtensions);
      var blank := Prototype(t, layout, seq(|fields|, i => None));
      BlankAdded(world, State(), t, blank, open);
      p := |memory|;
      UnbuiltFewer(t, p);
      prototypes, memory := prototypes[t := p], memory + [blank];
    }

    lemma UnbuiltFewer(t: nat, p: nat)
      requires t < |world.types| && t !in prototypes
      ensures |Below(|world.types|) - prototypes[t := p].Keys| < |Unbuilt()|
    {
      BelowHas(|world.types|, t);
      assert Below(|world.types|) - prototypes[t := p].Keys == Unbuilt() - {t};
    }

    /** Point each singular message field to the prototype of its type. */
    method CrossLinkPrototypes(t: nat, ghost open: set<nat>)
      requires world.Sound() && Valid(world, State(), open) && t in open && t in prototypes
      requires IsBuilt(world, State(), t) && Linked(world, State(), t, 0)
      modifies this
      ensures Valid(world, State(), open) && t in prototypes && IsBuilt(world, State(), t)
      ensures Linked(world, State(), t, |world.types[t].fields|)
      ensures Extends(old(State()), State(), Some(old(prototypes)[t])) && OnlyNeeded(world, old(State()), State(), t)
      decreases |Unbuilt()|, 2
    {
      hide LaidOut, Linked, Valid, Extends, OnlyNeeded, Needs;
      ghost var before := State();
      Nothing(world, before, t, Some(before.built[t]));
      var i := 0;
      while i < |world.types[t].fields|
        invariant 0 <= i <= |world.types[t].fields|
        invariant Valid(world, State(), open) && t in prototypes && IsBuilt(world, State(), t)
        invariant Linked(world, State(), t, i)
        invariant prototypes[t] == before.built[t]
        invariant Extends(before, State(), Some(before.built[t])) && OnlyNeeded(world, before, State(), t)
      {
        var field := world.types[t].fields[i];
        ghost var here := State();
        if IsLink(field) {
          FewerLeft(world, before, here, Some(before.built[t]));
          var link := GetPrototypeNoLock(field.messageType, open);
          ghost var after := State();
          FieldLinked(world, before, here, after, t, i, open);
          var q := memory[prototypes[t]];
          memory := memory[prototypes[t] := q.(links := q.links[i := Some(link)])];
          assert State() == WithLink(after, t, i, link);
        } else {
          NoLink(world, here, t, i);
        }
        i := i + 1;
      }
    }
  }

  lemma Cached(w: World, s: Table, t: nat, open: set<nat>)
    requires w.Sound() && Valid(w, s, open) && t < |w.types|
    ensures t in s.built ==> s.built[t] < |s.memory| && Extends(s, s, None) && OnlyNeeded(w, s, s, t)
  {
    if t in s.built { assert IsBuilt(w, s, t); }
  }

  lemma Nothing(w: World, s: Table, t: nat, except: Option<nat>)
    ensures Extends(s, s, except) && OnlyNeeded(w, s, s, t)
  {
  }

  lemma NoLink(w: World, s: Table, t: nat, i: nat)
    requires w.Sound() && t in s.built && IsBuilt(w, s, t) && i < |w.types[t].fields|
    requires Linked(w, s, t, i) && !IsLink(w.types[t].fields[i])
    ensures Linked(w, s, t, i + 1)
  {
    hide LaidOut;
  }

  lemma FewerLeft(w: World, s: Table, r: Table, except: Option<nat>)
    requires Extends(s, r, except)
    ensures |Below(|w.types|) - r.built.Keys| <= |Below(|w.types|) - s.built.Keys|
  {
    SubsetSize(Below(|w.types|) - r.built.Keys, Below(|w.types|) - s.built.Keys);
  }

  lemma SubsetSize<T>(a: set<T>, b: set<T>)
    requires a <= b
    ensures |a| <= |b|
    decreases |a|
  {
    if |a| > 0 {
      var x :| x in a;
      SubsetSize(a - {x}, b - {x});
    }
  }

  /** The field was loaded: the table is as before but for what it needed, and can take
      the link. */
  lemma FieldLinked(w: World, before: Table, here: Table, after: Table, t: nat, i: nat, open: set<nat>)
    requires w.Sound() && Valid(w, here, open) && Valid(w, after, open) && t in open
    requires t in before.built && t in here.built && before.built[t] == here.built[t] && IsBuilt(w, here, t)
    requires i < |w.types[t].fields| && IsLink(w.types[t].fields[i]) && Linked(w, here, t, i)
    requires Extends(before, here, Some(before.built[t])) && OnlyNeeded(w, before, here, t)
    requires Extends(here, after, None) && OnlyNeeded(w, here, after, w.types[t].fields[i].messageType)
    requires w.types[t].fields[i].messageType in after.built
    ensures t in after.built && after.built[t] == before.built[t] && IsBuilt(w, after, t)
    ensures var r := WithLink(after, t, i, after.built[w.types[t].fields[i].messageType]);
      && Valid(w, r, open) && IsBuilt(w, r, t) && Linked(w, r, t, i + 1)
      && Extends(before, r, Some(before.built[t])) && OnlyNeeded(w, before, r, t)
  {
    hide LaidOut, Needs, Links;
    var u := w.types[t].fields[i].messageType;
    assert IsBuilt(w, after, t);
    LinkedStays(w, here, after, t, i);
    LinkAdded(w, after, t, i, open);
    var r := WithLink(after, t, i, after.built[u]);
    ExtendsTransitive(before, here, after, Some(before.built[t]));
    ExtendsTransitive(before, after, r, Some(before.built[t]));
    FieldIsLink(w.types, t, i);
    forall v | v in r.built && v !in before.built ensures Needs(w.types, t, v) {
      if v !in here.built { NeedsMore(w.types, t, u, v); }
    }
  }

  lemma FieldIsLink(types: seq<MessageType>, t: nat, i: nat)
    requires t < |types| && i < |types[t].fields| && IsLink(types[t].fields[i])
    ensures Links(types, t, types[t].fields[i].messageType)
  {
  }

  /** A new entry whose fields were all filled in. */
  lemma FilledIn(w: World, before: Table, added: Table, after: Table, t: nat, open: set<nat>)
    requires w.Sound() && t < |w.types| && t !in before.built && t in added.built && added.built[t] == |before.memory|
    requires added.built.Keys == before.built.Keys + {t}
    requires Extends(before, added, None) && Extends(added, after, Some(added.built[t]))
    requires OnlyNeeded(w, added, after, t) && t in after.built
    requires Valid(w, after, open + {t}) && IsBuilt(w, after, t) && Linked(w, after, t, |w.types[t].fields|)
    ensures Valid(w, after, open) && Extends(before, after, None) && OnlyNeeded(w, before, after, t)
    ensures after.built[t] == |before.memory| < |after.memory|
  {
    hide LaidOut, Linked, Needs;
    NeedsItself(w.types, t);
  }

  function Below(n: nat): set<nat> {
    if n == 0 then {} else Below(n - 1) + {n - 1}
  }

  lemma BelowHas(n: nat, t: nat)
    ensures t in Below(n) <==> t < n
  {
  }

  // ------------------------------------------------------------------
  // At the outermost return

  /** When no type is open, everything cached is linked, and asking for a type adds exactly
      what the type needs. */
  lemma OutermostRequest(w: World, s: Table, r: Table, t: nat, u: nat)
    requires w.Sound() && Valid(w, s, {}) && Valid(w, r, {}) && t < |w.types|
    requires Extends(s, r, None) && t in r.built && OnlyNeeded(w, s, r, t)
    ensures u in r.built <==> u in s.built || Needs(w.types, t, u)
    ensures u in r.built ==> IsBuilt(w, r, u) && Linked(w, r, u, |w.types[u].fields|)
  {
    if Needs(w.types, t, u) {
      var p :| IsPath(w.types, p) && p[0] == t && p[|p| - 1] == u;
      forall v, x | v in r.built.Keys && v < |w.types| && Links(w.types, v, x) ensures x in r.built.Keys {
        assert Linked(w, r, v, |w.types[v].fields|);
      }
      ClosedHasNeeds(w.types, r.built.Keys, p);
    }
  }

  /** After a request from outside every singular message field of a cached type points to
      the cached prototype of its type. */
  lemma SingularMessagesLinked(w: World, s: Table, t: nat, i: nat)
    requires w.Sound() && Valid(w, s, {}) && t in s.built && t < |w.types| && i < |w.types[t].fields|
    requires w.types[t].fields[i].shape == FieldShape(CPP_MESSAGE, false)
    ensures var u := w.types[t].fields[i].messageType;
      u in s.built && IsBuilt(w, s, t) && s.memory[s.built[t]].links[i] == Some(s.built[u])
  {
    hide LaidOut, Shapes;
    assert IsBuilt(w, s, t);
    assert Linked(w, s, t, |w.types[t].fields|);
    assert IsLink(w.types[t].fields[i]);
  }

  /** A type without one needs no other type, whatever repeated fields it has. */
  lemma NothingElseNeeded(types: seq<MessageType>, t: nat, u: nat)
    requires t < |types| && Needs(types, t, u)
    requires forall i :: 0 <= i < |types[t].fields| ==> types[t].fields[i].shape != FieldShape(CPP_MESSAGE, false)
    ensures u == t
  {
    var p :| IsPath(types, p) && p[0] == t && p[|p| - 1] == u;
    FirstStep(types, p);
  }

  lemma FirstStep(types: seq<MessageType>, p: seq<nat>)
    requires IsPath(types, p)
    ensures |p| > 1 ==>
      exists i :: 0 <= i < |types[p[0]].fields| && types[p[0]].fields[i].shape == FieldShape(CPP_MESSAGE, false)
  {
    if |p| > 1 { assert Links(types, p[0], p[0 + 1]); }
  }
}
