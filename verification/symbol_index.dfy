/** An ordered table from dotted symbol names to values, searched with a single
    predecessor lookup, and when that lookup is enough. */
module SymbolIndex {
  import opened Options

  /** Strings in the order of their bytes, as an ordered map keeps its keys. */
  predicate Less(a: string, b: string) {
    b != "" && (a == "" || a[0] < b[0] || (a[0] == b[0] && Less(a[1..], b[1..])))
  }

  /** `key` is the name itself or one of its dotted parents. */
  predicate IsSubSymbol(key: string, name: string) {
    key == name || (|key| < |name| && key == name[..|key|] && name[|key|] == '.')
  }

  predicate IsSymbolChar(c: char) {
    c == '.' || c == '_' || '0' <= c <= '9' || 'A' <= c <= 'Z' || 'a' <= c <= 'z'
  }

  predicate IsSymbolName(name: string) {
    forall i :: 0 <= i < |name| ==> IsSymbolChar(name[i])
  }

  datatype Entry<V> = Entry(key: string, value: V)

  /** The entries in order of their keys, which are distinct valid names. */
  predicate WellFormed<V>(s: seq<Entry<V>>) {
    && (forall i, j :: 0 <= i < j < |s| ==> Less(s[i].key, s[j].key))
    && (forall i :: 0 <= i < |s| ==> IsSymbolName(s[i].key))
  }

  /** No key is a sub-symbol of another. */
  predicate PrefixFree<V>(s: seq<Entry<V>>) {
    forall i, j :: 0 <= i < |s| && 0 <= j < |s| && i != j ==> !IsSubSymbol(s[i].key, s[j].key)
  }

  // ------------------------------------------------------------------
  // The operations on the table

  /** The position of the first key greater than the name. */
  function UpperBound<V>(s: seq<Entry<V>>, name: string): (u: nat)
    ensures u <= |s|
    ensures forall i :: 0 <= i < u ==> !Less(name, s[i].key)
    ensures u < |s| ==> Less(name, s[u].key)
  {
    if s == [] || Less(name, s[0].key) then 0 else 1 + UpperBound(s[1..], name)
  }

  /** The last key that is at most the name; the first key when there is none. */
  function FindLastLessOrEqual<V>(s: seq<Entry<V>>, name: string): (i: nat)
    ensures i == |s| <==> s == []
  {
    var u := UpperBound(s, name);
    if u != 0 then u - 1 else u
  }

  /** The entry that a search for the name returns. */
  function Find<V>(s: seq<Entry<V>>, name: string): (r: Option<Entry<V>>) {
    var i := FindLastLessOrEqual(s, name);
    if i != |s| && IsSubSymbol(s[i].key, name) then Some(s[i]) else None
  }

  /** The verdict on a new name: valid, and in conflict with neither of two neighbours. */
  predicate Accepts<V>(s: seq<Entry<V>>, name: string) {
    && IsSymbolName(name)
    && var i := FindLastLessOrEqual(s, name);
       i == |s| || (!IsSubSymbol(s[i].key, name) && (i + 1 == |s| || !IsSubSymbol(name, s[i + 1].key)))
  }

  /** The entry put where its key belongs; nothing when the key is there already. */
  function Inserted<V>(s: seq<Entry<V>>, e: Entry<V>): seq<Entry<V>> {
    var u := UpperBound(s, e.key);
    if u != 0 && s[u - 1].key == e.key then s else s[..u] + [e] + s[u..]
  }

  // ------------------------------------------------------------------
  // The order

  lemma {:induction false} LessIrreflexive(a: string)
    ensures !Less(a, a)
  {
    if a != "" { LessIrreflexive(a[1..]); }
  }

  lemma {:induction false} LessTransitive(a: string, b: string, c: string)
    requires Less(a, b) && Less(b, c)
    ensures Less(a, c)
  {
    if a != "" && a[0] == b[0] && b[0] == c[0] { LessTransitive(a[1..], b[1..], c[1..]); }
  }

  lemma {:induction false} LessTotal(a: string, b: string)
    ensures a == b || Less(a, b) || Less(b, a)
  {
    if a != "" && b != "" && a[0] == b[0] {
      LessTotal(a[1..], b[1..]);
      if a[1..] == b[1..] {
        assert a == [a[0]] + a[1..] && b == [b[0]] + b[1..];
      }
    }
  }

  /** A proper prefix comes first. */
  lemma {:induction false} PrefixLess(a: string, b: string)
    requires |a| < |b| && a == b[..|a|]
    ensures Less(a, b)
  {
    if a != "" {
      assert a[1..] == b[1..][..|a| - 1];
      PrefixLess(a[1..], b[1..]);
    }
  }

  /** A string between `p` and an extension of `p` is itself an extension of `p`, and
      its next character is no greater. */
  lemma {:induction false} Between(p: string, m: string, x: string)
    requires |p| < |x| && p == x[..|p|]
    requires Less(p, m) && (m == x || Less(m, x))
    ensures |p| < |m| && p == m[..|p|] && m[|p|] <= x[|p|]
  {
    if m != x && p != "" {
      assert p[1..] == x[1..][..|p| - 1] && x[0] == p[0];
      assert m == [m[0]] + m[1..] && x == [x[0]] + x[1..];
      Between(p[1..], m[1..], x[1..]);
      assert p == [p[0]] + p[1..];
    }
  }

  /** The keys from a matching key up to the name are sub-symbols of it, because '.'
      comes before every other character of a valid name. */
  lemma SubSymbolsBetween(p: string, m: string, x: string)
    requires IsSubSymbol(p, x) && IsSymbolName(m)
    requires p == m || Less(p, m)
    requires m == x || Less(m, x)
    ensures IsSubSymbol(p, m)
  {
    if p != m && p != x {
      Between(p, m, x);
      assert IsSymbolChar(m[|p|]);
    } else if p != m {
      LessIrreflexive(p);
      if m != x { LessTransitive(p, m, x); }
    }
  }

  lemma SubSymbolNotGreater(key: string, name: string)
    requires IsSubSymbol(key, name)
    ensures key == name || Less(key, name)
    ensures !Less(name, key)
  {
    LessIrreflexive(name);
    if key != name {
      PrefixLess(key, name);
      if Less(name, key) { LessTransitive(name, key, name); }
    }
  }

  // ------------------------------------------------------------------
  // Searching

  lemma UpperBoundSplits<V>(s: seq<Entry<V>>, name: string, k: nat)
    requires WellFormed(s) && k < |s|
    ensures k < UpperBound(s, name) <==> !Less(name, s[k].key)
    ensures k < UpperBound(s, name) <==> (s[k].key == name || Less(s[k].key, name))
  {
    hide Less, IsSymbolName;
    var u := UpperBound(s, name);
    LessTotal(s[k].key, name);
    LessIrreflexive(name);
    if Less(s[k].key, name) && Less(name, s[k].key) { LessTransitive(name, s[k].key, name); }
    if u < k { LessTransitive(name, s[u].key, s[k].key); }
  }

  /** A matching key is below the bound, and is a sub-symbol of every key from there up
      to the bound. */
  lemma MatchIsBelow<V>(s: seq<Entry<V>>, name: string, k: nat)
    requires WellFormed(s) && k < |s| && IsSubSymbol(s[k].key, name)
    ensures k < UpperBound(s, name)
    ensures IsSubSymbol(s[k].key, s[UpperBound(s, name) - 1].key)
  {
    var u := UpperBound(s, name);
    SubSymbolNotGreater(s[k].key, name);
    UpperBoundSplits(s, name, k);
    UpperBoundSplits(s, name, u - 1);
    SubSymbolsBetween(s[k].key, s[u - 1].key, name);
  }

  /** On a prefix-free table one predecessor lookup finds the key that is equal to, or a
      dotted prefix of, any searched name; there is at most one such key. */
  lemma FindIsScan<V>(s: seq<Entry<V>>, name: string, k: nat)
    requires WellFormed(s) && PrefixFree(s) && k < |s|
    ensures Find(s, name) == Some(s[k]) <==> IsSubSymbol(s[k].key, name)
    ensures IsSubSymbol(s[k].key, name) ==>
              forall j :: 0 <= j < |s| && j != k ==> !IsSubSymbol(s[j].key, name)
  {
    forall j | 0 <= j < |s| && IsSubSymbol(s[j].key, name)
      ensures j == FindLastLessOrEqual(s, name)
    {
      MatchIsBelow(s, name, j);
    }
    var i := FindLastLessOrEqual(s, name);
    if i != k && i < |s| {
      LessIrreflexive(s[i].key);
      assert s[i] != s[k] by { if i < k { assert Less(s[i].key, s[k].key); } else { assert Less(s[k].key, s[i].key); } }
    }
  }

  /** A search misses no key that matches the name. */
  ghost predicate Complete<V(!new)>(s: seq<Entry<V>>) {
    forall name, k :: 0 <= k < |s| && IsSubSymbol(s[k].key, name) ==> Find(s, name) == Some(s[k])
  }

  /** Some name is not found although a key matches it. */
  ghost predicate Misses<V(!new)>(s: seq<Entry<V>>) {
    exists name, k :: 0 <= k < |s| && IsSubSymbol(s[k].key, name) && Find(s, name) == None
  }

  /** The invariant is exactly what the lookup needs: without it some name that has a
      matching key is reported as missing. */
  lemma PrefixFreeIffComplete<V(!new)>(s: seq<Entry<V>>)
    requires WellFormed(s)
    ensures PrefixFree(s) <==> Complete(s)
    ensures PrefixFree(s) <==> !Misses(s)
  {
    if PrefixFree(s) {
      forall name, k | 0 <= k < |s| && IsSubSymbol(s[k].key, name) ensures Find(s, name) == Some(s[k]) {
        FindIsScan(s, name, k);
      }
    } else {
      var i, j :| 0 <= i < |s| && 0 <= j < |s| && i != j && IsSubSymbol(s[i].key, s[j].key);
      var name := s[j].key + "\0";
      KeyBeforeNul(s, j);
      assert IsSubSymbol(s[i].key, name) by {
        assert s[i].key != s[j].key by { LessIrreflexive(s[i].key); assert i < j || j < i; }
        assert name[..|s[j].key|] == s[j].key;
      }
      assert !IsSubSymbol(s[j].key, name) by { assert name[|s[j].key|] == '\0'; }
      assert Find(s, name) == None;
    }
  }

  /** No valid key lies strictly between a key and the key followed by a NUL. */
  lemma NothingBetween(key: string, m: string)
    requires IsSymbolName(m) && Less(key, m)
    ensures Less(key + "\0", m)
  {
    var name := key + "\0";
    LessTotal(m, name);
    if m == name || Less(m, name) {
      Between(key, m, name);
    }
  }

  /** A key is the predecessor of itself followed by a NUL. */
  lemma KeyBeforeNul<V>(s: seq<Entry<V>>, j: nat)
    requires WellFormed(s) && j < |s|
    ensures FindLastLessOrEqual(s, s[j].key + "\0") == j
  {
    hide Less, IsSymbolName;
    var name := s[j].key + "\0";
    PrefixLess(s[j].key, name);
    UpperBoundSplits(s, name, j);
    if j + 1 < |s| {
      NothingBetween(s[j].key, s[j + 1].key);
      UpperBoundSplits(s, name, j + 1);
    }
  }

  // ------------------------------------------------------------------
  // Adding

  /** A key of the table is a dotted parent or a child of the name, or the name itself. */
  predicate Conflicts<V>(s: seq<Entry<V>>, name: string) {
    exists k :: 0 <= k < |s| && (IsSubSymbol(s[k].key, name) || IsSubSymbol(name, s[k].key))
  }

  /** The case that the check misses: the name sorts before every key, so the step past
      the predecessor skips the first key, which is below the name. */
  predicate Slips<V>(s: seq<Entry<V>>, name: string) {
    && s != [] && Less(name, s[0].key) && IsSubSymbol(name, s[0].key)
    && (|s| > 1 ==> !IsSubSymbol(name, s[1].key))
  }

  /** If any key is below the name then the first key greater than the name is. */
  lemma ChildIsNext<V>(s: seq<Entry<V>>, name: string, k: nat)
    requires WellFormed(s) && k < |s| && IsSubSymbol(name, s[k].key) && name != s[k].key
    ensures UpperBound(s, name) <= k && IsSubSymbol(name, s[UpperBound(s, name)].key)
  {
    var u := UpperBound(s, name);
    SubSymbolNotGreater(name, s[k].key);
    UpperBoundSplits(s, name, k);
    SubSymbolsBetween(name, s[u].key, s[k].key);
  }

  /** A new name is refused exactly when it is invalid or in conflict, except for the
      names that slip through. */
  lemma AcceptsExactly<V>(s: seq<Entry<V>>, name: string)
    requires WellFormed(s) && PrefixFree(s)
    ensures Accepts(s, name) <==> IsSymbolName(name) && (Conflicts(s, name) ==> Slips(s, name))
  {
    var u := UpperBound(s, name);
    if IsSymbolName(name) && !Accepts(s, name) && Slips(s, name) {
      UpperBoundSplits(s, name, 0);
      SubSymbolNotGreater(name, s[0].key);
      if IsSubSymbol(s[0].key, name) { SubSymbolNotGreater(s[0].key, name); LessIrreflexive(name); }
    }
    if Accepts(s, name) && Conflicts(s, name) {
      var k :| 0 <= k < |s| && (IsSubSymbol(s[k].key, name) || IsSubSymbol(name, s[k].key));
      if IsSubSymbol(s[k].key, name) {
        FindIsScan(s, name, k);
      } else {
        ChildIsNext(s, name, k);
      }
    }
  }

  lemma InsertedWellFormed<V>(s: seq<Entry<V>>, e: Entry<V>)
    requires WellFormed(s) && IsSymbolName(e.key)
    requires forall k :: 0 <= k < |s| ==> s[k].key != e.key
    ensures WellFormed(Inserted(s, e))
    ensures Inserted(s, e) == s[..UpperBound(s, e.key)] + [e] + s[UpperBound(s, e.key)..]
  {
    hide Less, IsSymbolName;
    var u := UpperBound(s, e.key);
    forall k | 0 <= k < |s| ensures if k < u then Less(s[k].key, e.key) else Less(e.key, s[k].key) {
      UpperBoundSplits(s, e.key, k);
    }
    InOrderWith(s, u, e);
  }

  lemma InOrderWith<V>(s: seq<Entry<V>>, u: nat, e: Entry<V>)
    requires WellFormed(s) && IsSymbolName(e.key) && u <= |s|
    requires forall k :: 0 <= k < |s| ==> if k < u then Less(s[k].key, e.key) else Less(e.key, s[k].key)
    ensures WellFormed(s[..u] + [e] + s[u..])
  {
    hide Less, IsSymbolName;
    var t := s[..u] + [e] + s[u..];
    assert forall k :: 0 <= k < u ==> t[k] == s[k];
    assert forall k :: u < k < |t| ==> t[k] == s[k - 1];
    forall i, j | 0 <= i < j < |t| ensures Less(t[i].key, t[j].key) {
      if i != u && j != u {
        assert Less(s[if i < u then i else i - 1].key, s[if j < u then j else j - 1].key);
      }
    }
  }

  /** An accepted name is new. */
  lemma AcceptedIsNew<V>(s: seq<Entry<V>>, name: string, k: nat)
    requires WellFormed(s) && Accepts(s, name) && k < |s|
    ensures s[k].key != name
  {
    if s[k].key == name {
      LessIrreflexive(name);
      UpperBoundSplits(s, name, k);
    }
  }

  /** An entry put anywhere into a table keeps it prefix-free when it conflicts with none. */
  lemma PrefixFreeWith<V>(s: seq<Entry<V>>, u: nat, e: Entry<V>)
    requires u <= |s|
    ensures PrefixFree(s[..u] + [e] + s[u..]) <==> PrefixFree(s) && !Conflicts(s, e.key)
  {
    hide IsSubSymbol;
    var t := s[..u] + [e] + s[u..];
    assert forall k :: 0 <= k < u ==> t[k] == s[k];
    assert forall k :: u < k < |t| ==> t[k] == s[k - 1];
    if PrefixFree(t) {
      forall i, j | 0 <= i < |s| && 0 <= j < |s| && i != j ensures !IsSubSymbol(s[i].key, s[j].key) {
        assert t[if i < u then i else i + 1] == s[i] && t[if j < u then j else j + 1] == s[j];
      }
      forall k | 0 <= k < |s| ensures !IsSubSymbol(s[k].key, e.key) && !IsSubSymbol(e.key, s[k].key) {
        assert t[u] == e && t[if k < u then k else k + 1] == s[k];
      }
      assert PrefixFree(s) && !Conflicts(s, e.key);
    } else if PrefixFree(s) {
      var i, j :| 0 <= i < |t| && 0 <= j < |t| && i != j && IsSubSymbol(t[i].key, t[j].key);
      assert i != u ==> t[i] == s[if i < u then i else i - 1];
      assert j != u ==> t[j] == s[if j < u then j else j - 1];
      assert Conflicts(s, e.key);
    }
  }

  /** Adding an accepted name keeps the table in order, and keeps it prefix-free exactly
      when the name does not slip through.  A table that has lost the invariant never
      gets it back. */
  lemma AddingKeepsPrefixFree<V>(s: seq<Entry<V>>, e: Entry<V>)
    requires WellFormed(s) && Accepts(s, e.key)
    ensures WellFormed(Inserted(s, e))
    ensures PrefixFree(Inserted(s, e)) <==> PrefixFree(s) && !Slips(s, e.key)
  {
    hide Less, IsSymbolName, IsSubSymbol;
    forall k | 0 <= k < |s| ensures s[k].key != e.key { AcceptedIsNew(s, e.key, k); }
    InsertedWellFormed(s, e);
    PrefixFreeWith(s, UpperBound(s, e.key), e);
    if PrefixFree(s) { AcceptsExactly(s, e.key); }
    if Slips(s, e.key) { assert IsSubSymbol(e.key, s[0].key); }
  }

  /** The case in the code: after "foo.bar", the conflicting name "foo" is accepted, and
      then "foo.baz" is reported as missing although "foo" matches it. */
  lemma ParentAfterChild(s: seq<Entry<int>>, t: seq<Entry<int>>)
    requires s == [Entry("foo.bar", 1)] && t == [Entry("foo", 2), Entry("foo.bar", 1)]
    ensures Inserted([], s[0]) == s && Inserted(s, t[0]) == t
    ensures Accepts(s, "foo") && Conflicts(s, "foo") && !PrefixFree(t)
    ensures IsSubSymbol(t[0].key, "foo.baz") && Find(t, "foo.baz") == None
  {
    PrefixLess("foo", "foo.bar");
    ConcreteKeys();
    hide Less, IsSymbolName, IsSubSymbol;
    assert WellFormed(s);
    assert IsSubSymbol("foo", s[0].key) && IsSubSymbol(t[0].key, t[1].key);
    assert UpperBound(s, "foo") == 0;
    assert WellFormed(t);
    UpperBoundSplits(t, "foo.baz", 1);
  }

  lemma ConcreteKeys()
    ensures IsSymbolName("foo") && IsSymbolName("foo.bar") && Less("foo.bar", "foo.baz")
    ensures IsSubSymbol("foo", "foo.bar") && IsSubSymbol("foo", "foo.baz")
    ensures !IsSubSymbol("foo.bar", "foo") && !IsSubSymbol("foo.bar", "foo.baz")
  {
    LessAfter("foo.ba", "r", "z");
    assert "foo.ba" + "r" == "foo.bar" && "foo.ba" + "z" == "foo.baz";
    assert "foo.bar"[..3] == "foo" && "foo.baz"[..3] == "foo";
    assert "foo.bar"[6] != "foo.baz"[6];
  }

  lemma {:induction false} LessAfter(p: string, a: string, b: string)
    requires Less(a, b)
    ensures Less(p + a, p + b)
  {
    if p == "" { assert p + a == a && p + b == b; }
    else {
      LessAfter(p[1..], a, b);
      assert (p + a)[1..] == p[1..] + a && (p + b)[1..] == p[1..] + b;
    }
  }
}
