/** The graph of public imports between the files of a store. */
module ImportGraph {
  import opened Options
  import opened SymbolStore

  predicate IsFile(s: Store, f: nat) {
    f < |s.allocations| && s.allocations[f].FileBlock?
  }

  /** File blocks refer to older files or to themselves, name their public imports
      by valid positions, and own a table each. */
  ghost predicate BlocksSound(s: Store) {
    && (forall f, i :: 0 <= f < |s.allocations| && s.allocations[f].FileBlock?
                       && 0 <= i < |s.allocations[f].dependencies| && s.allocations[f].dependencies[i].Some? ==>
          s.allocations[f].dependencies[i].value <= f && IsFile(s, s.allocations[f].dependencies[i].value))
    && (forall f, i :: 0 <= f < |s.allocations| && s.allocations[f].FileBlock?
                       && 0 <= i < |s.allocations[f].publicDependencies| ==>
          s.allocations[f].publicDependencies[i] < |s.allocations[f].dependencies|)
    && (forall f :: 0 <= f < |s.allocations| && s.allocations[f].FileBlock? ==> s.allocations[f].table < |s.fileTables|)
    && (forall f, g :: 0 <= f < g < |s.allocations| && s.allocations[f].FileBlock? && s.allocations[g].FileBlock? ==>
          s.allocations[f].table < s.allocations[g].table)
  }

  function PublicImport(s: Store, f: nat, i: nat): Option<nat>
    requires BlocksSound(s) && IsFile(s, f) && i < |s.allocations[f].publicDependencies|
  {
    s.allocations[f].dependencies[s.allocations[f].publicDependencies[i]]
  }

  lemma DependencyIsFile(s: Store, f: nat, i: nat)
    requires BlocksSound(s) && IsFile(s, f) && i < |s.allocations[f].dependencies|
    ensures s.allocations[f].dependencies[i].Some? ==> IsFile(s, s.allocations[f].dependencies[i].value)
  {
  }

  lemma PublicImportIsFile(s: Store, f: nat, i: nat)
    requires BlocksSound(s) && IsFile(s, f) && i < |s.allocations[f].publicDependencies|
    ensures s.allocations[f].publicDependencies[i] < |s.allocations[f].dependencies|
    ensures PublicImport(s, f, i).Some? ==>
      IsFile(s, PublicImport(s, f, i).value) && Edge(s, f, PublicImport(s, f, i).value)
  {
  }

  /** `f` publicly imports `g`. */
  ghost predicate Edge(s: Store, f: nat, g: nat)
    requires BlocksSound(s)
  {
    IsFile(s, f) && exists i :: 0 <= i < |s.allocations[f].publicDependencies| && PublicImport(s, f, i) == Some(g)
  }

  ghost predicate IsPath(s: Store, p: seq<nat>)
    requires BlocksSound(s)
  {
    p != [] && forall i :: 0 <= i < |p| - 1 ==> Edge(s, p[i], p[i + 1])
  }

  ghost predicate Reaches(s: Store, f: nat, g: nat)
    requires BlocksSound(s)
  {
    exists p :: IsPath(s, p) && p[0] == f && p[|p| - 1] == g
  }

  /** Every public import of a member, other than of those in `before`, is a member. */
  ghost predicate Closed(s: Store, before: set<nat>, members: set<nat>)
    requires BlocksSound(s)
  {
    forall f, i ::
      (f in members && f !in before && IsFile(s, f)
       && 0 <= i < |s.allocations[f].publicDependencies| && PublicImport(s, f, i).Some?) ==>
        PublicImport(s, f, i).value in members
  }

  lemma ClosedMore(s: Store, before: set<nat>, mid: set<nat>, members: set<nat>)
    requires BlocksSound(s) && before <= mid <= members
    requires Closed(s, before, mid) && Closed(s, mid, members)
    ensures Closed(s, before, members)
  {
    hide BlocksSound;
  }

  lemma ReachesSelf(s: Store, f: nat)
    requires BlocksSound(s)
    ensures Reaches(s, f, f)
  {
    assert IsPath(s, [f]);
  }

  lemma ReachesFrom(s: Store, f: nat, g: nat, h: nat)
    requires BlocksSound(s) && Edge(s, f, g) && Reaches(s, g, h)
    ensures Reaches(s, f, h)
  {
    var p :| IsPath(s, p) && p[0] == g && p[|p| - 1] == h;
    var q := [f] + p;
    assert forall i :: 1 <= i < |q| ==> q[i] == p[i - 1];
    assert IsPath(s, q);
  }

  /** A closed set holds everything reachable from its members. */
  lemma {:induction false} ClosedHoldsReachable(s: Store, visited: set<nat>, p: seq<nat>)
    requires BlocksSound(s) && Closed(s, {}, visited)
    requires IsPath(s, p) && p[0] in visited
    ensures p[|p| - 1] in visited
    decreases |p|
  {
    if |p| > 1 {
      assert Edge(s, p[0], p[1]);
      assert forall i :: 0 <= i < |p[1..]| ==> p[1..][i] == p[i + 1];
      ClosedHoldsReachable(s, visited, p[1..]);
    }
  }

  ghost predicate ReachedFrom(s: Store, roots: set<nat>, g: nat)
    requires BlocksSound(s)
  {
    exists r :: r in roots && Reaches(s, r, g)
  }

  ghost predicate AllReached(s: Store, roots: set<nat>, members: set<nat>)
    requires BlocksSound(s)
  {
    forall g :: g in members ==> ReachedFrom(s, roots, g)
  }

  lemma AllReachedMore(s: Store, roots: set<nat>, before: set<nat>, members: set<nat>, r: nat)
    requires BlocksSound(s) && AllReached(s, roots, before)
    requires forall g :: g in members ==> g in before || Reaches(s, r, g)
    ensures AllReached(s, roots + {r}, members)
  {
    forall g | g in members ensures ReachedFrom(s, roots + {r}, g) {
      if g in before { assert ReachedFrom(s, roots, g); }
    }
  }

  /** A set that is closed, holds the roots, and holds only what a root reaches, is
      exactly what the roots reach. */
  lemma ClosureIsReachable(s: Store, members: set<nat>, roots: set<nat>)
    requires BlocksSound(s) && Closed(s, {}, members) && roots <= members && AllReached(s, roots, members)
    ensures forall g :: g in members <==> ReachedFrom(s, roots, g)
  {
    forall g | ReachedFrom(s, roots, g) ensures g in members {
      var r :| r in roots && Reaches(s, r, g);
      var p :| IsPath(s, p) && p[0] == r && p[|p| - 1] == g;
      ClosedHoldsReachable(s, members, p);
    }
  }

  /** `f` imports `g`, publicly or not. */
  ghost predicate ImportsFile(s: Store, f: nat, g: nat) {
    IsFile(s, f) && Some(g) in s.allocations[f].dependencies
  }

  /** There is no import cycle of two files or more: along any chain of imports that
      comes back to its first file, all files are that file. */
  lemma {:induction false} NoImportCycle(s: Store, p: seq<nat>)
    requires BlocksSound(s) && p != [] && p[0] == p[|p| - 1]
    requires forall i :: 0 <= i < |p| - 1 ==> ImportsFile(s, p[i], p[i + 1])
    ensures forall i :: 0 <= i < |p| ==> p[i] == p[0]
  {
    forall i | 0 <= i < |p| ensures p[i] == p[0] {
      ImportsDescend(s, p, 0, i);
      ImportsDescend(s, p, i, |p| - 1);
    }
  }

  lemma {:induction false} ImportsDescend(s: Store, p: seq<nat>, i: nat, j: nat)
    requires BlocksSound(s) && i <= j < |p|
    requires forall k :: 0 <= k < |p| - 1 ==> ImportsFile(s, p[k], p[k + 1])
    ensures p[j] <= p[i]
    decreases j - i
  {
    if i < j {
      assert ImportsFile(s, p[i], p[i + 1]);
      ImportsDescend(s, p, i + 1, j);
    }
  }

  function Below(n: nat): (r: set<nat>)
    ensures forall f :: f in r <==> 0 <= f < n
  {
    if n == 0 then {} else Below(n - 1) + {n - 1}
  }

  /** The files a depth-first walk has still to visit. */
  function Unvisited(s: Store, visited: set<nat>): set<nat> {
    Below(|s.allocations|) - visited
  }

  lemma UnvisitedLess(s: Store, visited: set<nat>, f: nat)
    requires f < |s.allocations| && f !in visited
    ensures |Unvisited(s, visited + {f})| < |Unvisited(s, visited)|
  {
    assert Unvisited(s, visited + {f}) == Unvisited(s, visited) - {f};
  }

  lemma UnvisitedShrinks(s: Store, visited: set<nat>, more: set<nat>)
    requires visited <= more
    ensures |Unvisited(s, more)| <= |Unvisited(s, visited)|
  {
    var a, b := Unvisited(s, more), Unvisited(s, visited);
    assert b == a + (b - a);
  }

  /** The files among the results of looking up imports. */
  function Files(deps: seq<Option<nat>>): set<nat> {
    set i | 0 <= i < |deps| && deps[i].Some? :: deps[i].value
  }

  lemma FilesNext(deps: seq<Option<nat>>, i: nat)
    requires i < |deps|
    ensures deps[i].Some? ==> Files(deps[..i + 1]) == Files(deps[..i]) + {deps[i].value}
    ensures deps[i].None? ==> Files(deps[..i + 1]) == Files(deps[..i])
  {
    var a, b := deps[..i], deps[..i + 1];
    forall f | f in Files(a) ensures f in Files(b) {
      var k :| 0 <= k < |a| && a[k].Some? && a[k].value == f;
      assert b[k] == a[k];
    }
    assert b[i] == deps[i];
  }

  /** The files that the imports of `f` reach through public imports. */
  ghost predicate VisibleFrom(s: Store, f: nat, members: set<nat>)
    requires BlocksSound(s) && IsFile(s, f)
  {
    forall g :: g in members <==> ReachedFrom(s, Files(s.allocations[f].dependencies), g)
  }

  /** More blocks after those of `s` do not change what a file of `s` sees. */
  lemma VisibleFromKept(s: Store, t: Store, f: nat, members: set<nat>)
    requires BlocksSound(s) && BlocksSound(t) && s.allocations <= t.allocations && IsFile(s, f)
    requires VisibleFrom(s, f, members)
    ensures VisibleFrom(t, f, members)
  {
    hide BlocksSound;
    var roots := Files(s.allocations[f].dependencies);
    forall g ensures ReachedFrom(t, roots, g) <==> ReachedFrom(s, roots, g) {
      if ReachedFrom(s, roots, g) {
        var r :| r in roots && Reaches(s, r, g);
        ReachesKept(s, t, r, g);
      }
      if ReachedFrom(t, roots, g) {
        var r :| r in roots && Reaches(t, r, g);
        RootIsFile(s, f, r);
        ReachesKept(s, t, r, g);
      }
    }
  }

  lemma RootIsFile(s: Store, f: nat, r: nat)
    requires BlocksSound(s) && IsFile(s, f) && r in Files(s.allocations[f].dependencies)
    ensures IsFile(s, r)
  {
  }

  lemma ReachesKept(s: Store, t: Store, r: nat, g: nat)
    requires BlocksSound(s) && BlocksSound(t) && s.allocations <= t.allocations
    ensures Reaches(s, r, g) ==> Reaches(t, r, g)
    ensures IsFile(s, r) && Reaches(t, r, g) ==> Reaches(s, r, g)
  {
    hide BlocksSound;
    if Reaches(s, r, g) {
      var p :| IsPath(s, p) && p[0] == r && p[|p| - 1] == g;
      forall i | 0 <= i < |p| - 1 ensures Edge(t, p[i], p[i + 1]) {
        assert Edge(s, p[i], p[i + 1]);
        EdgeKept(s, t, p[i], p[i + 1]);
      }
      assert IsPath(t, p);
    }
    if IsFile(s, r) && Reaches(t, r, g) {
      var p :| IsPath(t, p) && p[0] == r && p[|p| - 1] == g;
      PathKept(s, t, p);
    }
  }

  lemma EdgeKept(s: Store, t: Store, f: nat, g: nat)
    requires BlocksSound(s) && BlocksSound(t) && s.allocations <= t.allocations && IsFile(s, f)
    ensures Edge(s, f, g) <==> Edge(t, f, g)
    ensures Edge(s, f, g) ==> IsFile(s, g)
  {
    assert t.allocations[f] == s.allocations[f];
    if Edge(s, f, g) {
      var i :| 0 <= i < |s.allocations[f].publicDependencies| && PublicImport(s, f, i) == Some(g);
      assert PublicImport(t, f, i) == Some(g);
    }
    if Edge(t, f, g) {
      var i :| 0 <= i < |t.allocations[f].publicDependencies| && PublicImport(t, f, i) == Some(g);
      assert PublicImport(s, f, i) == Some(g);
    }
  }

  lemma {:induction false} PathKept(s: Store, t: Store, p: seq<nat>)
    requires BlocksSound(s) && BlocksSound(t) && s.allocations <= t.allocations
    requires IsPath(t, p) && IsFile(s, p[0])
    ensures IsPath(s, p)
    decreases |p|
  {
    hide BlocksSound;
    if |p| > 1 {
      assert Edge(t, p[0], p[1]);
      EdgeKept(s, t, p[0], p[1]);
      assert forall i :: 0 <= i < |p[1..]| ==> p[1..][i] == p[i + 1];
      PathKept(s, t, p[1..]);
      forall i | 0 <= i < |p| - 1 ensures Edge(s, p[i], p[i + 1]) {
        if i > 0 { assert Edge(s, p[1..][i - 1], p[1..][i]); }
      }
    }
  }

  lemma NothingReached(s: Store)
    requires BlocksSound(s)
    ensures Closed(s, {}, {}) && AllReached(s, {}, {})
  {
  }
}
