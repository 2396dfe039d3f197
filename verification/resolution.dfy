/** The rule by which a name is looked up from inside a scope. */
module NameResolution {
  import opened Options
  import opened SymbolStore
  import opened DottedNames
  import opened PoolInvariant

  datatype ResolveMode = LookupAll | LookupTypes

  function FirstPart(name: string): string {
    name[..FirstDot(name)]
  }

  /** Whether what was found for the first part of a name settles the lookup: it must
      have members if more parts follow, and be a type if types are asked for. */
  predicate Settles(found: Kind, compound: bool, mode: ResolveMode) {
    if compound then found.IsAggregate() else mode.LookupTypes? ==> found.IsType()
  }

  predicate Commits(find: string -> Option<Declaration>, scope: string, name: string, mode: ResolveMode) {
    var first := FirstPart(name);
    var found := find(scope + "." + first);
    found.Some? && Settles(found.value.kind, |first| < |name|, mode)
  }

  /** The enclosing scopes of `relativeTo` end where it has a dot. */
  predicate IsScopeEnd(relativeTo: string, d: nat) {
    d < |relativeTo| && relativeTo[d] == '.'
  }

  predicate CommitsAt(find: string -> Option<Declaration>, name: string, relativeTo: string, mode: ResolveMode,
                      d: nat) {
    IsScopeEnd(relativeTo, d) && Commits(find, relativeTo[..d], name, mode)
  }

  /** `r` is what `name` means inside `relativeTo`: a name with a leading dot is fully
      qualified; otherwise the innermost scope that commits is where the whole name
      is looked up, with no falling through to outer scopes; and if no scope
      commits, the bare name is looked up. */
  ghost predicate Resolves(find: string -> Option<Declaration>, name: string, relativeTo: string, mode: ResolveMode,
                           r: Option<Declaration>) {
    if name != "" && name[0] == '.' then r == find(name[1..]) else
    && (forall d: nat :: Innermost(find, name, relativeTo, mode, d) ==> r == find(relativeTo[..d] + "." + name))
    && (NoneCommits(find, name, relativeTo, mode) ==> r == find(name))
  }

  ghost predicate Innermost(find: string -> Option<Declaration>, name: string, relativeTo: string, mode: ResolveMode,
                            d: nat) {
    && CommitsAt(find, name, relativeTo, mode, d)
    && NoneBeyond(find, name, relativeTo, mode, d + 1)
  }

  ghost predicate NoneBeyond(find: string -> Option<Declaration>, name: string, relativeTo: string, mode: ResolveMode,
                             n: nat) {
    forall e: nat :: n <= e < |relativeTo| ==> !CommitsAt(find, name, relativeTo, mode, e)
  }

  ghost predicate NoneCommits(find: string -> Option<Declaration>, name: string, relativeTo: string,
                              mode: ResolveMode) {
    NoneBeyond(find, name, relativeTo, mode, 0)
  }

  /** The rule always has a result. */
  lemma SomethingResolves(find: string -> Option<Declaration>, name: string, relativeTo: string, mode: ResolveMode)
    ensures exists r :: Resolves(find, name, relativeTo, mode, r)
  {
    if name != "" && name[0] == '.' {
      assert Resolves(find, name, relativeTo, mode, find(name[1..]));
    } else if NoneCommits(find, name, relativeTo, mode) {
      NoScopeResolves(find, name, relativeTo, mode, find(name));
    } else {
      var d := LastCommit(find, name, relativeTo, mode, |relativeTo|);
      InnermostResolves(find, name, relativeTo, mode, d, find(relativeTo[..d] + "." + name));
    }
  }

  /** What the name means by the rule. */
  ghost function Resolved(find: string -> Option<Declaration>, name: string, relativeTo: string, mode: ResolveMode)
    : (r: Option<Declaration>)
    ensures Resolves(find, name, relativeTo, mode, r)
  {
    SomethingResolves(find, name, relativeTo, mode);
    var r :| Resolves(find, name, relativeTo, mode, r);
    r
  }

  /** The rule leaves no choice. */
  lemma ResolvesUniquely(find: string -> Option<Declaration>, name: string, relativeTo: string, mode: ResolveMode,
                         r: Option<Declaration>, r': Option<Declaration>)
    requires Resolves(find, name, relativeTo, mode, r) && Resolves(find, name, relativeTo, mode, r')
    ensures r == r'
  {
    if (name == "" || name[0] != '.') && !NoneCommits(find, name, relativeTo, mode) {
      var d := LastCommit(find, name, relativeTo, mode, |relativeTo|);
      assert Innermost(find, name, relativeTo, mode, d);
    }
  }

  lemma LastCommit(find: string -> Option<Declaration>, name: string, relativeTo: string, mode: ResolveMode, n: nat)
    returns (d: nat)
    requires n <= |relativeTo| && NoneBeyond(find, name, relativeTo, mode, n)
    requires !NoneCommits(find, name, relativeTo, mode)
    ensures Innermost(find, name, relativeTo, mode, d)
  {
    if n > 0 && CommitsAt(find, name, relativeTo, mode, n - 1) {
      d := n - 1;
    } else {
      d := LastCommit(find, name, relativeTo, mode, n - 1);
    }
  }

  /** No scope beyond the last dot of a prefix commits if none beyond the prefix does. */
  lemma BeyondLastDot(find: string -> Option<Declaration>, name: string, relativeTo: string, mode: ResolveMode, n: nat)
    requires n <= |relativeTo| && NoneBeyond(find, name, relativeTo, mode, n)
    ensures NoneBeyond(find, name, relativeTo, mode, (LastDot(relativeTo[..n]) + 1) as nat)
  {
    assert forall e :: LastDot(relativeTo[..n]) < e < n ==> relativeTo[..n][e] == relativeTo[e];
  }

  lemma InnermostResolves(find: string -> Option<Declaration>, name: string, relativeTo: string, mode: ResolveMode,
                          d: nat, r: Option<Declaration>)
    requires name == "" || name[0] != '.'
    requires CommitsAt(find, name, relativeTo, mode, d) && NoneBeyond(find, name, relativeTo, mode, d + 1)
    requires r == find(relativeTo[..d] + "." + name)
    ensures Resolves(find, name, relativeTo, mode, r)
  {
    forall e: nat | Innermost(find, name, relativeTo, mode, e) ensures e == d {
      assert e < |relativeTo| && CommitsAt(find, name, relativeTo, mode, e);
      assert d < |relativeTo| && CommitsAt(find, name, relativeTo, mode, d);
    }
  }

  lemma NoScopeResolves(find: string -> Option<Declaration>, name: string, relativeTo: string, mode: ResolveMode,
                        r: Option<Declaration>)
    requires name == "" || name[0] != '.'
    requires NoneBeyond(find, name, relativeTo, mode, 0) && r == find(name)
    ensures Resolves(find, name, relativeTo, mode, r)
  {
    assert forall e: nat :: e < |relativeTo| ==> !CommitsAt(find, name, relativeTo, mode, e);
  }

  lemma BeyondOneMore(find: string -> Option<Declaration>, name: string, relativeTo: string, mode: ResolveMode, d: nat)
    requires NoneBeyond(find, name, relativeTo, mode, d + 1) && !CommitsAt(find, name, relativeTo, mode, d)
    ensures NoneBeyond(find, name, relativeTo, mode, d)
  {
  }

  lemma NothingBeyond(find: string -> Option<Declaration>, name: string, relativeTo: string, mode: ResolveMode)
    ensures NoneBeyond(find, name, relativeTo, mode, |relativeTo|)
  {
  }
}
