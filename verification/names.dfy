/** Dotted names: identifiers, scopes and the last and first dot of a name. */
module DottedNames {

  predicate IsIdentifierChar(c: char) {
    'a' <= c <= 'z' || 'A' <= c <= 'Z' || '0' <= c <= '9' || c == '_'
  }

  predicate IsIdentifier(name: string) {
    name != "" && forall i :: 0 <= i < |name| ==> IsIdentifierChar(name[i])
  }

  /** The position of the last dot, or -1. */
  function LastDot(s: string): (d: int)
    ensures -1 <= d < |s|
    ensures d >= 0 ==> s[d] == '.'
    ensures forall i :: d < i < |s| ==> s[i] != '.'
  {
    if s == "" then -1
    else if s[|s| - 1] == '.' then |s| - 1
    else LastDot(s[..|s| - 1])
  }

  /** The position of the first dot, or the length of the name. */
  function FirstDot(s: string): (d: nat)
    ensures d <= |s|
    ensures d < |s| ==> s[d] == '.'
    ensures forall i :: 0 <= i < d ==> s[i] != '.'
  {
    if s == "" || s[0] == '.' then 0 else 1 + FirstDot(s[1..])
  }

  /** A name inside a scope; the empty scope adds no dot. */
  function Qualify(scope: string, name: string): string {
    if scope == "" then name else scope + "." + name
  }

  /** A qualified identifier determines its scope and its last component. */
  lemma QualifyInjective(scope: string, name: string, scope': string, name': string)
    requires IsIdentifier(name) && IsIdentifier(name')
    requires Qualify(scope, name) == Qualify(scope', name')
    ensures scope == scope' && name == name'
  {
    QualifyLastDot(scope, name);
    QualifyLastDot(scope', name');
  }

  lemma QualifyLastDot(scope: string, name: string)
    requires IsIdentifier(name)
    ensures var q := Qualify(scope, name);
      if scope == "" then LastDot(q) == -1 && name == q
      else LastDot(q) == |scope| && scope == q[..|scope|] && name == q[|scope| + 1..]
  {
    var q := Qualify(scope, name);
    if scope == "" {
      assert LastDot(q) >= 0 ==> !IsIdentifierChar(q[LastDot(q)]);
    } else {
      assert q[|scope|] == '.';
      assert forall i :: |scope| < i < |q| ==> q[i] == name[i - |scope| - 1];
    }
  }
}
