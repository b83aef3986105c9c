/** The tenancy key and the partition prefix built from it. */
module Namespaces {
  import opened Common

  datatype Visibility = Private | Shared

  datatype Namespace = Namespace(org: string, workspace: string, user: string, session: string, visibility: Visibility)

  const FORBIDDEN: set<char> := {'/', ':', '|', '\\', ' ', '\t', '\n', '\0'}

  predicate LegalPart(s: string) { s != "" && forall i :: 0 <= i < |s| ==> s[i] !in FORBIDDEN }

  /** What the validators accept. */
  predicate Valid(ns: Namespace)
  {
    LegalPart(ns.org) && LegalPart(ns.workspace) && LegalPart(ns.user) && LegalPart(ns.session) &&
    (ns.visibility.Shared? ==> ns.user == "*")
  }

  function Join(parts: seq<string>): string
    requires parts != []
  {
    if |parts| == 1 then parts[0] else parts[0] + "/" + Join(parts[1..])
  }

  function VisibilityName(v: Visibility): string { if v.Shared? then "shared" else "private" }

  function Segments(ns: Namespace): seq<string>
  {
    var userSlot := if ns.visibility.Shared? then "*" else ns.user;
    ["mu", ns.org, ns.workspace, VisibilityName(ns.visibility), userSlot, ns.session]
  }

  function ToPrefix(ns: Namespace): string { Join(Segments(ns)) }

  predicate NoSlash(s: string) { forall i :: 0 <= i < |s| ==> s[i] != '/' }

  lemma SplitAtSlash(a: string, x: string, b: string, y: string)
    requires NoSlash(a) && NoSlash(b) && a + "/" + x == b + "/" + y
    ensures a == b && x == y
  {
    var s := a + "/" + x;
    assert s[|a|] == '/' && s[|b|] == '/';
    assert forall i :: 0 <= i < |a| ==> s[i] == a[i];
    assert forall i :: 0 <= i < |b| ==> s[i] == b[i];
    assert a == s[..|a|] && b == s[..|b|];
    assert x == s[|a| + 1..] && y == s[|b| + 1..];
  }

  /** Joining slash-free parts loses nothing. */
  lemma {:induction false} JoinInjective(ps: seq<string>, qs: seq<string>)
    requires ps != [] && |ps| == |qs| && Join(ps) == Join(qs)
    requires (forall i :: 0 <= i < |ps| ==> NoSlash(ps[i])) && (forall i :: 0 <= i < |qs| ==> NoSlash(qs[i]))
    ensures ps == qs
  {
    if |ps| > 1 {
      SplitAtSlash(ps[0], Join(ps[1..]), qs[0], Join(qs[1..]));
      JoinInjective(ps[1..], qs[1..]);
      assert ps == [ps[0]] + ps[1..] && qs == [qs[0]] + qs[1..];
    }
  }

  lemma LegalHasNoSlash(s: string)
    requires LegalPart(s)
    ensures NoSlash(s)
  {
    forall i | 0 <= i < |s|
      ensures s[i] != '/'
    {
      assert s[i] !in FORBIDDEN;
    }
  }

  /** Two namespaces the validators accept share a prefix only if they are the same namespace. */
  lemma PrefixInjective(a: Namespace, b: Namespace)
    requires Valid(a) && Valid(b) && ToPrefix(a) == ToPrefix(b)
    ensures a == b
  {
    var ps, qs := Segments(a), Segments(b);
    LegalHasNoSlash(a.org);
    LegalHasNoSlash(a.workspace);
    LegalHasNoSlash(a.user);
    LegalHasNoSlash(a.session);
    LegalHasNoSlash(b.org);
    LegalHasNoSlash(b.workspace);
    LegalHasNoSlash(b.user);
    LegalHasNoSlash(b.session);
    JoinInjective(ps, qs);
    assert a.org == ps[1] && b.org == qs[1] && a.workspace == ps[2] && b.workspace == qs[2];
    assert ps[3] == qs[3] && ps[4] == qs[4] && a.session == ps[5] && b.session == qs[5];
    assert |"private"| != |"shared"|;
  }
}
