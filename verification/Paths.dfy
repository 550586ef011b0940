/** Slash-separated paths. */
module Paths {

  predicate HasNoSlash(s: string) {
    forall c | c in s :: c != '/'
  }

  lemma SameTail(head: string, a: string, b: string)
    requires head + a == head + b
    ensures a == b
  {
    assert (head + a)[|head|..] == a && (head + b)[|head|..] == b;
  }

  predicate StartsWithSlash(s: string) {
    s != "" && s[0] == '/'
  }

  /** A slash-free part ends at the next slash. */
  lemma PartEndsAtTheSlash(a: string, b: string, restA: string, restB: string)
    requires HasNoSlash(a) && HasNoSlash(b) && StartsWithSlash(restA) && StartsWithSlash(restB)
    requires a + restA == b + restB
    ensures a == b && restA == restB
  {
    var s := a + restA;
    assert forall i | 0 <= i < |a| :: s[i] == a[i] && a[i] in a;
    assert forall i | 0 <= i < |b| :: s[i] == b[i] && b[i] in b;
    assert s[|a|] == '/' && s[|b|] == '/';
    assert |a| == |b|;
    assert s[..|a|] == a && s[|a|..] == restA && s[..|b|] == b && s[|b|..] == restB;
  }

  lemma NextPart(head: string, a: string, b: string, restA: string, restB: string)
    requires HasNoSlash(a) && HasNoSlash(b) && StartsWithSlash(restA) && StartsWithSlash(restB)
    requires head + (a + restA) == head + (b + restB)
    ensures a == b && restA == restB
  {
    SameTail(head, a + restA, b + restB);
    PartEndsAtTheSlash(a, b, restA, restB);
  }
}
