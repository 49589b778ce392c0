/** Small types and functions shared by the component models. */
module Wrappers {

  datatype Option<+T> = None | Some(value: T)

  /** A payload text: a missing key or an empty value counts as absent. */
  type Text = Option<string>

  predicate Present(t: Text) {
    t.Some? && t.value != ""
  }

  /** The first value if it is present, else the second: `a or b`. */
  function Or(a: Text, b: Text): Text {
    if Present(a) then a else b
  }

  /** ASCII lower case. */
  function Lower(s: string): string {
    seq(|s|, i requires 0 <= i < |s| => if 'A' <= s[i] <= 'Z' then s[i] - 'A' + 'a' else s[i])
  }

  /** Two letters, or the upper and the lower case of one. */
  ghost predicate SameLetter(a: char, b: char) {
    || a == b
    || ('A' <= a <= 'Z' && b as int == a as int + 32)
    || ('A' <= b <= 'Z' && a as int == b as int + 32)
  }

  ghost predicate SameIgnoringCase(a: string, b: string) {
    |a| == |b| && forall i :: 0 <= i < |a| ==> SameLetter(a[i], b[i])
  }

  lemma {:induction false} LowerIgnoresCase(a: string, b: string)
    ensures Lower(a) == Lower(b) <==> SameIgnoringCase(a, b)
  {
    if Lower(a) == Lower(b) {
      assert |Lower(a)| == |a| && |Lower(b)| == |b|;
      forall i | 0 <= i < |a|
        ensures SameLetter(a[i], b[i])
      {
        assert Lower(a)[i] == Lower(b)[i];
      }
    }
  }

  ghost predicate IsLowerCase(s: string) {
    forall i :: 0 <= i < |s| ==> !('A' <= s[i] <= 'Z')
  }

  /** Comparing a lower-cased text with a lower-case one ignores case. */
  lemma {:induction false} LowerIs(a: string, b: string)
    requires IsLowerCase(b)
    ensures Lower(a) == b <==> SameIgnoringCase(a, b)
  {
    assert Lower(b) == b;
    LowerIgnoresCase(a, b);
  }

  /** Position of the first element that satisfies p, or |s|. */
  function FirstWhere<T>(s: seq<T>, p: T -> bool): (k: nat)
    ensures k <= |s|
    ensures k < |s| ==> p(s[k])
    ensures forall j :: 0 <= j < k ==> !p(s[j])
  {
    if s == [] || p(s[0]) then 0 else 1 + FirstWhere(s[1..], p)
  }

  lemma {:induction false} SubsetSize<T>(a: set<T>, b: set<T>)
    requires a <= b
    ensures |a| <= |b|
    ensures |a| == |b| ==> a == b
  {
    assert b == a + (b - a);
  }

  lemma {:induction false} SomeElement<T>(s: set<T>) returns (x: T)
    requires s != {}
    ensures x in s
  {
    x :| x in s;
  }

  /** How a loop over a sequence moves through its prefixes. */
  lemma {:induction false} Prefixes<T>(s: seq<T>, n: nat)
    requires n <= |s|
    ensures n == 0 ==> s[..n] == []
    ensures n < |s| ==> s[..n + 1] == s[..n] + [s[n]]
    ensures n == |s| ==> s[..n] == s
  {
  }
}
