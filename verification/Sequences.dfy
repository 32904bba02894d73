/** Regrouping of concatenations, which the verifier does not do by itself. */
module Sequences {
  lemma Assoc<T>(a: seq<T>, b: seq<T>, c: seq<T>)
    ensures (a + b) + c == a + (b + c)
  {}

  /** Moving the first `k` elements of `c` to the end of `a` keeps `a + c`. */
  lemma Moved<T>(a: seq<T>, c: seq<T>, k: nat)
    requires k <= |c|
    ensures (a + c[..k]) + c[k..] == a + c
  {
    assert c[..k] + c[k..] == c;
    Assoc(a, c[..k], c[k..]);
  }

  /** Taking `k` elements off the front and then `n` more is taking them at once. */
  lemma TakenTwice<T>(s: seq<T>, k: nat, n: nat)
    requires k + n <= |s|
    ensures s[..k] + s[k..][..n] == s[..k + n] && s[k..][n..] == s[k + n..]
  {}

  lemma Between<T>(s: seq<T>, a: nat, b: nat, c: nat)
    requires a <= b <= c <= |s|
    ensures s[a..c] == s[a..b] + s[b..c]
    ensures c == |s| ==> s[a..] == s[a..b] + s[b..]
  {}
}
