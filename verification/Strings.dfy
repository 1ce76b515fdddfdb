/** Byte-string helpers shared by the other modules: prefixes, searching and trimming, as in Go's `strings`. */
module Strings {

  datatype Option<+T> = None | Some(value: T)

  predicate HasPrefix(s: string, p: string) {
    |p| <= |s| && s[..|p|] == p
  }

  /** Index of the first occurrence of `c`, or `|s|` when there is none. */
  function IndexOf(s: string, c: char): (i: nat)
    ensures i <= |s|
    ensures forall k :: 0 <= k < i ==> s[k] != c
    ensures i < |s| ==> s[i] == c
  {
    if s == [] || s[0] == c then 0 else 1 + IndexOf(s[1..], c)
  }

  /** Length of the longest leading run of characters in `cut`. */
  function Leading(s: string, cut: char -> bool): (n: nat)
    ensures n <= |s|
    ensures forall k :: 0 <= k < n ==> cut(s[k])
    ensures n < |s| ==> !cut(s[n])
  {
    if s == [] || !cut(s[0]) then 0 else 1 + Leading(s[1..], cut)
  }

  /** Length of what remains when the trailing run of characters in `cut` is dropped. */
  function KeepLength(s: string, cut: char -> bool): (n: nat)
    ensures n <= |s|
    ensures forall k :: n <= k < |s| ==> cut(s[k])
    ensures 0 < n ==> !cut(s[n - 1])
  {
    if s == [] || !cut(s[|s| - 1]) then |s| else KeepLength(s[..|s| - 1], cut)
  }

  function TrimLeft(s: string, cut: char -> bool): string {
    s[Leading(s, cut)..]
  }

  function TrimRight(s: string, cut: char -> bool): string {
    s[..KeepLength(s, cut)]
  }

  function Trim(s: string, cut: char -> bool): string {
    TrimRight(TrimLeft(s, cut), cut)
  }

  /** Trimming keeps exactly a middle part whose two ends are not in `cut`. */
  lemma TrimIs(s: string, cut: char -> bool, l: string, m: string, r: string)
    requires s == l + m + r
    requires forall c :: c in l || c in r ==> cut(c)
    requires m != [] && !cut(m[0]) && !cut(m[|m| - 1])
    ensures Trim(s, cut) == m
  {
    var n := Leading(s, cut);
    assert forall k :: 0 <= k < |l| ==> s[k] == l[k] && l[k] in l;
    assert s[|l|] == m[0];
    var t := s[n..];
    assert t == m + r;
    assert forall k :: |m| <= k < |t| ==> t[k] == r[k - |m|] && r[k - |m|] in r;
    assert t[|m| - 1] == m[|m| - 1];
  }

  predicate EndsInSlash(s: string) {
    s != "" && s[|s| - 1] == '/'
  }

  lemma Assoc(a: string, b: string, c: string)
    ensures a + b + c == a + (b + c)
  {
  }
}
