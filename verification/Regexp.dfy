/**
 * The anchored regular expressions that a route compiles to: literal text and capture groups, each
 * group a non-empty run of characters from one class. `Find` is Go's leftmost-first, greedy,
 * backtracking search restricted to that language.
 */
module Regexp {
  import opened Strings

  /** A bracketed character class such as `[0-9a-z]` or `[^/]`. */
  datatype CharClass = OneOf(chars: set<char>) | NoneOf(chars: set<char>) {
    predicate Has(c: char) {
      if OneOf? then c in chars else c !in chars
    }
  }

  datatype Item = Lit(text: string) | Group(cls: CharClass)

  /** `^items`, with a final `$` when `toEnd`. */
  datatype Regex = Regex(items: seq<Item>, toEnd: bool)

  const NotSlash: CharClass := NoneOf({'/'})

  predicate AllIn(cls: CharClass, s: string) {
    forall k :: 0 <= k < |s| ==> cls.Has(s[k])
  }

  /** A run of a class: only its characters, or none of those it excludes. */
  lemma ClassExact(chars: set<char>, s: string)
    ensures AllIn(OneOf(chars), s) <==> forall c :: c in s ==> c in chars
    ensures AllIn(NoneOf(chars), s) <==> forall c :: c in s ==> c !in chars
  {
  }

  /** Length of the longest run of class characters at the start of `s`. */
  function Run(cls: CharClass, s: string): (n: nat)
    ensures n <= |s|
    ensures forall k :: 0 <= k < n ==> cls.Has(s[k])
    ensures n < |s| ==> !cls.Has(s[n])
  {
    if s == [] || !cls.Has(s[0]) then 0 else 1 + Run(cls, s[1..])
  }

  /**
   * The captures of the match at the start of `s`, or None. A group first takes its longest run and
   * gives characters back one at a time, down to one; `toEnd` is the final `$`.
   */
  function Find(items: seq<Item>, s: string, toEnd: bool): Option<seq<string>>
    decreases |items|, 0
  {
    if items == [] then
      if toEnd && s != [] then None else Some([])
    else match items[0]
      case Lit(t) => if HasPrefix(s, t) then Find(items[1..], s[|t|..], toEnd) else None
      case Group(cls) => Retreat(items[1..], s, Run(cls, s), toEnd)
  }

  /** Tries the group lengths `k`, `k - 1`, ..., 1 in front of `rest`. */
  function Retreat(rest: seq<Item>, s: string, k: nat, toEnd: bool): Option<seq<string>>
    requires k <= |s|
    decreases |rest|, k + 1
  {
    if k == 0 then None
    else match Find(rest, s[k..], toEnd)
      case Some(vs) => Some([s[..k]] + vs)
      case None => Retreat(rest, s, k - 1, toEnd)
  }

  function Groups(items: seq<Item>): nat {
    if items == [] then 0 else Groups(items[1..]) + if items[0].Group? then 1 else 0
  }

  /** One non-empty value of the right class for every group. */
  predicate Fits(items: seq<Item>, vs: seq<string>) {
    if items == [] then vs == []
    else match items[0]
      case Lit(_) => Fits(items[1..], vs)
      case Group(cls) => vs != [] && vs[0] != [] && AllIn(cls, vs[0]) && Fits(items[1..], vs[1..])
  }

  /** The pattern with its groups replaced by values. */
  function Substitute(items: seq<Item>, vs: seq<string>): string
    requires Fits(items, vs)
  {
    if items == [] then []
    else match items[0]
      case Lit(t) => t + Substitute(items[1..], vs)
      case Group(_) => vs[0] + Substitute(items[1..], vs[1..])
  }

  /** `vs` decomposes `s`: substituting gives all of `s`, or a prefix of it when not `toEnd`. */
  predicate Decomposes(items: seq<Item>, vs: seq<string>, s: string, toEnd: bool) {
    Fits(items, vs) && HasPrefix(s, Substitute(items, vs)) && (toEnd ==> s == Substitute(items, vs))
  }

  /** `vs` is no shorter than `ws` at the first position where they differ. */
  predicate AtLeastAsGreedy(vs: seq<string>, ws: seq<string>) {
    |vs| == |ws| &&
    (vs == [] || |vs[0]| > |ws[0]| || (vs[0] == ws[0] && AtLeastAsGreedy(vs[1..], ws[1..])))
  }

  lemma {:induction false} FitsCount(items: seq<Item>, vs: seq<string>)
    requires Fits(items, vs)
    ensures |vs| == Groups(items)
  {
    if items != [] {
      FitsCount(items[1..], if items[0].Group? then vs[1..] else vs);
    }
  }

  lemma SameCount(items: seq<Item>, vs: seq<string>, ws: seq<string>, s: string, toEnd: bool)
    requires Decomposes(items, vs, s, toEnd) && Decomposes(items, ws, s, toEnd)
    ensures |vs| == |ws|
  {
    FitsCount(items, vs);
    FitsCount(items, ws);
  }

  /** How a decomposition starts: either peels the literal or chooses a length for the group. */
  lemma DecomposesStep(items: seq<Item>, vs: seq<string>, s: string, toEnd: bool)
    requires items != []
    ensures items[0].Lit? ==>
      (Decomposes(items, vs, s, toEnd) <==>
        HasPrefix(s, items[0].text) && Decomposes(items[1..], vs, s[|items[0].text|..], toEnd))
    ensures items[0].Group? ==>
      (Decomposes(items, vs, s, toEnd) <==>
        vs != [] && 0 < |vs[0]| <= Run(items[0].cls, s) && vs[0] == s[..|vs[0]|] &&
        Decomposes(items[1..], vs[1..], s[|vs[0]|..], toEnd))
  {
    if items[0].Lit? {
      if Fits(items[1..], vs) {
        PrefixOfConcat(s, items[0].text, Substitute(items[1..], vs));
      }
    } else if vs != [] && Fits(items[1..], vs[1..]) {
      PrefixOfConcat(s, vs[0], Substitute(items[1..], vs[1..]));
      assert HasPrefix(s, vs[0]) ==> forall k :: 0 <= k < |vs[0]| ==> s[k] == vs[0][k];
    }
  }

  lemma PrefixOfConcat(s: string, a: string, b: string)
    ensures HasPrefix(s, a + b) <==> HasPrefix(s, a) && HasPrefix(s[|a|..], b)
    ensures s == a + b <==> HasPrefix(s, a) && s[|a|..] == b
  {
    if HasPrefix(s, a + b) {
      assert s[..|a|] == (a + b)[..|a|] == a;
      assert s[|a|..][..|b|] == (a + b)[|a|..] == b;
    }
    if HasPrefix(s, a) && HasPrefix(s[|a|..], b) {
      assert s[..|a| + |b|] == s[..|a|] + s[|a|..][..|b|];
    }
    if HasPrefix(s, a) {
      assert s == s[..|a|] + s[|a|..];
    }
  }

  /**
   * Soundness, completeness and greediness of the search: it fails exactly when no decomposition
   * exists, and otherwise returns the lexicographically longest one.
   */
  lemma {:induction false} FindCorrect(items: seq<Item>, s: string, toEnd: bool)
    ensures var r := Find(items, s, toEnd);
      && (r.Some? ==> Decomposes(items, r.value, s, toEnd))
      && forall ws :: Decomposes(items, ws, s, toEnd) ==> r.Some? && AtLeastAsGreedy(r.value, ws)
    decreases |items|, 0
  {
    if items == [] {
    } else if items[0].Lit? {
      var t := items[0].text;
      forall ws ensures Decomposes(items, ws, s, toEnd) <==>
          HasPrefix(s, t) && Decomposes(items[1..], ws, s[|t|..], toEnd)
      {
        DecomposesStep(items, ws, s, toEnd);
      }
      if HasPrefix(s, t) { FindCorrect(items[1..], s[|t|..], toEnd); }
    } else {
      RetreatCorrect(items, s, Run(items[0].cls, s), toEnd);
    }
  }

  lemma {:induction false} RetreatCorrect(items: seq<Item>, s: string, k: nat, toEnd: bool)
    requires items != [] && items[0].Group? && k <= Run(items[0].cls, s)
    ensures var r := Retreat(items[1..], s, k, toEnd);
      && (r.Some? ==> Decomposes(items, r.value, s, toEnd))
      && forall ws :: Decomposes(items, ws, s, toEnd) && ws != [] && |ws[0]| <= k ==> r.Some? && AtLeastAsGreedy(r.value, ws)
    decreases |items| - 1, k + 1
  {
    hide Decomposes, Fits, Substitute, Run;
    var r := Retreat(items[1..], s, k, toEnd);
    if k > 0 {
      FindCorrect(items[1..], s[k..], toEnd);
      RetreatCorrect(items, s, k - 1, toEnd);
      if r.Some? { DecomposesStep(items, r.value, s, toEnd); }
    }
    forall ws | Decomposes(items, ws, s, toEnd) && ws != [] && |ws[0]| <= k
      ensures r.Some? && AtLeastAsGreedy(r.value, ws)
    {
      DecomposesStep(items, ws, s, toEnd);
      if k > 0 && |ws[0]| < k && Find(items[1..], s[k..], toEnd).Some? {
        SameCount(items, r.value, ws, s, toEnd);
      }
    }
  }

  /** Two decompositions that are both the greediest are the same. */
  lemma {:induction false} GreediestUnique(vs: seq<string>, ws: seq<string>)
    requires AtLeastAsGreedy(vs, ws) && AtLeastAsGreedy(ws, vs)
    ensures vs == ws
  {
    if vs != [] {
      GreediestUnique(vs[1..], ws[1..]);
      assert vs == [vs[0]] + vs[1..] && ws == [ws[0]] + ws[1..];
    }
  }

  /** Every group is followed by a literal whose first character is not in its class, or ends the pattern. */
  predicate Delimited(items: seq<Item>) {
    items == [] || (
      && Delimited(items[1..])
      && (items[0].Group? && 1 < |items| ==>
            items[1].Lit? && items[1].text != "" && !items[0].cls.Has(items[1].text[0])))
  }

  /** A delimited group cannot take more than its value. */
  lemma AfterGroup(items: seq<Item>, vs: seq<string>, tail: string)
    requires Delimited(items) && Fits(items, vs) && items != [] && items[0].Group?
    requires tail != "" ==> items[|items| - 1].Lit?
    ensures Run(items[0].cls, vs[0] + (Substitute(items[1..], vs[1..]) + tail)) == |vs[0]|
  {
    var u := Substitute(items[1..], vs[1..]) + tail;
    assert u == [] || !items[0].cls.Has(u[0]);
    RunStopsAt(items[0].cls, vs[0], u);
  }

  lemma RunStopsAt(cls: CharClass, v: string, u: string)
    requires AllIn(cls, v) && (u == [] || !cls.Has(u[0]))
    ensures Run(cls, v + u) == |v|
  {
    var s := v + u;
    assert forall k :: 0 <= k < |v| ==> s[k] == v[k];
    assert u != [] ==> s[|v|] == u[0];
  }

  /** One step of a search that never has to give characters back. */
  lemma FindStep(items: seq<Item>, v: string, u: string, vs: seq<string>, toEnd: bool)
    requires items != [] && Find(items[1..], u, toEnd) == Some(vs)
    ensures items[0] == Lit(v) ==> Find(items, v + u, toEnd) == Some(vs)
    ensures items[0].Group? && v != [] && Run(items[0].cls, v + u) == |v| ==> Find(items, v + u, toEnd) == Some([v] + vs)
  {
    assert (v + u)[..|v|] == v && (v + u)[|v|..] == u;
  }

  /** Splits a substituted pattern into what its first item contributes and the rest. */
  lemma SubstituteStep(items: seq<Item>, vs: seq<string>, tail: string) returns (v: string, ws: seq<string>)
    requires Fits(items, vs) && items != []
    ensures Fits(items[1..], ws)
    ensures (items[0] == Lit(v) && ws == vs) || (items[0].Group? && v != [] && [v] + ws == vs && v == vs[0] && ws == vs[1..])
    ensures Substitute(items, vs) + tail == v + (Substitute(items[1..], ws) + tail)
  {
    if items[0].Lit? {
      v, ws := items[0].text, vs;
    } else {
      v, ws := vs[0], vs[1..];
    }
  }

  /**
   * With delimited groups, substituting values and matching gives the values back; when the
   * pattern is a prefix pattern that ends in a literal, so does any continuation of the path.
   */
  lemma {:induction false} FindSubstituted(items: seq<Item>, vs: seq<string>, tail: string, toEnd: bool)
    requires Delimited(items) && Fits(items, vs)
    requires tail != "" ==> !toEnd && (items != [] ==> items[|items| - 1].Lit?)
    ensures Find(items, Substitute(items, vs) + tail, toEnd) == Some(vs)
  {
    if items != [] {
      assert items[1..] != [] ==> items[1..][|items| - 2] == items[|items| - 1];
      var v, ws := SubstituteStep(items, vs, tail);
      FindSubstituted(items[1..], ws, tail, toEnd);
      if items[0].Group? { AfterGroup(items, vs, tail); }
      FindStep(items, v, Substitute(items[1..], ws) + tail, ws, toEnd);
    }
  }

  /** So the decomposition is unique, also of a path that goes on behind a pattern ending in a literal. */
  lemma DecompositionUnique(items: seq<Item>, vs: seq<string>, ws: seq<string>, s: string, toEnd: bool)
    requires Delimited(items) && (toEnd || (items != [] ==> items[|items| - 1].Lit?))
    requires Decomposes(items, vs, s, toEnd) && Decomposes(items, ws, s, toEnd)
    ensures vs == ws
  {
    var v, w := Substitute(items, vs), Substitute(items, ws);
    assert s == v + s[|v|..] && s == w + s[|w|..];
    FindSubstituted(items, vs, s[|v|..], toEnd);
    FindSubstituted(items, ws, s[|w|..], toEnd);
  }
}
