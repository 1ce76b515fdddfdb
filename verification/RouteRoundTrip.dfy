/** Textual round trips: conditions written in front of a path, and values substituted into a pattern. */
module RouteRoundTrip {
  import opened Strings
  import opened Cond
  import opened Regexp
  import opened Route
  import opened RoutePatterns
  import opened Router

  // ----- conditions -----

  /** Text without white space, bars and slashes. */
  predicate IsToken(t: string) {
    t != "" && forall c :: c in t ==> !IsSpace(c) && c != '|' && c != '/'
  }

  predicate AllTokens(ts: seq<string>) {
    forall k :: 0 <= k < |ts| ==> IsToken(ts[k])
  }

  predicate IsBlank(s: string) {
    forall c :: c in s ==> IsReSpace(c)
  }

  /** White space before and after a bar. */
  datatype Gap = Gap(before: string, after: string)

  predicate AllBlank(gaps: seq<Gap>) {
    forall k :: 0 <= k < |gaps| ==> IsBlank(gaps[k].before) && IsBlank(gaps[k].after)
  }

  /** Tokens with a bar between any two, and white space around the bars. */
  function Listed(ts: seq<string>, gaps: seq<Gap>): string
    requires ts != [] && |gaps| == |ts| - 1
  {
    if |ts| == 1 then ts[0] else ts[0] + (gaps[0].before + ("|" + (gaps[0].after + Listed(ts[1..], gaps[1..]))))
  }

  /** Starts and ends with a character of a token, and has no slash. */
  predicate CondShaped(j: string) {
    j != "" && IsToken([j[0]]) && IsToken([j[|j| - 1]]) && '/' !in j
  }

  lemma TokenShaped(t: string)
    requires IsToken(t)
    ensures CondShaped(t)
  {
    assert t[0] in t && t[|t| - 1] in t;
  }

  lemma ShapedCons(t: string, a: string, b: string, rest: string)
    requires IsToken(t) && IsBlank(a) && IsBlank(b) && CondShaped(rest)
    ensures CondShaped(t + (a + ("|" + (b + rest))))
  {
    var j := t + (a + ("|" + (b + rest)));
    assert j[0] == t[0] && t[0] in t;
    assert j[|j| - 1] == rest[|rest| - 1];
  }

  lemma {:induction false} ListedShaped(ts: seq<string>, gaps: seq<Gap>)
    requires ts != [] && |gaps| == |ts| - 1 && AllTokens(ts) && AllBlank(gaps)
    ensures CondShaped(Listed(ts, gaps))
  {
    hide CondShaped, IsToken, IsBlank;
    if |ts| == 1 {
      TokenShaped(ts[0]);
    } else {
      ListedShaped(ts[1..], gaps[1..]);
      ShapedCons(ts[0], gaps[0].before, gaps[0].after, Listed(ts[1..], gaps[1..]));
    }
  }

  lemma SplitToken(t: string)
    requires IsToken(t)
    ensures SplitOr(t) == [t]
  {
    assert '|' !in t;
    assert IndexOf(t, '|') == |t|;
  }

  lemma TrimBlankRight(t: string, a: string)
    requires IsToken(t) && IsBlank(a)
    ensures TrimRight(t + a, IsReSpace) == t
  {
    var s := t + a;
    var n := KeepLength(s, IsReSpace);
    assert s[|t| - 1] == t[|t| - 1] && t[|t| - 1] in t;
    assert forall k :: |t| <= k < |s| ==> s[k] in a;
    assert n == |t|;
  }

  lemma TrimBlankLeft(b: string, rest: string)
    requires IsBlank(b) && rest != "" && !IsReSpace(rest[0])
    ensures TrimLeft(b + rest, IsReSpace) == rest
  {
    var s := b + rest;
    assert forall k :: 0 <= k < |b| ==> s[k] in b;
    assert s[|b|] == rest[0];
    assert Leading(s, IsReSpace) == |b|;
  }

  lemma BarAt(t: string, a: string, rest: string)
    requires IsToken(t) && IsBlank(a)
    ensures var s := t + (a + ("|" + rest)); var i := IndexOf(s, '|');
      i < |s| && s[..i] == t + a && s[i + 1..] == rest
  {
    var s := t + (a + ("|" + rest));
    var i := |t| + |a|;
    assert forall k :: 0 <= k < |t| ==> s[k] == t[k] && t[k] in t;
    assert forall k :: |t| <= k < i ==> s[k] == a[k - |t|] && a[k - |t|] in a;
    assert s[i] == '|';
    assert IndexOf(s, '|') == i;
  }

  /** Splitting a list of tokens gives the tokens back, whatever white space is around the bars. */
  lemma {:induction false} SplitListed(ts: seq<string>, gaps: seq<Gap>)
    requires ts != [] && |gaps| == |ts| - 1 && AllTokens(ts) && AllBlank(gaps)
    ensures SplitOr(Listed(ts, gaps)) == ts
  {
    hide IsToken, IsBlank, TrimLeft, TrimRight, CondShaped, IndexOf;
    if |ts| == 1 {
      SplitToken(ts[0]);
    } else {
      var a, b, rest := gaps[0].before, gaps[0].after, Listed(ts[1..], gaps[1..]);
      SplitListed(ts[1..], gaps[1..]);
      ListedShaped(ts[1..], gaps[1..]);
      BarAt(ts[0], a, b + rest);
      TrimBlankRight(ts[0], a);
      ShapedStart(rest);
      TrimBlankLeft(b, rest);
      assert ts == [ts[0]] + ts[1..];
    }
  }

  lemma ShapedStart(j: string)
    requires CondShaped(j)
    ensures j != "" && !IsSpace(j[0]) && !IsReSpace(j[0]) && !IsCondTrim(j[0]) && !IsCondTrim(j[|j| - 1]) && '/' !in j
  {
    assert j[0] in [j[0]] && j[|j| - 1] in [j[|j| - 1]];
  }

  // ----- the text that a flag word is written as -----

  predicate IsUpper(t: string) {
    t != "" && forall k :: 0 <= k < |t| ==> 'A' <= t[k] <= 'Z'
  }

  lemma UpperIsToken(t: string)
    requires IsUpper(t)
    ensures IsToken(t)
  {
  }

  lemma NameIsUpper(m: Method)
    ensures IsUpper(Name(m))
  {
  }

  lemma NamesAreTokens(f: CondFlags, k: nat)
    requires k < |Names(f)|
    ensures IsToken(Names(f)[k])
  {
    hide IsToken, IsUpper;
    SelectAllowed(f, 9);
    var m := MethodOf(Names(f)[k]).value;
    assert Names(f)[k] == Name(m);
    NameIsUpper(m);
    UpperIsToken(Name(m));
  }

  function NoGaps(n: nat): seq<Gap> {
    seq(n, _ => Gap("", ""))
  }

  lemma {:induction false} BarredListed(ts: seq<string>)
    requires ts != []
    ensures Barred(ts) == "|" + Listed(ts, NoGaps(|ts| - 1))
  {
    if |ts| == 1 {
      assert Barred(ts[1..]) == "" && ts[0] + "" == ts[0];
    } else {
      BarredListed(ts[1..]);
      assert NoGaps(|ts| - 1)[1..] == NoGaps(|ts| - 2);
      var rest := Listed(ts[1..], NoGaps(|ts| - 2));
      assert "" + ("|" + ("" + rest)) == "|" + rest;
    }
  }

  /** The tokens behind the text of a flag word, listed without white space. */
  lemma CondTextListed(f: CondFlags) returns (ts: seq<string>)
    ensures ts != [] && AllTokens(ts) && CondText(f) == Listed(ts, NoGaps(|ts| - 1))
    ensures (ts == ["*"] || AllValid(ts)) && (if ts == ["*"] then {} else Bits(ts)) == f * NamedBits
  {
    hide Barred, IsToken, Bits, AllValid, Listed;
    NamesRoundTrip(f);
    ts := Names(f);
    if ts == [] {
      ts := ["*"];
      StarToken();
      NoBits();
    } else {
      forall k | 0 <= k < |ts| ensures IsToken(ts[k]) { NamesAreTokens(f, k); }
      BarredListed(ts);
      assert ("|" + Listed(ts, NoGaps(|ts| - 1)))[1..] == Listed(ts, NoGaps(|ts| - 1));
      StarNamesNothing(ts);
    }
  }

  lemma StarToken()
    ensures IsToken("*") && Listed(["*"], NoGaps(0)) == "*"
  {
  }

  lemma NoBits()
    ensures Bits([]) == {}
  {
  }

  lemma StarNamesNothing(ns: seq<string>)
    requires AllValid(ns)
    ensures ns != ["*"]
  {
    assert ns != [] ==> MethodOf(ns[0]).Some?;
  }

  lemma TrimTail(t: string, rest: string)
    requires t != "" && !IsSpace(t[0]) && !IsSpace(t[|t| - 1]) && forall x :: x in rest ==> IsSpace(x)
    ensures Trim(t + rest, IsSpace) == t
  {
    assert t + rest == "" + t + rest;
    TrimIs(t + rest, IsSpace, "", t, rest);
  }

  /** Trimming conditions in front of a rooted path trims the path and the white space before them. */
  lemma TrimBoth(lead: string, c: string, path: string) returns (q: string)
    requires path != "" && path[0] == '/' && c != "" && !IsSpace(c[0]) && forall x :: x in lead ==> IsSpace(x)
    ensures q != "" && q[0] == '/' && Trim(path, IsSpace) == q && Trim(lead + c + path, IsSpace) == c + q
  {
    q := path[..KeepLength(path, IsSpace)];
    var rest := path[|q|..];
    assert forall x :: x in rest ==> IsSpace(x);
    hide Trim;
    assert q + rest == path;
    TrimTail(q, rest);
    var t := c + q;
    assert lead + t + rest == lead + c + path;
    assert t[0] == c[0] && t[|t| - 1] == q[|q| - 1];
    TrimIs(lead + c + path, IsSpace, lead, t, rest);
  }

  lemma FirstSlash(c: string, q: string)
    requires q != "" && q[0] == '/' && '/' !in c
    ensures var t := c + q; var i := IndexOf(t, '/'); '/' in t && i == |c| && t[..i] == c && t[i..] == q
  {
    var t := c + q;
    assert forall k :: 0 <= k < |c| ==> t[k] == c[k] && c[k] in c;
    assert t[|c|] == '/';
  }

  /** Cutting the conditions off, with whatever bars and white space are around them. */
  lemma CutConditions(bars: string, j: string, after: string, q: string)
    requires q != "" && q[0] == '/' && CondShaped(j)
    requires forall x :: x in bars || x in after ==> IsCondTrim(x)
    ensures var t := bars + j + after + q;
      '/' in t && CondString(t) == j && CondTokens(t) == SplitOr(j) && PathPart(t) == q
  {
    ShapedStart(j);
    assert '/' !in bars + j + after;
    hide SplitOr, Trim, IndexOf, CondShaped;
    FirstSlash(bars + j + after, q);
    TrimIs(bars + j + after, IsCondTrim, bars, j, after);
  }

  lemma NoConditions(q: string)
    requires q != "" && q[0] == '/'
    ensures '/' in q && CondTokens(q) == [] && PathPart(q) == q && CondsOk([]) && CondsOf([]) == {}
  {
    assert IndexOf(q, '/') == 0 && q[..0] == "";
  }

  /** A pattern with conditions, as a human might write it. */
  function Conditioned(lead: string, bars: string, list: string, after: string, path: string): string {
    lead + (bars + list + after) + path
  }

  /**
   * Conditions in front of a rooted path, with white space anywhere and stray bars at both ends: parsing
   * gives the same route as the path alone with exactly the bits that the tokens name, none for a lone
   * `*`, and rejects the pattern exactly when it rejects the path or a token names no method.
   */
  lemma ConditionsParsed(
      lead: string, bars: string, ts: seq<string>, gaps: seq<Gap>, after: string, path: string, wasPrefix: bool, lib: Library)
    requires path != "" && path[0] == '/' && ts != [] && |gaps| == |ts| - 1 && AllTokens(ts) && AllBlank(gaps)
    requires (forall x :: x in lead ==> IsSpace(x)) && (bars != "" ==> bars[0] == '|')
    requires forall x :: x in bars || x in after ==> IsCondTrim(x)
    ensures var alone, both := Parsed(path, wasPrefix, lib), Parsed(Conditioned(lead, bars, Listed(ts, gaps), after, path), wasPrefix, lib);
      both ==
        if alone.None? || !(ts == ["*"] || AllValid(ts)) then None
        else Some(alone.value.(conditions := if ts == ["*"] then {} else Bits(ts)))
  {
    hide Parsed, Denoted, SplitOr, Listed, Trim, CondTokens, PathPart, CondString, AllTokens, AllBlank, Bits, AllValid, PatternPieces;
    var j := Listed(ts, gaps);
    ListedShaped(ts, gaps);
    ShapedStart(j);
    SplitListed(ts, gaps);
    var c := bars + j + after;
    assert c[0] == if bars == "" then j[0] else '|';
    var q := TrimBoth(lead, c, path);
    CutConditions(bars, j, after, q);
    NoConditions(q);
    ParsedIs(path, wasPrefix, lib);
    var pattern := Conditioned(lead, bars, j, after, path);
    assert Trim(pattern, IsSpace) == c + q;
    if CondsOk(ts) { ParsedIs(pattern, wasPrefix, lib); } else { ParsedNone(pattern, wasPrefix, lib); }
    DenotedConds({}, CondsOf(ts), Pieces(Unmarked(q)), wasPrefix || EndsInSlash(q), lib);
    SamePieces(c + q, q);
    SamePieces(q, q);
  }

  lemma SamePieces(t: string, q: string)
    requires PathPart(t) == q
    ensures PatternPieces(t) == Pieces(Unmarked(q))
  {
  }

  /**
   * Writing any 64-bit flag word in front of a rooted path and parsing it gives the same route as the
   * path alone, with exactly the word's nine method bits as its conditions.
   */
  lemma ConditionsRoundTrip(f: CondFlags, path: string, wasPrefix: bool, lib: Library)
    requires path != "" && path[0] == '/'
    ensures var alone, both := Parsed(path, wasPrefix, lib), Parsed(CondText(f) + " " + path, wasPrefix, lib);
      both == if alone.None? then None else Some(alone.value.(conditions := f * NamedBits))
  {
    hide Parsed, Listed, CondText, Bits, AllValid, AllTokens;
    var ts := CondTextListed(f);
    ConditionsParsed("", "", ts, NoGaps(|ts| - 1), " ", path, wasPrefix, lib);
    assert CondText(f) + " " + path == "" + ("" + CondText(f) + " ") + path;
  }

  lemma DenotedConds(c: CondFlags, d: CondFlags, ps: seq<Piece>, isPrefix: bool, lib: Library)
    ensures var a, b := Denoted(c, ps, isPrefix, lib), Denoted(d, ps, isPrefix, lib);
      b == if a.None? then None else Some(a.value.(conditions := d))
  {
  }

  // ----- substitution -----

  /** The path pattern with its variables replaced by values. */
  function Fill(ps: seq<Piece>, values: seq<string>): string
    requires |values| == |VarNames(ps)|
  {
    if ps == [] then ""
    else match ps[0]
      case Plain(t) => t + Fill(ps[1..], values)
      case VarPiece(_, _, _) => values[0] + Fill(ps[1..], values[1..])
  }

  lemma {:induction false} FillIsSubstitute(ps: seq<Piece>, lib: Library, values: seq<string>)
    requires Compile(SyntaxOf(ps), lib).Some? && Fits(Compile(SyntaxOf(ps), lib).value, values)
    ensures |values| == |VarNames(ps)| && Fill(ps, values) == Substitute(Compile(SyntaxOf(ps), lib).value, values)
  {
    if ps != [] {
      assert SyntaxOf(ps)[1..] == SyntaxOf(ps[1..]);
      FillIsSubstitute(ps[1..], lib, if ps[0].Plain? then values else values[1..]);
    }
  }

  lemma ScanEndsInBrace(s: string, i: nat)
    requires i < |s| && ScanVar(s, i).Some?
    ensures s[ScanVar(s, i).value.end - 1] == '}'
  {
  }

  /** A variable comes last only when the path pattern ends in its brace. */
  lemma {:induction false} LastPiece(s: string, locs: seq<Loc>, from: nat)
    requires Ordered(locs, from, s) && AllMatch(s, locs) && EndsInSlash(s)
    ensures var ps := PiecesFrom(s, locs, from); ps != [] ==> ps[|ps| - 1].Plain?
    ensures PiecesFrom(s, locs, from) == [] ==> from == |s|
  {
    if locs != [] {
      hide ScanVar;
      LastPiece(s, locs[1..], locs[0].end);
      ScanEndsInBrace(s, locs[0].start);
      assert PiecesFrom(s, locs[1..], locs[0].end) != [];
    }
  }

  lemma PrefixEndsInText(pattern: string, lib: Library)
    requires Parsed(pattern, false, lib).Some? && Parsed(pattern, false, lib).value.isPrefix
    ensures var ps := PatternPieces(Trim(pattern, IsSpace)); ps != [] ==> ps[|ps| - 1].Plain?
  {
    hide FindAll, Ordered, AllMatch, PiecesFrom, Trim, CondTokens, CondString;
    var s := PathPart(Trim(pattern, IsSpace));
    ParsedParts(pattern, lib);
    assert Unmarked(s) == s;
    FindAllSound(s, 0);
    LastPiece(s, FindAll(s, 0), 0);
  }

  /** The parts of a parsed pattern that matter here. */
  lemma ParsedParts(pattern: string, lib: Library)
    requires Parsed(pattern, false, lib).Some?
    ensures var t := Trim(pattern, IsSpace);
      var c, ps := Parsed(pattern, false, lib).value, PatternPieces(t);
      && c.isPrefix == EndsInSlash(PathPart(t))
      && (c.pattern.Some? ==>
            && DistinctNames(VarNames(ps)) && c.vars == VarIndex(VarNames(ps))
            && Compile(SyntaxOf(ps), lib).Some?
            && c.pattern.value == Regex(Compile(SyntaxOf(ps), lib).value, !c.isPrefix))
  {
    hide PatternPieces, Trim, CondTokens, CondsOk, CondsOf, PathPart, Compile, VarNames, DistinctNames;
  }

  /** Looking a name up in the table gives the value meant for it. */
  predicate ByName(vars: map<string, nat>, got: seq<string>, names: seq<string>, values: seq<string>) {
    && |names| == |values|
    && forall i :: 0 <= i < |names| && names[i] != "_" ==>
         names[i] in vars && vars[names[i]] < |got| && got[vars[names[i]]] == values[i]
  }

  lemma AllByName(names: seq<string>, values: seq<string>)
    requires DistinctNames(names) && |names| == |values|
    ensures ByName(VarIndex(names), values, names, values)
  {
    VarIndexBijection(names);
    forall i | 0 <= i < |names| && names[i] != "_"
      ensures names[i] in VarIndex(names) && VarIndex(names)[names[i]] == i
    {
      assert names[VarIndex(names)[names[i]]] == names[i];
    }
  }

  /**
   * From pattern to request and back, for every pattern with variables that parses, whatever its
   * conditions, braces, spaces and final `!`, as long as each variable is followed by text that its own
   * pattern excludes, or ends the pattern. Fill in any values that fit. The route accepts the path under
   * the conditions it names, unless a variable is called `_`; and whatever values it hands out are the
   * ones filled in, each under its variable's name.
   */
  lemma PatternRoundTrip(
      pattern: string, lib: Library, values: seq<string>, tail: string, requested: CondFlags, got: seq<string>)
    requires var c := Parsed(pattern, false, lib);
      && c.Some? && c.value.pattern.Some?
      && Delimited(c.value.pattern.value.items) && Fits(c.value.pattern.value.items, values)
      && (tail != "" ==> c.value.isPrefix)
    ensures var c, ps := Parsed(pattern, false, lib).value, PatternPieces(Trim(pattern, IsSpace));
      && |values| == |VarNames(ps)|
      && var path := Fill(ps, values) + tail;
      && (Accepts(c, requested, path) <==>
            (c.conditions == {} || c.conditions * requested != {}) && "_" !in VarNames(ps))
      && (Captures(c, path, got) <==> got == values)
      && ByName(c.vars, values, VarNames(ps), values)
  {
    hide Parsed, Find, Substitute, Fits, PatternPieces, Compile, Delimited, Trim, VarNames, Captures, Accepts, Decomposes;
    var c, ps := Parsed(pattern, false, lib).value, PatternPieces(Trim(pattern, IsSpace));
    var items := c.pattern.value.items;
    ParsedParts(pattern, lib);
    CompileShape(ps, lib);
    FillIsSubstitute(ps, lib, values);
    var path := Substitute(items, values) + tail;
    if tail != "" { PrefixEndsInText(pattern, lib); }
    FindSubstituted(items, values, tail, !c.isPrefix);
    AllByName(VarNames(ps), values);
    Found(c, path, values);
    AcceptedWhenFound(pattern, lib, requested, path, values);
    if Captures(c, path, got) { CapturesUnique(c, path, got, values); }
  }

  lemma Found(c: Compiled, path: string, values: seq<string>)
    requires c.pattern.Some? && Find(c.pattern.value.items, path, c.pattern.value.toEnd) == Some(values)
    ensures Captures(c, path, values) && Decomposes(c.pattern.value.items, values, path, c.pattern.value.toEnd)
  {
    FindCorrect(c.pattern.value.items, path, c.pattern.value.toEnd);
  }

  lemma AcceptedWhenFound(pattern: string, lib: Library, requested: CondFlags, path: string, values: seq<string>)
    requires var c := Parsed(pattern, false, lib);
      c.Some? && c.value.pattern.Some? && Decomposes(c.value.pattern.value.items, values, path, c.value.pattern.value.toEnd)
    ensures var c := Parsed(pattern, false, lib).value;
      Accepts(c, requested, path) <==>
        (c.conditions == {} || c.conditions * requested != {}) && "_" !in VarNames(PatternPieces(Trim(pattern, IsSpace)))
  {
    hide Parsed, PatternPieces, Trim, VarNames, Decomposes, Accepts, Try, WellFormed;
    UnderscoreExact(pattern, false, lib, requested, path);
    ParsedWellFormed(pattern, false, lib);
    TryCorrect(Parsed(pattern, false, lib).value, requested, path);
  }
}
