/**
 * Compiling a route pattern such as `GET|POST /us.er/{id}/x` (route/route.go). Go's regexp package is
 * seen through `Library`: what a variable's own pattern source means, when it is a run of class characters.
 */
module Route {
  import opened Strings
  import opened Cond
  import opened Regexp

  type Library = string -> Option<CharClass>

  const DefaultVarPattern: string := "[^/]+"

  function ClassOf(pat: string, lib: Library): Option<CharClass> {
    if pat == DefaultVarPattern then Some(NotSlash) else lib(pat)
  }

  datatype ParseError = MissingSlash | BadCondition(token: string) | DuplicateVar(name: string) | BadRegexp

  /** The fields of a parsed route, apart from its handler. */
  datatype Compiled = Compiled(
    conditions: CondFlags, pattern: Option<Regex>, vars: map<string, nat>, entryPrefix: string, isPrefix: bool)

  // ----- character classes -----

  /** White space as Go's strings.TrimSpace sees it. */
  predicate IsSpace(c: char) {
    '\t' <= c <= '\r' || c == ' ' || c == '\U{85}' || c == '\U{A0}' || c == '\U{1680}' ||
    '\U{2000}' <= c <= '\U{200a}' || c == '\U{2028}' || c == '\U{2029}' || c == '\U{202f}' ||
    c == '\U{205f}' || c == '\U{3000}'
  }

  predicate IsCondTrim(c: char) {
    c == '|' || c == ' ' || c == '\t' || c == '\r' || c == '\n'
  }

  /** The regexp class `\s`. */
  predicate IsReSpace(c: char) {
    c == '\t' || c == '\n' || c == '\U{c}' || c == '\r' || c == ' '
  }

  /** The regexp class `\w`. */
  predicate IsWord(c: char) {
    '0' <= c <= '9' || 'A' <= c <= 'Z' || 'a' <= c <= 'z' || c == '_'
  }

  // ----- conditions -----

  /** Splits at every `\s*\|\s*`. */
  function SplitOr(s: string): seq<string>
    decreases |s|
  {
    var i := IndexOf(s, '|');
    if i == |s| then [s]
    else [TrimRight(s[..i], IsReSpace)] + SplitOr(TrimLeft(s[i + 1..], IsReSpace))
  }

  function CondString(t: string): string {
    Trim(t[..IndexOf(t, '/')], IsCondTrim)
  }

  function CondTokens(t: string): seq<string> {
    if CondString(t) == "" then [] else SplitOr(CondString(t))
  }

  predicate CondsOk(tokens: seq<string>) {
    tokens == ["*"] || AllValid(tokens)
  }

  function CondsOf(tokens: seq<string>): CondFlags {
    if tokens == ["*"] then {} else Bits(tokens)
  }

  /** What is left for the path: only non-empty conditions are cut off. */
  function PathPart(t: string): string {
    if CondString(t) == "" then t else t[IndexOf(t, '/')..]
  }

  /** The path without the final `!` that keeps a trailing slash from meaning "prefix". */
  function Unmarked(path: string): string {
    if path != "" && path[|path| - 1] == '!' then path[..|path| - 1] else path
  }

  // ----- variables -----

  /** Submatch positions of one `{name}` or `{name:pattern}` in a path pattern. */
  datatype Loc = Loc(start: nat, end: nat, nameEnd: nat, value: Option<(nat, nat)>)

  predicate LocIn(l: Loc, s: string) {
    l.start + 1 < l.nameEnd < l.end <= |s| &&
    (l.value.Some? ==> l.nameEnd < l.value.value.0 <= l.value.value.1 < l.end)
  }

  /** The match of `\{(\w+)(?:\:\s*([^\}]*)|)\s*\}` that starts at `i`. */
  function ScanVar(s: string, i: nat): (r: Option<Loc>)
    requires i < |s|
    ensures r.Some? ==> r.value.start == i && LocIn(r.value, s)
  {
    if s[i] != '{' then None
    else
      var n := i + 1 + Leading(s[i + 1..], IsWord);
      if n == i + 1 || n == |s| then None
      else if s[n] == ':' then
        var v := n + 1 + Leading(s[n + 1..], IsReSpace);
        var e := v + IndexOf(s[v..], '}');
        if e == |s| then None else Some(Loc(i, e + 1, n, Some((v, e))))
      else
        var e := n + Leading(s[n..], IsReSpace);
        if e < |s| && s[e] == '}' then Some(Loc(i, e + 1, n, None)) else None
  }

  /** Matches in order, from position `from` on, none overlapping another. */
  predicate Ordered(locs: seq<Loc>, from: nat, s: string) {
    from <= |s| &&
    (locs != [] ==> from <= locs[0].start && LocIn(locs[0], s) && Ordered(locs[1..], locs[0].end, s))
  }

  /** All leftmost non-overlapping matches from `from` on. */
  function FindAll(s: string, from: nat): (locs: seq<Loc>)
    requires from <= |s|
    ensures Ordered(locs, from, s)
    ensures locs != [] ==> ScanVar(s, locs[0].start) == Some(locs[0])
    decreases |s| - from
  {
    if from == |s| then []
    else match ScanVar(s, from)
      case Some(l) => [l] + FindAll(s, l.end)
      case None =>
        var locs := FindAll(s, from + 1);
        assert locs != [] ==> Ordered(locs, from, s);
        locs
  }

  /** A path pattern cut into plain chunks and variables; `source` is the variable as written. */
  datatype Piece = Plain(text: string) | VarPiece(source: string, name: string, pat: string)

  function VarAt(s: string, l: Loc): Piece
    requires LocIn(l, s)
  {
    VarPiece(s[l.start..l.end], s[l.start + 1..l.nameEnd],
             if l.value.Some? && l.value.value.0 < l.value.value.1 then s[l.value.value.0..l.value.value.1]
             else DefaultVarPattern)
  }

  function PlainBetween(s: string, from: nat, to: nat): seq<Piece>
    requires from <= to <= |s|
  {
    if from < to then [Plain(s[from..to])] else []
  }

  function PiecesFrom(s: string, locs: seq<Loc>, from: nat): seq<Piece>
    requires Ordered(locs, from, s)
  {
    if locs == [] then PlainBetween(s, from, |s|)
    else PlainBetween(s, from, locs[0].start) + [VarAt(s, locs[0])] + PiecesFrom(s, locs[1..], locs[0].end)
  }

  function Pieces(s: string): seq<Piece> {
    PiecesFrom(s, FindAll(s, 0), 0)
  }

  function Written(p: Piece): string {
    if p.Plain? then p.text else p.source
  }

  function Source(ps: seq<Piece>): string {
    if ps == [] then "" else Written(ps[0]) + Source(ps[1..])
  }

  function VarNames(ps: seq<Piece>): seq<string> {
    if ps == [] then []
    else if ps[0].Plain? then VarNames(ps[1..]) else [ps[0].name] + VarNames(ps[1..])
  }

  /** No name other than `_` occurs twice. */
  predicate DistinctNames(names: seq<string>) {
    forall i, j :: 0 <= i < j < |names| && names[i] == names[j] ==> names[i] == "_"
  }

  function VarIndex(names: seq<string>): map<string, nat>
    requires DistinctNames(names)
  {
    map i | 0 <= i < |names| && names[i] != "_" :: names[i] := i
  }

  /** A regexp under construction: quoted text, and groups around a variable's own pattern. */
  datatype Syntax = Quote(text: string) | Capture(pat: string)

  function SyntaxOf(ps: seq<Piece>): (r: seq<Syntax>)
    ensures |r| == |ps|
  {
    seq(|ps|, k requires 0 <= k < |ps| => if ps[k].Plain? then Quote(ps[k].text) else Capture(ps[k].pat))
  }

  /** Go's regexp.Compile, for the patterns the library knows. */
  function Compile(r: seq<Syntax>, lib: Library): Option<seq<Item>> {
    if r == [] then Some([])
    else
      var rest := Compile(r[1..], lib);
      if rest.None? then None
      else match r[0]
        case Quote(t) => Some([Lit(t)] + rest.value)
        case Capture(pat) =>
          var c := ClassOf(pat, lib);
          if c.None? then None else Some([Group(c.value)] + rest.value)
  }

  function EntryPrefixOf(ps: seq<Piece>): string {
    if ps != [] && ps[0].Plain? then ps[0].text else ""
  }

  /** The route that a segmented path pattern denotes under given conditions; None when it is rejected. */
  function Denoted(conds: CondFlags, ps: seq<Piece>, isPrefix: bool, lib: Library): Option<Compiled> {
    if VarNames(ps) == [] then Some(Compiled(conds, None, map[], EntryPrefixOf(ps), isPrefix))
    else
      var items := Compile(SyntaxOf(ps), lib);
      if !DistinctNames(VarNames(ps)) || items.None? then None
      else Some(Compiled(conds, Some(Regex(items.value, !isPrefix)), VarIndex(VarNames(ps)), EntryPrefixOf(ps), isPrefix))
  }

  /** The pieces of the path part of a trimmed pattern. */
  function PatternPieces(t: string): seq<Piece> {
    Pieces(Unmarked(PathPart(t)))
  }

  /** The route that a pattern denotes; None when it is rejected. */
  function Parsed(pattern: string, wasPrefix: bool, lib: Library): Option<Compiled> {
    var t := Trim(pattern, IsSpace);
    if '/' !in t || !CondsOk(CondTokens(t)) then None
    else Denoted(CondsOf(CondTokens(t)), PatternPieces(t), wasPrefix || EndsInSlash(PathPart(t)), lib)
  }

  // ----- why a pattern is rejected -----

  /** `n` is the first name but `_` that occurs a second time, at position `k`. */
  predicate FirstRepeat(names: seq<string>, k: nat, n: string) {
    k < |names| && names[k] == n && n != "_" && n in names[..k] && DistinctNames(names[..k])
  }

  /** What is wrong with the variables; a repeated name is found before the regexp is compiled. */
  ghost predicate VarsFault(ps: seq<Piece>, lib: Library, err: ParseError) {
    match err
    case DuplicateVar(n) => exists k: nat :: FirstRepeat(VarNames(ps), k, n)
    case BadRegexp => VarNames(ps) != [] && DistinctNames(VarNames(ps)) && Compile(SyntaxOf(ps), lib).None?
    case _ => false
  }

  /** What is wrong with a trimmed pattern: the first thing in the order slash, conditions, variables. */
  ghost predicate Fault(t: string, lib: Library, err: ParseError) {
    match err
    case MissingSlash => '/' !in t
    case BadCondition(token) =>
      '/' in t && !CondsOk(CondTokens(t)) && exists k: nat :: FirstInvalid(CondTokens(t), k, token)
    case _ => '/' in t && CondsOk(CondTokens(t)) && VarsFault(PatternPieces(t), lib, err)
  }

  lemma FirstRepeatIsFirst(names: seq<string>, k: nat, n: string, j: nat, m: string)
    requires FirstRepeat(names, k, n)
    ensures !DistinctNames(names)
    ensures FirstRepeat(names, j, m) ==> j <= k
  {
    var i :| 0 <= i < k && names[..k][i] == n;
    assert names[i] == names[k] == n;
    if FirstRepeat(names, j, m) {
      assert forall x :: 0 <= x < j ==> names[..j][x] == names[x];
    }
  }

  /** Only rejected patterns have a fault, and only one, so the error says which. */
  lemma FaultExact(pattern: string, wasPrefix: bool, lib: Library, a: ParseError, b: ParseError)
    requires Fault(Trim(pattern, IsSpace), lib, a)
    ensures Parsed(pattern, wasPrefix, lib).None?
    ensures Fault(Trim(pattern, IsSpace), lib, b) ==> a == b
  {
    var t := Trim(pattern, IsSpace);
    if a.DuplicateVar? {
      var names := VarNames(PatternPieces(t));
      var k: nat :| FirstRepeat(names, k, a.name);
      FirstRepeatIsFirst(names, k, a.name, k, a.name);
      if Fault(t, lib, b) && b.DuplicateVar? {
        var j: nat :| FirstRepeat(names, j, b.name);
        FirstRepeatIsFirst(names, k, a.name, j, b.name);
        FirstRepeatIsFirst(names, j, b.name, k, a.name);
      }
    }
    if a.BadCondition? && b.BadCondition? && Fault(t, lib, b) {
      var k: nat :| FirstInvalid(CondTokens(t), k, a.token);
      var j: nat :| FirstInvalid(CondTokens(t), j, b.token);
      FirstInvalidUnique(CondTokens(t), k, a.token, j, b.token);
    }
  }

  lemma {:induction false} VarNamesConcat(a: seq<Piece>, b: seq<Piece>)
    ensures VarNames(a + b) == VarNames(a) + VarNames(b)
  {
    if a == [] {
      assert a + b == b;
    } else {
      VarNamesConcat(a[1..], b);
      assert (a + b)[0] == a[0] && (a + b)[1..] == a[1..] + b;
      assert a[0].VarPiece? ==>
        [a[0].name] + (VarNames(a[1..]) + VarNames(b)) == [a[0].name] + VarNames(a[1..]) + VarNames(b);
    }
  }

  lemma SyntaxConcat(a: seq<Piece>, b: seq<Piece>)
    ensures SyntaxOf(a + b) == SyntaxOf(a) + SyntaxOf(b)
  {
  }

  /** Registering one more variable: a duplicate exactly when the name is already in the table. */
  lemma VarIndexSnoc(names: seq<string>, n: string)
    requires DistinctNames(names)
    ensures DistinctNames(names + [n]) <==> n == "_" || n !in VarIndex(names)
    ensures DistinctNames(names + [n]) ==>
      VarIndex(names + [n]) == if n == "_" then VarIndex(names) else VarIndex(names)[n := |names|]
  {
    var all := names + [n];
    assert all[|names|] == n;
    if n != "_" && n in VarIndex(names) {
      var i := VarIndex(names)[n];
      assert all[i] == all[|names|];
    }
    if DistinctNames(all) {
      forall m ensures m in VarIndex(all) <==> m in VarIndex(names) || (m == n && n != "_") {
        if m in VarIndex(names) {
          var i := VarIndex(names)[m];
          assert all[i] == m;
        }
      }
    }
  }

  lemma DistinctPrefix(a: seq<string>, b: seq<string>)
    requires DistinctNames(a + b)
    ensures DistinctNames(a)
  {
    assert forall i :: 0 <= i < |a| ==> (a + b)[i] == a[i];
  }

  lemma PieceSnoc(done: seq<Piece>, plain: seq<Piece>, v: Piece)
    requires v.VarPiece? && (plain == [] || (|plain| == 1 && plain[0].Plain?))
    ensures VarNames(done + plain + [v]) == VarNames(done) + [v.name]
    ensures SyntaxOf(done + plain + [v]) == SyntaxOf(done) + SyntaxOf(plain) + [Capture(v.pat)]
    ensures EntryPrefixOf(done + plain + [v]) == if done != [] then EntryPrefixOf(done) else EntryPrefixOf(plain)
  {
    VarNamesConcat(done, plain);
    VarNamesConcat(done + plain, [v]);
    SyntaxConcat(done, plain);
    SyntaxConcat(done + plain, [v]);
  }

  lemma PlainLast(done: seq<Piece>, last: seq<Piece>)
    requires last == [] || (|last| == 1 && last[0].Plain?)
    ensures VarNames(done + last) == VarNames(done)
    ensures SyntaxOf(done + last) == SyntaxOf(done) + if last == [] then [] else [Quote(last[0].text)]
    ensures done != [] ==> EntryPrefixOf(done + last) == EntryPrefixOf(done)
  {
    VarNamesConcat(done, last);
    SyntaxConcat(done, last);
    assert done != [] ==> (done + last)[0] == done[0];
  }

  /** One turn of the segmentation loop moves the pieces of one variable over to those already done. */
  lemma PiecesStep(s: string, locs: seq<Loc>, k: nat, from: nat, done: seq<Piece>)
    returns (plain: seq<Piece>, v: Piece, next: seq<Piece>)
    requires k < |locs| && Ordered(locs[k..], from, s)
    ensures Ordered(locs[k + 1..], locs[k].end, s) && from <= locs[k].start && LocIn(locs[k], s)
    ensures plain == PlainBetween(s, from, locs[k].start) && v == VarAt(s, locs[k]) && next == done + plain + [v]
    ensures done + PiecesFrom(s, locs[k..], from) == next + PiecesFrom(s, locs[k + 1..], locs[k].end)
  {
    assert locs[k..][0] == locs[k] && locs[k..][1..] == locs[k + 1..];
    plain, v := PlainBetween(s, from, locs[k].start), VarAt(s, locs[k]);
    next := done + plain + [v];
    assert PiecesFrom(s, locs[k..], from) == plain + [v] + PiecesFrom(s, locs[k + 1..], locs[k].end);
  }

  /** What the loop has built once the pieces `done`, `n` variables among them, are behind it. */
  predicate Built(done: seq<Piece>, n: nat, entryPrefix: string, vars: map<string, nat>, r: seq<Syntax>) {
    && |VarNames(done)| == n
    && DistinctNames(VarNames(done))
    && vars == VarIndex(VarNames(done))
    && entryPrefix == EntryPrefixOf(done)
    && r == SyntaxOf(done)
  }

  lemma BuiltEmpty()
    ensures Built([], 0, "", map[], [])
  {
  }

  lemma BuiltStep(done: seq<Piece>, n: nat, ep: string, vars: map<string, nat>, r: seq<Syntax>,
                  plain: seq<Piece>, v: Piece, later: seq<Piece>)
    requires Built(done, n, ep, vars, r)
    requires v.VarPiece? && (plain == [] || (|plain| == 1 && plain[0].Plain?))
    ensures v.name != "_" && v.name in vars ==> FirstRepeat(VarNames(done + plain + [v] + later), n, v.name)
    ensures v.name == "_" || v.name !in vars ==>
      Built(done + plain + [v], n + 1, if done != [] then ep else EntryPrefixOf(plain),
            if v.name == "_" then vars else vars[v.name := n], r + SyntaxOf(plain) + [Capture(v.pat)])
  {
    PieceSnoc(done, plain, v);
    VarIndexSnoc(VarNames(done), v.name);
    VarNamesConcat(done + plain + [v], later);
    assert (VarNames(done) + [v.name] + VarNames(later))[..n] == VarNames(done);
  }

  lemma RepeatRejected(ps: seq<Piece>, k: nat, n: string, conds: CondFlags, isPrefix: bool, lib: Library)
    requires FirstRepeat(VarNames(ps), k, n)
    ensures VarsFault(ps, lib, DuplicateVar(n)) && Denoted(conds, ps, isPrefix, lib).None?
  {
    FirstRepeatIsFirst(VarNames(ps), k, n, k, n);
  }

  lemma CompiledIs(ps: seq<Piece>, conds: CondFlags, isPrefix: bool, lib: Library)
    requires VarNames(ps) != [] && DistinctNames(VarNames(ps))
    ensures var items := Compile(SyntaxOf(ps), lib);
      && (items.None? ==> VarsFault(ps, lib, BadRegexp))
      && Denoted(conds, ps, isPrefix, lib) ==
        if items.None? then None
        else Some(Compiled(conds, Some(Regex(items.value, !isPrefix)), VarIndex(VarNames(ps)), EntryPrefixOf(ps), isPrefix))
  {
  }

  lemma PiecesEnd(s: string, locs: seq<Loc>, from: nat)
    requires locs == [] && Ordered(locs, from, s)
    ensures from <= |s| && PiecesFrom(s, locs, from) == PlainBetween(s, from, |s|)
  {
  }

  lemma ParsedNone(pattern: string, wasPrefix: bool, lib: Library)
    requires '/' !in Trim(pattern, IsSpace) || !CondsOk(CondTokens(Trim(pattern, IsSpace)))
    ensures Parsed(pattern, wasPrefix, lib).None?
  {
  }

  lemma ParsedIs(pattern: string, wasPrefix: bool, lib: Library)
    requires '/' in Trim(pattern, IsSpace) && CondsOk(CondTokens(Trim(pattern, IsSpace)))
    ensures var t := Trim(pattern, IsSpace);
      Parsed(pattern, wasPrefix, lib) ==
      Denoted(CondsOf(CondTokens(t)), PatternPieces(t), wasPrefix || EndsInSlash(PathPart(t)), lib)
  {
  }

  lemma NoPieces(s: string, conds: CondFlags, isPrefix: bool, lib: Library)
    requires s != "" && FindAll(s, 0) == []
    ensures Denoted(conds, Pieces(s), isPrefix, lib) == Some(Compiled(conds, None, map[], s, isPrefix))
  {
    assert s[0..|s|] == s;
    assert Pieces(s) == [Plain(s)];
    assert VarNames([Plain(s)]) == [];
  }

  // ----- the receiver -----

  class Route {
    var Conditions: CondFlags
    var Pattern: Option<Regex>
    var Vars: map<string, nat>
    var EntryPrefix: string
    var IsPrefix: bool
    var Handler: int

    constructor ()
      ensures Value() == Compiled({}, None, map[], "", false)
    {
      Conditions, Pattern, Vars, EntryPrefix, IsPrefix := {}, None, map[], "", false;
      Handler := 0;
    }

    function Value(): Compiled
      reads this
    {
      Compiled(Conditions, Pattern, Vars, EntryPrefix, IsPrefix)
    }

    /** The name and the pattern source of the variable at `loc`. */
    static method ReadVar(pathPattern: string, loc: Loc) returns (varName: string, pat: string)
      requires LocIn(loc, pathPattern)
      ensures VarAt(pathPattern, loc) == VarPiece(pathPattern[loc.start..loc.end], varName, pat)
    {
      varName := pathPattern[loc.start + 1..loc.nameEnd];
      pat := DefaultVarPattern;
      if loc.value.Some? {
        pat := pathPattern[loc.value.value.0..loc.value.value.1];
        if |pat| == 0 {
          pat := DefaultVarPattern;
        }
      }
    }

    /** Builds the regexp and the variable table from the variables found in the path pattern. */
    method CompileVars(pathPattern: string, locations: seq<Loc>, lib: Library) returns (err: Option<ParseError>)
      requires locations != [] && Ordered(locations, 0, pathPattern)
      modifies this
      ensures Handler == old(Handler) && Conditions == old(Conditions) && IsPrefix == old(IsPrefix)
      ensures var ps := PiecesFrom(pathPattern, locations, 0);
        && VarNames(ps) != []
        && Denoted(Conditions, ps, IsPrefix, lib) == (if err.None? then Some(Value()) else None)
        && (err.Some? ==> VarsFault(ps, lib, err.value))
    {
      hide Ordered, PiecesFrom, Compile, VarNames, VarIndex, DistinctNames, Denoted, VarsFault, FirstRepeat;
      BuiltEmpty();
      EntryPrefix := "";
      Vars := map[];
      var resultPattern: seq<Syntax> := [];
      var plainStart: nat := 0;
      var varIndex: nat := 0;
      ghost var ps := PiecesFrom(pathPattern, locations, 0);
      ghost var done: seq<Piece> := [];
      while varIndex < |locations|
        invariant varIndex <= |locations| && Ordered(locations[varIndex..], plainStart, pathPattern)
        invariant ps == done + PiecesFrom(pathPattern, locations[varIndex..], plainStart)
        invariant plainStart == 0 <==> done == []
        invariant Built(done, varIndex, EntryPrefix, Vars, resultPattern)
        invariant Handler == old(Handler) && Conditions == old(Conditions) && IsPrefix == old(IsPrefix)
      {
        var loc := locations[varIndex];
        ghost var plain, v, next := PiecesStep(pathPattern, locations, varIndex, plainStart, done);
        BuiltStep(done, varIndex, EntryPrefix, Vars, resultPattern, plain, v,
                  PiecesFrom(pathPattern, locations[varIndex + 1..], loc.end));
        ghost var before := resultPattern;
        if plainStart < loc.start {
          var chunk := pathPattern[plainStart..loc.start];
          if plainStart == 0 {
            EntryPrefix := chunk;
          }
          resultPattern := resultPattern + [Quote(chunk)];
        }
        assert resultPattern == before + SyntaxOf(plain);
        assert plainStart == 0 ==> EntryPrefix == EntryPrefixOf(plain);
        plainStart := loc.end;

        var varName, pat := ReadVar(pathPattern, loc);
        if varName != "_" {
          if varName in Vars {
            RepeatRejected(ps, varIndex, varName, Conditions, IsPrefix, lib);
            return Some(DuplicateVar(varName));
          }
          Vars := Vars[varName := varIndex];
        }
        resultPattern := resultPattern + [Capture(pat)];
        varIndex := varIndex + 1;
        done := next;
      }
      PiecesEnd(pathPattern, locations[varIndex..], plainStart);
      ghost var last := PlainBetween(pathPattern, plainStart, |pathPattern|);
      assert ps == done + last;
      assert done != [];
      PlainLast(done, last);
      if plainStart < |pathPattern| {
        resultPattern := resultPattern + [Quote(pathPattern[plainStart..])];
      }
      assert pathPattern[plainStart..] == pathPattern[plainStart..|pathPattern|];
      assert resultPattern == SyntaxOf(ps);
      CompiledIs(ps, Conditions, IsPrefix, lib);
      var re := Compile(resultPattern, lib);
      if re.None? {
        return Some(BadRegexp);
      }
      Pattern := Some(Regex(re.value, !IsPrefix));
      return None;
    }

    /** Parses "COND|COND /path/pattern" into the receiver. */
    method Parse(pattern: string, lib: Library) returns (err: Option<ParseError>)
      modifies this
      ensures Handler == old(Handler)
      ensures Parsed(pattern, old(IsPrefix), lib) == if err.None? then Some(Value()) else None
      ensures err.Some? ==> Fault(Trim(pattern, IsSpace), lib, err.value)
    {
      hide VarNames, VarIndex, DistinctNames, Compile, SyntaxOf, PiecesFrom, FindAll, SplitOr;
      hide Leading, KeepLength, IndexOf, AllValid, MethodOf, Bits, IsSpace, IsCondTrim, Parsed, Denoted, Trim;
      var pathPattern := Trim(pattern, IsSpace);
      ghost var t := pathPattern;
      var i := IndexOf(pathPattern, '/');
      if i == |pathPattern| {
        ParsedNone(pattern, IsPrefix, lib);
        return Some(MissingSlash);
      }
      var conditions: seq<string> := [];
      var condstr := Trim(pathPattern[..i], IsCondTrim);
      if |condstr| > 0 {
        conditions := SplitOr(condstr);
        pathPattern := pathPattern[i..];
      }

      var conds, bad := ParseCondFlags(conditions);
      if bad.Some? {
        ParsedNone(pattern, IsPrefix, lib);
        return Some(BadCondition(bad.value));
      }
      Conditions := conds;
      assert conditions == CondTokens(t) && pathPattern == PathPart(t);
      assert Conditions == CondsOf(CondTokens(t));

      var c := pathPattern[|pathPattern| - 1];
      if c == '/' {
        IsPrefix := true;
      } else if c == '!' {
        pathPattern := pathPattern[..|pathPattern| - 1];
      }
      assert pathPattern == Unmarked(PathPart(t));
      assert IsPrefix == (old(IsPrefix) || EndsInSlash(PathPart(t)));
      assert t[i] == '/';
      ParsedIs(pattern, old(IsPrefix), lib);
      hide CondTokens, CondString, CondsOf, CondsOk, PathPart, Unmarked;

      var locations := FindAll(pathPattern, 0);
      if |locations| == 0 {
        NoPieces(pathPattern, Conditions, IsPrefix, lib);
        EntryPrefix := pathPattern;
        Vars := map[];
        Pattern := None;
        return None;
      }
      err := CompileVars(pathPattern, locations, lib);
    }
  }
}
