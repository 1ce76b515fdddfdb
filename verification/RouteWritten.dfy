/** Patterns as their authors write them: text, `{name}` and `{name:pattern}`; what parsing makes of them. */
module RouteWritten {
  import opened Strings
  import opened Regexp
  import opened Route
  import opened RoutePatterns
  import opened RouteRoundTrip
  import opened Router
  import opened Cond

  /**
   * Literal text, `{name}` with white space before its closing brace, or `{name:pattern}` with white space
   * before the pattern.
   */
  datatype Part = Text(text: string) | Named(name: string, pad: string) | Own(name: string, skip: string, pat: string)

  /** The part as it is written. */
  function Shown(p: Part): string {
    match p
    case Text(t) => t
    case Named(n, pad) => "{" + n + pad + "}"
    case Own(n, skip, pat) => "{" + n + ":" + skip + pat + "}"
  }

  /** What the part stands for; an empty pattern stands for the default. */
  function PieceOf(p: Part): Piece {
    match p
    case Text(t) => Plain(t)
    case Named(n, _) => VarPiece(Shown(p), n, "[^/]+")
    case Own(n, _, pat) => VarPiece(Shown(p), n, if pat == "" then "[^/]+" else pat)
  }

  function PiecesOf(parts: seq<Part>): seq<Piece> {
    if parts == [] then [] else [PieceOf(parts[0])] + PiecesOf(parts[1..])
  }

  predicate IsNameWord(n: string) {
    n != "" && forall c :: c in n ==> IsWord(c)
  }

  predicate IsBlank(s: string) {
    forall c :: c in s ==> IsReSpace(c)
  }

  /** Names are words, blanks are blank, and a pattern has no closing brace and no blank in front. */
  predicate IsVar(p: Part) {
    match p
    case Text(_) => false
    case Named(n, pad) => IsNameWord(n) && IsBlank(pad)
    case Own(n, skip, pat) => IsNameWord(n) && IsBlank(skip) && '}' !in pat && (pat != "" ==> !IsReSpace(pat[0]))
  }

  /** Text is not empty, opens no brace and is not followed by text. */
  predicate WellWritten(parts: seq<Part>) {
    parts == [] || (
      && WellWritten(parts[1..])
      && if parts[0].Text? then parts[0].text != "" && '{' !in parts[0].text && (1 < |parts| ==> !parts[1].Text?)
         else IsVar(parts[0]))
  }

  /** Where the scan finds the variable `p` at `i`. */
  function LocOf(p: Part, i: nat): Loc
    requires !p.Text?
  {
    var n := i + 1 + |p.name|;
    if p.Named? then Loc(i, n + |p.pad| + 1, n, None)
    else
      var v := n + 1 + |p.skip|;
      Loc(i, v + |p.pat| + 1, n, Some((v, v + |p.pat|)))
  }

  /** `w` stands in `s` at `i`. */
  predicate Stands(s: string, i: nat, w: string) {
    i + |w| <= |s| && s[i..i + |w|] == w
  }

  lemma StandsAt(s: string, i: nat, w: string, k: nat)
    requires Stands(s, i, w) && k < |w|
    ensures s[i + k] == w[k]
  {
    assert s[i..i + |w|][k] == s[i + k];
  }

  lemma SliceCut(s: string, i: nat, n: nat, k: nat)
    requires i + n <= |s| && k <= n
    ensures s[i..i + n][..k] == s[i..i + k] && s[i..i + n][k..] == s[i + k..i + n]
  {
  }

  lemma StandsConcat(s: string, i: nat, a: string, b: string)
    ensures Stands(s, i, a + b) <==> Stands(s, i, a) && Stands(s, i + |a|, b)
  {
    var w, j := a + b, i + |a|;
    assert w[..|a|] == a && w[|a|..] == b;
    if Stands(s, i, w) { SliceCut(s, i, |w|, |a|); }
    if Stands(s, i, a) && Stands(s, j, b) {
      assert s[i..j + |b|] == s[i..j] + s[j..j + |b|];
    }
  }

  lemma NamedStands(s: string, i: nat, name: string, pad: string)
    ensures Stands(s, i, Shown(Named(name, pad))) <==>
      Stands(s, i, "{") && Stands(s, i + 1, name) && Stands(s, i + 1 + |name|, pad) && Stands(s, i + 1 + |name| + |pad|, "}")
  {
    hide Stands;
    StandsConcat(s, i, "{" + name + pad, "}");
    StandsConcat(s, i, "{" + name, pad);
    StandsConcat(s, i, "{", name);
  }

  lemma OwnStands(s: string, i: nat, name: string, skip: string, pat: string)
    ensures var n := i + 1 + |name|; var v := n + 1 + |skip|;
      Stands(s, i, Shown(Own(name, skip, pat))) <==>
        && Stands(s, i, "{") && Stands(s, i + 1, name) && Stands(s, n, ":") && Stands(s, n + 1, skip)
        && Stands(s, v, pat) && Stands(s, v + |pat|, "}")
  {
    hide Stands;
    StandsConcat(s, i, "{" + name + ":" + skip + pat, "}");
    StandsConcat(s, i, "{" + name + ":" + skip, pat);
    StandsConcat(s, i, "{" + name + ":", skip);
    StandsConcat(s, i, "{" + name, ":");
    StandsConcat(s, i, "{", name);
  }

  /** A run of `w` at `i`, ended by a character outside the class. */
  lemma LeadingStands(s: string, i: nat, w: string, cut: char -> bool)
    requires Stands(s, i, w) && (forall c :: c in w ==> cut(c))
    requires i + |w| < |s| && !cut(s[i + |w|])
    ensures Leading(s[i..], cut) == |w|
  {
    assert forall k :: 0 <= k < |w| ==> s[i..][k] == s[i..i + |w|][k];
    assert s[i..][|w|] == s[i + |w|];
  }

  lemma IndexStands(s: string, i: nat, w: string, c: char)
    requires Stands(s, i, w) && c !in w && i + |w| < |s| && s[i + |w|] == c
    ensures IndexOf(s[i..], c) == |w|
  {
    assert forall k :: 0 <= k < |w| ==> s[i..][k] == s[i..i + |w|][k];
    assert s[i..][|w|] == c;
  }

  /** The scan of a `{name}` whose name ends at `n` and whose brace is at `e`. */
  lemma ScanAtNamed(s: string, i: nat, n: nat, e: nat)
    requires i + 1 < n <= e < |s| && s[i] == '{' && s[e] == '}' && s[n] != ':'
    requires Leading(s[i + 1..], IsWord) == n - i - 1 && Leading(s[n..], IsReSpace) == e - n
    ensures ScanVar(s, i) == Some(Loc(i, e + 1, n, None))
  {
    hide Leading;
  }

  /** The scan of a `{name:pattern}` whose pattern goes from `v` to `e`. */
  lemma ScanAtOwn(s: string, i: nat, n: nat, v: nat, e: nat)
    requires i + 1 < n < v <= e < |s| && s[i] == '{' && s[n] == ':'
    requires Leading(s[i + 1..], IsWord) == n - i - 1 && Leading(s[n + 1..], IsReSpace) == v - n - 1
    requires IndexOf(s[v..], '}') == e - v
    ensures ScanVar(s, i) == Some(Loc(i, e + 1, n, Some((v, e))))
  {
    hide Leading, IndexOf;
  }

  /** A `{name}` where it was written is found there. */
  lemma ScanNamed(s: string, i: nat, name: string, pad: string)
    requires IsNameWord(name) && IsBlank(pad) && Stands(s, i, Shown(Named(name, pad)))
    ensures ScanVar(s, i) == Some(LocOf(Named(name, pad), i))
  {
    hide Leading, Shown, ScanVar, Stands;
    NamedStands(s, i, name, pad);
    var n := i + 1 + |name|;
    var e := n + |pad|;
    StandsAt(s, i, "{", 0);
    StandsAt(s, e, "}", 0);
    if pad != "" { StandsAt(s, n, pad, 0); assert pad[0] in pad; }
    Bounds(s, e, "}");
    LeadingStands(s, i + 1, name, IsWord);
    LeadingStands(s, n, pad, IsReSpace);
    ScanAtNamed(s, i, n, e);
  }

  lemma Bounds(s: string, i: nat, w: string)
    requires Stands(s, i, w)
    ensures i + |w| <= |s|
  {
  }

  lemma ScanOwn(s: string, i: nat, name: string, skip: string, pat: string)
    requires IsVar(Own(name, skip, pat)) && Stands(s, i, Shown(Own(name, skip, pat)))
    ensures ScanVar(s, i) == Some(LocOf(Own(name, skip, pat), i))
  {
    hide Leading, Shown, IndexOf, ScanVar, Stands;
    OwnStands(s, i, name, skip, pat);
    var n := i + 1 + |name|;
    var v := n + 1 + |skip|;
    var e := v + |pat|;
    StandsAt(s, i, "{", 0);
    StandsAt(s, n, ":", 0);
    StandsAt(s, e, "}", 0);
    if pat != "" { StandsAt(s, v, pat, 0); }
    Bounds(s, e, "}");
    LeadingStands(s, i + 1, name, IsWord);
    LeadingStands(s, n + 1, skip, IsReSpace);
    IndexStands(s, v, pat, '}');
    ScanAtOwn(s, i, n, v, e);
  }

  lemma ShownLength(p: Part, i: nat)
    requires !p.Text?
    ensures i + |Shown(p)| == LocOf(p, i).end && LocOf(p, i).start == i
  {
  }

  lemma PieceAt(s: string, i: nat, p: Part)
    requires !p.Text? && LocIn(LocOf(p, i), s) && Stands(s, i, Shown(p))
    ensures VarAt(s, LocOf(p, i)) == PieceOf(p)
  {
    hide Shown;
    ShownLength(p, i);
    if p.Named? {
      NamedStands(s, i, p.name, p.pad);
    } else {
      OwnStands(s, i, p.name, p.skip, p.pat);
    }
  }

  /** A variable where it was written is found there, and stands for what was meant. */
  lemma ScanShown(s: string, i: nat, p: Part)
    requires i < |s| && IsVar(p) && Stands(s, i, Shown(p))
    ensures ScanVar(s, i) == Some(LocOf(p, i)) && VarAt(s, LocOf(p, i)) == PieceOf(p)
  {
    if p.Named? { ScanNamed(s, i, p.name, p.pad); } else { ScanOwn(s, i, p.name, p.skip, p.pat); }
    hide ScanVar, Shown, VarAt, PieceOf, Stands;
    PieceAt(s, i, p);
  }

  lemma LeadingSlice(s: string, i: nat, cut: char -> bool)
    requires i <= |s|
    ensures var n := i + Leading(s[i..], cut);
      n <= |s| && (forall c :: c in s[i..n] ==> cut(c)) && (n < |s| ==> !cut(s[n]))
  {
    var t := s[i..];
    var n := Leading(t, cut);
    assert s[i..i + n] == t[..n];
    assert i + n < |s| ==> t[n] == s[i + n];
  }

  lemma IndexSlice(s: string, i: nat, c: char)
    requires i <= |s|
    ensures var e := i + IndexOf(s[i..], c); e <= |s| && c !in s[i..e] && (e < |s| ==> s[e] == c)
  {
    var t := s[i..];
    var n := IndexOf(t, c);
    assert s[i..i + n] == t[..n];
    assert i + n < |s| ==> t[n] == s[i + n];
  }

  lemma CharStands(s: string, i: nat, c: char)
    requires i < |s| && s[i] == c
    ensures Stands(s, i, [c])
  {
  }

  lemma SliceStands(s: string, i: nat, j: nat)
    requires i <= j <= |s|
    ensures Stands(s, i, s[i..j])
  {
  }

  /** The variable `p` is written at `l`. */
  predicate WrittenAt(s: string, l: Loc, p: Part) {
    IsVar(p) && Stands(s, l.start, Shown(p)) && l == LocOf(p, l.start)
  }

  lemma NamedThere(s: string, i: nat, n: nat, e: nat)
    requires i + 1 < n <= e < |s| && s[i] == '{' && s[e] == '}'
    requires n == i + 1 + Leading(s[i + 1..], IsWord) && e == n + Leading(s[n..], IsReSpace)
    ensures WrittenAt(s, Loc(i, e + 1, n, None), Named(s[i + 1..n], s[n..e]))
  {
    hide Stands, Shown, Leading;
    CharStands(s, i, '{');
    LeadingSlice(s, i + 1, IsWord);
    SliceStands(s, i + 1, n);
    LeadingSlice(s, n, IsReSpace);
    SliceStands(s, n, e);
    CharStands(s, e, '}');
    NamedStands(s, i, s[i + 1..n], s[n..e]);
  }

  lemma OwnIsVar(s: string, i: nat, n: nat, v: nat, e: nat)
    requires i + 1 < n < v <= e < |s|
    requires n == i + 1 + Leading(s[i + 1..], IsWord) && v == n + 1 + Leading(s[n + 1..], IsReSpace)
    requires e == v + IndexOf(s[v..], '}')
    ensures IsVar(Own(s[i + 1..n], s[n + 1..v], s[v..e]))
  {
    hide Leading, IndexOf;
    LeadingSlice(s, i + 1, IsWord);
    LeadingSlice(s, n + 1, IsReSpace);
    IndexSlice(s, v, '}');
  }

  lemma OwnThere(s: string, i: nat, n: nat, v: nat, e: nat)
    requires i + 1 < n < v <= e < |s| && s[i] == '{' && s[n] == ':' && s[e] == '}'
    requires IsVar(Own(s[i + 1..n], s[n + 1..v], s[v..e]))
    ensures WrittenAt(s, Loc(i, e + 1, n, Some((v, e))), Own(s[i + 1..n], s[n + 1..v], s[v..e]))
  {
    hide Stands, Shown, IsVar;
    CharStands(s, i, '{');
    SliceStands(s, i + 1, n);
    CharStands(s, n, ':');
    SliceStands(s, n + 1, v);
    SliceStands(s, v, e);
    CharStands(s, e, '}');
    OwnStands(s, i, s[i + 1..n], s[n + 1..v], s[v..e]);
  }

  lemma ScanNamedOnly(s: string, i: nat, l: Loc)
    requires i < |s| && ScanVar(s, i) == Some(l) && l.value.None?
    ensures WrittenAt(s, l, Named(s[i + 1..l.nameEnd], s[l.nameEnd..l.end - 1]))
  {
    hide WrittenAt, Leading;
    NamedThere(s, i, l.nameEnd, l.end - 1);
  }

  lemma ScanOwnOnly(s: string, i: nat, l: Loc, v: nat, e: nat)
    requires i < |s| && ScanVar(s, i) == Some(l) && l.value == Some((v, e))
    ensures WrittenAt(s, l, Own(s[i + 1..l.nameEnd], s[l.nameEnd + 1..v], s[v..e]))
  {
    hide WrittenAt, Leading, IndexOf, IsVar;
    OwnIsVar(s, i, l.nameEnd, v, e);
    OwnThere(s, i, l.nameEnd, v, e);
  }

  /** The scan finds nothing else: whatever it reports is a variable written there. */
  lemma ScanFindsShown(s: string, i: nat, l: Loc) returns (p: Part)
    requires i < |s| && ScanVar(s, i) == Some(l)
    ensures WrittenAt(s, l, p)
  {
    hide WrittenAt;
    if l.value.None? {
      ScanNamedOnly(s, i, l);
      p := Named(s[i + 1..l.nameEnd], s[l.nameEnd..l.end - 1]);
    } else {
      var (v, e) := l.value.value;
      ScanOwnOnly(s, i, l, v, e);
      p := Own(s[i + 1..l.nameEnd], s[l.nameEnd + 1..v], s[v..e]);
    }
  }

  lemma {:induction false} SkipPlain(s: string, from: nat, to: nat)
    requires from <= to <= |s| && '{' !in s[from..to]
    ensures FindAll(s, from) == FindAll(s, to)
    decreases |s| - from
  {
    if from < to {
      assert s[from..to][0] == s[from];
      assert s[from + 1..to] == s[from..to][1..];
      SkipPlain(s, from + 1, to);
    }
  }

  lemma TextFirst(s: string, from: nat, to: nat, locs: seq<Loc>)
    requires from < to && Ordered(locs, to, s)
    requires if locs == [] then to == |s| else locs[0].start == to
    ensures Ordered(locs, from, s)
    ensures PiecesFrom(s, locs, from) == [Plain(s[from..to])] + PiecesFrom(s, locs, to)
  {
    assert PlainBetween(s, to, to) == [];
    if locs != [] {
      var later := PiecesFrom(s, locs[1..], locs[0].end);
      assert PiecesFrom(s, locs, to) == [VarAt(s, locs[0])] + later;
      assert PiecesFrom(s, locs, from) == [Plain(s[from..to])] + [VarAt(s, locs[0])] + later;
    }
  }

  lemma SplitAt(s: string, from: nat, w: string, rest: string)
    requires from <= |s| && s[from..] == w + rest
    ensures from + |w| <= |s| && s[from..from + |w|] == w && s[from + |w|..] == rest
  {
    assert |s[from..]| == |s| - from;
    assert s[from..from + |w|] == s[from..][..|w|];
    assert s[from + |w|..] == s[from..][|w|..];
  }

  lemma FirstFound(s: string, from: nat, l: Loc)
    requires from < |s| && ScanVar(s, from) == Some(l)
    ensures LocIn(l, s) && FindAll(s, from) == [l] + FindAll(s, l.end)
    ensures PiecesFrom(s, FindAll(s, from), from) == [VarAt(s, l)] + PiecesFrom(s, FindAll(s, l.end), l.end)
  {
    hide ScanVar, VarAt;
    assert FindAll(s, from)[1..] == FindAll(s, l.end);
  }

  lemma NothingLeft(s: string, from: nat)
    requires from <= |s| && s[from..] == ""
    ensures from == |s| && FindAll(s, from) == [] && PiecesFrom(s, FindAll(s, from), from) == []
  {
    assert |s[from..]| == |s| - from;
  }

  /** The scan of `s` from `from` on finds exactly `parts`, and a leading variable right there. */
  predicate Finds(s: string, from: nat, parts: seq<Part>) {
    from <= |s| &&
    PiecesFrom(s, FindAll(s, from), from) == PiecesOf(parts) &&
    (parts == [] ==> from == |s| && FindAll(s, from) == []) &&
    (parts != [] && !parts[0].Text? ==> FindAll(s, from) != [] && FindAll(s, from)[0].start == from)
  }

  lemma FindsText(s: string, from: nat, parts: seq<Part>)
    requires parts != [] && parts[0].Text? && WellWritten(parts)
    requires var to := from + |parts[0].text|; Finds(s, to, parts[1..]) && s[from..to] == parts[0].text
    ensures Finds(s, from, parts)
  {
    hide FindAll, PiecesFrom, Ordered;
    var to := from + |parts[0].text|;
    SkipPlain(s, from, to);
    TextFirst(s, from, to, FindAll(s, to));
  }

  lemma ShownFits(s: string, from: nat, p: Part)
    requires !p.Text? && Stands(s, from, Shown(p))
    ensures from < from + |Shown(p)| <= |s|
  {
  }

  /** What the scan finds from `from` on begins with the variable `p`, written there. */
  predicate Leads(s: string, from: nat, p: Part) {
    var to := from + |Shown(p)|;
    && to <= |s| && FindAll(s, from) != [] && FindAll(s, from)[0].start == from
    && PiecesFrom(s, FindAll(s, from), from) == [PieceOf(p)] + PiecesFrom(s, FindAll(s, to), to)
  }

  lemma LeadsFrom(s: string, p: Part, l: Loc)
    requires !p.Text? && l.start < |s| && LocOf(p, l.start) == l && ScanVar(s, l.start) == Some(l) && VarAt(s, l) == PieceOf(p)
    ensures Leads(s, l.start, p)
  {
    hide PieceOf, Ordered, VarAt, ScanVar, Shown, PiecesFrom;
    ShownLength(p, l.start);
    FirstFound(s, l.start, l);
  }

  lemma VarFirst(s: string, from: nat, p: Part)
    requires IsVar(p) && Stands(s, from, Shown(p))
    ensures Leads(s, from, p)
  {
    assert !p.Text?;
    ShownFits(s, from, p);
    assert LocOf(p, from).start == from;
    hide IsVar, PieceOf, VarAt, ScanVar, Shown, Stands, LocOf, Leads;
    ScanShown(s, from, p);
    LeadsFrom(s, p, LocOf(p, from));
  }

  lemma FindsVar(s: string, from: nat, parts: seq<Part>)
    requires parts != [] && IsVar(parts[0]) && Stands(s, from, Shown(parts[0]))
    requires Finds(s, from + |Shown(parts[0])|, parts[1..])
    ensures Finds(s, from, parts)
  {
    hide FindAll, PiecesFrom, Ordered, IsVar, PieceOf, Shown, Stands;
    VarFirst(s, from, parts[0]);
  }

  /** Parsing what was written from parts finds exactly those parts. */
  lemma {:induction false} FindsWritten(s: string, from: nat, parts: seq<Part>)
    requires WellWritten(parts) && from <= |s| && s[from..] == Source(PiecesOf(parts))
    ensures Finds(s, from, parts)
    decreases |parts|, 1
  {
    if parts == [] {
      NothingLeft(s, from);
    } else {
      hide Finds, PieceOf, Shown;
      WrittenShown(parts[0]);
      var w, rest := Shown(parts[0]), Source(PiecesOf(parts[1..]));
      assert s[from..] == w + rest;
      FindsRest(s, from, parts, w, rest);
    }
  }

  lemma TextShown(t: string)
    ensures Shown(Text(t)) == t
  {
  }

  lemma WrittenShown(p: Part)
    ensures Written(PieceOf(p)) == Shown(p)
  {
  }

  lemma FindsRest(s: string, from: nat, parts: seq<Part>, w: string, rest: string)
    requires WellWritten(parts) && parts != [] && from <= |s| && s[from..] == w + rest
    requires w == Shown(parts[0]) && rest == Source(PiecesOf(parts[1..]))
    ensures Finds(s, from, parts)
    decreases |parts|, 0
  {
    hide Finds, PiecesOf, Source, Shown;
    SplitAt(s, from, w, rest);
    FindsWritten(s, from + |w|, parts[1..]);
    if parts[0].Text? {
      assert w == parts[0].text by { TextShown(parts[0].text); }
      FindsText(s, from, parts);
    } else {
      FindsVar(s, from, parts);
    }
  }

  // ----- the route -----

  /** The character class that a variable is meant to have. */
  function ClassMeant(p: Part, lib: Library): Option<CharClass> {
    if !p.Own? || p.pat == "" || p.pat == "[^/]+" then Some(NoneOf({'/'})) else lib(p.pat)
  }

  /** The regexp library knows every pattern. */
  predicate Known(parts: seq<Part>, lib: Library) {
    forall k :: 0 <= k < |parts| ==> ClassMeant(parts[k], lib).Some?
  }

  function ItemsOf(parts: seq<Part>, lib: Library): (items: seq<Item>)
    requires Known(parts, lib)
    ensures |items| == |parts|
    ensures forall k :: 0 <= k < |parts| ==>
      items[k] == if parts[k].Text? then Lit(parts[k].text) else Group(ClassMeant(parts[k], lib).value)
  {
    seq(|parts|, k requires 0 <= k < |parts| =>
      if parts[k].Text? then Lit(parts[k].text) else Group(ClassMeant(parts[k], lib).value))
  }

  function NamesIn(parts: seq<Part>): seq<string> {
    if parts == [] then []
    else if parts[0].Text? then NamesIn(parts[1..]) else [parts[0].name] + NamesIn(parts[1..])
  }

  /** The literal text that the route starts with. */
  function FirstText(parts: seq<Part>): string {
    if parts != [] && parts[0].Text? then parts[0].text else ""
  }

  lemma {:induction false} CompileWritten(parts: seq<Part>, lib: Library)
    ensures VarNames(PiecesOf(parts)) == NamesIn(parts)
    ensures Compile(SyntaxOf(PiecesOf(parts)), lib) == if Known(parts, lib) then Some(ItemsOf(parts, lib)) else None
  {
    if parts != [] {
      var rest := parts[1..];
      CompileWritten(rest, lib);
      assert SyntaxOf(PiecesOf(parts))[1..] == SyntaxOf(PiecesOf(rest));
      KnownCons(parts, lib);
    }
  }

  lemma KnownCons(parts: seq<Part>, lib: Library)
    requires parts != []
    ensures Known(parts, lib) <==> ClassMeant(parts[0], lib).Some? && Known(parts[1..], lib)
    ensures Known(parts, lib) ==>
      ItemsOf(parts, lib) ==
      [if parts[0].Text? then Lit(parts[0].text) else Group(ClassMeant(parts[0], lib).value)] + ItemsOf(parts[1..], lib)
  {
    assert forall k :: 0 < k < |parts| ==> parts[k] == parts[1..][k - 1];
  }

  lemma FirstTextOfPieces(parts: seq<Part>)
    ensures EntryPrefixOf(PiecesOf(parts)) == FirstText(parts)
  {
  }

  /** A rooted, trimmed pattern is its own path part. */
  lemma RootedPattern(s: string)
    requires s != "" && s[0] == '/' && !IsSpace(s[|s| - 1])
    ensures Trim(s, IsSpace) == s && CondTokens(s) == [] && PathPart(s) == s && '/' in s
    ensures CondsOk([]) && CondsOf([]) == {}
  {
    TrimTail(s, "");
    assert s + "" == s;
    hide Trim;
    NoConditions(s);
  }

  /** How a pattern ends: as it is, or with the `!` that keeps it from being a prefix. */
  function WithMark(s: string, marked: bool): string {
    if marked then s + "!" else s
  }

  predicate IsPrefixText(s: string, marked: bool) {
    !marked && EndsInSlash(s)
  }

  lemma MarkedPattern(s: string, marked: bool)
    requires s != "" && s[0] == '/' && (marked || (s[|s| - 1] != '!' && !IsSpace(s[|s| - 1])))
    ensures var t := WithMark(s, marked);
      t != "" && t[0] == '/' && !IsSpace(t[|t| - 1]) && Unmarked(t) == s && (EndsInSlash(t) <==> IsPrefixText(s, marked))
  {
  }

  function PatternText(parts: seq<Part>, marked: bool): string {
    WithMark(Source(PiecesOf(parts)), marked)
  }

  /**
   * A rooted pattern. Text that ends in `!` or in white space must be marked, as the unmarked text means
   * another pattern.
   */
  predicate RootedParts(parts: seq<Part>, marked: bool) {
    var s := Source(PiecesOf(parts));
    WellWritten(parts) && s != "" && s[0] == '/' && (marked || (s[|s| - 1] != '!' && !IsSpace(s[|s| - 1])))
  }

  /** The route meant by the parts; None when a name is repeated or the library rejects a pattern. */
  function Meant(parts: seq<Part>, marked: bool, lib: Library): Option<Compiled> {
    var isPrefix := IsPrefixText(Source(PiecesOf(parts)), marked);
    if NamesIn(parts) == [] then Some(Compiled({}, None, map[], FirstText(parts), isPrefix))
    else if !DistinctNames(NamesIn(parts)) || !Known(parts, lib) then None
    else Some(Compiled({}, Some(Regex(ItemsOf(parts, lib), !isPrefix)), VarIndex(NamesIn(parts)), FirstText(parts), isPrefix))
  }

  /** Parsing a written pattern gives the route that was meant. */
  lemma WrittenParsed(parts: seq<Part>, marked: bool, lib: Library)
    requires RootedParts(parts, marked)
    ensures Parsed(PatternText(parts, marked), false, lib) == Meant(parts, marked, lib)
  {
    hide FindAll, PiecesFrom, PiecesOf, Source, ItemsOf, NamesIn, Compile, SyntaxOf, VarNames, Trim, WellWritten, Known;
    hide CondTokens, CondsOk, CondsOf, PathPart, Unmarked, Parsed, EndsInSlash, DistinctNames, FirstText, EntryPrefixOf;
    var s := Source(PiecesOf(parts));
    MarkedPattern(s, marked);
    RootedPattern(PatternText(parts, marked));
    assert s[0..] == s;
    FindsWritten(s, 0, parts);
    CompileWritten(parts, lib);
    FirstTextOfPieces(parts);
    ParsedIs(PatternText(parts, marked), false, lib);
  }

  /** The pattern with its variables replaced by values. */
  function FillIn(parts: seq<Part>, values: seq<string>): string
    requires |values| == |NamesIn(parts)|
  {
    if parts == [] then ""
    else match parts[0]
      case Text(t) => t + FillIn(parts[1..], values)
      case _ => values[0] + FillIn(parts[1..], values[1..])
  }

  /** One non-empty value for every variable, of its class. */
  predicate Suit(parts: seq<Part>, lib: Library, values: seq<string>)
    requires Known(parts, lib)
  {
    if parts == [] then values == []
    else
      KnownCons(parts, lib);
      match parts[0]
      case Text(_) => Suit(parts[1..], lib, values)
      case _ =>
        && values != [] && values[0] != "" && Suit(parts[1..], lib, values[1..])
        && forall c :: c in values[0] ==> ClassMeant(parts[0], lib).value.Has(c)
  }

  /** Every variable is followed by text that starts outside its class, as with `/`, or ends the pattern. */
  predicate Separated(parts: seq<Part>, lib: Library)
    requires Known(parts, lib)
  {
    parts == [] || (
      KnownCons(parts, lib);
      && Separated(parts[1..], lib)
      && (!parts[0].Text? && 1 < |parts| ==>
            parts[1].Text? && parts[1].text != "" && !ClassMeant(parts[0], lib).value.Has(parts[1].text[0])))
  }

  /** Default variables, each followed by text that starts with a slash, or last. */
  predicate SlashSeparated(parts: seq<Part>) {
    parts == [] || (
      && SlashSeparated(parts[1..])
      && (parts[0].Own? ==> parts[0].pat == "" || parts[0].pat == "[^/]+")
      && (!parts[0].Text? && 1 < |parts| ==> parts[1].Text? && parts[1].text != "" && parts[1].text[0] == '/'))
  }

  /** In the default case any values that are not empty and have no slash will do. */
  lemma {:induction false} SlashFreeSuits(parts: seq<Part>, lib: Library, values: seq<string>)
    requires SlashSeparated(parts) && |values| == |NamesIn(parts)|
    requires forall k :: 0 <= k < |values| ==> values[k] != "" && '/' !in values[k]
    ensures Known(parts, lib) && Separated(parts, lib) && Suit(parts, lib, values)
  {
    if parts != [] {
      SlashFreeSuits(parts[1..], lib, if parts[0].Text? then values else values[1..]);
      KnownCons(parts, lib);
    }
  }

  lemma {:induction false} SeparatedItems(parts: seq<Part>, lib: Library)
    requires Known(parts, lib) && Separated(parts, lib)
    ensures Delimited(ItemsOf(parts, lib))
  {
    if parts != [] {
      KnownCons(parts, lib);
      SeparatedItems(parts[1..], lib);
    }
  }

  lemma {:induction false} FillInItems(parts: seq<Part>, lib: Library, values: seq<string>)
    requires Known(parts, lib) && Suit(parts, lib, values)
    ensures |values| == |NamesIn(parts)| && Fits(ItemsOf(parts, lib), values)
    ensures FillIn(parts, values) == Substitute(ItemsOf(parts, lib), values)
  {
    if parts != [] {
      KnownCons(parts, lib);
      FillInItems(parts[1..], lib, if parts[0].Text? then values else values[1..]);
    }
  }

  /** The route matches `path` and hands out `values` under `names`. */
  predicate Yields(c: Compiled, path: string, names: seq<string>, values: seq<string>) {
    && c.pattern.Some?
    && Find(c.pattern.value.items, path, c.pattern.value.toEnd) == Some(values)
    && |values| == |names| == |c.vars|
    && forall i :: 0 <= i < |names| ==> names[i] in c.vars && c.vars[names[i]] == i
  }

  /**
   * Substitute-then-match: fill the variables of a written pattern with any values of their classes. The
   * parsed pattern matches the result, whatever follows it when the pattern is a prefix, and yields
   * exactly those values, each under its variable's name.
   */
  lemma SubstituteRoundTrip(parts: seq<Part>, marked: bool, values: seq<string>, tail: string, lib: Library)
    requires RootedParts(parts, marked) && NamesIn(parts) != [] && DistinctNames(NamesIn(parts)) && "_" !in NamesIn(parts)
    requires Known(parts, lib) && Separated(parts, lib) && Suit(parts, lib, values)
    requires tail != "" ==> IsPrefixText(Source(PiecesOf(parts)), marked)
    ensures var c := Parsed(PatternText(parts, marked), false, lib);
      && |values| == |NamesIn(parts)|
      && c.Some? && Yields(c.value, FillIn(parts, values) + tail, NamesIn(parts), values)
  {
    hide Parsed, Find, Substitute, Fits, PiecesOf, Source, Suit, Separated, Known, ItemsOf, Delimited, WellWritten, NamesIn;
    WrittenParsed(parts, marked, lib);
    SeparatedItems(parts, lib);
    FillInItems(parts, lib, values);
    LastPartIsText(parts);
    var isPrefix := IsPrefixText(Source(PiecesOf(parts)), marked);
    SomeParts(parts);
    FindSubstituted(ItemsOf(parts, lib), values, tail, !isPrefix);
    VarIndexBijection(NamesIn(parts));
  }

  /**
   * A pattern without variables: its route accepts exactly its path, or everything that starts with it
   * when it ends in a slash without a mark, and hands out no values.
   */
  lemma PlainRoundTrip(parts: seq<Part>, marked: bool, lib: Library, requested: CondFlags, path: string)
    requires RootedParts(parts, marked) && NamesIn(parts) == []
    ensures var s := Source(PiecesOf(parts));
      var c := Parsed(PatternText(parts, marked), false, lib);
      && c.Some?
      && Try(c.value, requested, path) ==
        if s == path || (!marked && s[|s| - 1] == '/' && HasPrefix(path, s)) then Some([]) else None
  {
    hide Parsed, WellWritten;
    WrittenParsed(parts, marked, lib);
    OnlyText(parts);
  }

  lemma TwoPartsName(parts: seq<Part>)
    requires WellWritten(parts) && |parts| > 1
    ensures NamesIn(parts) != []
  {
    assert parts[0].Text? ==> NamesIn(parts) == NamesIn(parts[1..]);
  }

  lemma OnlyText(parts: seq<Part>)
    requires WellWritten(parts) && NamesIn(parts) == [] && Source(PiecesOf(parts)) != ""
    ensures FirstText(parts) == Source(PiecesOf(parts))
  {
    if parts != [] { TextAlone(parts); }
  }

  lemma TextAlone(parts: seq<Part>)
    requires WellWritten(parts) && NamesIn(parts) == [] && parts != []
    ensures FirstText(parts) == Source(PiecesOf(parts))
  {
    assert |parts| == 1 by {
      if |parts| > 1 { TwoPartsName(parts); }
    }
    LonePart(parts);
  }

  lemma SomeParts(parts: seq<Part>)
    ensures NamesIn(parts) != [] ==> parts != []
  {
  }

  lemma SourceCons(parts: seq<Part>)
    requires parts != []
    ensures Source(PiecesOf(parts)) == Shown(parts[0]) + Source(PiecesOf(parts[1..]))
  {
    WrittenShown(parts[0]);
    assert PiecesOf(parts)[1..] == PiecesOf(parts[1..]);
  }

  lemma EndsLike(w: string, r: string)
    requires r != ""
    ensures EndsInSlash(w + r) == EndsInSlash(r)
  {
    assert (w + r)[|w + r| - 1] == r[|r| - 1];
  }

  lemma VarEndsInBrace(p: Part)
    requires !p.Text?
    ensures !EndsInSlash(Shown(p))
  {
  }

  lemma {:induction false} LastPartIsText(parts: seq<Part>)
    requires parts != [] && WellWritten(parts)
    ensures EndsInSlash(Source(PiecesOf(parts))) ==> parts[|parts| - 1].Text?
  {
    hide Shown, PiecesOf, Source, EndsInSlash;
    if |parts| == 1 {
      LonePart(parts);
      if !parts[0].Text? { VarEndsInBrace(parts[0]); }
    } else {
      LastPartIsText(parts[1..]);
      SourceCons(parts);
      SourceNotEmpty(parts[1..]);
      EndsLike(Shown(parts[0]), Source(PiecesOf(parts[1..])));
    }
  }

  lemma LonePart(parts: seq<Part>)
    requires |parts| == 1
    ensures Source(PiecesOf(parts)) == Shown(parts[0])
  {
    WrittenShown(parts[0]);
    assert PiecesOf(parts[1..]) == [] && PiecesOf(parts) == [PieceOf(parts[0])];
    assert Source([PieceOf(parts[0])][1..]) == "";
  }

  lemma SourceNotEmpty(parts: seq<Part>)
    requires parts != [] && WellWritten(parts)
    ensures Source(PiecesOf(parts)) != ""
  {
    WrittenShown(parts[0]);
    assert Shown(parts[0]) != "";
  }
}
