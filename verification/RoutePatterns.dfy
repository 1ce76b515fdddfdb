/** What parsing a route pattern promises: segmentation, variable numbering, what is accepted, and where the path part starts. */
module RoutePatterns {
  import opened Strings
  import opened Cond
  import opened Regexp
  import opened Route

  // ----- segmentation -----

  /** `p` lies inside one of the variables found. */
  predicate Covered(locs: seq<Loc>, p: nat) {
    locs != [] && (locs[0].start <= p < locs[0].end || Covered(locs[1..], p))
  }

  /** The scan misses no variable: outside those found, none starts. */
  lemma {:induction false} FindAllComplete(s: string, from: nat, p: nat)
    requires from <= p < |s| && !Covered(FindAll(s, from), p)
    ensures ScanVar(s, p).None?
    decreases |s| - from
  {
    hide ScanVar, Ordered;
    var r := ScanVar(s, from);
    if r.Some? {
      FindAllComplete(s, r.value.end, p);
    } else if from < p {
      FindAllComplete(s, from + 1, p);
    }
  }

  /** Each position is where a variable starts, with exactly these bounds. */
  predicate AllMatch(s: string, locs: seq<Loc>) {
    locs == [] || (locs[0].start < |s| && ScanVar(s, locs[0].start) == Some(locs[0]) && AllMatch(s, locs[1..]))
  }

  /** Everything found is a variable, at the place where it is reported. */
  lemma {:induction false} FindAllSound(s: string, from: nat)
    requires from <= |s|
    ensures AllMatch(s, FindAll(s, from))
    decreases |s| - from
  {
    if from < |s| {
      var r := ScanVar(s, from);
      FindAllSound(s, if r.Some? then r.value.end else from + 1);
      if r.Some? { assert FindAll(s, from)[1..] == FindAll(s, r.value.end); }
    }
  }

  lemma {:induction false} SourceConcat(a: seq<Piece>, b: seq<Piece>)
    ensures Source(a + b) == Source(a) + Source(b)
  {
    hide Written;
    if a == [] {
      assert a + b == b;
    } else {
      SourceConcat(a[1..], b);
      assert (a + b)[0] == a[0] && (a + b)[1..] == a[1..] + b;
      Assoc(Written(a[0]), Source(a[1..]), Source(b));
    }
  }

  lemma {:induction false} PiecesFromSource(s: string, locs: seq<Loc>, from: nat)
    requires Ordered(locs, from, s)
    ensures Source(PiecesFrom(s, locs, from)) == s[from..]
  {
    if locs == [] {
      assert s[from..|s|] == s[from..];
    } else {
      var start, end := locs[0].start, locs[0].end;
      var plain, v := PlainBetween(s, from, start), VarAt(s, locs[0]);
      PiecesFromSource(s, locs[1..], end);
      SourceConcat(plain, [v]);
      SourceConcat(plain + [v], PiecesFrom(s, locs[1..], end));
      assert Source(plain) == s[from..start];
      assert Source([v]) == s[start..end];
      Cut3(s, from, start, end);
    }
  }

  lemma Cut3(s: string, a: nat, b: nat, c: nat)
    requires a <= b <= c <= |s|
    ensures s[a..b] + s[b..c] + s[c..] == s[a..]
  {
  }

  /** Plain chunks and variable chunks concatenate to the whole path pattern. */
  lemma SegmentationCovers(s: string)
    ensures Source(Pieces(s)) == s
  {
    PiecesFromSource(s, FindAll(s, 0), 0);
  }

  // ----- compiled routes -----

  lemma {:induction false} CompileShape(ps: seq<Piece>, lib: Library)
    requires Compile(SyntaxOf(ps), lib).Some?
    ensures var items := Compile(SyntaxOf(ps), lib).value;
      && |items| == |ps|
      && Groups(items) == |VarNames(ps)|
      && forall k :: 0 <= k < |ps| ==>
           items[k].Lit? == ps[k].Plain? && (ps[k].Plain? ==> items[k].text == ps[k].text)
  {
    if ps != [] {
      assert SyntaxOf(ps)[1..] == SyntaxOf(ps[1..]);
      CompileShape(ps[1..], lib);
    }
  }

  /** The table numbers the named variables injectively, and all of them when none is called `_`. */
  lemma VarIndexBijection(names: seq<string>)
    requires DistinctNames(names)
    ensures forall n :: n in VarIndex(names) <==> n in names && n != "_"
    ensures forall n :: n in VarIndex(names) ==> VarIndex(names)[n] < |names| && names[VarIndex(names)[n]] == n
    ensures |VarIndex(names)| <= |names|
    ensures |VarIndex(names)| == |names| <==> "_" !in names
  {
    VarIndexSize(names);
  }

  lemma {:induction false} VarIndexSize(names: seq<string>)
    requires DistinctNames(names)
    ensures |VarIndex(names)| <= |names|
    ensures |VarIndex(names)| == |names| <==> "_" !in names
  {
    if names != [] {
      var init, last := names[..|names| - 1], names[|names| - 1];
      assert names == init + [last];
      DistinctPrefix(init, [last]);
      VarIndexSize(init);
      VarIndexSnoc(init, last);
      if last != "_" {
        var m := VarIndex(init);
        assert m[last := |init|].Keys == m.Keys + {last};
      }
    }
  }

  /** What every successfully parsed route satisfies. */
  predicate WellFormed(c: Compiled) {
    match c.pattern
    case None => c.vars == map[] && c.entryPrefix != ""
    case Some(re) =>
      && re.toEnd == !c.isPrefix
      && c.entryPrefix == (if re.items != [] && re.items[0].Lit? then re.items[0].text else "")
      && |c.vars| <= Groups(re.items)
      && (forall n :: n in c.vars ==> c.vars[n] < Groups(re.items))
      && (forall m, n :: m in c.vars && n in c.vars && c.vars[m] == c.vars[n] ==> m == n)
  }

  lemma ParsedWellFormed(pattern: string, wasPrefix: bool, lib: Library)
    requires Parsed(pattern, wasPrefix, lib).Some?
    ensures WellFormed(Parsed(pattern, wasPrefix, lib).value)
  {
    var t := Trim(pattern, IsSpace);
    var ps, c := PatternPieces(t), Parsed(pattern, wasPrefix, lib).value;
    UnmarkedNotEmpty(t);
    SegmentationCovers(Unmarked(PathPart(t)));
    if VarNames(ps) != [] {
      CompileShape(ps, lib);
      VarIndexBijection(VarNames(ps));
    } else {
      NoVarsOnePlain(Unmarked(PathPart(t)));
    }
  }

  lemma UnmarkedNotEmpty(t: string)
    requires '/' in t
    ensures '/' in Unmarked(PathPart(t))
  {
    var i := IndexOf(t, '/');
    var k :| 0 <= k < |t| && t[k] == '/';
    var p := PathPart(t);
    if CondString(t) != "" { assert p[0] == '/'; } else { assert p[i] == '/'; }
    var j :| 0 <= j < |p| && p[j] == '/';
    assert Unmarked(p)[j] == '/';
  }

  lemma NoVarsOnePlain(s: string)
    requires s != "" && VarNames(Pieces(s)) == []
    ensures EntryPrefixOf(Pieces(s)) == s
  {
    var locs := FindAll(s, 0);
    if locs != [] {
      var plain, v, next := PiecesStep(s, locs, 0, 0, []);
      PieceSnoc([], plain, v);
      assert locs[0..] == locs;
      VarNamesConcat(next, PiecesFrom(s, locs[1..], locs[0].end));
    } else {
      assert s[0..|s|] == s;
    }
  }

  /** Every variable's own pattern is one that the regexp library accepts. */
  predicate AllCompile(ps: seq<Piece>, lib: Library) {
    forall k :: 0 <= k < |ps| && ps[k].VarPiece? ==> ClassOf(ps[k].pat, lib).Some?
  }

  lemma {:induction false} CompilesIff(ps: seq<Piece>, lib: Library)
    ensures Compile(SyntaxOf(ps), lib).Some? <==> AllCompile(ps, lib)
  {
    if ps != [] {
      var rest := ps[1..];
      assert SyntaxOf(ps)[1..] == SyntaxOf(rest);
      CompilesIff(rest, lib);
      assert forall k :: 0 <= k < |rest| ==> rest[k] == ps[k + 1];
      if AllCompile(rest, lib) && (ps[0].VarPiece? ==> ClassOf(ps[0].pat, lib).Some?) {
        forall k | 0 <= k < |ps| && ps[k].VarPiece? ensures ClassOf(ps[k].pat, lib).Some? {
          assert k > 0 ==> ps[k] == rest[k - 1];
        }
      }
    }
  }

  lemma {:induction false} NoNamesNoVars(ps: seq<Piece>)
    requires VarNames(ps) == []
    ensures forall k :: 0 <= k < |ps| ==> ps[k].Plain?
  {
    if ps != [] {
      NoNamesNoVars(ps[1..]);
      assert forall k :: 0 < k < |ps| ==> ps[k] == ps[1..][k - 1];
    }
  }

  /**
   * A pattern is accepted exactly when it has a slash, its conditions are valid, no name but `_` occurs
   * twice among its variables, and the regexp library accepts every variable's pattern.
   */
  lemma AcceptedExactly(pattern: string, wasPrefix: bool, lib: Library)
    ensures var t := Trim(pattern, IsSpace);
      Parsed(pattern, wasPrefix, lib).Some? <==>
        && '/' in t
        && (CondTokens(t) == ["*"] || AllValid(CondTokens(t)))
        && DistinctNames(VarNames(PatternPieces(t)))
        && AllCompile(PatternPieces(t), lib)
  {
    var ps := PatternPieces(Trim(pattern, IsSpace));
    CompilesIff(ps, lib);
    if VarNames(ps) == [] { NoNamesNoVars(ps); }
  }

  /** The path part starts with its slash, unless separators without a condition precede it. */
  lemma PathPartRooted(t: string)
    requires '/' in t
    ensures PathPart(t)[..1] == "/" <==> CondString(t) != "" || t[0] == '/'
  {
    var k :| 0 <= k < |t| && t[k] == '/';
    assert t != "";
  }
}
