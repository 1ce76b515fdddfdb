/** The router: an ordered table of routes below a base path, searched for the first match (route/router.go, route/match.go). */
module Router {
  import opened Strings
  import opened Cond
  import opened Regexp
  import opened Route
  import opened RoutePatterns

  // ----- what a route accepts -----

  /** No conditions, or one in common with the request. */
  predicate CondsAccept(c: Compiled, conds: CondFlags) {
    c.conditions == {} || c.conditions * conds != {}
  }

  /**
   * The paths of a route. Without variables: a fixed path, or everything below a prefix. With variables:
   * some decomposition exists, and no variable is called `_` (their values would outnumber the names).
   */
  ghost predicate PathAccepted(c: Compiled, path: string) {
    match c.pattern
    case None => if c.isPrefix then HasPrefix(path, c.entryPrefix) else path == c.entryPrefix
    case Some(re) =>
      |c.vars| == Groups(re.items) && exists vs :: Decomposes(re.items, vs, path, re.toEnd)
  }

  ghost predicate Accepts(c: Compiled, conds: CondFlags, path: string) {
    CondsAccept(c, conds) && PathAccepted(c, path)
  }

  /** The captured values are a decomposition of the path, the greediest one. */
  ghost predicate Captures(c: Compiled, path: string, values: seq<string>) {
    match c.pattern
    case None => values == []
    case Some(re) =>
      && Decomposes(re.items, values, path, re.toEnd)
      && forall ws :: Decomposes(re.items, ws, path, re.toEnd) ==> AtLeastAsGreedy(values, ws)
  }

  /** The body of the scan for one route: the two filters, then the exact test. */
  function Try(c: Compiled, conds: CondFlags, path: string): Option<seq<string>> {
    if !CondsAccept(c, conds) then None
    else if c.entryPrefix != "" && !HasPrefix(path, c.entryPrefix) then None
    else match c.pattern
      case None => if c.isPrefix || path == c.entryPrefix then Some([]) else None
      case Some(re) =>
        var values := Find(re.items, path, re.toEnd);
        if values.Some? && 1 + |values.value| == 1 + |c.vars| then values else None
  }

  /** A literal first item is a prefix of every path that decomposes. */
  lemma EntryPrefixSound(c: Compiled, vs: seq<string>, path: string)
    requires WellFormed(c) && c.pattern.Some? && Decomposes(c.pattern.value.items, vs, path, c.pattern.value.toEnd)
    ensures HasPrefix(path, c.entryPrefix)
  {
    var re := c.pattern.value;
    if c.entryPrefix != "" { DecomposesStep(re.items, vs, path, re.toEnd); }
  }

  /** Dropping the entry-prefix filter never changes what a route with variables answers. */
  lemma EntryPrefixFilterSound(c: Compiled, conds: CondFlags, path: string)
    requires WellFormed(c) && c.pattern.Some?
    ensures Try(c, conds, path) == Try(c.(entryPrefix := ""), conds, path)
  {
    var re := c.pattern.value;
    FindCorrect(re.items, path, re.toEnd);
    var r := Find(re.items, path, re.toEnd);
    if r.Some? { EntryPrefixSound(c, r.value, path); }
  }

  /** The test in the scan accepts exactly the route's paths and hands out the greediest captures. */
  lemma TryCorrect(c: Compiled, conds: CondFlags, path: string)
    requires WellFormed(c)
    ensures Try(c, conds, path).Some? <==> Accepts(c, conds, path)
    ensures Try(c, conds, path).Some? ==> Captures(c, path, Try(c, conds, path).value)
    ensures Try(c, conds, path).Some? ==> forall n :: n in c.vars ==> c.vars[n] < |Try(c, conds, path).value|
  {
    if c.pattern.Some? {
      var re := c.pattern.value;
      EntryPrefixFilterSound(c, conds, path);
      FindCorrect(re.items, path, re.toEnd);
      var r := Find(re.items, path, re.toEnd);
      if r.Some? { FitsCount(re.items, r.value); }
      if vs :| Decomposes(re.items, vs, path, re.toEnd) { FitsCount(re.items, vs); }
    }
  }

  /**
   * The test on the number of values lets a route with variables accept exactly the decomposable paths,
   * unless one of its variables is called `_`: such a route matches nothing at all.
   */
  lemma UnderscoreExact(pattern: string, wasPrefix: bool, lib: Library, conds: CondFlags, path: string)
    requires Parsed(pattern, wasPrefix, lib).Some? && Parsed(pattern, wasPrefix, lib).value.pattern.Some?
    ensures var c := Parsed(pattern, wasPrefix, lib).value;
      Try(c, conds, path).Some? <==>
        && "_" !in VarNames(PatternPieces(Trim(pattern, IsSpace)))
        && CondsAccept(c, conds)
        && exists vs :: Decomposes(c.pattern.value.items, vs, path, c.pattern.value.toEnd)
  {
    var c := Parsed(pattern, wasPrefix, lib).value;
    var ps := PatternPieces(Trim(pattern, IsSpace));
    ParsedWellFormed(pattern, wasPrefix, lib);
    VarIndexBijection(VarNames(ps));
    CompileShape(ps, lib);
    TryCorrect(c, conds, path);
  }

  // ----- first match -----

  datatype MatchError = OutsideBasePath

  /** `index` is the first route that accepts the request; None when there is none. */
  ghost predicate IsFirst(table: seq<Compiled>, conds: CondFlags, path: string, index: Option<nat>) {
    match index
    case None => forall i :: 0 <= i < |table| ==> !Accepts(table[i], conds, path)
    case Some(k) =>
      && k < |table| && Accepts(table[k], conds, path)
      && forall i :: 0 <= i < k ==> !Accepts(table[i], conds, path)
  }

  /** Appending a route keeps the first match of every request that had one. */
  lemma FirstMatchStable(table: seq<Compiled>, more: seq<Compiled>, conds: CondFlags, path: string, k: nat)
    requires IsFirst(table, conds, path, Some(k))
    ensures IsFirst(table + more, conds, path, Some(k))
    ensures forall j: Option<nat> :: IsFirst(table + more, conds, path, j) ==> j == Some(k)
  {
    var all := table + more;
    forall j: Option<nat> | IsFirst(all, conds, path, j) ensures j == Some(k) {
      assert all[k] == table[k];
      assert j.Some? && j.value <= k;
      assert all[j.value] == table[j.value];
    }
  }

  // ----- base path -----

  /** Empty, or starts but does not end with a slash. */
  predicate NormalBase(base: string) {
    base == "" || (base[0] == '/' && base[|base| - 1] != '/')
  }

  predicate IsSlash(c: char) {
    c == '/'
  }

  /** What one Add does to the base path. */
  function AdjustBase(base: string): string {
    if base == "" || base == "/" then ""
    else if base[0] != '/' then "/" + base
    else TrimRight(base, IsSlash)
  }

  /**
   * One Add normalises every base path but those that lack the leading slash and have a trailing one; it
   * only takes slashes off the end, or puts the missing one in front.
   */
  lemma AdjustOnce(base: string)
    ensures NormalBase(AdjustBase(base)) <==> base == "" || base[0] == '/' || base[|base| - 1] != '/'
    ensures NormalBase(base) ==> AdjustBase(base) == base
    ensures base != "" && base[0] == '/' ==>
      HasPrefix(base, AdjustBase(base)) && forall k :: |AdjustBase(base)| <= k < |base| ==> base[k] == '/'
    ensures base != "" && base[0] != '/' ==> AdjustBase(base) == "/" + base
  {
    var t := TrimRight(base, IsSlash);
    assert t != "" ==> t[0] == base[0] && t[|t| - 1] == base[|t| - 1];
    assert base != "" ==> ("/" + base)[|base|] == base[|base| - 1];
  }

  /** Two Adds reach the normal form from any base path, and every later Add keeps it. */
  lemma AdjustTwice(base: string)
    ensures var b := AdjustBase(AdjustBase(base)); NormalBase(b) && AdjustBase(b) == b
  {
    AdjustOnce(base);
    AdjustOnce(AdjustBase(base));
    AdjustOnce(AdjustBase(AdjustBase(base)));
    assert base != "" && base[0] != '/' ==> AdjustBase(base)[0] == '/';
  }

  // ----- the objects -----

  /** A match refers to its route, as in Go through a pointer. */
  class Match {
    const route: Route
    const Path: string
    const values: seq<string>

    constructor (route: Route, path: string, values: seq<string>)
      ensures this.route == route && this.Path == path && this.values == values
    {
      this.route, this.Path, this.values := route, path, values;
    }

    /** Every index in the route's table is a position in the values. */
    ghost predicate Valid()
      reads this, route
    {
      forall n :: n in route.Vars ==> route.Vars[n] < |values|
    }

    /** All variable names and values. */
    method Variables() returns (kv: map<string, string>)
      requires Valid()
      ensures kv.Keys == route.Vars.Keys
      ensures forall n :: n in kv ==> kv[n] == values[route.Vars[n]]
    {
      kv := map[];
      var names := route.Vars.Keys;
      while names != {}
        invariant names <= route.Vars.Keys
        invariant kv.Keys == route.Vars.Keys - names
        invariant forall n :: n in kv ==> kv[n] == values[route.Vars[n]]
        decreases |names|
      {
        var name :| name in names;
        kv := kv[name := values[route.Vars[name]]];
        names := names - {name};
      }
    }

    /** The value of one variable, or the fallback. */
    method Var(name: string, fallback: string) returns (v: string)
      requires Valid()
      ensures v == if name in route.Vars then values[route.Vars[name]] else fallback
    {
      if name in route.Vars {
        return values[route.Vars[name]];
      }
      return fallback;
    }
  }

  class Router {
    var BasePath: string
    var Routes: seq<Route>

    constructor (base: string)
      ensures BasePath == base && Routes == [] && Valid()
    {
      BasePath, Routes := base, [];
    }

    function Table(): seq<Compiled>
      reads this, Routes
    {
      seq(|Routes|, i requires 0 <= i < |Routes| reads this, Routes => Routes[i].Value())
    }

    ghost predicate Valid()
      reads this, Routes
    {
      && (forall i, j :: 0 <= i < j < |Routes| ==> Routes[i] != Routes[j])
      && forall i :: 0 <= i < |Routes| ==> WellFormed(Routes[i].Value())
    }

    /** The generic checks that Add starts with. */
    method NormalizeBasePath()
      modifies this`BasePath
      ensures BasePath == AdjustBase(old(BasePath))
    {
      if |BasePath| > 0 {
        if BasePath == "/" {
          BasePath := "";
        } else if BasePath[0] != '/' {
          BasePath := "/" + BasePath;
        } else {
          var i := |BasePath| - 1;
          while i >= 0 && BasePath[i] == '/'
            invariant -1 <= i < |old(BasePath)| && BasePath == old(BasePath)[..i + 1]
            invariant forall k :: i < k < |old(BasePath)| ==> old(BasePath)[k] == '/'
          {
            BasePath := BasePath[..i];
            i := i - 1;
          }
          TrimRightIs(old(BasePath), i + 1);
        }
      }
    }

    /** Adds a route at the end; a pattern that is rejected leaves the table as it was. */
    method Add(pattern: string, handler: int, lib: Library) returns (r: Route?, err: Option<ParseError>)
      requires Valid()
      modifies this
      ensures Valid() && BasePath == AdjustBase(old(BasePath))
      ensures (r == null) == err.Some? == Parsed(pattern, false, lib).None?
      ensures r == null ==> Routes == old(Routes) && Fault(Trim(pattern, IsSpace), lib, err.value)
      ensures r != null ==> fresh(r) && Routes == old(Routes) + [r] && r.Handler == handler
      ensures r != null ==> r.Value() == Parsed(pattern, false, lib).value
    {
      hide Parsed, WellFormed, AdjustBase, Fault;
      ghost var before := Routes;
      NormalizeBasePath();

      var route := new Route();
      Routes := Routes + [route];
      err := route.Parse(pattern, lib);
      assert forall i :: 0 <= i < |before| ==> before[i] != route && WellFormed(before[i].Value());
      if err.Some? {
        Routes := Routes[..|Routes| - 1];
        assert Routes == before;
        return null, err;
      }
      ParsedWellFormed(pattern, false, lib);
      route.Handler := handler;
      return route, None;
    }

    /** The first route in table order that accepts the request below the base path. */
    method Match(conds: CondFlags, requested: string) returns (m: Match?, err: Option<MatchError>)
      requires Valid()
      ensures err.Some? <==> !HasPrefix(requested, BasePath)
      ensures err.Some? ==> m == null
      ensures err.None? && m == null ==> IsFirst(Table(), conds, requested[|BasePath|..], None)
      ensures m != null ==> fresh(m) && m.Valid() && BasePath + m.Path == requested
      ensures m != null ==> exists k: nat :: IsFirst(Table(), conds, m.Path, Some(k)) && m.route == Routes[k]
      ensures m != null ==> Captures(m.route.Value(), m.Path, m.values)
    {
      hide Accepts, Captures, WellFormed, PathAccepted;
      var path := requested;
      if |BasePath| > 0 {
        if !HasPrefix(path, BasePath) {
          return null, Some(OutsideBasePath);
        }
        path := path[|BasePath|..];
      }
      var i := 0;
      while i < |Routes|
        invariant 0 <= i <= |Routes|
        invariant forall k :: 0 <= k < i ==> !Accepts(Routes[k].Value(), conds, path)
      {
        var route := Routes[i];
        TryCorrect(route.Value(), conds, path);
        i := i + 1;
        if route.Conditions != {} && route.Conditions * conds == {} {
          continue;
        }
        if |route.EntryPrefix| > 0 && !HasPrefix(path, route.EntryPrefix) {
          continue;
        }
        if route.Pattern == None {
          if route.IsPrefix || path == route.EntryPrefix {
            m := new Match(route, path, []);
            assert IsFirst(Table(), conds, path, Some(i - 1));
            return m, None;
          }
        } else {
          var values := Find(route.Pattern.value.items, path, route.Pattern.value.toEnd);
          if values.Some? && 1 + |values.value| == 1 + |route.Vars| {
            m := new Match(route, path, values.value);
            assert IsFirst(Table(), conds, path, Some(i - 1));
            return m, None;
          }
        }
      }
      return null, None;
    }
  }

  lemma TrimRightIs(s: string, n: nat)
    requires n <= |s| && (n == 0 || s[n - 1] != '/') && forall k :: n <= k < |s| ==> s[k] == '/'
    ensures TrimRight(s, IsSlash) == s[..n]
  {
  }

  /** Captures of one route on one path are unique. */
  lemma CapturesUnique(c: Compiled, path: string, vs: seq<string>, ws: seq<string>)
    requires Captures(c, path, vs) && Captures(c, path, ws)
    ensures vs == ws
  {
    if c.pattern.Some? { GreediestUnique(vs, ws); }
  }

  /**
   * On a router with a normalised base path, Add never changes the answer to a request that already
   * matched, and a rejected Add changes no answer.
   */
  method MatchAddMatch(r: Router, conds: CondFlags, path: string, pattern: string, handler: int, lib: Library)
    returns (before: Match?, added: Route?, after: Match?)
    requires r.Valid() && NormalBase(r.BasePath)
    modifies r
    ensures before != null ==>
      after != null && after.route == before.route && after.Path == before.Path && after.values == before.values
    ensures added == null && before == null ==> after == null
  {
    hide Accepts, Captures, WellFormed, AdjustBase, Parsed;
    var err, err2, err3;
    AdjustOnce(r.BasePath);
    before, err := r.Match(conds, path);
    ghost var table := r.Table();
    added, err2 := r.Add(pattern, handler, lib);
    assert r.Table() == table + if added == null then [] else [added.Value()];
    after, err3 := r.Match(conds, path);
    if before != null {
      ghost var k: nat :| IsFirst(table, conds, before.Path, Some(k)) && before.route == r.Routes[k];
      FirstMatchStable(table, if added == null then [] else [added.Value()], conds, before.Path, k);
      CapturesUnique(before.route.Value(), before.Path, before.values, after.values);
    }
  }
}
