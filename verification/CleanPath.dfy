/** Path canonicalisation and the redirect that it causes (server.go:82-98, 137-156). */
module CleanPath {
  import opened Strings

  // ----- path.Clean on rooted paths, by its documented rules -----

  /** The parts between slashes. */
  function Split(s: string): seq<string>
    decreases |s|
  {
    var i := IndexOf(s, '/');
    if i == |s| then [s] else [s[..i]] + Split(s[i + 1..])
  }

  /** Empty parts and `.` are dropped; `..` drops the part before it, or nothing at the root. */
  function Push(stack: seq<string>, part: string): seq<string> {
    if part == "" || part == "." then stack
    else if part == ".." then if stack == [] then [] else stack[..|stack| - 1]
    else stack + [part]
  }

  function Resolve(parts: seq<string>): seq<string> {
    if parts == [] then [] else Push(Resolve(parts[..|parts| - 1]), parts[|parts| - 1])
  }

  /** Every part after a slash. */
  function Slashed(parts: seq<string>): string {
    if parts == [] then "" else "/" + parts[0] + Slashed(parts[1..])
  }

  function Clean(p: string): string {
    var parts := Resolve(Split(p));
    if parts == [] then "/" else Slashed(parts)
  }

  // ----- canonical paths -----

  predicate IsName(part: string) {
    part != "" && part != "." && part != ".." && '/' !in part
  }

  predicate AllNames(parts: seq<string>) {
    forall k :: 0 <= k < |parts| ==> IsName(parts[k])
  }

  /** The root, or names each after a slash, possibly with one more slash at the end. */
  ghost predicate IsCanonical(p: string) {
    p == "/" || exists parts :: parts != [] && AllNames(parts) && (p == Slashed(parts) || p == Slashed(parts) + "/")
  }

  function Rooted(p: string): string {
    if p == "" || p[0] != '/' then "/" + p else p
  }

  /** The canonical path, stated on parts: a trailing slash is kept except at the root, which is one itself. */
  function Canonical(p: string): string {
    var parts := Resolve(Split(Rooted(p)));
    if parts == [] then "/" else Slashed(parts) + if EndsInSlash(p) then "/" else ""
  }

  method CleanPathOf(p: string) returns (np: string)
    ensures np == Canonical(p)
  {
    if p == "" {
      assert Rooted(p) == "/";
      SplitRoot();
      return "/";
    }
    var q := p;
    if q[0] != '/' {
      q := "/" + q;
    }
    assert q == Rooted(p) && EndsInSlash(q) == EndsInSlash(p);
    ResolveSplitNames(q);
    np := Clean(q);
    if Resolve(Split(q)) != [] {
      SlashedEnd(Resolve(Split(q)));
    }
    if q[|q| - 1] == '/' && np != "/" {
      if |q| == |np| + 1 && HasPrefix(q, np) {
        assert q == np + [q[|q| - 1]];
        np := q;
      } else {
        np := np + "/";
      }
    } else if np != "/" {
      assert np + "" == np;
    }
  }

  lemma SplitRoot()
    ensures Split("/") == ["", ""] && Resolve(["", ""]) == []
  {
    assert "/"[1..] == "";
    assert IndexOf("/", '/') == 0;
    assert Split("") == [""];
    assert ["", ""][..1] == [""] && [""][..0] == [];
    assert Resolve([""]) == [];
  }

  lemma {:induction false} SplitNoSlash(s: string)
    ensures Split(s) != [] && forall k :: 0 <= k < |Split(s)| ==> '/' !in Split(s)[k]
    decreases |s|
  {
    var i := IndexOf(s, '/');
    if i < |s| { SplitNoSlash(s[i + 1..]); }
  }

  lemma {:induction false} ResolveNames(parts: seq<string>)
    requires forall k :: 0 <= k < |parts| ==> '/' !in parts[k]
    ensures AllNames(Resolve(parts))
  {
    if parts != [] { ResolveNames(parts[..|parts| - 1]); }
  }

  lemma ResolveSplitNames(p: string)
    ensures AllNames(Resolve(Split(p)))
  {
    SplitNoSlash(p);
    ResolveNames(Split(p));
  }

  /** Written names do not end in a slash, and are never just the root. */
  lemma {:induction false} SlashedEnd(parts: seq<string>)
    requires parts != [] && AllNames(parts)
    ensures |Slashed(parts)| > 1 && Slashed(parts)[0] == '/' && Slashed(parts)[|Slashed(parts)| - 1] != '/'
  {
    var n := parts[0];
    assert n[|n| - 1] in n;
    if |parts| > 1 { SlashedEnd(parts[1..]); }
  }

  lemma {:induction false} SlashedSnoc(parts: seq<string>, last: string)
    ensures Slashed(parts + [last]) == Slashed(parts) + "/" + last
  {
    if parts == [] {
      assert parts + [last] == [last] && [last][1..] == [];
    } else {
      SlashedSnoc(parts[1..], last);
      assert (parts + [last])[0] == parts[0] && (parts + [last])[1..] == parts[1..] + [last];
      assert "/" + parts[0] + (Slashed(parts[1..]) + "/" + last) == "/" + parts[0] + Slashed(parts[1..]) + "/" + last;
    }
  }

  lemma SplitAtSlash(part: string, rest: string)
    requires '/' !in part
    ensures Split(part) == [part] && Split(part + ("/" + rest)) == [part] + Split(rest)
  {
    var s := part + ("/" + rest);
    assert IndexOf(part, '/') == |part|;
    assert forall k :: 0 <= k < |part| ==> s[k] == part[k];
    assert s[|part|] == '/';
    assert IndexOf(s, '/') == |part|;
    assert s[..|part|] == part && s[|part| + 1..] == rest;
  }

  lemma {:induction false} SplitPart(part: string, parts: seq<string>)
    requires '/' !in part && forall k :: 0 <= k < |parts| ==> '/' !in parts[k]
    ensures Split(part + Slashed(parts)) == [part] + parts
    decreases |parts|
  {
    hide Split;
    if parts == [] {
      SplitAtSlash(part, "");
      assert part + "" == part;
    } else {
      SplitPart(parts[0], parts[1..]);
      SplitAtSlash(part, parts[0] + Slashed(parts[1..]));
      assert "/" + parts[0] + Slashed(parts[1..]) == "/" + (parts[0] + Slashed(parts[1..]));
      assert [parts[0]] + parts[1..] == parts;
    }
  }

  /** Splitting what was written gives an empty part before the first slash, then the parts. */
  lemma SplitSlashed(parts: seq<string>)
    requires parts != [] && forall k :: 0 <= k < |parts| ==> '/' !in parts[k]
    ensures Split(Slashed(parts)) == [""] + parts
  {
    SplitPart("", parts);
    assert "" + Slashed(parts) == Slashed(parts);
  }

  lemma {:induction false} ResolveKeepsNames(parts: seq<string>)
    requires AllNames(parts)
    ensures Resolve([""] + parts) == parts
  {
    var all := [""] + parts;
    if parts == [] {
      assert all[..0] == [] && Resolve([]) == [];
    } else {
      var init := parts[..|parts| - 1];
      assert all[..|all| - 1] == [""] + init;
      ResolveKeepsNames(init);
      assert parts == init + [parts[|parts| - 1]];
    }
  }

  /** Names written with or without a final slash resolve to themselves. */
  lemma ResolveWritten(parts: seq<string>)
    requires parts != [] && AllNames(parts)
    ensures Resolve(Split(Slashed(parts))) == parts && Resolve(Split(Slashed(parts) + "/")) == parts
  {
    SplitSlashed(parts);
    ResolveKeepsNames(parts);
    var more := parts + [""];
    SlashedSnoc(parts, "");
    assert Slashed(parts) + "/" + "" == Slashed(parts) + "/";
    SplitSlashed(more);
    assert ([""] + more)[..|more|] == [""] + parts;
  }

  /** Canonicalisation always yields a canonical path. */
  lemma CanonicalIsCanonical(p: string)
    ensures IsCanonical(Canonical(p))
  {
    var parts := Resolve(Split(Rooted(p)));
    ResolveSplitNames(Rooted(p));
    if parts != [] { assert Slashed(parts) + "" == Slashed(parts); }
  }

  /** Canonicalisation changes nothing exactly on canonical paths: the redirect happens for all others. */
  lemma CanonicalFixed(p: string)
    ensures Canonical(p) == p <==> IsCanonical(p)
  {
    CanonicalIsCanonical(p);
    if p == "/" {
      SplitRoot();
    } else if IsCanonical(p) {
      var parts :| parts != [] && AllNames(parts) && (p == Slashed(parts) || p == Slashed(parts) + "/");
      WrittenIsFixed(p, parts);
    }
  }

  lemma WrittenIsFixed(p: string, parts: seq<string>)
    requires parts != [] && AllNames(parts) && (p == Slashed(parts) || p == Slashed(parts) + "/")
    ensures Canonical(p) == p
  {
    hide Slashed, Resolve, Split;
    SlashedEnd(parts);
    ResolveWritten(parts);
    assert Rooted(p) == p;
    assert Slashed(parts) + "" == Slashed(parts);
  }

  /** Idempotence: the canonical path of a canonical path is itself. */
  lemma Idempotent(p: string)
    ensures Canonical(Canonical(p)) == Canonical(p)
  {
    CanonicalIsCanonical(p);
    CanonicalFixed(Canonical(p));
  }

  /**
   * The result starts with a slash; it ends with one exactly when the input does, is empty, or cleans to
   * the root; and both branches of the Go code agree with appending the slash.
   */
  lemma CanonicalShape(p: string)
    ensures var np := Canonical(p);
      && np != "" && np[0] == '/'
      && (EndsInSlash(np) <==> EndsInSlash(p) || p == "" || Clean(Rooted(p)) == "/")
      && np == (if EndsInSlash(p) && Clean(Rooted(p)) != "/" then Clean(Rooted(p)) + "/" else Clean(Rooted(p)))
  {
    var parts := Resolve(Split(Rooted(p)));
    ResolveSplitNames(Rooted(p));
    if parts != [] { SlashedEnd(parts); assert Slashed(parts) + "" == Slashed(parts); }
    if p == "" { SplitRoot(); }
  }

  // ----- what canonicalisation does to dots and empty parts -----

  predicate IsRooted(x: string) {
    x == "" || x[0] == '/'
  }

  lemma Regroup(part: string, r: string, y: string)
    ensures part + ("/" + r) + "/" + y == part + ("/" + (r + "/" + y))
  {
    Assoc(part, "/" + r, "/" + y);
  }

  lemma {:induction false} SplitJoin(x: string, y: string)
    ensures Split(x + "/" + y) == Split(x) + Split(y)
    decreases |x|
  {
    hide Split;
    var i := IndexOf(x, '/');
    if i == |x| {
      SplitAtSlash(x, y);
      assert x + "/" + y == x + ("/" + y);
    } else {
      var part, r := x[..i], x[i + 1..];
      assert x == part + ("/" + r);
      Regroup(part, r, y);
      SplitAtSlash(part, r);
      SplitAtSlash(part, r + "/" + y);
      SplitJoin(r, y);
    }
  }

  /** What comes later sees only the stack. */
  lemma {:induction false} ResolveAfter(a: seq<string>, b: seq<string>, more: seq<string>)
    requires Resolve(a) == Resolve(b)
    ensures Resolve(a + more) == Resolve(b + more)
  {
    hide Resolve;
    if more == [] {
      assert a + more == a && b + more == b;
    } else {
      var init, last := more[..|more| - 1], more[|more| - 1];
      ResolveAfter(a, b, init);
      ResolveSnoc(a + init, last);
      ResolveSnoc(b + init, last);
      assert a + more == a + init + [last] && b + more == b + init + [last];
    }
  }

  lemma ResolveSnoc(parts: seq<string>, part: string)
    ensures Resolve(parts + [part]) == Push(Resolve(parts), part)
  {
    assert (parts + [part])[..|parts|] == parts;
  }

  /** Canonical paths of rooted text depend on the parts left over and on a final slash. */
  lemma CanonicalSame(p: string, q: string)
    requires IsRooted(p) && IsRooted(q)
    requires Resolve(Split(p)) == Resolve(Split(q)) && (EndsInSlash(p) == EndsInSlash(q) || Resolve(Split(p)) == [])
    ensures Canonical(p) == Canonical(q)
  {
    EmptyResolves();
  }

  /** The text `middle` between slashes disappears behind `x`. */
  lemma Disappears(x: string, middle: string, y: string)
    requires IsRooted(x) && Resolve(Split(x) + Split(middle)) == Resolve(Split(x))
    ensures Canonical(x + "/" + middle + "/" + y) == Canonical(x + "/" + y)
  {
    hide Split, Resolve, Canonical;
    var z := x + "/" + middle;
    SplitJoin(x, middle);
    SplitJoin(z, y);
    SplitJoin(x, y);
    ResolveAfter(Split(z), Split(x), Split(y));
    var p, q := z + "/" + y, x + "/" + y;
    assert p[|p| - 1] == if y == "" then '/' else y[|y| - 1];
    assert q[|q| - 1] == if y == "" then '/' else y[|y| - 1];
    CanonicalSame(p, q);
  }

  lemma DisappearsAtEnd(x: string, middle: string)
    requires IsRooted(x) && Resolve(Split(x) + Split(middle)) == Resolve(Split(x))
    requires !EndsInSlash(x) && !EndsInSlash(middle) && middle != ""
    ensures Canonical(x + "/" + middle) == Canonical(x)
  {
    hide Split, Resolve, Canonical;
    var z := x + "/" + middle;
    SplitJoin(x, middle);
    assert z[|z| - 1] == middle[|middle| - 1];
    CanonicalSame(z, x);
  }

  lemma EmptyResolves()
    ensures Resolve(Split("")) == [] && Resolve(Split("/")) == []
  {
    SplitRoot();
    assert Split("") == [""] && [""][..0] == [];
    assert Resolve([""]) == Push(Resolve([]), "");
  }

  /** An empty part or a dot disappears. */
  lemma DotDisappears(x: string, y: string)
    requires IsRooted(x)
    ensures Canonical(x + "//" + y) == Canonical(x + "/" + y)
    ensures Canonical(x + "/./" + y) == Canonical(x + "/" + y)
    ensures !EndsInSlash(x) ==> Canonical(x + "/.") == Canonical(x)
  {
    hide Canonical, Resolve;
    assert Split("") == [""] && Split(".") == ["."];
    ResolveSnoc(Split(x), "");
    ResolveSnoc(Split(x), ".");
    Disappears(x, "", y);
    Disappears(x, ".", y);
    if !EndsInSlash(x) { DisappearsAtEnd(x, "."); }
    assert x + "/" + "" + "/" + y == x + "//" + y && x + "/" + "." + "/" + y == x + "/./" + y;
    assert x + "/" + "." == x + "/.";
  }

  /** Two dots disappear together with the name before them. */
  lemma DotDotDisappears(x: string, n: string, y: string)
    requires IsRooted(x) && IsName(n)
    ensures Canonical(x + "/" + n + "/../" + y) == Canonical(x + "/" + y)
    ensures !EndsInSlash(x) ==> Canonical(x + "/" + n + "/..") == Canonical(x)
  {
    hide Canonical, Resolve;
    var middle := n + "/..";
    SplitAtSlash(n, "..");
    assert Split("..") == [".."];
    assert middle == n + ("/" + "..") && Split(middle) == [n] + [".."];
    ResolveSnoc(Split(x), n);
    ResolveSnoc(Split(x) + [n], "..");
    assert Split(x) + Split(middle) == Split(x) + [n] + [".."];
    Disappears(x, middle, y);
    if !EndsInSlash(x) { DisappearsAtEnd(x, middle); }
    assert x + "/" + middle + "/" + y == x + "/" + n + "/../" + y && x + "/" + middle == x + "/" + n + "/..";
  }

  /** At the root two dots disappear alone. */
  lemma DotDotAtRoot(y: string)
    ensures Canonical("/../" + y) == Canonical("/" + y) && Canonical("/..") == "/"
  {
    hide Resolve;
    EmptyResolves();
    assert Split("..") == [".."];
    ResolveSnoc(Split(""), "..");
    Disappears("", "..", y);
    DisappearsAtEnd("", "..");
    assert "" + "/" + ".." + "/" + y == "/../" + y && "" + "/" + y == "/" + y && "" + "/" + ".." == "/..";
  }

  function Join(x: string, middle: string, y: string): string {
    x + middle + y
  }

  // The rules of canonicalisation, for any function on paths.

  ghost predicate KeepsCanonical(f: string -> string) {
    forall p :: IsCanonical(p) ==> f(p) == p
  }

  /** A missing slash is put in front. */
  ghost predicate Roots(f: string -> string) {
    f("") == "/" && forall p :: !IsRooted(p) ==> f(p) == f("/" + p)
  }

  ghost predicate DropsEmpty(f: string -> string) {
    forall x, y :: IsRooted(x) ==> f(Join(x, "//", y)) == f(Join(x, "/", y))
  }

  ghost predicate DropsDot(f: string -> string) {
    && (forall x, y :: IsRooted(x) ==> f(Join(x, "/./", y)) == f(Join(x, "/", y)))
    && (forall x :: IsRooted(x) && !EndsInSlash(x) ==> f(Join(x, "/.", "")) == f(x))
  }

  /** Two dots go with the name before them. */
  ghost predicate DropsDotDot(f: string -> string) {
    && (forall x, n, y :: IsRooted(x) && IsName(n) ==> f(Join(Join(x, "/", n), "/../", y)) == f(Join(x, "/", y)))
    && (forall x, n :: IsRooted(x) && IsName(n) && !EndsInSlash(x) ==> f(Join(Join(x, "/", n), "/..", "")) == f(x))
  }

  /** Two dots at the root go alone. */
  ghost predicate StaysAtRoot(f: string -> string) {
    f("/..") == "/" && forall y :: f(Join("", "/../", y)) == f(Join("", "/", y))
  }

  ghost predicate Rules(f: string -> string) {
    KeepsCanonical(f) && Roots(f) && DropsEmpty(f) && DropsDot(f) && DropsDotDot(f) && StaysAtRoot(f)
  }

  lemma CanonicalRules()
    ensures Rules(Canonical)
  {
    hide Canonical, IsCanonical, Rooted;
    forall p | IsCanonical(p) ensures Canonical(p) == p { CanonicalFixed(p); }
    forall x, y | IsRooted(x)
      ensures Canonical(Join(x, "//", y)) == Canonical(Join(x, "/", y))
      ensures Canonical(Join(x, "/./", y)) == Canonical(Join(x, "/", y))
    {
      DotDisappears(x, y);
    }
    forall x | IsRooted(x) && !EndsInSlash(x) ensures Canonical(Join(x, "/.", "")) == Canonical(x) {
      DotDisappears(x, "");
      assert Join(x, "/.", "") == x + "/.";
    }
    forall x, n, y | IsRooted(x) && IsName(n) ensures Canonical(Join(Join(x, "/", n), "/../", y)) == Canonical(Join(x, "/", y)) {
      DotDotDisappears(x, n, y);
    }
    forall x, n | IsRooted(x) && IsName(n) && !EndsInSlash(x)
      ensures Canonical(Join(Join(x, "/", n), "/..", "")) == Canonical(x)
    {
      DotDotDisappears(x, n, "");
      assert Join(Join(x, "/", n), "/..", "") == x + "/" + n + "/..";
    }
    forall y ensures Canonical(Join("", "/../", y)) == Canonical(Join("", "/", y)) { AtRoot(y); }
    forall p | !IsRooted(p) ensures Canonical(p) == Canonical("/" + p) { PutInFront(p); }
    AtRoot("");
    PutInFront("");
  }

  lemma AtRoot(y: string)
    ensures Canonical(Join("", "/../", y)) == Canonical(Join("", "/", y)) && Canonical("/..") == "/"
  {
    hide Canonical;
    DotDotAtRoot(y);
    assert Join("", "/../", y) == "/../" + y && Join("", "/", y) == "/" + y;
  }

  lemma PutInFront(p: string)
    ensures !IsRooted(p) ==> Canonical(p) == Canonical("/" + p)
    ensures Canonical("") == "/"
  {
    hide Resolve, Split;
    EmptyResolves();
    assert Rooted("") == "/" + "" == "/";
    assert p != "" ==> ("/" + p)[|p|] == p[|p| - 1];
  }

  lemma PushDots(f: string -> string, x: string, rest: string)
    requires DropsEmpty(f) && DropsDot(f) && IsRooted(x)
    ensures f(x + "/" + ("" + "/" + rest)) == f(x + "/" + rest)
    ensures f(x + "/" + ("." + "/" + rest)) == f(x + "/" + rest)
  {
    assert x + "/" + ("" + "/" + rest) == Join(x, "//", rest);
    assert x + "/" + ("." + "/" + rest) == Join(x, "/./", rest);
    assert x + "/" + rest == Join(x, "/", rest);
  }

  lemma PushDotDot(f: string -> string, x: string, n: string, rest: string)
    requires DropsDotDot(f) && IsRooted(x) && IsName(n)
    ensures f(Join(x, "/", n) + "/" + (".." + "/" + rest)) == f(x + "/" + rest)
  {
    assert Join(x, "/", n) + "/" + (".." + "/" + rest) == Join(Join(x, "/", n), "/../", rest);
    assert x + "/" + rest == Join(x, "/", rest);
  }

  lemma PushDotDotAtRoot(f: string -> string, rest: string)
    requires StaysAtRoot(f)
    ensures f("" + "/" + (".." + "/" + rest)) == f("" + "/" + rest)
  {
    assert "" + "/" + (".." + "/" + rest) == Join("", "/../", rest);
    assert "" + "/" + rest == Join("", "/", rest);
  }

  lemma SlashedRooted(stack: seq<string>)
    ensures IsRooted(Slashed(stack))
  {
  }

  /** The rules take the next part off a path whose beginning is already clean. */
  lemma RulesPush(f: string -> string, stack: seq<string>, part: string, rest: string)
    requires Rules(f) && AllNames(stack) && '/' !in part
    ensures AllNames(Push(stack, part))
    ensures f(Slashed(stack) + "/" + (part + "/" + rest)) == f(Slashed(Push(stack, part)) + "/" + rest)
  {
    hide KeepsCanonical, Roots, DropsEmpty, DropsDot, DropsDotDot, StaysAtRoot, Slashed, Join, IsRooted;
    SlashedRooted(stack);
    if part == "" || part == "." {
      PushDots(f, Slashed(stack), rest);
    } else if part == ".." {
      if stack == [] {
        assert Slashed(stack) == "" by { SlashedNone(); }
        PushDotDotAtRoot(f, rest);
      } else {
        var init := stack[..|stack| - 1];
        Unsnoc(stack);
        SlashedRooted(init);
        PushDotDot(f, Slashed(init), stack[|stack| - 1], rest);
      }
    } else {
      SlashedSnoc(stack, part);
      assert Slashed(stack) + "/" + (part + "/" + rest) == Slashed(stack) + "/" + part + "/" + rest;
    }
  }

  lemma SlashedNone()
    ensures Slashed([]) == ""
  {
  }

  lemma Unsnoc(stack: seq<string>)
    requires stack != []
    ensures Slashed(stack) == Join(Slashed(stack[..|stack| - 1]), "/", stack[|stack| - 1])
  {
    SlashedSnoc(stack[..|stack| - 1], stack[|stack| - 1]);
    assert stack[..|stack| - 1] + [stack[|stack| - 1]] == stack;
  }

  function WithSlash(stack: seq<string>): string {
    if stack == [] then "/" else Slashed(stack) + "/"
  }

  function WithoutSlash(stack: seq<string>): string {
    if stack == [] then "/" else Slashed(stack)
  }

  lemma LastKept(f: string -> string, stack: seq<string>)
    requires KeepsCanonical(f) && AllNames(stack) && stack != []
    ensures f(Slashed(stack)) == Slashed(stack) && f(Slashed(stack) + "/") == Slashed(stack) + "/"
  {
    assert IsCanonical(Slashed(stack)) && IsCanonical(Slashed(stack) + "/");
  }

  /** What is left when the last part is dots. */
  lemma LastDot(f: string -> string, stack: seq<string>)
    requires Rules(f) && AllNames(stack)
    ensures f(Slashed(stack) + "/" + ".") == WithoutSlash(stack)
  {
    hide DropsEmpty, DropsDotDot, StaysAtRoot;
    var x := Slashed(stack);
    assert x + "/" + "." == Join(x, "/.", "");
    SlashedRooted(stack);
    if stack != [] { SlashedEnd(stack); LastKept(f, stack); }
  }

  lemma LastDotDot(f: string -> string, stack: seq<string>, n: string)
    requires Rules(f) && AllNames(stack) && IsName(n)
    ensures f(Join(Slashed(stack), "/", n) + "/" + "..") == WithoutSlash(stack)
  {
    hide DropsEmpty, DropsDot, StaysAtRoot;
    var x := Slashed(stack);
    assert Join(x, "/", n) + "/" + ".." == Join(Join(x, "/", n), "/..", "");
    SlashedRooted(stack);
    if stack != [] { SlashedEnd(stack); LastKept(f, stack); }
  }

  /** The rules take the last part off as well. */
  lemma RulesLast(f: string -> string, stack: seq<string>, part: string)
    requires Rules(f) && AllNames(stack) && '/' !in part
    ensures f(Slashed(stack) + "/" + part) == if part == "" then WithSlash(stack) else WithoutSlash(Push(stack, part))
  {
    assert f("/") == "/" && f("/..") == "/" by { assert IsCanonical("/"); }
    SlashedNone();
    hide KeepsCanonical, Roots, DropsEmpty, DropsDot, DropsDotDot, StaysAtRoot, Slashed, Join, IsRooted;
    if part == "" {
      assert Slashed(stack) + "/" + "" == Slashed(stack) + "/";
      if stack != [] { LastKept(f, stack); }
    } else if part == "." {
      LastDot(f, stack);
    } else if part == ".." {
      if stack == [] {
        assert Slashed(stack) + "/" + ".." == "/..";
      } else {
        Unsnoc(stack);
        LastDotDot(f, stack[..|stack| - 1], stack[|stack| - 1]);
      }
    } else {
      SlashedSnoc(stack, part);
      LastKept(f, stack + [part]);
    }
  }

  /** Two functions that follow the rules agree, whatever is left of the path. */
  lemma {:induction false} RulesAgree(f: string -> string, g: string -> string, stack: seq<string>, rest: string)
    requires Rules(f) && Rules(g) && AllNames(stack)
    ensures f(Slashed(stack) + "/" + rest) == g(Slashed(stack) + "/" + rest)
    decreases |rest|
  {
    hide Rules, Slashed, AllNames, Push;
    var i := IndexOf(rest, '/');
    var part := rest[..i];
    if i == |rest| {
      assert part == rest;
      RulesLast(f, stack, part);
      RulesLast(g, stack, part);
    } else {
      var more := rest[i + 1..];
      assert rest == part + "/" + more;
      RulesPush(f, stack, part, more);
      RulesPush(g, stack, part, more);
      RulesAgree(f, g, Push(stack, part), more);
    }
  }

  /** The rules say everything: whatever function follows them is canonicalisation. */
  lemma OnlyCanonical(f: string -> string, p: string)
    requires Rules(f)
    ensures f(p) == Canonical(p)
  {
    CanonicalRules();
    hide Canonical, IsCanonical, Split, Resolve;
    var rest := if p == "" then "" else if p[0] == '/' then p[1..] else p;
    RulesAgree(f, Canonical, [], rest);
    assert p != "" ==> "/" + rest == if p[0] == '/' then p else "/" + p;
    assert Slashed([]) + "/" + rest == "/" + rest;
  }

  // ----- the redirect -----

  datatype Response = Redirect(location: string) | Serve

  /** The head of ServeHTTP for a request that is not `*`. */
  method Canonicalize(httpMethod: string, path: string) returns (r: Response)
    ensures r == if httpMethod != "CONNECT" && Canonical(path) != path then Redirect(Canonical(path)) else Serve
  {
    if httpMethod != "CONNECT" {
      var cleaned := CleanPathOf(path);
      if cleaned != path {
        return Redirect(cleaned);
      }
    }
    return Serve;
  }

  /** Following a redirect, with any method, never leads to another one. */
  method FollowRedirect(httpMethod: string, path: string, next: string) returns (first: Response, second: Response)
    ensures first.Redirect? <==> httpMethod != "CONNECT" && !IsCanonical(path)
    ensures first.Redirect? ==> IsCanonical(first.location) && second == Serve
    ensures first.Serve? ==> second == first
  {
    CanonicalFixed(path);
    first := Canonicalize(httpMethod, path);
    second := first;
    if first.Redirect? {
      CanonicalIsCanonical(path);
      Idempotent(path);
      second := Canonicalize(next, first.location);
    }
  }
}
