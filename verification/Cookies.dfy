/** Set-Cookie lines of a response header, kept as a last-write-wins ordered map (util/util.go). */
module Cookies {
  import opened Strings

  /** White space as textproto.TrimString sees it. */
  predicate IsTextSpace(c: char) {
    c == ' ' || c == '\t' || c == '\n' || c == '\r'
  }

  /** The name in a string like "name=value;...", or "" when it has no such form. */
  function ParseCookieName(cookie: string): string {
    var i := IndexOf(cookie, ';');
    if i == |cookie| then ""
    else
      var e := IndexOf(cookie, '=');
      if e == |cookie| || e > i then "" else Trim(cookie[..e], IsTextSpace)
  }

  /**
   * What the name of any text is: without `=` there is none; otherwise it is what stands before the first
   * one, trimmed, if a semicolon follows later and none comes before.
   */
  lemma NameExactly(n: string, rest: string)
    requires '=' !in n
    ensures ParseCookieName(n) == ""
    ensures ParseCookieName(n + "=" + rest) == if ';' !in n && ';' in rest then Trim(n, IsTextSpace) else ""
  {
    assert IndexOf(n, '=') == |n|;
    var c := n + "=" + rest;
    assert forall k :: 0 <= k < |n| ==> c[k] == n[k] && n[k] in n;
    assert c[|n|] == '=';
    assert IndexOf(c, '=') == |n| && c[..|n|] == n;
    var i := IndexOf(c, ';');
    if ';' in n {
      var k :| 0 <= k < |n| && n[k] == ';';
      assert c[k] == ';';
    } else if ';' in rest {
      var k :| 0 <= k < |rest| && rest[k] == ';';
      assert c[|n| + 1 + k] == ';';
    } else {
      assert forall k :: |n| < k < |c| ==> c[k] in rest;
      assert i == |c|;
    }
  }

  /** Index of the first line with the given name, or the number of lines. */
  function FirstNamed(lines: seq<string>, name: string): (k: nat)
    ensures k <= |lines|
    ensures forall j :: 0 <= j < k ==> ParseCookieName(lines[j]) != name
    ensures k < |lines| ==> ParseCookieName(lines[k]) == name
  {
    if lines == [] || ParseCookieName(lines[0]) == name then 0 else 1 + FirstNamed(lines[1..], name)
  }

  /** The lines after one call. */
  function Put(lines: seq<string>, cookie: string): seq<string> {
    var name := ParseCookieName(cookie);
    var k := FirstNamed(lines, name);
    if name == "" then lines else if k < |lines| then lines[k := cookie] else lines + [cookie]
  }

  class Header {
    var setCookie: seq<string>

    constructor ()
      ensures setCookie == []
    {
      setCookie := [];
    }
  }

  /** Replaces the first cookie of the same name in place, or adds the cookie at the end. */
  method HeaderSetCookie(header: Header, cookie: string) returns (ok: bool)
    modifies header
    ensures header.setCookie == Put(old(header.setCookie), cookie)
    ensures ok <==> ParseCookieName(cookie) != ""
  {
    hide ParseCookieName;
    var name := ParseCookieName(cookie);
    if |name| == 0 {
      return false;
    }
    var existing := header.setCookie;
    var i := 0;
    while i < |existing|
      invariant 0 <= i <= |existing| && header.setCookie == existing
      invariant forall j :: 0 <= j < i ==> ParseCookieName(existing[j]) != name
    {
      if name == ParseCookieName(existing[i]) {
        header.setCookie := existing[i := cookie];
        return true;
      }
      i := i + 1;
    }
    header.setCookie := existing + [cookie];
    return true;
  }

  // ----- the header as an ordered map -----

  function PutAll(lines: seq<string>, cookies: seq<string>): seq<string> {
    if cookies == [] then lines
    else Put(PutAll(lines, cookies[..|cookies| - 1]), cookies[|cookies| - 1])
  }

  /** Valid names in the order of their first appearance. */
  function InsertionOrder(cookies: seq<string>): seq<string> {
    if cookies == [] then []
    else
      var earlier := InsertionOrder(cookies[..|cookies| - 1]);
      var n := ParseCookieName(cookies[|cookies| - 1]);
      if n == "" || n in earlier then earlier else earlier + [n]
  }

  /** The last cookie written under a name. */
  function LastWritten(cookies: seq<string>, name: string): string {
    if cookies == [] then ""
    else if ParseCookieName(cookies[|cookies| - 1]) == name then cookies[|cookies| - 1]
    else LastWritten(cookies[..|cookies| - 1], name)
  }

  predicate Distinct(order: seq<string>) {
    forall j, k :: 0 <= j < k < |order| ==> order[j] != order[k]
  }

  /** Line `k` is the cookie last written under the `k`-th name. */
  predicate Holds(lines: seq<string>, order: seq<string>, cookies: seq<string>) {
    |lines| == |order| && forall k :: 0 <= k < |order| ==>
      order[k] != "" && lines[k] == LastWritten(cookies, order[k]) && ParseCookieName(lines[k]) == order[k]
  }

  lemma {:induction false} InsertionOrderDistinct(cookies: seq<string>)
    ensures Distinct(InsertionOrder(cookies))
  {
    hide ParseCookieName;
    if cookies != [] { InsertionOrderDistinct(cookies[..|cookies| - 1]); }
  }

  /**
   * Starting from no Set-Cookie lines, any number of calls leaves the distinct valid names in order of
   * first insertion, each with the cookie last written for it.
   */
  lemma {:induction false} HeaderIsOrderedMap(cookies: seq<string>)
    ensures Holds(PutAll([], cookies), InsertionOrder(cookies), cookies)
    ensures Distinct(InsertionOrder(cookies))
  {
    InsertionOrderDistinct(cookies);
    if cookies != [] {
      var init, c := cookies[..|cookies| - 1], cookies[|cookies| - 1];
      HeaderIsOrderedMap(init);
      PutHolds(PutAll([], init), InsertionOrder(init), cookies);
    }
  }

  /** One more call on a header that holds the earlier cookies. */
  lemma PutHolds(lines: seq<string>, order: seq<string>, cookies: seq<string>)
    requires cookies != [] && Distinct(order) && Holds(lines, order, cookies[..|cookies| - 1])
    ensures var n := ParseCookieName(cookies[|cookies| - 1]);
      Holds(Put(lines, cookies[|cookies| - 1]), if n == "" || n in order then order else order + [n], cookies)
  {
    hide ParseCookieName;
    var c := cookies[|cookies| - 1];
    var n := ParseCookieName(c);
    var k := FirstNamed(lines, n);
    if n != "" && k == |lines| {
      assert n !in order;
    } else if n != "" {
      assert order[k] == n;
    }
  }

  /** Parsed names are not empty and do not repeat. */
  predicate NamedOnce(lines: seq<string>) {
    && (forall k :: 0 <= k < |lines| ==> ParseCookieName(lines[k]) != "")
    && forall j, k :: 0 <= j < k < |lines| ==> ParseCookieName(lines[j]) != ParseCookieName(lines[k])
  }

  /** However many cookies are set, every name has at most one line. */
  lemma NamesDistinct(cookies: seq<string>)
    ensures NamedOnce(PutAll([], cookies))
  {
    hide ParseCookieName;
    HeaderIsOrderedMap(cookies);
  }

  /** Writing a cookie on any header leaves it there, with no other line of its name before it and all else in place. */
  lemma PutReplaces(before: seq<string>, c: string)
    requires ParseCookieName(c) != ""
    ensures var after, k := Put(before, c), FirstNamed(before, ParseCookieName(c));
      && k < |after| && after[k] == c
      && |after| == (if k == |before| then |before| + 1 else |before|)
      && forall j :: 0 <= j < |before| && j != k ==> after[j] == before[j]
  {
    hide ParseCookieName;
  }

  /** Writing a name again leaves exactly one line of that name, the latest. */
  lemma LatestOnly(lines: seq<string>, c: string)
    requires NamedOnce(lines) && ParseCookieName(c) != ""
    ensures NamedOnce(Put(lines, c)) && c in Put(lines, c)
    ensures forall k :: 0 <= k < |Put(lines, c)| && ParseCookieName(Put(lines, c)[k]) == ParseCookieName(c) ==>
      Put(lines, c)[k] == c
  {
    hide ParseCookieName;
    PutReplaces(lines, c);
    var k := FirstNamed(lines, ParseCookieName(c));
    assert Put(lines, c)[k] == c;
  }
}
