/** Route conditions: a 64-bit flag word with one bit for each of nine HTTP methods (route/cond.go). */
module Cond {
  import opened Strings

  type Bit = n: nat | n < 64

  /**
   * A uint64 used only through `|`, `&` and comparison with zero is the set of its one bits:
   * `|` is union, `&` is intersection and zero is the empty set.
   */
  type CondFlags = set<Bit>

  datatype Method = GET | CONNECT | DELETE | HEAD | OPTIONS | PATCH | POST | PUT | TRACE

  const NamedBits: CondFlags := {0, 1, 2, 3, 4, 5, 6, 7, 8}

  function Flag(m: Method): Bit {
    match m
    case GET => 0
    case CONNECT => 1
    case DELETE => 2
    case HEAD => 3
    case OPTIONS => 4
    case PATCH => 5
    case POST => 6
    case PUT => 7
    case TRACE => 8
  }

  function Name(m: Method): string {
    match m
    case GET => "GET"
    case CONNECT => "CONNECT"
    case DELETE => "DELETE"
    case HEAD => "HEAD"
    case OPTIONS => "OPTIONS"
    case PATCH => "PATCH"
    case POST => "POST"
    case PUT => "PUT"
    case TRACE => "TRACE"
  }

  function MethodOf(token: string): (r: Option<Method>)
    ensures r.Some? ==> Name(r.value) == token
  {
    if token == "GET" then Some(GET)
    else if token == "CONNECT" then Some(CONNECT)
    else if token == "DELETE" then Some(DELETE)
    else if token == "HEAD" then Some(HEAD)
    else if token == "OPTIONS" then Some(OPTIONS)
    else if token == "PATCH" then Some(PATCH)
    else if token == "POST" then Some(POST)
    else if token == "PUT" then Some(PUT)
    else if token == "TRACE" then Some(TRACE)
    else None
  }

  lemma MethodOfName(m: Method)
    ensures MethodOf(Name(m)) == Some(m)
  {
    match m case GET => case CONNECT => case DELETE => case HEAD => case OPTIONS =>
    case PATCH => case POST => case PUT => case TRACE =>
  }

  predicate AllValid(tokens: seq<string>) {
    forall k :: 0 <= k < |tokens| ==> MethodOf(tokens[k]).Some?
  }

  /** The bits named by the tokens. */
  function Bits(tokens: seq<string>): (f: CondFlags)
    ensures forall m :: Flag(m) in f <==> exists k :: 0 <= k < |tokens| && MethodOf(tokens[k]) == Some(m)
    ensures f <= NamedBits
  {
    set k | 0 <= k < |tokens| && MethodOf(tokens[k]).Some? :: Flag(MethodOf(tokens[k]).value)
  }

  /** `bad` is the first token of `tokens` that names no method. */
  predicate FirstInvalid(tokens: seq<string>, k: nat, bad: string) {
    k < |tokens| && AllValid(tokens[..k]) && tokens[k] == bad && MethodOf(bad).None?
  }

  lemma FirstInvalidUnique(tokens: seq<string>, k: nat, a: string, j: nat, b: string)
    requires FirstInvalid(tokens, k, a) && FirstInvalid(tokens, j, b)
    ensures k == j && a == b
  {
    assert forall i :: 0 <= i < j ==> tokens[..j][i] == tokens[i];
    assert forall i :: 0 <= i < k ==> tokens[..k][i] == tokens[i];
  }

  /** Error is the first token that names no method. The lone token `*` stands for no conditions. */
  method ParseCondFlags(tokens: seq<string>) returns (f: CondFlags, err: Option<string>)
    ensures err.None? <==> tokens == ["*"] || AllValid(tokens)
    ensures err.None? ==> f == if tokens == ["*"] then {} else Bits(tokens)
    ensures err.Some? ==> exists k: nat :: FirstInvalid(tokens, k, err.value) && f == Bits(tokens[..k])
  {
    f := {};
    if |tokens| == 1 && tokens[0] == "*" {
      assert tokens == ["*"];
      return f, None;
    }
    var i := 0;
    while i < |tokens|
      invariant 0 <= i <= |tokens|
      invariant AllValid(tokens[..i]) && f == Bits(tokens[..i])
    {
      var m := MethodOf(tokens[i]);
      if m.None? {
        assert FirstInvalid(tokens, i, tokens[i]);
        return f, Some(tokens[i]);
      }
      BitsSnoc(tokens[..i], tokens[i]);
      assert tokens[..i + 1] == tokens[..i] + [tokens[i]];
      f := f + {Flag(m.value)};
      i := i + 1;
    }
    assert tokens[..i] == tokens;
    return f, None;
  }

  lemma BitsSnoc(tokens: seq<string>, t: string)
    requires MethodOf(t).Some?
    ensures Bits(tokens + [t]) == Bits(tokens) + {Flag(MethodOf(t).value)}
  {
    var all := tokens + [t];
    assert all[|tokens|] == t;
    forall b | b in Bits(tokens) ensures b in Bits(all) {
      var k :| 0 <= k < |tokens| && MethodOf(tokens[k]).Some? && b == Flag(MethodOf(tokens[k]).value);
      assert all[k] == tokens[k];
    }
  }

  /** Parsing depends on which tokens occur, not on their order or repetition. */
  lemma BitsOfSet(a: seq<string>, b: seq<string>)
    requires forall t :: t in a <==> t in b
    ensures Bits(a) == Bits(b)
  {
    BitsIncluded(a, b);
    BitsIncluded(b, a);
  }

  lemma BitsIncluded(a: seq<string>, b: seq<string>)
    requires forall t :: t in a ==> t in b
    ensures Bits(a) <= Bits(b)
  {
    forall f | f in Bits(a) ensures f in Bits(b) {
      var k :| 0 <= k < |a| && MethodOf(a[k]).Some? && f == Flag(MethodOf(a[k]).value);
      assert a[k] in b;
      var j :| 0 <= j < |b| && b[j] == a[k];
    }
  }

  function Take(f: CondFlags, m: Method): seq<string> {
    if Flag(m) in f then [Name(m)] else []
  }

  /** The `k`-th bit that `String` looks at. */
  function Order(k: nat): (m: Method)
    requires k < 9
    ensures Flag(m) == k
  {
    if k == 0 then GET else if k == 1 then CONNECT else if k == 2 then DELETE
    else if k == 3 then HEAD else if k == 4 then OPTIONS else if k == 5 then PATCH
    else if k == 6 then POST else if k == 7 then PUT else TRACE
  }

  function Select(f: CondFlags, k: nat): seq<string>
    requires k <= 9
  {
    if k == 0 then [] else Select(f, k - 1) + Take(f, Order(k - 1))
  }

  /** Names of the methods allowed by `f`, in the order `String` writes them. */
  function Names(f: CondFlags): seq<string> {
    Select(f, 9)
  }

  /** Each name preceded by `|`. */
  function Barred(names: seq<string>): string {
    if names == [] then "" else "|" + (names[0] + Barred(names[1..]))
  }

  lemma {:induction false} BarredConcat(a: seq<string>, b: seq<string>)
    ensures Barred(a + b) == Barred(a) + Barred(b)
  {
    if a == [] {
      assert a + b == b;
    } else {
      BarredConcat(a[1..], b);
      assert (a + b)[0] == a[0] && (a + b)[1..] == a[1..] + b;
      assert "|" + (a[0] + Barred(a[1..])) + Barred(b) == "|" + (a[0] + (Barred(a[1..]) + Barred(b)));
    }
  }

  /** The names joined by `|`; `*` when there are none. */
  function CondText(f: CondFlags): string {
    if Names(f) == [] then "*" else Barred(Names(f))[1..]
  }

  /** Appends `|` and the name of the `k`-th method when `f` has its bit. */
  method WriteIf(sb: string, f: CondFlags, ghost k: nat, m: Method) returns (r: string)
    requires k < 9 && m == Order(k) && sb == Barred(Select(f, k))
    ensures r == Barred(Select(f, k + 1))
  {
    r := sb;
    if Flag(m) in f {
      r := sb + ("|" + Name(m));
      assert Name(m) + "" == Name(m);
    }
    BarredConcat(Select(f, k), Take(f, m));
  }

  method String(f: CondFlags) returns (r: string)
    ensures r == CondText(f)
  {
    if f == {} {
      SelectNone(9);
      return "*";
    }
    var sb := WriteIf("", f, 0, GET);
    sb := WriteIf(sb, f, 1, CONNECT);
    sb := WriteIf(sb, f, 2, DELETE);
    sb := WriteIf(sb, f, 3, HEAD);
    sb := WriteIf(sb, f, 4, OPTIONS);
    sb := WriteIf(sb, f, 5, PATCH);
    sb := WriteIf(sb, f, 6, POST);
    sb := WriteIf(sb, f, 7, PUT);
    sb := WriteIf(sb, f, 8, TRACE);
    if |sb| == 0 {
      return "*";
    }
    r := sb[1..];
  }

  lemma {:induction false} SelectNone(k: nat)
    requires k <= 9
    ensures Select({}, k) == []
  {
    if k > 0 { SelectNone(k - 1); }
  }

  lemma {:induction false} SelectAllowed(f: CondFlags, k: nat)
    requires k <= 9
    ensures forall i :: 0 <= i < |Select(f, k)| ==>
      MethodOf(Select(f, k)[i]).Some? && Flag(MethodOf(Select(f, k)[i]).value) in f
    ensures forall j :: 0 <= j < k && j in f ==> Name(Order(j)) in Select(f, k)
  {
    if k > 0 {
      SelectAllowed(f, k - 1);
      MethodOfName(Order(k - 1));
    }
  }

  /** The names written for `f` parse back to `f` masked to the nine method bits. */
  lemma NamesRoundTrip(f: CondFlags)
    ensures AllValid(Names(f))
    ensures Bits(Names(f)) == f * NamedBits
  {
    SelectAllowed(f, 9);
    forall b | b in f * NamedBits ensures b in Bits(Names(f)) {
      var m := Order(b);
      assert Name(m) in Names(f);
      MethodOfName(m);
      var k :| 0 <= k < |Names(f)| && Names(f)[k] == Name(m);
    }
  }
}
