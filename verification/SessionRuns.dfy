/** What sessions promise over whole runs: write-back refinement, and agreement of cookie and storage. */
module SessionRuns {
  import opened Strings
  import opened Storage
  import opened Cookies
  import opened Session

  /** A session with the storage behind it. */
  datatype World = World(session: State, entries: Entries)

  datatype Step =
    | DoSet(key: string, value: Option<Value>)
    | DoDel(key: string)
    | DoClear
    | DoSave(choice: Choice)
      /** Anything others do to the storage, short of touching this session's own data. */
    | Others(entries: Entries)

  function Next(w: World, ttl: Time, t: Step): World {
    match t
    case DoSet(k, v) => w.(session := AfterSet(w.session, k, v))
    case DoDel(k) => w.(session := AfterDel(w.session, k))
    case DoClear => w.(session := AfterClear(w.session))
    case DoSave(c) => var o := AfterSave(w.session, w.entries, ttl, c); World(o.session, o.entries)
    case Others(m) => w.(entries := m)
  }

  /** The same data under `id`, possibly with another expiry. */
  predicate SameData(m: Entries, n: Entries, id: string) {
    (id in m <==> id in n) && (id in m ==> m[id].data == n[id].data)
  }

  /** uuid.Gen succeeds with a usable id whenever a Save needs it, and others leave this session's data alone. */
  predicate Fair(w: World, t: Step) {
    match t
    case DoSave(c) => w.session.dirty && Contents(w.session) != map[] ==> IdForSave(w.session, c.gen) != ""
    case Others(m) => w.session.id != "" ==> SameData(w.entries, m, w.session.id)
    case _ => true
  }

  function Run(w: World, ttl: Time, steps: seq<Step>): World
    decreases |steps|
  {
    if steps == [] then w else Run(Next(w, ttl, steps[0]), ttl, steps[1..])
  }

  predicate FairRun(w: World, ttl: Time, steps: seq<Step>)
    decreases |steps|
  {
    steps == [] || (Fair(w, steps[0]) && FairRun(Next(w, ttl, steps[0]), ttl, steps[1..]))
  }

  // ----- the reference: a plain map -----

  function Apply(v: Values, t: Step): Values {
    match t
    case DoSet(k, Some(x)) => v[k := x]
    case DoSet(k, None) => v - {k}
    case DoDel(k) => v - {k}
    case DoClear => map[]
    case DoSave(_) => v
    case Others(_) => v
  }

  function ApplyAll(v: Values, steps: seq<Step>): Values
    decreases |steps|
  {
    if steps == [] then v else ApplyAll(Apply(v, steps[0]), steps[1..])
  }

  /** When nothing is pending, the cache is what storage holds, or is empty when there is no id. */
  predicate InSync(w: World) {
    !w.session.dirty ==>
      if w.session.id == "" then Contents(w.session) == map[]
      else w.session.id in w.entries && w.entries[w.session.id].data == Gob(Contents(w.session))
  }

  /** A session made for a request is in sync, whatever the storage holds; an id from a cookie is never empty. */
  lemma LoadedInSync(m: Entries, id: string, now: Time)
    requires id != ""
    ensures InSync(World(Fresh, m))
    ensures var o := AfterLoad(Fresh, m, id, now);
      && InSync(World(o.session, o.entries)) && !o.session.dirty
      && (o.session.id != "" ==> o.session.id == id && IsLive(m, id, now) && m[id].data == Gob(Contents(o.session)))
      && (o.session.id == "" ==> o.session == Fresh)
  {
  }

  lemma StepRefines(w: World, ttl: Time, t: Step)
    requires InSync(w) && Fair(w, t)
    ensures InSync(Next(w, ttl, t))
    ensures Contents(Next(w, ttl, t).session) == Apply(Contents(w.session), t)
  {
  }

  /**
   * Write-back refinement: over any run of Set, Del, Clear and Save, with others active on the storage,
   * the session's contents are the initial contents with the operations applied, and the session is in
   * sync whenever nothing is pending.
   */
  lemma {:induction false} WriteBack(w: World, ttl: Time, steps: seq<Step>)
    requires InSync(w) && FairRun(w, ttl, steps)
    ensures InSync(Run(w, ttl, steps))
    ensures Contents(Run(w, ttl, steps).session) == ApplyAll(Contents(w.session), steps)
    decreases |steps|
  {
    if steps != [] {
      StepRefines(w, ttl, steps[0]);
      WriteBack(Next(w, ttl, steps[0]), ttl, steps[1..]);
    }
  }

  /**
   * Run, save, load again: after any run and a successful Save, a fresh Load of the session's id gives
   * exactly the initial values with the run applied within the TTL, and an expiry error after it. A
   * session left empty has no id, and its old id no longer loads.
   */
  lemma SaveThenLoad(w: World, ttl: Time, steps: seq<Step>, c: Choice, later: Time)
    requires InSync(w) && FairRun(w, ttl, steps) && Fair(Run(w, ttl, steps), DoSave(c))
    ensures var before := Run(w, ttl, steps);
      var o := AfterSave(before.session, before.entries, ttl, c);
      var v := ApplyAll(Contents(w.session), steps);
      o.error.None? ==>
        && !o.session.dirty && Contents(o.session) == v
        && (o.session.id != "" ==>
              AfterLoad(Fresh, o.entries, o.session.id, later) ==
                if later <= c.now + ttl then Outcome(State(o.session.id, Some(v), false), o.entries, None)
                else Outcome(Fresh, o.entries - {o.session.id}, Some(StorageFailed(Expired))))
        && (v != map[] ==> o.session.id != "")
        && (v == map[] && before.session.dirty ==>
              && o.session.id == ""
              && AfterLoad(Fresh, o.entries, before.session.id, later) == Outcome(Fresh, o.entries, Some(StorageFailed(NotFound))))
  {
    WriteBack(w, ttl, steps);
    var before := Run(w, ttl, steps);
    StepRefines(before, ttl, DoSave(c));
  }

  /** Saving touches nothing in the storage but the entry of the session's old or new id. */
  lemma SaveTouchesOwnEntry(s: State, m: Entries, ttl: Time, c: Choice, id: string)
    requires id != s.id && id != IdForSave(s, c.gen)
    ensures SameData(m, AfterSave(s, m, ttl, c).entries, id)
    ensures id in m ==> AfterSave(s, m, ttl, c).entries[id] == m[id]
  {
  }

  /**
   * The error of uuid.Gen is overwritten: a Save that needed an id and got none still reports success,
   * but leaves the session without an id and out of sync. That happens exactly then.
   */
  lemma SaveKeepsSync(s: State, m: Entries, ttl: Time, c: Choice)
    requires InSync(World(s, m))
    ensures var o := AfterSave(s, m, ttl, c);
      && (InSync(World(o.session, o.entries)) <==>
            !(s.dirty && Contents(s) != map[] && c.encodes && s.id == "" && (c.gen.None? || c.gen.value == "")))
      && (!InSync(World(o.session, o.entries)) ==> o.error.None? && o.session.id == "" && "" in o.entries)
  {
  }

  // ----- the cookie -----

  /** If the session has an entry, a save of a session wrote it: it holds at least one value. */
  predicate EntryWritten(s: State, m: Entries) {
    s.id != "" && s.id in m ==> m[s.id].data.Gob? && m[s.id].data.values != map[]
  }

  /** Storage answers for this session with exactly its values. */
  predicate StoredLive(s: State, m: Entries, now: Time) {
    s.id != "" && IsLive(m, s.id, now) && m[s.id].data == Gob(Contents(s))
  }

  /**
   * Cookie and storage agree. A successful SaveHTTP that writes a cookie writes the current id: with
   * Max-Age the TTL in whole seconds when storage holds a live entry with exactly these values, and with
   * Max-Age -1 and an empty id otherwise. When it writes none, the session is empty and nothing changed.
   */
  lemma CookieAgrees(s: State, m: Entries, lines: seq<string>, cfg: Config, c: Choice)
    requires InSync(World(s, m)) && EntryWritten(s, m) && Fair(World(s, m), DoSave(c)) && 0 <= cfg.ttl
    ensures var o := AfterSaveHTTP(s, m, lines, cfg, c);
      o.error.None? ==>
        if WritesCookie(s) then
          var k := CookieOf(o.session, cfg);
          && o.lines == Put(lines, Render(k)) && k.id == o.session.id && k.name == cfg.cookieName
          && (StoredLive(o.session, o.entries, c.now) <==> Contents(o.session) != map[])
          && (k.id != "" <==> StoredLive(o.session, o.entries, c.now))
          && k.maxAge == (if StoredLive(o.session, o.entries, c.now) then cfg.ttl / Second else -1)
        else
          o.session == s && Contents(s) == map[] && o.entries == m && o.lines == lines
  {
    StepRefines(World(s, m), cfg.ttl, DoSave(c));
    SaveKeepsSync(s, m, cfg.ttl, c);
  }

  predicate Plain(s: string) {
    forall k :: 0 <= k < |s| ==> s[k] != '=' && s[k] != ';'
  }

  /** Set-Cookie text that starts like a session cookie parses to the trimmed cookie name. */
  lemma ParseRendered(name: string, rest: string)
    requires ';' in rest
    ensures '=' !in name && ';' !in name ==> ParseCookieName(name + "=" + rest) == Trim(name, IsTextSpace)
    ensures ';' in name && '=' !in name ==> ParseCookieName(name + "=" + rest) == ""
    ensures '=' in name ==> |ParseCookieName(name + "=" + rest)| < |name|
  {
    var c := name + "=" + rest;
    assert forall k :: 0 <= k < |name| ==> c[k] == name[k];
    assert c[|name|] == '=';
    var j :| 0 <= j < |rest| && rest[j] == ';';
    assert c[|name| + 1 + j] == ';';
    var e, i := IndexOf(c, '='), IndexOf(c, ';');
    if '=' !in name { assert e == |name| && c[..e] == name; }
  }

  /** The cookie written carries the configured name exactly when that name is trimmed and has no `=` or `;`. */
  lemma CookieNameExact(k: Cookie)
    ensures ParseCookieName(Render(k)) == k.name <==>
      '=' !in k.name && ';' !in k.name && Trim(k.name, IsTextSpace) == k.name
  {
    var rest := k.id + ";Path=/;Max-Age=" + Signed(k.maxAge) + ";HttpOnly;SameSite=Strict" +
      if k.secure then ";Secure" else "";
    assert rest[|k.id|] == ';';
    assert Render(k) == k.name + "=" + rest;
    ParseRendered(k.name, rest);
  }

  /** A name that survives the trip through a Set-Cookie line. */
  predicate UsableName(name: string) {
    name != "" && '=' !in name && ';' !in name && Trim(name, IsTextSpace) == name
  }

  /** The header has exactly one line named like the cookie, and it is that cookie. */
  predicate OnlySessionCookie(lines: seq<string>, k: Cookie) {
    Render(k) in lines &&
    forall i :: 0 <= i < |lines| && ParseCookieName(lines[i]) == k.name ==> lines[i] == Render(k)
  }

  /** Repeated saves under one name leave exactly one session cookie in the header, the latest. */
  lemma OneSessionCookie(earlier: seq<string>, k: Cookie)
    requires NamedOnce(earlier) && UsableName(k.name)
    ensures ParseCookieName(Render(k)) == k.name && OnlySessionCookie(Put(earlier, Render(k)), k)
    ensures NamedOnce(Put(earlier, Render(k)))
  {
    CookieNameExact(k);
    LatestOnly(earlier, Render(k));
  }

  /** The value a client sends back for a Set-Cookie line: from the first `=` to the first `;`. */
  function CookieValue(line: string): string {
    var e, i := IndexOf(line, '='), IndexOf(line, ';');
    if e < i then line[e + 1..i] else ""
  }

  lemma CookieValueIsID(k: Cookie)
    requires '=' !in k.name && ';' !in k.name && ';' !in k.id
    ensures CookieValue(Render(k)) == k.id
  {
    var rest := ";Path=/;Max-Age=" + Signed(k.maxAge) + ";HttpOnly;SameSite=Strict" +
      if k.secure then ";Secure" else "";
    var c := k.name + "=" + k.id + rest;
    assert Render(k) == c;
    assert forall j :: 0 <= j < |k.name| ==> c[j] == k.name[j];
    assert forall j :: 0 <= j < |k.id| ==> c[|k.name| + 1 + j] == k.id[j];
    var i := |k.name| + 1 + |k.id|;
    assert c[|k.name|] == '=' && c[i] == rest[0] == ';';
    assert IndexOf(c, '=') == |k.name| && IndexOf(c, ';') == i;
    assert c[|k.name| + 1..i] == k.id;
  }

  // ----- the cookie's attributes, read back -----

  /** The parts of a Set-Cookie line between semicolons (section 4.1 of RFC 6265). */
  function Attributes(line: string): seq<string>
    decreases |line|
  {
    var i := IndexOf(line, ';');
    if i == |line| then [line] else [line[..i]] + Attributes(line[i + 1..])
  }

  /** The number that decimal digits stand for. */
  function NumberOf(s: string): int {
    if s == "" then 0 else 10 * NumberOf(s[..|s| - 1]) + (s[|s| - 1] as int - '0' as int)
  }

  function SignedOf(s: string): int {
    if s != "" && s[0] == '-' then -NumberOf(s[1..]) else NumberOf(s)
  }

  predicate AllDigits(s: string) {
    forall k :: 0 <= k < |s| ==> '0' <= s[k] <= '9'
  }

  lemma {:induction false} DecimalReadsBack(n: nat)
    ensures Decimal(n) != "" && AllDigits(Decimal(n)) && NumberOf(Decimal(n)) == n
  {
    var s := Decimal(n);
    if n >= 10 {
      DecimalReadsBack(n / 10);
      assert s[..|s| - 1] == Decimal(n / 10);
    } else {
      assert s[..0] == "" && NumberOf("") == 0;
    }
  }

  lemma SignedReadsBack(n: int)
    ensures SignedOf(Signed(n)) == n && ';' !in Signed(n)
  {
    DecimalReadsBack(if n < 0 then -n else n);
    assert n < 0 ==> ("-" + Decimal(-n))[1..] == Decimal(-n);
  }

  lemma NextAttribute(a: string, rest: string)
    requires ';' !in a
    ensures Attributes(a) == [a] && Attributes(a + (";" + rest)) == [a] + Attributes(rest)
  {
    var s := a + (";" + rest);
    assert IndexOf(a, ';') == |a|;
    assert forall k :: 0 <= k < |a| ==> s[k] == a[k];
    assert s[|a|] == ';';
    assert IndexOf(s, ';') == |a| && s[|a| + 1..] == rest;
  }

  /** Name, id and the fixed end of a cookie line. */
  function LastAttributes(secure: bool): seq<string> {
    ["HttpOnly", "SameSite=Strict"] + if secure then ["Secure"] else []
  }

  lemma EndReadsBack(secure: bool)
    ensures Attributes("HttpOnly;SameSite=Strict" + if secure then ";Secure" else "") == LastAttributes(secure)
  {
    hide Attributes;
    var e := "SameSite=Strict" + if secure then ";Secure" else "";
    assert "HttpOnly;SameSite=Strict" + (if secure then ";Secure" else "") == "HttpOnly" + (";" + e);
    NextAttribute("HttpOnly", e);
    NextAttribute("SameSite=Strict", "Secure");
    NextAttribute("Secure", "");
    assert ";Secure" == ";" + "Secure";
    assert "SameSite=Strict" + "" == "SameSite=Strict";
  }

  /**
   * A cookie line read back: the id under the name, valid for the whole site, with a Max-Age whose text
   * is the decimal number of seconds, and Secure exactly when the cookie is.
   */
  lemma RenderReadsBack(k: Cookie)
    requires ';' !in k.name && ';' !in k.id
    ensures exists age ::
      SignedOf(age) == k.maxAge &&
      Attributes(Render(k)) == [k.name + "=" + k.id, "Path=/", "Max-Age=" + age] + LastAttributes(k.secure)
  {
    hide Attributes, Signed, SignedOf;
    var age := Signed(k.maxAge);
    SignedReadsBack(k.maxAge);
    var e := "HttpOnly;SameSite=Strict" + if k.secure then ";Secure" else "";
    RenderParts(k, e);
    EndReadsBack(k.secure);
    NextAttribute("Max-Age=" + age, e);
    NextAttribute("Path=/", "Max-Age=" + age + (";" + e));
    NextAttribute(k.name + "=" + k.id, "Path=/" + (";" + ("Max-Age=" + age + (";" + e))));
    assert SignedOf(age) == k.maxAge;
  }

  lemma RenderParts(k: Cookie, e: string)
    requires e == "HttpOnly;SameSite=Strict" + if k.secure then ";Secure" else ""
    ensures Render(k) == k.name + "=" + k.id + (";" + ("Path=/" + (";" + ("Max-Age=" + Signed(k.maxAge) + (";" + e)))))
  {
    hide Signed;
    var x, age, secure := k.name + "=" + k.id, Signed(k.maxAge), if k.secure then ";Secure" else "";
    Regroup(x, ";", "Path=/", ";", "Max-Age=", age, ";" + e);
    assert ";" + "Path=/" + ";" + "Max-Age=" == ";Path=/;Max-Age=";
    assert ";HttpOnly;SameSite=Strict" + secure == ";" + e;
    Assoc(x + ";Path=/;Max-Age=" + age, ";HttpOnly;SameSite=Strict", secure);
  }

  lemma Regroup(x: string, a: string, b: string, c: string, d: string, e: string, f: string)
    ensures x + (a + b + c + d) + e + f == x + (a + (b + (c + (d + e + f))))
  {
  }

  /** A session's line says Secure exactly when its store's cookies are secure. */
  lemma SecureExactly(s: State, cfg: Config)
    requires ';' !in cfg.cookieName && ';' !in s.id
    ensures "Secure" in Attributes(Render(CookieOf(s, cfg)))[1..] <==> !cfg.insecure
  {
    var k := CookieOf(s, cfg);
    RenderReadsBack(k);
    var age :| SignedOf(age) == k.maxAge &&
      Attributes(Render(k)) == [k.name + "=" + k.id, "Path=/", "Max-Age=" + age] + LastAttributes(k.secure);
    assert ("Max-Age=" + age)[0] == 'M';
    assert Attributes(Render(k))[1..] == ["Path=/", "Max-Age=" + age] + LastAttributes(k.secure);
  }

  lemma CookieValueIsPlain(k: Cookie)
    ensures ';' !in CookieValue(Render(k))
  {
  }

  /** Whoever sends back the session cookie from these lines gets the session `id` with exactly `v` from LoadHTTP. */
  predicate LeadsTo(lines: seq<string>, name: string, m: Entries, maxLen: nat, now: Time, id: string, v: Values) {
    && (exists i :: 0 <= i < |lines| && ParseCookieName(lines[i]) == name)
    && forall i :: 0 <= i < |lines| && ParseCookieName(lines[i]) == name ==>
         AfterLoadHTTP(Fresh, m, Some(CookieValue(lines[i])), maxLen, now) == Outcome(State(id, Some(v), false), m, None)
  }

  /** What LoadHTTP makes of the text sent back for a stored session. */
  lemma LoadsExactlyValid(m: Entries, sent: string, id: string, maxLen: nat, now: Time, v: Values)
    requires ';' !in sent && (';' !in id ==> sent == id)
    requires id != "" && id in m && m[id].data == Gob(v)
    ensures AfterLoadHTTP(Fresh, m, Some(sent), maxLen, now) == Outcome(State(id, Some(v), false), m, None) <==>
      ValidID(id, maxLen) && IsLive(m, id, now)
  {
    if ';' in id {
      assert sent != id;
      var k :| 0 <= k < |id| && id[k] == ';';
      assert !IsIDChar(id[k]);
    }
  }

  /**
   * A SaveHTTP that keeps values: the header's only session cookie leads to the session with exactly
   * those values, exactly within the TTL and when its id is one that LoadHTTP accepts.
   */
  lemma SavedCookieLeadsBack(s: State, m: Entries, lines: seq<string>, cfg: Config, c: Choice, maxLen: nat, later: Time)
    requires InSync(World(s, m)) && Fair(World(s, m), DoSave(c)) && NamedOnce(lines) && UsableName(cfg.cookieName)
    requires Contents(s) != map[]
    ensures var o := AfterSaveHTTP(s, m, lines, cfg, c);
      var id := IdForSave(s, c.gen);
      o.error.None? ==>
        (LeadsTo(o.lines, cfg.cookieName, o.entries, maxLen, later, id, Contents(s)) <==>
          ValidID(id, maxLen) && later <= c.now + cfg.ttl)
  {
    hide ParseCookieName, Render, CookieValue, ValidID, AfterLoadHTTP;
    var o := AfterSaveHTTP(s, m, lines, cfg, c);
    StepRefines(World(s, m), cfg.ttl, DoSave(c));
    if o.error.None? {
      var k := CookieOf(o.session, cfg);
      OneSessionCookie(lines, k);
      CookieValueIsPlain(k);
      if ';' !in k.id { CookieValueIsID(k); }
      LoadsExactlyValid(o.entries, CookieValue(Render(k)), k.id, maxLen, later, Contents(s));
    }
  }

  /**
   * From one request to the next: after any run on a session and a SaveHTTP that keeps values, what the
   * client sends back leads to the session with exactly the initial values with the run applied, exactly
   * within the TTL and when its id is one that LoadHTTP accepts.
   */
  lemma NextRequest(w: World, steps: seq<Step>, earlier: seq<string>, cfg: Config, c: Choice, maxLen: nat, later: Time)
    requires InSync(w) && FairRun(w, cfg.ttl, steps) && UsableName(cfg.cookieName)
    requires Fair(Run(w, cfg.ttl, steps), DoSave(c))
    ensures var before := Run(w, cfg.ttl, steps);
      var o := AfterSaveHTTP(before.session, before.entries, PutAll([], earlier), cfg, c);
      var v, id := ApplyAll(Contents(w.session), steps), IdForSave(before.session, c.gen);
      o.error.None? && v != map[] ==>
        (LeadsTo(o.lines, cfg.cookieName, o.entries, maxLen, later, id, v) <==>
          ValidID(id, maxLen) && later <= c.now + cfg.ttl)
  {
    hide ParseCookieName, Render, CookieValue, LeadsTo, ValidID;
    var before := Run(w, cfg.ttl, steps);
    WriteBack(w, cfg.ttl, steps);
    NamesDistinct(earlier);
    if ApplyAll(Contents(w.session), steps) != map[] {
      SavedCookieLeadsBack(before.session, before.entries, PutAll([], earlier), cfg, c, maxLen, later);
    }
  }

  /** Max-Age counts whole seconds of the TTL, the rest dropped toward zero; a past session's is -1. */
  lemma MaxAgeIsWholeSeconds(s: State, cfg: Config)
    ensures var age := CookieOf(s, cfg).maxAge;
      && (Contents(s) == map[] ==> age == -1)
      && (Contents(s) != map[] && cfg.ttl >= 0 ==> 0 <= cfg.ttl - age * 1_000_000_000 < 1_000_000_000)
      && (Contents(s) != map[] && cfg.ttl < 0 ==> -1_000_000_000 < cfg.ttl - age * 1_000_000_000 <= 0)
  {
  }

  // ----- which ids are valid -----

  /** A character that may stand in a cookie's value (section 4.1.1 of RFC 6265). */
  predicate IsCookieOctet(c: char) {
    c == '!' || '#' <= c <= '+' || '-' <= c <= ':' || '<' <= c <= '[' || ']' <= c <= '~'
  }

  predicate IsAlphanumeric(c: char) {
    '0' <= c <= '9' || 'A' <= c <= 'Z' || 'a' <= c <= 'z'
  }

  /** Valid ids survive in a cookie as they are; every alphanumeric text of an admitted length is one. */
  lemma ValidIDsFitCookies(id: string, maxLen: nat)
    ensures ValidID(id, maxLen) ==> 4 <= |id| <= maxLen && forall k :: 0 <= k < |id| ==> IsCookieOctet(id[k])
    ensures 4 <= |id| <= maxLen && (forall k :: 0 <= k < |id| ==> IsAlphanumeric(id[k])) ==> ValidID(id, maxLen)
  {
  }

  // ----- what fails -----

  /**
   * A Save fails exactly when gob cannot encode pending values, or when a session without changes has
   * lost its entry; it then changes nothing.
   */
  lemma SaveFailsExactly(s: State, m: Entries, ttl: Time, c: Choice)
    ensures var o := AfterSave(s, m, ttl, c);
      && (o.error == Some(GobFailed) <==> s.dirty && Contents(s) != map[] && !c.encodes)
      && (o.error == Some(StorageFailed(NotFound)) <==> !s.dirty && s.id != "" && s.id !in m)
      && (o.error.Some? ==> (o.error.value == GobFailed || o.error.value == StorageFailed(NotFound)) && o.session == s && o.entries == m)
  {
  }

  /** A Load that fails takes the id away and leaves the values that were there; it fails exactly when there is nothing to load. */
  lemma LoadFailsExactly(s: State, m: Entries, id: string, now: Time)
    ensures var o := AfterLoad(s, m, id, now);
      && (o.error == Some(StorageFailed(NotFound)) <==> id !in m)
      && (o.error == Some(StorageFailed(Expired)) <==> id in m && m[id].expires < now)
      && (o.error == Some(GobFailed) <==> IsLive(m, id, now) && m[id].data == Garbage)
      && (o.error.None? ==> IsLive(m, id, now) && m[id].data != Garbage)
      && (o.error.Some? || m[id].data == NoBytes ==> o.session == State("", s.values, s.dirty))
      && (o.error.None? && m[id].data.Gob? ==> o.session == State(id, Some(m[id].data.values), s.dirty))
  {
  }
}
