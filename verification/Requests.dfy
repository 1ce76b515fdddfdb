/** One request after another: what a session saved by one transaction is to the next (transaction.go, session/). */
module Requests {
  import opened Strings
  import opened Cookies
  import Storage
  import Session
  import opened SessionRuns
  import opened Transaction

  // ----- the session of a request -----

  /** The cookie names a session that the storage can hand out. */
  predicate Presents(m: Storage.Entries, cookie: Option<string>, maxLen: nat, now: Storage.Time) {
    cookie.Some? && Session.ValidID(cookie.value, maxLen) && Storage.IsLive(m, cookie.value, now) && m[cookie.value].data.Gob?
  }

  /**
   * On a new transaction, Session() hands out exactly the stored session that the request's cookie names,
   * and an empty session without id for any other cookie. It drops nothing that is live.
   */
  lemma SessionOfRequest(m: Storage.Entries, cookie: Option<string>, maxLen: nat, now: Storage.Time)
    ensures var t := AfterSession(Initial(m), cookie, maxLen, now);
      && t.session == Some(
           if Presents(m, cookie, maxLen, now) then Session.State(cookie.value, Some(m[cookie.value].data.values), false)
           else Session.State("", None, false))
      && Storage.Live(t.entries, now) == Storage.Live(m, now)
      && t == Initial(m).(session := t.session, entries := t.entries)
  {
  }

  /** Asked again, with whatever cookie, it hands out the session it has. */
  lemma SessionOnce(s: State, cookie: Option<string>, maxLen: nat, now: Storage.Time)
    requires s.session.Some?
    ensures AfterSession(s, cookie, maxLen, now) == s
  {
  }

  /** The session of the next transaction, for a client that sends back a line's cookie. */
  function NextSession(m: Storage.Entries, line: string, maxLen: nat, now: Storage.Time): Option<Session.State> {
    DoAll(Initial(m), Session.Config(0, "", false), [DoSession(Some(CookieValue(line)), maxLen, now)]).session
  }

  /** The only session cookie among the lines gives the next transaction the session `id` with values `v`. */
  predicate HandsOver(lines: seq<string>, name: string, m: Storage.Entries, maxLen: nat, now: Storage.Time, id: string, v: Session.Values) {
    && (exists i :: 0 <= i < |lines| && ParseCookieName(lines[i]) == name)
    && forall i :: 0 <= i < |lines| && ParseCookieName(lines[i]) == name ==>
         NextSession(m, lines[i], maxLen, now) == Some(Session.State(id, Some(v), false))
  }

  /** Handing over through a second transaction is what the cookie's way through LoadHTTP says. */
  lemma HandsOverIff(lines: seq<string>, name: string, m: Storage.Entries, maxLen: nat, now: Storage.Time, id: string, v: Session.Values)
    requires id != ""
    ensures HandsOver(lines, name, m, maxLen, now, id, v) <==> LeadsTo(lines, name, m, maxLen, now, id, v)
  {
    hide ParseCookieName, CookieValue;
    forall line: string
      ensures NextSession(m, line, maxLen, now) == Some(Session.State(id, Some(v), false)) <==>
        Session.AfterLoadHTTP(Session.Fresh, m, Some(CookieValue(line)), maxLen, now) ==
        Session.Outcome(Session.State(id, Some(v), false), m, None)
    {
      NextLoads(m, line, maxLen, now);
    }
  }

  lemma NextLoads(m: Storage.Entries, line: string, maxLen: nat, now: Storage.Time)
    ensures NextSession(m, line, maxLen, now) ==
      Some(Session.AfterLoadHTTP(Session.Fresh, m, Some(CookieValue(line)), maxLen, now).session)
  {
    var op := DoSession(Some(CookieValue(line)), maxLen, now);
    var s, cfg := Initial(m), Session.Config(0, "", false);
    assert [op][1..] == [];
    assert DoAll(s, cfg, [op]) == DoAll(Do(s, cfg, op), cfg, []) == AfterSession(s, op.cookie, maxLen, now);
  }

  // ----- from one transaction to the next -----

  /** The choice that comes with an operation that sends the header. */
  function ChoiceOf(op: Op): Session.Choice
    requires Asks(0, op).Some?
  {
    match op
    case DoWriteHeader(_, c) => c
    case DoWrite(_, c) => c
    case DoFlush(_, c) => c
    case DoRespond(_, _, c) => c
  }

  /** Operations on the response only. */
  predicate OnlyResponds(ops: seq<Op>) {
    forall k :: 0 <= k < |ops| ==> Asks(0, ops[k]).Some? || ops[k].DoSetStatus?
  }

  /** The first sender sends; what it writes behind the header changes nothing else. */
  lemma SenderSends(s: State, cfg: Session.Config, op: Op)
    requires Asks(0, op).Some?
    ensures var u, t := AfterWriteHeader(s, cfg, Asks(s.status, op).value, ChoiceOf(op)), Do(s, cfg, op);
      t.entries == u.entries && t.lines == u.lines && t.session == u.session && t.headerWritten && u.log <= t.log
  {
    hide AfterSave;
    SavesAlike(s, cfg, ChoiceOf(op), Asks(s.status, op).value);
  }

  lemma SavesAlike(s: State, cfg: Session.Config, c: Session.Choice, status: int)
    ensures AfterSave(s.(status := status, headerWritten := true), cfg, c) == AfterSave(s.(headerWritten := true), cfg, c).(status := status)
    ensures AfterSave(s.(headerWritten := true), cfg, c).headerWritten
  {
  }

  /** After the header is sent, answering on changes the log only. */
  lemma {:induction false} RespondingKeeps(s: State, cfg: Session.Config, ops: seq<Op>)
    requires s.headerWritten && OnlyResponds(ops)
    ensures var t := DoAll(s, cfg, ops); t.entries == s.entries && t.lines == s.lines && s.log <= t.log
    decreases |ops|
  {
    if ops != [] {
      hide AfterSave;
      var u := Do(s, cfg, ops[0]);
      assert u.entries == s.entries && u.lines == s.lines && u.headerWritten && s.log <= u.log;
      RespondingKeeps(u, cfg, ops[1..]);
    }
  }

  lemma DoAllCons(s: State, cfg: Session.Config, op: Op, ops: seq<Op>)
    ensures DoAll(s, cfg, []) == s
    ensures DoAll(s, cfg, [op] + ops) == DoAll(Do(s, cfg, op), cfg, ops)
  {
    hide Do;
    assert ([op] + ops)[0] == op && ([op] + ops)[1..] == ops;
  }

  lemma {:induction false} DoAllConcat(s: State, cfg: Session.Config, a: seq<Op>, b: seq<Op>)
    ensures DoAll(s, cfg, a + b) == DoAll(DoAll(s, cfg, a), cfg, b)
    decreases |a|
  {
    hide Do, DoAll;
    if a == [] {
      assert a + b == b;
      DoAllCons(s, cfg, DoSetStatus(0), []);
    } else {
      assert a == [a[0]] + a[1..] && a + b == [a[0]] + (a[1..] + b);
      DoAllCons(s, cfg, a[0], a[1..] + b);
      DoAllCons(s, cfg, a[0], a[1..]);
      DoAllConcat(Do(s, cfg, a[0]), cfg, a[1..], b);
    }
  }

  /** The header went out right after a save, with these lines. */
  predicate SentWith(log: seq<Event>, before: seq<Event>, err: Option<Session.Error>, code: int, lines: seq<string>) {
    before + [Saved(err), HeaderSent(code, lines, true)] <= log
  }

  /**
   * From request to request: a transaction does anything, in fairness, until some operation sends the
   * header, and then goes on answering. If the save before the header succeeded, a second transaction
   * made with the session cookie out of the header that was sent finds, through its own Session(), exactly
   * the values of the first, exactly within the TTL and when the session's id is a valid one.
   */
  lemma NextTransactionSees(
      m: Storage.Entries, cfg: Session.Config, ops: seq<Op>, sender: Op, more: seq<Op>, maxLen: nat, later: Storage.Time)
    requires FairOps(Initial(m), cfg, ops) && Asks(0, sender).Some? && OnlyResponds(more)
    requires UsableName(cfg.cookieName)
    requires var s := DoAll(Initial(m), cfg, ops);
      && !s.headerWritten && FairSave(s, ChoiceOf(sender))
      && s.session.Some? && Session.Contents(s.session.value) != map[]
    ensures var s, t := DoAll(Initial(m), cfg, ops), DoAll(Initial(m), cfg, ops + ([sender] + more));
      var id, v := Session.IdForSave(s.session.value, ChoiceOf(sender).gen), Session.Contents(s.session.value);
      exists err, lines ::
        && SentWith(t.log, s.log, err, Asks(s.status, sender).value, lines)
        && (err.None? ==>
              (HandsOver(lines, cfg.cookieName, t.entries, maxLen, later, id, v) <==>
                Session.ValidID(id, maxLen) && later <= ChoiceOf(sender).now + cfg.ttl))
  {
    hide Do, LeadsTo, HandsOver, AfterWriteHeader, Session.ValidID;
    var s, c := DoAll(Initial(m), cfg, ops), ChoiceOf(sender);
    var code := Asks(s.status, sender).value;
    DoAllConcat(Initial(m), cfg, ops, [sender] + more);
    var t := Do(s, cfg, sender);
    DoAllCons(s, cfg, sender, more);
    SenderSends(s, cfg, sender);
    RespondingKeeps(t, cfg, more);
    SentHeaderLeadsBack(m, cfg, ops, code, c, later, maxLen);
    var u := AfterWriteHeader(s, cfg, code, c);
    var err: Option<Session.Error> :| u.log == s.log + [Saved(err), HeaderSent(code, u.lines, true)]
        && (err.None? ==>
              (LeadsTo(u.lines, cfg.cookieName, u.entries, maxLen, later, Session.IdForSave(s.session.value, c.gen),
                       Session.Contents(s.session.value)) <==>
                Session.ValidID(Session.IdForSave(s.session.value, c.gen), maxLen) && later <= c.now + cfg.ttl));
    RunKeepsGood(Initial(m), cfg, ops);
    HandsOverIff(u.lines, cfg.cookieName, u.entries, maxLen, later, Session.IdForSave(s.session.value, c.gen), Session.Contents(s.session.value));
    assert SentWith(DoAll(t, cfg, more).log, s.log, err, code, u.lines);
  }

  /**
   * SaveSession at any time: the Set-Cookie lines of the moment hand the session over to the next
   * transaction, if the save succeeded, exactly within the TTL and when its id is a valid one.
   */
  lemma SavedSessionHandsOver(s: State, cfg: Session.Config, c: Session.Choice, maxLen: nat, later: Storage.Time)
    requires Good(s) && FairSave(s, c) && UsableName(cfg.cookieName)
    requires s.session.Some? && Session.Contents(s.session.value) != map[]
    ensures var t := Do(s, cfg, DoSaveSession(c));
      var id, v := Session.IdForSave(s.session.value, c.gen), Session.Contents(s.session.value);
      exists err: Option<Session.Error> ::
        && t.log == s.log + [Saved(err)]
        && (err.None? ==>
              (HandsOver(t.lines, cfg.cookieName, t.entries, maxLen, later, id, v) <==>
                Session.ValidID(id, maxLen) && later <= c.now + cfg.ttl))
  {
    hide AfterSave, LeadsTo, HandsOver, Session.ValidID;
    SaveLeadsBack(s, cfg, c, maxLen, later);
    SavedHasID(s, cfg, c);
    var t := AfterSave(s, cfg, c);
    HandsOverIff(t.lines, cfg.cookieName, t.entries, maxLen, later, Session.IdForSave(s.session.value, c.gen),
                 Session.Contents(s.session.value));
  }

  lemma SavedHasID(s: State, cfg: Session.Config, c: Session.Choice)
    requires Good(s) && FairSave(s, c) && s.session.Some? && Session.Contents(s.session.value) != map[]
    ensures Session.IdForSave(s.session.value, c.gen) != ""
  {
  }

  /** SetCookie: the header has exactly one line of that name, this one, and nothing else has changed. */
  lemma CookieIsSet(s: State, cfg: Session.Config, line: string)
    requires NamedOnce(s.lines) && ParseCookieName(line) != ""
    ensures var t := Do(s, cfg, DoSetCookie(line));
      && line in t.lines && NamedOnce(t.lines)
      && (forall k :: 0 <= k < |t.lines| && ParseCookieName(t.lines[k]) == ParseCookieName(line) ==> t.lines[k] == line)
      && (forall l :: l in s.lines && ParseCookieName(l) != ParseCookieName(line) ==> l in t.lines)
      && t == s.(lines := t.lines)
  {
    hide ParseCookieName;
    LatestOnly(s.lines, line);
    PutReplaces(s.lines, line);
    var t := Put(s.lines, line);
    var j := FirstNamed(s.lines, ParseCookieName(line));
    forall l | l in s.lines && ParseCookieName(l) != ParseCookieName(line) ensures l in t {
      var k :| 0 <= k < |s.lines| && s.lines[k] == l;
      assert k != j && t[k] == l;
    }
  }

  /**
   * ClearSession on a session that holds anything, or has unsaved changes: the session is empty and
   * without id, its entry is gone, the cookie tells the client to forget it, and the old id gets the next
   * transaction an empty session.
   */
  lemma ClearedIsForgotten(
      s: State, cfg: Session.Config, cookie: Option<string>, maxLen: nat, c: Session.Choice, nextLen: nat, later: Storage.Time)
    requires var x := AfterSession(s, cookie, maxLen, c.now).session.value; Session.Contents(x) != map[] || x.dirty
    ensures var before, t := Do(s, cfg, DoSession(cookie, maxLen, c.now)), Do(s, cfg, DoClearSession(cookie, maxLen, c));
      var old_ := before.session.value.id;
      && t.session.Some? && t.session.value.id == "" && Session.Contents(t.session.value) == map[] && !t.session.value.dirty
      && t.entries == before.entries - {old_}
      && t.lines == Put(s.lines, Session.Render(Session.Cookie(cfg.cookieName, "", -1, !cfg.insecure)))
      && AfterSession(Initial(t.entries), Some(old_), nextLen, later).session == Some(Session.Fresh)
  {
    hide Put, ParseCookieName, Session.Render;
  }
}
