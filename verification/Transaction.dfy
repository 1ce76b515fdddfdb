/** One request and its response: the header is sent once, after the session is saved (transaction.go). */
module Transaction {
  import opened Strings
  import Storage
  import opened Cookies
  import Session
  import opened SessionRuns

  /**
   * The calls made on the underlying ResponseWriter, in order, with each SaveHTTP of the session in
   * between. A sent header carries the Set-Cookie lines of that moment, and whether a session was loaded.
   */
  datatype Event =
    | Saved(error: Option<Session.Error>)
    | HeaderSent(status: int, lines: seq<string>, loaded: bool)
    | Body(data: string)
    | Flushed

  datatype State = State(
    status: int, headerWritten: bool, session: Option<Session.State>,
    entries: Storage.Entries, lines: seq<string>, log: seq<Event>)

  function Initial(m: Storage.Entries): State {
    State(200, false, None, m, [], [])
  }

  // ----- what each method does -----

  function AfterSave(s: State, cfg: Session.Config, c: Session.Choice): State {
    if s.session.None? then s
    else
      var o := Session.AfterSaveHTTP(s.session.value, s.entries, s.lines, cfg, c);
      s.(session := Some(o.session), entries := o.entries, lines := o.lines, log := s.log + [Saved(o.error)])
  }

  function AfterWriteHeader(s: State, cfg: Session.Config, code: int, c: Session.Choice): State {
    if s.headerWritten then s
    else
      var t := AfterSave(s.(headerWritten := true), cfg, c);
      t.(log := t.log + [HeaderSent(code, t.lines, t.session.Some?)])
  }

  function AfterWrite(s: State, cfg: Session.Config, data: string, c: Session.Choice): State {
    var t := AfterWriteHeader(s, cfg, s.status, c);
    t.(log := t.log + [Body(data)])
  }

  function AfterFlush(s: State, cfg: Session.Config, canFlush: bool, c: Session.Choice): State {
    var t := AfterWriteHeader(s, cfg, s.status, c);
    if canFlush then t.(log := t.log + [Flushed]) else t
  }

  /** Session() loads the session of the request's cookie the first time it is asked for. */
  function AfterSession(s: State, cookie: Option<string>, maxLen: nat, now: Storage.Time): State {
    if s.session.Some? then s
    else
      var o := Session.AfterLoadHTTP(Session.Fresh, s.entries, cookie, maxLen, now);
      s.(session := Some(o.session), entries := o.entries)
  }

  function AfterClear(s: State, cfg: Session.Config, cookie: Option<string>, maxLen: nat, c: Session.Choice): State {
    var t := AfterSession(s, cookie, maxLen, c.now);
    AfterSave(t.(session := Some(Session.AfterClear(t.session.value))), cfg, c)
  }

  // ----- the objects -----

  class Transaction {
    const header: Header               // of the underlying ResponseWriter
    const sessions: Session.Store
    const canFlush: bool               // whether the ResponseWriter is an http.Flusher
    const cookie: Option<string>       // the session cookie of the request
    const maxLen: nat                  // uuid.StringMaxLen
    var Status: int
    var headerWritten: bool
    var session: Session.Session?
    var log: seq<Event>                // what was done to the ResponseWriter and the session

    constructor (header: Header, sessions: Session.Store, canFlush: bool, cookie: Option<string>, maxLen: nat)
      requires header.setCookie == []
      ensures Valid() && Value() == Initial(sessions.storage.entries)
      ensures this.header == header && this.sessions == sessions && this.cookie == cookie && this.maxLen == maxLen
      ensures this.canFlush == canFlush
    {
      this.header, this.sessions, this.canFlush, this.cookie, this.maxLen := header, sessions, canFlush, cookie, maxLen;
      Status, headerWritten, session, log := 200, false, null, [];
    }

    predicate Valid()
      reads this, session
    {
      session != null ==> session.store == sessions
    }

    function Value(): State
      reads this, session, header, sessions, sessions.storage
    {
      State(Status, headerWritten, if session == null then None else Some(session.Value()),
            sessions.storage.entries, header.setCookie, log)
    }

    method SaveInto(c: Session.Choice)
      requires Valid()
      modifies this`log, session, sessions.storage, header
      ensures Valid() && Value() == AfterSave(old(Value()), sessions.Settings(), c)
    {
      if session != null {
        var err := session.SaveHTTP(header, c);
        log := log + [Saved(err)];
      }
    }

    method SetCookie(cookie: string) returns (ok: bool)
      requires Valid()
      modifies header
      ensures Valid() && Value() == old(Value()).(lines := Put(old(header.setCookie), cookie))
      ensures ok <==> ParseCookieName(cookie) != ""
    {
      ok := HeaderSetCookie(header, cookie);
    }

    method WriteHeader(statusCode: int, c: Session.Choice)
      requires Valid()
      modifies this, session, sessions.storage, header
      ensures session == old(session) && Valid()
      ensures Value() == AfterWriteHeader(old(Value()), sessions.Settings(), statusCode, c)
    {
      if !headerWritten {
        headerWritten := true;
        SaveInto(c);
        log := log + [HeaderSent(statusCode, header.setCookie, session != null)];
      }
    }

    method Write(data: string, c: Session.Choice)
      requires Valid()
      modifies this, session, sessions.storage, header
      ensures session == old(session) && Valid()
      ensures Value() == AfterWrite(old(Value()), sessions.Settings(), data, c)
    {
      WriteHeader(Status, c);
      log := log + [Body(data)];
    }

    method Flush(c: Session.Choice) returns (ok: bool)
      requires Valid()
      modifies this, session, sessions.storage, header
      ensures session == old(session) && Valid() && ok == canFlush
      ensures Value() == AfterFlush(old(Value()), sessions.Settings(), canFlush, c)
    {
      WriteHeader(Status, c);
      if canFlush {
        log := log + [Flushed];
      }
      return canFlush;
    }

    /** `body` is the rendered message. */
    method RespondWithMessage(statusCode: int, body: string, c: Session.Choice)
      requires Valid()
      modifies this, session, sessions.storage, header
      ensures session == old(session) && Valid()
      ensures Value() == AfterWrite(old(Value()).(status := statusCode), sessions.Settings(), body, c)
    {
      Status := statusCode;
      Write(body, c);
    }

    method GetSession(now: Storage.Time) returns (s: Session.Session)
      requires Valid()
      modifies this`session, sessions.storage
      ensures session == s && Valid() && (old(session) == null ==> fresh(s)) && (old(session) != null ==> s == old(session))
      ensures Value() == AfterSession(old(Value()), cookie, maxLen, now)
    {
      if session == null {
        var err;
        session, err := sessions.LoadHTTP(cookie, maxLen, now);
      }
      return session;
    }

    method SaveSession(c: Session.Choice)
      requires Valid()
      modifies this`log, session, sessions.storage, header
      ensures Valid() && Value() == AfterSave(old(Value()), sessions.Settings(), c)
    {
      SaveInto(c);
    }

    method ClearSession(c: Session.Choice)
      requires Valid()
      modifies this, session, sessions.storage, header
      ensures Valid() && Value() == AfterClear(old(Value()), sessions.Settings(), cookie, maxLen, c)
    {
      var s := GetSession(c.now);
      s.Clear();
      SaveInto(c);
    }
  }

  // ----- runs -----

  datatype Op =
    | DoWriteHeader(code: int, c: Session.Choice)
    | DoWrite(data: string, c: Session.Choice)
    | DoFlush(canFlush: bool, c: Session.Choice)
    | DoRespond(code: int, body: string, c: Session.Choice)
    | DoSetStatus(code: int)
    | DoSession(cookie: Option<string>, maxLen: nat, now: Storage.Time)
    | DoSaveSession(c: Session.Choice)
    | DoClearSession(cookie: Option<string>, maxLen: nat, c: Session.Choice)
    | DoSetCookie(line: string)
      /** The handler, or anyone else behind the storage, acts on the loaded session. */
    | DoOnSession(step: Step)

  function Do(s: State, cfg: Session.Config, op: Op): State {
    match op
    case DoWriteHeader(code, c) => AfterWriteHeader(s, cfg, code, c)
    case DoWrite(data, c) => AfterWrite(s, cfg, data, c)
    case DoFlush(canFlush, c) => AfterFlush(s, cfg, canFlush, c)
    case DoRespond(code, body, c) => AfterWrite(s.(status := code), cfg, body, c)
    case DoSetStatus(code) => s.(status := code)
    case DoSession(cookie, maxLen, now) => AfterSession(s, cookie, maxLen, now)
    case DoSaveSession(c) => AfterSave(s, cfg, c)
    case DoClearSession(cookie, maxLen, c) => AfterClear(s, cfg, cookie, maxLen, c)
    case DoSetCookie(line) => s.(lines := Put(s.lines, line))
    case DoOnSession(step) =>
      if s.session.None? then s
      else
        var w := Next(World(s.session.value, s.entries), cfg.ttl, step);
        s.(session := Some(w.session), entries := w.entries)
  }

  function DoAll(s: State, cfg: Session.Config, ops: seq<Op>): State
    decreases |ops|
  {
    if ops == [] then s else DoAll(Do(s, cfg, ops[0]), cfg, ops[1..])
  }

  // ----- the header is sent once -----

  /** The status with which an operation would send the header, if it is one that sends it. */
  function Asks(status: int, op: Op): Option<int> {
    match op
    case DoWriteHeader(code, _) => Some(code)
    case DoWrite(_, _) => Some(status)
    case DoFlush(_, _) => Some(status)
    case DoRespond(code, _, _) => Some(code)
    case _ => None
  }

  /** The status that the first sending operation of a run asks for; None when nothing is sent. */
  function FirstStatus(status: int, ops: seq<Op>): Option<int>
    decreases |ops|
  {
    if ops == [] then None
    else if Asks(status, ops[0]).Some? then Asks(status, ops[0])
    else FirstStatus(if ops[0].DoSetStatus? then ops[0].code else status, ops[1..])
  }

  /** The statuses sent, in order. */
  function StatusesSent(log: seq<Event>): seq<int> {
    if log == [] then []
    else
      var last := log[|log| - 1];
      StatusesSent(log[..|log| - 1]) + (if last.HeaderSent? then [last.status] else [])
  }

  /** Nothing of the body, and no flush, goes out before a header; a loaded session was saved just before. */
  predicate ProperlyOrdered(log: seq<Event>) {
    log == [] || (
      var earlier, last := log[..|log| - 1], log[|log| - 1];
      && ProperlyOrdered(earlier)
      && (last.Body? || last.Flushed? ==> StatusesSent(earlier) != [])
      && (last.HeaderSent? && last.loaded ==> earlier != [] && earlier[|earlier| - 1].Saved?))
  }

  lemma LogSnoc(log: seq<Event>, e: Event)
    ensures StatusesSent(log + [e]) == StatusesSent(log) + if e.HeaderSent? then [e.status] else []
    ensures ProperlyOrdered(log)
      && (e.Body? || e.Flushed? ==> StatusesSent(log) != [])
      && (e.HeaderSent? && e.loaded ==> log != [] && log[|log| - 1].Saved?)
      ==> ProperlyOrdered(log + [e])
  {
    assert (log + [e])[..|log|] == log;
  }

  /** The bookkeeping that every operation keeps: the flag says whether a header went out. */
  predicate SentFlag(s: State) {
    ProperlyOrdered(s.log) && (if s.headerWritten then |StatusesSent(s.log)| == 1 else StatusesSent(s.log) == [])
  }

  lemma SaveKeepsFlag(s: State, cfg: Session.Config, c: Session.Choice)
    requires ProperlyOrdered(s.log)
    ensures var t := AfterSave(s, cfg, c);
      && ProperlyOrdered(t.log) && StatusesSent(t.log) == StatusesSent(s.log)
      && t.status == s.status && t.headerWritten == s.headerWritten
      && (t.session.Some? ==> t.log != [] && t.log[|t.log| - 1].Saved?)
  {
    if s.session.Some? {
      var o := Session.AfterSaveHTTP(s.session.value, s.entries, s.lines, cfg, c);
      LogSnoc(s.log, Saved(o.error));
    }
  }

  lemma WriteHeaderSends(s: State, cfg: Session.Config, code: int, c: Session.Choice)
    requires SentFlag(s)
    ensures var t := AfterWriteHeader(s, cfg, code, c);
      && SentFlag(t) && t.headerWritten && t.status == s.status
      && StatusesSent(t.log) == if s.headerWritten then StatusesSent(s.log) else [code]
  {
    if !s.headerWritten {
      var u := AfterSave(s.(headerWritten := true), cfg, c);
      SaveKeepsFlag(s.(headerWritten := true), cfg, c);
      var e := HeaderSent(code, u.lines, u.session.Some?);
      LogSnoc(u.log, e);
    }
  }

  lemma WriteSends(s: State, cfg: Session.Config, data: string, c: Session.Choice)
    requires SentFlag(s)
    ensures var t := AfterWrite(s, cfg, data, c);
      SentFlag(t) && t.headerWritten && StatusesSent(t.log) == if s.headerWritten then StatusesSent(s.log) else [s.status]
  {
    WriteHeaderSends(s, cfg, s.status, c);
    LogSnoc(AfterWriteHeader(s, cfg, s.status, c).log, Body(data));
  }

  lemma FlushSends(s: State, cfg: Session.Config, canFlush: bool, c: Session.Choice)
    requires SentFlag(s)
    ensures var t := AfterFlush(s, cfg, canFlush, c);
      SentFlag(t) && t.headerWritten && StatusesSent(t.log) == if s.headerWritten then StatusesSent(s.log) else [s.status]
  {
    WriteHeaderSends(s, cfg, s.status, c);
    LogSnoc(AfterWriteHeader(s, cfg, s.status, c).log, Flushed);
  }

  /** An operation that does not send leaves the flag and what was sent alone. */
  lemma OthersSendNothing(s: State, cfg: Session.Config, op: Op)
    requires SentFlag(s) && Asks(s.status, op).None?
    ensures var t := Do(s, cfg, op);
      && SentFlag(t) && t.headerWritten == s.headerWritten && StatusesSent(t.log) == StatusesSent(s.log)
      && t.status == if op.DoSetStatus? then op.code else s.status
  {
    hide AfterSave, ProperlyOrdered, StatusesSent, Next, Put;
    match op
    case DoSaveSession(c) => SaveKeepsFlag(s, cfg, c);
    case DoClearSession(cookie, maxLen, c) =>
      var t := AfterSession(s, cookie, maxLen, c.now);
      SaveKeepsFlag(t.(session := Some(Session.AfterClear(t.session.value))), cfg, c);
    case _ =>
  }

  lemma DoSends(s: State, cfg: Session.Config, op: Op)
    requires SentFlag(s) && Asks(s.status, op).Some?
    ensures var t := Do(s, cfg, op);
      && SentFlag(t) && t.headerWritten
      && StatusesSent(t.log) == if s.headerWritten then StatusesSent(s.log) else [Asks(s.status, op).value]
  {
    match op
    case DoWriteHeader(code, c) => WriteHeaderSends(s, cfg, code, c);
    case DoWrite(data, c) => WriteSends(s, cfg, data, c);
    case DoFlush(canFlush, c) => FlushSends(s, cfg, canFlush, c);
    case DoRespond(code, body, c) => WriteSends(s.(status := code), cfg, body, c);
  }

  lemma {:induction false} SentFrom(s: State, cfg: Session.Config, ops: seq<Op>)
    requires SentFlag(s)
    ensures var t := DoAll(s, cfg, ops);
      && SentFlag(t)
      && StatusesSent(t.log) ==
         if s.headerWritten then StatusesSent(s.log)
         else match FirstStatus(s.status, ops) case Some(code) => [code] case None => []
    decreases |ops|
  {
    if ops != [] {
      if Asks(s.status, ops[0]).Some? { DoSends(s, cfg, ops[0]); } else { OthersSendNothing(s, cfg, ops[0]); }
      SentFrom(Do(s, cfg, ops[0]), cfg, ops[1..]);
    }
  }

  /**
   * Send-once: over any run on a new transaction, the underlying header is sent exactly when some
   * operation asks for it, once, with the status of the first that does, before anything of the body,
   * and right after the session was saved when one was loaded.
   */
  lemma SendOnce(m: Storage.Entries, cfg: Session.Config, ops: seq<Op>)
    ensures var t := DoAll(Initial(m), cfg, ops);
      && StatusesSent(t.log) == (match FirstStatus(200, ops) case Some(code) => [code] case None => [])
      && ProperlyOrdered(t.log)
  {
    SentFrom(Initial(m), cfg, ops);
  }

  // ----- the body is what was written -----

  /** What an operation adds to the response after the header. */
  function Output(op: Op): seq<Event> {
    match op
    case DoWrite(data, _) => [Body(data)]
    case DoRespond(_, body, _) => [Body(body)]
    case DoFlush(canFlush, _) => if canFlush then [Flushed] else []
    case _ => []
  }

  function Outputs(ops: seq<Op>): seq<Event> {
    if ops == [] then [] else Output(ops[0]) + Outputs(ops[1..])
  }

  /** The bodies and flushes of a log, in order. */
  function AfterHeader(log: seq<Event>): seq<Event> {
    if log == [] then []
    else
      var last := log[|log| - 1];
      AfterHeader(log[..|log| - 1]) + if last.Body? || last.Flushed? then [last] else []
  }

  lemma AfterHeaderSnoc(log: seq<Event>, e: Event)
    ensures AfterHeader(log + [e]) == AfterHeader(log) + if e.Body? || e.Flushed? then [e] else []
  {
    assert (log + [e])[..|log|] == log;
  }

  lemma SaveWritesNothing(s: State, cfg: Session.Config, c: Session.Choice)
    ensures AfterHeader(AfterSave(s, cfg, c).log) == AfterHeader(s.log)
  {
    if s.session.Some? {
      var o := Session.AfterSaveHTTP(s.session.value, s.entries, s.lines, cfg, c);
      AfterHeaderSnoc(s.log, Saved(o.error));
    }
  }

  lemma HeaderWritesNothing(s: State, cfg: Session.Config, code: int, c: Session.Choice)
    ensures AfterHeader(AfterWriteHeader(s, cfg, code, c).log) == AfterHeader(s.log)
  {
    if !s.headerWritten {
      var t := AfterSave(s.(headerWritten := true), cfg, c);
      SaveWritesNothing(s.(headerWritten := true), cfg, c);
      AfterHeaderSnoc(t.log, HeaderSent(code, t.lines, t.session.Some?));
    }
  }

  lemma DoWrites(s: State, cfg: Session.Config, op: Op)
    ensures AfterHeader(Do(s, cfg, op).log) == AfterHeader(s.log) + Output(op)
  {
    hide AfterSave, AfterWriteHeader, AfterHeader, Next;
    match op
    case DoWriteHeader(code, c) => HeaderWritesNothing(s, cfg, code, c);
    case DoWrite(data, c) =>
      HeaderWritesNothing(s, cfg, s.status, c);
      AfterHeaderSnoc(AfterWriteHeader(s, cfg, s.status, c).log, Body(data));
    case DoFlush(canFlush, c) =>
      HeaderWritesNothing(s, cfg, s.status, c);
      AfterHeaderSnoc(AfterWriteHeader(s, cfg, s.status, c).log, Flushed);
    case DoRespond(code, body, c) =>
      HeaderWritesNothing(s.(status := code), cfg, code, c);
      AfterHeaderSnoc(AfterWriteHeader(s.(status := code), cfg, code, c).log, Body(body));
    case DoSaveSession(c) => SaveWritesNothing(s, cfg, c);
    case DoClearSession(cookie, maxLen, c) =>
      var t := AfterSession(s, cookie, maxLen, c.now);
      SaveWritesNothing(t.(session := Some(Session.AfterClear(t.session.value))), cfg, c);
    case _ =>
  }

  lemma EventsAssoc(a: seq<Event>, b: seq<Event>, c: seq<Event>)
    ensures a + b + c == a + (b + c)
  {
  }

  /** Over any run, what follows the header is exactly what was written and flushed, in order. */
  lemma {:induction false} BodyIsWhatWasWritten(s: State, cfg: Session.Config, ops: seq<Op>)
    ensures AfterHeader(DoAll(s, cfg, ops).log) == AfterHeader(s.log) + Outputs(ops)
    decreases |ops|
  {
    if ops == [] {
      assert AfterHeader(s.log) + [] == AfterHeader(s.log);
    } else {
      hide Do, AfterHeader, Output;
      DoWrites(s, cfg, ops[0]);
      BodyIsWhatWasWritten(Do(s, cfg, ops[0]), cfg, ops[1..]);
      EventsAssoc(AfterHeader(s.log), Output(ops[0]), Outputs(ops[1..]));
    }
  }

  // ----- the header carries the session -----

  /** The session is in sync with the storage, and the header names every cookie once. */
  predicate Good(s: State) {
    (s.session.Some? ==> InSync(World(s.session.value, s.entries))) && NamedOnce(s.lines)
  }

  predicate FairSave(s: State, c: Session.Choice) {
    s.session.Some? ==> Fair(World(s.session.value, s.entries), DoSave(c))
  }

  /** uuid.Gen succeeds where a save needs it, and others leave the session's own data alone. */
  predicate FairOp(s: State, op: Op) {
    match op
    case DoWriteHeader(_, c) => s.headerWritten || FairSave(s, c)
    case DoWrite(_, c) => s.headerWritten || FairSave(s, c)
    case DoFlush(_, c) => s.headerWritten || FairSave(s, c)
    case DoRespond(_, _, c) => s.headerWritten || FairSave(s, c)
    case DoSaveSession(c) => FairSave(s, c)
    case DoOnSession(step) => s.session.Some? ==> Fair(World(s.session.value, s.entries), step)
    case _ => true
  }

  predicate FairOps(s: State, cfg: Session.Config, ops: seq<Op>)
    decreases |ops|
  {
    ops == [] || (FairOp(s, ops[0]) && FairOps(Do(s, cfg, ops[0]), cfg, ops[1..]))
  }

  lemma PutKeepsNamedOnce(lines: seq<string>, c: string)
    requires NamedOnce(lines)
    ensures NamedOnce(Put(lines, c))
  {
    hide ParseCookieName;
    if ParseCookieName(c) != "" { LatestOnly(lines, c); }
  }

  lemma SaveKeepsGood(s: State, cfg: Session.Config, c: Session.Choice)
    requires Good(s) && FairSave(s, c)
    ensures Good(AfterSave(s, cfg, c))
  {
    hide NamedOnce, Put;
    if s.session.Some? {
      StepRefines(World(s.session.value, s.entries), cfg.ttl, DoSave(c));
      var o := Session.AfterSave(s.session.value, s.entries, cfg.ttl, c);
      PutKeepsNamedOnce(s.lines, Session.Render(Session.CookieOf(o.session, cfg)));
    }
  }

  lemma WriteHeaderKeepsGood(s: State, cfg: Session.Config, code: int, c: Session.Choice)
    requires Good(s) && (s.headerWritten || FairSave(s, c))
    ensures Good(AfterWriteHeader(s, cfg, code, c))
  {
    hide InSync, NamedOnce;
    if !s.headerWritten { SaveKeepsGood(s.(headerWritten := true), cfg, c); }
  }

  lemma SessionKeepsGood(s: State, cookie: Option<string>, maxLen: nat, now: Storage.Time)
    requires Good(s)
    ensures Good(AfterSession(s, cookie, maxLen, now)) && AfterSession(s, cookie, maxLen, now).session.Some?
  {
    hide NamedOnce;
    if s.session.None? && cookie.Some? && Session.ValidID(cookie.value, maxLen) {
      LoadedInSync(s.entries, cookie.value, now);
    }
  }

  lemma DoKeepsGood(s: State, cfg: Session.Config, op: Op)
    requires Good(s) && FairOp(s, op)
    ensures Good(Do(s, cfg, op))
  {
    hide NamedOnce, InSync, AfterSave, AfterWriteHeader, Next;
    match op
    case DoWriteHeader(code, c) => WriteHeaderKeepsGood(s, cfg, code, c);
    case DoWrite(data, c) => WriteHeaderKeepsGood(s, cfg, s.status, c);
    case DoFlush(canFlush, c) => WriteHeaderKeepsGood(s, cfg, s.status, c);
    case DoRespond(code, body, c) => WriteHeaderKeepsGood(s.(status := code), cfg, code, c);
    case DoSetStatus(code) =>
    case DoSession(cookie, maxLen, now) => SessionKeepsGood(s, cookie, maxLen, now);
    case DoSaveSession(c) => SaveKeepsGood(s, cfg, c);
    case DoClearSession(cookie, maxLen, c) => ClearKeepsGood(s, cfg, cookie, maxLen, c);
    case DoSetCookie(line) => PutKeepsNamedOnce(s.lines, line);
    case DoOnSession(step) =>
      if s.session.Some? { StepRefines(World(s.session.value, s.entries), cfg.ttl, step); }
  }

  lemma ClearKeepsGood(s: State, cfg: Session.Config, cookie: Option<string>, maxLen: nat, c: Session.Choice)
    requires Good(s)
    ensures Good(AfterClear(s, cfg, cookie, maxLen, c))
  {
    hide NamedOnce, AfterSave, AfterSession;
    SessionKeepsGood(s, cookie, maxLen, c.now);
    var t := AfterSession(s, cookie, maxLen, c.now);
    StepRefines(World(t.session.value, t.entries), cfg.ttl, DoClear);
    SaveKeepsGood(t.(session := Some(Session.AfterClear(t.session.value))), cfg, c);
  }

  lemma {:induction false} RunKeepsGood(s: State, cfg: Session.Config, ops: seq<Op>)
    requires Good(s) && FairOps(s, cfg, ops)
    ensures Good(DoAll(s, cfg, ops))
    decreases |ops|
  {
    if ops != [] {
      DoKeepsGood(s, cfg, ops[0]);
      RunKeepsGood(Do(s, cfg, ops[0]), cfg, ops[1..]);
    }
  }

  /** A save of a loaded session, and where its cookie leads. */
  lemma SaveLeadsBack(s: State, cfg: Session.Config, c: Session.Choice, maxLen: nat, later: Storage.Time)
    requires Good(s) && FairSave(s, c) && UsableName(cfg.cookieName)
    requires s.session.Some? && Session.Contents(s.session.value) != map[]
    ensures var t := AfterSave(s, cfg, c);
      var id := Session.IdForSave(s.session.value, c.gen);
      exists err: Option<Session.Error> ::
        && t.log == s.log + [Saved(err)]
        && (err.None? ==>
              (LeadsTo(t.lines, cfg.cookieName, t.entries, maxLen, later, id, Session.Contents(s.session.value)) <==>
                Session.ValidID(id, maxLen) && later <= c.now + cfg.ttl))
  {
    hide LeadsTo, Put, NamedOnce;
    SavedCookieLeadsBack(s.session.value, s.entries, s.lines, cfg, c, maxLen, later);
    var o := Session.AfterSaveHTTP(s.session.value, s.entries, s.lines, cfg, c);
    assert AfterSave(s, cfg, c).log == s.log + [Saved(o.error)];
  }

  /**
   * The header that goes out carries the session: after any run on a new transaction that has not sent
   * yet, the first WriteHeader saves the loaded session and then sends, and if the save succeeded, the
   * Set-Cookie lines in the header sent lead to exactly the session's values, exactly within the TTL and
   * when the session's id is one that LoadHTTP accepts.
   */
  lemma SentHeaderLeadsBack(
      m: Storage.Entries, cfg: Session.Config, ops: seq<Op>, code: int, c: Session.Choice, later: Storage.Time, maxLen: nat)
    requires FairOps(Initial(m), cfg, ops) && UsableName(cfg.cookieName)
    requires var s := DoAll(Initial(m), cfg, ops);
      && !s.headerWritten && FairSave(s, c)
      && s.session.Some? && Session.Contents(s.session.value) != map[]
    ensures var s := DoAll(Initial(m), cfg, ops);
      var t := AfterWriteHeader(s, cfg, code, c);
      var id := Session.IdForSave(s.session.value, c.gen);
      exists err: Option<Session.Error> ::
        && t.log == s.log + [Saved(err), HeaderSent(code, t.lines, true)]
        && (err.None? ==>
              (LeadsTo(t.lines, cfg.cookieName, t.entries, maxLen, later, id, Session.Contents(s.session.value)) <==>
                Session.ValidID(id, maxLen) && later <= c.now + cfg.ttl))
  {
    hide LeadsTo, AfterSave, NamedOnce, Good;
    var s := DoAll(Initial(m), cfg, ops);
    InitialGood(m);
    RunKeepsGood(Initial(m), cfg, ops);
    FlagKeepsGood(s);
    SaveLeadsBack(s.(headerWritten := true), cfg, c, maxLen, later);
    SaveKeepsLoaded(s.(headerWritten := true), cfg, c);
    var u, t := AfterSave(s.(headerWritten := true), cfg, c), AfterWriteHeader(s, cfg, code, c);
    assert t.lines == u.lines && t.entries == u.entries;
    assert t.log == u.log + [HeaderSent(code, t.lines, true)];
  }

  lemma InitialGood(m: Storage.Entries)
    ensures Good(Initial(m))
  {
    NamesDistinct([]);
  }

  lemma FlagKeepsGood(s: State)
    ensures Good(s.(headerWritten := true)) == Good(s)
  {
  }

  lemma SaveKeepsLoaded(s: State, cfg: Session.Config, c: Session.Choice)
    ensures AfterSave(s, cfg, c).session.Some? == s.session.Some?
  {
  }
}
