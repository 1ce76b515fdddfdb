/**
 * Sessions: a write-back cache with a dirty bit and a lazily assigned id over expiring storage
 * (session/session.go, session/store.go).
 */
module Session {
  import opened Strings
  import opened Storage
  import opened Cookies

  type Values = map<string, Value>

  datatype Error = StorageFailed(error: StorageError) | GobFailed | NoCookie | InvalidID | InvalidCookie

  /** What the surroundings decide during one Save: the time, whether gob can encode the values, and uuid.Gen. */
  datatype Choice = Choice(now: Time, encodes: bool, gen: Option<string>)

  /** The settings of a store of sessions. */
  datatype Config = Config(ttl: Time, cookieName: string, insecure: bool)

  /** A session's fields; `values` is None for Go's nil map. */
  datatype State = State(id: string, values: Option<Values>, dirty: bool)

  const Fresh: State := State("", None, false)

  function Contents(s: State): Values {
    if s.values.Some? then s.values.value else map[]
  }

  // ----- operations on the fields -----

  /** Set; a None value is Go's nil and deletes. */
  function AfterSet(s: State, key: string, value: Option<Value>): State {
    match (s.values, value)
    case (None, None) => s
    case (None, Some(v)) => State(s.id, Some(map[key := v]), true)
    case (Some(m), None) => State(s.id, Some(m - {key}), true)
    case (Some(m), Some(v)) => State(s.id, Some(m[key := v]), true)
  }

  function AfterDel(s: State, key: string): State {
    if key in Contents(s) then State(s.id, Some(Contents(s) - {key}), true) else s
  }

  function AfterClear(s: State): State {
    if Contents(s) != map[] then State(s.id, None, true) else s
  }

  datatype Outcome = Outcome(session: State, entries: Entries, error: Option<Error>)

  function AfterLoad(s: State, m: Entries, id: string, now: Time): Outcome {
    var get := At(now, Get(id));
    match Reply(m, get)
    case Failed(e) => Outcome(s.(id := ""), After(m, get), Some(StorageFailed(e)))
    case Found(NoBytes) => Outcome(s.(id := ""), After(m, get), None)
    case Found(Garbage) => Outcome(s.(id := ""), After(m, get), Some(GobFailed))
    case Found(Gob(values)) => Outcome(State(id, Some(values), s.dirty), After(m, get), None)
    case Done => Outcome(s, m, None)
  }

  /** The bytes of an id that may come from a cookie. `maxLen` is uuid.StringMaxLen. */
  predicate IsIDChar(b: char) {
    '0' <= b <= '9' || 'A' <= b <= 'Z' || 'a' <= b <= 'z' || b == '-' || b == '_'
  }

  predicate ValidID(id: string, maxLen: nat) {
    4 <= |id| <= maxLen && forall k :: 0 <= k < |id| ==> IsIDChar(id[k])
  }

  /** LoadHTTP: only a cookie whose value is a valid id is loaded. */
  function AfterLoadHTTP(s: State, m: Entries, cookie: Option<string>, maxLen: nat, now: Time): Outcome {
    if cookie.None? then Outcome(s, m, Some(NoCookie))
    else if !ValidID(cookie.value, maxLen) then Outcome(s, m, Some(InvalidID))
    else AfterLoad(s, m, cookie.value, now)
  }

  /** The id under which a Save of a session with values stores them; a failed uuid.Gen leaves it empty. */
  function IdForSave(s: State, gen: Option<string>): string {
    if s.id != "" then s.id else if gen.Some? then gen.value else ""
  }

  function AfterSave(s: State, m: Entries, ttl: Time, c: Choice): Outcome {
    if s.dirty then
      if Contents(s) == map[] then Outcome(State("", s.values, false), After(m, At(c.now, Del(s.id))), None)
      else if !c.encodes then Outcome(s, m, Some(GobFailed))
      else
        var id := IdForSave(s, c.gen);
        Outcome(State(id, s.values, false), After(m, At(c.now, Set(id, Gob(Contents(s)), ttl))), None)
    else if s.id != "" then
      var refresh := At(c.now, Refresh(s.id, ttl));
      Outcome(s, After(m, refresh), if Reply(m, refresh).Failed? then Some(StorageFailed(NotFound)) else None)
    else Outcome(s, m, None)
  }

  // ----- the cookie -----

  /** What the session cookie says. */
  datatype Cookie = Cookie(name: string, id: string, maxAge: int, secure: bool)

  /** Go's integer division truncates toward zero. */
  function TruncDiv(a: int, b: int): int
    requires b > 0
  {
    if a >= 0 then a / b else -((-a) / b)
  }

  const Second: Time := 1_000_000_000

  function Decimal(n: nat): string {
    if n < 10 then [('0' as int + n) as char] else Decimal(n / 10) + [('0' as int + n % 10) as char]
  }

  function Signed(n: int): string {
    if n < 0 then "-" + Decimal(-n) else Decimal(n)
  }

  function Render(c: Cookie): string {
    c.name + "=" + c.id + ";Path=/;Max-Age=" + Signed(c.maxAge) + ";HttpOnly;SameSite=Strict" +
    if c.secure then ";Secure" else ""
  }

  function CookieOf(s: State, cfg: Config): Cookie {
    Cookie(cfg.cookieName, s.id, if Contents(s) != map[] then TruncDiv(cfg.ttl, Second) else -1, !cfg.insecure)
  }

  datatype HTTPOutcome = HTTPOutcome(session: State, entries: Entries, lines: seq<string>, error: Option<Error>)

  /** Whether a SaveHTTP goes on to write a cookie when its Save succeeds. */
  predicate WritesCookie(s: State) {
    s.dirty || s.id != ""
  }

  function AfterSaveHTTP(s: State, m: Entries, lines: seq<string>, cfg: Config, c: Choice): HTTPOutcome {
    var o := AfterSave(s, m, cfg.ttl, c);
    if o.error.Some? || !WritesCookie(s) then HTTPOutcome(o.session, o.entries, lines, o.error)
    else
      var cookie := Render(CookieOf(o.session, cfg));
      HTTPOutcome(o.session, o.entries, Put(lines, cookie),
                  if ParseCookieName(cookie) == "" then Some(InvalidCookie) else None)
  }

  // ----- the objects -----

  class Store {
    var TTL: Time
    var CookieName: string
    var AllowInsecureCookies: bool
    var storage: MemoryStorage

    /** A store is given its defaults when its storage is set. */
    constructor (storage: MemoryStorage)
      ensures this.storage == storage && Settings() == Config(2_592_000 * Second, "session", false)
    {
      TTL, CookieName, AllowInsecureCookies := 0, "", false;
      this.storage := storage;
      new;
      SetStorage(storage);
    }

    function Settings(): Config
      reads this
    {
      Config(TTL, CookieName, AllowInsecureCookies)
    }

    method SetStorage(storage: MemoryStorage)
      modifies this
      ensures this.storage == storage && AllowInsecureCookies == old(AllowInsecureCookies)
      ensures TTL == if old(TTL) == 0 then 2_592_000 * Second else old(TTL)
      ensures CookieName == if old(CookieName) == "" then "session" else old(CookieName)
    {
      this.storage := storage;
      if TTL == 0 {
        TTL := 30 * 24 * 3600 * Second;
      }
      if CookieName == "" {
        CookieName := "session";
      }
    }

    /** A session for a request; always valid, loaded when the request's cookie leads to stored values. */
    method LoadHTTP(cookie: Option<string>, maxLen: nat, now: Time) returns (s: Session, err: Option<Error>)
      modifies storage
      ensures fresh(s) && s.store == this
      ensures Outcome(s.Value(), storage.entries, err) == AfterLoadHTTP(Fresh, old(storage.entries), cookie, maxLen, now)
    {
      s := new Session(this);
      err := s.LoadHTTP(cookie, maxLen, now);
    }
  }

  class Session {
    var ID: string
    const store: Store
    var values: Option<Values>
    var dirty: bool

    constructor (store: Store)
      ensures this.store == store && Value() == Fresh
    {
      ID, values, dirty := "", None, false;
      this.store := store;
    }

    function Value(): State
      reads this
    {
      State(ID, values, dirty)
    }

    method Set(key: string, value: Option<Storage.Value>)
      modifies this
      ensures Value() == AfterSet(old(Value()), key, value)
    {
      if values == None {
        if value != None {
          values := Some(map[key := value.value]);
          dirty := true;
        }
      } else {
        if value == None {
          values := Some(values.value - {key});
        } else {
          values := Some(values.value[key := value.value]);
        }
        dirty := true;
      }
    }

    method Get(key: string) returns (v: Option<Storage.Value>)
      ensures v == if key in Contents(Value()) then Some(Contents(Value())[key]) else None
    {
      if values != None {
        return if key in values.value then Some(values.value[key]) else None;
      }
      return None;
    }

    method Del(key: string)
      modifies this
      ensures Value() == AfterDel(old(Value()), key)
    {
      if values != None {
        if key in values.value {
          values := Some(values.value - {key});
          dirty := true;
        }
      }
    }

    method Clear()
      modifies this
      ensures Value() == AfterClear(old(Value()))
    {
      if values != None && |values.value| != 0 {
        values := None;
        dirty := true;
      }
    }

    method LoadHTTP(cookie: Option<string>, maxLen: nat, now: Time) returns (err: Option<Error>)
      modifies this, store.storage
      ensures Outcome(Value(), store.storage.entries, err) ==
        AfterLoadHTTP(old(Value()), old(store.storage.entries), cookie, maxLen, now)
    {
      if cookie.None? {
        return Some(NoCookie);
      }
      var valid := IsValidSessionID(cookie.value, maxLen);
      if !valid {
        return Some(InvalidID);
      }
      err := Load(cookie.value, now);
    }

    method Load(id: string, now: Time) returns (err: Option<Error>)
      modifies this, store.storage
      ensures Outcome(Value(), store.storage.entries, err) ==
        AfterLoad(old(Value()), old(store.storage.entries), id, now)
    {
      var data := store.storage.GetSessionData(id, now);
      ID := "";
      if data.Failed? {
        return Some(StorageFailed(data.error));
      }
      if data.data != NoBytes {
        if data.data == Garbage {
          return Some(GobFailed);
        }
        values := Some(data.data.values);
        ID := id;
      }
      return None;
    }

    method Save(c: Choice) returns (err: Option<Error>)
      modifies this, store.storage
      ensures Outcome(Value(), store.storage.entries, err) ==
        AfterSave(old(Value()), old(store.storage.entries), store.TTL, c)
    {
      err := None;
      if dirty {
        if values == None || |values.value| == 0 {
          var a := store.storage.DelSessionData(ID, c.now);
          ID := "";
        } else if !c.encodes {
          err := Some(GobFailed);
        } else {
          if |ID| == 0 {
            if c.gen != None {
              ID := c.gen.value;
            }
          }
          var a := store.storage.SetSessionData(ID, Gob(values.value), store.TTL, c.now);
        }
        if err == None {
          dirty := false;
        }
      } else if |ID| > 0 {
        var a := store.storage.RefreshSessionData(ID, store.TTL, c.now);
        if a.Failed? {
          err := Some(StorageFailed(a.error));
        }
      }
    }

    /** The cookie for the response. */
    method BakeSessionIDCookie() returns (cookie: string)
      ensures cookie == Render(CookieOf(Value(), store.Settings()))
    {
      var maxAgeSec := -1;
      if values != None && |values.value| > 0 {
        maxAgeSec := TruncDiv(store.TTL, Second);
      }
      cookie := store.CookieName + "=" + ID + ";Path=/;Max-Age=" + Signed(maxAgeSec) + ";HttpOnly;SameSite=Strict";
      if !store.AllowInsecureCookies {
        cookie := cookie + ";Secure";
      } else {
        assert cookie + "" == cookie;
      }
    }

    method SaveHTTP(w: Header, c: Choice) returns (err: Option<Error>)
      modifies this, store.storage, w
      ensures HTTPOutcome(Value(), store.storage.entries, w.setCookie, err) ==
        AfterSaveHTTP(old(Value()), old(store.storage.entries), old(w.setCookie), store.Settings(), c)
    {
      var shouldSetCookie := dirty || |ID| > 0;
      err := Save(c);
      if err != None || !shouldSetCookie {
        return;
      }
      var cookie := BakeSessionIDCookie();
      var ok := HeaderSetCookie(w, cookie);
      return if ok then None else Some(InvalidCookie);
    }
  }

  method IsValidSessionID(id: string, maxLen: nat) returns (valid: bool)
    ensures valid <==> ValidID(id, maxLen)
  {
    if |id| < 4 || |id| > maxLen {
      return false;
    }
    var i := 0;
    while i < |id|
      invariant 0 <= i <= |id| && forall k :: 0 <= k < i ==> IsIDChar(id[k])
    {
      var b := id[i];
      if !(('0' <= b && b <= '9') || ('A' <= b && b <= 'Z') || ('a' <= b && b <= 'z') || b == '-' || b == '_') {
        return false;
      }
      i := i + 1;
    }
    return true;
  }
}
