/** In-memory session storage with lazy expiry (session/storage.go), run one call at a time. */
module Storage {
  import opened Strings

  /** Instants and durations in nanoseconds. */
  type Time = int

  /** A stored session value, opaque to this library. */
  type Value = string

  /**
   * The bytes kept for a session: none at all, the gob encoding of a value map, or bytes that gob
   * rejects. Encoding followed by decoding is exact.
   */
  datatype Data = NoBytes | Gob(values: map<string, Value>) | Garbage

  datatype Entry = Entry(data: Data, expires: Time)

  type Entries = map<string, Entry>

  datatype StorageError = NotFound | Expired

  datatype Answer = Found(data: Data) | Failed(error: StorageError) | Done

  predicate IsLive(m: Entries, id: string, now: Time) {
    id in m && now <= m[id].expires
  }

  datatype Op = Get(id: string) | Set(id: string, data: Data, ttl: Time) | Refresh(id: string, ttl: Time) | Del(id: string)

  datatype Timed = At(now: Time, op: Op)

  /** The map left behind by one call. */
  function After(m: Entries, t: Timed): Entries {
    match t.op
    case Get(id) => if id in m && t.now > m[id].expires then m - {id} else m
    case Set(id, data, ttl) => m[id := Entry(data, t.now + ttl)]
    case Refresh(id, ttl) => if id in m then m[id := Entry(m[id].data, t.now + ttl)] else m
    case Del(id) => m - {id}
  }

  /** What one call answers. */
  function Reply(m: Entries, t: Timed): Answer {
    match t.op
    case Get(id) =>
      if id !in m then Failed(NotFound)
      else if t.now > m[id].expires then Failed(Expired)
      else Found(m[id].data)
    case Set(_, _, _) => Done
    case Refresh(id, _) => if id in m then Done else Failed(NotFound)
    case Del(_) => Done
  }

  class MemoryStorage {
    var entries: Entries

    constructor ()
      ensures entries == map[]
    {
      entries := map[];
    }

    method GetSessionData(id: string, now: Time) returns (a: Answer)
      modifies this
      ensures entries == After(old(entries), At(now, Get(id))) && a == Reply(old(entries), At(now, Get(id)))
    {
      if id in entries {
        var entry := entries[id];
        if now > entry.expires {
          entries := entries - {id};
          return Failed(Expired);
        }
        return Found(entry.data);
      }
      return Failed(NotFound);
    }

    method SetSessionData(id: string, data: Data, ttl: Time, now: Time) returns (a: Answer)
      modifies this
      ensures entries == After(old(entries), At(now, Set(id, data, ttl))) && a == Done
    {
      entries := entries[id := Entry(data, now + ttl)];
      return Done;
    }

    method RefreshSessionData(id: string, ttl: Time, now: Time) returns (a: Answer)
      modifies this
      ensures entries == After(old(entries), At(now, Refresh(id, ttl))) && a == Reply(old(entries), At(now, Refresh(id, ttl)))
    {
      if id !in entries {
        return Failed(NotFound);
      }
      var entry := entries[id];
      entry := entry.(expires := now + ttl);
      entries := entries[id := entry];
      return Done;
    }

    method DelSessionData(id: string, now: Time) returns (a: Answer)
      modifies this
      ensures entries == After(old(entries), At(now, Del(id))) && a == Done
    {
      entries := entries - {id};
      return Done;
    }
  }

  // ----- lazy expiry against eager expiry -----

  /** Only the entries that have not expired. */
  function Live(m: Entries, now: Time): Entries {
    map id | id in m && now <= m[id].expires :: m[id]
  }

  /** The reference store drops entries the moment they expire, before looking at a call. */
  function EagerAfter(m: Entries, t: Timed): Entries {
    After(Live(m, t.now), t)
  }

  function EagerReply(m: Entries, t: Timed): Answer {
    Reply(Live(m, t.now), t)
  }

  function Answers(m: Entries, run: seq<Timed>): seq<Answer>
    decreases |run|
  {
    if run == [] then [] else [Reply(m, run[0])] + Answers(After(m, run[0]), run[1..])
  }

  function EagerAnswers(m: Entries, run: seq<Timed>): seq<Answer>
    decreases |run|
  {
    if run == [] then [] else [EagerReply(m, run[0])] + EagerAnswers(EagerAfter(m, run[0]), run[1..])
  }

  /** The clock never goes back. */
  predicate Monotone(run: seq<Timed>, from: Time) {
    run == [] || (from <= run[0].now && Monotone(run[1..], run[0].now))
  }

  /** No Refresh meets an entry that has expired but is still in the map. */
  predicate RefreshesLive(m: Entries, run: seq<Timed>)
    decreases |run|
  {
    run == [] || (
      && (run[0].op.Refresh? && run[0].op.id in m ==> IsLive(m, run[0].op.id, run[0].now))
      && RefreshesLive(After(m, run[0]), run[1..]))
  }

  /** The same data found, or both fail. */
  predicate SameOutcome(a: Answer, b: Answer) {
    a == b || (a.Failed? && b.Failed?)
  }

  predicate SameOutcomes(a: seq<Answer>, b: seq<Answer>) {
    |a| == |b| && forall k :: 0 <= k < |a| ==> SameOutcome(a[k], b[k])
  }

  lemma LiveLater(m: Entries, e: Entries, from: Time, now: Time)
    requires Live(m, from) == Live(e, from) && from <= now
    ensures Live(m, now) == Live(e, now)
  {
    forall id ensures id in Live(m, now) <==> id in Live(e, now) {
      assert id in Live(m, from) <==> id in Live(e, from);
    }
    forall id | id in Live(m, now) ensures Live(m, now)[id] == Live(e, now)[id] {
      assert Live(m, from)[id] == Live(e, from)[id];
    }
  }

  /** One call on two stores with the same live entries. */
  lemma LazyStep(m: Entries, e: Entries, t: Timed)
    requires Live(m, t.now) == Live(e, t.now)
    requires t.op.Refresh? && t.op.id in m ==> IsLive(m, t.op.id, t.now)
    ensures SameOutcome(Reply(m, t), EagerReply(e, t))
    ensures Live(After(m, t), t.now) == Live(EagerAfter(e, t), t.now)
  {
    var l := Live(m, t.now);
    assert t.op.id in l <==> IsLive(m, t.op.id, t.now);
    assert Live(l, t.now) == l;
    var a, b := After(m, t), EagerAfter(e, t);
    forall id ensures id in Live(a, t.now) <==> id in Live(b, t.now) {
      assert id in l <==> IsLive(m, id, t.now);
    }
  }

  /**
   * When lazy expiry refines eager expiry. On a monotone clock, every call finds the same data, or fails,
   * on both stores, exactly when no Refresh meets an entry that has expired but was not collected.
   */
  lemma {:induction false} LazyRefinesEager(m: Entries, e: Entries, run: seq<Timed>, from: Time)
    requires Live(m, from) == Live(e, from) && Monotone(run, from)
    ensures SameOutcomes(Answers(m, run), EagerAnswers(e, run)) <==> RefreshesLive(m, run)
    decreases |run|
  {
    if run != [] {
      var t := run[0];
      LiveLater(m, e, from, t.now);
      OutcomesCons(m, e, run);
      if t.op.Refresh? && t.op.id in m && !IsLive(m, t.op.id, t.now) {
        assert t.op.id !in Live(m, t.now);
        assert !SameOutcome(Reply(m, t), EagerReply(e, t));
      } else {
        LazyStep(m, e, t);
        LazyRefinesEager(After(m, t), EagerAfter(e, t), run[1..], t.now);
      }
    }
  }

  lemma OutcomesCons(m: Entries, e: Entries, run: seq<Timed>)
    requires run != []
    ensures SameOutcomes(Answers(m, run), EagerAnswers(e, run)) <==>
      SameOutcome(Reply(m, run[0]), EagerReply(e, run[0])) &&
      SameOutcomes(Answers(After(m, run[0]), run[1..]), EagerAnswers(EagerAfter(e, run[0]), run[1..]))
  {
    var a, b := Answers(After(m, run[0]), run[1..]), EagerAnswers(EagerAfter(e, run[0]), run[1..]);
    var x, y := Answers(m, run), EagerAnswers(e, run);
    assert x[0] == Reply(m, run[0]) && y[0] == EagerReply(e, run[0]);
    if SameOutcomes(x, y) {
      forall k | 0 <= k < |a| ensures SameOutcome(a[k], b[k]) {
        assert SameOutcome(x[k + 1], y[k + 1]);
      }
    }
  }

  /**
   * What a Refresh of an entry that has expired but was not collected does: it brings the entry back,
   * where eager expiry fails.
   */
  lemma RefreshRevives(m: Entries, e: Entries, id: string, now: Time, ttl: Time)
    requires Live(m, now) == Live(e, now) && id in m && !IsLive(m, id, now) && 0 <= ttl
    ensures var run := [At(now, Refresh(id, ttl)), At(now, Get(id))];
      && Answers(m, run) == [Done, Found(m[id].data)]
      && EagerAnswers(e, run) == [Failed(NotFound), Failed(NotFound)]
  {
    var r, g := At(now, Refresh(id, ttl)), At(now, Get(id));
    var run := [r, g];
    assert id !in Live(m, now);
    assert run[1..] == [g];
    Answers1(After(m, r), EagerAfter(e, r), g);
  }

  lemma Answers1(m: Entries, e: Entries, t: Timed)
    ensures Answers(m, [t]) == [Reply(m, t)] && EagerAnswers(e, [t]) == [EagerReply(e, t)]
  {
    assert [t][1..] == [];
  }

  predicate NeverSets(run: seq<Timed>, id: string) {
    forall k :: 0 <= k < |run| && run[k].op.Set? ==> run[k].op.id != id
  }

  /** Once an id is gone, it stays unknown until it is set again, whatever the clock does. */
  lemma {:induction false} GoneStaysGone(m: Entries, run: seq<Timed>, id: string)
    requires id !in m && NeverSets(run, id)
    ensures |Answers(m, run)| == |run|
    ensures forall k :: 0 <= k < |run| && run[k].op == Get(id) ==> Answers(m, run)[k] == Failed(NotFound)
    decreases |run|
  {
    if run != [] {
      GoneStaysGone(After(m, run[0]), run[1..], id);
    }
  }

  /** What a write leaves to be found under its id, and until when; None when it leaves nothing. */
  function LeftBy(m: Entries, t: Timed): Option<(Data, Time)> {
    match t.op
    case Set(_, data, ttl) => Some((data, t.now + ttl))
    case Refresh(id, ttl) => if id in m then Some((m[id].data, t.now + ttl)) else None
    case _ => None
  }

  /** Nothing in the run writes under `id`. */
  predicate OnlyGets(run: seq<Timed>, id: string) {
    forall k :: 0 <= k < |run| && run[k].op.id == id ==> run[k].op.Get?
  }

  /** Every Get of `id` finds exactly this, and nothing past its time. */
  predicate GetsFind(run: seq<Timed>, answers: seq<Answer>, id: string, left: Option<(Data, Time)>) {
    |answers| == |run| && forall k :: 0 <= k < |run| && run[k].op == Get(id) ==>
      if left.Some? && run[k].now <= left.value.1 then answers[k] == Found(left.value.0) else answers[k].Failed?
  }

  lemma {:induction false} MonotoneFrom(run: seq<Timed>, from: Time)
    requires Monotone(run, from)
    ensures forall k :: 0 <= k < |run| ==> from <= run[k].now
  {
    if run != [] {
      MonotoneFrom(run[1..], run[0].now);
      assert forall k :: 0 < k < |run| ==> run[k] == run[1..][k - 1];
    }
  }

  lemma GetsFindCons(run: seq<Timed>, answers: seq<Answer>, id: string, left: Option<(Data, Time)>)
    requires run != [] && answers != [] && GetsFind(run[1..], answers[1..], id, left)
    requires GetsFind([run[0]], [answers[0]], id, left)
    ensures GetsFind(run, answers, id, left)
  {
    assert [run[0]][0] == run[0];
    forall k | 0 <= k < |run| && run[k].op == Get(id)
      ensures if left.Some? && run[k].now <= left.value.1 then answers[k] == Found(left.value.0) else answers[k].Failed?
    {
      if k > 0 { assert run[1..][k - 1] == run[k] && answers[1..][k - 1] == answers[k]; }
    }
  }

  /** An entry is found until its time, on a monotone clock, as long as nothing else is written under its id. */
  lemma {:induction false} FoundUntil(m: Entries, run: seq<Timed>, id: string, from: Time)
    requires id in m && Monotone(run, from) && OnlyGets(run, id)
    ensures GetsFind(run, Answers(m, run), id, Some((m[id].data, m[id].expires)))
    decreases |run|
  {
    if run != [] {
      var t, rest := run[0], run[1..];
      var n := After(m, t);
      assert forall k :: 0 <= k < |rest| ==> rest[k] == run[k + 1];
      assert t.op.id == id ==> t.op.Get?;
      if id in n {
        FoundUntil(n, rest, id, t.now);
      } else {
        GoneStaysGone(n, rest, id);
        MonotoneFrom(rest, t.now);
      }
      GetsFindCons(run, Answers(m, run), id, Some((m[id].data, m[id].expires)));
    }
  }

  /**
   * The last write decides: after a Set, a Refresh or a Del, every Get of the id finds the data set, or
   * kept by the Refresh, until exactly the time of the write plus its TTL; after that, and after a Del or
   * a Refresh of an unknown id, it finds nothing.
   */
  lemma LastWriteDecides(m: Entries, t: Timed, run: seq<Timed>)
    requires !t.op.Get? && Monotone(run, t.now) && OnlyGets(run, t.op.id)
    ensures GetsFind(run, Answers(After(m, t), run), t.op.id, LeftBy(m, t))
  {
    var n, id := After(m, t), t.op.id;
    if id in n { FoundUntil(n, run, id, t.now); } else { GoneStaysGone(n, run, id); }
  }

  /** Between two Sets of an id, Get answers `Expired` at most once, and `NotFound` from then on. */
  lemma ExpiredOnce(m: Entries, id: string, now: Time, run: seq<Timed>)
    requires Reply(m, At(now, Get(id))) == Failed(Expired) && NeverSets(run, id)
    ensures var later := Answers(After(m, At(now, Get(id))), run);
      |later| == |run| && forall k :: 0 <= k < |run| && run[k].op == Get(id) ==> later[k] == Failed(NotFound)
  {
    GoneStaysGone(After(m, At(now, Get(id))), run, id);
  }
}
