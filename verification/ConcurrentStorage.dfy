/**
 * The same storage with each call split into its atomic steps on the shared map (session/storage.go):
 * any number of threads, any interleaving, any clock readings.
 */
module ConcurrentStorage {
  import opened Storage

  type Thread = nat

  /** Where a thread is inside a call, with its local variables. */
  datatype Pc =
    | Idle
    | GetLoaded(id: string, entry: Entry)      // the entry is loaded, the clock not yet checked
    | GetDeleting(id: string)                  // found expired, about to delete
    | SetStoring(id: string, entry: Entry)     // the new entry is made, about to store it
    | RefreshLoaded(id: string, entry: Entry)  // the entry is loaded, the clock not yet read
    | RefreshStoring(id: string, entry: Entry) // about to store the extended entry

  /** One successful return of GetSessionData. */
  datatype Returned = Returned(id: string, data: Data, expires: Time, checkedAt: Time)

  /**
   * The shared map and the threads' positions. Histories: `written` holds the arguments of every Set
   * begun so far, `stamped` every expiry that a Set or Refresh computed, `returned` what Gets returned.
   */
  datatype State = State(
    m: Entries, pcs: map<Thread, Pc>,
    written: set<(string, Data)>, stamped: set<(string, Time)>, returned: seq<Returned>)

  const Init: State := State(map[], map[], {}, {}, [])

  function PcOf(s: State, t: Thread): Pc {
    if t in s.pcs then s.pcs[t] else Idle
  }

  function Goto(s: State, t: Thread, pc: Pc): State {
    s.(pcs := s.pcs[t := pc])
  }

  datatype Step =
    | GetLoad(t: Thread, id: string)
    | GetCheck(t: Thread, now: Time)
    | GetDelete(t: Thread)
    | SetBegin(t: Thread, id: string, data: Data, ttl: Time, now: Time)
    | SetStore(t: Thread)
    | RefreshLoad(t: Thread, id: string)
    | RefreshClock(t: Thread, ttl: Time, now: Time)
    | RefreshStore(t: Thread)
    | DelDelete(t: Thread, id: string)

  /** One atomic step; a thread that is not at this step does nothing. */
  function Next(s: State, step: Step): State {
    match (step, PcOf(s, step.t))
    case (GetLoad(t, id), Idle) =>
      if id in s.m then Goto(s, t, GetLoaded(id, s.m[id])) else s
    case (GetCheck(t, now), GetLoaded(id, e)) =>
      if now > e.expires then Goto(s, t, GetDeleting(id))
      else Goto(s, t, Idle).(returned := s.returned + [Returned(id, e.data, e.expires, now)])
    case (GetDelete(t), GetDeleting(id)) =>
      Goto(s, t, Idle).(m := s.m - {id})
    case (SetBegin(t, id, data, ttl, now), Idle) =>
      Goto(s, t, SetStoring(id, Entry(data, now + ttl)))
        .(written := s.written + {(id, data)}, stamped := s.stamped + {(id, now + ttl)})
    case (SetStore(t), SetStoring(id, e)) =>
      Goto(s, t, Idle).(m := s.m[id := e])
    case (RefreshLoad(t, id), Idle) =>
      if id in s.m then Goto(s, t, RefreshLoaded(id, s.m[id])) else s
    case (RefreshClock(t, ttl, now), RefreshLoaded(id, e)) =>
      Goto(s, t, RefreshStoring(id, e.(expires := now + ttl))).(stamped := s.stamped + {(id, now + ttl)})
    case (RefreshStore(t), RefreshStoring(id, e)) =>
      Goto(s, t, Idle).(m := s.m[id := e])
    case (DelDelete(_, id), Idle) =>
      s.(m := s.m - {id})
    case _ => s
  }

  function Exec(s: State, steps: seq<Step>): State {
    if steps == [] then s else Next(Exec(s, steps[..|steps| - 1]), steps[|steps| - 1])
  }

  /** The entry carries data that some Set of this id was given, and an expiry computed for this id. */
  predicate Known(s: State, id: string, e: Entry) {
    (id, e.data) in s.written && (id, e.expires) in s.stamped
  }

  predicate PcKnown(s: State, pc: Pc) {
    match pc
    case Idle => true
    case GetDeleting(_) => true
    case GetLoaded(id, e) => Known(s, id, e)
    case SetStoring(id, e) => Known(s, id, e)
    case RefreshLoaded(id, e) => Known(s, id, e)
    case RefreshStoring(id, e) => Known(s, id, e)
  }

  predicate Provenance(s: State) {
    && (forall id :: id in s.m ==> Known(s, id, s.m[id]))
    && (forall t :: t in s.pcs ==> PcKnown(s, s.pcs[t]))
    && (forall k :: 0 <= k < |s.returned| ==>
          var r := s.returned[k];
          (r.id, r.data) in s.written && (r.id, r.expires) in s.stamped && r.checkedAt <= r.expires)
  }

  lemma NextKeepsProvenance(s: State, step: Step)
    requires Provenance(s)
    ensures Provenance(Next(s, step))
    ensures s.written <= Next(s, step).written && s.returned <= Next(s, step).returned
  {
    var n := Next(s, step);
    assert PcKnown(s, PcOf(s, step.t));
    assert s.written <= n.written && s.stamped <= n.stamped;
    forall t | t in n.pcs ensures PcKnown(n, n.pcs[t]) {
      if t != step.t { assert PcKnown(s, s.pcs[t]); }
    }
  }

  /**
   * Provenance in every interleaving: at every moment, whatever a Get of an id has returned was passed
   * to a Set of that id begun earlier, under an expiry computed for that id and not passed when checked.
   */
  lemma {:induction false} GetProvenance(steps: seq<Step>)
    ensures Provenance(Exec(Init, steps))
  {
    if steps != [] {
      GetProvenance(steps[..|steps| - 1]);
      NextKeepsProvenance(Exec(Init, steps[..|steps| - 1]), steps[|steps| - 1]);
    }
  }

  /** A Get can only return what was written before it returned: histories only grow along a run. */
  lemma {:induction false} HistoriesGrow(steps: seq<Step>, k: nat)
    requires k <= |steps|
    ensures var a, b := Exec(Init, steps[..k]), Exec(Init, steps); a.written <= b.written && a.returned <= b.returned
  {
    if k == |steps| {
      assert steps[..k] == steps;
    } else {
      var init := steps[..|steps| - 1];
      assert init[..k] == steps[..k];
      HistoriesGrow(init, k);
      GetProvenance(init);
      NextKeepsProvenance(Exec(Init, init), steps[|steps| - 1]);
    }
  }

  // ----- what the split into steps can do to an entry -----

  lemma ExecSnoc(s: State, steps: seq<Step>, step: Step)
    ensures Exec(s, steps + [step]) == Next(Exec(s, steps), step)
  {
    assert (steps + [step])[..|steps|] == steps;
  }

  lemma {:induction false} ExecCons(s: State, step: Step, steps: seq<Step>)
    ensures Exec(s, [step] + steps) == Exec(Next(s, step), steps)
  {
    var n := |steps| - 1;
    if steps == [] {
      assert [step] + steps == [] + [step];
      ExecSnoc(s, [], step);
    } else {
      assert [step] + steps == [step] + steps[..n] + [steps[n]];
      ExecCons(s, step, steps[..n]);
      ExecSnoc(s, [step] + steps[..n], steps[n]);
    }
  }

  /** The atomic steps of one call; steps that do not apply are passed over. */
  function StepsOf(t: Thread, call: Timed): seq<Step> {
    match call.op
    case Get(id) => [GetLoad(t, id), GetCheck(t, call.now), GetDelete(t)]
    case Set(id, data, ttl) => [SetBegin(t, id, data, ttl, call.now), SetStore(t)]
    case Refresh(id, ttl) => [RefreshLoad(t, id), RefreshClock(t, ttl, call.now), RefreshStore(t)]
    case Del(id) => [DelDelete(t, id)]
  }

  lemma TwoSteps(s: State, a: Step, b: Step)
    ensures Exec(s, [a]) == Next(s, a) && Exec(s, [a, b]) == Next(Next(s, a), b)
  {
    assert [a, b] == [a] + [b] && [a] == [] + [a];
    ExecSnoc(s, [], a);
    ExecSnoc(s, [a], b);
  }

  lemma ThirdStep(s: State, a: Step, b: Step, c: Step)
    ensures Exec(s, [a, b, c]) == Next(Next(Next(s, a), b), c)
  {
    TwoSteps(s, a, b);
    assert [a, b, c] == [a, b] + [c];
    ExecSnoc(s, [a, b], c);
  }

  /** The call has had its effect on the map, has answered, and the thread is done with it. */
  predicate CallDone(s: State, t: Thread, call: Timed, n: State) {
    && n.m == After(s.m, call) && PcOf(n, t) == Idle
    && n.returned == s.returned +
         if Reply(s.m, call).Found? then [Returned(call.op.id, Reply(s.m, call).data, s.m[call.op.id].expires, call.now)]
         else []
  }

  lemma UninterruptedGet(s: State, t: Thread, id: string, now: Time)
    requires PcOf(s, t) == Idle
    ensures CallDone(s, t, At(now, Get(id)), Next(Next(Next(s, GetLoad(t, id)), GetCheck(t, now)), GetDelete(t)))
  {
  }

  lemma UninterruptedRefresh(s: State, t: Thread, id: string, ttl: Time, now: Time)
    requires PcOf(s, t) == Idle
    ensures CallDone(s, t, At(now, Refresh(id, ttl)), Next(Next(Next(s, RefreshLoad(t, id)), RefreshClock(t, ttl, now)), RefreshStore(t)))
  {
  }

  /** A call that is not interrupted is what the storage does for one call at a time. */
  lemma UninterruptedCall(s: State, t: Thread, call: Timed)
    requires PcOf(s, t) == Idle
    ensures CallDone(s, t, call, Exec(s, StepsOf(t, call)))
  {
    hide Exec;
    match call.op
    case Get(id) =>
      hide Next, CallDone;
      ThirdStep(s, GetLoad(t, id), GetCheck(t, call.now), GetDelete(t));
      UninterruptedGet(s, t, id, call.now);
    case Set(id, data, ttl) => TwoSteps(s, SetBegin(t, id, data, ttl, call.now), SetStore(t));
    case Refresh(id, ttl) =>
      hide Next, CallDone;
      ThirdStep(s, RefreshLoad(t, id), RefreshClock(t, ttl, call.now), RefreshStore(t));
      UninterruptedRefresh(s, t, id, ttl, call.now);
    case Del(id) => TwoSteps(s, DelDelete(t, id), DelDelete(t, id));
  }

  /** No Del of `id`; up to the instant `until` for Gets, and with new expiries that reach it. */
  predicate Sparing(step: Step, id: string, until: Time) {
    match step
    case GetCheck(_, now) => now <= until
    case SetBegin(_, i, _, ttl, now) => i == id ==> until <= now + ttl
    case RefreshClock(_, ttl, now) => until <= now + ttl
    case DelDelete(_, i) => i != id
    case _ => true
  }

  predicate AllSparing(steps: seq<Step>, id: string, until: Time) {
    forall k :: 0 <= k < |steps| ==> Sparing(steps[k], id, until)
  }

  /** A call in flight that is about to delete `id`, or holds an entry of it that expires too early. */
  predicate Threatens(pc: Pc, id: string, until: Time) {
    match pc
    case GetDeleting(i) => i == id
    case GetLoaded(i, e) => i == id && e.expires < until
    case SetStoring(i, e) => i == id && e.expires < until
    case RefreshStoring(i, e) => i == id && e.expires < until
    case _ => false
  }

  predicate Unthreatened(s: State, id: string, until: Time) {
    forall t :: t in s.pcs ==> !Threatens(s.pcs[t], id, until)
  }

  ghost predicate StaysLive(s: State, id: string, until: Time) {
    forall steps :: AllSparing(steps, id, until) ==> IsLive(Exec(s, steps).m, id, until)
  }

  lemma {:induction false} LiveWhileUnthreatened(s: State, id: string, until: Time, steps: seq<Step>)
    requires IsLive(s.m, id, until) && Unthreatened(s, id, until) && AllSparing(steps, id, until)
    ensures var n := Exec(s, steps); IsLive(n.m, id, until) && Unthreatened(n, id, until)
  {
    if steps != [] {
      var n := |steps| - 1;
      LiveWhileUnthreatened(s, id, until, steps[..n]);
      var before, step := Exec(s, steps[..n]), steps[n];
      assert Sparing(step, id, until);
      assert !Threatens(PcOf(before, step.t), id, until);
    }
  }

  /** The threat carried out: the thread goes on alone until the entry is gone. */
  lemma {:induction false} CarryOut(s: State, t: Thread, id: string, until: Time) returns (steps: seq<Step>)
    requires t in s.pcs && Threatens(s.pcs[t], id, until)
    ensures AllSparing(steps, id, until) && id !in Exec(s, steps).m
    decreases match s.pcs[t] case GetDeleting(_) => 0 case GetLoaded(_, _) => 1 case _ => 2
  {
    var pc := s.pcs[t];
    if pc.GetDeleting? {
      steps := [GetDelete(t)];
      ExecCons(s, GetDelete(t), []);
    } else if pc.GetLoaded? {
      var later := CarryOut(Next(s, GetCheck(t, until)), t, id, until);
      steps := [GetCheck(t, until)] + later;
      ExecCons(s, GetCheck(t, until), later);
    } else {
      var store := if pc.SetStoring? then SetStore(t) else RefreshStore(t);
      var stored := Next(s, store);
      var later := CarryOut(Next(stored, GetLoad(t, id)), t, id, until);
      steps := [store] + ([GetLoad(t, id)] + later);
      ExecCons(stored, GetLoad(t, id), later);
      ExecCons(s, store, [GetLoad(t, id)] + later);
    }
  }

  /**
   * When a fresh entry can be lost. An entry that is live until some instant survives every continuation
   * up to then without a Del of it, exactly when no call in flight threatens it.
   */
  lemma FreshEntryKept(s: State, id: string, until: Time)
    requires IsLive(s.m, id, until)
    ensures StaysLive(s, id, until) <==> Unthreatened(s, id, until)
  {
    if Unthreatened(s, id, until) {
      forall steps | AllSparing(steps, id, until) ensures IsLive(Exec(s, steps).m, id, until) {
        LiveWhileUnthreatened(s, id, until, steps);
      }
    } else {
      var t :| t in s.pcs && Threatens(s.pcs[t], id, until);
      var steps := CarryOut(s, t, id, until);
    }
  }

  /** A call in flight that will store this entry of `id`, or for a Refresh the same data under a new expiry. */
  predicate Carries(pc: Pc, id: string) {
    match pc
    case SetStoring(i, _) => i == id
    case RefreshLoaded(i, _) => i == id
    case RefreshStoring(i, _) => i == id
    case _ => false
  }

  predicate NothingCarried(s: State, id: string) {
    forall t :: t in s.pcs ==> !Carries(s.pcs[t], id)
  }

  /** Nothing in flight carries other data of `id` than `data`. */
  predicate OnlyCarried(s: State, id: string, data: Data) {
    forall t :: t in s.pcs && Carries(s.pcs[t], id) ==> s.pcs[t].entry.data == data
  }

  predicate NoSetBegins(steps: seq<Step>, id: string) {
    forall k :: 0 <= k < |steps| && steps[k].SetBegin? ==> steps[k].id != id
  }

  ghost predicate StaysAbsent(s: State, id: string) {
    forall steps :: NoSetBegins(steps, id) ==> id !in Exec(s, steps).m
  }

  predicate Holds(m: Entries, id: string, data: Data) {
    id in m ==> m[id].data == data
  }

  ghost predicate DataStays(s: State, id: string, data: Data) {
    forall steps :: NoSetBegins(steps, id) ==> Holds(Exec(s, steps).m, id, data)
  }

  lemma {:induction false} AbsentWhileNotCarried(s: State, id: string, steps: seq<Step>)
    requires id !in s.m && NothingCarried(s, id) && NoSetBegins(steps, id)
    ensures var n := Exec(s, steps); id !in n.m && NothingCarried(n, id)
  {
    if steps != [] {
      var n := |steps| - 1;
      AbsentWhileNotCarried(s, id, steps[..n]);
      var before, step := Exec(s, steps[..n]), steps[n];
      assert !Carries(PcOf(before, step.t), id);
    }
  }

  lemma {:induction false} HeldWhileCarried(s: State, id: string, data: Data, steps: seq<Step>)
    requires Holds(s.m, id, data) && OnlyCarried(s, id, data) && NoSetBegins(steps, id)
    ensures var n := Exec(s, steps); Holds(n.m, id, data) && OnlyCarried(n, id, data)
  {
    if steps != [] {
      var n := |steps| - 1;
      HeldWhileCarried(s, id, data, steps[..n]);
      var before, step := Exec(s, steps[..n]), steps[n];
      assert Carries(PcOf(before, step.t), id) ==> PcOf(before, step.t).entry.data == data;
    }
  }

  /** The thread goes on alone until what it carries is stored. */
  lemma {:induction false} Deliver(s: State, t: Thread, id: string) returns (steps: seq<Step>)
    requires t in s.pcs && Carries(s.pcs[t], id)
    ensures NoSetBegins(steps, id)
    ensures var m := Exec(s, steps).m; id in m && m[id].data == s.pcs[t].entry.data
    decreases s.pcs[t].RefreshLoaded?
  {
    var pc := s.pcs[t];
    if pc.RefreshLoaded? {
      var later := Deliver(Next(s, RefreshClock(t, 0, 0)), t, id);
      steps := [RefreshClock(t, 0, 0)] + later;
      ExecCons(s, RefreshClock(t, 0, 0), later);
    } else {
      var store := if pc.SetStoring? then SetStore(t) else RefreshStore(t);
      steps := [store];
      ExecCons(s, store, []);
    }
  }

  /**
   * When a deleted session can come back. An absent id stays absent over every continuation without a
   * Set of it, exactly when no Set or Refresh in flight carries an entry of it.
   */
  lemma DeletedStaysDeleted(s: State, id: string)
    requires id !in s.m
    ensures StaysAbsent(s, id) <==> NothingCarried(s, id)
  {
    if NothingCarried(s, id) {
      forall steps | NoSetBegins(steps, id) ensures id !in Exec(s, steps).m {
        AbsentWhileNotCarried(s, id, steps);
      }
    } else {
      var t :| t in s.pcs && Carries(s.pcs[t], id);
      var steps := Deliver(s, t, id);
    }
  }

  /**
   * When an update can be undone. Whatever is found under an id is this data, over every continuation
   * without a Set of it, exactly when no Set or Refresh in flight carries other data.
   */
  lemma UpdateKept(s: State, id: string, data: Data)
    requires Holds(s.m, id, data)
    ensures DataStays(s, id, data) <==> OnlyCarried(s, id, data)
  {
    if OnlyCarried(s, id, data) {
      forall steps | NoSetBegins(steps, id) ensures Holds(Exec(s, steps).m, id, data) {
        HeldWhileCarried(s, id, data, steps);
      }
    } else {
      var t :| t in s.pcs && Carries(s.pcs[t], id) && s.pcs[t].entry.data != data;
      var steps := Deliver(s, t, id);
    }
  }

  // ----- all three happen -----

  lemma ThreeSteps(s: State, a: Step, b: Step, c: Step, more: seq<Step>)
    ensures Exec(s, [a, b, c] + more) == Exec(Next(Next(Next(s, a), b), c), more)
  {
    assert [a, b, c] + more == [a] + ([b] + ([c] + more));
    ExecCons(s, a, [b] + ([c] + more));
    ExecCons(Next(s, a), b, [c] + more);
    ExecCons(Next(Next(s, a), b), c, more);
  }

  lemma NoSteps(s: State)
    ensures Exec(s, []) == s
  {
  }

  /** A Set by thread 1, from beginning to end, while thread 2 stays where it is. */
  lemma SetGoesThrough(s: State, id: string, data: Data, ttl: Time, now: Time)
    requires PcOf(s, 1) == Idle
    ensures var n := Next(Next(s, SetBegin(1, id, data, ttl, now)), SetStore(1));
      n.m == s.m[id := Entry(data, now + ttl)] && PcOf(n, 1) == Idle && PcOf(n, 2) == PcOf(s, 2)
  {
  }

  /** The rest of a Refresh by thread 2. */
  lemma RefreshGoesThrough(s: State, id: string, e: Entry, ttl: Time, now: Time)
    requires PcOf(s, 2) == RefreshLoaded(id, e)
    ensures Next(Next(s, RefreshClock(2, ttl, now)), RefreshStore(2)).m == s.m[id := Entry(e.data, now + ttl)]
  {
  }

  /** A Get by thread 2 that finds the entry expired. */
  lemma GetExpires(s: State, id: string, now: Time)
    requires PcOf(s, 2) == Idle && id in s.m && s.m[id].expires < now
    ensures var n := Next(Next(s, GetLoad(2, id)), GetCheck(2, now));
      n.m == s.m && PcOf(n, 1) == PcOf(s, 1) && PcOf(n, 2) == GetDeleting(id)
  {
  }

  lemma GetDeletes(s: State, id: string)
    requires PcOf(s, 2) == GetDeleting(id)
    ensures Next(s, GetDelete(2)).m == s.m - {id}
  {
  }

  /**
   * Between the clock check and the delete of an expired Get, a Set of the same id completes. Its fresh
   * entry is then deleted: not expired, and without any Del.
   */
  lemma FreshEntryLost(id: string, stale: Data, update: Data)
    ensures var before := Exec(Init,
        [SetBegin(1, id, stale, 0, 0), SetStore(1), GetLoad(2, id)] +
        [GetCheck(2, 5), SetBegin(1, id, update, 100, 5), SetStore(1)]);
      before.m == map[id := Entry(update, 105)] && Exec(before, [GetDelete(2)]).m == map[]
  {
    hide Exec, Next;
    var a, b, c := SetBegin(1, id, stale, 0, 0), SetStore(1), GetLoad(2, id);
    var d, e := GetCheck(2, 5), SetBegin(1, id, update, 100, 5);
    var s := Next(Next(Init, a), b);
    var t := Next(Next(s, c), d);
    var before := Next(Next(t, e), b);
    ThreeSteps(Init, a, b, c, [d, e, b]);
    ThreeSteps(Next(s, c), d, e, b, []);
    assert [d, e, b] + [] == [d, e, b];
    NoSteps(before);
    TwoSteps(before, GetDelete(2), GetDelete(2));
    SetGoesThrough(Init, id, stale, 0, 0);
    GetExpires(s, id, 5);
    SetGoesThrough(t, id, update, 100, 5);
    GetDeletes(before, id);
  }

  /** The steps that bring a Refresh by thread 2 in flight. */
  function RefreshInFlight(id: string, data: Data): seq<Step> {
    [SetBegin(1, id, data, 100, 0), SetStore(1), RefreshLoad(2, id)]
  }

  const RefreshGoesOn: seq<Step> := [RefreshClock(2, 100, 5), RefreshStore(2)]

  lemma InFlight(id: string, data: Data, more: seq<Step>) returns (s: State)
    ensures Exec(Init, RefreshInFlight(id, data) + more) == Exec(s, more)
    ensures s.m == map[id := Entry(data, 100)] && PcOf(s, 1) == Idle && PcOf(s, 2) == RefreshLoaded(id, Entry(data, 100))
  {
    hide Exec;
    var a, b, c := SetBegin(1, id, data, 100, 0), SetStore(1), RefreshLoad(2, id);
    ThreeSteps(Init, a, b, c, more);
    SetGoesThrough(Init, id, data, 100, 0);
    s := Next(Next(Next(Init, a), b), c);
  }

  /** A session deleted while a Refresh of it is in flight comes back, without any Set. */
  lemma DeletedComesBack(id: string, data: Data)
    ensures var before := Exec(Init, RefreshInFlight(id, data) + [DelDelete(1, id)]);
      before.m == map[] && Exec(before, RefreshGoesOn).m == map[id := Entry(data, 105)]
  {
    hide Exec;
    var d := DelDelete(1, id);
    var s := InFlight(id, data, [d]);
    TwoSteps(s, d, d);
    TwoSteps(Next(s, d), RefreshClock(2, 100, 5), RefreshStore(2));
    RefreshGoesThrough(Next(s, d), id, Entry(data, 100), 100, 5);
  }

  /** A Set completed while a Refresh of its id is in flight is undone. */
  lemma UpdateUndone(id: string, data: Data, update: Data)
    ensures var before := Exec(Init, RefreshInFlight(id, data) + [SetBegin(1, id, update, 100, 1), SetStore(1)]);
      before.m == map[id := Entry(update, 101)] && Exec(before, RefreshGoesOn).m == map[id := Entry(data, 105)]
  {
    hide Exec, Next;
    var d, b := SetBegin(1, id, update, 100, 1), SetStore(1);
    var s := InFlight(id, data, [d, b]);
    TwoSteps(s, d, b);
    SetGoesThrough(s, id, update, 100, 1);
    TwoSteps(Next(Next(s, d), b), RefreshClock(2, 100, 5), RefreshStore(2));
    RefreshGoesThrough(Next(Next(s, d), b), id, Entry(data, 100), 100, 5);
  }
}
