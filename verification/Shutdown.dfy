/**
 * Graceful shutdown (server.go:372-458) as a step system: the package-level mutex, server list and
 * channel, any number of threads enabling and disabling, one signal goroutine per channel, and one worker
 * per registered server. A run is any list of steps; a step that is not enabled does nothing.
 */
module Shutdown {
  import opened Strings

  type Thread = nat
  type ServerID = nat

  /** Channels are numbered in the order they are made. A signal goroutine has the number of its channel. */
  type Chan = nat

  datatype Mutex = Free | HeldBy(t: Thread) | HeldByShutdown(g: Chan)

  /** A thread inside EnableGracefulShutdown. */
  datatype Caller =
    | Outside
    | Locking(server: ServerID)    // the timeout is set, the mutex not yet taken
    | Locked(server: ServerID)     // about to append the server
    | Appended(server: ServerID)   // about to test the channel for nil
    | MadeChan(server: ServerID)   // the channel is made, the goroutine not yet started
    | Returning(server: ServerID)  // about to return the channel and unlock

  /** A signal goroutine, and gracefulShutdownAll inside it. */
  datatype Goroutine =
    | Waiting            // for a signal
    | Signalled          // about to take the mutex
    | Starting(i: nat)   // about to start the worker for server i
    | Inline(i: nat)     // runs the last worker itself
    | Joining            // in wg.Wait
    | Closing            // about to close the channel
    | Closed             // about to set the channel to nil
    | Cleared            // about to set the server list to nil
    | Emptied            // about to unlock
    | Ended

  /** shutdownServer for one server of the list. */
  datatype Worker = Begun | InClose | InShutdown(timeout: nat) | Stopped | Finished

  /**
   * `workers` and `wg` belong to the shutdown in progress. Histories: `registered` holds the servers of
   * each channel in order, `stopped` the positions whose Close or Shutdown has returned, `returned` what
   * EnableGracefulShutdown has returned. `crashed` is a close of a nil or closed channel.
   */
  datatype State = State(
    mu: Mutex, servers: seq<ServerID>, chan: Option<Chan>, nextChan: nat, closed: set<Chan>,
    timeouts: map<ServerID, nat>, callers: map<Thread, Caller>, goroutines: map<Chan, Goroutine>,
    workers: map<nat, Worker>, wg: int,
    registered: map<Chan, seq<ServerID>>, stopped: set<(Chan, nat)>, returned: set<(ServerID, Chan)>,
    crashed: bool)

  const Init: State := State(Free, [], None, 0, {}, map[], map[], map[], map[], 0, map[], {}, {}, false)

  datatype Step =
      // EnableGracefulShutdown
    | SetTimeout(t: Thread, server: ServerID, timeout: nat)
    | TakeLock(t: Thread)
    | AppendServer(t: Thread)
    | MakeChan(t: Thread)
    | StartGoroutine(t: Thread)
    | ReturnChan(t: Thread)
      // DisableGracefulShutdown
    | ClearTimeout(server: ServerID)
      // the signal goroutine and gracefulShutdownAll
    | Signal(g: Chan)
    | ShutdownLock(g: Chan)
    | StartWorker(g: Chan)
    | InlineDone(g: Chan)
    | Join(g: Chan)
    | CloseChan(g: Chan)
    | ClearChan(g: Chan)
    | ClearServers(g: Chan)
    | ShutdownUnlock(g: Chan)
      // shutdownServer
    | ReadTimeout(i: nat)
    | StopServer(i: nat)
    | WorkerDone(i: nat)

  function CallerAt(s: State, t: Thread): Caller {
    if t in s.callers then s.callers[t] else Outside
  }

  function GoroutineAt(s: State, g: Chan): Goroutine {
    if g in s.goroutines then s.goroutines[g] else Ended
  }

  function Move(s: State, t: Thread, c: Caller): State {
    s.(callers := s.callers[t := c])
  }

  function Go(s: State, g: Chan, p: Goroutine): State {
    s.(goroutines := s.goroutines[g := p])
  }

  /** EnableGracefulShutdown up to the append. */
  function ListStep(s: State, step: Step): State
    requires step.SetTimeout? || step.TakeLock? || step.AppendServer?
  {
    match (step, CallerAt(s, step.t))
    case (SetTimeout(t, server, d), Outside) =>
      if d == 0 then s else Move(s, t, Locking(server)).(timeouts := s.timeouts[server := d])
    case (TakeLock(t), Locking(server)) =>
      if s.mu != Free then s else Move(s, t, Locked(server)).(mu := HeldBy(t))
    case (AppendServer(t), Locked(server)) =>
      var u := Move(s, t, Appended(server)).(servers := s.servers + [server]);
      if s.chan.Some? then u.(registered := s.registered[s.chan.value := s.servers + [server]]) else u
    case _ => s
  }

  /** The rest of EnableGracefulShutdown: the channel, the goroutine, the return. */
  function ChanStep(s: State, step: Step): State
    requires step.MakeChan? || step.StartGoroutine? || step.ReturnChan?
  {
    match (step, CallerAt(s, step.t))
    case (MakeChan(t), Appended(server)) =>
      if s.chan.Some? then Move(s, t, Returning(server))
      else Move(s, t, MadeChan(server)).(chan := Some(s.nextChan), nextChan := s.nextChan + 1,
                                         registered := s.registered[s.nextChan := s.servers])
    case (StartGoroutine(t), MadeChan(server)) =>
      if s.chan.None? then s else Move(Go(s, s.chan.value, Waiting), t, Returning(server))
    case (ReturnChan(t), Returning(server)) =>
      if s.chan.None? then s
      else Move(s, t, Outside).(mu := Free, returned := s.returned + {(server, s.chan.value)})
    case _ => s
  }

  /** From the signal to the point where all workers have reported. */
  function GatherStep(s: State, step: Step): State
    requires step.Signal? || step.ShutdownLock? || step.StartWorker? || step.InlineDone? || step.Join?
  {
    match (step, GoroutineAt(s, step.g))
    case (Signal(g), Waiting) => Go(s, g, Signalled)
    case (ShutdownLock(g), Signalled) =>
      if s.mu != Free then s else Go(s, g, Starting(0)).(mu := HeldByShutdown(g), workers := map[], wg := 0)
    case (StartWorker(g), Starting(i)) =>
      if i >= |s.servers| then Go(s, g, Joining)
      else Go(s, g, if i == |s.servers| - 1 then Inline(i) else Starting(i + 1))
        .(wg := s.wg + 1, workers := s.workers[i := Begun])
    case (InlineDone(g), Inline(i)) =>
      if i in s.workers && s.workers[i] == Finished then Go(s, g, Joining) else s
    case (Join(g), Joining) => if s.wg == 0 then Go(s, g, Closing) else s
    case _ => s
  }

  /** The end of gracefulShutdownAll. */
  function FinishStep(s: State, step: Step): State
    requires step.CloseChan? || step.ClearChan? || step.ClearServers? || step.ShutdownUnlock?
  {
    match (step, GoroutineAt(s, step.g))
    case (CloseChan(g), Closing) =>
      if s.chan.None? || s.chan.value in s.closed then s.(crashed := true)
      else Go(s, g, Closed).(closed := s.closed + {s.chan.value})
    case (ClearChan(g), Closed) => Go(s, g, Cleared).(chan := None)
    case (ClearServers(g), Cleared) => Go(s, g, Emptied).(servers := [])
    case (ShutdownUnlock(g), Emptied) => Go(s, g, Ended).(mu := Free)
    case _ => s
  }

  /** A worker reads its server's timeout, then closes the server or shuts it down, then reports to the wait group. */
  function WorkerStep(s: State, step: Step): State
    requires step.ReadTimeout? || step.StopServer? || step.WorkerDone?
  {
    if step.i !in s.workers || step.i >= |s.servers| || s.chan.None? then s
    else match (step, s.workers[step.i])
      case (ReadTimeout(i), Begun) =>
        var d := if s.servers[i] in s.timeouts then s.timeouts[s.servers[i]] else 0;
        s.(workers := s.workers[i := if d == 0 then InClose else InShutdown(d)])
      case (StopServer(i), InClose) => s.(workers := s.workers[i := Stopped], stopped := s.stopped + {(s.chan.value, i)})
      case (StopServer(i), InShutdown(_)) => s.(workers := s.workers[i := Stopped], stopped := s.stopped + {(s.chan.value, i)})
      case (WorkerDone(i), Stopped) => s.(workers := s.workers[i := Finished], wg := s.wg - 1)
      case _ => s
  }

  predicate IsList(step: Step) {
    step.SetTimeout? || step.TakeLock? || step.AppendServer?
  }

  predicate IsChan(step: Step) {
    step.MakeChan? || step.StartGoroutine? || step.ReturnChan?
  }

  predicate IsGather(step: Step) {
    step.Signal? || step.ShutdownLock? || step.StartWorker? || step.InlineDone? || step.Join?
  }

  predicate IsFinish(step: Step) {
    step.CloseChan? || step.ClearChan? || step.ClearServers? || step.ShutdownUnlock?
  }

  function Next(s: State, step: Step): State {
    if s.crashed then s
    else if step.ClearTimeout? then s.(timeouts := s.timeouts[step.server := 0])
    else if IsList(step) then ListStep(s, step)
    else if IsChan(step) then ChanStep(s, step)
    else if IsGather(step) then GatherStep(s, step)
    else if IsFinish(step) then FinishStep(s, step)
    else WorkerStep(s, step)
  }

  function Exec(s: State, steps: seq<Step>): State {
    if steps == [] then s else Next(Exec(s, steps[..|steps| - 1]), steps[|steps| - 1])
  }

  // ----- the invariant -----

  predicate InMutex(c: Caller) {
    c.Locked? || c.Appended? || c.MadeChan? || c.Returning?
  }

  predicate InShutdownAll(p: Goroutine) {
    !p.Waiting? && !p.Signalled? && !p.Ended?
  }

  /** The mutex admits one: exactly its holder is between lock and unlock. */
  predicate MutualExclusion(s: State) {
    && (forall t :: t in s.callers ==> (InMutex(s.callers[t]) <==> s.mu == HeldBy(t)))
    && (forall g :: g in s.goroutines ==> (InShutdownAll(s.goroutines[g]) <==> s.mu == HeldByShutdown(g)))
    && (s.mu.HeldBy? ==> s.mu.t in s.callers)
    && (s.mu.HeldByShutdown? ==> s.mu.g in s.goroutines)
  }

  /** Whether the channel and the server list are set, at each point inside the mutex. */
  predicate ListAndChan(s: State) {
    match s.mu
    case Free => s.chan.None? <==> s.servers == []
    case HeldBy(t) =>
      (match CallerAt(s, t)
       case Locked(_) => s.chan.None? <==> s.servers == []
       case Appended(server) => s.servers != [] && s.servers[|s.servers| - 1] == server
       case MadeChan(server) => s.chan.Some? && s.servers != [] && s.servers[|s.servers| - 1] == server
       case Returning(server) => s.chan.Some? && s.servers != [] && s.servers[|s.servers| - 1] == server
       case _ => true)
    case HeldByShutdown(g) =>
      (match GoroutineAt(s, g)
       case Cleared => s.chan.None?
       case Emptied => s.chan.None? && s.servers == []
       case _ => s.chan == Some(g) && s.servers != [])
  }

  /** The goroutine of a channel is unfinished exactly as long as the channel is in use. */
  predicate OneGoroutine(s: State) {
    && (forall g :: g in s.goroutines ==> g < s.nextChan)
    && (forall g :: g in s.goroutines && (s.goroutines[g].Waiting? || s.goroutines[g].Signalled?) ==> s.chan == Some(g))
    && (forall g :: g in s.goroutines && s.goroutines[g].Ended? ==> s.chan != Some(g))
    && (s.chan.Some? ==> s.chan.value < s.nextChan)
    && (s.chan.Some? ==> (s.chan.value in s.goroutines <==> !(s.mu.HeldBy? && CallerAt(s, s.mu.t).MadeChan?)))
  }

  /** The channel in use is not closed, except right before it is set to nil. */
  predicate ClosedChans(s: State) {
    && (forall c :: c in s.closed ==> c < s.nextChan)
    && (forall g :: g in s.goroutines && Phase(s.goroutines[g]) <= 4 && !s.goroutines[g].Waiting? && !s.goroutines[g].Signalled?
          ==> g in s.closed)
    && (s.chan.Some? && s.chan.value in s.closed ==> s.mu.HeldByShutdown? && GoroutineAt(s, s.mu.g).Closed?)
  }

  /** What was registered under the channel in use is the server list. */
  predicate Registration(s: State) {
    && (forall c :: c in s.registered ==> c < s.nextChan)
    && (s.chan.Some? ==> s.chan.value in s.registered && s.registered[s.chan.value] == s.servers)
    && (forall c :: c in s.closed ==> c in s.registered)
    && (forall r :: r in s.returned ==> r.1 in s.registered && r.0 in s.registered[r.1])
  }

  predicate AllStopped(s: State, c: Chan) {
    c in s.registered && forall i :: 0 <= i < |s.registered[c]| ==> (c, i) in s.stopped
  }

  /** How many workers have been started, while a shutdown is in progress. */
  function StartedCount(s: State, g: Chan): int {
    match GoroutineAt(s, g)
    case Starting(i) => i
    case Inline(i) => i + 1
    case _ => |s.servers|
  }

  function Unfinished(workers: map<nat, Worker>): set<nat> {
    set i | i in workers && workers[i] != Finished
  }

  predicate Working(p: Goroutine) {
    p.Starting? || p.Inline? || p.Joining? || p.Closing?
  }

  /** Workers of the shutdown in progress: one per server so far, the wait group counts the unfinished ones. */
  ghost predicate WorkersInStep(s: State) {
    s.mu.HeldByShutdown? && Working(GoroutineAt(s, s.mu.g)) ==>
      && (GoroutineAt(s, s.mu.g).Starting? ==> GoroutineAt(s, s.mu.g).i < |s.servers|)
      && (GoroutineAt(s, s.mu.g).Inline? ==> GoroutineAt(s, s.mu.g).i == |s.servers| - 1)
      && (forall i :: i in s.workers <==> 0 <= i < StartedCount(s, s.mu.g))
      && s.wg == |Unfinished(s.workers)|
      && (GoroutineAt(s, s.mu.g).Closing? ==> s.wg == 0)
      && (forall i :: i in s.workers && (s.workers[i].Stopped? || s.workers[i].Finished?) ==> (s.mu.g, i) in s.stopped)
  }

  predicate ClosedComplete(s: State) {
    forall c :: c in s.closed ==> AllStopped(s, c)
  }

  ghost predicate Inv(s: State) {
    && MutualExclusion(s) && ListAndChan(s) && OneGoroutine(s) && ClosedChans(s)
    && Registration(s) && WorkersInStep(s) && ClosedComplete(s) && !s.crashed
  }

  // ----- counting workers -----

  lemma CountBegun(workers: map<nat, Worker>, i: nat)
    requires i !in workers
    ensures |Unfinished(workers[i := Begun])| == |Unfinished(workers)| + 1
  {
    assert Unfinished(workers[i := Begun]) == Unfinished(workers) + {i};
  }

  lemma CountChanged(workers: map<nat, Worker>, i: nat, w: Worker)
    requires i in workers && workers[i] != Finished
    ensures |Unfinished(workers[i := w])| == |Unfinished(workers)| - if w == Finished then 1 else 0
  {
    var u := Unfinished(workers);
    assert Unfinished(workers[i := w]) == if w == Finished then u - {i} else u;
  }

  lemma CountNone(workers: map<nat, Worker>)
    requires |Unfinished(workers)| == 0
    ensures forall i :: i in workers ==> workers[i] == Finished
  {
    forall i | i in workers ensures workers[i] == Finished {
      assert i !in Unfinished(workers);
    }
  }

  // ----- every step keeps the invariant -----

  predicate IsWorker(step: Step) {
    step.ReadTimeout? || step.StopServer? || step.WorkerDone?
  }

  lemma ListKeepsExclusion(s: State, step: Step)
    requires MutualExclusion(s) && IsList(step)
    ensures MutualExclusion(ListStep(s, step))
  {
  }

  lemma ListKeepsList(s: State, step: Step)
    requires MutualExclusion(s) && ListAndChan(s) && OneGoroutine(s) && IsList(step)
    ensures ListAndChan(ListStep(s, step))
  {
  }

  lemma ListKeepsGoroutine(s: State, step: Step)
    requires MutualExclusion(s) && ListAndChan(s) && OneGoroutine(s) && IsList(step)
    ensures OneGoroutine(ListStep(s, step))
  {
  }

  lemma ListKeepsClosed(s: State, step: Step)
    requires MutualExclusion(s) && ListAndChan(s) && OneGoroutine(s) && ClosedChans(s) && IsList(step)
    ensures ClosedChans(ListStep(s, step)) && ListStep(s, step).crashed == s.crashed
  {
  }

  lemma ListKeepsRegistration(s: State, step: Step)
    requires MutualExclusion(s) && ListAndChan(s) && ClosedChans(s) && Registration(s) && IsList(step)
    ensures Registration(ListStep(s, step))
  {
  }

  lemma ChanKeepsExclusion(s: State, step: Step)
    requires MutualExclusion(s) && IsChan(step)
    ensures MutualExclusion(ChanStep(s, step))
  {
  }

  lemma ChanKeepsList(s: State, step: Step)
    requires MutualExclusion(s) && ListAndChan(s) && OneGoroutine(s) && IsChan(step)
    ensures ListAndChan(ChanStep(s, step))
  {
  }

  lemma ChanKeepsGoroutine(s: State, step: Step)
    requires MutualExclusion(s) && ListAndChan(s) && OneGoroutine(s) && IsChan(step)
    ensures OneGoroutine(ChanStep(s, step))
  {
  }

  lemma ChanKeepsClosed(s: State, step: Step)
    requires MutualExclusion(s) && ListAndChan(s) && OneGoroutine(s) && ClosedChans(s) && IsChan(step)
    ensures ClosedChans(ChanStep(s, step)) && ChanStep(s, step).crashed == s.crashed
  {
  }

  lemma ChanKeepsRegistration(s: State, step: Step)
    requires MutualExclusion(s) && ListAndChan(s) && ClosedChans(s) && Registration(s) && IsChan(step)
    ensures Registration(ChanStep(s, step))
  {
  }

  /** Where a signal goroutine goes before the channel is closed. */
  predicate GatherPhase(p: Goroutine, q: Goroutine) {
    match p
    case Waiting => q.Signalled?
    case Signalled => q.Starting?
    case Starting(_) => q.Starting? || q.Inline? || q.Joining?
    case Inline(_) => q.Joining?
    case Joining => q.Closing?
    case _ => false
  }

  /** Nothing but this goroutine, the workers and, when the goroutine gets it, the mutex has changed. */
  predicate GatherFramed(s: State, n: State, g: Chan) {
    n == s || (
      && g in s.goroutines && GatherPhase(s.goroutines[g], GoroutineAt(n, g))
      && n == s.(mu := n.mu, goroutines := s.goroutines[g := GoroutineAt(n, g)], workers := n.workers, wg := n.wg)
      && if s.goroutines[g].Signalled? then s.mu.Free? && n.mu == HeldByShutdown(g) else n.mu == s.mu)
  }

  lemma GatherFrame(s: State, step: Step)
    requires IsGather(step)
    ensures GatherFramed(s, GatherStep(s, step), step.g)
  {
  }

  lemma GatherKeepsExclusion(s: State, step: Step)
    requires MutualExclusion(s) && IsGather(step)
    ensures MutualExclusion(GatherStep(s, step))
  {
    hide GatherStep;
    GatherFrame(s, step);
  }

  lemma GatherKeepsList(s: State, step: Step)
    requires MutualExclusion(s) && ListAndChan(s) && OneGoroutine(s) && IsGather(step)
    ensures ListAndChan(GatherStep(s, step))
  {
    hide GatherStep;
    GatherFrame(s, step);
  }

  lemma GatherKeepsGoroutine(s: State, step: Step)
    requires MutualExclusion(s) && ListAndChan(s) && OneGoroutine(s) && IsGather(step)
    ensures OneGoroutine(GatherStep(s, step))
  {
    hide GatherStep;
    GatherFrame(s, step);
  }

  lemma GatherKeepsClosed(s: State, step: Step)
    requires MutualExclusion(s) && ListAndChan(s) && OneGoroutine(s) && ClosedChans(s) && IsGather(step)
    ensures ClosedChans(GatherStep(s, step)) && GatherStep(s, step).crashed == s.crashed
  {
    hide GatherStep;
    GatherFrame(s, step);
  }

  lemma GatherKeepsRegistration(s: State, step: Step)
    requires MutualExclusion(s) && ListAndChan(s) && ClosedChans(s) && Registration(s) && IsGather(step)
    ensures Registration(GatherStep(s, step))
  {
    hide GatherStep;
    GatherFrame(s, step);
  }

  lemma FinishKeepsExclusion(s: State, step: Step)
    requires MutualExclusion(s) && IsFinish(step)
    ensures MutualExclusion(FinishStep(s, step))
  {
  }

  lemma FinishKeepsList(s: State, step: Step)
    requires MutualExclusion(s) && ListAndChan(s) && OneGoroutine(s) && IsFinish(step)
    ensures ListAndChan(FinishStep(s, step))
  {
  }

  lemma FinishKeepsGoroutine(s: State, step: Step)
    requires MutualExclusion(s) && ListAndChan(s) && OneGoroutine(s) && IsFinish(step)
    ensures OneGoroutine(FinishStep(s, step))
  {
  }

  lemma FinishKeepsClosed(s: State, step: Step)
    requires MutualExclusion(s) && ListAndChan(s) && OneGoroutine(s) && ClosedChans(s) && IsFinish(step)
    ensures ClosedChans(FinishStep(s, step)) && FinishStep(s, step).crashed == s.crashed
  {
  }

  lemma FinishKeepsRegistration(s: State, step: Step)
    requires MutualExclusion(s) && ListAndChan(s) && ClosedChans(s) && Registration(s) && IsFinish(step)
    ensures Registration(FinishStep(s, step))
  {
  }

  lemma ListKeepsWorkers(s: State, step: Step)
    requires MutualExclusion(s) && WorkersInStep(s) && IsList(step)
    ensures WorkersInStep(ListStep(s, step))
  {
  }

  lemma ListKeepsComplete(s: State, step: Step)
    requires MutualExclusion(s) && ClosedChans(s) && ClosedComplete(s) && IsList(step)
    ensures ClosedComplete(ListStep(s, step))
  {
  }

  lemma ChanKeepsWorkers(s: State, step: Step)
    requires MutualExclusion(s) && WorkersInStep(s) && IsChan(step)
    ensures WorkersInStep(ChanStep(s, step))
  {
  }

  lemma ChanKeepsComplete(s: State, step: Step)
    requires MutualExclusion(s) && ClosedChans(s) && ClosedComplete(s) && IsChan(step)
    ensures ClosedComplete(ChanStep(s, step))
  {
  }

  lemma GatherKeepsWorkers(s: State, step: Step)
    requires MutualExclusion(s) && ListAndChan(s) && WorkersInStep(s) && OneGoroutine(s) && IsGather(step)
    ensures WorkersInStep(GatherStep(s, step))
  {
    if step.StartWorker? && GoroutineAt(s, step.g).Starting? {
      CountBegun(s.workers, GoroutineAt(s, step.g).i);
    }
  }

  lemma GatherKeepsComplete(s: State, step: Step)
    requires ClosedComplete(s) && IsGather(step)
    ensures ClosedComplete(GatherStep(s, step))
  {
    hide GatherStep;
    GatherFrame(s, step);
  }

  lemma FinishKeepsWorkers(s: State, step: Step)
    requires MutualExclusion(s) && WorkersInStep(s) && IsFinish(step)
    ensures WorkersInStep(FinishStep(s, step))
  {
  }

  /**
   * The channel is closed only when the wait group has counted down every worker, one per server of the
   * list, so every registered server has stopped.
   */
  lemma FinishKeepsComplete(s: State, step: Step)
    requires Inv(s) && IsFinish(step)
    ensures ClosedComplete(FinishStep(s, step))
    ensures FinishStep(s, step).closed != s.closed ==>
      s.wg == 0 && forall i :: 0 <= i < |s.servers| ==> i in s.workers && s.workers[i] == Finished
  {
    if step.CloseChan? && GoroutineAt(s, step.g).Closing? {
      CountNone(s.workers);
      assert s.chan == Some(step.g);
      forall i | 0 <= i < |s.registered[step.g]| ensures (step.g, i) in s.stopped {
        assert i in s.workers;
      }
    }
  }

  lemma WorkerKeepsInv(s: State, step: Step)
    requires Inv(s) && IsWorker(step)
    ensures Inv(WorkerStep(s, step))
  {
    hide WorkersInStep, WorkerStep;
    WorkerKeepsWorkers(s, step);
    WorkerFrame(s, step);
  }

  lemma WorkerFrame(s: State, step: Step)
    requires IsWorker(step)
    ensures var n := WorkerStep(s, step);
      n == s.(workers := n.workers, wg := n.wg, stopped := n.stopped) && s.stopped <= n.stopped
  {
  }

  lemma WorkerKeepsWorkers(s: State, step: Step)
    requires Inv(s) && IsWorker(step)
    ensures WorkersInStep(WorkerStep(s, step))
  {
    var n := WorkerStep(s, step);
    if step.i in s.workers && s.workers[step.i] != Finished { CountChanged(s.workers, step.i, n.workers[step.i]); }
  }

  /** DisableGracefulShutdown only touches a timeout, which no invariant reads. */
  lemma TimeoutsFree(s: State, server: ServerID)
    requires Inv(s)
    ensures Inv(s.(timeouts := s.timeouts[server := 0]))
  {
  }

  lemma NextKeepsInv(s: State, step: Step)
    requires Inv(s)
    ensures Inv(Next(s, step))
  {
    hide MutualExclusion, ListAndChan, OneGoroutine, ClosedChans, Registration, WorkersInStep, ClosedComplete;
    if step.ClearTimeout? {
      TimeoutsFree(s, step.server);
    } else if IsList(step) {
      ListKeepsExclusion(s, step);
      ListKeepsList(s, step);
      ListKeepsGoroutine(s, step);
      ListKeepsClosed(s, step);
      ListKeepsRegistration(s, step);
      ListKeepsWorkers(s, step);
      ListKeepsComplete(s, step);
    } else if IsChan(step) {
      ChanKeepsExclusion(s, step);
      ChanKeepsList(s, step);
      ChanKeepsGoroutine(s, step);
      ChanKeepsClosed(s, step);
      ChanKeepsRegistration(s, step);
      ChanKeepsWorkers(s, step);
      ChanKeepsComplete(s, step);
    } else if IsWorker(step) {
      WorkerKeepsInv(s, step);
    } else if IsGather(step) {
      GatherKeepsExclusion(s, step);
      GatherKeepsList(s, step);
      GatherKeepsGoroutine(s, step);
      GatherKeepsClosed(s, step);
      GatherKeepsRegistration(s, step);
      GatherKeepsWorkers(s, step);
      GatherKeepsComplete(s, step);
    } else {
      FinishKeepsExclusion(s, step);
      FinishKeepsList(s, step);
      FinishKeepsGoroutine(s, step);
      FinishKeepsClosed(s, step);
      FinishKeepsRegistration(s, step);
      FinishKeepsWorkers(s, step);
      FinishKeepsComplete(s, step);
    }
  }

  lemma {:induction false} ExecKeepsInv(steps: seq<Step>)
    ensures Inv(Exec(Init, steps))
  {
    hide Inv;
    if steps == [] {
      InitInv();
    } else {
      ExecKeepsInv(steps[..|steps| - 1]);
      NextKeepsInv(Exec(Init, steps[..|steps| - 1]), steps[|steps| - 1]);
    }
  }

  lemma InitInv()
    ensures Inv(Init)
  {
  }

  // ----- what the invariant means -----

  /**
   * Safety over all interleavings and epochs: no close of a nil or closed channel ever happens; with the
   * mutex free, the channel is nil exactly when the server list is empty, and a channel that is set has
   * exactly one unfinished signal goroutine, its own.
   */
  lemma ShutdownSafety(steps: seq<Step>)
    ensures var s := Exec(Init, steps);
      && !s.crashed
      && (s.mu == Free ==>
            && (s.chan.None? <==> s.servers == [])
            && forall g :: g in s.goroutines && s.goroutines[g] != Ended <==> s.chan == Some(g))
  {
    ExecKeepsInv(steps);
  }

  /** A channel is closed only once every server registered under it has finished Close or Shutdown. */
  lemma ClosedAfterAllStopped(steps: seq<Step>, c: Chan)
    ensures var s := Exec(Init, steps);
      c in s.closed ==> c in s.registered && forall i :: 0 <= i < |s.registered[c]| ==> (c, i) in s.stopped
  {
    ExecKeepsInv(steps);
  }

  /**
   * What a caller gets from EnableGracefulShutdown is a channel that its server is registered under: when
   * the caller sees it closed, that server has been stopped.
   */
  lemma ReturnedChanCoversServer(steps: seq<Step>, server: ServerID, c: Chan)
    ensures var s := Exec(Init, steps);
      (server, c) in s.returned ==>
        && c in s.registered && server in s.registered[c]
        && (c in s.closed ==> exists i :: 0 <= i < |s.registered[c]| && s.registered[c][i] == server && (c, i) in s.stopped)
  {
    ExecKeepsInv(steps);
    var s := Exec(Init, steps);
    if (server, c) in s.returned && c in s.closed {
      assert (server, c).1 in s.registered && (server, c).0 in s.registered[c];
      var i :| 0 <= i < |s.registered[c]| && s.registered[c][i] == server;
      assert AllStopped(s, c);
    }
  }

  /**
   * A caller at the end of EnableGracefulShutdown always has a channel to return, which is the one it gets,
   * and lets go of the mutex.
   */
  lemma EnableReturnsChannel(steps: seq<Step>, t: Thread, server: ServerID)
    requires CallerAt(Exec(Init, steps), t) == Returning(server)
    ensures var s := Exec(Init, steps);
      var n := Next(s, ReturnChan(t));
      s.chan.Some? && (server, s.chan.value) in n.returned && n.mu == Free && CallerAt(n, t) == Outside
  {
    ExecKeepsInv(steps);
  }

  /** Only one caller or shutdown is between lock and unlock at any time. */
  lemma OneInside(steps: seq<Step>, t: Thread, u: Thread, g: Chan)
    ensures var s := Exec(Init, steps);
      && (InMutex(CallerAt(s, t)) && InMutex(CallerAt(s, u)) ==> t == u)
      && !(InMutex(CallerAt(s, t)) && InShutdownAll(GoroutineAt(s, g)))
  {
    ExecKeepsInv(steps);
  }

  lemma NextMonotone(s: State, step: Step, c: Chan)
    requires OneGoroutine(s) && ClosedChans(s) && MutualExclusion(s) && c in s.closed
    ensures c in Next(s, step).closed
    ensures c in s.registered ==> c in Next(s, step).registered && Next(s, step).registered[c] == s.registered[c]
  {
    hide ListStep, ChanStep, GatherStep, FinishStep, WorkerStep;
    if IsList(step) {
      ListMonotone(s, step, c);
    } else if IsChan(step) {
      ChanMonotone(s, step, c);
    } else if IsGather(step) {
      GatherMonotone(s, step, c);
    } else if IsFinish(step) {
      FinishMonotone(s, step, c);
    } else if IsWorker(step) {
      WorkerFrame(s, step);
    }
  }

  lemma ListMonotone(s: State, step: Step, c: Chan)
    requires OneGoroutine(s) && ClosedChans(s) && MutualExclusion(s) && c in s.closed && IsList(step)
    ensures var n := ListStep(s, step); c in n.closed && (c in s.registered ==> c in n.registered && n.registered[c] == s.registered[c])
  {
  }

  lemma ChanMonotone(s: State, step: Step, c: Chan)
    requires OneGoroutine(s) && ClosedChans(s) && MutualExclusion(s) && c in s.closed && IsChan(step)
    ensures var n := ChanStep(s, step); c in n.closed && (c in s.registered ==> c in n.registered && n.registered[c] == s.registered[c])
  {
  }

  lemma GatherMonotone(s: State, step: Step, c: Chan)
    requires OneGoroutine(s) && ClosedChans(s) && MutualExclusion(s) && c in s.closed && IsGather(step)
    ensures var n := GatherStep(s, step); c in n.closed && (c in s.registered ==> c in n.registered && n.registered[c] == s.registered[c])
  {
    hide GatherStep;
    GatherFrame(s, step);
  }

  lemma FinishMonotone(s: State, step: Step, c: Chan)
    requires OneGoroutine(s) && ClosedChans(s) && MutualExclusion(s) && c in s.closed && IsFinish(step)
    ensures var n := FinishStep(s, step); c in n.closed && (c in s.registered ==> c in n.registered && n.registered[c] == s.registered[c])
  {
  }

  /** A closed channel stays closed, and nothing is registered under it any more. */
  lemma {:induction false} ClosedForGood(steps: seq<Step>, k: nat, c: Chan)
    requires k <= |steps| && c in Exec(Init, steps[..k]).closed
    ensures c in Exec(Init, steps).closed && c in Exec(Init, steps).registered && c in Exec(Init, steps[..k]).registered
    ensures Exec(Init, steps).registered[c] == Exec(Init, steps[..k]).registered[c]
  {
    ExecKeepsInv(steps[..k]);
    if k == |steps| {
      assert steps[..k] == steps;
    } else {
      var init := steps[..|steps| - 1];
      assert init[..k] == steps[..k];
      ClosedForGood(init, k, c);
      ExecKeepsInv(init);
      NextMonotone(Exec(Init, init), steps[|steps| - 1], c);
    }
  }

  // ----- a shutdown can always complete -----

  lemma {:induction false} ExecConcat(s: State, a: seq<Step>, b: seq<Step>)
    ensures Exec(s, a + b) == Exec(Exec(s, a), b)
  {
    hide Next;
    if b == [] {
      assert a + b == a;
    } else {
      ExecConcat(s, a, b[..|b| - 1]);
      assert (a + b)[|a + b| - 1] == b[|b| - 1];
      assert (a + b)[..|a + b| - 1] == a + b[..|b| - 1];
    }
  }

  lemma ExecOne(s: State, step: Step)
    ensures Exec(s, [step]) == Next(s, step)
  {
    assert [step][..0] == [];
  }

  /** `t` is reached from `s` by `more`, and the invariant still holds. */
  ghost predicate Leads(s: State, more: seq<Step>, t: State) {
    Exec(s, more) == t && Inv(t)
  }

  lemma LeadsOn(s: State, a: seq<Step>, t: State, b: seq<Step>, u: State)
    requires Leads(s, a, t) && Leads(t, b, u)
    ensures Leads(s, a + b, u)
  {
    ExecConcat(s, a, b);
  }

  lemma OneStep(s: State, step: Step) returns (t: State)
    requires Inv(s)
    ensures t == Next(s, step) && Leads(s, [step], t)
  {
    hide Inv, Next;
    t := Next(s, step);
    ExecOne(s, step);
    NextKeepsInv(s, step);
  }

  /** How many steps a worker still has to take. */
  function WorkerSteps(w: Worker): nat {
    match w
    case Begun => 3
    case Stopped => 1
    case Finished => 0
    case _ => 2
  }

  function WorkerMove(i: nat, w: Worker): Step {
    match w
    case Begun => ReadTimeout(i)
    case Stopped => WorkerDone(i)
    case _ => StopServer(i)
  }

  predicate RunsWorkers(s: State, g: Chan) {
    s.mu == HeldByShutdown(g) && Working(GoroutineAt(s, g))
  }

  /** Same position of the shutdown, only worker `i` has moved on. */
  predicate OnlyWorker(s: State, t: State, i: nat) {
    && t.mu == s.mu && t.goroutines == s.goroutines && t.servers == s.servers
    && t.workers.Keys == s.workers.Keys && i in t.workers
    && forall j :: j in s.workers && j != i ==> t.workers[j] == s.workers[j]
  }

  lemma WorkerMoves(s: State, g: Chan, i: nat)
    requires ListAndChan(s) && WorkersInStep(s) && !s.crashed && RunsWorkers(s, g) && i in s.workers && s.workers[i] != Finished
    ensures var t := Next(s, WorkerMove(i, s.workers[i]));
      OnlyWorker(s, t, i) && WorkerSteps(t.workers[i]) < WorkerSteps(s.workers[i])
  {
    hide ListStep, ChanStep, GatherStep, FinishStep;
  }

  /** A worker can run to its end. */
  lemma {:induction false} RunWorker(s: State, g: Chan, i: nat) returns (more: seq<Step>, t: State)
    requires Inv(s) && RunsWorkers(s, g) && i in s.workers
    ensures Leads(s, more, t) && OnlyWorker(s, t, i) && t.workers[i] == Finished
    decreases WorkerSteps(s.workers[i])
  {
    assert ListAndChan(s) && WorkersInStep(s) && !s.crashed;
    hide Inv, Next, Exec, ListAndChan, WorkersInStep;
    if s.workers[i] == Finished {
      more, t := [], s;
      NothingDone(s);
    } else {
      WorkerMoves(s, g, i);
      var step := WorkerMove(i, s.workers[i]);
      var u := OneStep(s, step);
      var rest;
      rest, t := RunWorker(u, g, i);
      more := [step] + rest;
      LeadsOn(s, [step], u, rest, t);
    }
  }

  lemma NothingDone(s: State)
    ensures Exec(s, []) == s
  {
  }

  lemma UnfinishedShrinks(s: State, t: State, i: nat)
    requires OnlyWorker(s, t, i) && i in s.workers && s.workers[i] != Finished && t.workers[i] == Finished
    ensures |Unfinished(t.workers)| < |Unfinished(s.workers)|
  {
    assert Unfinished(t.workers) == Unfinished(s.workers) - {i};
  }

  /** How far gracefulShutdownAll is from its end. */
  function Phase(p: Goroutine): nat {
    match p
    case Starting(_) => 8
    case Inline(_) => 7
    case Joining => 6
    case Closing => 5
    case Closed => 4
    case Cleared => 3
    case Emptied => 2
    case _ => 1
  }

  function StartsLeft(s: State, g: Chan): nat {
    match GoroutineAt(s, g)
    case Starting(i) => if i < |s.servers| then |s.servers| - i else 0
    case _ => 0
  }

  /** The step of the shutdown itself, when it is not waiting for a worker. */
  function HolderMove(g: Chan, p: Goroutine): Step {
    match p
    case Starting(_) => StartWorker(g)
    case Inline(_) => InlineDone(g)
    case Joining => Join(g)
    case Closing => CloseChan(g)
    case Closed => ClearChan(g)
    case Cleared => ClearServers(g)
    case _ => ShutdownUnlock(g)
  }

  /** The worker that the shutdown waits for, if it waits. */
  ghost predicate WaitsFor(s: State, g: Chan, i: nat) {
    i in s.workers && s.workers[i] != Finished &&
    (GoroutineAt(s, g) == Inline(i) || GoroutineAt(s, g).Joining?)
  }

  ghost predicate Waits(s: State, g: Chan) {
    exists i :: WaitsFor(s, g, i)
  }

  /** The shutdown is closer to its end, or over. */
  predicate HolderProgress(s: State, t: State, g: Chan) {
    if GoroutineAt(s, g).Emptied? then t.mu == Free && g in t.closed
    else t.mu == HeldByShutdown(g) &&
         (Phase(GoroutineAt(t, g)) < Phase(GoroutineAt(s, g)) ||
          (GoroutineAt(s, g).Starting? && GoroutineAt(t, g).Starting? && StartsLeft(t, g) < StartsLeft(s, g)))
  }

  lemma GatherMoves(s: State, g: Chan)
    requires MutualExclusion(s) && WorkersInStep(s) && RunsWorkers(s, g) && !GoroutineAt(s, g).Closing? && !Waits(s, g)
    ensures HolderProgress(s, GatherStep(s, HolderMove(g, GoroutineAt(s, g))), g)
  {
    var p := GoroutineAt(s, g);
    if p.Inline? {
      assert !WaitsFor(s, g, p.i);
    } else if p.Joining? {
      forall i | i in s.workers ensures s.workers[i] == Finished { assert !WaitsFor(s, g, i); }
      assert Unfinished(s.workers) == {};
    }
  }

  /** What a shutdown near its end knows about its channel. */
  predicate NearEnd(s: State, g: Chan) {
    var p := GoroutineAt(s, g);
    && (p.Closing? || p.Closed? || p.Cleared? || p.Emptied?)
    && if p.Closing? then s.chan == Some(g) && g !in s.closed else g in s.closed
  }

  lemma NearEndKnows(s: State, g: Chan)
    requires MutualExclusion(s) && ListAndChan(s) && ClosedChans(s) && s.mu == HeldByShutdown(g)
    requires !RunsWorkers(s, g) || GoroutineAt(s, g).Closing?
    ensures NearEnd(s, g)
  {
    assert g in s.goroutines;
  }

  lemma FinishMoves(s: State, g: Chan)
    requires NearEnd(s, g) && s.mu == HeldByShutdown(g)
    ensures HolderProgress(s, FinishStep(s, HolderMove(g, GoroutineAt(s, g))), g)
  {
  }

  lemma HolderMoves(s: State, g: Chan)
    requires MutualExclusion(s) && ListAndChan(s) && ClosedChans(s) && WorkersInStep(s) && !s.crashed
    requires s.mu == HeldByShutdown(g) && !Waits(s, g)
    ensures HolderProgress(s, Next(s, HolderMove(g, GoroutineAt(s, g))), g)
  {
    hide ListAndChan, ClosedChans, WorkersInStep, HolderProgress, GatherStep, FinishStep, Waits, NearEnd;
    var p := GoroutineAt(s, g);
    if Working(p) && !p.Closing? { GatherMoves(s, g); } else { NearEndKnows(s, g); FinishMoves(s, g); }
  }

  /** A shutdown that holds the mutex can run to its end, with its channel closed. */
  lemma {:induction false} Complete(s: State, g: Chan) returns (more: seq<Step>, t: State)
    requires Inv(s) && s.mu == HeldByShutdown(g)
    ensures Leads(s, more, t) && t.mu == Free && g in t.closed
    decreases Phase(GoroutineAt(s, g)), StartsLeft(s, g), |Unfinished(s.workers)|
  {
    assert MutualExclusion(s) && ListAndChan(s) && ClosedChans(s) && WorkersInStep(s) && !s.crashed;
    hide Inv, Next, Exec, MutualExclusion, ListAndChan, ClosedChans, WorkersInStep;
    if Waits(s, g) {
      var i :| WaitsFor(s, g, i);
      var some, u := RunWorker(s, g, i);
      UnfinishedShrinks(s, u, i);
      var rest;
      rest, t := Complete(u, g);
      more := some + rest;
      LeadsOn(s, some, u, rest, t);
    } else {
      HolderMoves(s, g);
      var step := HolderMove(g, GoroutineAt(s, g));
      var u := OneStep(s, step);
      if GoroutineAt(s, g).Emptied? {
        return [step], u;
      }
      var rest;
      rest, t := Complete(u, g);
      more := [step] + rest;
      LeadsOn(s, [step], u, rest, t);
    }
  }

  function CallerMove(t: Thread, c: Caller): Step {
    match c
    case Locked(_) => AppendServer(t)
    case Appended(_) => MakeChan(t)
    case MadeChan(_) => StartGoroutine(t)
    case _ => ReturnChan(t)
  }

  function CallerSteps(c: Caller): nat {
    match c
    case Locked(_) => 4
    case Appended(_) => 3
    case MadeChan(_) => 2
    case _ => 1
  }

  /** The caller has moved on, or let go of the mutex, and started goroutines are as they were. */
  predicate CallerProgress(s: State, n: State, t: Thread, g: Chan) {
    && (n.mu == Free || (n.mu == HeldBy(t) && CallerSteps(CallerAt(n, t)) < CallerSteps(CallerAt(s, t))))
    && (g in s.goroutines ==> g in n.goroutines && n.goroutines[g] == s.goroutines[g])
  }

  lemma LockedMoves(s: State, t: Thread, g: Chan)
    requires MutualExclusion(s) && s.mu == HeldBy(t) && CallerAt(s, t).Locked?
    ensures CallerProgress(s, ListStep(s, AppendServer(t)), t, g)
  {
  }

  lemma LaterMoves(s: State, t: Thread, g: Chan)
    requires MutualExclusion(s) && ListAndChan(s) && OneGoroutine(s) && s.mu == HeldBy(t) && !CallerAt(s, t).Locked?
    ensures CallerProgress(s, ChanStep(s, CallerMove(t, CallerAt(s, t))), t, g)
  {
    var c := CallerAt(s, t);
    assert t in s.callers && InMutex(c) && (c.MadeChan? || c.Returning? ==> s.chan.Some?);
    assert c.MadeChan? ==> s.chan.value !in s.goroutines;
    hide MutualExclusion, ListAndChan, OneGoroutine;
  }

  lemma CallerMoves(s: State, t: Thread, g: Chan)
    requires MutualExclusion(s) && ListAndChan(s) && OneGoroutine(s) && !s.crashed && s.mu == HeldBy(t)
    ensures CallerProgress(s, Next(s, CallerMove(t, CallerAt(s, t))), t, g)
  {
    hide MutualExclusion, ListAndChan, OneGoroutine, CallerProgress, ListStep, ChanStep;
    if CallerAt(s, t).Locked? { LockedMoves(s, t, g); } else { LaterMoves(s, t, g); }
  }

  /** A caller that holds the mutex can return. */
  lemma {:induction false} CallerReturns(s: State, t: Thread, g: Chan) returns (more: seq<Step>, u: State)
    requires Inv(s) && s.mu == HeldBy(t) && g in s.goroutines
    ensures Leads(s, more, u) && u.mu == Free && g in u.goroutines && u.goroutines[g] == s.goroutines[g]
    decreases CallerSteps(CallerAt(s, t))
  {
    assert MutualExclusion(s) && ListAndChan(s) && OneGoroutine(s) && !s.crashed;
    hide Inv, Next, Exec, MutualExclusion, ListAndChan, OneGoroutine;
    CallerMoves(s, t, g);
    var step := CallerMove(t, CallerAt(s, t));
    var v := OneStep(s, step);
    if v.mu == Free {
      return [step], v;
    }
    var rest;
    rest, u := CallerReturns(v, t, g);
    more := [step] + rest;
    LeadsOn(s, [step], v, rest, u);
  }

  lemma SignalMoves(s: State, g: Chan)
    requires Inv(s) && s.mu == Free && g in s.goroutines
    ensures s.goroutines[g] == Ended || s.goroutines[g] == Waiting || s.goroutines[g] == Signalled
    ensures s.goroutines[g] == Ended ==> g in s.closed
    ensures s.goroutines[g] == Waiting ==>
      var t := Next(s, Signal(g)); t.mu == Free && g in t.goroutines && t.goroutines[g] == Signalled
    ensures s.goroutines[g] == Signalled ==> Next(s, ShutdownLock(g)).mu == HeldByShutdown(g)
  {
  }

  /** From a state with the mutex free, a goroutine can be signalled and shut everything down. */
  lemma {:induction false} CloseFromFree(s: State, g: Chan) returns (more: seq<Step>, t: State)
    requires Inv(s) && s.mu == Free && g in s.goroutines
    ensures Leads(s, more, t) && g in t.closed
    decreases if s.goroutines[g] == Waiting then 1 else 0
  {
    SignalMoves(s, g);
    hide Inv, Next, Exec;
    if s.goroutines[g] == Ended {
      more, t := [], s;
      NothingDone(s);
    } else {
      var step := if s.goroutines[g] == Waiting then Signal(g) else ShutdownLock(g);
      var u := OneStep(s, step);
      var rest;
      if s.goroutines[g] == Waiting { rest, t := CloseFromFree(u, g); } else { rest, t := Complete(u, g); }
      more := [step] + rest;
      LeadsOn(s, [step], u, rest, t);
    }
  }

  /**
   * No deadlock: from every reachable state, every channel whose goroutine was started can still be
   * closed, whoever holds the mutex and however far the workers are.
   */
  lemma CanAlwaysClose(steps: seq<Step>, g: Chan) returns (more: seq<Step>)
    requires g in Exec(Init, steps).goroutines
    ensures g in Exec(Init, steps + more).closed
  {
    ExecKeepsInv(steps);
    more := CloseFrom(Exec(Init, steps), g);
    ExecConcat(Init, steps, more);
    if g in Exec(Init, steps).closed {
      assert (steps + more)[..|steps|] == steps;
      ClosedForGood(steps + more, |steps|, g);
    }
  }

  lemma CloseFrom(s: State, g: Chan) returns (more: seq<Step>)
    requires Inv(s) && g in s.goroutines
    ensures g in Exec(s, more).closed || g in s.closed
  {
    match s.mu
    case Free =>
      var t;
      more, t := CloseFromFree(s, g);
    case HeldBy(c) =>
      var some, u := CallerReturns(s, c, g);
      var rest, t := CloseFromFree(u, g);
      LeadsOn(s, some, u, rest, t);
      more := some + rest;
    case HeldByShutdown(h) =>
      HolderKeepsOthers(s, h, g);
      var t;
      more, t := Complete(s, h);
  }

  /** While a shutdown holds the mutex, every other goroutine has ended with its channel closed. */
  lemma HolderKeepsOthers(s: State, h: Chan, g: Chan)
    requires Inv(s) && s.mu == HeldByShutdown(h) && g in s.goroutines
    ensures g == h || g in s.closed
  {
  }
}
