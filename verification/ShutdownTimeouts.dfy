/** Which servers are shut down gracefully and which are closed at once (server.go:392-443). */
module ShutdownTimeouts {
  import opened Strings
  import opened Shutdown

  /**
   * The timeout last given to a server: by a call of EnableGracefulShutdown that was not refused, or zero
   * since the last DisableGracefulShutdown and before the first call.
   */
  function LastTimeout(steps: seq<Step>, server: ServerID): nat {
    if steps == [] then 0
    else
      var init := steps[..|steps| - 1];
      match steps[|steps| - 1]
      case SetTimeout(t, x, d) =>
        if x == server && d > 0 && CallerAt(Exec(Init, init), t).Outside? then d else LastTimeout(init, server)
      case ClearTimeout(x) => if x == server then 0 else LastTimeout(init, server)
      case _ => LastTimeout(init, server)
  }

  /** How a server is stopped: its connections are cut, or given so much time. */
  datatype End = ByClose | ByShutdown(timeout: nat)

  /** At step `k` the worker for position `i` of the list reads its server's timeout, under channel `c`. */
  predicate ReadAt(steps: seq<Step>, k: nat, c: Chan, i: nat) {
    k < |steps| && steps[k] == ReadTimeout(i) &&
    var s := Exec(Init, steps[..k]);
    s.chan == Some(c) && i in s.workers && s.workers[i] == Begun && i < |s.servers|
  }

  /** At step `k` the worker's Close or Shutdown returns. */
  predicate StopAt(steps: seq<Step>, k: nat, c: Chan, i: nat, e: End) {
    k < |steps| && steps[k] == StopServer(i) &&
    var s := Exec(Init, steps[..k]);
    && s.chan == Some(c) && i in s.workers && i < |s.servers|
    && s.workers[i] == match e case ByClose => InClose case ByShutdown(d) => InShutdown(d)
  }

  function TimeoutOf(s: State, server: ServerID): nat {
    if server in s.timeouts then s.timeouts[server] else 0
  }

  lemma ChanKeepsTimeouts(s: State, step: Step)
    requires IsChan(step)
    ensures ChanStep(s, step).timeouts == s.timeouts
  {
  }

  lemma ListKeepsTimeouts(s: State, step: Step)
    requires IsList(step) && !step.SetTimeout?
    ensures ListStep(s, step).timeouts == s.timeouts
  {
  }

  lemma FinishKeepsTimeouts(s: State, step: Step)
    requires IsFinish(step)
    ensures FinishStep(s, step).timeouts == s.timeouts
  {
  }

  lemma OthersKeepTimeouts(s: State, step: Step)
    requires !step.SetTimeout? && !step.ClearTimeout?
    ensures Next(s, step).timeouts == s.timeouts
  {
    hide ListStep, ChanStep, GatherStep, FinishStep, WorkerStep;
    if IsList(step) {
      ListKeepsTimeouts(s, step);
    } else if IsChan(step) {
      ChanKeepsTimeouts(s, step);
    } else if IsGather(step) {
      GatherFrame(s, step);
    } else if IsFinish(step) {
      FinishKeepsTimeouts(s, step);
    } else {
      WorkerFrame(s, step);
    }
  }

  lemma SetTimeoutSets(s: State, t: Thread, x: ServerID, d: nat, server: ServerID)
    requires !s.crashed
    ensures TimeoutOf(Next(s, SetTimeout(t, x, d)), server) ==
      if x == server && d > 0 && CallerAt(s, t).Outside? then d else TimeoutOf(s, server)
  {
  }

  /** The field that a worker reads is the timeout last given. */
  lemma {:induction false} TimeoutTracked(steps: seq<Step>, server: ServerID)
    ensures TimeoutOf(Exec(Init, steps), server) == LastTimeout(steps, server)
  {
    if steps != [] {
      var init, last := steps[..|steps| - 1], steps[|steps| - 1];
      TimeoutTracked(init, server);
      ExecKeepsInv(init);
      hide Next, Inv, TimeoutOf;
      if last.SetTimeout? {
        NotCrashed(init);
        SetTimeoutSets(Exec(Init, init), last.t, last.server, last.timeout, server);
      } else if last.ClearTimeout? {
        NotCrashed(init);
        ClearTimeoutClears(Exec(Init, init), last.server, server);
      } else {
        OthersKeepTimeouts(Exec(Init, init), last);
        SameTimeouts(Exec(Init, init), Next(Exec(Init, init), last), server);
      }
    }
  }

  lemma NotCrashed(steps: seq<Step>)
    ensures !Exec(Init, steps).crashed
  {
    ExecKeepsInv(steps);
  }

  lemma ClearTimeoutClears(s: State, x: ServerID, server: ServerID)
    requires !s.crashed
    ensures TimeoutOf(Next(s, ClearTimeout(x)), server) == if x == server then 0 else TimeoutOf(s, server)
  {
  }

  lemma SameTimeouts(s: State, t: State, server: ServerID)
    requires s.timeouts == t.timeouts
    ensures TimeoutOf(s, server) == TimeoutOf(t, server)
  {
  }

  // ----- from reading to stopping -----

  /** A shutdown is in progress and has not closed its channel. */
  predicate Busy(s: State) {
    s.mu.HeldByShutdown? && Working(GoroutineAt(s, s.mu.g))
  }

  /** Unfinished workers belong to a shutdown in progress. */
  predicate WorkersBusy(s: State) {
    forall i :: i in s.workers && s.workers[i] != Finished ==> Busy(s)
  }

  /** The list, the channel and the worker `i` are as before. */
  predicate SameWorker(s: State, n: State, i: nat) {
    i in s.workers && i in n.workers && n.workers[i] == s.workers[i] && n.servers == s.servers && n.chan == s.chan
  }

  lemma CallersWait(s: State, step: Step)
    requires MutualExclusion(s) && s.mu.HeldByShutdown? && (IsList(step) || IsChan(step))
    ensures var n := if IsList(step) then ListStep(s, step) else ChanStep(s, step);
      n.workers == s.workers && n.servers == s.servers && n.chan == s.chan && n.mu == s.mu && n.goroutines == s.goroutines
  {
    var c := CallerAt(s, step.t);
    assert !InMutex(c);
  }

  lemma CallersLeaveWorkers(s: State, step: Step)
    requires IsList(step) || IsChan(step)
    ensures (if IsList(step) then ListStep(s, step) else ChanStep(s, step)).workers == s.workers
  {
  }

  lemma GatherKeepsBusy(s: State, step: Step)
    requires MutualExclusion(s) && Busy(s) && IsGather(step)
    ensures Busy(GatherStep(s, step))
  {
    hide GatherStep;
    GatherFrame(s, step);
  }

  lemma GatherStarts(s: State, step: Step)
    requires MutualExclusion(s) && IsGather(step)
    ensures var n := GatherStep(s, step);
      && n.servers == s.servers && n.chan == s.chan
      && (n.workers == s.workers || n.workers == map[] || Busy(s))
      && forall j :: j in n.workers ==> n.workers[j] == Begun || (j in s.workers && n.workers[j] == s.workers[j])
  {
    if step.StartWorker? && GoroutineAt(s, step.g).Starting? {
      assert s.mu == HeldByShutdown(step.g);
    }
  }

  lemma GatherWorkers(s: State, step: Step, i: nat)
    requires MutualExclusion(s) && IsGather(step) && WorkersBusy(s)
    ensures var n := GatherStep(s, step);
      && n.servers == s.servers && n.chan == s.chan && WorkersBusy(n)
      && (i in n.workers ==> n.workers[i] == Begun || (i in s.workers && n.workers[i] == s.workers[i]))
  {
    hide GatherStep, MutualExclusion, Busy;
    GatherStarts(s, step);
    if Busy(s) { GatherKeepsBusy(s, step); }
  }

  lemma FinishWorkers(s: State, step: Step)
    requires Inv(s) && WorkersBusy(s) && IsFinish(step)
    ensures var n := FinishStep(s, step);
      && n.workers == s.workers && WorkersBusy(n)
      && forall i :: i in s.workers && s.workers[i] != Finished ==> SameWorker(s, n, i)
  {
    if step.CloseChan? && GoroutineAt(s, step.g).Closing? {
      CountNone(s.workers);
    }
  }

  function Decision(d: nat): Worker {
    if d == 0 then InClose else InShutdown(d)
  }

  lemma WorkerWorkers(s: State, step: Step, i: nat)
    requires IsWorker(step) && WorkersBusy(s)
    ensures var n := WorkerStep(s, step);
      && n.servers == s.servers && n.chan == s.chan && WorkersBusy(n)
      && (i in n.workers ==> i in s.workers)
      && (i in n.workers && n.workers[i] != s.workers[i] && (n.workers[i].InClose? || n.workers[i].InShutdown?) ==>
            && step == ReadTimeout(i) && s.workers[i] == Begun && s.chan.Some? && i < |s.servers|
            && n.workers[i] == Decision(TimeoutOf(s, s.servers[i])))
  {
  }

  /** A worker that knows how to stop its server. */
  predicate Decided(s: State, i: nat) {
    i in s.workers && (s.workers[i].InClose? || s.workers[i].InShutdown?)
  }

  /** It has just read the timeout, or it is as it was. */
  predicate DecidedNow(s: State, step: Step, n: State, i: nat) {
    && step == ReadTimeout(i) && i in s.workers && s.workers[i] == Begun && s.chan.Some? && i < |s.servers|
    && i in n.workers && n.workers[i] == Decision(TimeoutOf(s, s.servers[i]))
  }

  lemma CallersWorkers(s: State, step: Step, i: nat)
    requires MutualExclusion(s) && WorkersBusy(s) && (IsList(step) || IsChan(step))
    ensures var n := if IsList(step) then ListStep(s, step) else ChanStep(s, step);
      WorkersBusy(n) && (Decided(n, i) ==> SameWorker(s, n, i))
  {
    hide ListStep, ChanStep, MutualExclusion;
    if Busy(s) { CallersWait(s, step); } else { CallersLeaveWorkers(s, step); }
  }

  lemma TimeoutsWorkers(s: State, server: ServerID, i: nat)
    requires WorkersBusy(s)
    ensures var n := s.(timeouts := s.timeouts[server := 0]); WorkersBusy(n) && (Decided(n, i) ==> SameWorker(s, n, i))
  {
  }

  /** It has decided, as the timeout just read demands or as before; the list and the channel are as before. */
  predicate DecidedFrom(s: State, step: Step, n: State, i: nat) {
    n.servers == s.servers && n.chan == s.chan && (DecidedNow(s, step, n, i) || SameWorker(s, n, i))
  }

  lemma DecidedStep(s: State, step: Step, i: nat)
    requires Inv(s) && WorkersBusy(s)
    ensures var n := Next(s, step);
      WorkersBusy(n) && (Decided(n, i) ==> DecidedFrom(s, step, n, i))
  {
    hide ListStep, ChanStep, GatherStep, FinishStep, WorkerStep, Inv, MutualExclusion, WorkersBusy;
    InvParts(s);
    if step.ClearTimeout? {
      TimeoutsWorkers(s, step.server, i);
    } else if IsList(step) || IsChan(step) {
      CallersWorkers(s, step, i);
    } else if IsGather(step) {
      GatherWorkers(s, step, i);
    } else if IsFinish(step) {
      FinishWorkers(s, step);
    } else {
      WorkerWorkers(s, step, i);
    }
  }

  lemma InvParts(s: State)
    requires Inv(s)
    ensures MutualExclusion(s) && !s.crashed
  {
  }

  lemma {:induction false} AlwaysBusy(steps: seq<Step>)
    ensures WorkersBusy(Exec(Init, steps))
  {
    if steps != [] {
      var init, last := steps[..|steps| - 1], steps[|steps| - 1];
      hide Next, Inv, WorkersBusy;
      AlwaysBusy(init);
      ExecKeepsInv(init);
      DecidedStep(Exec(Init, init), last, 0);
    } else {
      assert WorkersBusy(Init);
    }
  }

  /** What worker `i` is about to do is what the timeout last given demanded when it read it, at step `k`. */
  predicate Told(steps: seq<Step>, k: nat, i: nat) {
    var s := Exec(Init, steps);
    && k < |steps| && s.chan.Some? && ReadAt(steps, k, s.chan.value, i)
    && Exec(Init, steps[..k]).servers == s.servers && i < |s.servers| && i in s.workers
    && s.workers[i] == Decision(LastTimeout(steps[..k], s.servers[i]))
  }

  lemma ToldNow(init: seq<Step>, last: Step, i: nat)
    requires DecidedNow(Exec(Init, init), last, Next(Exec(Init, init), last), i)
    requires var s, n := Exec(Init, init), Next(Exec(Init, init), last); n.servers == s.servers && n.chan == s.chan
    ensures Told(init + [last], |init|, i)
  {
    hide Next;
    var steps := init + [last];
    assert steps[..|init|] == init && steps[|steps| - 1] == last;
    TimeoutTracked(init, Exec(Init, init).servers[i]);
  }

  lemma ToldStill(init: seq<Step>, last: Step, k: nat, i: nat)
    requires Told(init, k, i) && SameWorker(Exec(Init, init), Next(Exec(Init, init), last), i)
    ensures Told(init + [last], k, i)
  {
    hide Next;
    var steps := init + [last];
    assert steps[..|init|] == init && steps[|steps| - 1] == last && steps[..k] == init[..k];
  }

  lemma {:induction false} DecidedWasTold(steps: seq<Step>, i: nat) returns (k: nat)
    requires Decided(Exec(Init, steps), i)
    ensures Told(steps, k, i)
  {
    hide Next, Inv, WorkersBusy, Told, Decided, DecidedNow, SameWorker;
    DecidedSteps(steps, i);
    var init, last := steps[..|steps| - 1], steps[|steps| - 1];
    var s := Exec(Init, init);
    assert Exec(Init, steps) == Next(s, last) && steps == init + [last];
    ExecKeepsInv(init);
    AlwaysBusy(init);
    DecidedStep(s, last, i);
    if DecidedNow(s, last, Next(s, last), i) {
      ToldNow(init, last, i);
      k := |init|;
    } else {
      SameDecided(s, Next(s, last), i);
      k := DecidedWasTold(init, i);
      ToldStill(init, last, k, i);
    }
  }

  lemma DecidedSteps(steps: seq<Step>, i: nat)
    requires Decided(Exec(Init, steps), i)
    ensures steps != []
  {
  }

  lemma SameDecided(s: State, n: State, i: nat)
    requires Decided(n, i) && SameWorker(s, n, i)
    ensures Decided(s, i)
  {
  }

  // ----- what is promised -----

  function EndFor(d: nat): End {
    if d == 0 then ByClose else ByShutdown(d)
  }

  /**
   * Over all interleavings: when the server at position `i` under a channel is stopped at step `j`, its
   * worker has read its timeout at an earlier step, with the same list; and it is shut down with exactly
   * the timeout last given to it by then when there was one, and closed exactly when there was none or it
   * had been disabled.
   */
  lemma StoppedAsTold(steps: seq<Step>, j: nat, c: Chan, i: nat, e: End)
    requires StopAt(steps, j, c, i, e)
    ensures exists k: nat ::
      && k < j && ReadAt(steps, k, c, i)
      && Exec(Init, steps[..k]).servers == Exec(Init, steps[..j]).servers
      && e == EndFor(LastTimeout(steps[..k], Exec(Init, steps[..j]).servers[i]))
  {
    hide Exec;
    var k := DecidedWasTold(steps[..j], i);
    assert steps[..j][..k] == steps[..k] && steps[..j][k] == steps[k];
  }

  lemma StopShows(s: State, step: Step, c: Chan, i: nat)
    requires !s.crashed
    ensures (c, i) in Next(s, step).stopped <==>
      (c, i) in s.stopped ||
      (step == StopServer(i) && s.chan == Some(c) && i in s.workers && i < |s.servers| && Decided(s, i))
  {
    hide ListStep, ChanStep, GatherStep, FinishStep, WorkerStep;
    if IsList(step) || IsChan(step) {
      CallersStopNothing(s, step);
    } else if IsGather(step) {
      GatherFrame(s, step);
    } else if IsFinish(step) {
      FinishStopsNothing(s, step);
    } else if IsWorker(step) {
      WorkerStops(s, step, c, i);
    }
  }

  lemma CallersStopNothing(s: State, step: Step)
    requires IsList(step) || IsChan(step)
    ensures (if IsList(step) then ListStep(s, step) else ChanStep(s, step)).stopped == s.stopped
  {
  }

  lemma FinishStopsNothing(s: State, step: Step)
    requires IsFinish(step)
    ensures FinishStep(s, step).stopped == s.stopped
  {
  }

  lemma WorkerStops(s: State, step: Step, c: Chan, i: nat)
    requires IsWorker(step)
    ensures (c, i) in WorkerStep(s, step).stopped <==>
      (c, i) in s.stopped ||
      (step == StopServer(i) && s.chan == Some(c) && i in s.workers && i < |s.servers| && Decided(s, i))
  {
  }

  function EndOf(w: Worker): End {
    if w.InShutdown? then ByShutdown(w.timeout) else ByClose
  }

  ghost predicate StoppedDuring(steps: seq<Step>, c: Chan, i: nat) {
    exists j: nat, e :: StopAt(steps, j, c, i, e)
  }

  /** A position counts as stopped exactly when its worker's Close or Shutdown has returned. */
  lemma {:induction false} StoppedExactly(steps: seq<Step>, c: Chan, i: nat)
    ensures (c, i) in Exec(Init, steps).stopped <==> StoppedDuring(steps, c, i)
  {
    if steps != [] {
      var init, last := steps[..|steps| - 1], steps[|steps| - 1];
      StoppedExactly(init, c, i);
      NotCrashed(init);
      hide Next, Exec;
      var s := Exec(Init, init);
      assert Exec(Init, steps) == Next(s, last) by { ExecLast(steps); }
      StopShows(s, last, c, i);
      StopAtInit(steps, c, i);
    } else {
      assert Exec(Init, []) == Init;
    }
  }

  lemma ExecLast(steps: seq<Step>)
    requires steps != []
    ensures Exec(Init, steps) == Next(Exec(Init, steps[..|steps| - 1]), steps[|steps| - 1])
  {
  }

  predicate StopNow(steps: seq<Step>, c: Chan, i: nat) {
    steps != [] && steps[|steps| - 1] == StopServer(i) &&
    var s := Exec(Init, steps[..|steps| - 1]);
    s.chan == Some(c) && i in s.workers && i < |s.servers| && Decided(s, i)
  }

  lemma StopAtInit(steps: seq<Step>, c: Chan, i: nat)
    requires steps != []
    ensures StoppedDuring(steps, c, i) <==> StopNow(steps, c, i) || StoppedDuring(steps[..|steps| - 1], c, i)
  {
    hide Exec;
    var init := steps[..|steps| - 1];
    forall j: nat, e ensures StopAt(init, j, c, i, e) ==> StopAt(steps, j, c, i, e) {
      if j < |init| { assert init[..j] == steps[..j]; }
    }
    forall j: nat, e ensures StopAt(steps, j, c, i, e) && j < |init| ==> StopAt(init, j, c, i, e) {
      if j < |init| { assert init[..j] == steps[..j]; }
    }
    if StopNow(steps, c, i) {
      assert StopAt(steps, |init|, c, i, EndOf(Exec(Init, init).workers[i]));
    }
  }

  // ----- the reading is one -----

  /** The worker has read its timeout: it is past that point, or its channel is closed and given up. */
  predicate HasRead(s: State, c: Chan, i: nat) {
    || (c in s.closed && s.chan != Some(c))
    || (s.mu == HeldByShutdown(c) && s.chan == Some(c) && i in s.workers && s.workers[i] != Begun)
  }

  lemma CallersKeepRead(s: State, step: Step, c: Chan, i: nat)
    requires MutualExclusion(s) && ClosedChans(s) && HasRead(s, c, i) && (IsList(step) || IsChan(step))
    ensures HasRead(if IsList(step) then ListStep(s, step) else ChanStep(s, step), c, i)
  {
    if s.mu.HeldByShutdown? { CallersWait(s, step); }
  }

  lemma GatherKeepsRead(s: State, step: Step, c: Chan, i: nat)
    requires MutualExclusion(s) && WorkersInStep(s) && HasRead(s, c, i) && IsGather(step)
    ensures HasRead(GatherStep(s, step), c, i)
  {
  }

  lemma FinishKeepsRead(s: State, step: Step, c: Chan, i: nat)
    requires MutualExclusion(s) && ClosedChans(s) && HasRead(s, c, i) && IsFinish(step)
    ensures HasRead(FinishStep(s, step), c, i)
  {
  }

  lemma WorkersKeepRead(s: State, step: Step, c: Chan, i: nat)
    requires HasRead(s, c, i) && IsWorker(step)
    ensures HasRead(WorkerStep(s, step), c, i)
  {
  }

  lemma NextKeepsRead(s: State, step: Step, c: Chan, i: nat)
    requires Inv(s) && HasRead(s, c, i)
    ensures HasRead(Next(s, step), c, i)
  {
    assert MutualExclusion(s) && ClosedChans(s) && WorkersInStep(s);
    hide ListStep, ChanStep, GatherStep, FinishStep, WorkerStep, Inv, HasRead, MutualExclusion, ClosedChans, WorkersInStep;
    if step.ClearTimeout? {
      TimeoutKeepsRead(s, step.server, c, i);
    } else if IsList(step) || IsChan(step) {
      CallersKeepRead(s, step, c, i);
    } else if IsGather(step) {
      GatherKeepsRead(s, step, c, i);
    } else if IsFinish(step) {
      FinishKeepsRead(s, step, c, i);
    } else {
      WorkersKeepRead(s, step, c, i);
    }
  }

  lemma TimeoutKeepsRead(s: State, server: ServerID, c: Chan, i: nat)
    requires HasRead(s, c, i)
    ensures HasRead(s.(timeouts := s.timeouts[server := 0]), c, i)
  {
  }

  lemma ReadingIsRead(s: State, c: Chan, i: nat)
    requires ListAndChan(s) && !s.crashed && WorkersBusy(s)
    requires s.chan == Some(c) && i in s.workers && s.workers[i] == Begun && i < |s.servers|
    ensures HasRead(WorkerStep(s, ReadTimeout(i)), c, i)
  {
  }

  lemma {:induction false} ReadFrom(steps: seq<Step>, j: nat, c: Chan, i: nat)
    requires ReadAt(steps, j, c, i)
    ensures HasRead(Exec(Init, steps), c, i)
  {
    var init, last := steps[..|steps| - 1], steps[|steps| - 1];
    var s := Exec(Init, init);
    ExecLast(steps);
    ExecKeepsInv(init);
    hide Exec;
    if j == |init| {
      AlwaysBusy(init);
      ReadingIsRead(s, c, i);
      NextIsWorkerStep(s, last);
    } else {
      hide Inv, HasRead, Next;
      assert init[..j] == steps[..j];
      ReadFrom(init, j, c, i);
      NextKeepsRead(s, last, c, i);
    }
  }

  lemma NextIsWorkerStep(s: State, step: Step)
    requires Inv(s) && IsWorker(step)
    ensures Next(s, step) == WorkerStep(s, step)
  {
    hide WorkerStep;
  }

  /** Every worker reads its server's timeout once, so what it was told is what it is stopped with. */
  lemma ReadOnce(steps: seq<Step>, j: nat, k: nat, c: Chan, i: nat)
    requires ReadAt(steps, j, c, i) && ReadAt(steps, k, c, i)
    ensures j == k
  {
    hide Exec;
    if j < k { NotReadBefore(steps, j, k, c, i); }
    if k < j { NotReadBefore(steps, k, j, c, i); }
  }

  lemma NotReadBefore(steps: seq<Step>, j: nat, k: nat, c: Chan, i: nat)
    requires ReadAt(steps, k, c, i) && j < k
    ensures !ReadAt(steps, j, c, i)
  {
    hide Exec;
    if ReadAt(steps, j, c, i) {
      assert steps[..k][..j] == steps[..j] && steps[..k][j] == steps[j];
      ReadFrom(steps[..k], j, c, i);
      assert false;
    }
  }
}
