/**
 The detached helper as it runs: a machine whose files change by renames that may be
 refused, whose service answers polls arbitrarily, and whose clock advances while
 polling. Each method is tied to the account of a run in module Cutover.
 */
module Helper {
  import opened Wrappers
  import opened Files
  import opened Cutover

  const STOP_CLIENT_MS := 2000
  const STOP_SLEEP_MS := 1000
  const HEALTH_CLIENT_MS := 3000
  const HEALTH_SLEEP_MS := 2000
  const DEFAULT_TIMEOUT_MS := 30000
  const HEALTH_TIMEOUT_SEC := 40
  const BUSY_WINDOW_MS := 4 * 60 * 1000

  /** One poll request: a status code, or no answer, after some delay. */
  datatype Probe = Reply(status: int, delay: nat) | NoReply(delay: nat)

  datatype Action = StopService | StartService | RestartConsole

  datatype Reason = CannotBackUp(path: string) | CannotInstall(path: string) | Unhealthy

  datatype Note = Updated | NotStopped | Recovery(reason: Reason, failedRestores: nat, responding: bool)

  datatype HelperConfig = HelperConfig(
    healthTimeoutSecs: int, targetVersion: string, previousVersion: string, binaries: seq<Swap>)

  datatype HelperResult = HelperResult(phase: Phase, targetVersion: string, previousVersion: string, note: Note)

  function Window(timeoutMs: int): (ms: nat)
    ensures ms == if timeoutMs > 0 then timeoutMs else 30_000
  {
    if timeoutMs <= 0 then DEFAULT_TIMEOUT_MS else timeoutMs
  }

  /** Which service actions a run takes, in order. */
  function Script(a: Answers, end: InstallEnd): seq<Action> {
    if !a.stopped then [StopService, StartService]
    else if !end.Complete? then [StopService, StopService, StartService]
    else if a.healthy then [StopService, StartService, RestartConsole]
    else [StopService, StartService, StopService, StartService]
  }

  /** What the helper does, in order: service actions, polls for the old process and the new, renames. */
  datatype Event = Acted(action: Action) | AskedIfStopped | AskedIfHealthy | TriedRename

  /** The last order given to the service manager: stop or start. */
  function LastOrder(trace: seq<Event>): Option<Action> {
    if trace == [] then None
    else
      var e := trace[|trace| - 1];
      if e == Acted(StopService) || e == Acted(StartService) then Some(e.action) else LastOrder(trace[..|trace| - 1])
  }

  /** Event i is in its place: files move and the old process is awaited after a stop, the new one after a start. */
  ghost predicate InPlace(trace: seq<Event>, i: nat)
    requires i < |trace|
  {
    && (trace[i].TriedRename? || trace[i].AskedIfStopped? ==> LastOrder(trace[..i]) == Some(StopService))
    && (trace[i].AskedIfHealthy? ==> LastOrder(trace[..i]) == Some(StartService))
  }

  /** From event `from` on, everything is in its place. */
  ghost predicate Orderly(trace: seq<Event>, from: nat) {
    forall i :: from <= i < |trace| ==> InPlace(trace, i)
  }

  /** trace' is trace with nothing but e's after it. */
  ghost predicate Only(trace: seq<Event>, trace': seq<Event>, e: Event) {
    trace <= trace' && forall i :: |trace| <= i < |trace'| ==> trace'[i] == e
  }

  function ActionsIn(trace: seq<Event>): seq<Action> {
    if trace == [] then []
    else
      var front, e := ActionsIn(trace[..|trace| - 1]), trace[|trace| - 1];
      if e.Acted? then front + [e.action] else front
  }

  lemma Act(trace: seq<Event>, from: nat, a: Action)
    requires Orderly(trace, from)
    ensures Orderly(trace + [Acted(a)], from)
    ensures LastOrder(trace + [Acted(a)]) == if a.RestartConsole? then LastOrder(trace) else Some(a)
    ensures ActionsIn(trace + [Acted(a)]) == ActionsIn(trace) + [a]
  {
    var trace' := trace + [Acted(a)];
    assert trace'[..|trace|] == trace;
    forall i | from <= i < |trace'| ensures InPlace(trace', i) {
      if i < |trace| { assert InPlace(trace, i) && trace'[..i] == trace[..i]; }
    }
  }

  lemma Acts(before: seq<Action>, told: seq<Action>, first: seq<Action>, rest: seq<Action>)
    ensures before + first + rest == before + (first + rest) && told + first + rest == told + (first + rest)
  {}

  lemma OnlyNothing(trace: seq<Event>, e: Event)
    ensures Only(trace, trace, e)
  {}

  lemma OnlyMore(trace: seq<Event>, trace': seq<Event>, e: Event)
    requires Only(trace, trace', e)
    ensures Only(trace, trace' + [e], e)
  {}

  lemma Begin(trace: seq<Event>)
    ensures Orderly(trace, |trace|)
  {}

  /** A run of polls or of renames gives no orders, and is in its place if the last order was the right one. */
  lemma {:induction false} Carry(trace: seq<Event>, trace': seq<Event>, e: Event, from: nat)
    requires Only(trace, trace', e) && !e.Acted? && Orderly(trace, from)
    requires LastOrder(trace) == Some(if e.AskedIfHealthy? then StartService else StopService)
    ensures Orderly(trace', from)
    ensures LastOrder(trace') == LastOrder(trace) && ActionsIn(trace') == ActionsIn(trace)
    decreases |trace'|
  {
    if |trace'| == |trace| {
      assert trace' == trace;
    } else {
      var front := trace'[..|trace'| - 1];
      Carry(trace, front, e, from);
      forall i | from <= i < |trace'| ensures InPlace(trace', i) {
        if i < |front| { assert InPlace(front, i) && trace'[..i] == front[..i]; }
      }
    }
  }

  class Machine {
    const faults: Faults
    const probe: nat -> Probe
    var fs: Files
    var at: nat               // renames tried
    ghost var seen: seq<Files>
    var asked: nat            // polls sent
    var now: nat              // milliseconds spent polling
    var actions: seq<Action>
    ghost var trace: seq<Event>

    ghost function Log(): Journal
      reads this
    {
      Journal(fs, at, seen)
    }

    /** Poll k found the service answering 200 within the client's timeout. */
    predicate Up(k: nat, clientTimeout: nat) {
      probe(k).Reply? && probe(k).status == 200 && probe(k).delay < clientTimeout
    }

    method RenameFile(src: string, dst: string) returns (err: Option<RenameError>)
      modifies `fs, `at, `seen, `trace
      ensures (Log(), err) == Move(old(Log()), faults, src, dst)
      ensures at == old(at) + 1 && trace == old(trace) + [TriedRename]
    {
      var (fs', e) := Rename(fs, src, dst, faults(at));
      fs, at, seen, err := fs', at + 1, seen + [fs'], e;
      trace := trace + [TriedRename];
    }

    method Get(clientTimeout: nat, ghost question: Event) returns (up: bool)
      modifies `asked, `now, `trace
      ensures asked == old(asked) + 1 && up == Up(old(asked), clientTimeout)
      ensures trace == old(trace) + [question]
      ensures old(now) <= now <= old(now) + clientTimeout
    {
      var delay := probe(asked).delay;
      up := Up(asked, clientTimeout);
      trace := trace + [question];
      asked, now := asked + 1, now + if delay < clientTimeout then delay else clientTimeout;
    }

    /** Polls until the service is seen down. */
    method WaitStopped(timeoutMs: int) returns (stopped: bool)
      modifies `asked, `now, `trace
      ensures Only(old(trace), trace, AskedIfStopped) && |trace| - |old(trace)| == asked - old(asked)
      ensures old(asked) <= asked
      ensures stopped ==> old(asked) < asked && !Up(asked - 1, STOP_CLIENT_MS)
      ensures forall k :: old(asked) <= k < (if stopped then asked - 1 else asked) ==> Up(k, STOP_CLIENT_MS)
      ensures !stopped ==> now >= old(now) + Window(timeoutMs)
      ensures old(now) <= now < old(now) + Window(timeoutMs) + STOP_CLIENT_MS + STOP_SLEEP_MS
    {
      var deadline := now + Window(timeoutMs);
      while now < deadline
        invariant old(asked) <= asked && old(now) <= now < deadline + STOP_CLIENT_MS + STOP_SLEEP_MS
        invariant forall k :: old(asked) <= k < asked ==> Up(k, STOP_CLIENT_MS)
        invariant Only(old(trace), trace, AskedIfStopped) && |trace| - |old(trace)| == asked - old(asked)
        decreases deadline - now
      {
        var up := Get(STOP_CLIENT_MS, AskedIfStopped);
        if !up { return true; }
        now := now + STOP_SLEEP_MS;
      }
      return false;
    }

    /** Polls until the service answers 200. */
    method WaitHealthy(timeoutMs: int) returns (healthy: bool)
      modifies `asked, `now, `trace
      ensures Only(old(trace), trace, AskedIfHealthy) && |trace| - |old(trace)| == asked - old(asked)
      ensures old(asked) <= asked
      ensures healthy ==> old(asked) < asked && Up(asked - 1, HEALTH_CLIENT_MS)
      ensures forall k :: old(asked) <= k < (if healthy then asked - 1 else asked) ==> !Up(k, HEALTH_CLIENT_MS)
      ensures !healthy ==> now >= old(now) + Window(timeoutMs)
      ensures old(now) <= now < old(now) + Window(timeoutMs) + HEALTH_CLIENT_MS + HEALTH_SLEEP_MS
    {
      var deadline := now + Window(timeoutMs);
      while now < deadline
        invariant old(asked) <= asked && old(now) <= now < deadline + HEALTH_CLIENT_MS + HEALTH_SLEEP_MS
        invariant forall k :: old(asked) <= k < asked ==> !Up(k, HEALTH_CLIENT_MS)
        invariant Only(old(trace), trace, AskedIfHealthy) && |trace| - |old(trace)| == asked - old(asked)
        decreases deadline - now
      {
        var up := Get(HEALTH_CLIENT_MS, AskedIfHealthy);
        if up { return true; }
        now := now + HEALTH_SLEEP_MS;
      }
      return false;
    }

    method RunService(action: Action)
      modifies `actions, `trace
      ensures actions == old(actions) + [action] && trace == old(trace) + [Acted(action)]
    {
      actions := actions + [action];
      trace := trace + [Acted(action)];
    }

    /** Restores each binary from its backup and counts the failures. */
    method RollbackAll(toRestore: seq<Swap>) returns (failed: nat)
      modifies `fs, `at, `seen, `trace
      ensures Only(old(trace), trace, TriedRename) && |trace| - |old(trace)| == at - old(at)
      ensures (Log(), failed) == Rollback(old(Log()), faults, toRestore, 0)
    {
      hide Only, Rename, Move;
      assert Only(trace, trace, TriedRename) by { OnlyNothing(trace, TriedRename); }
      failed := 0;
      for i := 0 to |toRestore|
        invariant var (j, n) := Rollback(old(Log()), faults, toRestore, 0);
                  Rollback(Log(), faults, toRestore, i) == (j, n - failed)
        invariant Only(old(trace), trace, TriedRename) && |trace| - |old(trace)| == at - old(at)
      {
        OnlyMore(old(trace), trace, TriedRename);
        var err := RenameFile(toRestore[i].bak, toRestore[i].live);
        if err.Some? { failed := failed + 1; }
      }
    }

    method RecoverFailure(cfg: HelperConfig, toRestore: seq<Swap>, timeoutMs: int, reason: Reason, ghost from: nat)
      returns (res: HelperResult)
      requires Orderly(trace, from)
      modifies this
      ensures res.note.Recovery?
      ensures old(trace) <= trace && Orderly(trace, from) && LastOrder(trace) == Some(StartService)
      ensures ActionsIn(trace) == ActionsIn(old(trace)) + [StopService, StartService]
      ensures |trace| - |old(trace)| == (asked - old(asked)) + (at - old(at)) + 2
      ensures res.note.responding ==> |trace| > 0 && trace[|trace| - 1] == AskedIfHealthy
      ensures var r := Recover(old(Log()), faults, toRestore, res.note.responding);
              && Log() == r.j && res.phase == r.phase
              && res.note.reason == reason && res.note.failedRestores == r.failed
      ensures res.phase != Done && (res.phase == RolledBack ==> res.note.responding)
      ensures res.targetVersion == cfg.targetVersion && res.previousVersion == cfg.previousVersion
      ensures actions == old(actions) + [StopService, StartService]
      ensures res.note.responding ==> old(asked) < asked && Up(asked - 1, HEALTH_CLIENT_MS)
      ensures old(asked) <= asked
      ensures old(now) <= now < old(now) + Window(timeoutMs) + HEALTH_CLIENT_MS + HEALTH_SLEEP_MS
    {
      hide Orderly, LastOrder, ActionsIn, Rollback, Window, Up;
      Act(trace, from, StopService);
      RunService(StopService);
      ghost var stopped := trace;
      var failedRestores := RollbackAll(toRestore);
      Carry(stopped, trace, TriedRename, from);
      Act(trace, from, StartService);
      RunService(StartService);
      ghost var started := trace;
      var phase := if failedRestores > 0 then Failed else RolledBack;
      var responding := WaitHealthy(timeoutMs);
      Carry(started, trace, AskedIfHealthy, from);
      if !responding { phase := Failed; }
      return HelperResult(phase, cfg.targetVersion, cfg.previousVersion,
                          Recovery(reason, failedRestores, responding));
    }

    /** The install loop; `culprit` is the live path it stopped at. */
    method InstallAll(bins: seq<Swap>) returns (installed: seq<Swap>, end: InstallEnd, culprit: string)
      modifies `fs, `at, `seen, `trace
      ensures Only(old(trace), trace, TriedRename) && |trace| - |old(trace)| == at - old(at)
      ensures var r := Install(old(Log()), faults, bins, 0);
              Log() == r.j && installed == bins[..r.taken] && end == r.end
      ensures !end.Complete? ==> exists b :: b in bins && culprit == b.live
    {
      hide Rename, Only, Move;
      assert Only(trace, trace, TriedRename) by { OnlyNothing(trace, TriedRename); }
      installed := [];
      for i := 0 to |bins|
        invariant installed == bins[..i]
        invariant Install(old(Log()), faults, bins, 0) == Install(Log(), faults, bins, i)
        invariant Only(old(trace), trace, TriedRename) && |trace| - |old(trace)| == at - old(at)
      {
        var b := bins[i];
        OnlyMore(old(trace), trace, TriedRename);
        var backup := RenameFile(b.live, b.bak);
        OnlyMore(old(trace), trace, TriedRename);
        if backup == Some(Refused) { return installed, NoBackup, b.live; }
        var install := RenameFile(b.staged, b.live);
        if install.Some? { return installed + [b], NoInstall, b.live; }
        installed := installed + [b];
      }
      return installed, Complete, "";
    }

    /** Stops the service and waits until it is seen down. */
    method StopAndWait(timeoutMs: int) returns (stopped: bool)
      modifies `actions, `asked, `now, `trace
      ensures old(trace) < trace && trace[|old(trace)|] == Acted(StopService)
      ensures Orderly(trace, |old(trace)|) && LastOrder(trace) == Some(StopService)
      ensures actions == old(actions) + [StopService] && ActionsIn(trace) == ActionsIn(old(trace)) + [StopService]
      ensures |trace| - |old(trace)| == asked - old(asked) + 1 && old(asked) <= asked
      ensures old(now) <= now < old(now) + Window(timeoutMs) + STOP_CLIENT_MS + STOP_SLEEP_MS
    {
      hide Orderly, LastOrder, ActionsIn, Window, Up;
      Begin(trace);
      Act(trace, |trace|, StopService);
      RunService(StopService);
      ghost var ordered := trace;
      stopped := WaitStopped(timeoutMs);
      Carry(ordered, trace, AskedIfStopped, |old(trace)|);
    }

    /** Brings the new binaries up, and commits or recovers. */
    method StartAndCheck(cfg: HelperConfig, installed: seq<Swap>, timeoutMs: int, ghost from: nat)
      returns (res: HelperResult)
      requires Orderly(trace, from)
      modifies this
      ensures res.note.Updated? || (res.note.Recovery? && res.note.reason == Unhealthy)
      ensures res.targetVersion == cfg.targetVersion && res.previousVersion == cfg.previousVersion
      ensures old(trace) <= trace && Orderly(trace, from) && LastOrder(trace) == Some(StartService)
      ensures if res.note.Updated? then res.phase == Done && Log() == old(Log())
              else res.phase != Done
                   && var r := Recover(old(Log()), faults, installed, res.note.responding);
                      Log() == r.j && res.phase == r.phase
      ensures res.note.Updated? ==> |trace| >= 2 && trace[|trace| - 2..] == [AskedIfHealthy, Acted(RestartConsole)]
      ensures res.phase == RolledBack ==> |trace| > 0 && trace[|trace| - 1] == AskedIfHealthy
      ensures var acts := [StartService] + if res.note.Updated? then [RestartConsole] else [StopService, StartService];
              actions == old(actions) + acts && ActionsIn(trace) == ActionsIn(old(trace)) + acts
      ensures |trace| - |old(trace)| == (asked - old(asked)) + (at - old(at)) + (|actions| - |old(actions)|)
      ensures old(asked) <= asked
      ensures res.phase != Failed ==> old(asked) < asked && Up(asked - 1, HEALTH_CLIENT_MS)
      ensures old(now) <= now < old(now) + 2 * (Window(timeoutMs) + HEALTH_CLIENT_MS + HEALTH_SLEEP_MS)
    {
      hide Orderly, LastOrder, ActionsIn, Recover, Rollback, Window, Up;
      Act(trace, from, StartService);
      RunService(StartService);
      ghost var started := trace;
      var healthy := WaitHealthy(timeoutMs);
      Carry(started, trace, AskedIfHealthy, from);
      if healthy {
        Act(trace, from, RestartConsole);
        RunService(RestartConsole);
        res := HelperResult(Done, cfg.targetVersion, cfg.previousVersion, Updated);
      } else {
        res := RecoverFailure(cfg, installed, timeoutMs, Unhealthy, from);
      }
    }

    /** The cut-over, tied to the account of a run; also how long the polling can take. */
    method RunSequence(cfg: HelperConfig) returns (res: HelperResult, ghost a: Answers, ghost acts: seq<Action>)
      modifies this
      ensures var r := Run(old(Log()), faults, cfg.binaries, a); Log() == r.j && res.phase == r.phase
      ensures res.targetVersion == cfg.targetVersion && res.previousVersion == cfg.previousVersion
      ensures res.note.NotStopped? <==> !a.stopped
      ensures var end := Install(old(Log()), faults, cfg.binaries, 0).end;
              res.note.Recovery? ==>
                (res.note.reason.CannotBackUp? <==> end.NoBackup?)
                && (res.note.reason.CannotInstall? <==> end.NoInstall?)
      ensures res.note.Updated? <==> res.phase == Done
      ensures res.phase != Failed ==> old(asked) < asked && Up(asked - 1, HEALTH_CLIENT_MS)
      ensures actions == old(actions) + acts && acts == Script(a, Install(old(Log()), faults, cfg.binaries, 0).end)
      ensures var t := Window(cfg.healthTimeoutSecs * 1000);
              && (!a.stopped ==> now - old(now) < t + 3000)
              && now - old(now) < 3 * t + 13000
      ensures old(trace) < trace && trace[|old(trace)|] == Acted(StopService)
      ensures Orderly(trace, |old(trace)|) && LastOrder(trace) == Some(StartService)
      ensures ActionsIn(trace) == ActionsIn(old(trace)) + acts && (RestartConsole in acts <==> res.phase == Done)
      ensures res.phase == Done ==> |trace| >= 2 && trace[|trace| - 2..] == [AskedIfHealthy, Acted(RestartConsole)]
      ensures res.phase == RolledBack ==> trace[|trace| - 1] == AskedIfHealthy
      ensures |trace| - |old(trace)| == (asked - old(asked)) + (at - old(at)) + (|actions| - |old(actions)|)
    {
      hide Orderly, LastOrder, ActionsIn;
      hide Install, Rollback, Move, Rename, Recover, Window, Up, InPlace;
      var timeout := cfg.healthTimeoutSecs * 1000;
      a := Answers(false, false, false);
      ghost var from, t0 := |trace|, trace;
      var stopped := StopAndWait(timeout);
      ghost var t2 := trace;
      if !stopped {
        Act(t2, from, StartService);
        RunService(StartService);
        acts := [StopService, StartService];
        Acts(old(actions), ActionsIn(t0), [StopService], [StartService]);
        res := HelperResult(Failed, cfg.targetVersion, cfg.previousVersion, NotStopped);
        return;
      }
      var installed, end, culprit := InstallAll(cfg.binaries);
      Carry(t2, trace, TriedRename, from);
      hide Only;
      if !end.Complete? {
        res := RecoverFailure(cfg, installed, timeout,
                              if end.NoBackup? then CannotBackUp(culprit) else CannotInstall(culprit), from);
        a := Answers(true, false, res.note.responding);
        acts := [StopService] + [StopService, StartService];
        Acts(old(actions), ActionsIn(t0), [StopService], [StopService, StartService]);
        return;
      }
      res := StartAndCheck(cfg, installed, timeout, from);
      ghost var last := [StartService] + if res.note.Updated? then [RestartConsole] else [StopService, StartService];
      acts := [StopService] + last;
      Acts(old(actions), ActionsIn(t0), [StopService], last);
      a := if res.note.Updated? then Answers(true, true, false) else Answers(true, false, res.note.responding);
    }

    /**
     What an operator may rely on once the helper reports, for binaries with distinct paths:
     the files promised by each phase, no binary lost after any rename on the way, and, with
     the shipped 40 s timeout, polling over before the busy flag's 4-minute timer fires. Files
     move only while the service is ordered stopped, health is asked only while it is ordered
     started, and the last order leaves it started.
     */
    method Update(cfg: HelperConfig) returns (res: HelperResult)
      requires Distinct(cfg.binaries)
      modifies this
      ensures res.phase == Done ==> forall b :: b in cfg.binaries ==> Swapped(old(fs), fs, b)
      ensures res.phase == RolledBack && !StaleTrap(old(fs), cfg.binaries) ==>
                forall b :: b in cfg.binaries ==> Same(old(fs), fs, b.live)
      ensures res.phase != Failed ==> old(asked) < asked && Up(asked - 1, HEALTH_CLIENT_MS)
      ensures res.note.NotStopped? ==> fs == old(fs) && at == old(at)
      ensures GoodState(old(fs), fs, cfg.binaries)
      ensures old(seen) <= seen
      ensures forall k :: |old(seen)| <= k < |seen| ==> GoodState(old(fs), seen[k], cfg.binaries)
      ensures cfg.healthTimeoutSecs == HEALTH_TIMEOUT_SEC ==> now - old(now) < 133000 < BUSY_WINDOW_MS
      ensures old(trace) < trace && trace[|old(trace)|] == Acted(StopService)
      ensures Orderly(trace, |old(trace)|) && LastOrder(trace) == Some(StartService)
      ensures old(actions) <= actions && (RestartConsole in actions[|old(actions)|..] <==> res.phase == Done)
    {
      hide Orderly, LastOrder, ActionsIn;
      ghost var j, bins := Log(), cfg.binaries;
      ghost var a;
      ghost var acts;
      res, a, acts := RunSequence(cfg);
      CrashSafe(j, faults, bins, a);
      if res.phase == Done { DoneInstallsEverything(j, faults, bins, a); }
      if res.phase == RolledBack && !StaleTrap(j.fs, bins) { RollbackHonest(j, faults, bins, a); }
    }
  }
}
