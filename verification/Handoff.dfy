/**
 The updater in front of the helper: any number of Apply calls race for the busy flag,
 the winner downloads, verifies and launches the helper, and a timer frees the flag if
 the service is never restarted, though its helper may still be about. Every atomic
 action is one step, and the two deletions of a failed run's staged files come after its
 release of the flag, as in the program.
 */
module Handoff {
  import opened Wrappers
  import opened Files
  import Version
  import Checksums
  import Cutover

  datatype Asset = Asset(name: string, url: string)

  datatype Release = Release(tag: string, assets: seq<Asset>)

  /** The first asset with the name. */
  function FindAsset(assets: seq<Asset>, name: string): (r: Option<Asset>)
    ensures r.Some? ==> exists i :: 0 <= i < |assets| && assets[i] == r.value && r.value.name == name
                                    && forall k :: 0 <= k < i ==> assets[k].name != name
    ensures r.None? ==> forall a :: a in assets ==> a.name != name
  {
    if assets == [] then None
    else if assets[0].name == name then Some(assets[0])
    else
      var r := FindAsset(assets[1..], name);
      assert forall i :: 0 <= i < |assets[1..]| ==> assets[1..][i] == assets[i + 1];
      r
  }

  /** What stays fixed while one process runs. `arch` is the asset suffix, if supported. */
  datatype Setup = Setup(
    appliance: bool, version: string, arch: Option<string>,
    binDir: string, workDir: string, digest: Bytes -> string)

  function AssetName(c: Setup, n: nat): string
    requires c.arch.Some?
  {
    (if n == 0 then "wlcsim-" else "wlcsim-console-") + c.arch.value
  }

  function BaseName(n: nat): string { if n == 0 then "wlcsim" else "wlcsim-console" }

  function Join(dir: string, name: string): string { dir + ("/" + name) }

  function StagedPath(c: Setup, n: nat): string { Join(c.workDir, BaseName(n) + ".new") }

  /** The asset checked against the listing for file n is the one that goes to live path n. */
  lemma AssetOfBinary(c: Setup, n: nat)
    requires c.arch.Some?
    ensures AssetName(c, n) == BaseName(n) + ("-" + c.arch.value)
  {
    assert "wlcsim-" == "wlcsim" + "-" && "wlcsim-console-" == "wlcsim-console" + "-";
  }

  /** What the helper is told to install. */
  function Binaries(c: Setup): seq<Cutover.Swap> {
    seq(2, n requires 0 <= n < 2 =>
      Cutover.Swap(StagedPath(c, n), Join(c.binDir, BaseName(n)), Join(c.binDir, BaseName(n) + ".bak")))
  }

  /** Where one attempt stands. `body` is the listing fetched for `rel`. */
  datatype Stage =
    | Choosing                                       // in Apply, holding the flag
    | Begun(rel: Release)                            // run has started
    | Working(rel: Release, body: string, verified: nat, got: Option<string>)
    | Launched(rel: Release, body: string)           // helper spawned, timer not armed yet
    | Armed(rel: Release, body: string)              // run has returned, timer pending
    | Cleaning(left: nat)                            // flag released, files still to delete
    | TimedOut(rel: Release, body: string)           // the timer has freed the flag
    | Over(end: End)

  datatype End = NotOffered | Busy | Declined | GaveUp | TimerFoundItFree

  /** What a helper moved to live path n: whose helper, which bytes, and whether its attempt held the flag. */
  datatype Taken = Taken(id: nat, content: Bytes, held: bool)

  /** `helpers` are the attempts whose helper is running, `live` what helpers of this process have moved. */
  datatype World = World(
    busy: bool, attempts: map<nat, Stage>, staged: Files, helpers: set<nat>, live: map<nat, Taken>)

  /** A process that has just started, with nothing staged. */
  const IDLE := World(false, map[], map[], {}, map[])

  datatype Transfer = Unavailable | Broken | Complete

  /** One atomic action, with whatever the outside world answered. */
  datatype Step =
    | Enter(id: nat)
    | Choose(id: nat, latest: Option<Release>, enoughSpace: bool)
    | FetchSums(id: nat, reply: Option<string>)
    | Download(id: nat, content: Bytes, transfer: Transfer)
    | Check(id: nat)
    | Launch(id: nat, spawned: bool)
    | Arm(id: nat)
    | TimerFires(id: nat)
    | Delete(id: nat)
    | HelperTakes(id: nat, n: nat)   // a running helper's rename of staged file n to its live path
    | HelperEnds(id: nat)
    | Restart(staged: Files)         // the process is replaced; what is then staged

  ghost predicate Listed(body: string) { Checksums.Read(body).Ok? }

  ghost predicate Enabled(w: World, step: Step) {
    match step
    case Restart(_) => true
    case Enter(id) => id !in w.attempts
    case _ =>
      step.id in w.attempts &&
      var at := w.attempts[step.id];
      match step
      case Choose(_, _, _) => at.Choosing?
      case FetchSums(_, _) => at.Begun?
      case Download(_, _, _) => at.Working? && at.verified < 2 && at.got.None?
      case Check(_) => at.Working? && at.verified < 2 && at.got.Some?
      case Launch(_, _) => at.Working? && at.verified == 2
      case Arm(_) => at.Launched?
      case TimerFires(_) => at.Armed?
      case Delete(_) => at.Cleaning? && 0 < at.left <= 2
      case HelperTakes(id, n) => n < 2 && id in w.helpers
      case HelperEnds(id) => id in w.helpers
  }

  function Put(w: World, id: nat, stage: Stage): World { w.(attempts := w.attempts[id := stage]) }

  /** run's deferred cleanup begins: the flag is stored false, the deletions follow. */
  function Fail(w: World, id: nat): World { Put(w, id, Cleaning(2)).(busy := false) }

  ghost predicate HasAssets(c: Setup, rel: Release) {
    && c.arch.Some?
    && FindAsset(rel.assets, AssetName(c, 0)).Some?
    && FindAsset(rel.assets, AssetName(c, 1)).Some?
    && FindAsset(rel.assets, "checksums.txt").Some?
  }

  ghost predicate Published(c: Setup, body: string, n: nat, got: string) {
    && c.arch.Some? && Listed(body)
    && AssetName(c, n) in Checksums.Read(body).value
    && Checksums.Read(body).value[AssetName(c, n)] == got
  }

  ghost function Take(c: Setup, w: World, step: Step): World
    requires Enabled(w, step)
  {
    match step
    case Restart(staged) => IDLE.(staged := staged)
    case Enter(id) =>
      if !c.appliance then Put(w, id, Over(NotOffered))
      else if w.busy then Put(w, id, Over(Busy))
      else Put(w, id, Choosing).(busy := true)
    case Choose(id, latest, enoughSpace) =>
      if latest.Some? && Version.IsNewer(latest.value.tag, c.version) && c.arch.Some? && enoughSpace
      then Put(w, id, Begun(latest.value))
      else Put(w, id, Over(Declined)).(busy := false)
    case FetchSums(id, reply) =>
      var rel := w.attempts[id].rel;
      if HasAssets(c, rel) && reply.Some? && Listed(reply.value)
      then Put(w, id, Working(rel, reply.value, 0, None))
      else Fail(w, id)
    case Download(id, content, transfer) =>
      var at := w.attempts[id];
      var path := StagedPath(c, at.verified);
      (match transfer
       case Unavailable => Fail(w, id)
       case Broken => Fail(w, id).(staged := w.staged - {path})
       case Complete => Put(w, id, at.(got := Some(c.digest(content)))).(staged := w.staged[path := content]))
    case Check(id) =>
      var at := w.attempts[id];
      if Published(c, at.body, at.verified, at.got.value)
      then Put(w, id, at.(verified := at.verified + 1, got := None))
      else Fail(w, id)
    case Launch(id, spawned) =>
      if spawned
      then Put(w, id, Launched(w.attempts[id].rel, w.attempts[id].body)).(helpers := w.helpers + {id})
      else Fail(w, id)
    case Arm(id) => Put(w, id, Armed(w.attempts[id].rel, w.attempts[id].body))
    case TimerFires(id) =>
      if w.busy then Put(w, id, TimedOut(w.attempts[id].rel, w.attempts[id].body)).(busy := false)
      else Put(w, id, Over(TimerFoundItFree))
    case Delete(id) =>
      var left := w.attempts[id].left;
      Put(w, id, if left == 1 then Over(GaveUp) else Cleaning(left - 1))
        .(staged := w.staged - {StagedPath(c, 2 - left)})
    case HelperTakes(id, n) =>
      var path := StagedPath(c, n);
      if path in w.staged
      then w.(staged := w.staged - {path}, live := w.live[n := Taken(id, w.staged[path], Owner(w, id))])
      else w
    case HelperEnds(id) => w.(helpers := w.helpers - {id})
  }

  // ---- Exclusive ownership of the flag ----

  predicate Owns(at: Stage) { !at.Cleaning? && !at.Over? && !at.TimedOut? }

  ghost predicate Owner(w: World, id: nat) { id in w.attempts && Owns(w.attempts[id]) }

  /** The flag is up exactly while one attempt holds it. */
  ghost predicate Exclusive(w: World) {
    && (w.busy <==> exists id :: Owner(w, id))
    && (forall i, j :: Owner(w, i) && Owner(w, j) ==> i == j)
  }

  /** File n of the attempt is gone, or is what the release's listing says. */
  ghost predicate GoneOrPublished(c: Setup, w: World, body: string, n: nat) {
    StagedPath(c, n) in w.staged ==> Published(c, body, n, c.digest(w.staged[StagedPath(c, n)]))
  }

  ghost predicate StageOk(c: Setup, w: World, at: Stage) {
    match at
    case Choosing => true
    case Begun(rel) => Version.IsNewer(rel.tag, c.version) && c.arch.Some?
    case Working(rel, body, verified, got) =>
      && Version.IsNewer(rel.tag, c.version) && HasAssets(c, rel) && Listed(body) && verified <= 2
      && (forall n: nat :: n < verified ==> GoneOrPublished(c, w, body, n))
      && (got.Some? ==> verified < 2)
      && (got.Some? && StagedPath(c, verified) in w.staged
          ==> c.digest(w.staged[StagedPath(c, verified)]) == got.value)
    case Launched(rel, body) => Ready(c, w, rel, body)
    case Armed(rel, body) => Ready(c, w, rel, body)
    case Cleaning(left) => 0 < left <= 2
    case TimedOut(rel, body) => Version.IsNewer(rel.tag, c.version) && HasAssets(c, rel) && Listed(body)
    case Over(end) => end != TimerFoundItFree
  }

  /** A newer release, and nothing staged but its published binaries. */
  ghost predicate Ready(c: Setup, w: World, rel: Release, body: string) {
    && Version.IsNewer(rel.tag, c.version) && HasAssets(c, rel) && Listed(body)
    && GoneOrPublished(c, w, body, 0) && GoneOrPublished(c, w, body, 1)
  }

  /** The attempt has launched its helper. */
  ghost predicate HasLaunched(w: World, id: nat) {
    id in w.attempts && (w.attempts[id].Launched? || w.attempts[id].Armed? || w.attempts[id].TimedOut?)
  }

  ghost predicate HelpersLaunched(w: World) { forall id :: id in w.helpers ==> HasLaunched(w, id) }

  ghost predicate Inv(c: Setup, w: World) {
    && Exclusive(w) && HelpersLaunched(w)
    && forall id :: id in w.attempts ==> StageOk(c, w, w.attempts[id])
  }

  /** Any staged files may be lying around when the process starts. */
  ghost predicate Init(w: World) { w == IDLE.(staged := w.staged) }

  lemma PathsDiffer(c: Setup)
    ensures StagedPath(c, 0) != StagedPath(c, 1)
  {
    assert |StagedPath(c, 0)| != |StagedPath(c, 1)|;
  }

  /** How one attempt's step moves the flag: keep it, take it, give it back, or stand by. */
  ghost predicate Keeps(w: World, w': World, id: nat) { Owner(w, id) && Owner(w', id) && w'.busy == w.busy }

  ghost predicate Acquires(w: World, w': World, id: nat) { !w.busy && !Owner(w, id) && Owner(w', id) && w'.busy }

  ghost predicate Releases(w: World, w': World, id: nat) { w.busy && Owner(w, id) && !Owner(w', id) && !w'.busy }

  ghost predicate StandsBy(w: World, w': World, id: nat) { !Owner(w, id) && !Owner(w', id) && w'.busy == w.busy }

  /** A step is one attempt's own: every other attempt's stage is left as it is. */
  ghost predicate OnlyBy(w: World, w': World, id: nat) {
    id in w'.attempts && w'.attempts == w.attempts[id := w'.attempts[id]]
  }

  /**
   Every step of every attempt moves the flag in one of the four ways. So each failure path
   gives back a flag that was up and its own, once; a timer always finds the flag up and
   frees only the hold of its own attempt; and nobody else's step can take the flag down.
   */
  lemma FlagDiscipline(c: Setup, w: World, step: Step)
    requires Inv(c, w) && Enabled(w, step) && !step.Restart?
    ensures var w' := Take(c, w, step);
            && OnlyBy(w, w', step.id)
            && (Keeps(w, w', step.id) || Acquires(w, w', step.id)
                || Releases(w, w', step.id) || StandsBy(w, w', step.id))
            && (Acquires(w, w', step.id) ==> step.Enter?)
            && (step.TimerFires? ==> Releases(w, w', step.id) && w'.attempts[step.id].TimedOut?)
  {
    if Owner(w, step.id) { OwnerIsBusy(w, step.id); }
    if step.HelperTakes? || step.HelperEnds? {
      HelpersMoveNoFlag(c, w, step);
    } else {
      StagesMoveFlag(c, w, step);
    }
  }

  lemma HelpersMoveNoFlag(c: Setup, w: World, step: Step)
    requires Enabled(w, step) && (step.HelperTakes? || step.HelperEnds?)
    requires Owner(w, step.id) ==> w.busy
    ensures var w' := Take(c, w, step);
            OnlyBy(w, w', step.id) && (Keeps(w, w', step.id) || StandsBy(w, w', step.id))
  {
    hide StagedPath;
    assert w.attempts[step.id := w.attempts[step.id]] == w.attempts;
  }

  lemma StagesMoveFlag(c: Setup, w: World, step: Step)
    requires Enabled(w, step) && !step.Restart? && !step.HelperTakes? && !step.HelperEnds?
    requires Owner(w, step.id) ==> w.busy
    ensures var w' := Take(c, w, step);
            && OnlyBy(w, w', step.id)
            && (Keeps(w, w', step.id) || Acquires(w, w', step.id)
                || Releases(w, w', step.id) || StandsBy(w, w', step.id))
            && (Acquires(w, w', step.id) ==> step.Enter?)
            && (step.TimerFires? ==> Releases(w, w', step.id) && w'.attempts[step.id].TimedOut?)
  {
    hide Listed, Version.IsNewer, HasAssets, Published, StagedPath;
  }

  lemma ExclusiveKept(w: World, w': World, id: nat)
    requires Exclusive(w) && OnlyBy(w, w', id)
    requires Keeps(w, w', id) || Acquires(w, w', id) || Releases(w, w', id) || StandsBy(w, w', id)
    ensures Exclusive(w')
  {
    assert forall k :: k != id ==> (Owner(w', k) <==> Owner(w, k));
    if w'.busy && !Owner(w', id) {
      var k :| Owner(w, k);
      assert Owner(w', k);
    }
  }

  // ---- Nothing but published bytes is ever staged for the helper ----

  ghost predicate OnlyRemoved(fs: Files, fs': Files) {
    forall p :: p in fs' ==> p in fs && fs'[p] == fs[p]
  }

  lemma RemovalKeepsStage(c: Setup, w: World, w': World, at: Stage)
    requires StageOk(c, w, at) && OnlyRemoved(w.staged, w'.staged)
    ensures StageOk(c, w', at)
  {
    hide Published;
    if at.Working? {
      forall n: nat | n < at.verified ensures GoneOrPublished(c, w', at.body, n) {
        assert GoneOrPublished(c, w, at.body, n);
      }
    }
  }

  lemma BystandersOnlyRemove(c: Setup, w: World, step: Step)
    requires Inv(c, w) && Enabled(w, step) && !step.Restart? && !Owner(w, step.id)
    ensures OnlyRemoved(w.staged, Take(c, w, step).staged)
  {
    if step.id in w.attempts { assert StageOk(c, w, w.attempts[step.id]); }
  }

  lemma NonOwnersNeedNoFiles(c: Setup, w: World, w': World, at: Stage)
    requires StageOk(c, w, at) && !Owns(at)
    ensures StageOk(c, w', at)
  {}

  lemma DownloadStageOk(c: Setup, w: World, step: Step, w': World)
    requires Inv(c, w) && Enabled(w, step) && step.Download?
    requires w' == Take(c, w, step) && OnlyBy(w, w', step.id)
    ensures StageOk(c, w', w'.attempts[step.id])
  {
    PathsDiffer(c);
    hide Published, Listed, Version.IsNewer, HasAssets, StagedPath, Exclusive;
    var at := w.attempts[step.id];
    assert StageOk(c, w, at);
    forall n: nat | n < at.verified ensures GoneOrPublished(c, w', at.body, n) {
      assert n == 0 && at.verified == 1;
      assert GoneOrPublished(c, w, at.body, n);
    }
  }

  lemma CheckStageOk(c: Setup, w: World, step: Step, w': World)
    requires Inv(c, w) && Enabled(w, step) && step.Check?
    requires w' == Take(c, w, step) && OnlyBy(w, w', step.id)
    ensures StageOk(c, w', w'.attempts[step.id])
  {
    hide Listed, Version.IsNewer, HasAssets, StagedPath, Exclusive, Published;
    var at := w.attempts[step.id];
    assert StageOk(c, w, at);
    if Published(c, at.body, at.verified, at.got.value) {
      assert w' == Put(w, step.id, at.(verified := at.verified + 1, got := None));
      hide Take, Enabled, Inv;
      forall n: nat | n < at.verified + 1 ensures GoneOrPublished(c, w', at.body, n) {
        assert n < at.verified ==> GoneOrPublished(c, w, at.body, n);
      }
    }
  }

  lemma OwnStageOk(c: Setup, w: World, step: Step, w': World)
    requires Inv(c, w) && Enabled(w, step) && !step.Restart?
    requires w' == Take(c, w, step) && OnlyBy(w, w', step.id)
    ensures StageOk(c, w', w'.attempts[step.id])
  {
    hide Inv, Take, Enabled, StageOk;
    if step.Download? {
      DownloadStageOk(c, w, step, w');
    } else if step.Check? {
      CheckStageOk(c, w, step, w');
    } else if step.HelperTakes? || step.HelperEnds? {
      HelperStageOk(c, w, step, w');
    } else if step.Launch? {
      LaunchStageOk(c, w, step, w');
    } else {
      OtherStageOk(c, w, step, w');
    }
  }

  lemma HelperStageOk(c: Setup, w: World, step: Step, w': World)
    requires Inv(c, w) && Enabled(w, step) && (step.HelperTakes? || step.HelperEnds?) && w' == Take(c, w, step)
    ensures StageOk(c, w', w'.attempts[step.id])
  {
    hide StageOk, StagedPath, Exclusive, HelpersLaunched;
    RemovalKeepsStage(c, w, w', w.attempts[step.id]);
  }

  lemma LaunchStageOk(c: Setup, w: World, step: Step, w': World)
    requires Inv(c, w) && Enabled(w, step) && step.Launch? && w' == Take(c, w, step)
    ensures StageOk(c, w', w'.attempts[step.id])
  {
    hide Listed, Version.IsNewer, StagedPath, Exclusive, HelpersLaunched, HasAssets, Published;
    var at := w.attempts[step.id];
    assert StageOk(c, w, at);
    assert GoneOrPublished(c, w, at.body, 0) && GoneOrPublished(c, w, at.body, 1);
  }

  lemma OtherStageOk(c: Setup, w: World, step: Step, w': World)
    requires Inv(c, w) && Enabled(w, step) && !step.Restart? && !step.Download? && !step.Check?
    requires !step.HelperTakes? && !step.HelperEnds? && !step.Launch? && w' == Take(c, w, step)
    ensures StageOk(c, w', w'.attempts[step.id])
  {
    hide Listed, Version.IsNewer, StagedPath, Exclusive, HelpersLaunched, HasAssets, Published;
    if step.id in w.attempts { assert StageOk(c, w, w.attempts[step.id]); }
    if step.TimerFires? { OwnerIsBusy(w, step.id); }
  }

  /** The invariant survives every step of every attempt, and a restart. */
  lemma InvKept(c: Setup, w: World, step: Step)
    requires Inv(c, w) && Enabled(w, step)
    ensures Inv(c, Take(c, w, step))
  {
    hide StageOk, Take, Exclusive, HelpersLaunched;
    var w' := Take(c, w, step);
    if step.Restart? {
      RestartInv(c, w, step.staged);
    } else {
      HelpersKept(c, w, step);
      FlagDiscipline(c, w, step);
      ExclusiveKept(w, w', step.id);
      forall k | k in w'.attempts ensures StageOk(c, w', w'.attempts[k]) {
        if k == step.id {
          OwnStageOk(c, w, step, w');
        } else if Owns(w'.attempts[k]) {
          OneOwner(w, step.id, k);
          BystandersOnlyRemove(c, w, step);
          RemovalKeepsStage(c, w, w', w'.attempts[k]);
        } else {
          NonOwnersNeedNoFiles(c, w, w', w'.attempts[k]);
        }
      }
    }
  }

  lemma HelpersKept(c: Setup, w: World, step: Step)
    requires HelpersLaunched(w) && Exclusive(w) && Enabled(w, step) && !step.Restart?
    ensures HelpersLaunched(Take(c, w, step))
  {
    hide Take, Enabled, HasLaunched, Exclusive;
    var w' := Take(c, w, step);
    forall id | id in w'.helpers ensures HasLaunched(w', id) { HelperKept(c, w, step, id); }
  }

  lemma HelperKept(c: Setup, w: World, step: Step, id: nat)
    requires Exclusive(w) && Enabled(w, step) && !step.Restart? && id in Take(c, w, step).helpers
    requires id in w.helpers ==> HasLaunched(w, id)
    ensures HasLaunched(Take(c, w, step), id)
  {
    hide Listed, Published, HasAssets, Version.IsNewer, StagedPath, Exclusive;
    if id in w.helpers { LaunchedStays(c, w, step, id); }
  }

  /** An attempt that has launched its helper keeps its release and listing until the process ends. */
  lemma LaunchedStays(c: Setup, w: World, step: Step, id: nat)
    requires Exclusive(w) && Enabled(w, step) && !step.Restart? && HasLaunched(w, id)
    ensures var w' := Take(c, w, step);
            && HasLaunched(w', id) && w'.attempts[id].rel == w.attempts[id].rel
            && w'.attempts[id].body == w.attempts[id].body
  {
    hide Listed, Published, HasAssets, Version.IsNewer, StagedPath, Exclusive;
    if step.TimerFires? { OwnerIsBusy(w, step.id); }
  }

  lemma OwnerIsBusy(w: World, id: nat)
    requires Exclusive(w) && Owner(w, id)
    ensures w.busy
  {}

  lemma RestartInv(c: Setup, w: World, staged: Files)
    ensures Inv(c, Take(c, w, Restart(staged)))
  {}

  lemma OneOwner(w: World, i: nat, k: nat)
    requires Exclusive(w) && Owner(w, k) && i != k
    ensures !Owner(w, i)
  {}

  // ---- Whole runs ----

  ghost predicate AllEnabled(c: Setup, w: World, steps: seq<Step>)
    decreases |steps|
  {
    steps == [] || (Enabled(w, steps[0]) && AllEnabled(c, Take(c, w, steps[0]), steps[1..]))
  }

  ghost function Play(c: Setup, w: World, steps: seq<Step>): World
    requires AllEnabled(c, w, steps)
    decreases |steps|
  {
    if steps == [] then w else Play(c, Take(c, w, steps[0]), steps[1..])
  }

  /** Along every interleaving of any number of attempts the flag has at most one owner, and so on. */
  lemma {:induction false} InvAlongRuns(c: Setup, w: World, steps: seq<Step>)
    requires Inv(c, w) && AllEnabled(c, w, steps)
    ensures Inv(c, Play(c, w, steps))
    decreases |steps|
  {
    hide Inv, Take, Enabled;
    if steps == [] {
    } else {
      InvKept(c, w, steps[0]);
      InvAlongRuns(c, Take(c, w, steps[0]), steps[1..]);
    }
  }

  lemma FromStart(c: Setup, w: World, steps: seq<Step>)
    requires Init(w) && AllEnabled(c, w, steps)
    ensures Inv(c, Play(c, w, steps))
  {
    assert Exclusive(w);
    InvAlongRuns(c, w, steps);
  }

  // ---- Who gets to begin ----

  /** An attempt begins exactly with an offered newer release, a supported machine and room. */
  lemma BeginsExactly(c: Setup, w: World, id: nat, latest: Option<Release>, room: bool)
    requires Enabled(w, Choose(id, latest, room))
    ensures var w' := Take(c, w, Choose(id, latest, room));
            if room && c.arch.Some? && latest.Some? && Version.IsNewer(latest.value.tag, c.version)
            then w'.attempts[id] == Begun(latest.value) && w'.busy == w.busy
            else w'.attempts[id].Over? && !w'.busy && w'.staged == w.staged
  {
    hide Version.IsNewer;
  }

  /** Nothing has been begun: no attempt got past asking, the flag is down and no file has moved. */
  ghost predicate Untouched(w: World, staged: Files) {
    && !w.busy && w.staged == staged && w.helpers == {} && w.live == map[]
    && forall id :: id in w.attempts ==> w.attempts[id].Over?
  }

  /** On a machine that is not the appliance, no run of calls ever takes the flag or touches a file. */
  lemma {:induction false} OnlyOnAppliance(c: Setup, w: World, steps: seq<Step>)
    requires !c.appliance && Untouched(w, w.staged) && AllEnabled(c, w, steps)
    requires forall i :: 0 <= i < |steps| ==> !steps[i].Restart?
    ensures Untouched(Play(c, w, steps), w.staged)
    decreases |steps|
  {
    if steps == [] {
    } else {
      hide StagedPath, Published, HasAssets, Listed, Version.IsNewer;
      assert steps[0].Enter?;
      OnlyOnAppliance(c, Take(c, w, steps[0]), steps[1..]);
    }
  }

  // ---- What the helpers move ----

  /** A file that a helper moved while its attempt held the flag is published for that attempt. */
  ghost predicate TakenOk(c: Setup, w: World, n: nat)
    requires n in w.live
  {
    var t := w.live[n];
    HasLaunched(w, t.id) && (t.held ==> Published(c, w.attempts[t.id].body, n, c.digest(t.content)))
  }

  ghost predicate LiveOk(c: Setup, w: World) { forall n :: n in w.live ==> TakenOk(c, w, n) }

  /** Whatever a helper takes while its attempt holds the flag is published, or not there at all. */
  lemma HolderTakesPublished(c: Setup, w: World, id: nat, n: nat)
    requires Inv(c, w) && Enabled(w, HelperTakes(id, n)) && Owner(w, id)
    ensures HasLaunched(w, id) && GoneOrPublished(c, w, w.attempts[id].body, n)
  {
    hide Published, Version.IsNewer, HasAssets, Listed, StagedPath, Exclusive;
    assert HasLaunched(w, id);
    assert StageOk(c, w, w.attempts[id]);
  }

  lemma LiveKept(c: Setup, w: World, step: Step)
    requires Inv(c, w) && LiveOk(c, w) && Enabled(w, step)
    ensures LiveOk(c, Take(c, w, step))
  {
    hide StageOk, Exclusive, HelpersLaunched, Listed, Published, HasAssets, Version.IsNewer, StagedPath;
    var w' := Take(c, w, step);
    if step.HelperTakes? && w' != w {
      if Owner(w, step.id) { HolderTakesPublished(c, w, step.id, step.n); }
      assert HasLaunched(w, step.id) by { HelperHasLaunched(w, step.id); }
      forall n | n in w'.live ensures TakenOk(c, w', n) { assert n != step.n ==> TakenOk(c, w, n); }
    } else if !step.Restart? {
      assert w'.live == w.live;
      hide Take, Enabled, HasLaunched;
      forall n | n in w.live ensures TakenOk(c, w', n) {
        assert TakenOk(c, w, n);
        LaunchedStays(c, w, step, w.live[n].id);
      }
    }
  }

  lemma HelperHasLaunched(w: World, id: nat)
    requires HelpersLaunched(w) && id in w.helpers
    ensures HasLaunched(w, id)
  {}

  lemma {:induction false} LiveAlongRuns(c: Setup, w: World, steps: seq<Step>)
    requires Inv(c, w) && LiveOk(c, w) && AllEnabled(c, w, steps)
    ensures Inv(c, Play(c, w, steps)) && LiveOk(c, Play(c, w, steps))
    decreases |steps|
  {
    hide Inv, LiveOk, Take, Enabled;
    if steps == [] {
    } else {
      InvKept(c, w, steps[0]);
      LiveKept(c, w, steps[0]);
      LiveAlongRuns(c, Take(c, w, steps[0]), steps[1..]);
    }
  }

  /**
   So an installation needs no moment at which everything stands still: in every reachable
   world, whatever the other attempts did between the helper's renames, each file it moved
   while its attempt held the flag has the digest listed for that attempt's release, which is
   newer; a live path that holds what was moved there holds published bytes.
   */
  lemma TakenIsVerified(c: Setup, w: World, steps: seq<Step>, n: nat, fs: Files)
    requires Init(w) && AllEnabled(c, w, steps) && n in Play(c, w, steps).live
    requires Play(c, w, steps).live[n].held
    requires Holds(fs, Join(c.binDir, BaseName(n)), Play(c, w, steps).live[n].content)
    ensures var w' := Play(c, w, steps);
            var t := w'.live[n];
            && HasLaunched(w', t.id) && Version.IsNewer(w'.attempts[t.id].rel.tag, c.version)
            && LiveIsPublished(c, fs, w'.attempts[t.id].body, n)
  {
    hide AllEnabled, Play, Published, Join, BaseName, Version.IsNewer, HasAssets, Listed;
    assert Exclusive(w);
    LiveAlongRuns(c, w, steps);
    var w' := Play(c, w, steps);
    assert TakenOk(c, w', n);
    assert StageOk(c, w', w'.attempts[w'.live[n].id]);
  }

  // ---- Releases whose listing was generated ----

  /** Of a generated listing the updater accepts a file exactly if its digest was listed under its asset's name. */
  lemma GeneratedPublishesExactly(c: Setup, es: seq<Checksums.Entry>, n: nat, got: string)
    requires c.arch.Some? && es != [] && Checksums.PlainListing(es)
    requires |Checksums.Listing(es)| <= Checksums.MAX_BODY
    ensures Published(c, Checksums.Listing(es), n, got) <==> Checksums.Entry(AssetName(c, n), got) in es
  {
    hide Checksums.Read, Checksums.Listing, Checksums.Plain, AssetName;
    Checksums.ReadGenerated(es);
    var m, name := Checksums.Read(Checksums.Listing(es)).value, AssetName(c, n);
    if name in m {
      var i :| 0 <= i < |es| && es[i].name == name;
      assert es[i] == Checksums.Entry(name, m[name]);
    }
    if Checksums.Entry(name, got) in es {
      var i :| 0 <= i < |es| && es[i] == Checksums.Entry(name, got);
      assert m[es[i].name] == got;
    }
  }

  /** A build 1.0.0 offered a release 1.0.1, on the paths and names the program ships with. */
  lemma ShippedRelease() returns (c: Setup, rel: Release, body: string)
    ensures c.appliance && Version.IsNewer(rel.tag, c.version) && HasAssets(c, rel)
    ensures Published(c, body, 0, c.digest([])) && Published(c, body, 1, c.digest([]))
    ensures !Published(c, body, 1, c.digest([0]))
  {
    hide Checksums.Read, Checksums.Listing, Version.Parse, Checksums.PlainListing, Version.Print;
    var older, newer := Version.Core(1, 0, 0), Version.Core(1, 0, 1);
    Version.NewerByNumbers(newer, older, "", "");
    c := Setup(true, Version.Print(older) + "", Some("linux-amd64"), "/usr/local/bin", "/var/lib/wlcsim/update",
               x => if x == [] then "e3b0" else "6e34");
    rel := Release(Version.Print(newer) + "",
                   [Asset(AssetName(c, 0), ""), Asset(AssetName(c, 1), ""), Asset("checksums.txt", "")]);
    var es := ShippedListing(c);
    GeneratedPublishesExactly(c, es, 0, "e3b0");
    GeneratedPublishesExactly(c, es, 1, "e3b0");
    GeneratedPublishesExactly(c, es, 1, "6e34");
    assert "e3b0"[0] != "6e34"[0];
    body := Checksums.Listing(es);
  }

  lemma ShippedListing(c: Setup) returns (es: seq<Checksums.Entry>)
    requires c.arch == Some("linux-amd64")
    ensures es == [Checksums.Entry(AssetName(c, 0), "e3b0"), Checksums.Entry(AssetName(c, 1), "e3b0")]
    ensures Checksums.PlainListing(es) && |Checksums.Listing(es)| <= Checksums.MAX_BODY
  {
    hide Checksums.Plain, AssetName;
    es := [Checksums.Entry(AssetName(c, 0), "e3b0"), Checksums.Entry(AssetName(c, 1), "e3b0")];
    ShippedNames(c);
    Checksums.PlainIfLowercase(es[0]);
    Checksums.PlainIfLowercase(es[1]);
    assert Checksums.Listing(es[1..][1..]) == "";
  }

  lemma ShippedNames(c: Setup)
    requires c.arch == Some("linux-amd64")
    ensures |AssetName(c, 0)| == 18 && |AssetName(c, 1)| == 26
    ensures Checksums.Lowercase(AssetName(c, 0)) && Checksums.Lowercase(AssetName(c, 1))
    ensures Checksums.Lowercase("e3b0")
  {
    assert Checksums.Lowercase("wlcsim-") && Checksums.Lowercase("wlcsim-console-");
    assert Checksums.Lowercase("linux-amd64");
  }

  // ---- The two halves together ----

  /** The part of a path after its last slash. */
  function Base(p: string): string {
    if p == "" || p[|p| - 1] == '/' then "" else Base(p[..|p| - 1]) + [p[|p| - 1]]
  }

  lemma {:induction false} BaseOfJoin(d: string, n: string)
    requires forall i :: 0 <= i < |n| ==> n[i] != '/'
    ensures Base(Join(d, n)) == n
    decreases |n|
  {
    var p := Join(d, n);
    if n == "" {
    } else {
      assert p[|p| - 1] == n[|n| - 1];
      assert p[..|p| - 1] == Join(d, n[..|n| - 1]);
      BaseOfJoin(d, n[..|n| - 1]);
    }
  }

  lemma NamesDiffer()
    ensures |BaseName(0)| == 6 && |BaseName(1)| == 14
    ensures forall n :: BaseName(n) + ".new" != BaseName(n) + ".bak"
  {
    forall n ensures BaseName(n) + ".new" != BaseName(n) + ".bak" {
      var k := |BaseName(n)| + 1;
      assert (BaseName(n) + ".new")[k] == 'n' && (BaseName(n) + ".bak")[k] == 'b';
    }
  }

  lemma SwapNames(c: Setup, n: nat)
    requires n < 2
    ensures var b := Binaries(c)[n];
            && Base(b.staged) == BaseName(n) + ".new" && Base(b.live) == BaseName(n)
            && Base(b.bak) == BaseName(n) + ".bak"
  {
    hide Join, Base;
    BaseOfJoin(c.workDir, BaseName(n) + ".new");
    BaseOfJoin(c.binDir, BaseName(n));
    BaseOfJoin(c.binDir, BaseName(n) + ".bak");
  }

  /** The six paths of an update are distinct, whatever the two directories. */
  lemma BinariesDistinct(c: Setup)
    ensures |Binaries(c)| == 2 && Cutover.Distinct(Binaries(c))
  {
    hide Base, BaseName, Join, StagedPath;
    SwapNames(c, 0);
    SwapNames(c, 1);
    NamesDiffer();
    var a, b := Binaries(c)[0], Binaries(c)[1];
    assert Cutover.OwnPathsDiffer(a) && Cutover.OwnPathsDiffer(b);
    forall p | p in Cutover.Paths(a) ensures p !in Cutover.Paths(b) {
      assert |Base(p)| <= 10;
    }
  }

  /**
   From an attempt that launched the helper and still holds the flag, whatever the file
   system looks like apart from the two staged paths, and whatever renames fail or polls
   answer: a "done" leaves at the live paths only bytes with the digests listed for that
   same release, which is newer than the version that launched it.
   */
  lemma DoneIsVerified(c: Setup, w: World, id: nat, j: Cutover.Journal, faults: Cutover.Faults, a: Cutover.Answers)
    requires Inv(c, w) && id in w.attempts && (w.attempts[id].Launched? || w.attempts[id].Armed?)
    requires Same(w.staged, j.fs, StagedPath(c, 0)) && Same(w.staged, j.fs, StagedPath(c, 1))
    requires Cutover.Run(j, faults, Binaries(c), a).phase == Cutover.Done
    ensures Version.IsNewer(w.attempts[id].rel.tag, c.version)
    ensures forall n: nat :: n < 2 ==>
              LiveIsPublished(c, Cutover.Run(j, faults, Binaries(c), a).j.fs, w.attempts[id].body, n)
  {
    hide Cutover.Run, Inv, Binaries, StagedPath, LiveIsPublished, GoneOrPublished, Version.IsNewer, HasAssets, Listed;
    ReadyOnceLaunched(c, w, id);
    LiveAfterDone(c, w, w.attempts[id].body, j, faults, a, 0);
    LiveAfterDone(c, w, w.attempts[id].body, j, faults, a, 1);
  }

  lemma LiveAfterDone(c: Setup, w: World, body: string, j: Cutover.Journal, faults: Cutover.Faults,
                      a: Cutover.Answers, n: nat)
    requires n < 2 && GoneOrPublished(c, w, body, n) && Same(w.staged, j.fs, StagedPath(c, n))
    requires Cutover.Run(j, faults, Binaries(c), a).phase == Cutover.Done
    ensures LiveIsPublished(c, Cutover.Run(j, faults, Binaries(c), a).j.fs, body, n)
  {
    hide Cutover.Run, Cutover.Swapped, Cutover.Distinct, Binaries, StagedPath, LiveIsPublished, GoneOrPublished;
    BinariesDistinct(c);
    Cutover.DoneInstallsEverything(j, faults, Binaries(c), a);
    assert Binaries(c)[n] in Binaries(c);
    InstalledIsPublished(c, w, body, j.fs, Cutover.Run(j, faults, Binaries(c), a).j.fs, n);
  }

  /** The file at live path n has the digest the listing gives it. */
  ghost predicate LiveIsPublished(c: Setup, fs: Files, body: string, n: nat) {
    var live := Join(c.binDir, BaseName(n));
    live in fs && Published(c, body, n, c.digest(fs[live]))
  }

  lemma ReadyOnceLaunched(c: Setup, w: World, id: nat)
    requires Inv(c, w) && id in w.attempts && (w.attempts[id].Launched? || w.attempts[id].Armed?)
    ensures Ready(c, w, w.attempts[id].rel, w.attempts[id].body)
  {
    hide Ready, Exclusive;
    assert StageOk(c, w, w.attempts[id]);
  }

  lemma InstalledIsPublished(c: Setup, w: World, body: string, before: Files, after: Files, n: nat)
    requires n < 2 && GoneOrPublished(c, w, body, n) && Same(w.staged, before, StagedPath(c, n))
    requires Cutover.Swapped(before, after, Binaries(c)[n])
    ensures LiveIsPublished(c, after, body, n)
  {
    hide Published, Join, BaseName;
  }
}
