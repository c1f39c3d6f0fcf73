/**
 What the order of the updater's last actions costs: a failed run releases the flag before
 it deletes its staged files, and the timer releases it while the helper may still be
 running. When another attempt's files are safe, when they are not, and what a helper that
 outlives its timer can install.
 */
module Races {
  import opened Wrappers
  import opened Files
  import Version
  import Checksums
  import Cutover
  import opened Handoff

  // ---- Late deletions ----

  ghost predicate Cleaner(w: World, id: nat) { id in w.attempts && w.attempts[id].Cleaning? }

  ghost predicate NoCleaner(w: World) { forall k :: !Cleaner(w, k) }

  /** A running helper of a timed-out attempt, say one held up in stopping the service. */
  ghost predicate Stray(w: World, id: nat) { id in w.helpers && id in w.attempts && w.attempts[id].TimedOut? }

  ghost predicate NoStray(w: World) { forall k :: !Stray(w, k) }

  ghost predicate NoneBy(steps: seq<Step>, id: nat) {
    forall i :: 0 <= i < |steps| ==> !steps[i].Restart? && steps[i].id != id
  }

  ghost predicate BothStaged(c: Setup, w: World) {
    StagedPath(c, 0) in w.staged && StagedPath(c, 1) in w.staged
  }

  /** Whatever the other attempts do meanwhile, both files stay. */
  ghost predicate StaysStaged(c: Setup, w: World, id: nat) {
    forall steps :: KeepsStaged(c, w, id, steps)
  }

  ghost predicate KeepsStaged(c: Setup, w: World, id: nat, steps: seq<Step>) {
    AllEnabled(c, w, steps) && NoneBy(steps, id) ==> BothStaged(c, Play(c, w, steps))
  }

  lemma BystanderStep(c: Setup, w: World, step: Step, id: nat)
    requires Inv(c, w) && Enabled(w, step) && !step.Restart? && step.id != id && Owner(w, id)
    requires NoCleaner(w) && (NoStray(w) || !step.HelperTakes?)
    ensures var w' := Take(c, w, step);
            w'.staged == w.staged && Owner(w', id) && NoCleaner(w') && (NoStray(w) ==> NoStray(w'))
  {
    hide Checksums.Read, Version.IsNewer, HasAssets, Published, FindAsset;
    OneOwner(w, step.id, id);
    assert w.busy && !Cleaner(w, step.id) && (NoStray(w) ==> !Stray(w, step.id));
    assert step.HelperTakes? ==> HasLaunched(w, step.id);
    assert step.Enter? || step.HelperEnds?;
    var w' := Take(c, w, step);
    forall k ensures !Cleaner(w', k) && (Stray(w', k) ==> Stray(w, k)) { assert !Cleaner(w, k); }
  }

  lemma {:induction false} NoCleanerNoLoss(c: Setup, w: World, steps: seq<Step>, id: nat)
    requires Inv(c, w) && Owner(w, id) && NoCleaner(w) && NoStray(w)
    requires AllEnabled(c, w, steps) && NoneBy(steps, id)
    ensures Play(c, w, steps).staged == w.staged
    decreases |steps|
  {
    hide Inv, Take, Enabled, NoCleaner, NoStray, Owner;
    if steps == [] {
    } else {
      BystanderStep(c, w, steps[0], id);
      InvKept(c, w, steps[0]);
      NoCleanerNoLoss(c, Take(c, w, steps[0]), steps[1..], id);
    }
  }

  /**
   The flag excludes other attempts, but a failed run releases it before deleting its staged
   files, and the timer releases it while the helper may only be held up. So a verified
   attempt is sure to keep its files exactly if no earlier run is still deleting and no
   timed-out attempt's helper is still running.
   */
  lemma StaysStagedExactly(c: Setup, w: World, id: nat)
    requires Inv(c, w) && Owner(w, id) && BothStaged(c, w)
    ensures StaysStaged(c, w, id) <==> NoCleaner(w) && NoStray(w)
  {
    if !NoCleaner(w) {
      var k :| Cleaner(w, k);
      LateDeletion(c, w, id, k);
    } else if !NoStray(w) {
      var k :| Stray(w, k);
      StrayTakes(c, w, id, k);
    } else {
      forall steps ensures KeepsStaged(c, w, id, steps) {
        if AllEnabled(c, w, steps) && NoneBy(steps, id) { NoCleanerNoLoss(c, w, steps, id); }
      }
    }
  }

  lemma DeletesOne(c: Setup, w: World, k: nat)
    requires Inv(c, w) && Cleaner(w, k)
    ensures Enabled(w, Delete(k)) && !BothStaged(c, Take(c, w, Delete(k)))
  {
    hide Version.IsNewer, HasAssets, Published, StagedPath, Exclusive;
    assert StageOk(c, w, w.attempts[k]);
  }

  lemma LateDeletion(c: Setup, w: World, id: nat, k: nat)
    requires Inv(c, w) && Owner(w, id) && BothStaged(c, w) && Cleaner(w, k)
    ensures !StaysStaged(c, w, id)
  {
    DeletesOne(c, w, k);
    hide Take, Enabled, StageOk, BothStaged, AllEnabled, Play;
    var w1 := Take(c, w, Delete(k));
    Nothing(c, w1);
    var steps := Prepend(c, w, Delete(k), w1, [], w1);
    assert NoneBy(steps, id);
    assert !KeepsStaged(c, w, id, steps);
  }

  /** A helper that outlived its timer takes a staged file away from the current owner. */
  lemma StrayTakes(c: Setup, w: World, id: nat, k: nat)
    requires Inv(c, w) && Owner(w, id) && BothStaged(c, w) && Stray(w, k)
    ensures !StaysStaged(c, w, id)
  {
    var w1 := Take(c, w, HelperTakes(k, 0));
    assert !BothStaged(c, w1);
    hide Take, Inv, BothStaged, AllEnabled, Play;
    Nothing(c, w1);
    var steps := Prepend(c, w, HelperTakes(k, 0), w1, [], w1);
    assert NoneBy(steps, id);
    assert !KeepsStaged(c, w, id, steps);
  }

  /** The four actions of an attempt that goes well up to its listing, and one that does not. */
  lemma GoodSteps(c: Setup, w: World, id: nat, rel: Release, body: string)
    requires c.appliance && Version.IsNewer(rel.tag, c.version) && c.arch.Some?
    ensures !w.busy && id !in w.attempts ==>
              Enabled(w, Enter(id)) && Take(c, w, Enter(id)) == Put(w, id, Choosing).(busy := true)
    ensures id in w.attempts && w.attempts[id] == Choosing ==>
              && Enabled(w, Choose(id, Some(rel), true))
              && Take(c, w, Choose(id, Some(rel), true)) == Put(w, id, Begun(rel))
    ensures id in w.attempts && w.attempts[id] == Begun(rel) ==>
              && Enabled(w, FetchSums(id, None)) && Take(c, w, FetchSums(id, None)) == Fail(w, id)
              && Enabled(w, FetchSums(id, Some(body)))
              && (HasAssets(c, rel) && Listed(body) ==>
                   Take(c, w, FetchSums(id, Some(body))) == Put(w, id, Working(rel, body, 0, None)))
  {
    hide HasAssets, Version.IsNewer, Listed;
  }

  lemma Overwrite(w: World, id: nat, first: Stage, second: Stage)
    ensures Put(Put(w, id, first), id, second) == Put(w, id, second)
  {
    assert w.attempts[id := first][id := second] == w.attempts[id := second];
  }

  /** An attempt whose listing fails leaves the flag free and its deletions pending. */
  lemma FailedAttempt(c: Setup, w: World, id: nat, rel: Release) returns (steps: seq<Step>)
    requires c.appliance && Version.IsNewer(rel.tag, c.version) && c.arch.Some?
    requires !w.busy && id !in w.attempts
    ensures AllEnabled(c, w, steps)
    ensures Play(c, w, steps) == Put(w, id, Cleaning(2))
  {
    hide AllEnabled, Play, Take, Enabled, Version.IsNewer;
    var w1 := Put(w, id, Choosing).(busy := true);
    var w2 := Put(w1, id, Begun(rel));
    var w3 := Fail(w2, id);
    GoodSteps(c, w, id, rel, "");
    GoodSteps(c, w1, id, rel, "");
    GoodSteps(c, w2, id, rel, "");
    Nothing(c, w3);
    steps := Prepend(c, w2, FetchSums(id, None), w3, [], w3);
    steps := Prepend(c, w1, Choose(id, Some(rel), true), w2, steps, w3);
    steps := Prepend(c, w, Enter(id), w1, steps, w3);
    Overwrite(w, id, Choosing, Begun(rel));
    Overwrite(w, id, Begun(rel), Cleaning(2));
  }

  /** With the flag free, a new attempt can get as far as the release's listing. */
  lemma StartedAttempt(c: Setup, w: World, id: nat, rel: Release, body: string) returns (steps: seq<Step>)
    requires c.appliance && Version.IsNewer(rel.tag, c.version) && c.arch.Some?
    requires !w.busy && id !in w.attempts && HasAssets(c, rel) && Listed(body)
    ensures AllEnabled(c, w, steps)
    ensures Play(c, w, steps) == Put(w, id, Working(rel, body, 0, None)).(busy := true)
    ensures forall i :: 0 <= i < |steps| ==> !steps[i].Restart? && !steps[i].TimerFires?
  {
    hide AllEnabled, Play, Take, Enabled, HasAssets, Version.IsNewer, Listed;
    var w1 := Put(w, id, Choosing).(busy := true);
    var w2 := Put(w1, id, Begun(rel));
    var w3 := Put(w2, id, Working(rel, body, 0, None));
    GoodSteps(c, w, id, rel, body);
    GoodSteps(c, w1, id, rel, body);
    GoodSteps(c, w2, id, rel, body);
    Nothing(c, w3);
    steps := Prepend(c, w2, FetchSums(id, Some(body)), w3, [], w3);
    steps := Prepend(c, w1, Choose(id, Some(rel), true), w2, steps, w3);
    steps := Prepend(c, w, Enter(id), w1, steps, w3);
    Overwrite(w, id, Choosing, Begun(rel));
    Overwrite(w, id, Begun(rel), Working(rel, body, 0, None));
  }

  /** One more file downloaded and verified. */
  lemma FetchedFile(c: Setup, w: World, id: nat, x: Bytes) returns (steps: seq<Step>)
    requires id in w.attempts && w.attempts[id].Working? && w.attempts[id].got.None?
    requires w.attempts[id].verified < 2
    requires Published(c, w.attempts[id].body, w.attempts[id].verified, c.digest(x))
    ensures AllEnabled(c, w, steps)
    ensures var at := w.attempts[id];
            Play(c, w, steps) == Put(w, id, at.(verified := at.verified + 1))
                                   .(staged := w.staged[StagedPath(c, at.verified) := x])
  {
    hide AllEnabled, Play, Published, StagedPath;
    var w1 := Take(c, w, Download(id, x, Complete));
    var w2 := Take(c, w1, Check(id));
    Nothing(c, w2);
    steps := Prepend(c, w1, Check(id), w2, [], w2);
    steps := Prepend(c, w, Download(id, x, Complete), w1, steps, w2);
  }

  /** From any world with the flag free, a new attempt can get both its files verified. */
  lemma VerifiedAttempt(c: Setup, w: World, id: nat, rel: Release, body: string, x0: Bytes, x1: Bytes)
    returns (steps: seq<Step>)
    requires c.appliance && Version.IsNewer(rel.tag, c.version) && HasAssets(c, rel)
    requires !w.busy && id !in w.attempts
    requires Published(c, body, 0, c.digest(x0)) && Published(c, body, 1, c.digest(x1))
    ensures AllEnabled(c, w, steps)
    ensures Play(c, w, steps) == w.(busy := true, attempts := w.attempts[id := Working(rel, body, 2, None)],
                                    staged := w.staged[StagedPath(c, 0) := x0][StagedPath(c, 1) := x1])
  {
    assert Listed(body) && c.arch.Some? by { ListedIfPublished(c, body, 0, c.digest(x0)); }
    hide AllEnabled, Play, Take, Enabled, HasAssets, Published, Version.IsNewer, StagedPath, Listed;
    var first := StartedAttempt(c, w, id, rel, body);
    var w1 := Play(c, w, first);
    var second := FetchedFile(c, w1, id, x0);
    var w2 := Play(c, w1, second);
    var third := FetchedFile(c, w2, id, x1);
    Concatenate(c, w1, second, third);
    Concatenate(c, w, first, second + third);
    steps := first + (second + third);
    Overwrite(w, id, Working(rel, body, 0, None), Working(rel, body, 1, None));
    Overwrite(w, id, Working(rel, body, 1, None), Working(rel, body, 2, None));
  }

  lemma {:induction false} Concatenate(c: Setup, w: World, first: seq<Step>, second: seq<Step>)
    requires AllEnabled(c, w, first) && AllEnabled(c, Play(c, w, first), second)
    ensures AllEnabled(c, w, first + second)
    ensures Play(c, w, first + second) == Play(c, Play(c, w, first), second)
    decreases |first|
  {
    hide Take, Enabled;
    if first == [] {
      assert first + second == second;
    } else {
      assert (first + second)[1..] == first[1..] + second;
      Concatenate(c, Take(c, w, first[0]), first[1..], second);
    }
  }

  lemma OneCleaning()
    ensures var w := Put(IDLE, 0, Cleaning(2));
            !w.busy && 1 !in w.attempts && w.staged == map[]
  {}

  /** One attempt fails, its deletions pending, and another gets both its files verified. */
  lemma FailedThenVerified(c: Setup, rel: Release, body: string, x0: Bytes, x1: Bytes)
    returns (steps: seq<Step>)
    requires c.appliance && Version.IsNewer(rel.tag, c.version) && HasAssets(c, rel)
    requires Published(c, body, 0, c.digest(x0)) && Published(c, body, 1, c.digest(x1))
    ensures AllEnabled(c, IDLE, steps)
    ensures var w1 := Put(IDLE, 0, Cleaning(2));
            Play(c, IDLE, steps)
            == w1.(busy := true, attempts := w1.attempts[1 := Working(rel, body, 2, None)],
                   staged := map[StagedPath(c, 0) := x0][StagedPath(c, 1) := x1])
  {
    hide AllEnabled, Play, HasAssets, Published, Version.IsNewer, StagedPath, Take, Enabled, Put;
    ListedIfPublished(c, body, 0, c.digest(x0));
    OneCleaning();
    var first := FailedAttempt(c, IDLE, 0, rel);
    var second := VerifiedAttempt(c, Put(IDLE, 0, Cleaning(2)), 1, rel, body, x0, x1);
    Concatenate(c, IDLE, first, second);
    steps := first + second;
  }

  /** Such a race does arise: an early failure's deletions can still be pending when a later attempt has verified. */
  lemma LateDeletionHappens(c: Setup, rel: Release, body: string, x0: Bytes, x1: Bytes)
    returns (steps: seq<Step>)
    requires c.appliance && Version.IsNewer(rel.tag, c.version) && HasAssets(c, rel)
    requires Published(c, body, 0, c.digest(x0)) && Published(c, body, 1, c.digest(x1))
    ensures AllEnabled(c, IDLE, steps)
    ensures var w := Play(c, IDLE, steps);
            Inv(c, w) && Owner(w, 1) && BothStaged(c, w) && !StaysStaged(c, w, 1)
  {
    hide AllEnabled, Play, HasAssets, Published, Version.IsNewer, StagedPath, StaysStaged, Inv;
    steps := FailedThenVerified(c, rel, body, x0, x1);
    FromStart(c, IDLE, steps);
    var w := Play(c, IDLE, steps);
    assert Owner(w, 1) && Cleaner(w, 0) && BothStaged(c, w);
    LateDeletion(c, w, 1, 0);
  }

  lemma ListedIfPublished(c: Setup, body: string, n: nat, got: string)
    requires Published(c, body, n, got)
    ensures Listed(body) && c.arch.Some?
  {}

  lemma Nothing(c: Setup, w: World)
    ensures AllEnabled(c, w, []) && Play(c, w, []) == w
  {}

  lemma Prepend(c: Setup, w: World, step: Step, w1: World, rest: seq<Step>, target: World) returns (steps: seq<Step>)
    requires Enabled(w, step) && Take(c, w, step) == w1
    requires AllEnabled(c, w1, rest) && Play(c, w1, rest) == target
    ensures steps == [step] + rest && AllEnabled(c, w, steps) && Play(c, w, steps) == target
  {
    steps := [step] + rest;
    assert steps[1..] == rest;
  }

  /** An attempt whose helper never gets to stop the process: the timer gives the flag back. */
  lemma TimedOutAttempt(c: Setup, w: World, id: nat, rel: Release, body: string, x0: Bytes, x1: Bytes)
    returns (steps: seq<Step>)
    requires c.appliance && Version.IsNewer(rel.tag, c.version) && HasAssets(c, rel)
    requires !w.busy && id !in w.attempts
    requires Published(c, body, 0, c.digest(x0)) && Published(c, body, 1, c.digest(x1))
    ensures AllEnabled(c, w, steps)
    ensures Play(c, w, steps) == w.(attempts := w.attempts[id := TimedOut(rel, body)],
                                    staged := w.staged[StagedPath(c, 0) := x0][StagedPath(c, 1) := x1],
                                    helpers := w.helpers + {id})
  {
    hide AllEnabled, Play, HasAssets, Published, Version.IsNewer, StagedPath;
    var first := VerifiedAttempt(c, w, id, rel, body, x0, x1);
    var w1 := Play(c, w, first);
    var w2 := Put(w1, id, Launched(rel, body)).(helpers := w.helpers + {id});
    var w3 := Put(w2, id, Armed(rel, body));
    var w4 := Put(w3, id, TimedOut(rel, body)).(busy := false);
    Nothing(c, w4);
    steps := Prepend(c, w3, TimerFires(id), w4, [], w4);
    steps := Prepend(c, w2, Arm(id), w3, steps, w4);
    steps := Prepend(c, w1, Launch(id, true), w2, steps, w4);
    Concatenate(c, w, first, steps);
    steps := first + steps;
    Overwrite(w, id, Working(rel, body, 2, None), Launched(rel, body));
    Overwrite(w, id, Launched(rel, body), Armed(rel, body));
    Overwrite(w, id, Armed(rel, body), TimedOut(rel, body));
  }

  /** And so does this race: a timed-out attempt's helper can still take a later attempt's verified files. */
  lemma StrayHappens(c: Setup, rel: Release, body: string, x0: Bytes, x1: Bytes)
    returns (steps: seq<Step>)
    requires c.appliance && Version.IsNewer(rel.tag, c.version) && HasAssets(c, rel)
    requires Published(c, body, 0, c.digest(x0)) && Published(c, body, 1, c.digest(x1))
    ensures AllEnabled(c, IDLE, steps)
    ensures var w := Play(c, IDLE, steps);
            Inv(c, w) && Owner(w, 1) && BothStaged(c, w) && NoCleaner(w) && !StaysStaged(c, w, 1)
  {
    hide AllEnabled, Play, HasAssets, Published, Version.IsNewer, StagedPath, StaysStaged, Inv;
    var w0 := IDLE;
    var first := TimedOutAttempt(c, w0, 0, rel, body, x0, x1);
    var w1 := Play(c, w0, first);
    var second := VerifiedAttempt(c, w1, 1, rel, body, x0, x1);
    Concatenate(c, w0, first, second);
    steps := first + second;
    FromStart(c, w0, steps);
    var w := Play(c, w0, steps);
    assert Owner(w, 1) && Stray(w, 0) && BothStaged(c, w) && forall k :: !Cleaner(w, k);
    StrayTakes(c, w, 1, 0);
  }

  // ---- What a running helper may still install ----

  /** The attempt's timer does not fire and the process is not replaced. */
  ghost predicate NoTimerOf(steps: seq<Step>, id: nat) {
    forall i :: 0 <= i < |steps| ==> !steps[i].Restart? && !(steps[i].TimerFires? && steps[i].id == id)
  }

  /** After these steps a helper of the attempt finds nothing but its own release's published files. */
  ghost predicate TakesSafely(c: Setup, w: World, id: nat, steps: seq<Step>)
    requires HasLaunched(w, id)
  {
    AllEnabled(c, w, steps) && NoTimerOf(steps, id) ==>
      forall n: nat :: n < 2 ==> GoneOrPublished(c, Play(c, w, steps), w.attempts[id].body, n)
  }

  /** And so it is however the other attempts go on. */
  ghost predicate SafeHelper(c: Setup, w: World, id: nat)
    requires HasLaunched(w, id)
  {
    forall steps :: TakesSafely(c, w, id, steps)
  }

  lemma HolderStays(c: Setup, w: World, step: Step, id: nat)
    requires Inv(c, w) && Enabled(w, step) && NoTimerOf([step], id)
    requires HasLaunched(w, id) && Owner(w, id)
    ensures var w' := Take(c, w, step);
            HasLaunched(w', id) && Owner(w', id) && w'.attempts[id].body == w.attempts[id].body
  {
    hide StageOk, Exclusive, HelpersLaunched, Listed, Published, HasAssets, Version.IsNewer, StagedPath;
    assert [step][0] == step;
    LaunchedStays(c, w, step, id);
  }

  lemma HolderHasPublished(c: Setup, w: World, id: nat)
    requires Inv(c, w) && HasLaunched(w, id) && Owner(w, id)
    ensures forall n: nat :: n < 2 ==> GoneOrPublished(c, w, w.attempts[id].body, n)
  {
    hide Published, Listed, Version.IsNewer, HasAssets, StagedPath, Exclusive, GoneOrPublished;
    assert StageOk(c, w, w.attempts[id]);
  }

  lemma {:induction false} HolderTakesSafely(c: Setup, w: World, id: nat, steps: seq<Step>)
    requires Inv(c, w) && HasLaunched(w, id) && Owner(w, id)
    ensures TakesSafely(c, w, id, steps)
    decreases |steps|
  {
    hide Inv, Take, Enabled, GoneOrPublished;
    if steps == [] {
      Nothing(c, w);
      HolderHasPublished(c, w, id);
    } else if AllEnabled(c, w, steps) && NoTimerOf(steps, id) {
      assert NoTimerOf([steps[0]], id) && NoTimerOf(steps[1..], id);
      HolderStays(c, w, steps[0], id);
      InvKept(c, w, steps[0]);
      var w1 := Take(c, w, steps[0]);
      HolderTakesSafely(c, w1, id, steps[1..]);
      assert AllEnabled(c, w1, steps[1..]) && Play(c, w, steps) == Play(c, w1, steps[1..]);
      forall n: nat | n < 2 ensures GoneOrPublished(c, Play(c, w, steps), w.attempts[id].body, n) {
        assert GoneOrPublished(c, Play(c, w1, steps[1..]), w1.attempts[id].body, n);
      }
    }
  }

  /** What an owner does when everything fails from here on. */
  function GivingUp(id: nat, at: Stage): Step
    requires Owns(at)
  {
    match at
    case Choosing => Choose(id, None, true)
    case Begun(_) => FetchSums(id, None)
    case Working(_, _, verified, got) =>
      if verified >= 2 then Launch(id, false) else if got.None? then Download(id, [], Unavailable) else Check(id)
    case Launched(_, _) => Arm(id)
    case Armed(_, _) => TimerFires(id)
  }

  /** At most this many such steps are needed. */
  function Patience(at: Stage): nat {
    match at
    case Working(_, _, verified, got) => if verified >= 2 then 0 else 2 * (2 - verified) + if got.None? then 0 else 1
    case Launched(_, _) => 1
    case _ => 0
  }

  lemma GivingUpHelps(c: Setup, w: World, o: nat)
    requires Inv(c, w) && Owner(w, o)
    ensures var step := GivingUp(o, w.attempts[o]);
            && Enabled(w, step) && !step.Restart? && step.id == o
            && var w' := Take(c, w, step);
               && w'.attempts.Keys == w.attempts.Keys
               && (forall k :: k in w.attempts && k != o ==> w'.attempts[k] == w.attempts[k])
               && (!w'.busy || (Owner(w', o) && Patience(w'.attempts[o]) < Patience(w.attempts[o])))
  {
    hide Exclusive, HelpersLaunched, Listed, Published, HasAssets, Version.IsNewer, StagedPath;
    assert StageOk(c, w, w.attempts[o]);
    OwnerIsBusy(w, o) by { assert Exclusive(w); }
  }

  /** Any owner can fail and free the flag, the others standing still. */
  lemma {:induction false} CanRelease(c: Setup, w: World, o: nat, id: nat) returns (steps: seq<Step>)
    requires Inv(c, w) && Owner(w, o) && o != id
    ensures AllEnabled(c, w, steps) && NoTimerOf(steps, id)
    ensures var w' := Play(c, w, steps);
            && Inv(c, w') && !w'.busy && w'.attempts.Keys == w.attempts.Keys
            && (id in w.attempts ==> w'.attempts[id] == w.attempts[id])
    decreases Patience(w.attempts[o])
  {
    hide Inv, Take, Enabled, AllEnabled, Play, Patience;
    var step := GivingUp(o, w.attempts[o]);
    GivingUpHelps(c, w, o);
    InvKept(c, w, step);
    var w1 := Take(c, w, step);
    if w1.busy {
      steps := CanRelease(c, w1, o, id);
      steps := Prepend(c, w, step, w1, steps, Play(c, w1, steps));
    } else {
      Nothing(c, w1);
      steps := Prepend(c, w, step, w1, [], w1);
    }
  }

  lemma {:induction false} Beyond(ids: set<nat>) returns (bound: nat)
    ensures forall x :: x in ids ==> x < bound
  {
    if ids == {} {
      bound := 0;
    } else {
      var x :| x in ids;
      bound := Beyond(ids - {x});
      if bound <= x { bound := x + 1; }
      forall y | y in ids ensures y < bound { assert y != x ==> y in ids - {x}; }
    }
  }

  lemma DownloadStep(c: Setup, w: World, id: nat, x: Bytes)
    requires id in w.attempts && w.attempts[id].Working? && w.attempts[id].verified < 2 && w.attempts[id].got.None?
    ensures Enabled(w, Download(id, x, Complete))
    ensures var at := w.attempts[id];
            Take(c, w, Download(id, x, Complete))
            == Put(w, id, at.(got := Some(c.digest(x)))).(staged := w.staged[StagedPath(c, at.verified) := x])
  {
    hide StagedPath;
  }

  lemma TimedOutOffered(c: Setup, w: World, id: nat)
    requires Inv(c, w) && id in w.attempts && w.attempts[id].TimedOut?
    ensures var at := w.attempts[id];
            Version.IsNewer(at.rel.tag, c.version) && HasAssets(c, at.rel) && Listed(at.body) && c.arch.Some?
  {
    hide Version.IsNewer, Listed, Exclusive, HelpersLaunched;
    assert StageOk(c, w, w.attempts[id]);
  }

  /** With the flag free, a new attempt can put any bytes where a timed-out helper looks. */
  lemma JunkStaged(c: Setup, w: World, id: nat, junk: Bytes) returns (steps: seq<Step>)
    requires c.appliance && Inv(c, w) && !w.busy && id in w.attempts && w.attempts[id].TimedOut?
    ensures AllEnabled(c, w, steps) && NoTimerOf(steps, id)
    ensures var w' := Play(c, w, steps);
            StagedPath(c, 0) in w'.staged && w'.staged[StagedPath(c, 0)] == junk
  {
    hide AllEnabled, Play, HasAssets, Listed, Version.IsNewer, StagedPath, Inv, Take, Enabled;
    var at := w.attempts[id];
    TimedOutOffered(c, w, id);
    var k := Beyond(w.attempts.Keys);
    assert k !in w.attempts.Keys;
    var first := StartedAttempt(c, w, k, at.rel, at.body);
    var w1 := Play(c, w, first);
    DownloadStep(c, w1, k, junk);
    var w2 := Take(c, w1, Download(k, junk, Complete));
    Nothing(c, w2);
    var last := Prepend(c, w1, Download(k, junk, Complete), w2, [], w2);
    Concatenate(c, w, first, last);
    steps := first + last;
  }

  /**
   A running helper is sure to find only its own release's published files, however the other
   attempts go on, exactly if its timer has not fired: while its attempt holds the flag nobody
   else stages anything, and afterwards a new attempt may stage whatever it downloads. (There
   is nothing to fear only if every byte string has the listed digest.)
   */
  lemma SafeHelperExactly(c: Setup, w: World, id: nat, junk: Bytes)
    requires c.appliance && Inv(c, w) && HasLaunched(w, id)
    requires !Published(c, w.attempts[id].body, 0, c.digest(junk))
    ensures SafeHelper(c, w, id) <==> Owner(w, id)
  {
    hide Inv, AllEnabled, Play, Published, StagedPath;
    if Owner(w, id) {
      forall steps ensures TakesSafely(c, w, id, steps) { HolderTakesSafely(c, w, id, steps); }
    } else {
      var first := FlagFreed(c, w, id);
      var w1 := Play(c, w, first);
      var last := JunkStaged(c, w1, id, junk);
      Concatenate(c, w, first, last);
      var steps := first + last;
      assert NoTimerOf(steps, id);
      assert !GoneOrPublished(c, Play(c, w, steps), w.attempts[id].body, 0);
      assert !TakesSafely(c, w, id, steps);
    }
  }

  /** From any world, the flag can come free with a timed-out attempt standing where it stood. */
  lemma FlagFreed(c: Setup, w: World, id: nat) returns (steps: seq<Step>)
    requires Inv(c, w) && id in w.attempts && !Owner(w, id)
    ensures AllEnabled(c, w, steps) && NoTimerOf(steps, id)
    ensures var w' := Play(c, w, steps);
            Inv(c, w') && !w'.busy && id in w'.attempts && w'.attempts[id] == w.attempts[id]
  {
    hide AllEnabled, Play, StageOk, HelpersLaunched;
    if w.busy {
      var o :| Owner(w, o);
      steps := CanRelease(c, w, o, id);
    } else {
      Nothing(c, w);
      steps := [];
    }
  }

  /**
   What that comes to: after an attempt has timed out and the next one has verified its first
   file and downloaded a wrong second one, the first attempt's helper can run to "done" and
   leave the wrong bytes at the live path.
   */
  lemma TimedOutInstallsJunk(c: Setup, rel: Release, body: string, x0: Bytes, x1: Bytes, junk: Bytes)
    returns (steps: seq<Step>)
    requires c.appliance && Version.IsNewer(rel.tag, c.version) && HasAssets(c, rel)
    requires Published(c, body, 0, c.digest(x0)) && Published(c, body, 1, c.digest(x1))
    requires !Published(c, body, 1, c.digest(junk))
    ensures AllEnabled(c, IDLE, steps)
    ensures var w := Play(c, IDLE, steps);
            && Inv(c, w) && Stray(w, 0) && w.attempts[0].body == body
            && Enabled(w, HelperTakes(0, 0)) && Enabled(w, HelperTakes(0, 1))
            && var r := Cutover.Run(Cutover.Journal(w.staged, 0, []), t => false, Binaries(c),
                                    Cutover.Answers(true, true, false));
               r.phase == Cutover.Done && !LiveIsPublished(c, r.j.fs, body, 1)
  {
    hide AllEnabled, Play, HasAssets, Published, Version.IsNewer, StagedPath, Inv, Cutover.Run, LiveIsPublished;
    steps := JunkAfterTimeout(c, rel, body, x0, x1, junk);
    FromStart(c, IDLE, steps);
    StagedInstalls(c, Play(c, IDLE, steps).staged, body, junk);
  }

  lemma JunkAfterTimeout(c: Setup, rel: Release, body: string, x0: Bytes, x1: Bytes, junk: Bytes)
    returns (steps: seq<Step>)
    requires c.appliance && Version.IsNewer(rel.tag, c.version) && HasAssets(c, rel)
    requires Published(c, body, 0, c.digest(x0)) && Published(c, body, 1, c.digest(x1))
    ensures AllEnabled(c, IDLE, steps)
    ensures var w := Play(c, IDLE, steps);
            && Stray(w, 0) && w.attempts[0].body == body
            && StagedPath(c, 0) in w.staged && StagedPath(c, 1) in w.staged && w.staged[StagedPath(c, 1)] == junk
  {
    hide AllEnabled, Play, HasAssets, Published, Version.IsNewer, StagedPath, Listed, Take, Enabled;
    ListedIfPublished(c, body, 0, c.digest(x0));
    PathsDiffer(c);
    var first := TimedOutAttempt(c, IDLE, 0, rel, body, x0, x1);
    var w1 := Play(c, IDLE, first);
    var second := StartedAttempt(c, w1, 1, rel, body);
    var w2 := Play(c, w1, second);
    var third := FetchedFile(c, w2, 1, x0);
    var w3 := Play(c, w2, third);
    DownloadStep(c, w3, 1, junk);
    var w4 := Take(c, w3, Download(1, junk, Complete));
    Nothing(c, w4);
    steps := Prepend(c, w3, Download(1, junk, Complete), w4, [], w4);
    Concatenate(c, w2, third, steps);
    Concatenate(c, w1, second, third + steps);
    Concatenate(c, IDLE, first, second + (third + steps));
    steps := first + (second + (third + steps));
  }

  /** With nothing refused and good answers, whatever is staged gets installed. */
  lemma StagedInstalls(c: Setup, fs: Files, body: string, junk: Bytes)
    requires StagedPath(c, 0) in fs && Holds(fs, StagedPath(c, 1), junk)
    requires !Published(c, body, 1, c.digest(junk))
    ensures var r := Cutover.Run(Cutover.Journal(fs, 0, []), t => false, Binaries(c),
                                 Cutover.Answers(true, true, false));
            r.phase == Cutover.Done && !LiveIsPublished(c, r.j.fs, body, 1)
  {
    hide Published, StagedPath, Cutover.Run, Cutover.Distinct, Join, BaseName;
    var j, bins := Cutover.Journal(fs, 0, []), Binaries(c);
    var faults: Cutover.Faults := t => false;
    var a := Cutover.Answers(true, true, false);
    BinariesDistinct(c);
    Cutover.CleanRunCommits(j, faults, bins, a);
    Cutover.DoneInstallsEverything(j, faults, bins, a);
    assert bins[1] in bins;
  }

  // ---- What cleanup leaves ----

  /** Nobody but the attempt downloads anything, and the process is not replaced. */
  ghost predicate NoOtherDownload(steps: seq<Step>, id: nat) {
    forall i :: 0 <= i < |steps| ==> !steps[i].Restart? && (steps[i].Download? ==> steps[i].id == id)
  }

  /** So much of the attempt's files is gone as its cleanup has got to. */
  ghost predicate CleanedSoFar(c: Setup, w: World, id: nat) {
    id in w.attempts ==>
      && (w.attempts[id] == Cleaning(1) || w.attempts[id] == Over(GaveUp) ==> StagedPath(c, 0) !in w.staged)
      && (w.attempts[id] == Over(GaveUp) ==> StagedPath(c, 1) !in w.staged)
  }

  lemma CleanedKept(c: Setup, w: World, step: Step, id: nat)
    requires Inv(c, w) && Enabled(w, step) && CleanedSoFar(c, w, id) && NoOtherDownload([step], id)
    ensures CleanedSoFar(c, Take(c, w, step), id)
  {
    hide Take, Enabled, StageOk, Exclusive, HelpersLaunched, StagedPath;
    assert [step][0] == step;
    if step.Delete? {
      DeleteCleans(c, w, step, id);
    } else if step.Download? {
      DownloadIsNoCleanup(c, w, step);
    } else {
      OthersOnlyRemove(c, w, step, id);
    }
  }

  lemma DeleteCleans(c: Setup, w: World, step: Step, id: nat)
    requires Enabled(w, step) && step.Delete? && CleanedSoFar(c, w, id)
    ensures CleanedSoFar(c, Take(c, w, step), id)
  {
    hide StagedPath;
  }

  lemma DownloadIsNoCleanup(c: Setup, w: World, step: Step)
    requires Enabled(w, step) && step.Download?
    ensures var at := Take(c, w, step).attempts[step.id]; at != Cleaning(1) && !at.Over?
  {
    hide StagedPath;
  }

  lemma OthersOnlyRemove(c: Setup, w: World, step: Step, id: nat)
    requires Enabled(w, step) && !step.Restart? && !step.Delete? && !step.Download?
    ensures var w' := Take(c, w, step);
            && (forall p :: p in w'.staged ==> p in w.staged)
            && (id in w'.attempts && (w'.attempts[id] == Cleaning(1) || w'.attempts[id] == Over(GaveUp)) ==>
                 id in w.attempts && w'.attempts[id] == w.attempts[id])
  {
    hide Listed, Published, HasAssets, Version.IsNewer, StagedPath;
  }

  /**
   A failed run leaves nothing staged: once an attempt that has not given up yet has given up,
   neither of its two files is there, unless another attempt has downloaded meanwhile.
   */
  lemma {:induction false} FailureLeavesNothing(c: Setup, w: World, steps: seq<Step>, id: nat)
    requires Inv(c, w) && AllEnabled(c, w, steps) && CleanedSoFar(c, w, id) && NoOtherDownload(steps, id)
    ensures var w' := Play(c, w, steps);
            && CleanedSoFar(c, w', id)
            && (id in w'.attempts && w'.attempts[id] == Over(GaveUp) ==>
                 StagedPath(c, 0) !in w'.staged && StagedPath(c, 1) !in w'.staged)
    decreases |steps|
  {
    hide Inv, Take, Enabled, StagedPath;
    if steps == [] {
    } else {
      assert NoOtherDownload([steps[0]], id) && NoOtherDownload(steps[1..], id);
      CleanedKept(c, w, steps[0], id);
      InvKept(c, w, steps[0]);
      FailureLeavesNothing(c, Take(c, w, steps[0]), steps[1..], id);
    }
  }

  /** The two deletions take away exactly the two staged files and end the attempt. */
  lemma CleanupIsExact(c: Setup, w: World, id: nat)
    requires id in w.attempts && w.attempts[id] == Cleaning(2)
    ensures AllEnabled(c, w, [Delete(id), Delete(id)])
    ensures Play(c, w, [Delete(id), Delete(id)])
            == Put(w, id, Over(GaveUp)).(staged := w.staged - {StagedPath(c, 0), StagedPath(c, 1)})
  {
    hide StagedPath, AllEnabled, Play;
    var p, q := StagedPath(c, 0), StagedPath(c, 1);
    var w1 := Put(w, id, Cleaning(1)).(staged := w.staged - {p});
    var w2 := Put(w1, id, Over(GaveUp)).(staged := w1.staged - {q});
    FirstDeletion(c, w, id);
    SecondDeletion(c, w1, id);
    Nothing(c, w2);
    var steps := Prepend(c, w1, Delete(id), w2, [], w2);
    steps := Prepend(c, w, Delete(id), w1, steps, w2);
    assert steps == [Delete(id), Delete(id)];
    Overwrite(w, id, Cleaning(1), Over(GaveUp));
    assert w.staged - {p} - {q} == w.staged - {p, q};
  }

  lemma FirstDeletion(c: Setup, w: World, id: nat)
    requires id in w.attempts && w.attempts[id] == Cleaning(2)
    ensures Enabled(w, Delete(id))
    ensures Take(c, w, Delete(id)) == Put(w, id, Cleaning(1)).(staged := w.staged - {StagedPath(c, 0)})
  {
    hide StagedPath;
  }

  lemma SecondDeletion(c: Setup, w: World, id: nat)
    requires id in w.attempts && w.attempts[id] == Cleaning(1)
    ensures Enabled(w, Delete(id))
    ensures Take(c, w, Delete(id)) == Put(w, id, Over(GaveUp)).(staged := w.staged - {StagedPath(c, 1)})
  {
    hide StagedPath;
  }

  /** A download that breaks off leaves nothing of itself; one that never began leaves what was there. */
  lemma BrokenDownload(c: Setup, w: World, id: nat, content: Bytes)
    requires Enabled(w, Download(id, content, Broken))
    ensures var w', path := Take(c, w, Download(id, content, Broken)), StagedPath(c, w.attempts[id].verified);
            path !in w'.staged && (forall p :: p != path ==> Same(w.staged, w'.staged, p))
            && w'.attempts[id] == Cleaning(2)
    ensures Take(c, w, Download(id, content, Unavailable)).staged == w.staged
  {
    hide StagedPath;
  }

  // ---- Cleanup as one step ----

  /**
   While deletions of a failed run are pending, nothing comes between, unless the process
   dies; and no helper has begun to move files.
   */
  ghost predicate Prompt(c: Setup, w: World, steps: seq<Step>)
    requires AllEnabled(c, w, steps)
    decreases |steps|
  {
    steps == [] || (PromptStep(w, steps[0]) && Prompt(c, Take(c, w, steps[0]), steps[1..]))
  }

  ghost predicate PromptStep(w: World, step: Step) {
    (NoCleaner(w) || step.Delete? || step.Restart?) && !step.HelperTakes?
  }

  /** The files the attempt has downloaded are still there. */
  ghost predicate FilesThere(c: Setup, w: World, at: Stage) {
    match at
    case Working(_, _, verified, got) =>
      && (forall n: nat :: n < verified ==> StagedPath(c, n) in w.staged)
      && (got.Some? ==> StagedPath(c, verified) in w.staged)
    case Launched(_, _) => BothStaged(c, w)
    case Armed(_, _) => BothStaged(c, w)
    case _ => true
  }

  ghost predicate Undisturbed(c: Setup, w: World) {
    && (NoCleaner(w) || !w.busy)
    && forall id :: id in w.attempts ==> FilesThere(c, w, w.attempts[id])
  }

  lemma OwnFilesThere(c: Setup, w: World, step: Step)
    requires Enabled(w, step) && !step.Restart? && !step.HelperTakes?
    requires step.id in w.attempts ==> FilesThere(c, w, w.attempts[step.id])
    ensures var w' := Take(c, w, step); FilesThere(c, w', w'.attempts[step.id])
  {
    hide Listed, Version.IsNewer, HasAssets, Published, StagedPath;
    if step.Download? {
      DownloadedThere(c, w, step);
    } else if step.Check? {
      var at := w.attempts[step.id];
      forall n: nat | n < at.verified ensures StagedPath(c, n) in w.staged {}
    }
  }

  lemma DownloadedThere(c: Setup, w: World, step: Step)
    requires Enabled(w, step) && step.Download? && FilesThere(c, w, w.attempts[step.id])
    ensures var w' := Take(c, w, step); FilesThere(c, w', w'.attempts[step.id])
  {
    hide StagedPath;
    var at := w.attempts[step.id];
    forall n: nat | n < at.verified ensures StagedPath(c, n) in w.staged {}
  }

  lemma PromptFlag(c: Setup, w: World, step: Step)
    requires Inv(c, w) && Enabled(w, step) && !step.Restart? && PromptStep(w, step)
    requires NoCleaner(w) || !w.busy
    ensures var w' := Take(c, w, step); NoCleaner(w') || !w'.busy
  {
    hide Listed, Version.IsNewer, HasAssets, Published, StagedPath, FindAsset;
    var w' := Take(c, w, step);
    if w'.busy {
      forall k ensures !Cleaner(w', k) { assert !Cleaner(w, k); }
    }
  }

  lemma UndisturbedKept(c: Setup, w: World, step: Step)
    requires Inv(c, w) && Undisturbed(c, w) && Enabled(w, step) && PromptStep(w, step)
    ensures Undisturbed(c, Take(c, w, step))
  {
    hide Inv, Take, Enabled, FilesThere, NoCleaner;
    if step.Restart? {
      RestartUndisturbed(c, w, step.staged);
    } else {
      PromptFlag(c, w, step);
      FlagDiscipline(c, w, step);
      var w' := Take(c, w, step);
      forall k | k in w'.attempts ensures FilesThere(c, w', w'.attempts[k]) {
        if k == step.id {
          OwnFilesThere(c, w, step);
        } else if Owner(w, k) {
          OwnerUndisturbed(c, w, step, k);
        } else {
          NonOwnersHaveNoFiles(c, w', w'.attempts[k]);
        }
      }
    }
  }

  lemma RestartUndisturbed(c: Setup, w: World, staged: Files)
    ensures Undisturbed(c, Take(c, w, Restart(staged)))
  {}

  lemma NonOwnersHaveNoFiles(c: Setup, w: World, at: Stage)
    requires !Owns(at)
    ensures FilesThere(c, w, at)
  {}

  lemma OwnerUndisturbed(c: Setup, w: World, step: Step, id: nat)
    requires Inv(c, w) && Enabled(w, step) && !step.Restart? && step.id != id && Owner(w, id)
    requires !step.HelperTakes? && (NoCleaner(w) || !w.busy)
    requires FilesThere(c, w, w.attempts[id])
    ensures FilesThere(c, Take(c, w, step), w.attempts[id])
  {
    hide Take, Enabled, StageOk, Exclusive, HelpersLaunched, NoCleaner, NoStray, StagedPath;
    OwnerIsBusy(w, id);
    BystanderStep(c, w, step, id);
  }

  lemma {:induction false} UndisturbedAlongRuns(c: Setup, w: World, steps: seq<Step>)
    requires Inv(c, w) && Undisturbed(c, w) && AllEnabled(c, w, steps) && Prompt(c, w, steps)
    ensures Inv(c, Play(c, w, steps)) && Undisturbed(c, Play(c, w, steps))
    decreases |steps|
  {
    hide Inv, Take, Enabled, Undisturbed, PromptStep;
    if steps == [] {
    } else {
      InvKept(c, w, steps[0]);
      UndisturbedKept(c, w, steps[0]);
      UndisturbedAlongRuns(c, Take(c, w, steps[0]), steps[1..]);
    }
  }

  /** Both files staged, each with the digest the release's listing gives it, of a newer release. */
  ghost predicate FullyVerified(c: Setup, w: World, rel: Release, body: string) {
    && BothStaged(c, w) && Version.IsNewer(rel.tag, c.version)
    && Published(c, body, 0, c.digest(w.staged[StagedPath(c, 0)]))
    && Published(c, body, 1, c.digest(w.staged[StagedPath(c, 1)]))
  }

  /**
   If every failed run's cleanup is one step, then in every reachable world an attempt that
   has launched the helper has both files staged and verified, until a helper moves one.
   */
  lemma LaunchedIsVerified(c: Setup, w: World, steps: seq<Step>, id: nat)
    requires Init(w) && AllEnabled(c, w, steps) && Prompt(c, w, steps)
    requires id in Play(c, w, steps).attempts
    ensures var w' := Play(c, w, steps);
            var at := w'.attempts[id];
            at.Launched? || at.Armed? ==> FullyVerified(c, w', at.rel, at.body)
  {
    hide AllEnabled, Play, Prompt, Published, StagedPath;
    assert Exclusive(w);
    UndisturbedAlongRuns(c, w, steps);
    var w' := Play(c, w, steps);
    var at := w'.attempts[id];
    assert StageOk(c, w', at) && FilesThere(c, w', at);
    if at.Launched? || at.Armed? {
      assert GoneOrPublished(c, w', at.body, 0) && GoneOrPublished(c, w', at.body, 1);
    }
  }

  /** So the race is real: a concrete release, and a run at whose end a verified attempt can lose its files. */
  lemma LateDeletionExample() returns (c: Setup, steps: seq<Step>)
    ensures AllEnabled(c, IDLE, steps)
    ensures var w := Play(c, IDLE, steps);
            Inv(c, w) && Owner(w, 1) && BothStaged(c, w) && !StaysStaged(c, w, 1)
  {
    hide AllEnabled, Play, HasAssets, Published, Version.IsNewer, BothStaged, StaysStaged, Inv;
    var rel, body;
    c, rel, body := ShippedRelease();
    steps := LateDeletionHappens(c, rel, body, [], []);
  }

  /** And a concrete release on which a timed-out helper installs a file that is not its own. */
  lemma TimedOutExample() returns (c: Setup, body: string, steps: seq<Step>)
    ensures AllEnabled(c, IDLE, steps)
    ensures var w := Play(c, IDLE, steps);
            && Inv(c, w) && Stray(w, 0) && w.attempts[0].body == body
            && var r := Cutover.Run(Cutover.Journal(w.staged, 0, []), t => false, Binaries(c),
                                    Cutover.Answers(true, true, false));
               r.phase == Cutover.Done && !LiveIsPublished(c, r.j.fs, body, 1)
  {
    hide AllEnabled, Play, HasAssets, Published, Version.IsNewer, Inv, Cutover.Run, LiveIsPublished, Enabled;
    var rel;
    c, rel, body := ShippedRelease();
    steps := TimedOutInstallsJunk(c, rel, body, [], [], [0]);
  }
}
