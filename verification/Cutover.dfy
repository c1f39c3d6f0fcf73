/**
 The detached update helper: stop the service, swap the binaries by renames,
 restart, health-check, and either commit or restore the backups.

 This is a pure account of one run: every pattern of refused renames is a function from
 the rename's index, every pattern of health answers a triple. Module Helper has the
 helper's own loops, proved to do exactly this.
 */
module Cutover {
  import opened Wrappers
  import opened Files

  /** One binary to install: staged file, live path, backup path. */
  datatype Swap = Swap(staged: string, live: string, bak: string)

  type Faults = nat -> bool

  /** The files now, the number of renames tried, and the files after each of them. */
  datatype Journal = Journal(fs: Files, at: nat, seen: seq<Files>)

  function Move(j: Journal, faults: Faults, src: string, dst: string): (Journal, Option<RenameError>) {
    var (fs', err) := Rename(j.fs, src, dst, faults(j.at));
    (Journal(fs', j.at + 1, j.seen + [fs']), err)
  }

  datatype InstallEnd = Complete | NoBackup | NoInstall

  /** `taken` counts the binaries to restore should the update be abandoned here. */
  datatype Installed = Installed(j: Journal, taken: nat, end: InstallEnd)

  function Install(j: Journal, faults: Faults, bins: seq<Swap>, i: nat): (r: Installed)
    requires i <= |bins|
    ensures i <= r.taken <= |bins| && r.j.at >= j.at
    decreases |bins| - i
  {
    if i == |bins| then Installed(j, i, Complete)
    else
      var (j1, backup) := Move(j, faults, bins[i].live, bins[i].bak);
      if backup == Some(Refused) then Installed(j1, i, NoBackup)
      else
        var (j2, install) := Move(j1, faults, bins[i].staged, bins[i].live);
        if install.Some? then Installed(j2, i + 1, NoInstall)
        else Install(j2, faults, bins, i + 1)
  }

  /** Restores bins[i..] from their backups; the second component counts the failures. */
  function Rollback(j: Journal, faults: Faults, bins: seq<Swap>, i: nat): (r: (Journal, nat))
    requires i <= |bins|
    ensures r.0.at >= j.at
    decreases |bins| - i
  {
    if i == |bins| then (j, 0)
    else
      var (j1, err) := Move(j, faults, bins[i].bak, bins[i].live);
      var (j2, failed) := Rollback(j1, faults, bins, i + 1);
      (j2, failed + if err.Some? then 1 else 0)
  }

  datatype Phase = Done | RolledBack | Failed

  /** What the polls answered: old process gone, new one healthy, recovered one healthy. */
  datatype Answers = Answers(stopped: bool, healthy: bool, recovered: bool)

  datatype Outcome = Outcome(phase: Phase, j: Journal, taken: nat, failed: nat)

  function Recover(j: Journal, faults: Faults, toRestore: seq<Swap>, recovered: bool): Outcome {
    var (j', failed) := Rollback(j, faults, toRestore, 0);
    Outcome(if failed == 0 && recovered then RolledBack else Failed, j', |toRestore|, failed)
  }

  function Run(j: Journal, faults: Faults, bins: seq<Swap>, a: Answers): Outcome {
    if !a.stopped then Outcome(Failed, j, 0, 0)
    else
      var inst := Install(j, faults, bins, 0);
      if inst.end.Complete? && a.healthy then Outcome(Done, inst.j, 0, 0)
      else Recover(inst.j, faults, bins[..inst.taken], a.recovered)
  }

  // ---- What one binary's three paths may look like, relative to the start fs0 ----

  function Paths(b: Swap): set<string> { {b.staged, b.live, b.bak} }

  ghost predicate OwnPathsDiffer(b: Swap) {
    b.staged != b.live && b.staged != b.bak && b.live != b.bak
  }

  ghost function AllPaths(bins: seq<Swap>): set<string> {
    set i, p | 0 <= i < |bins| && p in Paths(bins[i]) :: p
  }

  /** All paths of all binaries are pairwise distinct. */
  ghost predicate Distinct(bins: seq<Swap>) {
    && (forall i :: 0 <= i < |bins| ==> OwnPathsDiffer(bins[i]))
    && (forall i, j :: 0 <= i < j < |bins| ==> Paths(bins[i]) !! Paths(bins[j]))
  }

  ghost predicate Untouched(fs0: Files, fs: Files, b: Swap) {
    Same(fs0, fs, b.staged) && Same(fs0, fs, b.live) && Same(fs0, fs, b.bak)
  }

  /** The backup path holds the previous binary; with none to back up, what it held before. */
  ghost predicate BackedUp(fs0: Files, fs: Files, b: Swap) {
    if b.live in fs0 then Holds(fs, b.bak, fs0[b.live]) else Same(fs0, fs, b.bak)
  }

  ghost predicate Swapped(fs0: Files, fs: Files, b: Swap) {
    b.staged in fs0 && Holds(fs, b.live, fs0[b.staged]) && b.staged !in fs && BackedUp(fs0, fs, b)
  }

  /** Moved to the backup path (if it was there at all), replacement not yet in place. */
  ghost predicate Halfway(fs0: Files, fs: Files, b: Swap) {
    b.live !in fs && Same(fs0, fs, b.staged) && BackedUp(fs0, fs, b)
  }

  /** The backup is back at the live path: the previous bytes, or a stale backup's. */
  ghost predicate Restored(fs0: Files, fs: Files, b: Swap) {
    b.bak !in fs && if b.live in fs0 then Holds(fs, b.live, fs0[b.live])
                    else b.bak in fs0 && Holds(fs, b.live, fs0[b.bak])
  }

  /** The previous bytes of b survive whole, at its live path or at its backup path. */
  ghost predicate Survives(fs0: Files, fs: Files, b: Swap) {
    b.live in fs0 ==> Holds(fs, b.live, fs0[b.live]) || Holds(fs, b.bak, fs0[b.live])
  }

  ghost predicate AllSurvive(fs0: Files, fs: Files, bins: seq<Swap>) {
    forall i :: 0 <= i < |bins| ==> Survives(fs0, fs, bins[i])
  }

  /** Nothing but the binaries' own paths changed. */
  ghost predicate Confined(fs0: Files, fs: Files, bins: seq<Swap>) {
    forall p :: p !in AllPaths(bins) ==> Same(fs0, fs, p)
  }

  ghost predicate GoodState(fs0: Files, fs: Files, bins: seq<Swap>) {
    AllSurvive(fs0, fs, bins) && Confined(fs0, fs, bins)
  }

  /** j' continues j, and every state passed through since then is good. */
  ghost predicate Continues(fs0: Files, bins: seq<Swap>, j: Journal, j': Journal) {
    && j.seen <= j'.seen
    && |j'.seen| - |j.seen| == j'.at - j.at
    && (forall k :: |j.seen| <= k < |j'.seen| ==> GoodState(fs0, j'.seen[k], bins))
    && (j'.fs == if |j'.seen| == |j.seen| then j.fs else j'.seen[|j'.seen| - 1])
  }

  ghost predicate Progress(fs0: Files, fs: Files, bins: seq<Swap>, done: nat, half: bool) {
    && (forall i :: 0 <= i < |bins| && i < done ==> Swapped(fs0, fs, bins[i]))
    && (half ==> done < |bins| && Halfway(fs0, fs, bins[done]))
    && (forall i :: done + (if half then 1 else 0) <= i < |bins| ==> Untouched(fs0, fs, bins[i]))
    && Confined(fs0, fs, bins)
  }

  lemma ProgressIsGood(fs0: Files, fs: Files, bins: seq<Swap>, done: nat, half: bool)
    requires Progress(fs0, fs, bins, done, half)
    ensures GoodState(fs0, fs, bins)
  {
    forall i | 0 <= i < |bins| ensures Survives(fs0, fs, bins[i]) {
      if i < done {
        assert Swapped(fs0, fs, bins[i]);
      } else if i > done || !half {
        assert Untouched(fs0, fs, bins[i]);
      }
    }
  }

  /** Backing up binary `i` takes a state with i swapped to one with i swapped and one halfway. */
  lemma BackupStep(fs0: Files, fs: Files, bins: seq<Swap>, i: nat)
    requires Distinct(bins) && i < |bins| && Progress(fs0, fs, bins, i, false)
    ensures var r := Rename(fs, bins[i].live, bins[i].bak, false);
            Progress(fs0, r.0, bins, i, true)
  {
    var b := bins[i];
    var fs' := Rename(fs, b.live, b.bak, false).0;
    assert Untouched(fs0, fs, b);
    assert {b.live, b.bak} <= Paths(b) && OwnPathsDiffer(b);
    forall k | 0 <= k < |bins| && k != i
      ensures (k < i ==> Swapped(fs0, fs', bins[k])) && (k > i ==> Untouched(fs0, fs', bins[k]))
    {
      Apart(bins, i, k);
      assert k < i ==> Swapped(fs0, fs, bins[k]);
      assert k > i ==> Untouched(fs0, fs, bins[k]);
    }
  }

  lemma SwapStep(fs0: Files, fs: Files, bins: seq<Swap>, i: nat)
    requires Distinct(bins) && i < |bins| && Progress(fs0, fs, bins, i, true)
    ensures var r := Rename(fs, bins[i].staged, bins[i].live, false);
            r.1.None? ==> Progress(fs0, r.0, bins, i + 1, false)
  {
    var b := bins[i];
    var r := Rename(fs, b.staged, b.live, false);
    assert Halfway(fs0, fs, b);
    assert {b.live, b.staged} <= Paths(b) && OwnPathsDiffer(b);
    if r.1.None? {
      forall k | 0 <= k < |bins| && k != i
        ensures (k < i ==> Swapped(fs0, r.0, bins[k])) && (k > i ==> Untouched(fs0, r.0, bins[k]))
      {
        Apart(bins, i, k);
        assert k < i ==> Swapped(fs0, fs, bins[k]);
        assert k > i ==> Untouched(fs0, fs, bins[k]);
      }
    }
  }

  lemma Apart(bins: seq<Swap>, i: nat, k: nat)
    requires Distinct(bins) && i < |bins| && k < |bins| && i != k
    ensures Paths(bins[i]) !! Paths(bins[k])
  {}

  lemma OneMove(fs0: Files, bins: seq<Swap>, j: Journal, faults: Faults, src: string, dst: string)
    requires GoodState(fs0, Move(j, faults, src, dst).0.fs, bins)
    ensures Continues(fs0, bins, j, Move(j, faults, src, dst).0)
  {}

  lemma Chain(fs0: Files, bins: seq<Swap>, j: Journal, j1: Journal, j2: Journal)
    requires Continues(fs0, bins, j, j1) && Continues(fs0, bins, j1, j2)
    ensures Continues(fs0, bins, j, j2)
  {
    forall k | |j.seen| <= k < |j2.seen| ensures GoodState(fs0, j2.seen[k], bins) {
      if k < |j1.seen| { assert j2.seen[k] == j1.seen[k]; }
    }
  }

  lemma BackupMove(fs0: Files, j: Journal, faults: Faults, bins: seq<Swap>, i: nat)
    requires Distinct(bins) && i < |bins| && Progress(fs0, j.fs, bins, i, false)
    ensures var (j1, err) := Move(j, faults, bins[i].live, bins[i].bak);
            && Continues(fs0, bins, j, j1)
            && Progress(fs0, j1.fs, bins, i, err != Some(Refused))
  {
    var (j1, err) := Move(j, faults, bins[i].live, bins[i].bak);
    if err != Some(Refused) { BackupStep(fs0, j.fs, bins, i); }
    ProgressIsGood(fs0, j1.fs, bins, i, err != Some(Refused));
    OneMove(fs0, bins, j, faults, bins[i].live, bins[i].bak);
  }

  lemma SwapMove(fs0: Files, j: Journal, faults: Faults, bins: seq<Swap>, i: nat)
    requires Distinct(bins) && i < |bins| && Progress(fs0, j.fs, bins, i, true)
    ensures var (j1, err) := Move(j, faults, bins[i].staged, bins[i].live);
            && Continues(fs0, bins, j, j1)
            && Progress(fs0, j1.fs, bins, if err.None? then i + 1 else i, err.Some?)
  {
    var (j1, err) := Move(j, faults, bins[i].staged, bins[i].live);
    if err.None? { SwapStep(fs0, j.fs, bins, i); }
    ProgressIsGood(fs0, j1.fs, bins, if err.None? then i + 1 else i, err.Some?);
    OneMove(fs0, bins, j, faults, bins[i].staged, bins[i].live);
  }

  /** What the install loop has achieved when it stops. */
  ghost predicate InstallPost(fs0: Files, bins: seq<Swap>, r: Installed) {
    match r.end
    case Complete => r.taken == |bins| && Progress(fs0, r.j.fs, bins, |bins|, false)
    case NoBackup => r.taken < |bins| && Progress(fs0, r.j.fs, bins, r.taken, false)
    case NoInstall => 0 < r.taken <= |bins| && Progress(fs0, r.j.fs, bins, r.taken - 1, true)
  }

  /** The install loop: where it stops and what it has done by then. */
  lemma {:induction false} InstallProgress(fs0: Files, j: Journal, faults: Faults, bins: seq<Swap>, i: nat)
    requires Distinct(bins) && i <= |bins| && Progress(fs0, j.fs, bins, i, false)
    ensures InstallPost(fs0, bins, Install(j, faults, bins, i))
    decreases |bins| - i
  {
    hide Progress, Continues, Rename;
    if i == |bins| {
    } else {
      BackupMove(fs0, j, faults, bins, i);
      var (j1, backup) := Move(j, faults, bins[i].live, bins[i].bak);
      if backup != Some(Refused) {
        SwapMove(fs0, j1, faults, bins, i);
        var (j2, install) := Move(j1, faults, bins[i].staged, bins[i].live);
        if install.None? {
          InstallProgress(fs0, j2, faults, bins, i + 1);
          assert Install(j, faults, bins, i) == Install(j2, faults, bins, i + 1);
        } else {
          assert Install(j, faults, bins, i) == Installed(j2, i + 1, NoInstall);
        }
      } else {
        assert Install(j, faults, bins, i) == Installed(j1, i, NoBackup);
      }
    }
  }

  /** Whatever the install loop does, a crash after any of its renames finds a good state. */
  lemma {:induction false} InstallContinues(fs0: Files, j: Journal, faults: Faults, bins: seq<Swap>, i: nat)
    requires Distinct(bins) && i <= |bins| && Progress(fs0, j.fs, bins, i, false)
    ensures Continues(fs0, bins, j, Install(j, faults, bins, i).j)
    decreases |bins| - i
  {
    hide Progress, Rename;
    if i == |bins| {
    } else {
      BackupMove(fs0, j, faults, bins, i);
      var (j1, backup) := Move(j, faults, bins[i].live, bins[i].bak);
      if backup != Some(Refused) {
        SwapMove(fs0, j1, faults, bins, i);
        var (j2, install) := Move(j1, faults, bins[i].staged, bins[i].live);
        Chain(fs0, bins, j, j1, j2);
        if install.None? {
          InstallContinues(fs0, j2, faults, bins, i + 1);
          Chain(fs0, bins, j, j2, Install(j2, faults, bins, i + 1).j);
        }
      }
    }
  }

  // ---- Rollback ----

  /** How many of bins[i..n] have not been restored. */
  ghost function Unrestored(fs0: Files, fs: Files, bins: seq<Swap>, i: nat, n: nat): nat
    requires i <= n <= |bins|
    decreases n - i
  {
    if i == n then 0
    else (if Restored(fs0, fs, bins[i]) then 0 else 1) + Unrestored(fs0, fs, bins, i + 1, n)
  }

  lemma {:induction false} UnrestoredFrame(fs0: Files, fs: Files, fs': Files, bins: seq<Swap>, i: nat, n: nat)
    requires i <= n <= |bins|
    requires forall k :: i <= k < n ==> Untouched(fs, fs', bins[k])
    ensures Unrestored(fs0, fs, bins, i, n) == Unrestored(fs0, fs', bins, i, n)
    decreases n - i
  {
    if i == n {
    } else {
      assert Untouched(fs, fs', bins[i]);
      UnrestoredFrame(fs0, fs, fs', bins, i + 1, n);
    }
  }

  lemma {:induction false} UnrestoredZero(fs0: Files, fs: Files, bins: seq<Swap>, i: nat, n: nat)
    requires i <= n <= |bins|
    ensures Unrestored(fs0, fs, bins, i, n) == 0 <==> forall k :: i <= k < n ==> Restored(fs0, fs, bins[k])
    decreases n - i
  {
    if i == n {
    } else {
      UnrestoredZero(fs0, fs, bins, i + 1, n);
    }
  }

  /** From fs to fs', binaries i..n were each restored or left alone, and no other was touched. */
  ghost predicate Retreat(fs0: Files, fs: Files, fs': Files, bins: seq<Swap>, i: nat, n: nat) {
    && (forall k :: 0 <= k < |bins| && !(i <= k < n) ==> Untouched(fs, fs', bins[k]))
    && (forall k :: i <= k < n && k < |bins| ==> Restored(fs0, fs', bins[k]) || Untouched(fs, fs', bins[k]))
  }

  /** One restore attempt: it succeeds exactly if the binary ends up restored. */
  lemma RestoreMove(fs0: Files, j: Journal, faults: Faults, bins: seq<Swap>, i: nat)
    requires Distinct(bins) && i < |bins| && GoodState(fs0, j.fs, bins) && BackedUp(fs0, j.fs, bins[i])
    ensures var (j1, err) := Move(j, faults, bins[i].bak, bins[i].live);
            && Continues(fs0, bins, j, j1)
            && GoodState(fs0, j1.fs, bins)
            && Retreat(fs0, j.fs, j1.fs, bins, i, i + 1)
            && (Restored(fs0, j1.fs, bins[i]) <==> err.None?)
  {
    var b := bins[i];
    var (j1, err) := Move(j, faults, b.bak, b.live);
    assert {b.live, b.bak} <= Paths(b) && OwnPathsDiffer(b);
    forall k | 0 <= k < |bins| && k != i ensures Untouched(j.fs, j1.fs, bins[k]) && Survives(fs0, j1.fs, bins[k]) {
      Apart(bins, i, k);
      assert Survives(fs0, j.fs, bins[k]);
    }
    OneMove(fs0, bins, j, faults, b.bak, b.live);
  }

  /** Rollback's count is exact, and it never makes a bad state on the way. */
  lemma {:induction false} RollbackEffect(fs0: Files, j: Journal, faults: Faults, bins: seq<Swap>, i: nat, n: nat)
    requires Distinct(bins) && i <= n <= |bins| && GoodState(fs0, j.fs, bins)
    requires forall k :: i <= k < n ==> BackedUp(fs0, j.fs, bins[k])
    ensures var (j', failed) := Rollback(j, faults, bins[..n], i);
            && failed == Unrestored(fs0, j'.fs, bins, i, n)
            && Continues(fs0, bins, j, j')
            && GoodState(fs0, j'.fs, bins)
            && Retreat(fs0, j.fs, j'.fs, bins, i, n)
    decreases n - i
  {
    hide GoodState, Rename, Restored, Retreat;
    if i == n {
      RetreatNone(fs0, j.fs, bins, n);
    } else {
      RestoreMove(fs0, j, faults, bins, i);
      var (j1, err) := Move(j, faults, bins[i].bak, bins[i].live);
      BackupsKept(fs0, j.fs, j1.fs, bins, i, n);
      RollbackEffect(fs0, j1, faults, bins, i + 1, n);
      var (j', failed) := Rollback(j1, faults, bins[..n], i + 1);
      Chain(fs0, bins, j, j1, j');
      RetreatChain(fs0, j.fs, j1.fs, j'.fs, bins, i, n);
    }
  }

  lemma BackupsKept(fs0: Files, fs: Files, fs': Files, bins: seq<Swap>, i: nat, n: nat)
    requires i < n <= |bins| && Retreat(fs0, fs, fs', bins, i, i + 1)
    requires forall k :: i <= k < n ==> BackedUp(fs0, fs, bins[k])
    ensures forall k :: i + 1 <= k < n ==> BackedUp(fs0, fs', bins[k])
  {
    forall k | i + 1 <= k < n ensures BackedUp(fs0, fs', bins[k]) {
      assert Untouched(fs, fs', bins[k]) && BackedUp(fs0, fs, bins[k]);
    }
  }

  lemma RetreatChain(fs0: Files, fs: Files, fs1: Files, fs2: Files, bins: seq<Swap>, i: nat, n: nat)
    requires i < n <= |bins|
    requires Retreat(fs0, fs, fs1, bins, i, i + 1) && Retreat(fs0, fs1, fs2, bins, i + 1, n)
    ensures Retreat(fs0, fs, fs2, bins, i, n)
    ensures Restored(fs0, fs1, bins[i]) <==> Restored(fs0, fs2, bins[i])
  {
    forall k | 0 <= k < |bins|
      ensures k < i || k >= n ==> Untouched(fs, fs2, bins[k])
      ensures i <= k < n ==> Restored(fs0, fs2, bins[k]) || Untouched(fs, fs2, bins[k])
    {
      assert k != i ==> Untouched(fs, fs1, bins[k]);
      assert k <= i || k >= n ==> Untouched(fs1, fs2, bins[k]);
    }
  }

  lemma RetreatNone(fs0: Files, fs: Files, bins: seq<Swap>, n: nat)
    ensures Retreat(fs0, fs, fs, bins, n, n)
  {}

  // ---- What each reported outcome means ----

  lemma StartProgress(fs: Files, bins: seq<Swap>)
    ensures Progress(fs, fs, bins, 0, false) && GoodState(fs, fs, bins)
  {
    ProgressIsGood(fs, fs, bins, 0, false);
  }

  /** When the install loop gives up, everything it wants restored is backed up and the rest untouched. */
  lemma InstallBackedUp(j: Journal, faults: Faults, bins: seq<Swap>)
    requires Distinct(bins)
    ensures var inst := Install(j, faults, bins, 0);
            && GoodState(j.fs, inst.j.fs, bins)
            && Continues(j.fs, bins, j, inst.j)
            && (forall k :: 0 <= k < inst.taken ==> BackedUp(j.fs, inst.j.fs, bins[k]))
            && (forall k :: inst.taken <= k < |bins| ==> Untouched(j.fs, inst.j.fs, bins[k]))
            && (forall k :: 0 <= k < inst.taken - 1 ==> bins[k].staged in j.fs)
            && (inst.end.Complete? ==> forall k :: 0 <= k < |bins| ==> Swapped(j.fs, inst.j.fs, bins[k]))
  {
    StartProgress(j.fs, bins);
    InstallProgress(j.fs, j, faults, bins, 0);
    InstallContinues(j.fs, j, faults, bins, 0);
    var inst := Install(j, faults, bins, 0);
    var half := inst.end.NoInstall?;
    ProgressIsGood(j.fs, inst.j.fs, bins, if half then inst.taken - 1 else inst.taken, half);
    forall k | 0 <= k < inst.taken
      ensures BackedUp(j.fs, inst.j.fs, bins[k]) && (k < inst.taken - 1 ==> bins[k].staged in j.fs)
    {
      assert Swapped(j.fs, inst.j.fs, bins[k]) || Halfway(j.fs, inst.j.fs, bins[k]);
    }
  }

  /** "done": every live path holds the staged bytes and every backup path the previous ones. */
  lemma DoneInstallsEverything(j: Journal, faults: Faults, bins: seq<Swap>, a: Answers)
    requires Distinct(bins) && Run(j, faults, bins, a).phase == Done
    ensures a.stopped && a.healthy
    ensures forall b :: b in bins ==> Swapped(j.fs, Run(j, faults, bins, a).j.fs, b)
  {
    InstallBackedUp(j, faults, bins);
  }

  /**
   A rename is tried exactly if the old process is gone and there is something to install;
   otherwise every file is as it was.
   */
  lemma RenamesOnlyOnceStopped(j: Journal, faults: Faults, bins: seq<Swap>, a: Answers)
    ensures Run(j, faults, bins, a).j.at == j.at <==> !a.stopped || bins == []
    ensures !a.stopped || bins == [] ==> Run(j, faults, bins, a).j == j
    ensures !a.stopped ==> Run(j, faults, bins, a).phase == Failed
  {
    hide Rename, Rollback;
    var inst := Install(j, faults, bins, 0);
    if a.stopped && bins != [] {
      assert inst.j.at > j.at;
    } else if a.stopped {
      NothingToRestore(j, faults, bins[..inst.taken]);
    }
  }

  lemma NothingToRestore(j: Journal, faults: Faults, bins: seq<Swap>)
    requires bins == []
    ensures Rollback(j, faults, bins, 0) == (j, 0)
  {}

  /**
   Crash safety. After every rename of the install and of the rollback, in every run,
   each binary's previous bytes are whole at its live path or at its backup path, and
   no other path has changed.
   */
  lemma CrashSafe(j: Journal, faults: Faults, bins: seq<Swap>, a: Answers)
    requires Distinct(bins)
    ensures var r := Run(j, faults, bins, a);
            GoodState(j.fs, r.j.fs, bins) && Continues(j.fs, bins, j, r.j)
  {
    StartProgress(j.fs, bins);
    InstallBackedUp(j, faults, bins);
    var inst := Install(j, faults, bins, 0);
    RollbackEffect(j.fs, inst.j, faults, bins, 0, inst.taken);
    if a.stopped && !(inst.end.Complete? && a.healthy) {
      Chain(j.fs, bins, j, inst.j, Run(j, faults, bins, a).j);
    }
  }

  /** A run that entered recovery. */
  ghost predicate Recovered(j: Journal, faults: Faults, bins: seq<Swap>, a: Answers) {
    a.stopped && Run(j, faults, bins, a).phase != Done
  }

  /**
   The failure count is exact: it is the number of binaries to restore that are not back,
   the previous bytes of each of those being still at the backup path; binaries the
   install never reached are as they were.
   */
  lemma RecoveryIsExact(j: Journal, faults: Faults, bins: seq<Swap>, a: Answers)
    requires Distinct(bins) && Recovered(j, faults, bins, a)
    ensures var r := Run(j, faults, bins, a);
            && r.taken <= |bins|
            && r.failed == Unrestored(j.fs, r.j.fs, bins, 0, r.taken)
            && (forall k :: 0 <= k < r.taken ==>
                  Restored(j.fs, r.j.fs, bins[k]) || BackedUp(j.fs, r.j.fs, bins[k]))
            && (forall k :: r.taken <= k < |bins| ==> Untouched(j.fs, r.j.fs, bins[k]))
            && (r.phase == RolledBack <==> r.failed == 0 && a.recovered)
  {
    InstallBackedUp(j, faults, bins);
    var inst := Install(j, faults, bins, 0);
    var n := inst.taken;
    RollbackEffect(j.fs, inst.j, faults, bins, 0, n);
    var r := Run(j, faults, bins, a);
    forall k | 0 <= k < |bins|
      ensures k < n ==> Restored(j.fs, r.j.fs, bins[k]) || BackedUp(j.fs, r.j.fs, bins[k])
      ensures k >= n ==> Untouched(j.fs, r.j.fs, bins[k])
    {
      assert k < n ==> BackedUp(j.fs, inst.j.fs, bins[k]);
      assert k >= n ==> Untouched(j.fs, inst.j.fs, bins[k]) && Untouched(inst.j.fs, r.j.fs, bins[k]);
    }
  }

  /** "rolled_back" says the live paths are as before the update. */
  ghost predicate HonestRollback(j: Journal, faults: Faults, bins: seq<Swap>, a: Answers) {
    var r := Run(j, faults, bins, a);
    r.phase == RolledBack ==> a.recovered && forall b :: b in bins ==> Same(j.fs, r.j.fs, b.live)
  }

  /**
   The one way a rollback can lie: a live binary that was missing at the start but has a
   stale backup, reachable because every earlier binary is complete.
   */
  ghost predicate StaleTrap(fs: Files, bins: seq<Swap>) {
    exists i :: 0 <= i < |bins| && Trap(fs, bins, i)
  }

  ghost predicate Trap(fs: Files, bins: seq<Swap>, i: nat)
    requires i < |bins|
  {
    && bins[i].live !in fs && bins[i].bak in fs
    && forall k :: 0 <= k < i ==> bins[k].live in fs && bins[k].staged in fs
  }

  lemma RollbackHonest(j: Journal, faults: Faults, bins: seq<Swap>, a: Answers)
    requires Distinct(bins) && !StaleTrap(j.fs, bins)
    ensures HonestRollback(j, faults, bins, a)
  {
    var r := Run(j, faults, bins, a);
    if r.phase == RolledBack {
      RecoveryIsExact(j, faults, bins, a);
      InstallBackedUp(j, faults, bins);
      UnrestoredZero(j.fs, r.j.fs, bins, 0, r.taken);
      AllLive(j.fs, r.j.fs, bins, r.taken);
      forall b | b in bins ensures Same(j.fs, r.j.fs, b.live) {
        var k :| 0 <= k < |bins| && bins[k] == b;
        assert k < r.taken ==> Restored(j.fs, r.j.fs, bins[k]);
      }
    }
  }

  /** Without the trap, whatever was fully restored was live at the start. */
  lemma {:induction false} AllLive(fs: Files, fs': Files, bins: seq<Swap>, n: nat)
    requires n <= |bins| && !StaleTrap(fs, bins)
    requires forall k :: 0 <= k < n ==> Restored(fs, fs', bins[k])
    requires forall k :: 0 <= k < n - 1 ==> bins[k].staged in fs
    ensures forall k :: 0 <= k < n ==> bins[k].live in fs
  {
    if n == 0 {
    } else {
      AllLive(fs, fs', bins, n - 1);
      assert Restored(fs, fs', bins[n - 1]);
      assert !Trap(fs, bins, n - 1);
    }
  }

  /** While nothing is refused and the staged files are there, the install loop advances. */
  lemma {:induction false} InstallReaches(fs0: Files, j: Journal, faults: Faults, bins: seq<Swap>, m: nat, i: nat)
    returns (j': Journal)
    requires Distinct(bins) && m <= i <= |bins| && Progress(fs0, j.fs, bins, m, false)
    requires forall t: nat :: j.at <= t < j.at + 2 * (i - m) ==> !faults(t)
    requires forall k :: m <= k < i ==> bins[k].staged in fs0
    ensures Install(j, faults, bins, m) == Install(j', faults, bins, i)
    ensures Progress(fs0, j'.fs, bins, i, false) && j'.at == j.at + 2 * (i - m)
    decreases i - m
  {
    hide Progress, Continues, Rename;
    j' := j;
    if m == i {
    } else {
      BackupMove(fs0, j, faults, bins, m);
      var (j1, _) := Move(j, faults, bins[m].live, bins[m].bak);
      StagedIntact(fs0, j1.fs, bins, m);
      SwapMove(fs0, j1, faults, bins, m);
      NotRefused(j, faults, bins[m].live, bins[m].bak);
      NotRefused(j1, faults, bins[m].staged, bins[m].live);
      j' := InstallReaches(fs0, Move(j1, faults, bins[m].staged, bins[m].live).0, faults, bins, m + 1, i);
    }
  }

  lemma StagedIntact(fs0: Files, fs: Files, bins: seq<Swap>, m: nat)
    requires m < |bins| && Progress(fs0, fs, bins, m, true) && bins[m].staged in fs0
    ensures bins[m].staged in fs
  {}

  lemma NotRefused(j: Journal, faults: Faults, src: string, dst: string)
    requires !faults(j.at)
    ensures var (j1, err) := Move(j, faults, src, dst);
            err != Some(Refused) && (src in j.fs ==> err.None?) && j1.at == j.at + 1
  {}

  /** With nothing refused and every staged file there, only the health answers decide. */
  lemma CleanRunCommits(j: Journal, faults: Faults, bins: seq<Swap>, a: Answers)
    requires Distinct(bins) && (forall t: nat :: !faults(t))
    requires forall b :: b in bins ==> b.staged in j.fs
    ensures Run(j, faults, bins, a).phase == Done <==> a.stopped && a.healthy
  {
    StartProgress(j.fs, bins);
    var j' := InstallReaches(j.fs, j, faults, bins, 0, |bins|);
  }

  /** With rename number 2i+1 the only one refused, the install stops at binary i. */
  lemma InstallStopsAt(j: Journal, faults: Faults, bins: seq<Swap>, i: nat)
    requires Distinct(bins) && i < |bins|
    requires forall t: nat :: faults(t) <==> t == j.at + 2 * i + 1
    requires forall k :: 0 <= k < i ==> bins[k].staged in j.fs
    ensures var r := Install(j, faults, bins, 0);
            r.end.NoInstall? && r.taken == i + 1 && r.j.at == j.at + 2 * i + 2
  {
    StartProgress(j.fs, bins);
    var j' := InstallReaches(j.fs, j, faults, bins, 0, i);
    NotRefused(j', faults, bins[i].live, bins[i].bak);
  }

  /** With nothing refused and every backup there, rollback restores everything. */
  lemma {:induction false} RollbackClean(fs0: Files, j: Journal, faults: Faults, bins: seq<Swap>, i: nat, n: nat)
    requires Distinct(bins) && i <= n <= |bins| && GoodState(fs0, j.fs, bins)
    requires forall t: nat :: t >= j.at ==> !faults(t)
    requires forall k :: i <= k < n ==> BackedUp(fs0, j.fs, bins[k]) && bins[k].bak in j.fs
    ensures Rollback(j, faults, bins[..n], i).1 == 0
    decreases n - i
  {
    hide GoodState, Rename, Restored, Retreat, Continues;
    if i == n {
    } else {
      RestoreMove(fs0, j, faults, bins, i);
      var (j1, _) := Move(j, faults, bins[i].bak, bins[i].live);
      NotRefused(j, faults, bins[i].bak, bins[i].live);
      BackupsKept(fs0, j.fs, j1.fs, bins, i, n);
      RetreatElsewhere(fs0, j.fs, j1.fs, bins, i);
      RollbackClean(fs0, j1, faults, bins, i + 1, n);
    }
  }

  lemma RetreatElsewhere(fs0: Files, fs: Files, fs': Files, bins: seq<Swap>, i: nat)
    requires Retreat(fs0, fs, fs', bins, i, i + 1)
    ensures forall k :: i < k < |bins| ==> Untouched(fs, fs', bins[k])
  {}

  /** In the trap, refusing one install rename makes the helper report a rollback that was none. */
  lemma TrapSprings(j: Journal, bins: seq<Swap>, i: nat) returns (faults: Faults, a: Answers)
    requires Distinct(bins) && i < |bins| && Trap(j.fs, bins, i)
    ensures !HonestRollback(j, faults, bins, a)
  {
    faults := (t: nat) => t == j.at + 2 * i + 1;
    a := Answers(true, true, true);
    StartProgress(j.fs, bins);
    InstallStopsAt(j, faults, bins, i);
    InstallBackedUp(j, faults, bins);
    var inst := Install(j, faults, bins, 0);
    forall k | 0 <= k < i + 1 ensures bins[k].bak in inst.j.fs {
      assert BackedUp(j.fs, inst.j.fs, bins[k]);
    }
    RollbackClean(j.fs, inst.j, faults, bins, 0, i + 1);
    RecoveryIsExact(j, faults, bins, a);
    var r := Run(j, faults, bins, a);
    UnrestoredZero(j.fs, r.j.fs, bins, 0, r.taken);
    assert Restored(j.fs, r.j.fs, bins[i]) && bins[i] in bins;
  }

  /**
   "rolled_back" can be trusted under every failure pattern exactly when the trap is absent;
   in particular whenever every live binary exists at the start.
   */
  lemma RollbackHonestExactly(j: Journal, bins: seq<Swap>)
    requires Distinct(bins)
    ensures (forall faults, a :: HonestRollback(j, faults, bins, a)) <==> !StaleTrap(j.fs, bins)
    ensures (forall b :: b in bins ==> b.live in j.fs) ==> !StaleTrap(j.fs, bins)
  {
    if StaleTrap(j.fs, bins) {
      var i :| 0 <= i < |bins| && Trap(j.fs, bins, i);
      assert bins[i] in bins;
      var faults, a := TrapSprings(j, bins, i);
    } else {
      forall faults, a ensures HonestRollback(j, faults, bins, a) {
        RollbackHonest(j, faults, bins, a);
      }
    }
  }
}
