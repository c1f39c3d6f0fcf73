/**
 What is left on the interface by calls that interleave as in module Lifecycle: nothing that
 no device, caller or replacement answers for.
 */
module Leftovers {
  import opened Wrappers
  import opened Lifecycle

  /**
   Adding a device and removing it again gives everything back; in between it is listed,
   served and on the interface, and nobody else gets to add it.
   */
  lemma AddThenRemove(s: State, t: nat, ip: string)
    requires s.replacing.None? && t !in s.callers && ip !in s.listed && ip !in s.addrs && ip !in s.handles
    ensures var add, remove := [Check(t, ip), Reserve(t, true), Commit(t)], [Unlist(t, ip), Stop(t), Drop(t, true)];
            && AllEnabled(s, add) && AllEnabled(Play(s, add), remove)
            && Play(s, add) == s.(listed := s.listed + [ip], handles := s.handles[ip := s.next], next := s.next + 1,
                                  addrs := s.addrs + {ip})
            && (forall u: nat :: u !in s.callers ==> Take(Play(s, add), Check(u, ip)) == Play(s, add))
            && Play(Play(s, add), remove)
               == s.(next := s.next + 1, closed := s.closed + {s.next},
                     closedTwice := s.closedTwice || s.next in s.closed)
  {
    hide Take, Enabled;
    var s3 := s.(listed := s.listed + [ip], handles := s.handles[ip := s.next], next := s.next + 1,
                 addrs := s.addrs + {ip});
    var s6 := s.(next := s.next + 1, closed := s.closed + {s.next}, closedTwice := s.closedTwice || s.next in s.closed);
    AddSteps(s, t, ip);
    RemoveSteps(s3, s6, t, ip);
    TurnedAway(s3, ip);
    var add, remove := [Check(t, ip), Reserve(t, true), Commit(t)], [Unlist(t, ip), Stop(t), Drop(t, true)];
    ThreeSteps(s, Check(t, ip), Reserve(t, true), Commit(t));
    ThreeSteps(s3, Unlist(t, ip), Stop(t), Drop(t, true));
  }

  lemma TurnedAway(s: State, ip: string)
    requires s.replacing.None? && ip in s.listed
    ensures forall u: nat :: u !in s.callers ==> Enabled(s, Check(u, ip)) && Take(s, Check(u, ip)) == s
  {}

  lemma AddSteps(s: State, t: nat, ip: string)
    requires s.replacing.None? && t !in s.callers && ip !in s.listed && ip !in s.addrs && ip !in s.handles
    ensures Enabled(s, Check(t, ip))
    ensures var s1 := Take(s, Check(t, ip));
            && Enabled(s1, Reserve(t, true))
            && var s2 := Take(s1, Reserve(t, true));
            && Enabled(s2, Commit(t))
            && Take(s2, Commit(t))
               == s.(listed := s.listed + [ip], handles := s.handles[ip := s.next], next := s.next + 1,
                     addrs := s.addrs + {ip})
  {
    assert s.callers[t := Reserved(ip)] - {t} == s.callers && s.lost + {} == s.lost;
    assert s.callers[t := Checked(ip)][t := Reserved(ip)] == s.callers[t := Reserved(ip)];
  }

  lemma RemoveSteps(s: State, s': State, t: nat, ip: string)
    requires s.replacing.None? && t !in s.callers && s.listed == s'.listed + [ip] && ip !in s'.listed
    requires ip in s.handles && s'.handles == s.handles - {ip} && ip in s.addrs && s'.addrs == s.addrs - {ip}
    requires s' == Close(s, s.handles[ip]).(listed := s'.listed, handles := s'.handles, addrs := s'.addrs)
    ensures Enabled(s, Unlist(t, ip))
    ensures var s1 := Take(s, Unlist(t, ip));
            && Enabled(s1, Stop(t))
            && var s2 := Take(s1, Stop(t));
            && Enabled(s2, Drop(t, true)) && Take(s2, Drop(t, true)) == s'
  {
    LastIndex(s'.listed, ip);
    assert Without(s.listed, |s.listed| - 1) == s'.listed;
    var c := Stopping(ip, Some(s.handles[ip]));
    assert s.callers[t := c][t := Dropping(ip)] == s.callers[t := Dropping(ip)];
    assert s.callers[t := Dropping(ip)] - {t} == s.callers;
  }

  lemma {:induction false} LastIndex(l: seq<string>, ip: string)
    requires ip !in l
    ensures IndexOf(l + [ip], ip) == |l|
  {
    if l == [] {
    } else {
      assert (l + [ip])[1..] == l[1..] + [ip];
      LastIndex(l[1..], ip);
    }
  }

  lemma ThreeSteps(s: State, a: Step, b: Step, c: Step)
    requires Enabled(s, a) && Enabled(Take(s, a), b) && Enabled(Take(Take(s, a), b), c)
    ensures AllEnabled(s, [a, b, c]) && Play(s, [a, b, c]) == Take(Take(Take(s, a), b), c)
  {
    hide Take, Enabled, AllEnabled, Play;
    var s1 := Take(s, a);
    var s2 := Take(s1, b);
    Nothing(Take(s2, c));
    var steps := Prepend(s2, c, []);
    steps := Prepend(s1, b, steps);
    steps := Prepend(s, a, steps);
    assert steps == [a, b, c];
  }

  /** The address has a device, a caller or a replacement to answer for it. */
  ghost predicate Belongs(s: State, ip: string) {
    || ip in s.listed
    || (exists t :: Holds(s, t, ip))
    || (s.replacing.Some? && (ip in s.replacing.value.drops || SetUp(s.replacing.value, ip)))
  }

  ghost predicate SetUp(r: Replacement, ip: string) { exists k :: 0 <= k < r.done && k < |r.ips| && r.ips[k] == ip }

  /** No address on the interface is a leftover: each belongs to someone, or was there before. */
  ghost predicate NoLeftover(s: State, strays: set<string>) {
    (s.replacing.Some? ==> s.listed == []) && forall ip :: ip in s.addrs ==> ip in strays || Belongs(s, ip)
  }

  /** The host neither refuses to drop an address nor fails to set one up for a replacement. */
  predicate Works(step: Step) {
    && (step.Drop? || step.DropOld? ==> step.works)
    && (step.AddNew? ==> step.works)
  }

  /** Whatever the interleaving, replacements included, working steps leave no address behind. */
  lemma NoLeftoverKept(s: State, step: Step, strays: set<string>)
    requires NoLeftover(s, strays) && Enabled(s, step) && Works(step)
    ensures NoLeftover(Take(s, step), strays)
  {
    hide NoLeftover, Without, IndexOf, Started, Overwritten;
    var s' := Take(s, step);
    assert s.replacing.Some? ==> s.listed == [] by { ReplacingListsNone(s, strays); }
    forall ip | ip in s'.addrs && ip !in strays ensures Belongs(s', ip) {
      if ip in s.addrs { assert Belongs(s, ip) by { NoLeftoverAt(s, strays, ip); } }
      BelongsStays(s, step, ip);
    }
    NoLeftoverIf(s', strays);
  }

  lemma NoLeftoverAt(s: State, strays: set<string>, ip: string)
    requires NoLeftover(s, strays) && ip in s.addrs && ip !in strays
    ensures Belongs(s, ip)
  {}

  lemma NoLeftoverIf(s: State, strays: set<string>)
    requires s.replacing.Some? ==> s.listed == []
    requires forall ip :: ip in s.addrs && ip !in strays ==> Belongs(s, ip)
    ensures NoLeftover(s, strays)
  {}

  lemma ReplacingListsNone(s: State, strays: set<string>)
    requires NoLeftover(s, strays)
    ensures s.replacing.Some? ==> s.listed == []
  {}

  lemma BelongsStays(s: State, step: Step, ip: string)
    requires Enabled(s, step) && Works(step) && ip in Take(s, step).addrs && (s.replacing.Some? ==> s.listed == [])
    requires ip in s.addrs ==> Belongs(s, ip)
    ensures Belongs(Take(s, step), ip)
  {
    hide Started, Overwritten;
    if (step.Begin? || step.DropOld? || step.AddNew? || step.Finish?) {
      ReplacementBelongs(s, step, ip);
    } else if step.Reserve? && ip !in s.addrs {
      assert Holds(Take(s, step), step.t, ip);
    } else if ip in s.listed {
      if step.Unlist? { UnlistBelongs(s, step, ip); }
    } else if t :| Holds(s, t, ip) {
      if step.Commit? && step.t == t {
        assert Take(s, step).listed[|s.listed|] == ip;
      } else {
        assert Holds(Take(s, step), t, ip);
      }
    }
  }

  lemma UnlistBelongs(s: State, step: Step, ip: string)
    requires Enabled(s, step) && step.Unlist? && ip in s.listed
    ensures Belongs(Take(s, step), ip)
  {
    if step.ip in s.listed {
      if ip == step.ip {
        assert Holds(Take(s, step), step.t, ip);
      } else {
        WithoutKeeps(s.listed, IndexOf(s.listed, step.ip));
        assert ip in SetOf(s.listed) - {step.ip};
      }
    }
  }

  lemma ReplacementBelongs(s: State, step: Step, ip: string)
    requires Enabled(s, step) && Works(step) && (step.Begin? || step.DropOld? || step.AddNew? || step.Finish?)
    requires ip in Take(s, step).addrs && (s.replacing.Some? ==> s.listed == []) && (ip in s.addrs ==> Belongs(s, ip))
    ensures Belongs(Take(s, step), ip)
  {
    hide Started, Overwritten;
    var s' := Take(s, step);
    forall t ensures Holds(s', t, ip) <==> Holds(s, t, ip) {}
    if step.DropOld? {
      var drops := s.replacing.value.drops;
      assert drops == [drops[0]] + drops[1..];
    } else if step.AddNew? {
      var r := s.replacing.value;
      if ip == r.ips[r.done] { assert s'.replacing.value.ips[r.done] == ip; }
      assert SetUp(r, ip) ==> SetUp(s'.replacing.value, ip);
    }
  }

  ghost predicate AllWork(steps: seq<Step>) { forall i :: 0 <= i < |steps| ==> Works(steps[i]) }

  lemma {:induction false} NoLeftoverAlongRuns(s: State, steps: seq<Step>, strays: set<string>)
    requires NoLeftover(s, strays) && AllEnabled(s, steps) && AllWork(steps)
    ensures NoLeftover(Play(s, steps), strays)
    decreases |steps|
  {
    hide NoLeftover, Take, Enabled, Works;
    if steps == [] {
    } else {
      assert Works(steps[0]) && AllWork(steps[1..]);
      NoLeftoverKept(s, steps[0], strays);
      NoLeftoverAlongRuns(Take(s, steps[0]), steps[1..], strays);
    }
  }

  /**
   Once every call of such a run has returned, the addresses on the interface are those of
   listed devices and ones that were there, unlisted, from the start.
   */
  lemma OnlyListedRemain(s: State, steps: seq<Step>)
    requires Init(s) && AllEnabled(s, steps) && AllWork(steps)
    ensures var s' := Play(s, steps);
            s'.callers == map[] && s'.replacing.None? ==>
              s'.addrs <= SetOf(s'.listed) + (s.addrs - SetOf(s.listed))
  {
    hide AllEnabled, Play, AllWork, Started;
    var strays, s' := s.addrs - SetOf(s.listed), Play(s, steps);
    NoLeftoverIf(s, strays);
    NoLeftoverAlongRuns(s, steps, strays);
    if s'.callers == map[] && s'.replacing.None? {
      forall ip | ip in s'.addrs ensures ip in SetOf(s'.listed) + strays {
        if ip !in strays { NoLeftoverAt(s', strays, ip); }
      }
    }
  }

  /** Addresses nobody manages. */
  ghost predicate Unmanaged(s: State, strays: set<string>) {
    && strays <= s.addrs && (forall ip :: ip in s.listed ==> ip !in strays)
    && forall t, ip :: Holds(s, t, ip) ==> ip !in strays
  }

  lemma UnmanagedKept(s: State, step: Step, strays: set<string>)
    requires Unmanaged(s, strays) && Enabled(s, step) && s.replacing.None? && !step.Begin?
    ensures Unmanaged(Take(s, step), strays)
  {
    hide IndexOf;
    var s' := Take(s, step);
    if step.Unlist? && step.ip in s.listed {
      var i := IndexOf(s.listed, step.ip);
      forall ip | ip in s'.listed ensures ip in s.listed {
        var k :| 0 <= k < |s'.listed| && s'.listed[k] == ip;
        assert s.listed[if k < i then k else k + 1] == ip;
      }
    }
    if step.Drop? || step.Commit? { assert Holds(s, step.t, s.callers[step.t].ip); }
    forall t, ip | Holds(s', t, ip) ensures ip !in strays {
      if !Holds(s, t, ip) { assert step.Unlist? || step.Reserve?; }
    }
  }

  /**
   Additions and removals, in any interleaving with every drop working, balance exactly: when
   all have returned, the interface has the listed addresses and what was there before.
   */
  lemma {:induction false} InterfaceBalances(s: State, steps: seq<Step>, strays: set<string>)
    requires OneOwner(s) && NoLeftover(s, strays) && Unmanaged(s, strays) && AllEnabled(s, steps) && AllWork(steps)
    requires s.replacing.None? && NoBegin(steps)
    ensures var s' := Play(s, steps);
            s'.callers == map[] ==> s'.addrs == SetOf(s'.listed) + strays
    decreases |steps|
  {
    hide Take, Enabled, NoLeftover, Works, Unmanaged, OneOwner;
    if steps == [] {
      if s.callers == map[] { Balanced(s, strays); }
    } else {
      var step := steps[0];
      assert !step.Begin? && Works(step) && AllWork(steps[1..]) && NoBegin(steps[1..]);
      StaysUnlocked(s, step);
      OneOwnerKept(s, step);
      NoLeftoverKept(s, step, strays);
      UnmanagedKept(s, step, strays);
      InterfaceBalances(Take(s, step), steps[1..], strays);
    }
  }

  lemma Balanced(s: State, strays: set<string>)
    requires OneOwner(s) && NoLeftover(s, strays) && Unmanaged(s, strays) && s.replacing.None? && s.callers == map[]
    ensures s.addrs == SetOf(s.listed) + strays
  {
    assert forall t, ip :: !Holds(s, t, ip);
  }
}
