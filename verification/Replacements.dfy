/**
 A config replacement amid the other calls of module Lifecycle: exactly when it is sure to
 keep one owner per address, and runs in which it does not.
 */
module Replacements {
  import opened Wrappers
  import opened Lifecycle

  /** Whatever the other callers do during a replacement by these addresses and after it, each address has one owner. */
  ghost predicate ReplacementKeeps(s: State, ips: seq<string>)
    requires s.replacing.None?
  {
    forall steps :: RunKeeps(Take(s, Begin(ips)), steps)
  }

  ghost predicate RunKeeps(s: State, steps: seq<Step>) {
    NoBegin(steps) && AllEnabled(s, steps) ==> OneOwner(Play(s, steps))
  }

  /** The caller has passed its check for the address and not yet tried to add it. */
  ghost predicate Waits(s: State, t: nat, ip: string) { t in s.callers && s.callers[t] == Checked(ip) }

  /**
   No unfinished call can get hold of any of the addresses: they are distinct, none is held,
   and one that a caller has passed its check for is on the interface and not about to be
   dropped, so that adding it will be refused.
   */
  ghost predicate OutOfReach(s: State, ips: seq<string>, leaving: seq<string>) {
    && Distinct(ips)
    && forall t, ip :: ip in ips ==>
         !Holds(s, t, ip) && (Waits(s, t, ip) ==> ip in s.addrs && ip !in leaving)
  }

  /** A replacement under way whose addresses are out of reach, those set up so far being present. */
  ghost predicate Clear(s: State) {
    s.replacing.Some? ==>
      var r := s.replacing.value;
      && OutOfReach(s, r.ips, r.drops) && r.done <= |r.ips| && (r.drops != [] ==> r.done == 0)
      && forall k :: 0 <= k < r.done ==> r.ips[k] in s.addrs
  }

  lemma ClearKept(s: State, step: Step)
    requires OneOwner(s) && Clear(s) && Enabled(s, step) && !step.Begin?
    ensures Clear(Take(s, step))
    ensures step.Finish? ==> Free(s, s.replacing.value.ips)
  {
    if s.replacing.Some? {
      if step.DropOld? {
        ClearDropOld(s, step);
      } else if step.Reserve? {
        ClearReserve(s, step);
      } else if step.Drop? {
        ClearDrop(s, step);
      } else {
        ClearOther(s, step);
      }
    }
  }

  lemma ClearReserve(s: State, step: Step)
    requires Clear(s) && Enabled(s, step) && step.Reserve? && s.replacing.Some?
    ensures Clear(Take(s, step))
  {
    hide Started, Overwritten, IndexOf, Without;
    var s', mine := Take(s, step), s.callers[step.t].ip;
    assert Waits(s, step.t, mine);
    forall u, ip ensures Waits(s', u, ip) ==> Waits(s, u, ip) {}
    forall u, ip ensures Holds(s', u, ip) ==> Holds(s, u, ip) || (ip == mine && mine !in s.addrs) {}
  }

  lemma ClearDrop(s: State, step: Step)
    requires Clear(s) && Enabled(s, step) && step.Drop? && s.replacing.Some?
    ensures Clear(Take(s, step))
  {
    hide Started, Overwritten, IndexOf, Without;
    var s', mine := Take(s, step), s.callers[step.t].ip;
    assert Holds(s, step.t, mine);
    forall u, ip ensures Waits(s', u, ip) ==> Waits(s, u, ip) {}
    forall u, ip ensures Holds(s', u, ip) ==> Holds(s, u, ip) {}
  }

  lemma ClearOther(s: State, step: Step)
    requires Clear(s) && Enabled(s, step) && s.replacing.Some? && (step.Stop? || step.AddNew? || step.Finish?)
    ensures Clear(Take(s, step))
    ensures step.Finish? ==> Free(s, s.replacing.value.ips)
  {
    hide Started, Overwritten, IndexOf, Without;
    var s' := Take(s, step);
    forall u, ip ensures Waits(s', u, ip) ==> Waits(s, u, ip) {}
    forall u, ip ensures Holds(s', u, ip) ==> Holds(s, u, ip) {}
  }

  lemma ClearDropOld(s: State, step: Step)
    requires Clear(s) && Enabled(s, step) && step.DropOld?
    ensures Clear(Take(s, step))
  {
    var s', drops := Take(s, step), s.replacing.value.drops;
    forall ip ensures ip in drops <==> ip == drops[0] || ip in drops[1..] { assert drops == [drops[0]] + drops[1..]; }
    forall u, ip ensures Waits(s', u, ip) <==> Waits(s, u, ip) {}
    forall u, ip ensures Holds(s', u, ip) <==> Holds(s, u, ip) {}
  }

  lemma {:induction false} ClearRunKeeps(s: State, steps: seq<Step>)
    requires OneOwner(s) && Clear(s)
    ensures RunKeeps(s, steps)
    decreases |steps|
  {
    hide OneOwner, Clear, Take, Enabled, Free;
    if steps == [] {
    } else if NoBegin(steps) && AllEnabled(s, steps) {
      assert !steps[0].Begin?;
      ClearKept(s, steps[0]);
      if steps[0].Finish? { FinishKeepsOneOwnerExactly(s); } else { OneOwnerKept(s, steps[0]); }
      ClearRunKeeps(Take(s, steps[0]), steps[1..]);
      assert NoBegin(steps[1..]);
    }
  }

  /** The replacement drops every old address. */
  lemma {:induction false} DropAll(s: State) returns (steps: seq<Step>)
    requires s.replacing.Some?
    ensures NoBegin(steps) && AllEnabled(s, steps)
    ensures var r := s.replacing.value;
            Play(s, steps) == s.(addrs := s.addrs - SetOf(r.drops), replacing := Some(r.(drops := [])))
    decreases |s.replacing.value.drops|
  {
    hide AllEnabled, Play;
    var r := s.replacing.value;
    if r.drops == [] {
      Nothing(s);
      steps := [];
      assert s.addrs - SetOf(r.drops) == s.addrs && Some(r.(drops := [])) == s.replacing;
    } else {
      var s1 := Take(s, DropOld(true));
      steps := DropAll(s1);
      steps := Prepend(s, DropOld(true), steps);
      assert r.drops == [r.drops[0]] + r.drops[1..];
      assert s.addrs - SetOf(r.drops) == s1.addrs - SetOf(r.drops[1..]);
    }
  }

  /** It sets up every new one. */
  lemma {:induction false} AddAll(s: State) returns (steps: seq<Step>)
    requires s.replacing.Some? && s.replacing.value.drops == []
    requires s.replacing.value.done <= |s.replacing.value.ips|
    ensures NoBegin(steps) && AllEnabled(s, steps)
    ensures var r := s.replacing.value;
            Play(s, steps) == s.(addrs := s.addrs + SetOf(r.ips[r.done..]), replacing := Some(r.(done := |r.ips|)))
    decreases |s.replacing.value.ips| - s.replacing.value.done
  {
    hide AllEnabled, Play;
    var r := s.replacing.value;
    if r.done == |r.ips| {
      Nothing(s);
      steps := [];
      assert s.addrs + SetOf(r.ips[r.done..]) == s.addrs && Some(r.(done := |r.ips|)) == s.replacing;
    } else {
      var s1 := Take(s, AddNew(true));
      steps := AddAll(s1);
      steps := Prepend(s, AddNew(true), steps);
      assert r.ips[r.done..] == [r.ips[r.done]] + r.ips[r.done + 1..];
      assert s.addrs + SetOf(r.ips[r.done..]) == s1.addrs + SetOf(r.ips[r.done + 1..]);
    }
  }

  /** Left alone, it lists exactly its addresses, and every other caller stands where it stood. */
  lemma GoThrough(s: State) returns (steps: seq<Step>)
    requires s.replacing.Some? && s.replacing.value.drops == [] && s.replacing.value.done == 0
    ensures NoBegin(steps) && AllEnabled(s, steps)
    ensures Play(s, steps).listed == s.replacing.value.ips && Play(s, steps).callers == s.callers
  {
    hide AllEnabled, Play, Started, Overwritten;
    var first := AddAll(s);
    var s1 := Play(s, first);
    Nothing(Take(s1, Finish));
    var last := Prepend(s1, Finish, []);
    Concatenate(s, first, last);
    steps := first + last;
  }

  lemma {:induction false} Concatenate(s: State, first: seq<Step>, second: seq<Step>)
    requires AllEnabled(s, first) && AllEnabled(Play(s, first), second)
    ensures AllEnabled(s, first + second)
    ensures Play(s, first + second) == Play(Play(s, first), second)
    decreases |first|
  {
    hide Take, Enabled;
    if first == [] {
      assert first + second == second;
    } else {
      assert (first + second)[1..] == first[1..] + second;
      Concatenate(Take(s, first[0]), first[1..], second);
    }
  }

  /** Listing an address that is held, or one twice, is what one owner forbids. */
  lemma Conflict(s: State, t: nat, ip: string)
    requires Holds(s, t, ip) && ip in s.listed
    ensures !OneOwner(s)
  {}

  /** A caller that has only passed its check gets its address in the middle of a replacement. */
  lemma WaiterGetsIn(s: State, ips: seq<string>, t: nat, ip: string) returns (steps: seq<Step>)
    requires s.replacing.None? && ip in ips && Waits(s, t, ip) && (ip !in s.addrs || ip in s.listed)
    ensures NoBegin(steps) && AllEnabled(Take(s, Begin(ips)), steps)
    ensures var s' := Play(Take(s, Begin(ips)), steps);
            s'.listed == ips && Holds(s', t, ip)
  {
    hide AllEnabled, Play;
    var s1 := Take(s, Begin(ips));
    var first := DropAll(s1);
    var s2 := Play(s1, first);
    assert ip !in s2.addrs;
    var s3 := Take(s2, Reserve(t, true));
    var last := GoThrough(s3);
    last := Prepend(s2, Reserve(t, true), last);
    Concatenate(s1, first, last);
    steps := first + last;
  }

  /** Left alone, a replacement lists its addresses over whatever is held. */
  lemma LeftAlone(s: State, ips: seq<string>) returns (steps: seq<Step>)
    requires s.replacing.None?
    ensures NoBegin(steps) && AllEnabled(Take(s, Begin(ips)), steps)
    ensures var s' := Play(Take(s, Begin(ips)), steps);
            s'.listed == ips && s'.callers == s.callers
  {
    hide AllEnabled, Play;
    var s1 := Take(s, Begin(ips));
    var first := DropAll(s1);
    var last := GoThrough(Play(s1, first));
    Concatenate(s1, first, last);
    steps := first + last;
  }

  /**
   A replacement is sure to keep one owner per address, however the other callers' unlocked
   halves fall in between, exactly if when it takes the lock its addresses are out of reach of
   every unfinished call: distinct, not held, and none that a caller has passed its check for,
   unless it is on the interface without being listed.
   */
  lemma ReplacementKeepsExactly(s: State, ips: seq<string>)
    requires OneOwner(s) && s.replacing.None?
    ensures ReplacementKeeps(s, ips) <==> OutOfReach(s, ips, s.listed)
  {
    hide OneOwner, AllEnabled, Play, Distinct;
    var s1 := Take(s, Begin(ips));
    if OutOfReach(s, ips, s.listed) {
      OneOwnerKept(s, Begin(ips));
      BeginClear(s, ips);
      forall steps ensures RunKeeps(s1, steps) { ClearRunKeeps(s1, steps); }
    } else if t, ip :| ip in ips && Waits(s, t, ip) && (ip !in s.addrs || ip in s.listed) {
      var steps := WaiterGetsIn(s, ips, t, ip);
      Conflict(Play(s1, steps), t, ip);
      assert !RunKeeps(s1, steps);
    } else {
      var steps := LeftAlone(s, ips);
      HeldOrTwice(s, Play(s1, steps), ips);
      assert !RunKeeps(s1, steps);
    }
  }

  lemma BeginClear(s: State, ips: seq<string>)
    requires s.replacing.None? && OutOfReach(s, ips, s.listed)
    ensures Clear(Take(s, Begin(ips)))
  {
    var s1 := Take(s, Begin(ips));
    forall u, ip ensures Waits(s1, u, ip) <==> Waits(s, u, ip) {}
    forall u, ip ensures Holds(s1, u, ip) <==> Holds(s, u, ip) {}
  }

  lemma HeldOrTwice(s: State, s': State, ips: seq<string>)
    requires s'.callers == s.callers && s'.listed == ips
    requires !Distinct(ips) || exists t, ip :: ip in ips && Holds(s, t, ip)
    ensures !OneOwner(s')
  {
    if Distinct(ips) {
      var t, ip :| ip in ips && Holds(s, t, ip);
      assert Holds(s', t, ip);
    }
  }

  /**
   So a call that holds nothing can do it: a device is listed while another call for its
   address has only passed its check, and a replacement keeps the device. The call adds the
   address just after the replacement drops it, the replacement skips it as present, and the
   call's commit lists it twice and loses a server.
   */
  lemma CheckedCanDuplicate(ip: string) returns (steps: seq<Step>)
    ensures var s := State([ip], map[ip := 0], 1, {}, false, {}, {ip}, map[0 := Checked(ip)], None);
            && OneOwner(s) && Accounted(s) && (forall t, x :: !Holds(s, t, x)) && AllEnabled(s, steps)
            && Play(s, steps).listed == [ip, ip] && Play(s, steps).lost == {1}
  {
    var s := State([ip], map[ip := 0], 1, {}, false, {}, {ip}, map[0 := Checked(ip)], None);
    CheckedStart(ip);
    var s1 := s.(listed := [], handles := map[], closed := {0}, replacing := Some(Replacement([ip], [ip], 0)));
    BeginOne(s, ip);
    var s2 := s1.(addrs := {}, replacing := Some(Replacement([], [ip], 0)));
    DropOne(s1, ip);
    var s3 := s2.(addrs := {ip}, callers := map[0 := Reserved(ip)]);
    ReserveOne(s2, ip);
    hide AllEnabled, Play, Take, Enabled, Accounted, OneOwner;
    steps := ListOver(s3, ip);
    steps := Prepend(s2, Reserve(0, true), steps);
    steps := Prepend(s1, DropOld(true), steps);
    steps := Prepend(s, Begin([ip]), steps);
  }

  lemma CheckedStart(ip: string)
    ensures var s := State([ip], map[ip := 0], 1, {}, false, {}, {ip}, map[0 := Checked(ip)], None);
            OneOwner(s) && Accounted(s) && forall t, x :: !Holds(s, t, x)
  {
    var s := State([ip], map[ip := 0], 1, {}, false, {}, {ip}, map[0 := Checked(ip)], None);
    assert forall t, h :: !StopsHandle(s, t, h);
    assert forall t, x :: !Holds(s, t, x);
    assert s.handles[ip] == 0;
  }

  lemma BeginOne(s: State, ip: string)
    requires s.listed == [ip] && s.handles == map[ip := 0] && s.closed == {} && !s.closedTwice && s.replacing.None?
    ensures Enabled(s, Begin([ip]))
    ensures Take(s, Begin([ip]))
            == s.(listed := [], handles := map[], closed := {0}, replacing := Some(Replacement([ip], [ip], 0)))
  {
    assert s.handles[ip] == 0 && s.handles.Values == {0};
  }

  lemma DropOne(s: State, ip: string)
    requires s.replacing == Some(Replacement([ip], [ip], 0)) && s.addrs == {ip}
    ensures Enabled(s, DropOld(true))
    ensures Take(s, DropOld(true)) == s.(addrs := {}, replacing := Some(Replacement([], [ip], 0)))
  {
    assert [ip][1..] == [] && s.addrs - {ip} == {};
  }

  lemma ReserveOne(s: State, ip: string)
    requires s.callers == map[0 := Checked(ip)] && s.addrs == {}
    ensures Enabled(s, Reserve(0, true))
    ensures Take(s, Reserve(0, true)) == s.(addrs := {ip}, callers := map[0 := Reserved(ip)])
  {
    assert s.callers[0 := Reserved(ip)] == map[0 := Reserved(ip)];
    assert s.addrs + {ip} == {ip};
  }

  /** A replacement past its drops, with its one address reserved by a call: both list it. */
  lemma ListOver(s: State, ip: string) returns (steps: seq<Step>)
    requires s.replacing == Some(Replacement([], [ip], 0)) && s.addrs == {ip} && s.lost == {}
    requires s.listed == [] && s.handles == map[] && s.callers == map[0 := Reserved(ip)]
    ensures AllEnabled(s, steps)
    ensures Play(s, steps).listed == [ip, ip] && Play(s, steps).lost == {s.next}
  {
    var s1 := s.(replacing := Some(Replacement([], [ip], 1)));
    assert Enabled(s, AddNew(true)) && Take(s, AddNew(true)) == s1 by { assert s.addrs + {ip} == s.addrs; }
    OneStart(ip, s.next);
    var s2 := s.(listed := [ip], handles := map[ip := s.next], next := s.next + 1, replacing := None);
    assert Enabled(s1, Finish) && Take(s1, Finish) == s2;
    CommitAfterwards(s2, ip, s.next);
    hide Take, AllEnabled, Play;
    Nothing(Take(s2, Commit(0)));
    steps := Prepend(s2, Commit(0), []);
    steps := Prepend(s1, Finish, steps);
    steps := Prepend(s, AddNew(true), steps);
  }

  lemma OneStart(ip: string, first: nat)
    ensures Started([ip], first) == map[ip := first] && Overwritten([ip], first) == {}
  {
    assert [ip][..0] == [];
    OverwrittenExactly([ip], first);
  }

  lemma CommitAfterwards(s: State, ip: string, h: nat)
    requires s.listed == [ip] && s.handles == map[ip := h] && s.lost == {} && s.replacing.None?
    requires s.callers == map[0 := Reserved(ip)]
    ensures Enabled(s, Commit(0)) && Take(s, Commit(0)).listed == [ip, ip] && Take(s, Commit(0)).lost == {h}
  {
    var s' := Take(s, Commit(0));
    assert s.callers[0].ip == ip && s.handles[ip] == h;
    assert s'.listed == [ip] + [ip] && s'.lost == {} + {h};
  }

  /** A replacement between an addition's reservation and its commit does it too, from the start. */
  lemma ReplaceCanDuplicate(ip: string) returns (steps: seq<Step>)
    ensures var s := State([], map[], 0, {}, false, {}, {}, map[], None);
            && Init(s) && AllEnabled(s, steps)
            && Play(s, steps).listed == [ip, ip] && Play(s, steps).lost == {0}
  {
    var s := State([], map[], 0, {}, false, {}, {}, map[], None);
    var s1 := s.(callers := map[0 := Checked(ip)]);
    assert Enabled(s, Check(0, ip)) && Take(s, Check(0, ip)) == s1;
    ReserveOne(s1, ip);
    var s2 := s1.(addrs := {ip}, callers := map[0 := Reserved(ip)]);
    var s3 := s2.(replacing := Some(Replacement([], [ip], 0)));
    assert Enabled(s2, Begin([ip])) && Take(s2, Begin([ip])) == s3 by { assert s2.closed + s2.handles.Values == {}; }
    hide AllEnabled, Play, Take, Enabled;
    steps := ListOver(s3, ip);
    steps := Prepend(s2, Begin([ip]), steps);
    steps := Prepend(s1, Reserve(0, true), steps);
    steps := Prepend(s, Check(0, ip), steps);
  }
}
