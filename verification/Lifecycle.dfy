/**
 Adding, removing and replacing devices as they interleave. AddDevice checks under the
 lock, adds its address outside it, and commits under the lock again; RemoveDevice unlists
 under the lock and stops the servers and drops the address outside it. A config
 replacement holds the lock from its first step to its last, but drops and adds addresses
 one at a time, and so do the others' unlocked halves meanwhile. Any number of callers may
 be anywhere in between.
 */
module Lifecycle {
  import opened Wrappers

  /** Where a caller stands between its locked sections. A server handle is a number. */
  datatype Caller =
    | Checked(ip: string)                          // AddDevice: no duplicate seen
    | Reserved(ip: string)                         // AddDevice: address added, not listed yet
    | Stopping(ip: string, handle: Option<nat>)    // RemoveDevice: unlisted, servers running
    | Dropping(ip: string)                         // RemoveDevice: servers stopped

  /** A replacement holding the lock: addresses still to drop, the new ones, and how many are set up. */
  datatype Replacement = Replacement(drops: seq<string>, ips: seq<string>, done: nat)

  datatype State = State(
    listed: seq<string>,           // the devices' addresses, in order
    handles: map<string, nat>,
    next: nat,                     // handles 0..next have been started
    closed: set<nat>,              // handles whose stop channel has been closed
    closedTwice: bool,
    lost: set<nat>,                // running, but overwritten in the map
    addrs: set<string>,            // addresses on loopback
    callers: map<nat, Caller>,
    replacing: Option<Replacement>)

  datatype Step =
    | Check(t: nat, ip: string)
    | Reserve(t: nat, works: bool)
    | Commit(t: nat)
    | Unlist(t: nat, ip: string)
    | Stop(t: nat)
    | Drop(t: nat, works: bool)
    | Begin(ips: seq<string>)      // a replacement takes the lock and stops every server
    | DropOld(works: bool)
    | AddNew(works: bool)
    | Finish                       // it lists and starts the new devices and unlocks

  ghost predicate Enabled(s: State, step: Step) {
    match step
    case Check(t, _) => s.replacing.None? && t !in s.callers
    case Unlist(t, _) => s.replacing.None? && t !in s.callers
    case Commit(t) => s.replacing.None? && t in s.callers && s.callers[t].Reserved?
    case Reserve(t, _) => t in s.callers && s.callers[t].Checked?
    case Stop(t) => t in s.callers && s.callers[t].Stopping?
    case Drop(t, _) => t in s.callers && s.callers[t].Dropping?
    case Begin(_) => s.replacing.None?
    case DropOld(_) => s.replacing.Some? && s.replacing.value.drops != []
    case AddNew(_) =>
      s.replacing.Some? && s.replacing.value.drops == [] && s.replacing.value.done < |s.replacing.value.ips|
    case Finish =>
      s.replacing.Some? && s.replacing.value.drops == [] && s.replacing.value.done == |s.replacing.value.ips|
  }

  function IndexOf(l: seq<string>, ip: string): (i: nat)
    ensures i <= |l| && (i < |l| ==> l[i] == ip) && (i == |l| ==> ip !in l)
  {
    if l == [] then 0 else if l[0] == ip then 0 else 1 + IndexOf(l[1..], ip)
  }

  /** The handle map after starting servers for each address in turn, numbered from `first`. */
  function Started(ips: seq<string>, first: nat): map<string, nat> {
    if ips == [] then map[] else Started(ips[..|ips| - 1], first)[ips[|ips| - 1] := first + |ips| - 1]
  }

  ghost function Overwritten(ips: seq<string>, first: nat): set<nat> {
    set h: nat | first <= h < first + |ips| && h !in Started(ips, first).Values
  }

  ghost predicate Injective(m: map<string, nat>) {
    forall a, b :: a in m && b in m && m[a] == m[b] ==> a == b
  }

  /** Closing a stop channel; closing one again is what must not happen. */
  function Close(s: State, h: nat): State {
    s.(closed := s.closed + {h}, closedTwice := s.closedTwice || h in s.closed)
  }

  function SetOf(l: seq<string>): set<string> { set x | x in l }

  ghost function Take(s: State, step: Step): State
    requires Enabled(s, step)
  {
    match step
    case Check(t, ip) =>
      if ip in s.listed then s else s.(callers := s.callers[t := Checked(ip)])
    case Reserve(t, works) =>
      var ip := s.callers[t].ip;
      // the kernel refuses an address that is already there
      if ip in s.addrs || !works then s.(callers := s.callers - {t})
      else s.(addrs := s.addrs + {ip}, callers := s.callers[t := Reserved(ip)])
    case Commit(t) =>
      var ip := s.callers[t].ip;
      s.(listed := s.listed + [ip], handles := s.handles[ip := s.next], next := s.next + 1,
         lost := s.lost + (if ip in s.handles then {s.handles[ip]} else {}), callers := s.callers - {t})
    case Unlist(t, ip) =>
      if ip !in s.listed then s
      else
        s.(listed := Without(s.listed, IndexOf(s.listed, ip)), handles := s.handles - {ip},
           callers := s.callers[t := Stopping(ip, if ip in s.handles then Some(s.handles[ip]) else None)])
    case Stop(t) =>
      var c := s.callers[t];
      var s1 := if c.handle.Some? then Close(s, c.handle.value) else s;
      s1.(callers := s.callers[t := Dropping(c.ip)])
    case Drop(t, works) =>
      s.(addrs := if works then s.addrs - {s.callers[t].ip} else s.addrs, callers := s.callers - {t})
    case Begin(ips) =>
      s.(closed := s.closed + s.handles.Values,
         closedTwice := s.closedTwice || s.closed * s.handles.Values != {} || !Injective(s.handles),
         listed := [], handles := map[], replacing := Some(Replacement(s.listed, ips, 0)))
    case DropOld(works) =>
      var r := s.replacing.value;
      s.(addrs := if works then s.addrs - {r.drops[0]} else s.addrs, replacing := Some(r.(drops := r.drops[1..])))
    case AddNew(works) =>
      var r := s.replacing.value;
      // an address already there is skipped; one that appears after that was looked up is refused
      if works then s.(addrs := s.addrs + {r.ips[r.done]}, replacing := Some(r.(done := r.done + 1)))
      else s.(replacing := None)
    case Finish =>
      var ips := s.replacing.value.ips;
      s.(listed := ips, handles := Started(ips, s.next), next := s.next + |ips|,
         lost := s.lost + Overwritten(ips, s.next), replacing := None)
  }

  // ---- No channel closed twice; every handle accounted for ----

  ghost predicate Pending(s: State, h: nat) {
    exists t :: t in s.callers && StopsHandle(s, t, h)
  }

  ghost predicate StopsHandle(s: State, t: nat, h: nat) {
    t in s.callers && s.callers[t].Stopping? && s.callers[t].handle == Some(h)
  }

  /** Each started handle is in exactly one place: the map, a remover's hands, closed, or lost. */
  ghost predicate Accounted(s: State) {
    && !s.closedTwice
    && (s.replacing.Some? ==> s.handles == map[])
    && Injective(s.handles)
    && (forall ip :: ip in s.handles ==> s.handles[ip] < s.next && s.handles[ip] !in s.closed + s.lost)
    && (forall t, h: nat :: StopsHandle(s, t, h) ==> h < s.next && h !in s.closed + s.lost && h !in s.handles.Values)
    && (forall t, u, h: nat :: StopsHandle(s, t, h) && StopsHandle(s, u, h) ==> t == u)
    && (forall h: nat :: h in s.closed ==> h < s.next && h !in s.lost)
    && (forall h: nat :: h in s.lost ==> h < s.next)
    && (forall h: nat :: h < s.next ==> h in s.handles.Values || Pending(s, h) || h in s.closed || h in s.lost)
  }

  /** m maps each address to the number of a start of it, the last one. */
  ghost predicate Numbers(ips: seq<string>, first: nat, m: map<string, nat>) {
    && m.Keys == SetOf(ips)
    && (forall ip :: ip in m ==> first <= m[ip] < first + |ips| && ips[m[ip] - first] == ip)
    && (forall i :: 0 <= i < |ips| ==> ips[i] in m && m[ips[i]] >= first + i)
  }

  lemma {:induction false} StartedFacts(ips: seq<string>, first: nat)
    ensures Numbers(ips, first, Started(ips, first)) && Injective(Started(ips, first))
  {
    hide Numbers, Injective;
    if ips == [] {
      NoStarts(first);
    } else {
      var front, last := ips[..|ips| - 1], ips[|ips| - 1];
      StartedFacts(front, first);
      assert ips == front + [last];
      OneMoreStart(front, last, first, Started(front, first));
      NumbersInjective(ips, first, Started(ips, first));
    }
  }

  lemma NoStarts(first: nat)
    ensures Numbers([], first, map[]) && Injective(map[])
  {}

  lemma SetOfMore(l: seq<string>, x: string)
    ensures SetOf(l + [x]) == SetOf(l) + {x}
  {}

  lemma OneMoreStart(ips: seq<string>, ip: string, first: nat, m: map<string, nat>)
    requires Numbers(ips, first, m)
    ensures Numbers(ips + [ip], first, m[ip := first + |ips|])
  {
    hide SetOf;
    var m', all := m[ip := first + |ips|], ips + [ip];
    SetOfMore(ips, ip);
    forall a | a in m' ensures first <= m'[a] < first + |all| && all[m'[a] - first] == a {
      if a != ip { assert a in m && ips[m[a] - first] == a; }
    }
    forall i | 0 <= i < |all| ensures all[i] in m' && m'[all[i]] >= first + i {
      if i < |ips| { assert ips[i] in m; }
    }
  }

  lemma NumbersInjective(ips: seq<string>, first: nat, m: map<string, nat>)
    requires Numbers(ips, first, m)
    ensures Injective(m)
  {
    hide SetOf;
    forall a, b | a in m && b in m && m[a] == m[b] ensures a == b { assert ips[m[a] - first] == a; }
  }

  ghost predicate Distinct(l: seq<string>) { forall i, j :: 0 <= i < j < |l| ==> l[i] != l[j] }

  /** A replacement loses servers exactly if it lists an address twice. */
  lemma OverwrittenExactly(ips: seq<string>, first: nat)
    ensures Overwritten(ips, first) == {} <==> Distinct(ips)
  {
    StartedFacts(ips, first);
    var m := Started(ips, first);
    if Distinct(ips) {
      forall h: nat | first <= h < first + |ips| ensures h in m.Values {
        assert m[ips[h - first]] == h;
      }
    } else {
      var i, j :| 0 <= i < j < |ips| && ips[i] == ips[j];
      assert m[ips[i]] >= first + j;
      assert first + i !in m.Values;
      assert first + i in Overwritten(ips, first);
    }
  }

  lemma CommitAccounted(s: State, t: nat)
    requires Accounted(s) && Enabled(s, Commit(t))
    ensures Accounted(Take(s, Commit(t)))
  {
    var ip, s' := s.callers[t].ip, Take(s, Commit(t));
    forall u, h ensures StopsHandle(s', u, h) <==> StopsHandle(s, u, h) {}
    forall h: nat | h < s'.next ensures h in s'.handles.Values || Pending(s', h) || h in s'.closed || h in s'.lost {
      if h == s.next {
        assert s'.handles[ip] == h;
      } else if h in s.handles.Values {
        var a :| a in s.handles && s.handles[a] == h;
        assert a != ip ==> s'.handles[a] == h;
      } else if Pending(s, h) {
        var u :| u in s.callers && StopsHandle(s, u, h);
        assert StopsHandle(s', u, h);
      }
    }
  }

  lemma UnlistAccounted(s: State, t: nat, ip: string)
    requires Accounted(s) && Enabled(s, Unlist(t, ip))
    ensures Accounted(Take(s, Unlist(t, ip)))
  {
    var s' := Take(s, Unlist(t, ip));
    if ip in s.listed {
      forall u, h ensures StopsHandle(s', u, h) <==>
                            StopsHandle(s, u, h) || (u == t && ip in s.handles && h == s.handles[ip]) {}
      forall h: nat | h < s'.next ensures h in s'.handles.Values || Pending(s', h) || h in s'.closed || h in s'.lost {
        if h in s.handles.Values {
          var a :| a in s.handles && s.handles[a] == h;
          if a == ip { assert StopsHandle(s', t, h); } else { assert s'.handles[a] == h; }
        } else if Pending(s, h) {
          var u :| u in s.callers && StopsHandle(s, u, h);
          assert StopsHandle(s', u, h);
        }
      }
    }
  }

  lemma StopAccounted(s: State, t: nat)
    requires Accounted(s) && Enabled(s, Stop(t))
    ensures Accounted(Take(s, Stop(t)))
  {
    var c, s' := s.callers[t], Take(s, Stop(t));
    if c.handle.Some? { assert StopsHandle(s, t, c.handle.value); }
    forall u, h ensures StopsHandle(s', u, h) <==> StopsHandle(s, u, h) && u != t {}
    forall h: nat | h < s'.next ensures h in s'.handles.Values || Pending(s', h) || h in s'.closed || h in s'.lost {
      if Pending(s, h) {
        var u :| u in s.callers && StopsHandle(s, u, h);
        assert u != t ==> StopsHandle(s', u, h);
      }
    }
  }

  /** Steps that touch no handle and no pending stop. */
  lemma OtherAccounted(s: State, step: Step)
    requires Accounted(s) && Enabled(s, step)
    requires step.Check? || step.Reserve? || step.Drop? || step.DropOld? || step.AddNew?
    ensures Accounted(Take(s, step))
  {
    var s' := Take(s, step);
    forall u, h ensures StopsHandle(s', u, h) <==> StopsHandle(s, u, h) {}
    forall h: nat | Pending(s, h) ensures Pending(s', h) {
      var u :| u in s.callers && StopsHandle(s, u, h);
      assert StopsHandle(s', u, h);
    }
  }

  /** Closing every handle in the map. */
  lemma TearDownAccounted(s: State, s': State)
    requires Accounted(s) && s'.handles == map[] && s'.callers == s.callers
    requires s'.next == s.next && s'.lost == s.lost && s'.closed == s.closed + s.handles.Values
    requires s'.closedTwice == (s.closedTwice || s.closed * s.handles.Values != {} || !Injective(s.handles))
    ensures Accounted(s')
  {
    assert s.closed * s.handles.Values == {};
    forall u, h ensures StopsHandle(s', u, h) <==> StopsHandle(s, u, h) {}
    forall h: nat | Pending(s, h) ensures Pending(s', h) {
      var u :| u in s.callers && StopsHandle(s, u, h);
      assert StopsHandle(s', u, h);
    }
  }

  /** Starting servers for a list of addresses on an empty map. */
  lemma BringUpAccounted(s: State, s': State, ips: seq<string>)
    requires Accounted(s) && s.handles == map[] && s'.callers == s.callers && s'.replacing.None?
    requires s'.handles == Started(ips, s.next) && s'.next == s.next + |ips|
    requires s'.lost == s.lost + Overwritten(ips, s.next) && s'.closed == s.closed && s'.closedTwice == s.closedTwice
    ensures Accounted(s')
  {
    hide Started;
    StartedFacts(ips, s.next);
    forall u, h ensures StopsHandle(s', u, h) <==> StopsHandle(s, u, h) {}
    forall h: nat | h < s.next ensures Pending(s, h) ==> Pending(s', h) {
      if Pending(s, h) {
        var u :| u in s.callers && StopsHandle(s, u, h);
        assert StopsHandle(s', u, h);
      }
    }
  }

  /**
   Under any interleaving of additions, removals and replacements, duplicates included, no
   stop channel is closed twice and every started handle stays accounted for.
   */
  lemma AccountedKept(s: State, step: Step)
    requires Accounted(s) && Enabled(s, step)
    ensures Accounted(Take(s, step))
  {
    match step
    case Commit(t) => CommitAccounted(s, t);
    case Unlist(t, ip) => UnlistAccounted(s, t, ip);
    case Stop(t) => StopAccounted(s, t);
    case Begin(_) => TearDownAccounted(s, Take(s, step));
    case Finish => BringUpAccounted(s, Take(s, step), s.replacing.value.ips);
    case _ => OtherAccounted(s, step);
  }

  /**
   A running server is lost exactly when a commit overwrites a listed address's handle, or a
   replacement that goes through lists an address twice.
   */
  lemma LostExactly(s: State, step: Step)
    requires Accounted(s) && Enabled(s, step)
    ensures s.lost <= Take(s, step).lost
    ensures Take(s, step).lost != s.lost <==>
              || (step.Commit? && s.callers[step.t].ip in s.handles)
              || (step.Finish? && !Distinct(s.replacing.value.ips))
  {
    if step.Finish? {
      var ips := s.replacing.value.ips;
      OverwrittenExactly(ips, s.next);
      assert forall h :: h in Overwritten(ips, s.next) ==> h !in s.lost;
    }
  }

  // ---- One device per address ----

  /** The caller has the address to itself between reserving and listing it, or unlisting and dropping it. */
  ghost predicate Holds(s: State, t: nat, ip: string) {
    t in s.callers && !s.callers[t].Checked? && s.callers[t].ip == ip
  }

  /** The addresses a replacement has yet to drop. */
  function Leaving(s: State): seq<string> { if s.replacing.None? then [] else s.replacing.value.drops }

  /**
   Every listed or held address, and every one a replacement has yet to drop, is on the
   interface and has one owner; servers match the list.
   */
  ghost predicate OneOwner(s: State) {
    && Distinct(s.listed)
    && s.handles.Keys == SetOf(s.listed)
    && (forall ip :: ip in s.listed ==> ip in s.addrs)
    && Distinct(Leaving(s)) && (s.replacing.Some? ==> s.listed == [])
    && (forall ip :: ip in Leaving(s) ==> ip in s.addrs)
    && (forall t, ip :: Holds(s, t, ip) ==> ip in s.addrs && ip !in s.listed && ip !in Leaving(s))
    && (forall t, u, ip :: Holds(s, t, ip) && Holds(s, u, ip) ==> t == u)
  }

  lemma WithoutFacts(l: seq<string>, i: nat)
    requires Distinct(l) && i < |l|
    ensures Distinct(Without(l, i)) && SetOf(Without(l, i)) == SetOf(l) - {l[i]}
  {
    var r := Without(l, i);
    forall k | 0 <= k < |l| && k != i ensures l[k] in r { assert r[if k < i then k else k - 1] == l[k]; }
    forall k | 0 <= k < |r| ensures r[k] in l && r[k] != l[i] { assert r[k] == l[if k < i then k else k + 1]; }
  }

  lemma UnlistOneOwner(s: State, t: nat, ip: string)
    requires OneOwner(s) && Enabled(s, Unlist(t, ip)) && ip in s.listed
    ensures OneOwner(Take(s, Unlist(t, ip)))
  {
    var s' := Take(s, Unlist(t, ip));
    WithoutFacts(s.listed, IndexOf(s.listed, ip));
    forall x ensures x in s'.listed <==> x in s.listed && x != ip {
      assert x in s'.listed <==> x in SetOf(s'.listed);
      assert x in s.listed <==> x in SetOf(s.listed);
    }
    forall u, x ensures Holds(s', u, x) <==> Holds(s, u, x) || (u == t && x == ip) {}
  }

  lemma CommitOneOwner(s: State, t: nat)
    requires OneOwner(s) && Enabled(s, Commit(t))
    ensures OneOwner(Take(s, Commit(t)))
  {
    var s' := Take(s, Commit(t));
    assert Holds(s, t, s.callers[t].ip);
    forall u, ip ensures Holds(s', u, ip) <==> Holds(s, u, ip) && u != t {}
    assert SetOf(s'.listed) == SetOf(s.listed) + {s.callers[t].ip};
  }

  lemma ReserveOneOwner(s: State, t: nat, works: bool)
    requires OneOwner(s) && Enabled(s, Reserve(t, works))
    ensures OneOwner(Take(s, Reserve(t, works)))
  {
    var s' := Take(s, Reserve(t, works));
    forall u, ip
      ensures Holds(s', u, ip) ==> Holds(s, u, ip) || (u == t && ip == s.callers[t].ip && ip !in s.addrs) {}
  }

  lemma DropOneOwner(s: State, t: nat, works: bool)
    requires OneOwner(s) && Enabled(s, Drop(t, works))
    ensures OneOwner(Take(s, Drop(t, works)))
  {
    var s' := Take(s, Drop(t, works));
    assert Holds(s, t, s.callers[t].ip);
    forall u, ip ensures Holds(s', u, ip) <==> Holds(s, u, ip) && u != t {}
  }

  lemma DropOldOneOwner(s: State, works: bool)
    requires OneOwner(s) && Enabled(s, DropOld(works))
    ensures OneOwner(Take(s, DropOld(works)))
  {
    var s', drops := Take(s, DropOld(works)), s.replacing.value.drops;
    forall u, ip ensures Holds(s', u, ip) <==> Holds(s, u, ip) {}
    forall ip | ip in drops[1..] ensures ip != drops[0] && ip in drops {
      var k :| 0 <= k < |drops| - 1 && drops[1..][k] == ip;
      assert drops[k + 1] == ip;
    }
  }

  /**
   Additions and removals, in any interleaving, and a replacement up to its last step keep
   one owner per address. The duplicate check plays no part in this: what excludes a second
   adder is the kernel refusing an address that is already there.
   */
  lemma OneOwnerKept(s: State, step: Step)
    requires OneOwner(s) && Enabled(s, step) && !step.Finish?
    ensures OneOwner(Take(s, step))
  {
    var s' := Take(s, step);
    match step
    case Commit(t) => CommitOneOwner(s, t);
    case Unlist(t, ip) => if ip in s.listed { UnlistOneOwner(s, t, ip); }
    case Reserve(t, works) => ReserveOneOwner(s, t, works);
    case Drop(t, works) => DropOneOwner(s, t, works);
    case DropOld(works) => DropOldOneOwner(s, works);
    case Finish => assert false;
    case _ =>
      forall u, ip ensures Holds(s', u, ip) <==> Holds(s, u, ip) {}
  }

  /** Addresses a list may be made of: distinct, on the interface, and held by no one. */
  ghost predicate Free(s: State, ips: seq<string>) {
    Distinct(ips) && (forall ip :: ip in ips ==> ip in s.addrs) && forall t, ip :: Holds(s, t, ip) ==> ip !in ips
  }

  /**
   The last step of a replacement keeps one owner per address exactly if, when the list is
   written, its addresses are distinct, all present, and none is held by an unfinished
   addition or removal.
   */
  lemma FinishKeepsOneOwnerExactly(s: State)
    requires OneOwner(s) && Enabled(s, Finish)
    ensures OneOwner(Take(s, Finish)) <==> Free(s, s.replacing.value.ips)
  {
    hide Started;
    var s', ips := Take(s, Finish), s.replacing.value.ips;
    StartedFacts(ips, s.next);
    forall u, ip ensures Holds(s', u, ip) <==> Holds(s, u, ip) {}
    if exists t, ip :: Holds(s, t, ip) && ip in ips {
      var t, ip :| Holds(s, t, ip) && ip in ips;
      assert Holds(s', t, ip) && ip in s'.listed;
    }
  }

  // ---- Runs ----

  /** Nothing in flight; the listed addresses are distinct, present and served. */
  ghost predicate Init(s: State) {
    && s.callers == map[] && s.replacing == None && s.closed == {} && s.lost == {} && !s.closedTwice
    && Distinct(s.listed) && (forall ip :: ip in s.listed ==> ip in s.addrs)
    && s.handles == Started(s.listed, 0) && s.next == |s.listed|
  }

  ghost predicate AllEnabled(s: State, steps: seq<Step>)
    decreases |steps|
  {
    steps == [] || (Enabled(s, steps[0]) && AllEnabled(Take(s, steps[0]), steps[1..]))
  }

  ghost function Play(s: State, steps: seq<Step>): State
    requires AllEnabled(s, steps)
    decreases |steps|
  {
    if steps == [] then s else Play(Take(s, steps[0]), steps[1..])
  }

  ghost predicate NoBegin(steps: seq<Step>) { forall i :: 0 <= i < |steps| ==> !steps[i].Begin? }

  lemma Nothing(s: State)
    ensures AllEnabled(s, []) && Play(s, []) == s
  {}

  lemma Prepend(s: State, step: Step, rest: seq<Step>) returns (steps: seq<Step>)
    requires Enabled(s, step) && AllEnabled(Take(s, step), rest)
    ensures steps == [step] + rest && AllEnabled(s, steps) && Play(s, steps) == Play(Take(s, step), rest)
  {
    steps := [step] + rest;
    assert steps[1..] == rest;
  }

  lemma InitHolds(s: State)
    requires Init(s)
    ensures Accounted(s) && OneOwner(s)
  {
    hide Started;
    StartedFacts(s.listed, 0);
    assert forall t, h :: !StopsHandle(s, t, h);
    assert forall t, ip :: !Holds(s, t, ip);
    forall h: nat | h < s.next ensures h in s.handles.Values { AllServed(s.listed, h); }
  }

  lemma AllServed(l: seq<string>, i: nat)
    requires Distinct(l) && i < |l|
    ensures i in Started(l, 0).Values
  {
    StartedFacts(l, 0);
    assert l[Started(l, 0)[l[i]] - 0] == l[i];
    assert Started(l, 0)[l[i]] == i;
  }

  lemma {:induction false} AccountedAlongRuns(s: State, steps: seq<Step>)
    requires Accounted(s) && AllEnabled(s, steps)
    ensures Accounted(Play(s, steps))
    decreases |steps|
  {
    hide Accounted, Take, Enabled;
    if steps == [] {
    } else {
      AccountedKept(s, steps[0]);
      AccountedAlongRuns(Take(s, steps[0]), steps[1..]);
    }
  }

  /**
   From a clean start, any interleaving of additions and removals keeps the list free of
   duplicates, the servers in step with it, and loses none.
   */
  lemma {:induction false} AddsAndRemovesAreSafe(s: State, steps: seq<Step>)
    requires Accounted(s) && OneOwner(s) && AllEnabled(s, steps)
    requires s.replacing.None? && forall i :: 0 <= i < |steps| ==> !steps[i].Begin?
    ensures var s' := Play(s, steps);
            OneOwner(s') && Accounted(s') && s'.lost == s.lost
    decreases |steps|
  {
    hide Accounted, Take, Enabled;
    if steps == [] {
    } else {
      var s1 := Take(s, steps[0]);
      assert !steps[0].Begin?;
      StaysUnlocked(s, steps[0]);
      AccountedKept(s, steps[0]);
      OneOwnerKept(s, steps[0]);
      NoneLost(s, steps[0]);
      AddsAndRemovesAreSafe(s1, steps[1..]);
    }
  }

  lemma NoneLost(s: State, step: Step)
    requires Accounted(s) && OneOwner(s) && Enabled(s, step) && !step.Finish?
    ensures Take(s, step).lost == s.lost
  {
    LostExactly(s, step);
    if step.Commit? { assert Holds(s, step.t, s.callers[step.t].ip); }
  }

  lemma StaysUnlocked(s: State, step: Step)
    requires s.replacing.None? && Enabled(s, step) && !step.Begin?
    ensures !step.Finish? && Take(s, step).replacing.None?
  {}

  // ---- No server is lost while the listed addresses stay distinct ----

  /** Only listed addresses have servers. */
  ghost predicate Served(s: State) { s.handles.Keys <= SetOf(s.listed) }

  lemma ServedKept(s: State, step: Step)
    requires Served(s) && Enabled(s, step)
    ensures Served(Take(s, step))
  {
    var s' := Take(s, step);
    match step
    case Commit(t) =>
      assert SetOf(s'.listed) == SetOf(s.listed) + {s.callers[t].ip};
    case Unlist(t, ip) =>
      if ip in s.listed { WithoutKeeps(s.listed, IndexOf(s.listed, ip)); }
    case Finish =>
      hide Started;
      StartedFacts(s.replacing.value.ips, s.next);
    case _ =>
  }

  /** Removing one occurrence leaves every other value. */
  lemma WithoutKeeps(l: seq<string>, i: nat)
    requires i < |l|
    ensures SetOf(l) - {l[i]} <= SetOf(Without(l, i))
  {
    forall k | 0 <= k < |l| && k != i ensures l[k] in Without(l, i) {
      assert Without(l, i)[if k < i then k else k - 1] == l[k];
    }
  }

  lemma ListedTwice(l: seq<string>, ip: string)
    ensures ip in SetOf(l) ==> !Distinct(l + [ip])
  {
    if ip in SetOf(l) {
      var k :| 0 <= k < |l| && l[k] == ip;
      assert (l + [ip])[k] == (l + [ip])[|l|];
    }
  }

  /** A step that leaves the list without duplicates loses no server, a replacement included. */
  lemma DistinctLosesNone(s: State, step: Step)
    requires Accounted(s) && Served(s) && Enabled(s, step)
    requires Distinct(Take(s, step).listed)
    ensures Take(s, step).lost == s.lost
  {
    LostExactly(s, step);
    if step.Commit? { ListedTwice(s.listed, s.callers[step.t].ip); }
  }

  /** Every state of the run lists distinct addresses. */
  ghost predicate DistinctThroughout(s: State, steps: seq<Step>)
    requires AllEnabled(s, steps)
    decreases |steps|
  {
    Distinct(s.listed) && (steps == [] || DistinctThroughout(Take(s, steps[0]), steps[1..]))
  }

  lemma {:induction false} DistinctRunsLoseNone(s: State, steps: seq<Step>)
    requires Accounted(s) && Served(s) && AllEnabled(s, steps) && DistinctThroughout(s, steps)
    ensures var s' := Play(s, steps);
            Accounted(s') && Served(s') && s'.lost == s.lost
    decreases |steps|
  {
    hide Accounted, Served, Take, Enabled, Distinct;
    if steps == [] {
    } else {
      AccountedKept(s, steps[0]);
      ServedKept(s, steps[0]);
      assert Distinct(Take(s, steps[0]).listed);
      DistinctLosesNone(s, steps[0]);
      DistinctRunsLoseNone(Take(s, steps[0]), steps[1..]);
    }
  }

  /** In the map, in a remover's hands, or stopped. */
  ghost predicate InHand(s: State, h: nat) {
    h in s.handles.Values || Pending(s, h) || h in s.closed
  }

  /**
   No server leaks. From a clean start, along every interleaving of additions, removals and
   replacements in which the listed addresses stay distinct, every server ever started is in
   the map, being stopped or stopped, and no stop channel was closed twice.
   */
  lemma NoServerLeaks(s: State, steps: seq<Step>)
    requires Init(s) && AllEnabled(s, steps) && DistinctThroughout(s, steps)
    ensures var s' := Play(s, steps);
            !s'.closedTwice && forall h: nat :: h < s'.next ==> InHand(s', h)
  {
    hide AllEnabled, Play, DistinctThroughout, Started;
    StartedFacts(s.listed, 0);
    InitHolds(s);
    DistinctRunsLoseNone(s, steps);
  }
}
