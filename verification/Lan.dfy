/**
 Giving devices addresses on the LAN: the two-range search for unused addresses, and the
 count-then-assign pass over the devices. Whether an address is in use (known from the
 ARP cache or answering a probe) is an arbitrary function of the address.
 */
module Lan {
  import opened Wrappers

  type Addr = a: int | 0 <= a < 0x1_0000_0000

  function Pow2(n: nat): (p: nat)
    ensures p > 0
  {
    if n == 0 then 1 else 2 * Pow2(n - 1)
  }

  /** An interface's network: one of its addresses and the prefix length, or not IPv4. */
  datatype Subnet = V4(ip: Addr, prefix: nat) | NotV4

  predicate Contains(n: Subnet, a: Addr) {
    n.V4? && n.prefix <= 32 && a / Pow2(32 - n.prefix) == n.ip / Pow2(32 - n.prefix)
  }

  type Byte = c: int | 0 <= c < 256

  /** The candidate with last byte c in the network's /24 (none to speak of outside IPv4). */
  function Candidate(n: Subnet, c: Byte): Addr {
    if n.V4? then n.ip - n.ip % 256 + c else 0
  }

  function Range(lo: nat, hi: nat): (r: seq<Byte>)
    requires lo <= hi <= 256
    ensures |r| == hi - lo
    ensures forall i :: 0 <= i < |r| ==> r[i] == lo + i
  {
    seq(hi - lo, i requires 0 <= i < hi - lo => lo + i)
  }

  predicate Accepts(n: Subnet, used: Addr -> bool, c: Byte) {
    n.V4? && Contains(n, Candidate(n, c)) && !used(Candidate(n, c))
  }

  /** The accepted ones of the candidates, in order. */
  function Filter(n: Subnet, used: Addr -> bool, cs: seq<Byte>): (r: seq<Addr>)
    ensures |r| <= |cs|
  {
    if cs == [] then []
    else
      var front := Filter(n, used, cs[..|cs| - 1]);
      var c := cs[|cs| - 1];
      if Accepts(n, used, c) then front + [Candidate(n, c)] else front
  }

  /** Away from the low addresses and the usual DHCP pool first. */
  function Preference(): seq<Byte> { Range(200, 255) + Range(150, 200) }

  function Accepted(n: Subnet, used: Addr -> bool): (r: seq<Addr>)
    ensures |r| <= 105
  {
    Filter(n, used, Preference())
  }

  function Max0(n: int): nat { if n < 0 then 0 else n }

  function Take(s: seq<Addr>, n: nat): seq<Addr> { if n <= |s| then s[..n] else s }

  lemma {:induction false} FilterAppend(n: Subnet, used: Addr -> bool, a: seq<Byte>, b: seq<Byte>)
    ensures Filter(n, used, a + b) == Filter(n, used, a) + Filter(n, used, b)
    decreases |b|
  {
    hide Accepts;
    if b == [] {
      assert a + b == a;
    } else {
      assert (a + b)[..|a + b| - 1] == a + b[..|b| - 1];
      FilterAppend(n, used, a, b[..|b| - 1]);
    }
  }

  lemma FilterNothing(n: Subnet, used: Addr -> bool, lo: nat)
    requires lo <= 256
    ensures Filter(n, used, Range(lo, lo)) == []
  {}

  lemma FilterOneMore(n: Subnet, used: Addr -> bool, lo: nat, c: nat)
    requires lo <= c < 256
    ensures Filter(n, used, Range(lo, c + 1))
            == Filter(n, used, Range(lo, c)) + if Accepts(n, used, c) then [Candidate(n, c)] else []
  {
    hide Accepts, Candidate;
    assert Range(lo, c + 1)[..c - lo] == Range(lo, c) && Range(lo, c + 1)[c - lo] == c;
  }

  /** Stopping at the end of the range, or with enough, is taking that many of the whole range. */
  lemma ScanEnds(n: Subnet, used: Addr -> bool, count: int, lo: nat, c: nat, hi: nat, before: seq<Addr>)
    requires lo <= c <= hi <= 256
    requires var found := before + Filter(n, used, Range(lo, c));
             |found| <= Max0(count) && (c == hi || |found| >= count)
    ensures before + Filter(n, used, Range(lo, c)) == Take(before + Filter(n, used, Range(lo, hi)), Max0(count))
  {
    hide Filter;
    var rest := Range(lo, hi)[c - lo..];
    assert Range(lo, hi) == Range(lo, c) + rest;
    FilterAppend(n, used, Range(lo, c), rest);
    if c == hi { assert Range(lo, c) == Range(lo, hi); }
  }

  /** Scans the candidates lo..hi until there are enough. */
  method Scan(n: Subnet, used: Addr -> bool, count: int, lo: nat, hi: nat, before: seq<Addr>)
    returns (result: seq<Addr>)
    requires n.V4? && lo <= hi <= 256
    requires |before| <= Max0(count)
    ensures result == Take(before + Filter(n, used, Range(lo, hi)), Max0(count))
  {
    hide Accepts, Candidate, Filter, Range, Take;
    assert before + Filter(n, used, Range(lo, lo)) == before by { FilterNothing(n, used, lo); }
    result := before;
    var c := lo;
    while c < hi && |result| < count
      invariant lo <= c <= hi && |result| <= Max0(count)
      invariant result == before + Filter(n, used, Range(lo, c))
    {
      FilterOneMore(n, used, lo, c);
      if Accepts(n, used, c) { result := result + [Candidate(n, c)]; }
      c := c + 1;
    }
    ScanEnds(n, used, count, lo, c, hi, before);
  }

  datatype SearchError = NotIPv4 | OnlyFound(n: nat)

  /** The address search: the first `count` accepted candidates, or an error if there are fewer. */
  method FindUnusedIPs(n: Subnet, used: Addr -> bool, count: int) returns (r: Result<seq<Addr>, SearchError>)
    ensures r == if n.NotV4? then Err(NotIPv4)
                 else if |Accepted(n, used)| < count then Err(OnlyFound(|Accepted(n, used)|))
                 else Ok(Take(Accepted(n, used), Max0(count)))
    ensures count > 105 ==> r.Err?
  {
    hide Filter, Range;
    if n.NotV4? { return Err(NotIPv4); }
    FilterAppend(n, used, Range(200, 255), Range(150, 200));
    var first := Scan(n, used, count, 200, 255, []);
    var result := Scan(n, used, count, 150, 200, first);
    ghost var f1, f2 := Filter(n, used, Range(200, 255)), Filter(n, used, Range(150, 200));
    assert Accepted(n, used) == f1 + f2 && [] + f1 == f1;
    assert |f1| <= Max0(count) ==> first == f1;
    assert |f1| > Max0(count) ==> result == f1[..Max0(count)] == (f1 + f2)[..Max0(count)];
    if |result| < count { return Err(OnlyFound(|result|)); }
    return Ok(result);
  }

  ghost predicate AllDistinct<T(!new)>(s: seq<T>) {
    forall i, j :: 0 <= i < j < |s| ==> s[i] != s[j]
  }

  /** An address found by filtering cs: its last byte is an accepted one of them. */
  ghost predicate Found(n: Subnet, used: Addr -> bool, cs: seq<Byte>, a: Addr) {
    a % 256 in cs && Accepts(n, used, a % 256) && a == Candidate(n, a % 256)
  }

  lemma {:induction false} FilterSound(n: Subnet, used: Addr -> bool, cs: seq<Byte>)
    requires AllDistinct(cs)
    ensures AllDistinct(Filter(n, used, cs))
    ensures forall a :: a in Filter(n, used, cs) ==> Found(n, used, cs, a)
  {
    if cs == [] {
    } else {
      var front, c := cs[..|cs| - 1], cs[|cs| - 1];
      FilterSound(n, used, front);
      var rest := Filter(n, used, front);
      assert c !in front;
      if Accepts(n, used, c) {
        LastByte(n, c);
        assert !Found(n, used, front, Candidate(n, c));
      }
      forall a | a in Filter(n, used, cs) ensures Found(n, used, cs, a) {
        assert a in rest ==> Found(n, used, front, a);
      }
    }
  }

  lemma LastByte(n: Subnet, c: Byte)
    requires n.V4?
    ensures Candidate(n, c) % 256 == c
  {}

  /** What is found is in the network, unused, and pairwise distinct. */
  lemma AcceptedSound(n: Subnet, used: Addr -> bool)
    ensures var r := Accepted(n, used);
            AllDistinct(r) && (n.NotV4? ==> r == []) && forall a :: a in r ==> Contains(n, a) && !used(a)
  {
    FilterSound(n, used, Preference());
    forall a | a in Accepted(n, used) ensures Contains(n, a) && !used(a) {
      assert Found(n, used, Preference(), a);
    }
    if Accepted(n, used) != [] { assert Accepted(n, used)[0] in Accepted(n, used); }
  }

  // ---- Which addresses the search offers, and in what order ----

  /** What a prefix length means, at the lengths in common use. */
  lemma ContainsByLength(ip: Addr, a: Addr)
    ensures Contains(V4(ip, 0), a)
    ensures Contains(V4(ip, 8), a) <==> a / 0x100_0000 == ip / 0x100_0000
    ensures Contains(V4(ip, 16), a) <==> a / 0x1_0000 == ip / 0x1_0000
    ensures Contains(V4(ip, 24), a) <==> a / 0x100 == ip / 0x100
    ensures Contains(V4(ip, 32), a) <==> a == ip
  {
    assert Pow2(8) == 0x100;
    assert Pow2(16) == 0x100 * Pow2(8);
    assert Pow2(24) == 0x100 * Pow2(16);
    assert Pow2(32) == 0x100 * Pow2(24);
    assert Pow2(0) == 1;
  }

  lemma {:induction false} FilterComplete(n: Subnet, used: Addr -> bool, cs: seq<Byte>, a: Addr)
    ensures Found(n, used, cs, a) ==> a in Filter(n, used, cs)
  {
    if cs == [] {
    } else {
      var front, c := cs[..|cs| - 1], cs[|cs| - 1];
      FilterComplete(n, used, front, a);
      assert cs == front + [c];
    }
  }

  /** An address is on offer exactly if it is free, in the network, and .150 to .254 of the host's own /24. */
  lemma AcceptedExactly(n: Subnet, used: Addr -> bool, a: Addr)
    ensures a in Accepted(n, used)
            <==> n.V4? && Contains(n, a) && !used(a) && a / 256 == n.ip / 256 && 150 <= a % 256 <= 254
  {
    hide Filter, Contains;
    var c: Byte, cs := a % 256, Preference();
    FilterSound(n, used, cs);
    FilterComplete(n, used, cs, a);
    if 200 <= c < 255 { assert cs[c - 200] == c; }
    if 150 <= c < 200 { assert cs[c - 150 + 55] == c; }
    if n.V4? { SameBlock(n, a); }
  }

  lemma SameBlock(n: Subnet, a: Addr)
    requires n.V4?
    ensures a == Candidate(n, a % 256) <==> a / 256 == n.ip / 256
  {}

  /** .200 to .254 come before .150 to .199, each in ascending order. */
  predicate Before(a: Addr, b: Addr) {
    if a % 256 >= 200 <==> b % 256 >= 200 then a % 256 < b % 256 else a % 256 >= 200
  }

  ghost predicate InOrder(s: seq<Addr>) { forall i, j :: 0 <= i < j < |s| ==> Before(s[i], s[j]) }

  lemma {:induction false} FilterInOrder(n: Subnet, used: Addr -> bool, cs: seq<Byte>)
    requires AllDistinct(cs) && InOrder(cs)
    ensures InOrder(Filter(n, used, cs))
  {
    hide Before, Accepts, Candidate;
    if cs == [] {
    } else {
      var front, c := cs[..|cs| - 1], cs[|cs| - 1];
      FilterInOrder(n, used, front);
      var rest := Filter(n, used, front);
      if Accepts(n, used, c) {
        FilterSound(n, used, front);
        forall i | 0 <= i < |rest| ensures Before(rest[i], Candidate(n, c)) {
          assert Found(n, used, front, rest[i]);
          var k :| 0 <= k < |front| && front[k] == rest[i] % 256;
          assert Before(cs[k], cs[|cs| - 1]);
          BeforeByLastByte(n, used, rest[i], c);
        }
      }
    }
  }

  lemma BeforeByLastByte(n: Subnet, used: Addr -> bool, a: Addr, c: Byte)
    requires Accepts(n, used, c) && Before(a % 256, c)
    ensures Before(a, Candidate(n, c))
  {
    LastByte(n, c);
  }

  lemma PreferenceInOrder()
    ensures InOrder(Preference()) && AllDistinct(Preference())
  {
    hide Before;
    var cs := Preference();
    forall i, j | 0 <= i < j < |cs| ensures Before(cs[i], cs[j]) && cs[i] != cs[j] {
      BytesBefore(cs[i], cs[j]);
    }
  }

  lemma BytesBefore(c: Byte, d: Byte)
    requires c < d < 200 || 200 <= c < d || d < 200 <= c
    ensures Before(c, d)
  {}

  lemma AcceptedInOrder(n: Subnet, used: Addr -> bool)
    ensures InOrder(Accepted(n, used))
  {
    hide Filter, InOrder, Preference;
    PreferenceInOrder();
    FilterInOrder(n, used, Preference());
  }

  // ---- Assigning to devices ----

  /** A device's configured address. */
  datatype HostAddr = Unset | Auto | Unreadable(text: string) | At(addr: Addr)

  predicate NeedsAuto(h: HostAddr, n: Subnet) { !h.At? || !Contains(n, h.addr) }

  function Needs(hosts: seq<HostAddr>, n: Subnet): (k: nat)
    ensures k <= |hosts|
  {
    if hosts == [] then 0
    else Needs(hosts[..|hosts| - 1], n) + if NeedsAuto(hosts[|hosts| - 1], n) then 1 else 0
  }

  /** Devices that need an address get the allocated ones in order; the others keep theirs. */
  function Assigned(hosts: seq<HostAddr>, n: Subnet, alloc: seq<Addr>): (r: seq<HostAddr>)
    requires Needs(hosts, n) <= |alloc|
    ensures |r| == |hosts|
  {
    if hosts == [] then []
    else
      var front, last := hosts[..|hosts| - 1], hosts[|hosts| - 1];
      Assigned(front, n, alloc) + [if NeedsAuto(last, n) then At(alloc[Needs(front, n)]) else last]
  }

  lemma {:induction false} NeedsPrefix(hosts: seq<HostAddr>, n: Subnet, i: nat)
    requires i <= |hosts|
    ensures Needs(hosts[..i], n) <= Needs(hosts, n)
    ensures i < |hosts| && NeedsAuto(hosts[i], n) ==> Needs(hosts[..i], n) < Needs(hosts, n)
    decreases |hosts| - i
  {
    if i < |hosts| {
      assert hosts[..i + 1][..i] == hosts[..i];
      NeedsPrefix(hosts, n, i + 1);
    } else {
      assert hosts[..i] == hosts;
    }
  }

  lemma {:induction false} AssignedPrefix(hosts: seq<HostAddr>, n: Subnet, alloc: seq<Addr>, i: nat)
    requires i <= |hosts| && Needs(hosts, n) <= |alloc|
    ensures Needs(hosts[..i], n) <= |alloc| && Assigned(hosts[..i], n, alloc) == Assigned(hosts, n, alloc)[..i]
    decreases |hosts|
  {
    NeedsPrefix(hosts, n, i);
    if i < |hosts| {
      NeedsPrefix(hosts, n, |hosts| - 1);
      AssignedPrefix(hosts[..|hosts| - 1], n, alloc, i);
      assert hosts[..|hosts| - 1][..i] == hosts[..i];
    } else {
      assert hosts[..i] == hosts;
    }
  }

  /** What the assignment does to device i. */
  lemma AssignedAt(hosts: seq<HostAddr>, n: Subnet, alloc: seq<Addr>, i: nat)
    requires i < |hosts| && Needs(hosts, n) <= |alloc|
    ensures Needs(hosts[..i + 1], n) == Needs(hosts[..i], n) + if NeedsAuto(hosts[i], n) then 1 else 0
    ensures if NeedsAuto(hosts[i], n)
            then Needs(hosts[..i], n) < Needs(hosts, n)
                 && Assigned(hosts, n, alloc)[i] == At(alloc[Needs(hosts[..i], n)])
            else Assigned(hosts, n, alloc)[i] == hosts[i]
  {
    NeedsPrefix(hosts, n, i);
    AssignedPrefix(hosts, n, alloc, i + 1);
    AssignedLast(hosts[..i + 1], n, alloc);
    hide Needs, Assigned, NeedsAuto;
    assert hosts[..i + 1][..i] == hosts[..i];
    assert Assigned(hosts[..i + 1], n, alloc)[i] == Assigned(hosts, n, alloc)[i];
  }

  lemma AssignedLast(hosts: seq<HostAddr>, n: Subnet, alloc: seq<Addr>)
    requires hosts != [] && Needs(hosts, n) <= |alloc|
    ensures var k := |hosts| - 1;
            && Needs(hosts, n) == Needs(hosts[..k], n) + (if NeedsAuto(hosts[k], n) then 1 else 0)
            && Assigned(hosts, n, alloc)[k]
               == if NeedsAuto(hosts[k], n) then At(alloc[Needs(hosts[..k], n)]) else hosts[k]
  {}

  ghost predicate PartlyAssigned(before: seq<HostAddr>, goal: seq<HostAddr>, now: seq<HostAddr>) {
    exists k :: 0 < k <= |goal| == |before| && now == goal[..k] + before[k..]
  }

  /** Only the part of the allocation that is needed matters. */
  lemma {:induction false} AssignedSame(hosts: seq<HostAddr>, n: Subnet, alloc: seq<Addr>, alloc': seq<Addr>)
    requires Needs(hosts, n) <= |alloc| && alloc <= alloc'
    ensures Assigned(hosts, n, alloc) == Assigned(hosts, n, alloc')
  {
    if hosts == [] {
    } else {
      AssignedSame(hosts[..|hosts| - 1], n, alloc, alloc');
    }
  }

  lemma Advance<T>(before: seq<T>, goal: seq<T>, now: seq<T>, i: nat)
    requires |before| == |goal| && i < |goal| && now == goal[..i] + before[i..]
    ensures now[i := goal[i]] == goal[..i + 1] + before[i + 1..]
  {}

  lemma UpTo(before: seq<HostAddr>, goal: seq<HostAddr>, now: seq<HostAddr>, k: nat)
    requires 0 < k <= |goal| == |before| && now == goal[..k] + before[k..]
    ensures PartlyAssigned(before, goal, now)
  {}

  lemma NoNeeds(n: Subnet)
    ensures Needs([], n) == 0
  {}

  datatype SetupError = Search(e: SearchError) | CannotAdd(addr: Addr)

  class Interface {
    const subnet: Subnet
    const used: Addr -> bool
    const addFails: Addr -> bool
    var addrs: set<Addr>        // addresses the host has

    method CountNeeds(devices: array<HostAddr>) returns (k: nat)
      ensures k == Needs(devices[..], subnet)
    {
      k := 0;
      for i := 0 to devices.Length
        invariant k == Needs(devices[..i], subnet)
      {
        assert devices[..i + 1][..i] == devices[..i];
        if NeedsAuto(devices[i], subnet) { k := k + 1; }
      }
      assert devices[..devices.Length] == devices[..];
    }

    /** Adds an address the host does not have yet. */
    method EnsureAddress(a: Addr) returns (present: bool)
      modifies this
      ensures present <==> a in old(addrs) || !addFails(a)
      ensures addrs == if present then old(addrs) + {a} else old(addrs)
    {
      if a in addrs { return true; }
      if addFails(a) { return false; }
      addrs := addrs + {a};
      return true;
    }

    /** The assignment pass; the index into the allocation never leaves it. */
    method AssignAll(devices: array<HostAddr>, alloc: seq<Addr>) returns (failed: Option<Addr>)
      requires Needs(devices[..], subnet) <= |alloc|
      requires forall a :: a in alloc ==> Contains(subnet, a)
      modifies this, devices
      ensures var goal := Assigned(old(devices[..]), subnet, alloc);
              if failed.None? then devices[..] == goal && Settled(devices[..], devices.Length)
              else addFails(failed.value) && PartlyAssigned(old(devices[..]), goal, devices[..])
      ensures old(addrs) <= addrs
    {
      hide Contains, Needs, Assigned, PartlyAssigned, NeedsAuto;
      ghost var hosts := devices[..];
      ghost var goal := Assigned(hosts, subnet, alloc);
      assert Needs(hosts[..0], subnet) == 0 by { NoNeeds(subnet); assert hosts[..0] == []; }
      var autoIdx := 0;
      for i := 0 to devices.Length
        invariant autoIdx == Needs(hosts[..i], subnet)
        invariant devices[..] == goal[..i] + hosts[i..]
        invariant Settled(devices[..], i)
        invariant old(addrs) <= addrs
      {
        AssignedAt(hosts, subnet, alloc, i);
        assert devices[..][i] == hosts[i] && (NeedsAuto(hosts[i], subnet) ==> autoIdx < |alloc|);
        Advance(hosts, goal, devices[..], i);
        var present;
        autoIdx, present := AssignOne(devices, i, alloc, autoIdx);
        if !present {
          UpTo(hosts, goal, devices[..], i + 1);
          return Some(devices[i].addr);
        }
      }
      return None;
    }

    /** One device: it gets the next allocated address if it needs one, and the host gets the address. */
    method AssignOne(devices: array<HostAddr>, i: nat, alloc: seq<Addr>, autoIdx: nat)
      returns (next: nat, present: bool)
      requires i < devices.Length
      requires NeedsAuto(devices[i], subnet) ==> autoIdx < |alloc|
      requires forall a :: a in alloc ==> Contains(subnet, a)
      modifies this, devices
      ensures next == autoIdx + if NeedsAuto(old(devices[i]), subnet) then 1 else 0
      ensures devices[..] == old(devices[..])[i := if NeedsAuto(old(devices[i]), subnet) then At(alloc[autoIdx])
                                                   else old(devices[i])]
      ensures devices[i].At? && Contains(subnet, devices[i].addr)
      ensures if present then devices[i].addr in addrs else addFails(devices[i].addr)
      ensures old(addrs) <= addrs
    {
      hide Contains;
      next := autoIdx;
      if NeedsAuto(devices[i], subnet) {
        devices[i] := At(alloc[autoIdx]);
        next := autoIdx + 1;
      }
      present := EnsureAddress(devices[i].addr);
    }

    /** The first k devices have addresses of the network, on the interface. */
    ghost predicate Settled(now: seq<HostAddr>, k: nat)
      reads this
    {
      forall i :: 0 <= i < k && i < |now| ==> now[i].At? && Contains(subnet, now[i].addr) && now[i].addr in addrs
    }

    /**
     Count, search, then assign. Success puts every device inside the subnet on an address
     the host has; without enough free addresses nothing changes; a failed addition leaves
     the devices from there on as they were.
     */
    method SetupLANIPs(devices: array<HostAddr>) returns (r: Option<SetupError>)
      modifies this, devices
      ensures Needs(old(devices[..]), subnet) > 0 && |Accepted(subnet, used)| < Needs(old(devices[..]), subnet)
              <==> r.Some? && r.value.Search?
      ensures r.Some? && r.value.Search? ==> devices[..] == old(devices[..]) && addrs == old(addrs)
      ensures r.None? ==> Settled(devices[..], devices.Length)
      ensures !(r.Some? && r.value.Search?) ==>
                var goal := Assigned(old(devices[..]), subnet, Accepted(subnet, used));
                if r.None? then devices[..] == goal
                else addFails(r.value.addr) && PartlyAssigned(old(devices[..]), goal, devices[..])
      ensures old(addrs) <= addrs
    {
      hide Accepted, Contains, Needs, Assigned;
      var needIPs := CountNeeds(devices);
      var autoIPs: seq<Addr> := [];
      AcceptedSound(subnet, used);
      if needIPs > 0 {
        var found := FindUnusedIPs(subnet, used, needIPs);
        if found.Err? { return Some(Search(found.error)); }
        autoIPs := found.value;
      }
      AssignedSame(devices[..], subnet, autoIPs, Accepted(subnet, used));
      var failed := AssignAll(devices, autoIPs);
      return if failed.None? then None else Some(CannotAdd(failed.value));
    }
  }

  /**
   A device inside the network keeps its address; any other gets one on offer, and of two
   such devices the earlier one gets the better.
   */
  lemma EachGetsItsOwn(hosts: seq<HostAddr>, n: Subnet, used: Addr -> bool, i: nat, j: nat)
    requires i < j < |hosts| && Needs(hosts, n) <= |Accepted(n, used)|
    ensures var now := Assigned(hosts, n, Accepted(n, used));
            && (hosts[i].At? && Contains(n, hosts[i].addr) ==> now[i] == hosts[i])
            && (hosts[j].At? && Contains(n, hosts[j].addr) ==> now[j] == hosts[j])
            && (NeedsAuto(hosts[i], n) ==> now[i].At? && now[i].addr in Accepted(n, used))
            && (NeedsAuto(hosts[j], n) ==> now[j].At? && now[j].addr in Accepted(n, used))
            && (NeedsAuto(hosts[i], n) && NeedsAuto(hosts[j], n) ==> Before(now[i].addr, now[j].addr))
  {
    hide Accepted, Contains, Needs, Assigned;
    AssignedAt(hosts, n, Accepted(n, used), i);
    AssignedAt(hosts, n, Accepted(n, used), j);
    NeedsPrefix(hosts[..j], n, i + 1);
    assert hosts[..j][..i + 1] == hosts[..i + 1];
    AcceptedInOrder(n, used);
  }

  // ---- Are the resulting addresses distinct? ----

  /** The addresses of the devices that keep theirs. */
  function Kept(hosts: seq<HostAddr>, n: Subnet): seq<HostAddr> {
    if hosts == [] then []
    else
      var front, last := Kept(hosts[..|hosts| - 1], n), hosts[|hosts| - 1];
      if NeedsAuto(last, n) then front else front + [last]
  }

  function Ats(alloc: seq<Addr>): (r: seq<HostAddr>)
    ensures |r| == |alloc| && forall i :: 0 <= i < |r| ==> r[i] == At(alloc[i])
  {
    seq(|alloc|, i requires 0 <= i < |alloc| => At(alloc[i]))
  }

  /** Nothing is lost or doubled by the assignment: kept addresses plus the allocated ones. */
  lemma {:induction false} AssignedConserves(hosts: seq<HostAddr>, n: Subnet, alloc: seq<Addr>)
    requires Needs(hosts, n) <= |alloc|
    ensures multiset(Assigned(hosts, n, alloc)) == multiset(Kept(hosts, n)) + multiset(Ats(alloc[..Needs(hosts, n)]))
  {
    if hosts == [] {
      assert Ats(alloc[..0]) == [];
    } else {
      var front, last := hosts[..|hosts| - 1], hosts[|hosts| - 1];
      var k := Needs(front, n);
      AssignedConserves(front, n, alloc);
      UnfoldAssigned(hosts, n, alloc);
      hide Needs, Kept, Assigned, NeedsAuto;
      var given := Ats(alloc[..k]);
      if NeedsAuto(last, n) {
        AtsMore(alloc, k);
        OneMore(Assigned(front, n, alloc), Kept(front, n), given, At(alloc[k]));
      } else {
        OneMore(Assigned(front, n, alloc), Kept(front, n), given, last);
      }
    }
  }

  lemma UnfoldAssigned(hosts: seq<HostAddr>, n: Subnet, alloc: seq<Addr>)
    requires hosts != [] && Needs(hosts, n) <= |alloc|
    ensures var front, last := hosts[..|hosts| - 1], hosts[|hosts| - 1];
            var k := Needs(front, n);
            if NeedsAuto(last, n)
            then k + 1 == Needs(hosts, n) && Kept(hosts, n) == Kept(front, n)
                 && Assigned(hosts, n, alloc) == Assigned(front, n, alloc) + [At(alloc[k])]
            else k == Needs(hosts, n) && Kept(hosts, n) == Kept(front, n) + [last]
                 && Assigned(hosts, n, alloc) == Assigned(front, n, alloc) + [last]
  {}

  lemma AtsMore(alloc: seq<Addr>, k: nat)
    requires k < |alloc|
    ensures Ats(alloc[..k + 1]) == Ats(alloc[..k]) + [At(alloc[k])]
  {}

  lemma OneMore(all: seq<HostAddr>, kept: seq<HostAddr>, given: seq<HostAddr>, x: HostAddr)
    requires multiset(all) == multiset(kept) + multiset(given)
    ensures multiset(all + [x]) == multiset(kept + [x]) + multiset(given)
    ensures multiset(all + [x]) == multiset(kept) + multiset(given + [x])
  {}

  lemma CountTwice<T>(s: seq<T>, i: nat, j: nat)
    requires i < j < |s| && s[i] == s[j]
    ensures multiset(s)[s[i]] >= 2
  {
    assert s == s[..j] + ([s[j]] + s[j + 1..]);
    assert s[..j][i] == s[i] && s[i] in s[..j];
  }

  lemma {:induction false} DistinctByCount<T(!new)>(s: seq<T>)
    ensures AllDistinct(s) <==> forall x :: multiset(s)[x] <= 1
  {
    if AllDistinct(s) {
      forall x ensures multiset(s)[x] <= 1 { CountOnce(s, x); }
    } else {
      var i, j :| 0 <= i < j < |s| && s[i] == s[j];
      CountTwice(s, i, j);
    }
  }

  lemma {:induction false} CountOnce<T(!new)>(s: seq<T>, x: T)
    requires AllDistinct(s)
    ensures multiset(s)[x] <= 1
  {
    if s == [] {
    } else {
      var front := s[..|s| - 1];
      assert s == front + [s[|s| - 1]];
      CountOnce(front, x);
      if x == s[|s| - 1] { assert x !in front; }
    }
  }

  /**
   The search does not look at the devices' own addresses, so a kept address may be handed
   out again. After success the addresses are distinct exactly if the kept ones are and none
   of them is among the first accepted candidates that get assigned.
   */
  lemma DistinctAfterSetup(hosts: seq<HostAddr>, n: Subnet, used: Addr -> bool)
    requires Needs(hosts, n) <= |Accepted(n, used)|
    ensures var alloc := Accepted(n, used)[..Needs(hosts, n)];
            AllDistinct(Assigned(hosts, n, Accepted(n, used)))
            <==> AllDistinct(Kept(hosts, n)) && forall h :: h in Kept(hosts, n) ==> h !in Ats(alloc)
  {
    hide Accepted, Kept, Needs, Assigned;
    var kept, ats := Kept(hosts, n), Ats(Accepted(n, used)[..Needs(hosts, n)]);
    var all := Assigned(hosts, n, Accepted(n, used));
    AcceptedSound(n, used);
    assert AllDistinct(ats);
    AssignedConserves(hosts, n, Accepted(n, used));
    DistinctByCount(all);
    DistinctByCount(kept);
    DistinctByCount(ats);
    forall x ensures multiset(all)[x] == multiset(kept)[x] + multiset(ats)[x] {}
    if AllDistinct(kept) && forall h :: h in kept ==> h !in ats {
      forall x ensures multiset(all)[x] <= 1 {
        assert x in kept <==> x in multiset(kept);
        assert x in ats <==> x in multiset(ats);
      }
    } else if !AllDistinct(kept) {
      var x :| multiset(kept)[x] > 1;
      assert multiset(all)[x] > 1;
    } else {
      var h :| h in kept && h in ats;
      assert h in multiset(kept) && h in multiset(ats);
      assert multiset(all)[h] > 1;
    }
  }

  /** And it does happen: one device asks for any address, another is configured with the first free one. */
  lemma SameAddressTwice(n: Subnet, used: Addr -> bool)
    requires Accepted(n, used) != []
    ensures var a := Accepted(n, used)[0];
            var hosts := [Auto, At(a)];
            && Needs(hosts, n) <= |Accepted(n, used)|
            && Assigned(hosts, n, Accepted(n, used)) == [At(a), At(a)]
  {
    AcceptedSound(n, used);
    hide Accepted, Contains;
    var a := Accepted(n, used)[0];
    var hosts := [Auto, At(a)];
    assert hosts[..1] == [Auto] && [Auto][..0] == [];
    assert Needs([], n) == 0 && Needs([Auto], n) == 1 && Needs(hosts, n) == 1;
    assert Assigned([Auto], n, Accepted(n, used)) == [At(a)];
  }
}
