/**
 What each runtime change does to one device: its access points and their clients.
 */
module Roster {
  import opened Wrappers
  import opened Device

  datatype Op =
    | AddAP(ap: AP)
    | RemoveAP(name: string)
    | AddClient(apName: string, client: Client)
    | RemoveClient(mac: string)
    | SetSSIDs(apName: string, ssids: seq<string>)
    | Roam(mac: string, apName: string, ssid: string)

  datatype OpError = NoSuchAP | IsDefaultAP | NoSuchClient | NoSuchTarget

  /** Index of the first client with the address, or |cs|. */
  function FirstMAC(cs: seq<Client>, mac: string): (k: nat)
    ensures k <= |cs| && (k < |cs| ==> cs[k].mac == mac)
    ensures forall n :: 0 <= n < k ==> cs[n].mac != mac
  {
    if cs == [] then 0 else if cs[0].mac == mac then 0 else 1 + FirstMAC(cs[1..], mac)
  }

  predicate Hosts(ap: AP, mac: string) { FirstMAC(ap.clients, mac) < |ap.clients| }

  /** Index of the first access point hosting the client, or |aps|. */
  function HostOf(aps: seq<AP>, mac: string): (j: nat)
    ensures j <= |aps| && (j < |aps| ==> Hosts(aps[j], mac))
    ensures forall n :: 0 <= n < j ==> !Hosts(aps[n], mac)
  {
    if aps == [] then 0 else if Hosts(aps[0], mac) then 0 else 1 + HostOf(aps[1..], mac)
  }

  function DropClient(ap: AP, mac: string): AP
    requires Hosts(ap, mac)
  {
    ap.(clients := Without(ap.clients, FirstMAC(ap.clients, mac)))
  }

  function TheClient(aps: seq<AP>, mac: string): Client
    requires HostOf(aps, mac) < |aps|
  {
    var ap := aps[HostOf(aps, mac)];
    ap.clients[FirstMAC(ap.clients, mac)]
  }

  function Dropped(aps: seq<AP>, mac: string): (r: seq<AP>)
    requires HostOf(aps, mac) < |aps|
    ensures |r| == |aps|
  {
    var j := HostOf(aps, mac);
    aps[j := DropClient(aps[j], mac)]
  }

  function Joining(ap: AP, c: Client): AP { ap.(clients := ap.clients + [c]) }

  /** The access points after the change, and the error if there is one. */
  function Effect(aps: seq<AP>, op: Op): (seq<AP>, Option<OpError>) {
    match op
    case AddAP(ap) => (aps + [ap], None)
    case RemoveAP(name) =>
      var j := FirstNamed(aps, name);
      if j == |aps| then (aps, Some(NoSuchAP))
      else if aps[j].isDefault then (aps, Some(IsDefaultAP))
      else (Without(aps, j), None)
    case AddClient(name, c) =>
      var j := FirstNamed(aps, name);
      if j == |aps| then (aps, Some(NoSuchAP)) else (aps[j := Joining(aps[j], c)], None)
    case RemoveClient(mac) =>
      if HostOf(aps, mac) == |aps| then (aps, Some(NoSuchClient)) else (Dropped(aps, mac), None)
    case SetSSIDs(name, ssids) =>
      var j := FirstNamed(aps, name);
      if j == |aps| then (aps, Some(NoSuchAP)) else (aps[j := aps[j].(ssids := ssids)], None)
    case Roam(mac, name, ssid) => Roamed(aps, mac, name, ssid)
  }

  /** The client is taken away before the target is looked for. */
  function Roamed(aps: seq<AP>, mac: string, name: string, ssid: string): (seq<AP>, Option<OpError>) {
    if HostOf(aps, mac) == |aps| then (aps, Some(NoSuchClient))
    else
      var rest := Dropped(aps, mac);
      var j := FirstNamed(rest, name);
      if j == |rest| then (rest, Some(NoSuchTarget))
      else (rest[j := Joining(rest[j], Moved(TheClient(aps, mac), ssid))], None)
  }

  // ---- Clients are conserved ----

  function Clients(aps: seq<AP>): multiset<Client> {
    if aps == [] then multiset{} else multiset(aps[0].clients) + Clients(aps[1..])
  }

  lemma Under<T>(h: multiset<T>, x: multiset<T>, m: multiset<T>, r: multiset<T>, n: multiset<T>)
    requires x + m == r + n
    ensures (h + x) + m == (h + r) + n
  {
    assert (h + x) + m == h + (x + m);
    assert (h + r) + n == h + (r + n);
  }

  lemma Exchange<T>(a: multiset<T>, b: multiset<T>, c: multiset<T>)
    ensures (b + c) + a == (a + c) + b
  {}

  lemma {:induction false} ClientsUpdate(aps: seq<AP>, j: nat, ap: AP)
    requires j < |aps|
    ensures Clients(aps[j := ap]) + multiset(aps[j].clients) == Clients(aps) + multiset(ap.clients)
  {
    if j == 0 {
      assert aps[0 := ap][1..] == aps[1..] && aps[0 := ap][0] == ap;
      assert Clients(aps[0 := ap]) == multiset(ap.clients) + Clients(aps[1..]);
      assert Clients(aps) == multiset(aps[0].clients) + Clients(aps[1..]);
      Exchange(multiset(aps[0].clients), multiset(ap.clients), Clients(aps[1..]));
    } else {
      assert aps[j := ap][1..] == aps[1..][j - 1 := ap];
      ClientsUpdate(aps[1..], j - 1, ap);
      Under(multiset(aps[0].clients), Clients(aps[1..][j - 1 := ap]), multiset(aps[j].clients),
            Clients(aps[1..]), multiset(ap.clients));
    }
  }

  lemma WithoutCounts<T>(s: seq<T>, i: nat)
    requires i < |s|
    ensures multiset(s) == multiset(Without(s, i)) + multiset{s[i]}
  {
    WithoutSplits(s, i);
  }

  lemma DroppedCounts(aps: seq<AP>, mac: string)
    requires HostOf(aps, mac) < |aps|
    ensures Clients(aps) == Clients(Dropped(aps, mac)) + multiset{TheClient(aps, mac)}
  {
    hide Clients, FirstMAC, HostOf, Without;
    var j := HostOf(aps, mac);
    var cs, left := multiset(aps[j].clients), multiset(DropClient(aps[j], mac).clients);
    ClientsUpdate(aps, j, DropClient(aps[j], mac));
    WithoutCounts(aps[j].clients, FirstMAC(aps[j].clients, mac));
    Cancel(Clients(aps), Clients(Dropped(aps, mac)), left, multiset{TheClient(aps, mac)}) by {
      Regroup(Clients(aps), Clients(Dropped(aps, mac)), left, cs, multiset{TheClient(aps, mac)});
    }
  }

  lemma Regroup<T>(x: multiset<T>, y: multiset<T>, a: multiset<T>, b: multiset<T>, c: multiset<T>)
    requires y + b == x + a && b == a + c
    ensures x + a == y + (a + c)
  {}

  function Moved(c: Client, ssid: string): Client { if ssid == "" then c else c.(ssid := ssid) }

  lemma MovedIs(c: Client, ssid: string)
    ensures Moved(c, ssid) == c.(ssid := if ssid == "" then c.ssid else ssid)
  {}

  lemma JoiningCounts(aps: seq<AP>, j: nat, c: Client)
    requires j < |aps|
    ensures Clients(aps[j := Joining(aps[j], c)]) == Clients(aps) + multiset{c}
  {
    var cs := aps[j].clients;
    ClientsUpdate(aps, j, Joining(aps[j], c));
    assert multiset(cs + [c]) == multiset(cs) + multiset{c};
    Cancel(Clients(aps[j := Joining(aps[j], c)]), Clients(aps), multiset(cs), multiset{c});
  }

  lemma Cancel<T>(x: multiset<T>, y: multiset<T>, a: multiset<T>, c: multiset<T>)
    requires x + a == y + (a + c)
    ensures x == y + c
  {
    forall e | e in x + y + c ensures x[e] == (y + c)[e] {
      assert (x + a)[e] == (y + (a + c))[e];
    }
  }

  lemma FirstNamedIs(aps: seq<AP>, name: string, i: nat)
    requires i <= |aps| && (i < |aps| ==> aps[i].name == name)
    requires forall k :: 0 <= k < i ==> aps[k].name != name
    ensures FirstNamed(aps, name) == i
  {}

  lemma FirstMarkedIs(aps: seq<AP>, i: nat)
    requires i <= |aps| && (i < |aps| ==> aps[i].isDefault)
    requires forall k :: 0 <= k < i ==> !aps[k].isDefault
    ensures FirstMarked(aps) == i
  {}

  lemma FirstNamedKept(aps: seq<AP>, j: nat, ap: AP, name: string)
    requires j < |aps| && ap.name == aps[j].name
    ensures FirstNamed(aps[j := ap], name) == FirstNamed(aps, name)
  {
    FirstNamedIs(aps[j := ap], name, FirstNamed(aps, name));
  }

  /** Losing a client changes one access point's client list and nothing else. */
  lemma DroppedAt(aps: seq<AP>, mac: string, j: nat)
    requires HostOf(aps, mac) < |aps| && j < |aps|
    ensures var ap := Dropped(aps, mac)[j];
            && ap.(clients := aps[j].clients) == aps[j]
            && (j != HostOf(aps, mac) ==> ap == aps[j])
            && (j == HostOf(aps, mac) ==> ap.clients == Without(aps[j].clients, FirstMAC(aps[j].clients, mac)))
  {
    hide FirstMAC, HostOf, Without;
  }

  /** A lookup by name finds the same access point after a client has been lost. */
  lemma SameTarget(aps: seq<AP>, mac: string, name: string)
    requires HostOf(aps, mac) < |aps|
    ensures FirstNamed(Dropped(aps, mac), name) == FirstNamed(aps, name)
  {
    hide FirstMAC, HostOf, FirstNamed, Without;
    var j := HostOf(aps, mac);
    FirstNamedKept(aps, j, DropClient(aps[j], mac), name);
  }

  /** A roam that succeeds: the client is dropped, then joins the target. */
  lemma RoamEffect(aps: seq<AP>, op: Op)
    requires op.Roam? && Effect(aps, op).1.None?
    ensures HostOf(aps, op.mac) < |aps| && FirstNamed(aps, op.apName) < |aps|
    ensures var rest, t := Dropped(aps, op.mac), FirstNamed(aps, op.apName);
            Effect(aps, op).0 == rest[t := Joining(rest[t], Moved(TheClient(aps, op.mac), op.ssid))]
  {
    hide Dropped, TheClient, HostOf, FirstNamed, Joining, Moved;
    assert Effect(aps, op) == Roamed(aps, op.mac, op.apName, op.ssid) by { hide Roamed; }
    hide Effect;
    if HostOf(aps, op.mac) < |aps| { SameTarget(aps, op.mac, op.apName); }
  }

  /**
   Roaming that succeeds moves one client and touches no other: over the whole device the
   clients are those before, less the first with the address, plus it with its new SSID,
   now last in the first access point with the target's name.
   */
  lemma RoamConserves(aps: seq<AP>, op: Op)
    requires op.Roam? && Effect(aps, op).1.None?
    ensures HostOf(aps, op.mac) < |aps| && FirstNamed(aps, op.apName) < |aps| == |Effect(aps, op).0|
    ensures var c := TheClient(aps, op.mac);
            var moved := c.(ssid := if op.ssid == "" then c.ssid else op.ssid);
            && Clients(Effect(aps, op).0) + multiset{c} == Clients(aps) + multiset{moved}
            && var target := Effect(aps, op).0[FirstNamed(aps, op.apName)].clients;
               target != [] && target[|target| - 1] == moved
  {
    RoamEffect(aps, op);
    MovedIs(TheClient(aps, op.mac), op.ssid);
    hide Clients, Effect, Dropped, TheClient, HostOf, FirstNamed, Moved;
    var rest, c := Dropped(aps, op.mac), TheClient(aps, op.mac);
    DroppedCounts(aps, op.mac);
    JoiningCounts(rest, FirstNamed(aps, op.apName), Moved(c, op.ssid));
  }

  /** Roaming leaves the order and place of every other client as it was. */
  lemma RoamKeepsOthers(aps: seq<AP>, op: Op, j: nat)
    requires op.Roam? && Effect(aps, op).1.None? && j < |aps|
    ensures |Effect(aps, op).0| == |aps|
    ensures var after := Effect(aps, op).0[j];
            && after.(clients := aps[j].clients) == aps[j]
            && (j != HostOf(aps, op.mac) && j != FirstNamed(aps, op.apName) ==> after == aps[j])
            && (j == HostOf(aps, op.mac) ==>
                 Without(aps[j].clients, FirstMAC(aps[j].clients, op.mac)) <= after.clients)
            && (j != HostOf(aps, op.mac) ==> aps[j].clients <= after.clients)
  {
    RoamEffect(aps, op);
    DroppedAt(aps, op.mac, j);
    hide Effect, Dropped, TheClient, HostOf, FirstNamed, FirstMAC, Without, Moved;
  }

  /** Roaming an existing client to a missing target: the client is gone. */
  lemma LostClient(aps: seq<AP>, mac: string)
    requires HostOf(aps, mac) < |aps|
    ensures Dropped(aps, mac) != aps
    ensures Clients(Dropped(aps, mac)) + multiset{TheClient(aps, mac)} == Clients(aps)
  {
    DroppedCounts(aps, mac);
    DroppedAt(aps, mac, HostOf(aps, mac));
    hide Clients, FirstMAC, HostOf, Without, Dropped, TheClient;
    var j := HostOf(aps, mac);
    assert |Dropped(aps, mac)[j].clients| < |aps[j].clients|;
  }

  /** The one change that is made and then reported as an error: roaming to a missing target loses the client. */
  lemma ErrorsChangeNothingExactly(aps: seq<AP>, op: Op)
    requires Effect(aps, op).1.Some?
    ensures Effect(aps, op).0 == aps <==> Effect(aps, op).1 != Some(NoSuchTarget)
    ensures Effect(aps, op).1 == Some(NoSuchTarget) <==>
              op.Roam? && HostOf(aps, op.mac) < |aps| && FirstNamed(aps, op.apName) == |aps|
    ensures Effect(aps, op).1 == Some(NoSuchTarget) ==>
              Clients(Effect(aps, op).0) + multiset{TheClient(aps, op.mac)} == Clients(aps)
  {
    hide Clients, FirstMAC, HostOf, FirstNamed, Without, Dropped, TheClient;
    if op.Roam? && HostOf(aps, op.mac) < |aps| {
      LostClient(aps, op.mac);
      SameTarget(aps, op.mac, op.apName);
    }
  }

  // ---- What the other changes do, told from before and after ----

  /** Between before and after nothing but access point j has changed. */
  ghost predicate OnlyAP(before: seq<AP>, after: seq<AP>, j: nat) {
    |after| == |before| && j < |before| && forall k :: 0 <= k < |before| && k != j ==> after[k] == before[k]
  }

  /** A new client joins the first access point of that name, last, and no other client is touched. */
  lemma AddClientAdds(aps: seq<AP>, name: string, c: Client)
    ensures var (after, err) := Effect(aps, AddClient(name, c));
            var j := FirstNamed(aps, name);
            if forall k :: 0 <= k < |aps| ==> aps[k].name != name then after == aps && err == Some(NoSuchAP)
            else
              && err.None? && OnlyAP(aps, after, j)
              && after[j].clients == aps[j].clients + [c] && after[j].(clients := aps[j].clients) == aps[j]
              && Clients(after) == Clients(aps) + multiset{c}
  {
    hide Clients, FirstNamed;
    var j := FirstNamed(aps, name);
    if j < |aps| {
      assert aps[j].name == name;
      JoiningCounts(aps, j, c);
    }
  }

  /** Removing a client takes away the first one with the address and keeps the order of the rest. */
  lemma RemoveClientRemoves(aps: seq<AP>, mac: string)
    ensures var (after, err) := Effect(aps, RemoveClient(mac));
            if forall j, k :: 0 <= j < |aps| && 0 <= k < |aps[j].clients| ==> aps[j].clients[k].mac != mac
            then after == aps && err == Some(NoSuchClient)
            else
              && err.None? && HostOf(aps, mac) < |aps|
              && var j := HostOf(aps, mac);
                 var k := FirstMAC(aps[j].clients, mac);
                 && k < |aps[j].clients| && aps[j].clients[k].mac == mac
                 && (forall i :: 0 <= i < k ==> aps[j].clients[i].mac != mac)
                 && (forall h, i :: 0 <= h < j && 0 <= i < |aps[h].clients| ==> aps[h].clients[i].mac != mac)
                 && OnlyAP(aps, after, j) && after[j].(clients := aps[j].clients) == aps[j]
                 && after[j].clients == aps[j].clients[..k] + aps[j].clients[k + 1..]
                 && Clients(aps) == Clients(after) + multiset{aps[j].clients[k]}
  {
    hide Clients, FirstMAC, HostOf;
    var j := HostOf(aps, mac);
    forall h | 0 <= h < |aps| && !Hosts(aps[h], mac)
      ensures forall i :: 0 <= i < |aps[h].clients| ==> aps[h].clients[i].mac != mac {}
    if j < |aps| {
      var k := FirstMAC(aps[j].clients, mac);
      assert aps[j].clients[k].mac == mac;
      DroppedCounts(aps, mac);
    }
  }

  /** A new access point goes last; removing one takes exactly the first of that name, unless it is the built-in one. */
  lemma APsComeAndGo(aps: seq<AP>, ap: AP, name: string)
    ensures Effect(aps, AddAP(ap)) == (aps + [ap], None)
    ensures var (after, err) := Effect(aps, RemoveAP(name));
            var j := FirstNamed(aps, name);
            if forall k :: 0 <= k < |aps| ==> aps[k].name != name then after == aps && err == Some(NoSuchAP)
            else
              && j < |aps| && aps[j].name == name && (forall k :: 0 <= k < j ==> aps[k].name != name)
              && if aps[j].isDefault then after == aps && err == Some(IsDefaultAP)
                 else err.None? && after == aps[..j] + aps[j + 1..]
  {
    hide FirstNamed;
    var j := FirstNamed(aps, name);
    if j < |aps| { assert aps[j].name == name; }
  }

  /** Setting SSIDs changes the SSIDs of the first access point of that name and no client. */
  lemma SetSSIDsSets(aps: seq<AP>, name: string, ssids: seq<string>)
    ensures var (after, err) := Effect(aps, SetSSIDs(name, ssids));
            var j := FirstNamed(aps, name);
            if forall k :: 0 <= k < |aps| ==> aps[k].name != name then after == aps && err == Some(NoSuchAP)
            else
              && err.None? && OnlyAP(aps, after, j)
              && after[j].ssids == ssids && after[j].(ssids := aps[j].ssids) == aps[j]
              && Clients(after) == Clients(aps)
  {
    hide Clients, FirstNamed;
    var j := FirstNamed(aps, name);
    if j < |aps| {
      assert aps[j].name == name;
      var ap := aps[j].(ssids := ssids);
      ClientsUpdate(aps, j, ap);
      SameAfter(Clients(aps[j := ap]), Clients(aps), multiset(ap.clients));
    }
  }

  lemma SameAfter<T>(x: multiset<T>, y: multiset<T>, a: multiset<T>)
    requires x + a == y + a
    ensures x == y
  {
    forall e | e in x + y ensures x[e] == y[e] { assert (x + a)[e] == (y + a)[e]; }
  }

  /** Adding a client with a new address and removing it again changes nothing. */
  lemma AddRemoveClient(aps: seq<AP>, name: string, c: Client)
    requires Effect(aps, AddClient(name, c)).1.None?
    requires forall j, k :: 0 <= j < |aps| && 0 <= k < |aps[j].clients| ==> aps[j].clients[k].mac != c.mac
    ensures Effect(Effect(aps, AddClient(name, c)).0, RemoveClient(c.mac)) == (aps, None)
  {
    AddClientAdds(aps, name, c);
    var after, j := Effect(aps, AddClient(name, c)).0, FirstNamed(aps, name);
    RemoveClientRemoves(after, c.mac);
    hide Effect, Clients, FirstNamed, FirstMAC, HostOf;
    var n := |aps[j].clients|;
    assert after[j].clients[n] == c;
    var h := HostOf(after, c.mac);
    assert h == j;
    var k := FirstMAC(after[j].clients, c.mac);
    assert forall i :: 0 <= i < n ==> after[j].clients[i] == aps[j].clients[i];
    assert k == n;
    var again := Effect(after, RemoveClient(c.mac)).0;
    assert again[j].clients == aps[j].clients;
    assert again == aps;
  }

  // ---- The built-in access point stays ----

  lemma {:induction false} MarkedIgnoresClients(aps: seq<AP>, j: nat, ap: AP)
    requires j < |aps| && ap.isDefault == aps[j].isDefault
    ensures Marked(aps[j := ap]) == Marked(aps) && FirstMarked(aps[j := ap]) == FirstMarked(aps)
  {
    MarkedUpdate(aps, j, ap);
    FirstMarkedIs(aps[j := ap], FirstMarked(aps));
  }

  lemma SwapKeepsDefault(aps: seq<AP>, j: nat, ap: AP, hostname: string)
    requires j < |aps| && ap.isDefault == aps[j].isDefault && ap.name == aps[j].name
    ensures OneDefaultIn(aps[j := ap], hostname) <==> OneDefaultIn(aps, hostname)
  {
    MarkedIgnoresClients(aps, j, ap);
  }

  lemma RemovalKeepsDefault(aps: seq<AP>, j: nat, hostname: string)
    requires j < |aps| && !aps[j].isDefault && OneDefaultIn(aps, hostname)
    ensures OneDefaultIn(Without(aps, j), hostname)
  {
    var i := FirstMarked(aps);
    MarkedWithout(aps, j);
    hide FirstMarked, Marked;
    FirstMarkedIs(Without(aps, j), if i < j then i else i - 1);
  }

  lemma MarkedWithout(aps: seq<AP>, j: nat)
    requires j < |aps|
    ensures Marked(Without(aps, j)) == Marked(aps) - if aps[j].isDefault then 1 else 0
  {
    hide Marked, Without;
    var front, back := aps[..j], aps[j + 1..];
    WithoutSplits(aps, j);
    MarkedOne(aps[j]);
    MarkedAppend(front, [aps[j]]);
    MarkedAppend(front + [aps[j]], back);
    MarkedAppend(front, back);
  }

  lemma MarkedOne(ap: AP)
    ensures Marked([ap]) == if ap.isDefault then 1 else 0
  {
    assert [ap][1..] == [] && Marked([]) == 0;
  }

  lemma AdditionKeepsDefault(aps: seq<AP>, ap: AP, hostname: string)
    requires OneDefaultIn(aps, hostname)
    ensures OneDefaultIn(aps + [ap], hostname) <==> !ap.isDefault
  {
    MarkedAppend(aps, [ap]);
    assert [ap][1..] == [] && Marked([]) == 0;
    UniqueMarked(aps + [ap], FirstMarked(aps));
  }

  /**
   Every change keeps the one built-in access point, named after the site, except adding an
   access point that is itself marked.
   */
  lemma DefaultKeptExactly(aps: seq<AP>, op: Op, hostname: string)
    requires OneDefaultIn(aps, hostname)
    ensures OneDefaultIn(Effect(aps, op).0, hostname) <==> !(op.AddAP? && op.ap.isDefault)
  {
    hide OneDefaultIn, FirstMAC, HostOf, FirstNamed, Without, Dropped, TheClient;
    match op {
      case AddAP(ap) => AdditionKeepsDefault(aps, ap, hostname);
      case RemoveAP(name) =>
        var j := FirstNamed(aps, name);
        if j < |aps| && !aps[j].isDefault { RemovalKeepsDefault(aps, j, hostname); }
      case AddClient(name, c) =>
        var j := FirstNamed(aps, name);
        if j < |aps| { SwapKeepsDefault(aps, j, Joining(aps[j], c), hostname); }
      case SetSSIDs(name, ssids) =>
        var j := FirstNamed(aps, name);
        if j < |aps| { SwapKeepsDefault(aps, j, aps[j].(ssids := ssids), hostname); }
      case RemoveClient(mac) =>
        DropKeepsDefault(aps, mac, hostname);
      case Roam(mac, name, ssid) =>
        DropKeepsDefault(aps, mac, hostname);
        if HostOf(aps, mac) < |aps| {
          var rest, c := Dropped(aps, mac), TheClient(aps, mac);
          var j := FirstNamed(rest, name);
          if j < |rest| { SwapKeepsDefault(rest, j, Joining(rest[j], Moved(c, ssid)), hostname); }
        }
    }
  }

  lemma DropKeepsDefault(aps: seq<AP>, mac: string, hostname: string)
    ensures HostOf(aps, mac) < |aps| ==> (OneDefaultIn(Dropped(aps, mac), hostname) <==> OneDefaultIn(aps, hostname))
  {
    hide OneDefaultIn, FirstMAC, HostOf, Without;
    var j := HostOf(aps, mac);
    if j < |aps| { SwapKeepsDefault(aps, j, DropClient(aps[j], mac), hostname); }
  }

  function Effects(aps: seq<AP>, ops: seq<Op>): seq<AP>
    decreases |ops|
  {
    if ops == [] then aps else Effects(Effect(aps, ops[0]).0, ops[1..])
  }

  /** Over any run of changes, none of which adds a marked access point, the built-in one stays. */
  lemma {:induction false} DefaultKeptOverRuns(aps: seq<AP>, ops: seq<Op>, hostname: string)
    requires OneDefaultIn(aps, hostname)
    requires forall i :: 0 <= i < |ops| && ops[i].AddAP? ==> !ops[i].ap.isDefault
    ensures OneDefaultIn(Effects(aps, ops), hostname)
    decreases |ops|
  {
    hide Effect, OneDefaultIn;
    if ops == [] {
    } else {
      DefaultKeptExactly(aps, ops[0], hostname);
      DefaultKeptOverRuns(Effect(aps, ops[0]).0, ops[1..], hostname);
    }
  }
}
