/**
 The running simulator, one operation at a time: the devices, each with its cached
 rendering, the handles of the running servers by address, and the saved state file.
 Which writes fail and which address changes the host refuses is arbitrary.
 */
module Simulator {
  import opened Wrappers
  import opened Device
  import opened Config
  import opened Roster
  import opened Ledger

  // ---- The searches and edits inside one device ----

  method FindAP(aps: seq<AP>, name: string) returns (j: nat)
    ensures j == FirstNamed(aps, name)
  {
    j := 0;
    while j < |aps| && aps[j].name != name
      invariant j <= |aps| && forall k :: 0 <= k < j ==> aps[k].name != name
    {
      j := j + 1;
    }
    FirstNamedIs(aps, name, j);
  }

  method FindMAC(cs: seq<Client>, mac: string) returns (k: nat)
    ensures k == FirstMAC(cs, mac)
  {
    k := 0;
    while k < |cs| && cs[k].mac != mac
      invariant k <= |cs| && forall n :: 0 <= n < k ==> cs[n].mac != mac
    {
      k := k + 1;
    }
  }

  method FindHost(aps: seq<AP>, mac: string) returns (j: nat, k: nat)
    ensures j == HostOf(aps, mac) && (j < |aps| ==> k == FirstMAC(aps[j].clients, mac))
  {
    j, k := 0, 0;
    while j < |aps|
      invariant j <= |aps| && forall n :: 0 <= n < j ==> !Hosts(aps[n], mac)
    {
      k := FindMAC(aps[j].clients, mac);
      if k < |aps[j].clients| { return; }
      j := j + 1;
    }
  }

  /** Carries out one change on a device, its cache untouched. */
  method Edit(d: Device, op: Op) returns (err: Option<OpError>)
    modifies d`site
    ensures (d.site.aps, err) == Effect(old(d.site.aps), op)
    ensures d.site == old(d.site).(aps := d.site.aps)
  {
    var aps := d.site.aps;
    match op
    case AddAP(ap) =>
      d.site := d.site.(aps := aps + [ap]);
      return None;
    case RemoveAP(name) =>
      var j := FindAP(aps, name);
      if j == |aps| { return Some(NoSuchAP); }
      if aps[j].isDefault { return Some(IsDefaultAP); }
      d.site := d.site.(aps := aps[..j] + aps[j + 1..]);
      return None;
    case AddClient(name, c) =>
      var j := FindAP(aps, name);
      if j == |aps| { return Some(NoSuchAP); }
      d.site := d.site.(aps := aps[j := aps[j].(clients := aps[j].clients + [c])]);
      return None;
    case RemoveClient(mac) =>
      var j, k := FindHost(aps, mac);
      if j == |aps| { return Some(NoSuchClient); }
      d.site := d.site.(aps := aps[j := aps[j].(clients := aps[j].clients[..k] + aps[j].clients[k + 1..])]);
      return None;
    case SetSSIDs(name, ssids) =>
      var j := FindAP(aps, name);
      if j == |aps| { return Some(NoSuchAP); }
      d.site := d.site.(aps := aps[j := aps[j].(ssids := ssids)]);
      return None;
    case Roam(mac, name, ssid) =>
      err := EditRoam(d, mac, name, ssid);
  }

  method EditRoam(d: Device, mac: string, name: string, ssid: string) returns (err: Option<OpError>)
    modifies d`site
    ensures (d.site.aps, err) == Effect(old(d.site.aps), Roam(mac, name, ssid))
    ensures d.site == old(d.site).(aps := d.site.aps)
  {
    var aps := d.site.aps;
    var j, k := FindHost(aps, mac);
    if j == |aps| { return Some(NoSuchClient); }
    var client := aps[j].clients[k];
    aps := aps[j := aps[j].(clients := aps[j].clients[..k] + aps[j].clients[k + 1..])];
    d.site := d.site.(aps := aps);
    if ssid != "" { client := client.(ssid := ssid); }
    var t := FindAP(aps, name);
    if t == |aps| { return Some(NoSuchTarget); }
    d.site := d.site.(aps := aps[t := aps[t].(clients := aps[t].clients + [client])]);
    return None;
  }

  /** Edits one device, and renders it afresh if that went well. */
  method EditAndRender(d: Device, op: Op, template: string) returns (err: Option<OpError>)
    requires Ahead(d.cached, d.site)
    modifies d
    ensures (d.site.aps, err) == Effect(old(d.site.aps), op)
    ensures d.site == old(d.site).(aps := d.site.aps)
    ensures err.Some? ==> d.cached == old(d.cached)
    ensures Ahead(d.cached, d.site)
    ensures IsRendering(d.cached, d.site, template) <==>
              err.None? || (err != Some(NoSuchTarget) && IsRendering(old(d.cached), old(d.site), template))
  {
    hide IsRendering, Effect, Ahead;
    err := Edit(d, op);
    if err.None? {
      d.InitConfig(template);
      RenderedAhead(d.cached, d.site, template);
    } else {
      FailedEdit(d.cached, old(d.site), d.site, op, template);
    }
  }

  /** A cached rendering never shows fewer clients than the device has: only a failed roam makes them differ. */
  ghost predicate Ahead(r: Rendering, site: Site) {
    r.Rendered? ==> |Clients(site.aps)| <= |Clients(r.data.aps)|
  }

  lemma RenderedAhead(r: Rendering, site: Site, template: string)
    requires IsRendering(r, site, template)
    ensures Ahead(r, site)
  {}

  lemma LosingMakesStale(r: Rendering, site: Site, site': Site, template: string)
    requires Ahead(r, site) && |Clients(site'.aps)| < |Clients(site.aps)|
    ensures Ahead(r, site') && !IsRendering(r, site', template)
  {}

  ghost function SitesOf(devices: seq<Device>): (v: seq<Site>)
    reads devices
    ensures |v| == |devices| && forall i :: 0 <= i < |v| ==> v[i] == devices[i].site
  {
    seq(|devices|, i requires 0 <= i < |devices| reads devices => devices[i].site)
  }

  method Sites(devices: seq<Device>) returns (sites: seq<Site>)
    ensures sites == SitesOf(devices)
  {
    sites := [];
    for i := 0 to |devices|
      invariant |sites| == i && forall k :: 0 <= k < i ==> sites[k] == devices[k].site
    {
      sites := sites + [devices[i].site];
    }
  }

  ghost function AccountsOf(devices: seq<Device>, template: string): (b: Book)
    reads devices
    ensures b.sites == SitesOf(devices) && |b.current| == |devices|
    ensures forall i :: 0 <= i < |devices| ==> b.current[i] == IsRendering(devices[i].cached, devices[i].site, template)
  {
    Book(SitesOf(devices), seq(|devices|, i requires 0 <= i < |devices| reads devices =>
                                            IsRendering(devices[i].cached, devices[i].site, template)))
  }

  lemma AccountsAre(devices: seq<Device>, template: string, b: Book)
    requires |b.sites| == |b.current| == |devices|
    requires forall i :: 0 <= i < |devices| ==>
               && b.sites[i] == devices[i].site
               && b.current[i] == IsRendering(devices[i].cached, devices[i].site, template)
    ensures AccountsOf(devices, template) == b
  {
    hide IsRendering;
    assert AccountsOf(devices, template).sites == b.sites && AccountsOf(devices, template).current == b.current;
  }

  lemma AccountsExtended(devices: seq<Device>, template: string, d: Device)
    ensures var b := AccountsOf(devices, template);
            AccountsOf(devices + [d], template)
            == Book(b.sites + [d.site], b.current + [IsRendering(d.cached, d.site, template)])
  {
    hide IsRendering;
    var b := AccountsOf(devices, template);
    AccountsAre(devices + [d], template,
                Book(b.sites + [d.site], b.current + [IsRendering(d.cached, d.site, template)]));
  }

  lemma AccountsShortened(devices: seq<Device>, template: string, i: nat)
    requires i < |devices|
    ensures var b := AccountsOf(devices, template);
            AccountsOf(Without(devices, i), template) == Book(Without(b.sites, i), Without(b.current, i))
  {
    hide IsRendering, Without;
    var b := AccountsOf(devices, template);
    AccountsAre(Without(devices, i), template, Book(Without(b.sites, i), Without(b.current, i)));
  }

  /** Distinct devices, none with a cache that is behind. */
  ghost predicate Fit(devices: seq<Device>)
    reads devices
  {
    && (forall i, j :: 0 <= i < j < |devices| ==> devices[i] != devices[j])
    && (forall i :: 0 <= i < |devices| ==> Ahead(devices[i].cached, devices[i].site))
  }

  lemma FitExtended(devices: seq<Device>, d: Device)
    requires Fit(devices) && d !in devices && Ahead(d.cached, d.site)
    ensures Fit(devices + [d])
  {
    hide Ahead;
  }

  lemma FitShortened(devices: seq<Device>, i: nat)
    requires Fit(devices) && i < |devices|
    ensures Fit(Without(devices, i))
  {
    hide Ahead, Without;
  }

  /** The book after a change of device i alone. */
  lemma OneEdited(devices: seq<Device>, i: nat, template: string, b: Book)
    requires i < |devices| == |b.sites| == |b.current|
    requires forall k :: 0 <= k < |devices| && k != i ==>
               && b.sites[k] == devices[k].site
               && b.current[k] == IsRendering(devices[k].cached, devices[k].site, template)
    ensures AccountsOf(devices, template)
            == Book(b.sites[i := devices[i].site],
                    b.current[i := IsRendering(devices[i].cached, devices[i].site, template)])
  {
    hide IsRendering;
    AccountsAre(devices, template,
                Book(b.sites[i := devices[i].site],
                     b.current[i := IsRendering(devices[i].cached, devices[i].site, template)]));
  }

  class Simulator {
    const template: string
    const statePath: string            // "" disables saving
    const seed: Option<Settings>       // what the seed file holds, if it can be loaded
    const saveFails: nat -> bool
    const addFails: nat -> bool
    const dropFails: nat -> bool
    var devices: seq<Device>
    var auth: Auth
    var handles: map<string, nat>      // running servers by device address
    var started: nat                   // how many have been started
    var file: Option<Settings>         // the state file
    var saves: nat                     // writes and deletions of it attempted
    var addrs: set<string>             // addresses on the loopback interface
    var changes: nat                   // address changes attempted

    ghost predicate Valid()
      reads `devices, devices
    {
      Fit(devices)
    }

    /**
     Started on loaded devices, each rendered with the template, with their addresses set up.
     The state file holds whatever it held. No servers run yet.
     */
    constructor (template: string, statePath: string, seed: Option<Settings>, auth: Auth, loaded: seq<Device>,
                 addrs: set<string>, file: Option<Settings>,
                 saveFails: nat -> bool, addFails: nat -> bool, dropFails: nat -> bool)
      requires forall i, j :: 0 <= i < j < |loaded| ==> loaded[i] != loaded[j]
      requires forall i :: 0 <= i < |loaded| ==> IsRendering(loaded[i].cached, loaded[i].site, template)
      ensures Valid() && Accounts() == AllCurrent(SitesOf(loaded))
      ensures devices == loaded && handles == map[] && this.file == file
      ensures this.template == template && this.statePath == statePath && this.seed == seed
      ensures this.auth == auth && this.addrs == addrs
    {
      this.template, this.statePath, this.seed, this.auth := template, statePath, seed, auth;
      this.saveFails, this.addFails, this.dropFails := saveFails, addFails, dropFails;
      this.devices, handles, started, this.file, saves := loaded, map[], 0, file, 0;
      this.addrs, changes := addrs, 0;
      new;
      hide IsRendering;
      forall i | 0 <= i < |loaded| ensures Ahead(loaded[i].cached, loaded[i].site) {
        RenderedAhead(loaded[i].cached, loaded[i].site, template);
      }
    }

    /** Starts every device's servers; they match the list exactly if the addresses are distinct. */
    method StartAll()
      requires handles == map[]
      modifies `handles, `started
      ensures handles.Keys == IPs(View())
      ensures Matched() <==> DistinctIPs(View())
    {
      for i := 0 to |devices|
        invariant handles.Keys == IPs(View()[..i])
      {
        handles, started := handles[devices[i].site.ip := started], started + 1;
        assert View()[..i + 1] == View()[..i] + [View()[i]];
        ListingIPs(View()[..i], View()[i]);
      }
      assert View()[..|devices|] == View();
    }

    ghost function View(): (v: seq<Site>)
      reads `devices, devices
      ensures |v| == |devices|
    {
      SitesOf(devices)
    }

    /** The listed sites, and for each whether its cached config is a rendering of its current fields. */
    ghost function Accounts(): (b: Book)
      reads `devices, devices
      ensures b.sites == View() && |b.current| == |devices|
    {
      AccountsOf(devices, template)
    }

    ghost function Snapshot(): Settings
      reads `auth, `devices, devices
    {
      Settings(auth, View())
    }

    ghost function Recorded(): Record
      reads `auth, `file, `devices, devices
    {
      Record(Accounts(), auth, file)
    }

    /** There is a state file to write, and every write and deletion of it works. */
    ghost predicate WritesWork() { statePath != "" && forall k :: !saveFails(k) }

    /** The servers running are those of the listed devices, one per address. */
    ghost predicate Matched()
      reads `handles, `devices, devices
    {
      DistinctIPs(View()) && handles.Keys == IPs(View())
    }

    ghost predicate SavesNow()
      reads `saves
    {
      statePath != "" && !saveFails(saves)
    }

    method SaveLocked() returns (ok: bool)
      modifies `file, `saves
      ensures ok == (statePath == "" || !saveFails(old(saves)))
      ensures file == if old(SavesNow()) then Some(Snapshot()) else old(file)
    {
      if statePath == "" { return true; }
      ok := !saveFails(saves);
      saves := saves + 1;
      if ok {
        var sites := Sites(devices);
        file := Some(Settings(auth, sites));
        assert View() == sites;
      }
    }

    method FindDevice(ip: string) returns (i: nat)
      ensures i == FirstIP(View(), ip) && (i < |devices| ==> View()[i].ip == ip)
    {
      i := 0;
      while i < |devices| && devices[i].site.ip != ip
        invariant i <= |devices| && forall k :: 0 <= k < i ==> devices[k].site.ip != ip
      {
        i := i + 1;
      }
    }

    /**
     The change itself: find the device, edit it, and if that went well render it afresh.
     Roaming to a missing access point has already taken the client away when it reports the
     error, so the cached config is then stale; nothing else that fails changes anything, and
     no other device is touched.
     */
    method EditDevice(ip: string, op: Op) returns (err: Option<Error>)
      requires Valid()
      modifies devices
      ensures Valid() && (Accounts(), err) == Changed(old(Accounts()), ip, op)
      ensures forall k :: 0 <= k < |devices| && (err.Some? || k != FirstIP(old(View()), ip)) ==>
                devices[k].cached == old(devices[k].cached)
    {
      hide IsRendering, Effect, Changed, Ahead, AccountsOf, SitesOf;
      ghost var before := Accounts();
      var i := FindDevice(ip);
      ChangedIs(before, ip, op);
      if i == |devices| { return Some(NoSuchDevice); }
      var e := EditAndRender(devices[i], op, template);
      OneEdited(devices, i, template, before);
      err := if e.None? then None else Some(NoChange(e.value));
    }

    /**
     AddAP, RemoveAP, AddClient, RemoveClient, UpdateAPSSIDs and UpdateClient. A call that
     returns nil has changed exactly the addressed device, rendered it and saved; an error
     saves nothing and, but for roaming to a missing access point, changes nothing. The other
     devices' caches are as current or as stale as they were.
     */
    method Mutate(ip: string, op: Op) returns (err: Option<Error>)
      requires Valid()
      modifies this, devices
      ensures Valid() && devices == old(devices) && auth == old(auth)
      ensures handles == old(handles) && addrs == old(addrs)
      ensures Possible(old(Accounts()), Change(ip, op), err, seed)
      ensures Accounts() == After(old(Accounts()), Change(ip, op), err, seed)
      ensures forall k :: 0 <= k < |devices| && (err.Some? || k != FirstIP(old(View()), ip)) ==>
                devices[k].cached == old(devices[k].cached)
      ensures file == if err.None? && old(SavesNow()) then Some(Snapshot()) else old(file)
      ensures old(Matched()) ==> Matched()
    {
      hide IsRendering, Changed, Fit, AccountsOf, SitesOf, IPs, DistinctIPs;
      err := EditDevice(ip, op);
      if err.None? { var _ := SaveLocked(); }
      AddressesKept(old(Accounts()), ip, op);
    }

    // ---- Whole devices ----

    method AddIP(ip: string) returns (ok: bool)
      modifies `addrs, `changes
      ensures ok == (ip !in old(addrs) && !addFails(old(changes))) && changes == old(changes) + 1
      ensures addrs == if ok then old(addrs) + {ip} else old(addrs)
    {
      ok := ip !in addrs && !addFails(changes);
      changes := changes + 1;
      if ok { addrs := addrs + {ip}; }
    }

    method DropIP(ip: string)
      modifies `addrs, `changes
      ensures addrs == (if dropFails(old(changes)) then old(addrs) else old(addrs) - {ip})
      ensures changes == old(changes) + 1
    {
      if !dropFails(changes) { addrs := addrs - {ip}; }
      changes := changes + 1;
    }

    /** Why a device cannot be added, if it cannot. */
    ghost function Refusal(site: Site): Option<Error>
      reads this, devices
    {
      if site.hostname == "" then Some(HostnameRequired)
      else if site.ip == "" then Some(IPRequired)
      else if FirstIP(View(), site.ip) < |devices| then Some(DuplicateIP)
      else if site.ip in addrs || addFails(changes) then Some(CannotAddIP)
      else None
    }

    /** A device ready to run, prepared without touching the simulator. */
    method Prepare(site: Site) returns (d: Device)
      ensures fresh(d) && d.site == EnsureDefault(DefaultScalars(site)) && d.site.ip == site.ip
      ensures IsRendering(d.cached, d.site, template)
    {
      hide IsRendering, EnsureDefault;
      d := new Device(DefaultScalars(site));
      d.EnsureDefaultAP();
      EnsureKeepsScalars(DefaultScalars(site));
      d.InitConfig(template);
    }

    /** Lists a rendered device and starts its servers. */
    method Launch(d: Device)
      requires Valid() && d !in devices && IsRendering(d.cached, d.site, template)
      modifies `devices, `handles, `started
      ensures Valid() && devices == old(devices) + [d]
      ensures Accounts() == Book(old(View()) + [d.site], old(Accounts()).current + [true])
      ensures handles == old(handles)[d.site.ip := old(started)]
    {
      hide IsRendering, Ahead, AccountsOf, SitesOf, Fit;
      RenderedAhead(d.cached, d.site, template);
      FitExtended(devices, d);
      devices := devices + [d];
      handles, started := handles[d.site.ip := started], started + 1;
      AccountsExtended(old(devices), template, d);
    }

    /** Lists a prepared device, starts its servers and saves. */
    method Commit(d: Device)
      requires Valid() && d !in devices
      requires IsRendering(d.cached, d.site, template) && FirstIP(View(), d.site.ip) == |devices|
      modifies `devices, `handles, `started, `file, `saves
      ensures Valid() && devices == old(devices) + [d]
      ensures Accounts() == Book(old(View()) + [d.site], old(Accounts()).current + [true])
      ensures handles == old(handles)[d.site.ip := old(started)]
      ensures file == if old(SavesNow()) then Some(Snapshot()) else old(file)
      ensures old(Matched()) ==> Matched()
    {
      hide IsRendering, Ahead, AccountsOf, SitesOf, Valid, IPs, DistinctIPs;
      if DistinctIPs(View()) { ListingMatches(View(), d.site); }
      Launch(d);
      var _ := SaveLocked();
    }

    /**
     A new device goes last, with defaults expanded and its built-in access point, rendered,
     running, and saved; when it is refused nothing at all changes.
     */
    method AddDevice(site: Site) returns (err: Option<Error>)
      requires Valid()
      modifies this
      ensures Valid() && auth == old(auth) && err == old(Refusal(site))
      ensures Possible(old(Accounts()), Add(site), err, seed)
      ensures Accounts() == After(old(Accounts()), Add(site), err, seed)
      ensures err.Some? ==>
                devices == old(devices) && handles == old(handles) && addrs == old(addrs) && file == old(file)
      ensures err.None? ==>
                && handles == old(handles)[site.ip := old(started)] && addrs == old(addrs) + {site.ip}
                && file == if old(SavesNow()) then Some(Snapshot()) else old(file)
      ensures old(Matched()) ==> Matched()
      ensures forall k :: 0 <= k < |devices| ==> devices[k] in old(devices) || fresh(devices[k])
    {
      hide IsRendering, EnsureDefault, DefaultScalars, Matched, View, Accounts, Valid;
      hide Changed, Replaced, Without, FirstIP, Defaulted, AllCurrent;
      if site.hostname == "" { return Some(HostnameRequired); }
      if site.ip == "" { return Some(IPRequired); }
      var i := FindDevice(site.ip);
      if i < |devices| { return Some(DuplicateIP); }
      var d := Prepare(site);
      var added := AddIP(site.ip);
      if !added { return Some(CannotAddIP); }
      Commit(d);
      return None;
    }

    /** The locked part of a removal. */
    method Unlist(i: nat)
      requires Valid() && i < |devices|
      modifies `devices, `handles, `file, `saves
      ensures Valid() && devices == Without(old(devices), i)
      ensures Accounts() == Book(Without(old(View()), i), Without(old(Accounts()).current, i))
      ensures handles == old(handles) - {old(View())[i].ip}
      ensures file == if old(SavesNow()) then Some(Snapshot()) else old(file)
      ensures old(Matched()) ==> Matched()
    {
      hide IsRendering, Fit, AccountsOf, SitesOf, IPs, DistinctIPs;
      FitShortened(devices, i);
      ghost var before := Accounts();
      var ip := devices[i].site.ip;
      devices := devices[..i] + devices[i + 1..];
      handles := handles - {ip};
      AccountsShortened(old(devices), template, i);
      assert devices == Without(old(devices), i);
      if DistinctIPs(before.sites) { UnlistingMatches(before.sites, i); }
      var _ := SaveLocked();
    }

    /** The first device with the address goes, with its server; a missing one changes nothing. */
    method RemoveDevice(ip: string) returns (err: Option<Error>)
      requires Valid()
      modifies this
      ensures Valid() && auth == old(auth)
      ensures Possible(old(Accounts()), Remove(ip), err, seed)
      ensures Accounts() == After(old(Accounts()), Remove(ip), err, seed)
      ensures err.Some? ==>
                devices == old(devices) && handles == old(handles) && addrs == old(addrs) && file == old(file)
      ensures err.None? ==>
                && handles == old(handles) - {ip}
                && addrs == (if dropFails(old(changes)) then old(addrs) else old(addrs) - {ip})
                && changes == old(changes) + 1
                && file == if old(SavesNow()) then Some(Snapshot()) else old(file)
      ensures old(Matched()) ==> Matched()
      ensures DistinctIPs(old(View())) ==> ip !in IPs(View())
      ensures forall k :: 0 <= k < |devices| ==> devices[k] in old(devices)
    {
      hide IsRendering, Matched, View, Accounts, Valid;
      hide Changed, Replaced, Without, FirstIP, Defaulted, AllCurrent, NewSite;
      var i := FindDevice(ip);
      if i == |devices| {
        NotListed(View(), ip);
        return Some(NoSuchDevice);
      }
      if DistinctIPs(View()) { UnlistingMatches(View(), i); }
      Unlist(i);
      DropIP(ip);
      return None;
    }

    /** With no address change refused, a device can be removed and added again, and has its address. */
    method RemoveAndAdd(site: Site) returns (removed: Option<Error>, added: Option<Error>)
      requires Valid() && DistinctIPs(View()) && FirstIP(View(), site.ip) < |devices|
      requires site.hostname != "" && site.ip != ""
      requires !dropFails(changes) && !addFails(changes + 1)
      modifies this
      ensures removed == None && added == None && Valid()
      ensures View() == Without(old(View()), FirstIP(old(View()), site.ip)) + [NewSite(site)]
      ensures addrs == old(addrs) + {site.ip} && site.ip in handles
    {
      hide IsRendering, Fit, AccountsOf, NewSite, Changed, Replaced, Without, Matched, Defaulted;
      ghost var rest := Without(View(), FirstIP(View(), site.ip));
      removed := RemoveDevice(site.ip);
      assert View() == rest;
      NotListed(View(), site.ip);
      added := AddDevice(site);
    }

    // ---- Replacing everything ----

    /** Adds the addresses that are missing, stopping at the first that is refused. */
    method SetupIPs(sites: seq<Site>) returns (ok: bool)
      modifies `addrs, `changes
      ensures old(addrs) <= addrs <= old(addrs) + IPs(sites)
      ensures ok <==> addrs == old(addrs) + IPs(sites)
      ensures ok <==> IPs(sites) <= addrs
      ensures old(changes) <= changes
      ensures ok <==> forall k :: old(changes) <= k < changes ==> !addFails(k)
    {
      for i := 0 to |sites|
        invariant old(addrs) <= addrs <= old(addrs) + IPs(sites)
        invariant forall k :: 0 <= k < i ==> sites[k].ip in addrs
        invariant old(changes) <= changes && forall k :: old(changes) <= k < changes ==> !addFails(k)
      {
        if sites[i].ip !in addrs {
          var added := AddIP(sites[i].ip);
          if !added { return false; }
        }
      }
      return true;
    }

    /** No removal of the address, the k-th being change number first + k, went through. */
    ghost predicate Kept(view: seq<Site>, ip: string, first: nat) {
      forall k :: 0 <= k < |view| && view[k].ip == ip ==> dropFails(first + k)
    }

    lemma KeptMore(view: seq<Site>, k: nat, first: nat)
      requires k < |view|
      ensures forall ip :: Kept(view[..k + 1], ip, first) <==>
                             Kept(view[..k], ip, first) && (view[k].ip == ip ==> dropFails(first + k))
    {
      forall ip
        ensures Kept(view[..k + 1], ip, first) <==>
                  Kept(view[..k], ip, first) && (view[k].ip == ip ==> dropFails(first + k))
      {
        forall i | 0 <= i < k ensures view[..k + 1][i] == view[..k][i] {}
        assert view[..k + 1][k] == view[k];
        if Kept(view[..k + 1], ip, first) {
          forall i | 0 <= i < k && view[..k][i].ip == ip ensures dropFails(first + i) {
            assert view[..k + 1][i].ip == ip;
          }
        }
      }
    }

    method TearDown()
      modifies `devices, `handles, `addrs, `changes
      ensures devices == [] && handles == map[]
      ensures changes == old(changes) + |old(devices)|
      ensures forall ip :: ip in addrs <==> ip in old(addrs) && Kept(old(View()), ip, old(changes))
    {
      ghost var view := View();
      for k := 0 to |devices|
        invariant devices == old(devices) && changes == old(changes) + k && View() == view
        invariant forall ip :: ip in addrs <==> ip in old(addrs) && Kept(view[..k], ip, old(changes))
      {
        KeptMore(view, k, old(changes));
        DropIP(devices[k].site.ip);
      }
      assert view[..|view|] == view;
      devices, handles := [], map[];
    }

    lemma NoDevicesValid()
      requires devices == []
      ensures Valid()
    {}

    method BringUp(sites: seq<Site>)
      requires devices == [] && handles == map[]
      modifies `devices, `handles, `started
      ensures Valid() && Accounts() == AllCurrent(sites) && handles.Keys == IPs(sites)
      ensures forall k :: 0 <= k < |devices| ==> fresh(devices[k])
    {
      hide IsRendering, AccountsOf, SitesOf, IPs, Valid, AllCurrent;
      NoIPs();
      NoDevicesValid();
      AccountsAre(devices, template, AllCurrent([]));
      for i := 0 to |sites|
        invariant Valid() && Accounts() == AllCurrent(sites[..i])
        invariant forall k :: 0 <= k < |devices| ==> fresh(devices[k])
        invariant handles.Keys == IPs(sites[..i])
      {
        var d := new Device(sites[i]);
        d.InitConfig(template);
        OneMoreSite(sites, i);
        Launch(d);
      }
      assert sites[..|sites|] == sites;
    }

    /**
     Tears everything down, then brings the new set up. It fails exactly if the host refuses
     an address, which is exactly if some address is then missing, and leaves the simulator
     empty; in no case is the state file touched.
     */
    method ApplyConfig(newAuth: Auth, sites: seq<Site>) returns (err: Option<Error>)
      modifies this
      ensures Valid() && auth == newAuth && file == old(file) && saves == old(saves)
      ensures err == None || err == Some(CannotAddIP)
      ensures err.None? <==> IPs(sites) <= addrs
      ensures err.None? <==> forall k :: old(changes) + |old(devices)| <= k < changes ==> !addFails(k)
      ensures Accounts() == AllCurrent(if err.None? then sites else [])
      ensures handles.Keys == IPs(View())
      ensures Matched() <==> err.Some? || DistinctIPs(sites)
      ensures forall k :: 0 <= k < |devices| ==> fresh(devices[k])
      ensures err.None? ==> forall ip :: ip in addrs <==>
                ip in IPs(sites) || (ip in old(addrs) && Kept(old(View()), ip, old(changes)))
    {
      hide IsRendering, Ahead, Kept;
      TearDown();
      auth := newAuth;
      AccountsAre(devices, template, AllCurrent([]));
      if sites == [] { return None; }
      var ok := SetupIPs(sites);
      if !ok { return Some(CannotAddIP); }
      BringUp(sites);
      return None;
    }

    /** Import: nil means the file, if there is to be one, holds what now runs. */
    method ImportConfig(parsed: Option<Settings>) returns (err: Option<Error>)
      requires Valid()
      modifies this
      ensures Valid()
      ensures Possible(old(Accounts()), Import(parsed), err, seed)
      ensures Accounts() == After(old(Accounts()), Import(parsed), err, seed)
      ensures old(Matched()) && DistinctCall(Import(parsed), seed) ==> Matched()
      ensures err == Some(BadConfig) ==>
                devices == old(devices) && auth == old(auth) && handles == old(handles) && addrs == old(addrs)
      ensures err != None ==> file == old(file)
      ensures err != Some(BadConfig) ==> auth == Defaulted(parsed.value).auth && handles.Keys == IPs(View())
      ensures err == None || err == Some(CannotSave) ==>
                Snapshot() == Defaulted(parsed.value) && IPs(View()) <= addrs
      ensures err == None && statePath != "" ==> file == Some(Snapshot())
      ensures err == Some(CannotSave) ==> statePath != "" && saveFails(old(saves))
      ensures forall k :: 0 <= k < |devices| ==> devices[k] in old(devices) || fresh(devices[k])
    {
      hide IsRendering, Defaulted, Ahead, AccountsOf, SitesOf, IPs, DistinctIPs;
      if parsed.None? { return Some(BadConfig); }
      var c := Defaulted(parsed.value);
      err := ApplyConfig(c.auth, c.devices);
      if err.None? {
        var ok := SaveLocked();
        if !ok { err := Some(CannotSave); }
      }
    }

    /** Factory reset: nil means the seed runs and no state file is left to override it. */
    method FactoryReset() returns (err: Option<Error>)
      requires Valid()
      modifies this
      ensures Valid()
      ensures Possible(old(Accounts()), Reset, err, seed)
      ensures Accounts() == After(old(Accounts()), Reset, err, seed)
      ensures old(Matched()) && DistinctCall(Reset, seed) ==> Matched()
      ensures err == Some(BadConfig) ==> devices == old(devices) && auth == old(auth) && handles == old(handles)
      ensures err != None ==> file == old(file)
      ensures err != Some(BadConfig) ==> auth == Defaulted(seed.value).auth && handles.Keys == IPs(View())
      ensures err == None || err == Some(CannotSave) ==>
                Snapshot() == Defaulted(seed.value) && IPs(View()) <= addrs
      ensures err == None ==> file == if statePath == "" then old(file) else None
      ensures forall k :: 0 <= k < |devices| ==> devices[k] in old(devices) || fresh(devices[k])
    {
      hide IsRendering, Defaulted, Ahead, AccountsOf, SitesOf, IPs, DistinctIPs;
      if seed.None? { return Some(BadConfig); }
      var c := Defaulted(seed.value);
      err := ApplyConfig(c.auth, c.devices);
      if err.None? && statePath != "" {
        if saveFails(saves) { err := Some(CannotSave); } else { file := None; }
        saves := saves + 1;
        assert View() == c.devices;
      }
    }

    /** Clearing keeps the credentials and leaves an empty file. */
    method ClearAll() returns (err: Option<Error>)
      requires Valid()
      modifies this
      ensures Valid() && devices == [] && handles == map[] && auth == old(auth)
      ensures Possible(old(Accounts()), Clear, err, seed)
      ensures Accounts() == After(old(Accounts()), Clear, err, seed) && Matched()
      ensures err == None && statePath != "" ==> file == Some(Settings(auth, []))
      ensures err == Some(CannotSave) ==> file == old(file)
    {
      hide IsRendering, Ahead;
      err := ApplyConfig(auth, []);
      var ok := SaveLocked();
      if !ok { err := Some(CannotSave); }
    }

    // ---- Runs of calls ----

    /** One call, whichever it is. */
    method Dispatch(call: Call) returns (err: Option<Error>)
      requires Valid()
      modifies this, devices
      ensures Valid() && Possible(old(Accounts()), call, err, seed)
      ensures Accounts() == After(old(Accounts()), call, err, seed)
      ensures WritesWork() ==> Recorded() == RecordAfter(old(Recorded()), call, err, seed)
      ensures old(Matched()) && DistinctCall(call, seed) ==> Matched()
      ensures forall k :: 0 <= k < |devices| ==> devices[k] in old(devices) || fresh(devices[k])
    {
      hide IsRendering, Ahead, Changed, Replaced, Refusal, Defaulted, NewSite, AccountsOf, Matched, DistinctCall;
      match call
      case Change(ip, op) => err := Mutate(ip, op);
      case Add(site) => err := AddDevice(site);
      case Remove(ip) => err := RemoveDevice(ip);
      case Import(parsed) => err := ImportConfig(parsed);
      case Reset => err := FactoryReset();
      case Clear => err := ClearAll();
    }

    /** Any calls, one at a time: the simulator follows the book, so what holds of its runs holds here. */
    method Serve(calls: seq<Call>) returns (errs: seq<Option<Error>>)
      requires Valid()
      modifies this, devices
      ensures Valid() && AllPossible(old(Accounts()), calls, errs, seed)
      ensures Accounts() == Afters(old(Accounts()), calls, errs, seed)
      ensures WritesWork() ==> Recorded() == Records(old(Recorded()), calls, errs, seed)
      ensures old(Matched()) && (forall n :: 0 <= n < |calls| ==> DistinctCall(calls[n], seed)) ==> Matched()
    {
      hide IsRendering, Ahead, After, Possible, DistinctCall, Matched, Accounts, View, RecordAfter, WritesWork;
      errs := [];
      for n := 0 to |calls|
        invariant Valid()
        invariant forall k :: 0 <= k < |devices| ==> devices[k] in old(devices) || fresh(devices[k])
        invariant AllPossible(old(Accounts()), calls[..n], errs, seed)
        invariant Accounts() == Afters(old(Accounts()), calls[..n], errs, seed)
        invariant WritesWork() ==> Recorded() == Records(old(Recorded()), calls[..n], errs, seed)
        invariant old(Matched()) && (forall k :: 0 <= k < n ==> DistinctCall(calls[k], seed)) ==> Matched()
      {
        ghost var before := Accounts();
        var err := Dispatch(calls[n]);
        OneMoreCall(old(Accounts()), calls[..n], errs, seed, calls[n], err);
        OneMoreRecord(old(Recorded()), calls[..n], errs, seed, calls[n], err);
        assert calls[..n + 1] == calls[..n] + [calls[n]];
        errs := errs + [err];
      }
      assert calls[..|calls|] == calls;
    }
  }

  lemma NotListed(view: seq<Site>, ip: string)
    ensures FirstIP(view, ip) == |view| <==> ip !in IPs(view)
  {}

  lemma ListingMatches(view: seq<Site>, s: Site)
    requires DistinctIPs(view) && FirstIP(view, s.ip) == |view|
    ensures DistinctIPs(view + [s]) && IPs(view + [s]) == IPs(view) + {s.ip}
  {
    ListingIPs(view, s);
  }

  lemma OneMoreSite(sites: seq<Site>, i: nat)
    requires i < |sites|
    ensures IPs(sites[..i + 1]) == IPs(sites[..i]) + {sites[i].ip}
    ensures AllCurrent(sites[..i + 1]) == Book(sites[..i] + [sites[i]], AllCurrent(sites[..i]).current + [true])
  {
    hide IPs;
    assert sites[..i + 1] == sites[..i] + [sites[i]];
    ListingIPs(sites[..i], sites[i]);
    assert AllCurrent(sites[..i + 1]).current == AllCurrent(sites[..i]).current + [true];
  }

  lemma NoIPs()
    ensures IPs([]) == {}
  {}

  lemma ListingIPs(view: seq<Site>, s: Site)
    ensures IPs(view + [s]) == IPs(view) + {s.ip}
  {
    var all := view + [s];
    forall i | 0 <= i < |view| ensures view[i].ip in IPs(all) { assert all[i] == view[i]; }
    assert all[|view|] == s;
  }

  lemma UnlistingMatches(view: seq<Site>, i: nat)
    requires DistinctIPs(view) && i < |view|
    ensures DistinctIPs(Without(view, i)) && IPs(Without(view, i)) == IPs(view) - {view[i].ip}
  {
    var rest := Without(view, i);
    forall k | 0 <= k < |view| && k != i ensures view[k].ip in IPs(rest) {
      assert view[k] == rest[if k < i then k else k - 1];
    }
    forall k | 0 <= k < |rest| ensures rest[k].ip in IPs(view) - {view[i].ip} {
      assert rest[k] == view[if k < i then k else k + 1];
    }
  }

  /** What an edit that reports an error has left of a device whose cache was not behind. */
  lemma FailedEdit(r: Rendering, was: Site, site: Site, op: Op, template: string)
    requires Ahead(r, was) && site == was.(aps := Effect(was.aps, op).0) && Effect(was.aps, op).1.Some?
    ensures Ahead(r, site)
    ensures IsRendering(r, site, template) <==>
              Effect(was.aps, op).1 != Some(NoSuchTarget) && IsRendering(r, was, template)
  {
    hide IsRendering, Effect, Ahead, Clients, TheClient;
    ErrorsChangeNothingExactly(was.aps, op);
    if Effect(was.aps, op).1 == Some(NoSuchTarget) {
      OneClientFewer(was.aps, site.aps, TheClient(was.aps, op.mac));
      LosingMakesStale(r, was, site, template);
    } else {
      assert site == was;
    }
  }

  /** The book's account of a change, spelled out. */
  lemma ChangedIs(b: Book, ip: string, op: Op)
    requires Ledger.Valid(b)
    ensures var (b', err) := Changed(b, ip, op);
            var i := FirstIP(b.sites, ip);
            if i == |b.sites| then b' == b && err == Some(NoSuchDevice)
            else
              var (aps, e) := Effect(b.sites[i].aps, op);
              && b' == Book(b.sites[i := b.sites[i].(aps := aps)],
                            b.current[i := e.None? || (e != Some(NoSuchTarget) && b.current[i])])
              && err == (if e.None? then None else Some(NoChange(e.value)))
  {
    hide Effect;
  }

  /** A change to a device leaves every address where it is. */
  lemma AddressesKept(b: Book, ip: string, op: Op)
    requires Ledger.Valid(b)
    ensures IPs(Changed(b, ip, op).0.sites) == IPs(b.sites)
    ensures DistinctIPs(Changed(b, ip, op).0.sites) <==> DistinctIPs(b.sites)
  {
    hide Effect;
    var sites := Changed(b, ip, op).0.sites;
    forall k | 0 <= k < |sites| ensures sites[k].ip == b.sites[k].ip {}
    forall k | 0 <= k < |sites| ensures sites[k].ip in IPs(b.sites) && b.sites[k].ip in IPs(sites) {}
    forall i, j | 0 <= i < j < |sites|
      ensures sites[i].ip == sites[j].ip <==> b.sites[i].ip == b.sites[j].ip {}
  }
}
