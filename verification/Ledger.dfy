/**
 What the simulator lists, and which of the cached configs are current, told call by call.
 Module Simulator's methods are proved to keep this book; here is what holds over whole
 runs of calls made one at a time.
 */
module Ledger {
  import opened Wrappers
  import opened Files
  import opened Device
  import opened Config
  import opened Roster

  datatype Error =
    | NoSuchDevice
    | NoChange(e: OpError)
    | HostnameRequired
    | IPRequired
    | DuplicateIP
    | CannotAddIP
    | BadConfig
    | CannotSave

  /** The listed sites, and for each whether its cached config is a rendering of its fields. */
  datatype Book = Book(sites: seq<Site>, current: seq<bool>)

  ghost predicate Valid(b: Book) { |b.sites| == |b.current| }

  /** Index of the first site with the address, or |view|. */
  function FirstIP(view: seq<Site>, ip: string): (i: nat)
    ensures i <= |view| && (i < |view| ==> view[i].ip == ip)
    ensures forall k :: 0 <= k < i ==> view[k].ip != ip
  {
    if view == [] then 0 else if view[0].ip == ip then 0 else 1 + FirstIP(view[1..], ip)
  }

  ghost predicate DistinctIPs(view: seq<Site>) {
    forall i, j :: 0 <= i < j < |view| ==> view[i].ip != view[j].ip
  }

  ghost function IPs(view: seq<Site>): set<string> { set i | 0 <= i < |view| :: view[i].ip }

  // ---- One call ----

  datatype Call =
    | Change(ip: string, op: Op)
    | Add(site: Site)
    | Remove(ip: string)
    | Import(parsed: Option<Settings>)
    | Reset
    | Clear

  /** A change to one device. Only roaming to a missing access point makes a cache stale. */
  function Changed(b: Book, ip: string, op: Op): (r: (Book, Option<Error>))
    requires |b.sites| == |b.current|
    ensures |r.0.sites| == |r.0.current| == |b.sites|
  {
    var i := FirstIP(b.sites, ip);
    if i == |b.sites| then (b, Some(NoSuchDevice))
    else
      var (aps, e) := Effect(b.sites[i].aps, op);
      var now := e.None? || (e != Some(NoSuchTarget) && b.current[i]);
      (Book(b.sites[i := b.sites[i].(aps := aps)], b.current[i := now]),
       if e.None? then None else Some(NoChange(e.value)))
  }

  /** A site as it is when added at runtime. */
  function NewSite(site: Site): Site { EnsureDefault(DefaultScalars(site)) }

  function AllCurrent(sites: seq<Site>): (b: Book)
    ensures b.sites == sites && |b.current| == |sites| && forall k :: 0 <= k < |sites| ==> b.current[k]
  {
    Book(sites, seq(|sites|, _ => true))
  }

  /** What a replacement leaves: nothing changed, nothing running, or the new set. */
  function Replaced(b: Book, parsed: Option<Settings>, err: Option<Error>): Book {
    if parsed.None? then b
    else if err == Some(CannotAddIP) then AllCurrent([])
    else AllCurrent(Defaulted(parsed.value).devices)
  }

  ghost predicate ReplacementError(parsed: Option<Settings>, err: Option<Error>) {
    && (err == None || err == Some(BadConfig) || err == Some(CannotAddIP) || err == Some(CannotSave))
    && (err == Some(BadConfig) <==> parsed.None?)
  }

  /** The call can answer err when this is listed. */
  ghost predicate Possible(b: Book, call: Call, err: Option<Error>, seed: Option<Settings>)
    requires Valid(b)
  {
    match call
    case Change(ip, op) => err == Changed(b, ip, op).1
    case Add(site) => err.None? ==> site.hostname != "" && site.ip != "" && FirstIP(b.sites, site.ip) == |b.sites|
    case Remove(ip) => err == if FirstIP(b.sites, ip) == |b.sites| then Some(NoSuchDevice) else None
    case Import(parsed) => ReplacementError(parsed, err)
    case Reset => ReplacementError(seed, err)
    case Clear => err == None || err == Some(CannotSave)
  }

  ghost function After(b: Book, call: Call, err: Option<Error>, seed: Option<Settings>): (b': Book)
    requires Valid(b) && Possible(b, call, err, seed)
    ensures Valid(b')
  {
    match call
    case Change(ip, op) => Changed(b, ip, op).0
    case Add(site) => if err.None? then Book(b.sites + [NewSite(site)], b.current + [true]) else b
    case Remove(ip) =>
      var i := FirstIP(b.sites, ip);
      if i == |b.sites| then b else Book(Without(b.sites, i), Without(b.current, i))
    case Import(parsed) => Replaced(b, parsed, err)
    case Reset => Replaced(b, seed, err)
    case Clear => AllCurrent([])
  }

  // ---- Runs ----

  ghost predicate AllPossible(b: Book, calls: seq<Call>, errs: seq<Option<Error>>, seed: Option<Settings>)
    requires Valid(b)
    decreases |calls|, 0
  {
    && |calls| == |errs|
    && (calls == [] ||
        var n := |calls| - 1;
        AllPossible(b, calls[..n], errs[..n], seed)
        && Possible(Afters(b, calls[..n], errs[..n], seed), calls[n], errs[n], seed))
  }

  ghost function Afters(b: Book, calls: seq<Call>, errs: seq<Option<Error>>, seed: Option<Settings>): (b': Book)
    requires Valid(b) && AllPossible(b, calls, errs, seed)
    ensures Valid(b')
    decreases |calls|, 1
  {
    if calls == [] then b
    else
      var n := |calls| - 1;
      After(Afters(b, calls[..n], errs[..n], seed), calls[n], errs[n], seed)
  }

  lemma OneMoreCall(b: Book, calls: seq<Call>, errs: seq<Option<Error>>, seed: Option<Settings>,
                    call: Call, err: Option<Error>)
    requires Valid(b) && AllPossible(b, calls, errs, seed)
    requires Possible(Afters(b, calls, errs, seed), call, err, seed)
    ensures AllPossible(b, calls + [call], errs + [err], seed)
    ensures Afters(b, calls + [call], errs + [err], seed) == After(Afters(b, calls, errs, seed), call, err, seed)
  {
    hide Possible, After;
    assert (calls + [call])[..|calls|] == calls && (errs + [err])[..|errs|] == errs;
  }

  /**
   A device added at runtime: its own unset fields get the defaults and every access point
   keeps its clients and SSIDs as they came, unset fields included.
   */
  lemma NewSiteFilled(site: Site)
    requires site.hostname != ""
    ensures var s := NewSite(site);
            && s.hostname == site.hostname && s.ip == site.ip && s.serial == site.serial
            && s.tftpPort == site.tftpPort
            && s.httpsPort == (if site.httpsPort != 0 then site.httpsPort else 443)
            && s.sshPort == (if site.sshPort != 0 then site.sshPort else 22)
            && s.snmpPort == (if site.snmpPort != 0 then site.snmpPort else 161)
            && s.model == (if site.model != "" then site.model else "C9800-CL-K9")
            && s.version == (if site.version != "" then site.version else "17.12.1")
            && |site.aps| <= |s.aps| <= |site.aps| + 1
            && forall k :: 0 <= k < |site.aps| ==>
                 var ap := s.aps[k + |s.aps| - |site.aps|];
                 ap.clients == site.aps[k].clients && ap.ssids == site.aps[k].ssids
  {
    hide EnsureDefault;
    EnsureKeepsScalars(DefaultScalars(site));
    EnsureKeepsAPs(DefaultScalars(site));
  }

  /** What an addition brought, a removal takes away again; a second one is refused. */
  lemma AddRemoveUndo(b: Book, site: Site, seed: Option<Settings>)
    requires Valid(b) && site.hostname != "" && site.ip != "" && FirstIP(b.sites, site.ip) == |b.sites|
    ensures Possible(b, Add(site), None, seed)
    ensures var b' := After(b, Add(site), None, seed);
            && Possible(b', Remove(site.ip), None, seed)
            && After(b', Remove(site.ip), None, seed) == b
            && !Possible(b', Add(site), None, seed)
            && !Possible(b, Remove(site.ip), None, seed)
  {
    hide NewSite;
    var b' := After(b, Add(site), None, seed);
    SameIP(site);
    var i := FirstIP(b'.sites, site.ip);
    assert b'.sites[|b.sites|].ip == site.ip;
    assert forall k :: 0 <= k < |b.sites| ==> b'.sites[k] == b.sites[k];
    assert i == |b.sites|;
    assert Without(b'.sites, i) == b.sites && Without(b'.current, i) == b.current;
  }

  // ---- Which cached configs are stale ----

  /** Some device with the address has a stale cache. */
  ghost predicate StaleAt(b: Book, ip: string)
    requires Valid(b)
  {
    exists k :: 0 <= k < |b.sites| && b.sites[k].ip == ip && !b.current[k]
  }

  /** A roam to a missing access point, which loses the client without rendering. */
  predicate Loses(call: Call, err: Option<Error>, ip: string) {
    call.Change? && call.ip == ip && err == Some(NoChange(NoSuchTarget))
  }

  /** The device is rendered afresh, or goes. */
  predicate Settles(call: Call, err: Option<Error>, ip: string) {
    || (call.Change? && call.ip == ip && err.None?)
    || (call.Remove? && call.ip == ip && err.None?)
    || ((call.Import? || call.Reset? || call.Clear?) && err != Some(BadConfig))
  }

  /** The device at the address lost a client in a failed roam and has not been settled since. */
  ghost predicate LeftStale(calls: seq<Call>, errs: seq<Option<Error>>, ip: string)
    requires |calls| == |errs|
  {
    exists n :: 0 <= n < |calls| && LeftAt(calls, errs, ip, n)
  }

  ghost predicate LeftAt(calls: seq<Call>, errs: seq<Option<Error>>, ip: string, n: nat)
    requires n < |calls| == |errs|
  {
    Loses(calls[n], errs[n], ip) && forall m :: n < m < |calls| ==> !Settles(calls[m], errs[m], ip)
  }

  /** Replacements list distinct addresses. */
  ghost predicate DistinctCall(call: Call, seed: Option<Settings>) {
    && (call.Import? && call.parsed.Some? ==> DistinctIPs(Defaulted(call.parsed.value).devices))
    && (call.Reset? && seed.Some? ==> DistinctIPs(Defaulted(seed.value).devices))
  }

  lemma SameIP(site: Site)
    ensures NewSite(site).ip == site.ip
  {
    hide EnsureDefault;
    EnsureKeepsScalars(DefaultScalars(site));
  }

  lemma DistinctKept(b: Book, call: Call, err: Option<Error>, seed: Option<Settings>)
    requires Valid(b) && DistinctIPs(b.sites) && Possible(b, call, err, seed) && DistinctCall(call, seed)
    ensures DistinctIPs(After(b, call, err, seed).sites)
  {
    hide NewSite, Effect, Defaulted, Without;
    if call.Add? { SameIP(call.site); }
  }

  /** How one call moves the set of stale devices. */
  lemma StaleStep(b: Book, call: Call, err: Option<Error>, seed: Option<Settings>, ip: string)
    requires Valid(b) && DistinctIPs(b.sites) && Possible(b, call, err, seed)
    ensures StaleAt(After(b, call, err, seed), ip)
            <==> Loses(call, err, ip) || (StaleAt(b, ip) && !Settles(call, err, ip))
  {
    match call
    case Change(_, _) => StaleChange(b, call, err, seed, ip);
    case Add(site) => StaleAdd(b, call, err, seed, ip);
    case Remove(_) => StaleRemove(b, call, err, seed, ip);
    case _ => hide Defaulted;
  }

  lemma StaleChange(b: Book, call: Call, err: Option<Error>, seed: Option<Settings>, ip: string)
    requires Valid(b) && DistinctIPs(b.sites) && Possible(b, call, err, seed) && call.Change?
    ensures StaleAt(After(b, call, err, seed), ip)
            <==> Loses(call, err, ip) || (StaleAt(b, ip) && !Settles(call, err, ip))
  {
    hide Effect;
    var b', i := After(b, call, err, seed), FirstIP(b.sites, call.ip);
    if i < |b.sites| {
      forall k | 0 <= k < |b.sites| && k != i
        ensures b'.sites[k] == b.sites[k] && b'.current[k] == b.current[k] && b.sites[k].ip != call.ip {}
      assert b'.sites[i].ip == call.ip == b.sites[i].ip;
    }
  }

  lemma StaleAdd(b: Book, call: Call, err: Option<Error>, seed: Option<Settings>, ip: string)
    requires Valid(b) && Possible(b, call, err, seed) && call.Add?
    ensures StaleAt(After(b, call, err, seed), ip) <==> StaleAt(b, ip)
  {
    hide NewSite;
    var b' := After(b, call, err, seed);
    forall k | 0 <= k < |b.sites| ensures b'.sites[k] == b.sites[k] && b'.current[k] == b.current[k] {}
  }

  lemma StaleRemove(b: Book, call: Call, err: Option<Error>, seed: Option<Settings>, ip: string)
    requires Valid(b) && DistinctIPs(b.sites) && Possible(b, call, err, seed) && call.Remove?
    ensures StaleAt(After(b, call, err, seed), ip) <==> StaleAt(b, ip) && !Settles(call, err, ip)
  {
    hide Without, FirstIP, Changed, Replaced, NewSite, StaleAt;
    var i := FirstIP(b.sites, call.ip);
    if i < |b.sites| { StaleWithout(b, i, ip); }
  }

  lemma StaleWithout(b: Book, i: nat, ip: string)
    requires Valid(b) && DistinctIPs(b.sites) && i < |b.sites|
    ensures StaleAt(Book(Without(b.sites, i), Without(b.current, i)), ip) <==> StaleAt(b, ip) && ip != b.sites[i].ip
  {
    hide Without;
    var b' := Book(Without(b.sites, i), Without(b.current, i));
    if StaleAt(b, ip) && ip != b.sites[i].ip {
      var k :| 0 <= k < |b.sites| && b.sites[k].ip == ip && !b.current[k];
      var k' := if k < i then k else k - 1;
      assert b'.sites[k'] == b.sites[k] && b'.current[k'] == b.current[k];
    }
  }

  lemma LeftStaleStep(calls: seq<Call>, errs: seq<Option<Error>>, ip: string)
    requires |calls| == |errs| > 0
    ensures var n := |calls| - 1;
            LeftStale(calls, errs, ip) <==>
              Loses(calls[n], errs[n], ip) || (LeftStale(calls[..n], errs[..n], ip) && !Settles(calls[n], errs[n], ip))
  {
    hide Loses, Settles;
    var n := |calls| - 1;
    if Loses(calls[n], errs[n], ip) { assert LeftAt(calls, errs, ip, n); }
    forall k: nat | k < n
      ensures LeftAt(calls, errs, ip, k) <==>
                LeftAt(calls[..n], errs[..n], ip, k) && !Settles(calls[n], errs[n], ip)
    {
      assert forall m :: k < m < n ==> calls[..n][m] == calls[m] && errs[..n][m] == errs[m];
    }
    if LeftStale(calls[..n], errs[..n], ip) {
      var k: nat :| k < n && LeftAt(calls[..n], errs[..n], ip, k);
    }
  }

  /**
   Over any run of calls the stale cached configs are exactly those of the devices that lost
   a client in a roam to a missing access point and have not been changed successfully,
   removed or replaced since. In particular every other device's config stays current.

   Stale means rendered from other data than the device now has. A template that prints only
   part of the data, as the built-in one prints only VLANs and WLANs, can still give the same
   text when the lost client shared its VLAN and SSID with others.
   */
  lemma {:induction false} StaleExactly(b: Book, calls: seq<Call>, errs: seq<Option<Error>>, seed: Option<Settings>,
                                        ip: string)
    requires Valid(b) && DistinctIPs(b.sites) && AllPossible(b, calls, errs, seed)
    requires !StaleAt(b, ip)
    requires forall n :: 0 <= n < |calls| ==> DistinctCall(calls[n], seed)
    ensures DistinctIPs(Afters(b, calls, errs, seed).sites)
    ensures StaleAt(Afters(b, calls, errs, seed), ip) <==> LeftStale(calls, errs, ip)
  {
    hide After, Possible, DistinctIPs, DistinctCall, StaleAt, Loses, Settles;
    if calls == [] {
    } else {
      var n := |calls| - 1;
      StaleExactly(b, calls[..n], errs[..n], seed, ip);
      var b' := Afters(b, calls[..n], errs[..n], seed);
      DistinctKept(b', calls[n], errs[n], seed);
      StaleStep(b', calls[n], errs[n], seed, ip);
      LeftStaleStep(calls, errs, ip);
    }
  }

  // ---- The built-in access point of every site ----

  /** Every named site has its one built-in access point. */
  ghost predicate HaveDefaults(sites: seq<Site>) {
    forall k :: 0 <= k < |sites| ==> HasDefault(sites[k])
  }

  ghost predicate HasDefault(site: Site) { site.hostname != "" ==> OneDefault(site) }

  ghost predicate FewMarked(c: Settings) {
    forall i :: 0 <= i < |c.devices| ==> Marked(c.devices[i].aps) <= 1
  }

  /** The call brings no access point already marked as built in, and no site with two. */
  ghost predicate BringsNoMarked(call: Call, seed: Option<Settings>) {
    match call
    case Change(_, op) => !(op.AddAP? && op.ap.isDefault)
    case Add(site) => Marked(site.aps) <= 1
    case Import(parsed) => parsed.Some? ==> FewMarked(parsed.value)
    case Reset => seed.Some? ==> FewMarked(seed.value)
    case _ => true
  }

  lemma LoadedHaveDefaults(c: Settings)
    requires FewMarked(c)
    ensures HaveDefaults(Defaulted(c).devices)
  {
    hide OneDefault;
    forall i | 0 <= i < |c.devices| ensures HasDefault(Defaulted(c).devices[i]) {
      DefaultedHostname(c, i);
      if c.devices[i].hostname != "" { LoadedSitesHaveDefault(c, i); }
    }
  }

  lemma DefaultedHostname(c: Settings, i: nat)
    requires i < |c.devices|
    ensures Defaulted(c).devices[i].hostname == c.devices[i].hostname
  {
    hide EnsureDefault, DefaultAPs;
    EnsureKeepsScalars(DefaultScalars(c.devices[i]));
  }

  lemma ChangeKeepsDefaults(b: Book, ip: string, op: Op)
    requires Valid(b) && HaveDefaults(b.sites) && !(op.AddAP? && op.ap.isDefault)
    ensures HaveDefaults(Changed(b, ip, op).0.sites)
  {
    hide Effect, OneDefaultIn;
    var i := FirstIP(b.sites, ip);
    if i < |b.sites| {
      var site := b.sites[i];
      if site.hostname != "" { DefaultKeptExactly(site.aps, op, site.hostname); }
    }
  }

  lemma DefaultsKept(b: Book, call: Call, err: Option<Error>, seed: Option<Settings>)
    requires Valid(b) && HaveDefaults(b.sites) && Possible(b, call, err, seed) && BringsNoMarked(call, seed)
    ensures HaveDefaults(After(b, call, err, seed).sites)
  {
    hide HasDefault, Changed, Defaulted, NewSite, FewMarked, Without;
    match call
    case Change(ip, op) => ChangeKeepsDefaults(b, ip, op);
    case Add(site) => if err.None? { NewSiteHasDefault(site); }
    case Import(parsed) => if parsed.Some? { LoadedHaveDefaults(parsed.value); }
    case Reset => if seed.Some? { LoadedHaveDefaults(seed.value); }
    case _ =>
  }

  lemma NewSiteHasDefault(site: Site)
    requires site.hostname != "" && Marked(site.aps) <= 1
    ensures HasDefault(NewSite(site))
  {
    hide EnsureDefault, OneDefault;
    EnsuresOneExactly(DefaultScalars(site));
  }

  /** So over any run of calls that brings no marked access point, every named site keeps exactly one built-in one. */
  lemma {:induction false} DefaultsKeptOverRuns(b: Book, calls: seq<Call>, errs: seq<Option<Error>>,
                                                seed: Option<Settings>)
    requires Valid(b) && HaveDefaults(b.sites) && AllPossible(b, calls, errs, seed)
    requires forall n :: 0 <= n < |calls| ==> BringsNoMarked(calls[n], seed)
    ensures HaveDefaults(Afters(b, calls, errs, seed).sites)
  {
    hide After, Possible, HaveDefaults, BringsNoMarked;
    if calls == [] {
    } else {
      var n := |calls| - 1;
      DefaultsKeptOverRuns(b, calls[..n], errs[..n], seed);
      DefaultsKept(Afters(b, calls[..n], errs[..n], seed), calls[n], errs[n], seed);
    }
  }

  // ---- The state file, when every write works ----

  /** The book with the credentials and what the state file holds. */
  datatype Record = Record(book: Book, auth: Auth, file: Option<Settings>)

  function Snap(r: Record): Settings { Settings(r.auth, r.book.sites) }

  ghost predicate UpToDate(r: Record) { r.file == Some(Snap(r)) }

  predicate Saves(call: Call, err: Option<Error>) { err.None? && !call.Reset? }

  function AuthAfter(auth: Auth, call: Call, err: Option<Error>, seed: Option<Settings>): Auth {
    match call
    case Import(parsed) => if parsed.Some? then Defaulted(parsed.value).auth else auth
    case Reset => if seed.Some? then Defaulted(seed.value).auth else auth
    case _ => auth
  }

  /** A factory reset removes the file; any other call that answers nil leaves what now runs in it. */
  function FileAfter(file: Option<Settings>, call: Call, err: Option<Error>, now: Settings): Option<Settings> {
    if Saves(call, err) then Some(now) else if call.Reset? && err.None? then None else file
  }

  ghost function RecordAfter(r: Record, call: Call, err: Option<Error>, seed: Option<Settings>): Record
    requires Valid(r.book) && Possible(r.book, call, err, seed)
  {
    var book, auth := After(r.book, call, err, seed), AuthAfter(r.auth, call, err, seed);
    Record(book, auth, FileAfter(r.file, call, err, Settings(auth, book.sites)))
  }

  ghost function Records(r: Record, calls: seq<Call>, errs: seq<Option<Error>>, seed: Option<Settings>): (r': Record)
    requires Valid(r.book) && AllPossible(r.book, calls, errs, seed)
    ensures r'.book == Afters(r.book, calls, errs, seed)
    decreases |calls|
  {
    if calls == [] then r
    else
      var n := |calls| - 1;
      RecordAfter(Records(r, calls[..n], errs[..n], seed), calls[n], errs[n], seed)
  }

  lemma OneMoreRecord(r: Record, calls: seq<Call>, errs: seq<Option<Error>>, seed: Option<Settings>,
                      call: Call, err: Option<Error>)
    requires Valid(r.book) && AllPossible(r.book, calls, errs, seed)
    requires Possible(Afters(r.book, calls, errs, seed), call, err, seed)
    ensures AllPossible(r.book, calls + [call], errs + [err], seed)
    ensures Records(r, calls + [call], errs + [err], seed)
            == RecordAfter(Records(r, calls, errs, seed), call, err, seed)
  {
    hide Possible, After, RecordAfter;
    assert (calls + [call])[..|calls|] == calls && (errs + [err])[..|errs|] == errs;
  }

  /** A replacement that got as far as tearing down, and then failed. */
  predicate FailsHalfway(call: Call, err: Option<Error>) {
    (call.Import? || call.Reset? || call.Clear?) && (err == Some(CannotAddIP) || err == Some(CannotSave))
  }

  /** What makes running state and file part: a failed roam, a factory reset, a replacement that fails halfway. */
  predicate Departs(call: Call, err: Option<Error>) {
    || (call.Change? && err == Some(NoChange(NoSuchTarget)))
    || (call.Reset? && err.None?)
    || FailsHalfway(call, err)
  }

  /** They parted, and nothing has been saved since. */
  ghost predicate LeftUnsaved(calls: seq<Call>, errs: seq<Option<Error>>)
    requires |calls| == |errs|
  {
    exists n :: 0 <= n < |calls| && PartedAt(calls, errs, n)
  }

  ghost predicate PartedAt(calls: seq<Call>, errs: seq<Option<Error>>, n: nat)
    requires n < |calls| == |errs|
  {
    Departs(calls[n], errs[n]) && forall m :: n < m < |calls| ==> !Saves(calls[m], errs[m])
  }

  lemma LeftUnsavedStep(calls: seq<Call>, errs: seq<Option<Error>>)
    requires |calls| == |errs| > 0
    ensures var n := |calls| - 1;
            LeftUnsaved(calls, errs) <==>
              Departs(calls[n], errs[n]) || (LeftUnsaved(calls[..n], errs[..n]) && !Saves(calls[n], errs[n]))
  {
    hide Departs, Saves;
    var n := |calls| - 1;
    if Departs(calls[n], errs[n]) { assert PartedAt(calls, errs, n); }
    forall k: nat | k < n
      ensures PartedAt(calls, errs, k) <==> PartedAt(calls[..n], errs[..n], k) && !Saves(calls[n], errs[n])
    {
      assert forall m :: k < m < n ==> calls[..n][m] == calls[m] && errs[..n][m] == errs[m];
    }
    if LeftUnsaved(calls[..n], errs[..n]) {
      var k: nat :| k < n && PartedAt(calls[..n], errs[..n], k);
    }
  }

  /** How many clients the sites have. */
  function Headcount(sites: seq<Site>): nat {
    if sites == [] then 0 else Headcount(sites[..|sites| - 1]) + |Clients(sites[|sites| - 1].aps)|
  }

  lemma {:induction false} HeadcountUpdate(sites: seq<Site>, i: nat, site: Site)
    requires i < |sites|
    ensures Headcount(sites[i := site]) + |Clients(sites[i].aps)| == Headcount(sites) + |Clients(site.aps)|
  {
    hide Clients;
    var n := |sites| - 1;
    if i == n {
      assert sites[i := site][..n] == sites[..n];
    } else {
      assert sites[i := site][..n] == sites[..n][i := site];
      HeadcountUpdate(sites[..n], i, site);
    }
  }

  /** The file is gone, or shows clients that have been lost since. */
  ghost predicate Behind(r: Record) {
    r.file.None? || Headcount(r.book.sites) < Headcount(r.file.value.devices)
  }

  /** A failed roam loses one client of one device. */
  lemma LosesOne(b: Book, ip: string, op: Op)
    requires Valid(b) && Changed(b, ip, op).1 == Some(NoChange(NoSuchTarget))
    ensures Headcount(Changed(b, ip, op).0.sites) < Headcount(b.sites)
  {
    hide Effect, Clients, TheClient, Headcount;
    var i := FirstIP(b.sites, ip);
    var site := b.sites[i];
    var left := Effect(site.aps, op).0;
    ErrorsChangeNothingExactly(site.aps, op);
    OneClientFewer(site.aps, left, TheClient(site.aps, op.mac));
    HeadcountUpdate(b.sites, i, site.(aps := left));
  }

  lemma OneClientFewer(aps: seq<AP>, left: seq<AP>, c: Client)
    requires Clients(left) + multiset{c} == Clients(aps)
    ensures |Clients(left)| < |Clients(aps)|
  {}

  /** An error that is no failed roam leaves every site as it was. */
  lemma OtherErrorsChangeNothing(b: Book, ip: string, op: Op)
    requires Valid(b) && Changed(b, ip, op).1.Some? && Changed(b, ip, op).1 != Some(NoChange(NoSuchTarget))
    ensures Changed(b, ip, op).0.sites == b.sites
  {
    hide Effect;
    var i := FirstIP(b.sites, ip);
    if i < |b.sites| {
      ErrorsChangeNothingExactly(b.sites[i].aps, op);
      assert b.sites[i].(aps := b.sites[i].aps) == b.sites[i];
    }
  }

  /** How one call moves the file and the running state against each other. */
  lemma FileStep(r: Record, call: Call, err: Option<Error>, seed: Option<Settings>)
    requires Valid(r.book) && Possible(r.book, call, err, seed)
    ensures var r' := RecordAfter(r, call, err, seed);
            && (Saves(call, err) ==> UpToDate(r'))
            && (!Saves(call, err) && !Departs(call, err) ==>
                 (UpToDate(r') <==> UpToDate(r)) && (Behind(r) ==> Behind(r')))
            && (Departs(call, err) && !FailsHalfway(call, err) && (UpToDate(r) || Behind(r)) ==> Behind(r'))
  {
    hide Changed, Defaulted, NewSite, Without, Headcount;
    if call.Change? {
      if err == Some(NoChange(NoSuchTarget)) {
        LosesOne(r.book, call.ip, call.op);
      } else if err.Some? {
        OtherErrorsChangeNothing(r.book, call.ip, call.op);
      }
    }
  }

  lemma BehindIsNotUpToDate(r: Record)
    requires Behind(r)
    ensures !UpToDate(r)
  {}

  /**
   Over any run of calls whose writes work, the state file holds exactly what runs unless a
   failed roam, a factory reset or a replacement that failed halfway came after the last save;
   and then, but for such a replacement, it does not.
   */
  lemma {:induction false} StateFileExactly(r: Record, calls: seq<Call>, errs: seq<Option<Error>>,
                                            seed: Option<Settings>)
    requires Valid(r.book) && AllPossible(r.book, calls, errs, seed) && UpToDate(r)
    ensures var r' := Records(r, calls, errs, seed);
            && (!LeftUnsaved(calls, errs) ==> UpToDate(r'))
            && ((forall n :: 0 <= n < |calls| ==> !FailsHalfway(calls[n], errs[n])) ==>
                 (LeftUnsaved(calls, errs) <==> !UpToDate(r')) && (LeftUnsaved(calls, errs) ==> Behind(r')))
  {
    hide RecordAfter, Possible, After, UpToDate, Behind, Departs, Saves, FailsHalfway;
    if calls == [] {
    } else {
      var n := |calls| - 1;
      StateFileExactly(r, calls[..n], errs[..n], seed);
      var r1 := Records(r, calls[..n], errs[..n], seed);
      FileStep(r1, calls[n], errs[n], seed);
      LeftUnsavedStep(calls, errs);
      SavesOrDeparts(calls[n], errs[n]);
      var r' := Records(r, calls, errs, seed);
      if Behind(r') { BehindIsNotUpToDate(r'); }
    }
  }

  lemma SavesOrDeparts(call: Call, err: Option<Error>)
    ensures !(Saves(call, err) && Departs(call, err))
  {}

  /** So a restart from the file reproduces what ran exactly if nothing in it is left to default. */
  lemma RestartReproduces(codec: Codec, fs: Files, path: string, r: Record, calls: seq<Call>,
                          errs: seq<Option<Error>>, seed: Option<Settings>)
    requires Faithful(codec) && Valid(r.book) && AllPossible(r.book, calls, errs, seed)
    requires UpToDate(r) && !LeftUnsaved(calls, errs)
    requires var file := Records(r, calls, errs, seed).file;
             file.Some? ==> Holds(fs, path, codec.encode(file.value))
    ensures var now := Snap(Records(r, calls, errs, seed));
            Load(codec, fs, path) == Some(now) <==> Complete(now)
  {
    hide Records, AllPossible, LeftUnsaved, Complete, Load;
    StateFileExactly(r, calls, errs, seed);
    ReloadsExactly(codec, fs, path, Snap(Records(r, calls, errs, seed)));
  }
}
