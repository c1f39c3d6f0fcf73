/**
 The configuration file: expanding defaults, and saving so that a crash at any moment
 leaves the old file or the new one. The text encoding is a pair of inverse functions.
 */
module Config {
  import opened Wrappers
  import opened Files
  import opened Text
  import opened Device

  datatype Auth = Auth(username: string, password: string, community: string)

  datatype Settings = Settings(auth: Auth, devices: seq<Site>)

  function Or(s: string, default: string): string { if s == "" then default else s }

  function OrInt(n: int, default: int): int { if n == 0 then default else n }

  function DefaultScalars(d: Site): Site {
    d.(httpsPort := OrInt(d.httpsPort, 443), sshPort := OrInt(d.sshPort, 22), snmpPort := OrInt(d.snmpPort, 161),
       model := Or(d.model, "C9800-CL-K9"), version := Or(d.version, "17.12.1"))
  }

  function DefaultClient(c: Client): Client {
    var vlan := OrInt(c.vlan, 50);
    c.(radioType := Or(c.radioType, "client-radio-type-11ax-5ghz"),
       securityMode := Or(c.securityMode, "ewlc-assoc-mode-wpa2"),
       encryptionType := Or(c.encryptionType, "encryp-policy-aes-ccm128"),
       authKeyMgmt := Or(c.authKeyMgmt, "8021x"),
       state := Or(c.state, "co-client-run"),
       channel := OrInt(c.channel, 36), rssi := OrInt(c.rssi, -55), snr := OrInt(c.snr, 35),
       speed := OrInt(c.speed, 573), spatialStreams := OrInt(c.spatialStreams, 2),
       vlan := vlan, vlanName := Or(c.vlanName, VlanLabel(vlan)),
       wlanId := OrInt(c.wlanId, 1), policyProfile := Or(c.policyProfile, "default-policy-profile"))
  }

  function DefaultClients(cs: seq<Client>): (r: seq<Client>)
    ensures |r| == |cs| && forall i :: 0 <= i < |cs| ==> r[i] == DefaultClient(cs[i])
  {
    seq(|cs|, i requires 0 <= i < |cs| => DefaultClient(cs[i]))
  }

  /** The clients' SSIDs, each once, in order of first appearance. */
  function ClientSSIDs(cs: seq<Client>): seq<string> {
    if cs == [] then []
    else
      var front, ssid := ClientSSIDs(cs[..|cs| - 1]), cs[|cs| - 1].ssid;
      if ssid != "" && ssid !in front then front + [ssid] else front
  }

  function DefaultAP(ap: AP): AP {
    var clients := DefaultClients(ap.clients);
    ap.(clients := clients, ssids := if ap.ssids == [] then ClientSSIDs(clients) else ap.ssids)
  }

  function DefaultAPs(aps: seq<AP>): (r: seq<AP>)
    ensures |r| == |aps| && forall i :: 0 <= i < |aps| ==> r[i] == DefaultAP(aps[i])
  {
    seq(|aps|, i requires 0 <= i < |aps| => DefaultAP(aps[i]))
  }

  function DefaultSite(d: Site): Site {
    var e := EnsureDefault(DefaultScalars(d));
    e.(aps := DefaultAPs(e.aps))
  }

  function DefaultAuth(a: Auth): Auth {
    Auth(Or(a.username, "admin"), Or(a.password, "admin"), Or(a.community, "public"))
  }

  function Defaulted(c: Settings): (r: Settings)
    ensures |r.devices| == |c.devices|
  {
    Settings(DefaultAuth(c.auth), seq(|c.devices|, i requires 0 <= i < |c.devices| => DefaultSite(c.devices[i])))
  }

  // ---- The nested loops ----

  class Config {
    var auth: Auth
    var devices: seq<Site>

    constructor (c: Settings)
      ensures auth == c.auth && devices == c.devices
    {
      auth, devices := c.auth, c.devices;
    }

    method ApplyDefaults()
      modifies this
      ensures Settings(auth, devices) == Defaulted(Settings(old(auth), old(devices)))
    {
      hide DefaultSite;
      for i := 0 to |devices|
        invariant |devices| == |old(devices)| && auth == old(auth)
        invariant forall k :: 0 <= k < |devices| ==>
                    devices[k] == if k < i then DefaultSite(old(devices)[k]) else old(devices)[k]
      {
        var d := FillSite(devices[i]);
        devices := devices[i := d];
      }
      auth := DefaultAuth(auth);
    }
  }

  method FillSite(site: Site) returns (d: Site)
    ensures d == DefaultSite(site)
  {
    hide DefaultAP;
    var dev := new Device(DefaultScalars(site));
    dev.EnsureDefaultAP();
    d := dev.site;
    var aps := d.aps;
    for j := 0 to |aps|
      invariant |aps| == |d.aps|
      invariant forall k :: 0 <= k < |aps| ==> aps[k] == if k < j then DefaultAP(d.aps[k]) else d.aps[k]
    {
      var ap := FillAP(aps[j]);
      aps := aps[j := ap];
    }
    assert aps == DefaultAPs(d.aps);
    d := d.(aps := aps);
  }

  method FillAP(given: AP) returns (ap: AP)
    ensures ap == DefaultAP(given)
  {
    hide DefaultClient;
    var clients := given.clients;
    for k := 0 to |clients|
      invariant |clients| == |given.clients|
      invariant forall n :: 0 <= n < |clients| ==>
                  clients[n] == if n < k then DefaultClient(given.clients[n]) else given.clients[n]
    {
      clients := clients[k := DefaultClient(clients[k])];
    }
    assert clients == DefaultClients(given.clients);
    var ssids := given.ssids;
    if ssids == [] {
      for k := 0 to |clients|
        invariant ssids == ClientSSIDs(clients[..k])
      {
        assert clients[..k + 1][..k] == clients[..k];
        var ssid := clients[k].ssid;
        if ssid != "" && ssid !in ssids { ssids := ssids + [ssid]; }
      }
      assert clients[..|clients|] == clients;
    }
    ap := given.(clients := clients, ssids := ssids);
  }

  // ---- Idempotence ----

  lemma ClientIdempotent(c: Client)
    ensures DefaultClient(DefaultClient(c)) == DefaultClient(c)
  {
    hide VlanLabel;
  }

  lemma APIdempotent(ap: AP)
    ensures DefaultAP(DefaultAP(ap)) == DefaultAP(ap)
  {
    hide DefaultClient;
    var once := DefaultClients(ap.clients);
    forall i | 0 <= i < |once| ensures DefaultClients(once)[i] == once[i] { ClientIdempotent(ap.clients[i]); }
    assert DefaultClients(once) == once;
  }

  lemma FillCommutes(ap: AP, host: string)
    ensures DefaultAP(FillDefaultAP(ap, host)) == FillDefaultAP(DefaultAP(ap), host)
  {
    hide DefaultAPMAC, DefaultClients, ClientSSIDs;
  }

  lemma MarkCommutes(ap: AP)
    ensures DefaultAP(ap.(isDefault := true)) == DefaultAP(ap).(isDefault := true)
    ensures DefaultAP(ap).name == ap.name
  {
    hide DefaultClients, ClientSSIDs;
  }

  lemma EmptyUnchanged(ap: AP, host: string)
    requires ap == FillDefaultAP(AP("", "", "", [], [], true), host)
    ensures DefaultAP(ap) == ap
  {
    hide DefaultAPMAC;
    assert ClientSSIDs([]) == [] && DefaultClients([]) == [];
  }

  /** Defaults of access points leave alone what the built-in access point depends on. */
  lemma EnsureCommutes(d: Site)
    ensures EnsureDefault(d.(aps := DefaultAPs(d.aps))).aps == DefaultAPs(EnsureDefault(d).aps)
  {
    hide DefaultAP, FillDefaultAP, FirstMarked, FirstNamed;
    var aps, host := d.aps, d.hostname;
    SameMarks(aps, host);
    var i, j := FirstMarked(aps), FirstNamed(aps, host);
    var made := FillDefaultAP(AP("", "", "", [], [], true), host);
    var l, r := EnsureDefault(d.(aps := DefaultAPs(aps))).aps, DefaultAPs(EnsureDefault(d).aps);
    if host != "" {
      if i < |aps| {
        FillCommutes(aps[i], host);
      } else if j < |aps| {
        FillCommutes(aps[j].(isDefault := true), host);
        MarkCommutes(aps[j]);
      } else {
        EmptyUnchanged(made, host);
      }
    }
    assert l == r;
  }

  lemma {:induction false} SameMarks(aps: seq<AP>, host: string)
    ensures FirstMarked(DefaultAPs(aps)) == FirstMarked(aps)
    ensures FirstNamed(DefaultAPs(aps), host) == FirstNamed(aps, host)
  {
    hide DefaultClient;
    if aps == [] {
    } else {
      assert DefaultAPs(aps)[1..] == DefaultAPs(aps[1..]);
      SameMarks(aps[1..], host);
    }
  }

  lemma SiteIdempotent(d: Site)
    ensures DefaultSite(DefaultSite(d)) == DefaultSite(d)
  {
    hide DefaultAP;
    var e := EnsureDefault(DefaultScalars(d));
    EnsureIdempotent(DefaultScalars(d));
    assert DefaultScalars(e) == e by { hide EnsureDefault; EnsureKeepsScalars(DefaultScalars(d)); }
    EnsureCommutes(e);
    forall i | 0 <= i < |e.aps| ensures DefaultAP(DefaultAP(e.aps[i])) == DefaultAP(e.aps[i]) {
      APIdempotent(e.aps[i]);
    }
    assert DefaultAPs(DefaultAPs(e.aps)) == DefaultAPs(e.aps);
  }

  lemma EnsureKeepsScalars(d: Site)
    ensures EnsureDefault(d) == d.(aps := EnsureDefault(d).aps)
  {
    hide DefaultAPMAC;
  }

  /** Expanding defaults twice is the same as once. */
  lemma DefaultedIdempotent(c: Settings)
    ensures Defaulted(Defaulted(c)) == Defaulted(c)
  {
    hide DefaultSite;
    var once := Defaulted(c);
    forall i | 0 <= i < |c.devices| ensures Defaulted(once).devices[i] == once.devices[i] {
      SiteIdempotent(c.devices[i]);
    }
    assert Defaulted(once).devices == once.devices;
  }

  /** After loading, every site with a hostname and at most one marked access point has exactly one. */
  lemma LoadedSitesHaveDefault(c: Settings, i: nat)
    requires i < |c.devices| && c.devices[i].hostname != ""
    ensures OneDefault(Defaulted(c).devices[i]) <==> Marked(c.devices[i].aps) <= 1
  {
    hide DefaultAP;
    var d := DefaultScalars(c.devices[i]);
    var e := EnsureDefault(d);
    EnsuresOneExactly(d);
    EnsureKeepsScalars(d);
    SameMarks(e.aps, e.hostname);
    MarkedSame(e.aps);
    DefaultAPKeepsName(e.aps);
  }

  lemma DefaultAPKeepsName(aps: seq<AP>)
    ensures forall i :: 0 <= i < |aps| ==> DefaultAPs(aps)[i].name == aps[i].name
  {
    hide DefaultClients;
  }

  lemma {:induction false} MarkedSame(aps: seq<AP>)
    ensures Marked(DefaultAPs(aps)) == Marked(aps)
  {
    hide DefaultClients;
    if aps == [] {
    } else {
      assert DefaultAPs(aps)[1..] == DefaultAPs(aps[1..]);
      MarkedSame(aps[1..]);
    }
  }

  // ---- Saving and loading ----

  datatype Codec = Codec(encode: Settings -> Bytes, decode: Bytes -> Option<Settings>)

  /** Encoding keeps every configured field; text that does not parse decodes to nothing. */
  ghost predicate Faithful(codec: Codec) {
    forall c :: codec.decode(codec.encode(c)) == Some(c)
  }

  function Load(codec: Codec, fs: Files, path: string): Option<Settings> {
    if path !in fs then None
    else match codec.decode(fs[path])
         case None => None
         case Some(c) => Some(Defaulted(c))
  }

  /** What goes wrong while saving: the write of the temporary file, or the rename. */
  datatype Trouble = Trouble(writeFails: bool, partial: Bytes, renameRefused: bool)

  class StateDisk {
    var fs: Files
    ghost var seen: seq<Files>   // the files after each step

    method WriteFile(path: string, data: Bytes, fails: bool, partial: Bytes) returns (ok: bool)
      modifies this
      ensures ok == !fails && fs == old(fs)[path := if fails then partial else data]
      ensures seen == old(seen) + [fs]
    {
      fs := fs[path := if fails then partial else data];
      seen := seen + [fs];
      ok := !fails;
    }

    /**
     Write a temporary file, then rename it over the path. After every step, so after a crash
     anywhere, the path holds the new contents whole or is as it was; on failure it is as it
     was; and nothing but the path and its temporary file changes.
     */
    method Save(path: string, data: Bytes, t: Trouble) returns (ok: bool)
      modifies this
      ensures ok <==> !t.writeFails && !t.renameRefused
      ensures ok ==> Holds(fs, path, data)
      ensures !ok ==> Same(old(fs), fs, path)
      ensures forall p :: p != path && p != path + ".tmp" ==> Same(old(fs), fs, p)
      ensures old(seen) <= seen
      ensures forall k :: |old(seen)| <= k < |seen| ==> Holds(seen[k], path, data) || Same(old(fs), seen[k], path)
    {
      var tmp := path + ".tmp";
      assert |tmp| != |path|;
      var wrote := WriteFile(tmp, data, t.writeFails, t.partial);
      if !wrote { return false; }
      var (fs', err) := Rename(fs, tmp, path, t.renameRefused);
      fs, seen := fs', seen + [fs'];
      if err.Some? {
        fs := fs - {tmp};
        seen := seen + [fs];
        return false;
      }
      return true;
    }
  }

  /** A saved configuration loads as itself with defaults expanded. */
  lemma LoadSaved(codec: Codec, fs: Files, path: string, c: Settings)
    requires Faithful(codec) && Holds(fs, path, codec.encode(c))
    ensures Load(codec, fs, path) == Some(Defaulted(c))
  {}

  /** So anything that was loaded once is saved and loaded again unchanged. */
  lemma LoadedRoundTrips(codec: Codec, fs: Files, fs': Files, path: string, path': string)
    requires Faithful(codec) && Load(codec, fs, path).Some?
    requires Holds(fs', path', codec.encode(Load(codec, fs, path).value))
    ensures Load(codec, fs', path') == Load(codec, fs, path)
  {
    var c := codec.decode(fs[path]).value;
    DefaultedIdempotent(c);
    LoadSaved(codec, fs', path', Defaulted(c));
  }

  // ---- What the defaults are ----

  /** Defaults fill what is unset and keep everything else. */
  lemma DefaultsFillGaps(c: Client)
    ensures var d := DefaultClient(c);
            && CompleteClient(d) && d.mac == c.mac && d.ssid == c.ssid && d.rest == c.rest
            && (c.radioType != "" ==> d.radioType == c.radioType)
            && (c.securityMode != "" ==> d.securityMode == c.securityMode)
            && (c.encryptionType != "" ==> d.encryptionType == c.encryptionType)
            && (c.authKeyMgmt != "" ==> d.authKeyMgmt == c.authKeyMgmt)
            && (c.state != "" ==> d.state == c.state)
            && (c.policyProfile != "" ==> d.policyProfile == c.policyProfile)
            && (c.channel != 0 ==> d.channel == c.channel) && (c.rssi != 0 ==> d.rssi == c.rssi)
            && (c.snr != 0 ==> d.snr == c.snr) && (c.speed != 0 ==> d.speed == c.speed)
            && (c.spatialStreams != 0 ==> d.spatialStreams == c.spatialStreams)
            && (c.vlan != 0 ==> d.vlan == c.vlan) && (c.wlanId != 0 ==> d.wlanId == c.wlanId)
            && (c.vlanName != "" ==> d.vlanName == c.vlanName)
            && (c.vlanName == "" ==> d.vlanName == VlanLabel(d.vlan))
  {
    hide VlanLabel;
  }

  /** A client with nothing but an address and an SSID. */
  lemma BareClient(mac: string, ssid: string, rest: string)
    ensures DefaultClient(Client(mac, ssid, 0, "", "", "", "", "", "", "", 0, 0, 0, 0, 0, 0, rest))
            == Client(mac, ssid, 50, "VLAN0050", "8021x", "client-radio-type-11ax-5ghz", "ewlc-assoc-mode-wpa2",
                      "encryp-policy-aes-ccm128", "co-client-run", "default-policy-profile",
                      36, -55, 35, 573, 2, 1, rest)
  {
    hide VlanLabel;
    DefaultVlanLabel();
  }

  lemma DefaultVlanLabel()
    ensures VlanLabel(50) == "VLAN0050"
  {
    hide Decimal;
    assert Decimal(50) == "50" by {
      DecimalShifts(5, 0);
      DecimalShifts(0, 5);
    }
  }

  /** Likewise for a device's own fields, and the credentials. */
  lemma BareSite(d: Site, a: Auth)
    ensures var e := DefaultScalars(d);
            && e.hostname == d.hostname && e.ip == d.ip && e.serial == d.serial && e.aps == d.aps
            && e.tftpPort == d.tftpPort
            && e.httpsPort == (if d.httpsPort != 0 then d.httpsPort else 443)
            && e.sshPort == (if d.sshPort != 0 then d.sshPort else 22)
            && e.snmpPort == (if d.snmpPort != 0 then d.snmpPort else 161)
            && e.model == (if d.model != "" then d.model else "C9800-CL-K9")
            && e.version == (if d.version != "" then d.version else "17.12.1")
    ensures DefaultAuth(a) == Auth(if a.username != "" then a.username else "admin",
                                   if a.password != "" then a.password else "admin",
                                   if a.community != "" then a.community else "public")
  {}

  /** Some client has the SSID. */
  ghost predicate OnSome(cs: seq<Client>, ssid: string) { exists k :: 0 <= k < |cs| && cs[k].ssid == ssid }

  lemma OnSomeMore(cs: seq<Client>, ssid: string)
    requires cs != []
    ensures OnSome(cs, ssid) <==> OnSome(cs[..|cs| - 1], ssid) || cs[|cs| - 1].ssid == ssid
  {
    var n := |cs| - 1;
    if OnSome(cs[..n], ssid) {
      var k :| 0 <= k < n && cs[..n][k].ssid == ssid;
      assert cs[k].ssid == ssid;
    }
    if OnSome(cs, ssid) {
      var k :| 0 <= k < |cs| && cs[k].ssid == ssid;
      if k < n { assert cs[..n][k].ssid == ssid; }
    }
  }

  /** The SSIDs taken over from the clients: each one a client has, once, in order of first appearance. */
  lemma {:induction false} SSIDsOfClients(cs: seq<Client>)
    ensures var r := ClientSSIDs(cs);
            && (forall i, j :: 0 <= i < j < |r| ==> r[i] != r[j])
            && (forall x :: x in r <==> x != "" && OnSome(cs, x))
    ensures cs != [] ==> ClientSSIDs(cs[..|cs| - 1]) <= ClientSSIDs(cs)
  {
    hide OnSome;
    if cs == [] {
      NobodyOn();
    } else {
      SSIDsOfClients(cs[..|cs| - 1]);
      forall x ensures x in ClientSSIDs(cs) <==> x != "" && OnSome(cs, x) { OnSomeMore(cs, x); }
    }
  }

  lemma NobodyOn()
    ensures forall x :: !OnSome([], x)
  {}

  // ---- When a restart reproduces what ran ----

  predicate CompleteClient(c: Client) {
    && c.radioType != "" && c.securityMode != "" && c.encryptionType != "" && c.authKeyMgmt != "" && c.state != ""
    && c.channel != 0 && c.rssi != 0 && c.snr != 0 && c.speed != 0 && c.spatialStreams != 0
    && c.vlan != 0 && c.vlanName != "" && c.wlanId != 0 && c.policyProfile != ""
  }

  /** No client leaves a field open, and the SSIDs are given unless no client has one. */
  predicate CompleteAP(ap: AP) {
    && (forall i :: 0 <= i < |ap.clients| ==> CompleteClient(ap.clients[i]))
    && (ap.ssids != [] || forall i :: 0 <= i < |ap.clients| ==> ap.clients[i].ssid == "")
  }

  /** The built-in access point is marked, named after the site, and has its address and model. */
  predicate DefaultInPlace(d: Site) {
    d.hostname != "" ==>
      var i := FirstMarked(d.aps);
      i < |d.aps| && d.aps[i].name == d.hostname && d.aps[i].mac != "" && d.aps[i].model != ""
  }

  predicate CompleteSite(d: Site) {
    && d.httpsPort != 0 && d.sshPort != 0 && d.snmpPort != 0 && d.model != "" && d.version != ""
    && DefaultInPlace(d) && forall i :: 0 <= i < |d.aps| ==> CompleteAP(d.aps[i])
  }

  predicate Complete(c: Settings) {
    && c.auth.username != "" && c.auth.password != "" && c.auth.community != ""
    && forall i :: 0 <= i < |c.devices| ==> CompleteSite(c.devices[i])
  }

  lemma ClientUnchanged(c: Client)
    ensures DefaultClient(c) == c <==> CompleteClient(c)
  {}

  lemma {:induction false} NoSSIDs(cs: seq<Client>)
    ensures ClientSSIDs(cs) == [] <==> forall i :: 0 <= i < |cs| ==> cs[i].ssid == ""
  {
    if cs == [] {
    } else {
      NoSSIDs(cs[..|cs| - 1]);
      assert forall i :: 0 <= i < |cs| - 1 ==> cs[..|cs| - 1][i] == cs[i];
    }
  }

  lemma APUnchanged(ap: AP)
    ensures DefaultAP(ap) == ap <==> CompleteAP(ap)
  {
    hide DefaultClient, CompleteClient, ClientSSIDs;
    forall i | 0 <= i < |ap.clients|
      ensures DefaultClients(ap.clients)[i] == ap.clients[i] <==> CompleteClient(ap.clients[i])
    {
      ClientUnchanged(ap.clients[i]);
    }
    var same := DefaultClients(ap.clients) == ap.clients;
    assert same <==> forall i :: 0 <= i < |ap.clients| ==> CompleteClient(ap.clients[i]);
    NoSSIDs(ap.clients);
  }

  /** Expanding defaults never takes back what ensuring the built-in access point has done. */
  lemma DefaultUnchanged(d: Site)
    ensures DefaultAPs(EnsureDefault(d).aps) == d.aps <==> DefaultInPlace(d) && DefaultAPs(d.aps) == d.aps
  {
    hide DefaultAPMAC, DefaultClients, ClientSSIDs;
    var aps, host := d.aps, d.hostname;
    var i, j, e := FirstMarked(aps), FirstNamed(aps, host), EnsureDefault(d).aps;
    if host != "" && i < |aps| {
      if DefaultAPs(e) == aps { assert DefaultAP(e[i]) == aps[i] && e == aps[i := e[i]]; }
      if DefaultInPlace(d) { assert e[i] == aps[i] && e == aps; }
      if DefaultAPs(e) == aps { assert e[i] == aps[i] && e == aps by { FilledBack(aps[i], host); } }
    } else if host != "" && j < |aps| {
      assert DefaultAPs(e)[j].isDefault && !aps[j].isDefault;
    }
  }

  lemma FilledBack(ap: AP, host: string)
    requires DefaultAP(FillDefaultAP(ap, host)) == ap
    ensures FillDefaultAP(ap, host) == ap
  {
    hide DefaultAPMAC, DefaultClients, ClientSSIDs;
  }

  lemma SiteUnchanged(d: Site)
    ensures DefaultSite(d) == d <==> CompleteSite(d)
  {
    hide EnsureDefault, DefaultAP, CompleteAP, DefaultInPlace;
    var e := DefaultScalars(d);
    EnsureKeepsScalars(e);
    DefaultUnchanged(e);
    forall i | 0 <= i < |d.aps| ensures DefaultAP(d.aps[i]) == d.aps[i] <==> CompleteAP(d.aps[i]) {
      APUnchanged(d.aps[i]);
    }
    assert DefaultAPs(d.aps) == d.aps <==> forall i :: 0 <= i < |d.aps| ==> CompleteAP(d.aps[i]);
    assert DefaultInPlace(e) <==> DefaultInPlace(d) by { InPlaceIgnoresScalars(d); }
    assert e == d <==> d.httpsPort != 0 && d.sshPort != 0 && d.snmpPort != 0 && d.model != "" && d.version != "";
    assert DefaultSite(d) == e.(aps := DefaultAPs(EnsureDefault(e).aps));
  }

  lemma InPlaceIgnoresScalars(d: Site)
    ensures DefaultInPlace(DefaultScalars(d)) <==> DefaultInPlace(d)
  {}

  /**
   A saved configuration loads as exactly what was saved, so that a restart reproduces what
   ran, if and only if it leaves nothing to default: a client added at runtime with unset
   fields, say, comes back with them filled in.
   */
  lemma ReloadsExactly(codec: Codec, fs: Files, path: string, c: Settings)
    requires Faithful(codec) && Holds(fs, path, codec.encode(c))
    ensures Load(codec, fs, path) == Some(c) <==> Complete(c)
  {
    hide DefaultSite, CompleteSite;
    LoadSaved(codec, fs, path, c);
    forall i | 0 <= i < |c.devices| ensures Defaulted(c).devices[i] == c.devices[i] <==> CompleteSite(c.devices[i]) {
      SiteUnchanged(c.devices[i]);
    }
    assert Defaulted(c).devices == c.devices <==> forall i :: 0 <= i < |c.devices| ==> CompleteSite(c.devices[i]);
  }
}
