/**
 A simulated controller: its configured fields, its built-in access point, and the cached
 rendering of its running config.
 */
module Device {
  import opened Text

  /** A wireless client; `rest` stands for the fields nothing here looks at. */
  datatype Client = Client(
    mac: string, ssid: string, vlan: int, vlanName: string, authKeyMgmt: string,
    radioType: string, securityMode: string, encryptionType: string, state: string,
    policyProfile: string, channel: int, rssi: int, snr: int, speed: int,
    spatialStreams: int, wlanId: int, rest: string)

  datatype AP = AP(
    name: string, mac: string, model: string, ssids: seq<string>, clients: seq<Client>, isDefault: bool)

  /** A device's configured fields, as they are stored. */
  datatype Site = Site(
    hostname: string, ip: string, httpsPort: int, sshPort: int, snmpPort: int, tftpPort: int,
    model: string, serial: string, version: string, aps: seq<AP>)

  const DEFAULT_AP_MODEL := "C9120AXI-B"

  // ---- The built-in access point ----

  function HexDigit(d: nat): char
    requires d < 16
  {
    if d < 10 then '0' + d as char else 'a' + (d - 10) as char
  }

  function HexByte(n: nat): (s: string)
    requires n < 256
    ensures |s| == 2
  {
    [HexDigit(n / 16), HexDigit(n % 16)]
  }

  /** FNV-1a, 32 bit, over one-byte characters. */
  function Fnv32a(s: string): bv32 {
    if s == "" then 2166136261 else Mixed(Fnv32a(s[..|s| - 1]), Octet(s[|s| - 1]))
  }

  function Mixed(h: bv32, octet: bv32): bv32 { (h ^ octet) * 16777619 }

  function Octet(c: char): bv32 { (c as int % 256) as bv32 }

  /** The published test vectors of FNV-1a for no letter and one. */
  lemma HashVectors()
    ensures Fnv32a("") == 0x811c9dc5 && Fnv32a("a") == 0xe40c292c
  {
    hide Octet;
    assert "a"[..0] == "";
    OctetOfA();
    assert Mixed(0x811c9dc5, 97) == 0xe40c292c;
  }

  lemma OctetOfA()
    ensures Octet('a') == 97
  {}

  function Hash(hostname: string): nat { Fnv32a(hostname) as nat }

  function MAC(x: string, y: string, z: string): string { "00:3a:7d:" + (x + (":" + (y + (":" + z)))) }

  function DefaultAPMAC(hostname: string): (mac: string)
    ensures mac != ""
  {
    var sum := Hash(hostname);
    MAC(HexByte(sum / 0x1_0000 % 0x100), HexByte(sum / 0x100 % 0x100), HexByte(sum % 0x100))
  }

  /** What a hexadecimal digit stands for. */
  function HexValue(c: char): nat {
    if '0' <= c <= '9' then (c - '0') as nat
    else if 'a' <= c <= 'f' then 10 + (c - 'a') as nat
    else 0
  }

  /** The low three bytes of a printed address, read back. */
  function LowBytes(mac: string): nat
    requires |mac| == 17
  {
    ByteAt(mac, 9) * 0x1_0000 + ByteAt(mac, 12) * 0x100 + ByteAt(mac, 15)
  }

  function ByteAt(mac: string, i: nat): nat
    requires i + 1 < |mac|
  {
    HexValue(mac[i]) * 16 + HexValue(mac[i + 1])
  }

  lemma HexReadsBack(n: nat)
    requires n < 256
    ensures HexValue(HexByte(n)[0]) * 16 + HexValue(HexByte(n)[1]) == n
  {
    DigitReadsBack(n / 16);
    DigitReadsBack(n % 16);
  }

  lemma DigitReadsBack(d: nat)
    requires d < 16
    ensures HexValue(HexDigit(d)) == d
  {
    var c := HexDigit(d);
    if d < 10 { assert c as int == '0' as int + d; } else { assert c as int == 'a' as int + (d - 10); }
  }

  /** The derived address: the vendor's prefix, then the low 24 bits of the name's hash, most significant byte first. */
  lemma MACReadsBack(hostname: string)
    ensures var mac := DefaultAPMAC(hostname);
            && |mac| == 17 && mac[..9] == "00:3a:7d:" && mac[11] == ':' && mac[14] == ':'
            && LowBytes(mac) == Hash(hostname) % 0x100_0000
  {
    hide Hash, MAC, HexByte, LowBytes;
    var sum := Hash(hostname);
    BytesReadBack(sum / 0x1_0000 % 0x100, sum / 0x100 % 0x100, sum % 0x100);
    ThreeBytes(sum);
  }

  lemma BytesReadBack(x: nat, y: nat, z: nat)
    requires x < 0x100 && y < 0x100 && z < 0x100
    ensures var mac := MAC(HexByte(x), HexByte(y), HexByte(z));
            && |mac| == 17 && mac[..9] == "00:3a:7d:" && mac[11] == ':' && mac[14] == ':'
            && LowBytes(mac) == x * 0x1_0000 + y * 0x100 + z
  {
    hide HexByte, HexValue, MAC;
    HexReadsBack(x);
    HexReadsBack(y);
    HexReadsBack(z);
    Digits(HexByte(x), HexByte(y), HexByte(z));
  }

  lemma Digits(x: string, y: string, z: string)
    requires |x| == |y| == |z| == 2
    ensures var mac := MAC(x, y, z);
            && |mac| == 17 && mac[..9] == "00:3a:7d:" && mac[11] == ':' && mac[14] == ':'
            && mac[9] == x[0] && mac[10] == x[1] && mac[12] == y[0] && mac[13] == y[1]
            && mac[15] == z[0] && mac[16] == z[1]
  {}

  lemma ThreeBytes(n: nat)
    ensures n / 0x1_0000 % 0x100 * 0x1_0000 + n / 0x100 % 0x100 * 0x100 + n % 0x100 == n % 0x100_0000
  {
    var a := n / 0x100;
    var b := a / 0x100;
    assert n == a * 0x100 + n % 0x100 && a == b * 0x100 + a % 0x100;
    assert b == n / 0x1_0000;
    assert n == b / 0x100 * 0x100_0000 + (b % 0x100 * 0x1_0000 + a % 0x100 * 0x100 + n % 0x100);
  }

  /** Two sites get the same derived address exactly if the low 24 bits of their names' hashes agree. */
  lemma SameMACExactly(host: string, host': string)
    ensures DefaultAPMAC(host) == DefaultAPMAC(host')
            <==> Hash(host) % 0x100_0000 == Hash(host') % 0x100_0000
  {
    hide Hash, LowBytes, MAC, HexByte;
    MACReadsBack(host);
    MACReadsBack(host');
    var n, n' := Hash(host), Hash(host');
    if n % 0x100_0000 == n' % 0x100_0000 { SameBytes(n, n'); }
  }

  lemma SameBytes(n: nat, n': nat)
    requires n % 0x100_0000 == n' % 0x100_0000
    ensures n / 0x1_0000 % 0x100 == n' / 0x1_0000 % 0x100 && n / 0x100 % 0x100 == n' / 0x100 % 0x100
    ensures n % 0x100 == n' % 0x100
  {
    ThreeBytes(n);
    ThreeBytes(n');
  }

  function FillDefaultAP(ap: AP, hostname: string): AP {
    ap.(name := hostname,
        mac := if ap.mac == "" then DefaultAPMAC(hostname) else ap.mac,
        model := if ap.model == "" then DEFAULT_AP_MODEL else ap.model)
  }

  /** Index of the first access point marked default, or |aps|. */
  function FirstMarked(aps: seq<AP>): (i: nat)
    ensures i <= |aps| && (i < |aps| ==> aps[i].isDefault)
    ensures forall k :: 0 <= k < i ==> !aps[k].isDefault
  {
    if aps == [] then 0 else if aps[0].isDefault then 0 else 1 + FirstMarked(aps[1..])
  }

  /** Index of the first access point with the name, or |aps|. */
  function FirstNamed(aps: seq<AP>, name: string): (i: nat)
    ensures i <= |aps| && (i < |aps| ==> aps[i].name == name)
    ensures forall k :: 0 <= k < i ==> aps[k].name != name
  {
    if aps == [] then 0 else if aps[0].name == name then 0 else 1 + FirstNamed(aps[1..], name)
  }

  function EnsureDefault(site: Site): Site {
    var aps, host := site.aps, site.hostname;
    var marked, named := FirstMarked(aps), FirstNamed(aps, host);
    if host == "" then site
    else if marked < |aps| then site.(aps := aps[marked := FillDefaultAP(aps[marked], host)])
    else if named < |aps| then site.(aps := aps[named := FillDefaultAP(aps[named].(isDefault := true), host)])
    else site.(aps := [FillDefaultAP(AP("", "", "", [], [], true), host)] + aps)
  }

  function Marked(aps: seq<AP>): (n: nat)
    ensures n <= |aps|
  {
    if aps == [] then 0 else (if aps[0].isDefault then 1 else 0) + Marked(aps[1..])
  }

  /** Exactly one built-in access point, and it is named after the site. */
  ghost predicate OneDefault(site: Site) { OneDefaultIn(site.aps, site.hostname) }

  ghost predicate OneDefaultIn(aps: seq<AP>, hostname: string) {
    FirstMarked(aps) < |aps| && Marked(aps) == 1 && aps[FirstMarked(aps)].name == hostname
  }

  lemma {:induction false} MarkedZero(aps: seq<AP>)
    ensures Marked(aps) == 0 <==> FirstMarked(aps) == |aps|
  {
    if aps == [] {
    } else {
      MarkedZero(aps[1..]);
    }
  }

  lemma {:induction false} MarkedUpdate(aps: seq<AP>, i: nat, ap: AP)
    requires i < |aps|
    ensures Marked(aps[i := ap]) == Marked(aps) - (if aps[i].isDefault then 1 else 0) + (if ap.isDefault then 1 else 0)
  {
    if i == 0 {
      assert aps[0 := ap][1..] == aps[1..];
    } else {
      assert aps[i := ap][1..] == aps[1..][i - 1 := ap];
      MarkedUpdate(aps[1..], i - 1, ap);
    }
  }

  lemma {:induction false} MarkedAppend(a: seq<AP>, b: seq<AP>)
    ensures Marked(a + b) == Marked(a) + Marked(b)
  {
    if a == [] {
      assert a + b == b;
    } else {
      assert (a + b)[1..] == a[1..] + b;
      MarkedAppend(a[1..], b);
    }
  }

  lemma UniqueMarked(aps: seq<AP>, i: nat)
    requires i < |aps| && aps[i].isDefault && forall k :: 0 <= k < i ==> !aps[k].isDefault
    ensures FirstMarked(aps) == i
  {}

  /** Ensuring the built-in access point is idempotent, whatever the site looks like. */
  lemma EnsureIdempotent(site: Site)
    ensures EnsureDefault(EnsureDefault(site)) == EnsureDefault(site)
  {
    hide DefaultAPMAC;
    var aps, host := site.aps, site.hostname;
    var once := EnsureDefault(site);
    if host != "" {
      var i := if FirstMarked(aps) < |aps| then FirstMarked(aps)
               else if FirstNamed(aps, host) < |aps| then FirstNamed(aps, host) else 0;
      UniqueMarked(once.aps, i);
      assert once.aps[i := once.aps[i]] == once.aps;
    }
  }

  /**
   It stops at the first marked one, so it leaves exactly one built-in access point, named
   after the site, exactly if at most one was marked before.
   */
  lemma EnsuresOneExactly(site: Site)
    requires site.hostname != ""
    ensures OneDefault(EnsureDefault(site)) <==> Marked(site.aps) <= 1
  {
    hide DefaultAPMAC;
    var aps, host, after := site.aps, site.hostname, EnsureDefault(site).aps;
    var i, j := FirstMarked(aps), FirstNamed(aps, host);
    MarkedZero(aps);
    if i < |aps| {
      MarkedUpdate(aps, i, FillDefaultAP(aps[i], host));
      UniqueMarked(after, i);
    } else if j < |aps| {
      MarkedUpdate(aps, j, FillDefaultAP(aps[j].(isDefault := true), host));
      UniqueMarked(after, j);
    } else {
      assert after[1..] == aps;
      UniqueMarked(after, 0);
    }
  }

  /**
   Ensuring the built-in access point keeps every access point there was, in order, with its
   clients, its SSIDs, and its address and model where it had one; what it adds is one new,
   empty access point in front, and only where none was marked or named after the site.
   */
  lemma EnsureKeepsAPs(site: Site)
    requires site.hostname != ""
    ensures var before, after := site.aps, EnsureDefault(site).aps;
            var added := if |after| == |before| then 0 else 1;
            && |after| == |before| + added
            && (added == 1 <==>
                 forall k :: 0 <= k < |before| ==> !before[k].isDefault && before[k].name != site.hostname)
            && (added == 1 ==>
                 after[0] == AP(site.hostname, DefaultAPMAC(site.hostname), "C9120AXI-B", [], [], true))
            && forall k :: 0 <= k < |before| ==>
                 && after[k + added].clients == before[k].clients && after[k + added].ssids == before[k].ssids
                 && (before[k].mac != "" ==> after[k + added].mac == before[k].mac)
                 && (before[k].model != "" ==> after[k + added].model == before[k].model)
                 && (before[k].isDefault ==> after[k + added].isDefault)
                 && (after[k + added] != before[k] ==>
                      after[k + added].name == site.hostname && after[k + added].isDefault)
  {
    hide DefaultAPMAC;
  }

  // ---- Rendering ----

  datatype Wlan = Wlan(ssid: string, id: int, akm: string)

  datatype TemplateData = TemplateData(
    hostname: string, ip: string, version: string, serial: string,
    vlans: seq<(int, string)>, wlans: seq<Wlan>, aps: seq<AP>)

  /** A rendered text is a function of its template and data, so these stand for it. */
  datatype Rendering = NotRendered | Rendered(template: string, data: TemplateData)

  const BUILT_IN_TEMPLATE := "(built-in)"

  function AllClients(aps: seq<AP>): seq<Client> {
    if aps == [] then [] else AllClients(aps[..|aps| - 1]) + aps[|aps| - 1].clients
  }

  function Pad4(n: nat): string {
    var d := Decimal(n);
    if |d| >= 4 then d else if |d| == 3 then "0" + d else if |d| == 2 then "00" + d else "000" + d
  }

  /** fmt's %04d: the sign counts towards the width. */
  function Decimal04(n: int): string {
    if n >= 0 then Pad4(n) else
    var d := Decimal(-n);
    if |d| >= 3 then "-" + d else if |d| == 2 then "-0" + d else "-00" + d
  }

  function VlanLabel(n: int): (s: string)
    ensures s != ""
  {
    "VLAN" + Decimal04(n)
  }

  function VlanName(c: Client): string {
    if c.vlanName == "" then VlanLabel(c.vlan) else c.vlanName
  }

  function AddVlan(m: map<int, string>, c: Client): map<int, string> {
    if c.vlan > 0 then m[c.vlan := VlanName(c)] else m
  }

  function AddSsid(m: map<string, string>, c: Client): map<string, string> {
    if c.ssid != "" then m[c.ssid := if c.authKeyMgmt == "" then "dot1x" else c.authKeyMgmt] else m
  }

  function Vlans(cs: seq<Client>): map<int, string> {
    if cs == [] then map[] else AddVlan(Vlans(cs[..|cs| - 1]), cs[|cs| - 1])
  }

  function Ssids(cs: seq<Client>): map<string, string> {
    if cs == [] then map[] else AddSsid(Ssids(cs[..|cs| - 1]), cs[|cs| - 1])
  }

  /** Client i is the last one on its VLAN. */
  ghost predicate LastOnVlan(cs: seq<Client>, i: nat, id: int) {
    i < |cs| && cs[i].vlan == id && forall k :: i < k < |cs| ==> cs[k].vlan != id
  }

  /** The VLANs are those of the clients, each named by its last client. */
  lemma {:induction false} VlansByLastClient(cs: seq<Client>, id: int, name: string)
    ensures id in Vlans(cs) && Vlans(cs)[id] == name
            <==> id > 0 && exists i: nat :: LastOnVlan(cs, i, id) && name == VlanName(cs[i])
  {
    hide VlanName;
    if cs == [] {
    } else {
      var n := |cs| - 1;
      VlansByLastClient(cs[..n], id, name);
      if cs[n].vlan == id {
        assert LastOnVlan(cs, n, id);
      } else {
        forall i: nat ensures LastOnVlan(cs, i, id) <==> LastOnVlan(cs[..n], i, id) {
          if i < n { assert forall k :: i < k < n ==> cs[..n][k] == cs[k]; }
        }
      }
    }
  }

  /** Client i is the last one on its SSID. */
  ghost predicate LastOnSsid(cs: seq<Client>, i: nat, ssid: string) {
    i < |cs| && cs[i].ssid == ssid && forall k :: i < k < |cs| ==> cs[k].ssid != ssid
  }

  /** The WLANs are the clients' SSIDs, each with the key management of its last client, "dot1x" if it names none. */
  lemma {:induction false} SsidsByLastClient(cs: seq<Client>, ssid: string, akm: string)
    ensures ssid in Ssids(cs) && Ssids(cs)[ssid] == akm
            <==> ssid != "" && exists i: nat :: LastOnSsid(cs, i, ssid)
                                              && akm == if cs[i].authKeyMgmt == "" then "dot1x" else cs[i].authKeyMgmt
  {
    if cs == [] {
    } else {
      var n := |cs| - 1;
      SsidsByLastClient(cs[..n], ssid, akm);
      if cs[n].ssid == ssid {
        assert LastOnSsid(cs, n, ssid);
      } else {
        forall i: nat ensures LastOnSsid(cs, i, ssid) <==> LastOnSsid(cs[..n], i, ssid) {
          if i < n { assert forall k :: i < k < n ==> cs[..n][k] == cs[k]; }
        }
      }
    }
  }

  /** A VLAN without a name is called VLAN and its number, padded with zeros to four digits. */
  lemma LabelReadsBack(n: nat)
    ensures var text := VlanLabel(n);
            && text[..4] == "VLAN" && |text[4..]| >= 4 && (|text[4..]| > 4 ==> text[4] != '0')
            && Free(text[4..], NotDigit) && Value(text[4..]) == n
  {
    hide Pad4, Value;
    PadReadsBack(n);
    assert VlanLabel(n) == "VLAN" + Pad4(n);
    assert VlanLabel(n)[..4] == "VLAN" && VlanLabel(n)[4..] == Pad4(n);
  }

  lemma PadReadsBack(n: nat)
    ensures var p := Pad4(n);
            && |p| >= 4 && (|p| > 4 ==> p[0] != '0') && Free(p, NotDigit) && Value(p) == n
  {
    hide Value, Decimal;
    var d := Decimal(n);
    ValueOfDecimal(n);
    if |d| >= 4 {
      assert n > 0 by { OneDigit(); }
      NoLeadingZero(n);
    } else {
      LeadingZero(d);
      LeadingZero("0" + d);
      LeadingZero("0" + ("0" + d));
      assert "00" + d == "0" + ("0" + d) && "000" + d == "0" + ("0" + ("0" + d));
    }
  }

  lemma OneDigit()
    ensures |Decimal(0)| == 1
  {}

  lemma {:induction false} NoLeadingZero(n: nat)
    requires n > 0
    ensures Decimal(n)[0] != '0'
  {
    if n < 10 {
      assert Decimal(n)[0] as int == '0' as int + n;
    } else {
      NoLeadingZero(n / 10);
      assert Decimal(n)[0] == Decimal(n / 10)[0];
    }
  }

  lemma {:induction false} LeadingZero(s: string)
    requires Free(s, NotDigit)
    ensures Free("0" + s, NotDigit) && Value("0" + s) == Value(s)
  {
    var t := "0" + s;
    forall i | 0 <= i < |t| ensures !NotDigit(t[i]) { if i > 0 { assert t[i] == s[i - 1] && !NotDigit(s[i - 1]); } }
    if s == "" {
      assert t[..0] == "";
    } else {
      var front := s[..|s| - 1];
      LeadingZero(front);
      assert t[..|t| - 1] == "0" + front && t[|t| - 1] == s[|s| - 1];
    }
  }

  /** The list has each entry of the map once, in some order. */
  ghost predicate ListsVlans(l: seq<(int, string)>, m: map<int, string>) {
    && |l| == |m|
    && (forall i, j :: 0 <= i < j < |l| ==> l[i].0 != l[j].0)
    && (forall i :: 0 <= i < |l| ==> l[i].0 in m && l[i].1 == m[l[i].0])
  }

  /** Likewise, numbered from 1 in that order. */
  ghost predicate ListsWlans(l: seq<Wlan>, m: map<string, string>) {
    && |l| == |m|
    && (forall i, j :: 0 <= i < j < |l| ==> l[i].ssid != l[j].ssid)
    && (forall i :: 0 <= i < |l| ==> l[i].ssid in m && l[i].akm == m[l[i].ssid] && l[i].id == i + 1)
  }

  function TemplateOf(text: string): string { if text == "" then BUILT_IN_TEMPLATE else text }

  /** r is a rendering of the site's current fields with the template text. */
  ghost predicate IsRendering(r: Rendering, site: Site, template: string) {
    && r.Rendered? && r.template == TemplateOf(template)
    && r.data.hostname == site.hostname && r.data.ip == site.ip
    && r.data.version == site.version && r.data.serial == site.serial
    && r.data.aps == site.aps
    && ListsVlans(r.data.vlans, Vlans(AllClients(site.aps)))
    && ListsWlans(r.data.wlans, Ssids(AllClients(site.aps)))
  }

  class Device {
    var site: Site
    var cached: Rendering

    constructor (site: Site)
      ensures this.site == site && cached == NotRendered
    {
      this.site, cached := site, NotRendered;
    }

    method EnsureDefaultAP()
      modifies `site
      ensures site == EnsureDefault(old(site))
    {
      hide FillDefaultAP;
      if site.hostname == "" { return; }
      var aps, host := site.aps, site.hostname;
      for i := 0 to |aps|
        invariant forall k :: 0 <= k < i ==> !aps[k].isDefault
        invariant site == old(site)
      {
        if aps[i].isDefault {
          site := site.(aps := aps[i := FillDefaultAP(aps[i], host)]);
          return;
        }
      }
      for i := 0 to |aps|
        invariant forall k :: 0 <= k < i ==> aps[k].name != host
        invariant site == old(site)
      {
        if aps[i].name == host {
          site := site.(aps := aps[i := FillDefaultAP(aps[i].(isDefault := true), host)]);
          return;
        }
      }
      site := site.(aps := [FillDefaultAP(AP("", "", "", [], [], true), host)] + aps);
    }

    /** Renders afresh; the order in which the VLANs and WLANs come out is any order. */
    method InitConfig(template: string)
      modifies `cached
      ensures IsRendering(cached, site, template)
    {
      var vlans: map<int, string> := map[];
      var ssids: map<string, string> := map[];
      for j := 0 to |site.aps|
        invariant vlans == Vlans(AllClients(site.aps[..j])) && ssids == Ssids(AllClients(site.aps[..j]))
      {
        assert site.aps[..j + 1][..j] == site.aps[..j];
        vlans, ssids := Collect(AllClients(site.aps[..j]), site.aps[j].clients, vlans, ssids);
      }
      assert site.aps[..|site.aps|] == site.aps;
      var vlanList := ListVlans(vlans);
      var wlanList := ListWlans(ssids);
      cached := Rendered(TemplateOf(template),
        TemplateData(site.hostname, site.ip, site.version, site.serial, vlanList, wlanList, site.aps));
    }
  }

  lemma OneMoreClient(cs: seq<Client>, c: Client)
    ensures Vlans(cs + [c]) == AddVlan(Vlans(cs), c) && Ssids(cs + [c]) == AddSsid(Ssids(cs), c)
  {
    hide AddVlan, AddSsid;
    assert (cs + [c])[..|cs|] == cs;
  }

  /** One access point's clients, after those seen before. */
  method Collect(ghost before: seq<Client>, clients: seq<Client>, vlans: map<int, string>, ssids: map<string, string>)
    returns (vlans': map<int, string>, ssids': map<string, string>)
    requires vlans == Vlans(before) && ssids == Ssids(before)
    ensures vlans' == Vlans(before + clients) && ssids' == Ssids(before + clients)
  {
    hide AddVlan, AddSsid, Vlans, Ssids;
    vlans', ssids' := vlans, ssids;
    assert before + clients[..0] == before;
    for k := 0 to |clients|
      invariant vlans' == Vlans(before + clients[..k]) && ssids' == Ssids(before + clients[..k])
    {
      OneMoreClient(before + clients[..k], clients[k]);
      assert before + clients[..k + 1] == before + clients[..k] + [clients[k]];
      vlans', ssids' := AddVlan(vlans', clients[k]), AddSsid(ssids', clients[k]);
    }
    assert clients[..|clients|] == clients;
  }

  lemma SomeMember<T>(s: set<T>) returns (x: T)
    requires s != {}
    ensures x in s
  {
    x :| x in s;
  }

  method ListVlans(m: map<int, string>) returns (l: seq<(int, string)>)
    ensures ListsVlans(l, m)
  {
    l := [];
    var left := m.Keys;
    while left != {}
      invariant left <= m.Keys && |l| + |left| == |m.Keys|
      invariant forall i :: 0 <= i < |l| ==> l[i].0 in m && l[i].1 == m[l[i].0] && l[i].0 !in left
      invariant forall i, j :: 0 <= i < j < |l| ==> l[i].0 != l[j].0
      decreases |left|
    {
      ghost var some := SomeMember(left);
      var id :| id in left;
      l, left := l + [(id, m[id])], left - {id};
    }
  }

  method ListWlans(m: map<string, string>) returns (l: seq<Wlan>)
    ensures ListsWlans(l, m)
  {
    l := [];
    var left := m.Keys;
    var id := 1;
    while left != {}
      invariant left <= m.Keys && |l| + |left| == |m.Keys| && id == |l| + 1
      invariant forall i :: 0 <= i < |l| ==>
                  l[i].ssid in m && l[i].akm == m[l[i].ssid] && l[i].ssid !in left && l[i].id == i + 1
      invariant forall i, j :: 0 <= i < j < |l| ==> l[i].ssid != l[j].ssid
      decreases |left|
    {
      var ssid :| ssid in left;
      l, left := l + [Wlan(ssid, id, m[ssid])], left - {ssid};
      id := id + 1;
    }
  }
}
