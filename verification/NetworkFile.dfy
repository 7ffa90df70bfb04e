/** The network file generator (`generate_network_config` in src/manager/network.c): the
    [Match], [Link] and [Network] keys and the [Address] and [Route] sections. */
module NetworkFile {
  import opened Wrappers
  import opened Strings
  import opened KeyFiles
  import opened Addresses

  /** The fields of `Network` the three sections are made of. A tri-state integer is an
      optional boolean, a mode is the optional networkd name of its number, and a table is
      the sequence of its entries in the order the table is walked. A DHCP mode may be set
      and have no name. */
  datatype Config = Config(
    ifname: string,
    matchMac: Option<string>,
    driver: Option<seq<string>>,
    unmanaged: Option<bool>,
    mac: Option<string>,
    arp: Option<bool>,
    multicast: Option<bool>,
    allMulticast: Option<bool>,
    promiscuous: Option<bool>,
    reqForOnline: Option<bool>,
    optional: Option<bool>,
    mtu: Uint32,
    reqFamily: Option<string>,
    activation: Option<string>,
    dhcpType: Option<Option<string>>,
    keepConfiguration: Option<string>,
    dhcp4: Option<bool>,
    dhcp6: Option<bool>,
    lldp: Option<bool>,
    linkLocal: Option<string>,
    ipv6Generation: Option<string>,
    ipv6Privacy: Option<string>,
    ipv6AcceptRa: Option<bool>,
    dhcpServer: Option<bool>,
    ipv6Mtu: Uint32,
    withoutCarrier: Option<bool>,
    dns: seq<string>,
    domains: seq<string>,
    ntps: Option<seq<string>>)

  /** The keys the generator writes in the three sections. */
  datatype Field =
    | MatchName | MatchMac | MatchDriver
    | Unmanaged | LinkMac | Arp | Multicast | AllMulticast | Promiscuous | RequiredForOnline
    | MtuBytes | RequiredFamily | ActivationPolicy
    | Dhcp | KeepConfiguration | Lldp | LinkLocal | Ipv6Generation | Ipv6Privacy | Ipv6AcceptRa
    | DhcpServer | Ipv6Mtu | WithoutCarrier | Dns | Domains | Ntp

  predicate InMatch(f: Field) {
    f.MatchName? || f.MatchMac? || f.MatchDriver?
  }

  predicate InLink(f: Field) {
    || f.Unmanaged? || f.LinkMac? || f.Arp? || f.Multicast? || f.AllMulticast? || f.Promiscuous?
    || f.RequiredForOnline? || f.MtuBytes? || f.RequiredFamily? || f.ActivationPolicy?
  }

  function SectionOf(f: Field): string {
    if InMatch(f) then "Match" else if InLink(f) then "Link" else "Network"
  }

  function KeyOf(f: Field): string {
    match f
    case MatchName => "Name"
    case MatchMac => "MACAddress"
    case MatchDriver => "Driver"
    case Unmanaged => "Unmanaged"
    case LinkMac => "MACAddress"
    case Arp => "ARP"
    case Multicast => "Multicast"
    case AllMulticast => "AllMulticast"
    case Promiscuous => "Promiscuous"
    case RequiredForOnline => "RequiredForOnline"
    case MtuBytes => "MTUBytes"
    case RequiredFamily => "RequiredFamilyForOnline"
    case ActivationPolicy => "ActivationPolicy"
    case Dhcp => "DHCP"
    case KeepConfiguration => "KeepConfiguration"
    case Lldp => "LLDP"
    case LinkLocal => "LinkLocalAddressing"
    case Ipv6Generation => "IPv6LinkLocalAddressGenerationMode"
    case Ipv6Privacy => "IPv6PrivacyExtensions"
    case Ipv6AcceptRa => "IPv6AcceptRA"
    case DhcpServer => "DHCPServer"
    case Ipv6Mtu => "IPv6MTUBytes"
    case WithoutCarrier => "ConfigureWithoutCarrier"
    case Dns => "DNS"
    case Domains => "Domains"
    case Ntp => "NTP"
  }

  // --------------------------------------------------------- what is written

  function BoolValue(b: Option<bool>): Option<string> {
    match b case None => None case Some(x) => Some(YesNo(x))
  }

  function NotValue(b: Option<bool>): Option<string> {
    match b case None => None case Some(x) => Some(YesNo(!x))
  }

  function ListValue(xs: Option<seq<string>>): Option<string> {
    match xs case None => None case Some(l) => Some(Spaced(l))
  }

  function NonEmpty(xs: seq<string>): Option<seq<string>> {
    if xs == [] then None else Some(xs)
  }

  /** `%i` of an unsigned 32-bit number. */
  function SignedText(n: Uint32): string {
    Signed(if n < 0x8000_0000 then n else n - 0x1_0000_0000)
  }

  /** The gate around the [Link] keys, which leaves `optional` out. */
  predicate LinkGate(n: Config) {
    || n.unmanaged.Some? || n.arp.Some? || n.multicast.Some? || n.allMulticast.Some? || n.promiscuous.Some?
    || n.reqForOnline.Some? || n.mtu > 0 || n.mac.Some? || n.reqFamily.Some? || n.activation.Some?
  }

  /** The DHCP value of the separate IPv4 and IPv6 switches. */
  function DhcpSwitches(n: Config): Option<string> {
    if n.dhcp4 == Some(true) && n.dhcp6 == Some(true) then Some("yes")
    else if n.dhcp4 == Some(true) then Some("ipv4")
    else if n.dhcp6 == Some(true) then Some("ipv6")
    else None
  }

  function MtuText(mtu: Uint32): Option<string> {
    if mtu > 0 then Some(Decimal(mtu)) else None
  }

  function Ipv6MtuText(mtu: Uint32): Option<string> {
    if mtu > 0 then Some(SignedText(mtu)) else None
  }

  /** A guarded `set_config`: the first one for a field, or a later one for the same key. */
  datatype Source = Main(field: Field) | Again(field: Field)

  /** The guarded writes, in their order. */
  const MATCH_SOURCES: seq<Source> := [Main(MatchName), Main(MatchMac), Main(MatchDriver)]

  const DEVICE_SOURCES: seq<Source> :=
    [Main(Unmanaged), Main(LinkMac), Main(Arp), Main(Multicast), Main(AllMulticast), Main(Promiscuous)]

  const ONLINE_SOURCES: seq<Source> :=
    [Main(RequiredForOnline), Again(RequiredForOnline), Main(MtuBytes), Again(LinkMac), Main(RequiredFamily),
     Main(ActivationPolicy)]

  const MODE_SOURCES: seq<Source> := [Main(Dhcp), Main(KeepConfiguration), Again(Dhcp)]

  const LOCAL_SOURCES: seq<Source> := [Main(Lldp), Main(LinkLocal), Main(Ipv6Generation), Main(Ipv6Privacy)]

  const SERVICE_SOURCES: seq<Source> := [Main(Ipv6AcceptRa), Main(DhcpServer), Main(Ipv6Mtu), Main(WithoutCarrier)]

  const NAME_SOURCES: seq<Source> := [Main(Dns), Main(Domains), Main(Ntp)]

  const ORDER: seq<Source> :=
    MATCH_SOURCES + DEVICE_SOURCES + ONLINE_SOURCES + MODE_SOURCES + LOCAL_SOURCES + SERVICE_SOURCES + NAME_SOURCES

  /** What the first writer of a field writes, if anything. The DHCP mode is written, without
      a value, even when it has no networkd name. */
  function MainValue(n: Config, f: Field): Option<Option<string>> {
    if InLink(f) && !LinkGate(n) then None
    else match f
      case MatchName => Some(Some(n.ifname))
      case MatchMac => Wrap(n.matchMac)
      case MatchDriver => Wrap(ListValue(n.driver))
      case Unmanaged => Wrap(NotValue(n.unmanaged))
      case LinkMac => Wrap(n.mac)
      case Arp => Wrap(BoolValue(n.arp))
      case Multicast => Wrap(BoolValue(n.multicast))
      case AllMulticast => Wrap(BoolValue(n.allMulticast))
      case Promiscuous => Wrap(BoolValue(n.promiscuous))
      case RequiredForOnline => Wrap(BoolValue(n.reqForOnline))
      case MtuBytes => Wrap(MtuText(n.mtu))
      case RequiredFamily => Wrap(n.reqFamily)
      case ActivationPolicy => Wrap(n.activation)
      case Dhcp => n.dhcpType
      case KeepConfiguration => Wrap(n.keepConfiguration)
      case Lldp => Wrap(BoolValue(n.lldp))
      case LinkLocal => Wrap(n.linkLocal)
      case Ipv6Generation => Wrap(n.ipv6Generation)
      case Ipv6Privacy => Wrap(n.ipv6Privacy)
      case Ipv6AcceptRa => Wrap(BoolValue(n.ipv6AcceptRa))
      case DhcpServer => Wrap(BoolValue(n.dhcpServer))
      case Ipv6Mtu => Wrap(Ipv6MtuText(n.ipv6Mtu))
      case WithoutCarrier => Wrap(BoolValue(n.withoutCarrier))
      case Dns => Wrap(ListValue(NonEmpty(n.dns)))
      case Domains => Wrap(ListValue(NonEmpty(n.domains)))
      case Ntp => Wrap(ListValue(n.ntps))
  }

  /** What the later writer of a field writes, if there is one. */
  function AgainValue(n: Config, f: Field): Option<Option<string>> {
    match f
    case RequiredForOnline => if LinkGate(n) then Wrap(NotValue(n.optional)) else None
    case LinkMac => if LinkGate(n) then Wrap(n.mac) else None
    case Dhcp => Wrap(DhcpSwitches(n))
    case _ => None
  }

  function ValueOf(n: Config, s: Source): Option<Option<string>> {
    match s case Main(f) => MainValue(n, f) case Again(f) => AgainValue(n, f)
  }

  /** The writes whose guard holds. */
  function WritesFor(n: Config, srcs: seq<Source>): seq<Write> {
    if srcs == [] then []
    else
      var last := srcs[|srcs| - 1];
      WritesFor(n, srcs[..|srcs| - 1]) +
      if ValueOf(n, last).Some? then [Write(SectionOf(last.field), KeyOf(last.field), ValueOf(n, last).value)] else []
  }

  /** The file `create_network_conf_file` leaves: truncated, then given its name. */
  function Created(ifname: string): seq<Section> {
    [Section("Match", [Key("Name", Some(ifname))])]
  }

  /** The three sections of a generated file. */
  function Compile(n: Config): seq<Section> {
    SetAll(Created(n.ifname), WritesFor(n, ORDER))
  }

  // ------------------------------------------------------------- the method

  /** The file after the writes of these sources. */
  function Stage(n: Config, srcs: seq<Source>): seq<Section> {
    if srcs == [] then Created(n.ifname)
    else
      var before, last := Stage(n, srcs[..|srcs| - 1]), srcs[|srcs| - 1];
      if ValueOf(n, last).None? then before
      else Set(before, SectionOf(last.field), KeyOf(last.field), ValueOf(n, last).value)
  }

  lemma {:induction false} StageIsSetAll(n: Config, srcs: seq<Source>)
    ensures Stage(n, srcs) == SetAll(Created(n.ifname), WritesFor(n, srcs))
  {
    if srcs != [] {
      var init, last := srcs[..|srcs| - 1], srcs[|srcs| - 1];
      StageIsSetAll(n, init);
      NextWrite(Created(n.ifname), WritesFor(n, init), SectionOf(last.field), KeyOf(last.field), ValueOf(n, last));
    }
  }

  lemma {:induction false} NextWrite(secs: seq<Section>, ws: seq<Write>, s: string, k: string,
      v: Option<Option<string>>)
    ensures SetAll(secs, ws + if v.Some? then [Write(s, k, v.value)] else []) ==
      if v.None? then SetAll(secs, ws) else Set(SetAll(secs, ws), s, k, v.value)
  {
    if v.Some? {
      assert (ws + [Write(s, k, v.value)])[..|ws|] == ws;
    } else {
      assert ws + [] == ws;
    }
  }

  lemma {:induction false} StageSnoc(n: Config, srcs: seq<Source>, s: Source)
    ensures Stage(n, srcs + [s]) ==
      if ValueOf(n, s).None? then Stage(n, srcs)
      else Set(Stage(n, srcs), SectionOf(s.field), KeyOf(s.field), ValueOf(n, s).value)
  {
    assert (srcs + [s])[..|srcs|] == srcs;
  }

  /** A guarded `set_config`. */
  method PutConfig(kf: KeyFile, n: Config, s: Source, v: Option<string>, ghost srcs: seq<Source>)
    returns (ghost next: seq<Source>)
    requires Wrap(v) == ValueOf(n, s) && kf.sections == Stage(n, srcs)
    modifies kf
    ensures kf.name == old(kf.name) && next == srcs + [s] && kf.sections == Stage(n, next)
  {
    next := srcs + [s];
    StageSnoc(n, srcs, s);
    if v.Some? {
      kf.SetConfig(SectionOf(s.field), KeyOf(s.field), v);
    }
  }

  method PutMatch(kf: KeyFile, n: Config) returns (ghost srcs: seq<Source>)
    requires kf.sections == Created(n.ifname)
    modifies kf
    ensures kf.name == old(kf.name) && srcs == MATCH_SOURCES && kf.sections == Stage(n, srcs)
  {
    srcs := [];
    srcs := PutConfig(kf, n, Main(MatchName), Some(n.ifname), srcs);
    srcs := PutConfig(kf, n, Main(MatchMac), n.matchMac, srcs);
    srcs := PutConfig(kf, n, Main(MatchDriver), ListValue(n.driver), srcs);
  }

  lemma {:induction false} Three(before: seq<Source>, s: seq<Source>)
    requires |s| == 3
    ensures before + [s[0]] + [s[1]] + [s[2]] == before + s
  {
  }

  lemma {:induction false} Four(before: seq<Source>, s: seq<Source>)
    requires |s| == 4
    ensures before + [s[0]] + [s[1]] + [s[2]] + [s[3]] == before + s
  {
  }

  lemma {:induction false} Six(before: seq<Source>, s: seq<Source>)
    requires |s| == 6
    ensures before + [s[0]] + [s[1]] + [s[2]] + [s[3]] + [s[4]] + [s[5]] == before + s
  {
  }

  method PutDevice(kf: KeyFile, n: Config, ghost before: seq<Source>) returns (ghost srcs: seq<Source>)
    requires LinkGate(n) && kf.sections == Stage(n, before)
    modifies kf
    ensures kf.name == old(kf.name) && srcs == before + DEVICE_SOURCES && kf.sections == Stage(n, srcs)
  {
    srcs := before;
    srcs := PutConfig(kf, n, Main(Unmanaged), NotValue(n.unmanaged), srcs);
    srcs := PutConfig(kf, n, Main(LinkMac), n.mac, srcs);
    srcs := PutConfig(kf, n, Main(Arp), BoolValue(n.arp), srcs);
    srcs := PutConfig(kf, n, Main(Multicast), BoolValue(n.multicast), srcs);
    srcs := PutConfig(kf, n, Main(AllMulticast), BoolValue(n.allMulticast), srcs);
    srcs := PutConfig(kf, n, Main(Promiscuous), BoolValue(n.promiscuous), srcs);
    Six(before, DEVICE_SOURCES);
  }

  method PutOnline(kf: KeyFile, n: Config, ghost before: seq<Source>) returns (ghost srcs: seq<Source>)
    requires LinkGate(n) && kf.sections == Stage(n, before)
    modifies kf
    ensures kf.name == old(kf.name) && srcs == before + ONLINE_SOURCES && kf.sections == Stage(n, srcs)
  {
    srcs := before;
    srcs := PutConfig(kf, n, Main(RequiredForOnline), BoolValue(n.reqForOnline), srcs);
    srcs := PutConfig(kf, n, Again(RequiredForOnline), NotValue(n.optional), srcs);
    srcs := PutConfig(kf, n, Main(MtuBytes), MtuText(n.mtu), srcs);
    srcs := PutConfig(kf, n, Again(LinkMac), n.mac, srcs);
    srcs := PutConfig(kf, n, Main(RequiredFamily), n.reqFamily, srcs);
    srcs := PutConfig(kf, n, Main(ActivationPolicy), n.activation, srcs);
    Six(before, ONLINE_SOURCES);
  }

  /** The DHCP mode, which may be set without a value: no earlier write made its key. */
  method PutDhcpMode(kf: KeyFile, n: Config, ghost srcs: seq<Source>) returns (ghost next: seq<Source>)
    requires kf.sections == Stage(n, srcs) && forall i :: 0 <= i < |srcs| ==> srcs[i].field != Dhcp
    modifies kf
    ensures kf.name == old(kf.name) && next == srcs + [Main(Dhcp)] && kf.sections == Stage(n, next)
  {
    next := srcs + [Main(Dhcp)];
    StageSnoc(n, srcs, Main(Dhcp));
    KeyUnwritten(n, Dhcp, srcs);
    if n.dhcpType.Some? {
      kf.SetConfig("Network", "DHCP", n.dhcpType.value);
    }
  }

  method PutModes(kf: KeyFile, n: Config, ghost before: seq<Source>) returns (ghost srcs: seq<Source>)
    requires kf.sections == Stage(n, before) && forall i :: 0 <= i < |before| ==> before[i].field != Dhcp
    modifies kf
    ensures kf.name == old(kf.name) && srcs == before + MODE_SOURCES && kf.sections == Stage(n, srcs)
  {
    srcs := before;
    srcs := PutDhcpMode(kf, n, srcs);
    srcs := PutConfig(kf, n, Main(KeepConfiguration), n.keepConfiguration, srcs);
    srcs := PutConfig(kf, n, Again(Dhcp), DhcpSwitches(n), srcs);
    Three(before, MODE_SOURCES);
  }

  method PutLocal(kf: KeyFile, n: Config, ghost before: seq<Source>) returns (ghost srcs: seq<Source>)
    requires kf.sections == Stage(n, before)
    modifies kf
    ensures kf.name == old(kf.name) && srcs == before + LOCAL_SOURCES && kf.sections == Stage(n, srcs)
  {
    srcs := before;
    srcs := PutConfig(kf, n, Main(Lldp), BoolValue(n.lldp), srcs);
    srcs := PutConfig(kf, n, Main(LinkLocal), n.linkLocal, srcs);
    srcs := PutConfig(kf, n, Main(Ipv6Generation), n.ipv6Generation, srcs);
    srcs := PutConfig(kf, n, Main(Ipv6Privacy), n.ipv6Privacy, srcs);
    Four(before, LOCAL_SOURCES);
  }

  method PutServices(kf: KeyFile, n: Config, ghost before: seq<Source>) returns (ghost srcs: seq<Source>)
    requires kf.sections == Stage(n, before)
    modifies kf
    ensures kf.name == old(kf.name) && srcs == before + SERVICE_SOURCES && kf.sections == Stage(n, srcs)
  {
    srcs := before;
    srcs := PutConfig(kf, n, Main(Ipv6AcceptRa), BoolValue(n.ipv6AcceptRa), srcs);
    srcs := PutConfig(kf, n, Main(DhcpServer), BoolValue(n.dhcpServer), srcs);
    srcs := PutConfig(kf, n, Main(Ipv6Mtu), Ipv6MtuText(n.ipv6Mtu), srcs);
    srcs := PutConfig(kf, n, Main(WithoutCarrier), BoolValue(n.withoutCarrier), srcs);
    Four(before, SERVICE_SOURCES);
  }

  method PutNames(kf: KeyFile, n: Config, ghost before: seq<Source>) returns (ghost srcs: seq<Source>)
    requires kf.sections == Stage(n, before)
    modifies kf
    ensures kf.name == old(kf.name) && srcs == before + NAME_SOURCES && kf.sections == Stage(n, srcs)
  {
    srcs := before;
    srcs := PutConfig(kf, n, Main(Dns), ListValue(NonEmpty(n.dns)), srcs);
    srcs := PutConfig(kf, n, Main(Domains), ListValue(NonEmpty(n.domains)), srcs);
    srcs := PutConfig(kf, n, Main(Ntp), ListValue(n.ntps), srcs);
    Three(before, NAME_SOURCES);
  }

  /** `generate_network_config` up to the repeated sections. */
  method GenerateSections(n: Config) returns (kf: KeyFile)
    ensures fresh(kf) && kf.sections == Compile(n)
  {
    kf := new KeyFile(n.ifname);
    kf.AddSection(Section("Match", [Key("Name", Some(n.ifname))]));
    assert kf.sections == Created(n.ifname);
    ghost var srcs := PutMatch(kf, n);
    if LinkGate(n) {
      srcs := PutDevice(kf, n, srcs);
      srcs := PutOnline(kf, n, srcs);
    } else {
      LinkSkipped(n, srcs, DEVICE_SOURCES);
      srcs := srcs + DEVICE_SOURCES;
      LinkSkipped(n, srcs, ONLINE_SOURCES);
      srcs := srcs + ONLINE_SOURCES;
    }
    assert srcs == MATCH_SOURCES + DEVICE_SOURCES + ONLINE_SOURCES;
    NoModeYet();
    srcs := PutModes(kf, n, srcs);
    srcs := PutLocal(kf, n, srcs);
    srcs := PutServices(kf, n, srcs);
    srcs := PutNames(kf, n, srcs);
    StageIsSetAll(n, ORDER);
  }

  lemma {:induction false} NoModeYet()
    ensures var srcs := MATCH_SOURCES + DEVICE_SOURCES + ONLINE_SOURCES;
      forall i :: 0 <= i < |srcs| ==> srcs[i].field != Dhcp
  {
  }

  /** Without the gate the [Link] writes leave the file as it is. */
  lemma {:induction false} LinkSkipped(n: Config, before: seq<Source>, srcs: seq<Source>)
    requires !LinkGate(n) && forall i :: 0 <= i < |srcs| ==> InLink(srcs[i].field)
    ensures Stage(n, before + srcs) == Stage(n, before)
  {
    if srcs == [] {
      assert before + srcs == before;
    } else {
      var init, last := srcs[..|srcs| - 1], srcs[|srcs| - 1];
      LinkSkipped(n, before, init);
      InitLast(srcs);
      assert before + (init + [last]) == (before + init) + [last];
      StageSnoc(n, before + init, last);
      assert ValueOf(n, last).None?;
    }
  }

  // ------------------------------------------------- one induction for each law

  /** A number for a key, told from its length and two letters. */
  function Code(key: string): (int, int) {
    (|key|, if key == "" then 0 else key[0] as int * 256 + key[|key| - 1] as int)
  }

  /** No two fields share a section and a key. */
  lemma {:induction false} KeysDistinct(f: Field, g: Field)
    requires f != g
    ensures SectionOf(f) != SectionOf(g) || KeyOf(f) != KeyOf(g)
  {
    if SectionOf(f) == SectionOf(g) {
      if SectionOf(f) == "Network" {
        NetworkKeysDistinct(f, g);
      } else {
        OtherKeysDistinct(f, g);
      }
    }
  }

  lemma {:induction false} NetworkKeysDistinct(f: Field, g: Field)
    requires f != g && SectionOf(f) == SectionOf(g) == "Network"
    ensures KeyOf(f) != KeyOf(g)
  {
    assert Code(KeyOf(f)) != Code(KeyOf(g));
  }

  lemma {:induction false} OtherKeysDistinct(f: Field, g: Field)
    requires f != g && SectionOf(f) == SectionOf(g) && SectionOf(f) != "Network"
    ensures KeyOf(f) != KeyOf(g)
  {
    assert Code(KeyOf(f)) != Code(KeyOf(g));
  }

  /** No source follows its own second writer. */
  predicate InOrder(srcs: seq<Source>) {
    forall i, j :: 0 <= i < j < |srcs| ==> !(srcs[i].Again? && srcs[j] == Main(srcs[i].field))
  }

  /** The value the last of these sources that writes a field gives it. */
  function LastValue(n: Config, srcs: seq<Source>, g: Field): Option<Option<string>> {
    if Again(g) in srcs && AgainValue(n, g).Some? then AgainValue(n, g)
    else if Main(g) in srcs then MainValue(n, g)
    else None
  }

  /** The last write to a field's key is that of the last source of the field that writes. */
  lemma {:induction false} LastWriteOf(n: Config, srcs: seq<Source>, g: Field)
    requires InOrder(srcs)
    ensures LastWrite(WritesFor(n, srcs), SectionOf(g), KeyOf(g)) == LastValue(n, srcs, g)
  {
    if srcs != [] {
      var init, last := srcs[..|srcs| - 1], srcs[|srcs| - 1];
      LastWriteOf(n, init, g);
      InitLast(srcs);
      if last.field != g {
        KeysDistinct(last.field, g);
      }
      LastWriteNext(n, init, last, SectionOf(g), KeyOf(g));
      LastValueNext(n, srcs, g);
    }
  }

  lemma {:induction false} LastWriteNext(n: Config, srcs: seq<Source>, last: Source, s: string, k: string)
    ensures LastWrite(WritesFor(n, srcs + [last]), s, k) ==
      if ValueOf(n, last).Some? && SectionOf(last.field) == s && KeyOf(last.field) == k then ValueOf(n, last)
      else LastWrite(WritesFor(n, srcs), s, k)
  {
    assert (srcs + [last])[..|srcs|] == srcs;
    if ValueOf(n, last).Some? {
      LastWriteSnoc(WritesFor(n, srcs), Write(SectionOf(last.field), KeyOf(last.field), ValueOf(n, last).value), s, k);
    } else {
      assert WritesFor(n, srcs) + [] == WritesFor(n, srcs);
    }
  }

  lemma {:induction false} LastValueNext(n: Config, srcs: seq<Source>, g: Field)
    requires srcs != [] && InOrder(srcs)
    ensures var init, last := srcs[..|srcs| - 1], srcs[|srcs| - 1];
      LastValue(n, srcs, g) ==
        if last.field == g && ValueOf(n, last).Some? then ValueOf(n, last) else LastValue(n, init, g)
  {
    var init, last := srcs[..|srcs| - 1], srcs[|srcs| - 1];
    assert forall s :: s in srcs <==> s in init || s == last;
  }

  /** A key that belongs to no source is not written. */
  lemma {:induction false} LastWriteNone(n: Config, srcs: seq<Source>, s: string, k: string)
    requires forall i :: 0 <= i < |srcs| ==> SectionOf(srcs[i].field) != s || KeyOf(srcs[i].field) != k
    ensures LastWrite(WritesFor(n, srcs), s, k) == None
  {
    if srcs != [] {
      var init, last := srcs[..|srcs| - 1], srcs[|srcs| - 1];
      LastWriteNone(n, init, s, k);
      InitLast(srcs);
      LastWriteNext(n, init, last, s, k);
    }
  }

  predicate Without(secs: seq<Section>, name: string) {
    forall i :: 0 <= i < |secs| ==> secs[i].name != name
  }

  lemma {:induction false} WritesWithout(secs: seq<Section>, n: Config, srcs: seq<Source>, name: string)
    requires Without(secs, name) && name !in ["Match", "Link", "Network"]
    ensures Without(SetAll(secs, WritesFor(n, srcs)), name)
  {
    if srcs != [] {
      var init, last := srcs[..|srcs| - 1], srcs[|srcs| - 1];
      var before := WritesFor(n, init);
      WritesWithout(secs, n, init, name);
      if ValueOf(n, last).Some? {
        var w := Write(SectionOf(last.field), KeyOf(last.field), ValueOf(n, last).value);
        assert (before + [w])[..|before|] == before;
      } else {
        assert before + [] == before;
      }
    }
  }

  /** The compiled file has no section but the three. */
  lemma {:induction false} CompileWithout(n: Config, name: string)
    requires name !in ["Match", "Link", "Network"]
    ensures Without(Compile(n), name)
  {
    WritesWithout(Created(n.ifname), n, ORDER, name);
  }

  /** A key the generator never writes. */
  ghost predicate Unowned(s: string, k: string) {
    forall f: Field :: SectionOf(f) != s || KeyOf(f) != k
  }

  /** Whatever the file held before, the writes leave every key alone that the generator does
      not write itself. */
  lemma {:induction false} UnownedKept(secs: seq<Section>, n: Config, s: string, k: string)
    requires Unowned(s, k)
    ensures Lookup(SetAll(secs, WritesFor(n, ORDER)), s, k) == Lookup(secs, s, k)
  {
    LastWriteNone(n, ORDER, s, k);
    LastWriteWins(secs, WritesFor(n, ORDER), s, k);
  }

  // ---------------------------------------------------------- reading it back

  /** What the file must say about a key: nothing exactly when its field is not set, and for
      the two keys with two sources, the later one. */
  function Intended(n: Config, f: Field): Option<Option<string>> {
    match f
    case MatchName => Some(Some(n.ifname))
    case MatchMac => Wrap(n.matchMac)
    case MatchDriver => Wrap(ListValue(n.driver))
    case Unmanaged => Wrap(NotValue(n.unmanaged))
    case LinkMac => Wrap(n.mac)
    case Arp => Wrap(BoolValue(n.arp))
    case Multicast => Wrap(BoolValue(n.multicast))
    case AllMulticast => Wrap(BoolValue(n.allMulticast))
    case Promiscuous => Wrap(BoolValue(n.promiscuous))
    case RequiredForOnline => if n.optional.Some? then Wrap(NotValue(n.optional)) else Wrap(BoolValue(n.reqForOnline))
    case MtuBytes => Wrap(MtuText(n.mtu))
    case RequiredFamily => Wrap(n.reqFamily)
    case ActivationPolicy => Wrap(n.activation)
    case Dhcp => if DhcpSwitches(n).Some? then Wrap(DhcpSwitches(n)) else n.dhcpType
    case KeepConfiguration => Wrap(n.keepConfiguration)
    case Lldp => Wrap(BoolValue(n.lldp))
    case LinkLocal => Wrap(n.linkLocal)
    case Ipv6Generation => Wrap(n.ipv6Generation)
    case Ipv6Privacy => Wrap(n.ipv6Privacy)
    case Ipv6AcceptRa => Wrap(BoolValue(n.ipv6AcceptRa))
    case DhcpServer => Wrap(BoolValue(n.dhcpServer))
    case Ipv6Mtu => if n.ipv6Mtu > 0 then Some(Some(Decimal(n.ipv6Mtu))) else None
    case WithoutCarrier => Wrap(BoolValue(n.withoutCarrier))
    case Dns => Wrap(ListValue(NonEmpty(n.dns)))
    case Domains => Wrap(ListValue(NonEmpty(n.domains)))
    case Ntp => Wrap(ListValue(n.ntps))
  }

  /** What the file says about a field's key. */
  function At(secs: seq<Section>, g: Field): Option<Option<string>> {
    Lookup(secs, SectionOf(g), KeyOf(g))
  }

  /** Where a source stands. */
  function Place(s: Source): nat {
    match s
    case Again(RequiredForOnline) => 10
    case Again(LinkMac) => 12
    case Again(Dhcp) => 17
    case Again(_) => 29
    case Main(MatchName) => 0
    case Main(MatchMac) => 1
    case Main(MatchDriver) => 2
    case Main(Unmanaged) => 3
    case Main(LinkMac) => 4
    case Main(Arp) => 5
    case Main(Multicast) => 6
    case Main(AllMulticast) => 7
    case Main(Promiscuous) => 8
    case Main(RequiredForOnline) => 9
    case Main(MtuBytes) => 11
    case Main(RequiredFamily) => 13
    case Main(ActivationPolicy) => 14
    case Main(Dhcp) => 15
    case Main(KeepConfiguration) => 16
    case Main(Lldp) => 18
    case Main(LinkLocal) => 19
    case Main(Ipv6Generation) => 20
    case Main(Ipv6Privacy) => 21
    case Main(Ipv6AcceptRa) => 22
    case Main(DhcpServer) => 23
    case Main(Ipv6Mtu) => 24
    case Main(WithoutCarrier) => 25
    case Main(Dns) => 26
    case Main(Domains) => 27
    case Main(Ntp) => 28
  }

  lemma {:induction false} PlaceOf(i: nat)
    requires i < |ORDER|
    ensures Place(ORDER[i]) == i
  {
  }

  lemma {:induction false} Placed(s: Source)
    requires Place(s) < |ORDER|
    ensures ORDER[Place(s)] == s
  {
  }

  lemma {:induction false} OrderInOrder()
    ensures InOrder(ORDER)
  {
    forall i, j | 0 <= i < j < |ORDER|
      ensures !(ORDER[i].Again? && ORDER[j] == Main(ORDER[i].field))
    {
      PlaceOf(i);
      PlaceOf(j);
    }
  }

  lemma {:induction false} LookupOne(s: string, k: string, v: Option<string>, s': string, k': string)
    ensures Lookup([Section(s, [Key(k, v)])], s', k') == if s == s' && k == k' then Some(v) else None
  {
    assert [Key(k, v)][1..] == [];
  }

  /** A field no source has written yet has no key in the file. */
  lemma {:induction false} KeyUnwritten(n: Config, f: Field, srcs: seq<Source>)
    requires f != MatchName && forall i :: 0 <= i < |srcs| ==> srcs[i].field != f
    ensures var secs := Stage(n, srcs);
      var i := FindSection(secs, SectionOf(f)); i < |secs| ==> FindKey(secs[i].keys, KeyOf(f)) == |secs[i].keys|
  {
    forall i | 0 <= i < |srcs|
      ensures SectionOf(srcs[i].field) != SectionOf(f) || KeyOf(srcs[i].field) != KeyOf(f)
    {
      KeysDistinct(srcs[i].field, f);
    }
    LastWriteNone(n, srcs, SectionOf(f), KeyOf(f));
    LastWriteWins(Created(n.ifname), WritesFor(n, srcs), SectionOf(f), KeyOf(f));
    StageIsSetAll(n, srcs);
    KeysDistinct(MatchName, f);
    LookupOne("Match", "Name", Some(n.ifname), SectionOf(f), KeyOf(f));
    LookupAt(Stage(n, srcs), SectionOf(f), KeyOf(f));
  }

  /** What the last of a field's sources writes. */
  function LastSource(n: Config, g: Field): Option<Option<string>> {
    if AgainValue(n, g).Some? then AgainValue(n, g) else MainValue(n, g)
  }

  /** A compiled key holds what the last of its sources writes. */
  lemma {:induction false} CompileSays(n: Config, g: Field)
    ensures At(Compile(n), g) == LastSource(n, g)
  {
    OrderInOrder();
    LastWriteOf(n, ORDER, g);
    LastWriteWins(Created(n.ifname), WritesFor(n, ORDER), SectionOf(g), KeyOf(g));
    AllSourcesStand(n, g);
    CreatedSays(n, g);
  }

  lemma {:induction false} AllSourcesStand(n: Config, g: Field)
    ensures LastValue(n, ORDER, g) == LastSource(n, g)
  {
    Placed(Main(g));
    if AgainValue(n, g).Some? {
      Placed(Again(g));
    }
  }

  lemma {:induction false} CreatedSays(n: Config, g: Field)
    ensures At(Created(n.ifname), g) == if g == MatchName then MainValue(n, g) else None
  {
    LookupOne("Match", "Name", Some(n.ifname), SectionOf(g), KeyOf(g));
    if g != MatchName {
      KeysDistinct(g, MatchName);
    }
  }

  /** The key is written and not as its field intends: `optional` does not open the [Link]
      block, and a large IPv6 MTU is written as a negative number. */
  predicate Missed(n: Config, g: Field) {
    || (g == RequiredForOnline && n.optional.Some? && !LinkGate(n))
    || (g == Ipv6Mtu && n.ipv6Mtu >= 0x8000_0000)
  }

  /** Compiling a network and reading a key back gives exactly what its fields intend, with
      the later writer winning on shared keys, except where it is missed; then the key is
      missing or negative. */
  lemma {:induction false} CompileRecovers(n: Config, g: Field)
    ensures At(Compile(n), g) == Intended(n, g) <==> !Missed(n, g)
    ensures Missed(n, g) ==>
      At(Compile(n), g) ==
        if g == RequiredForOnline then None else Some(Some("-" + Decimal(0x1_0000_0000 - n.ipv6Mtu)))
  {
    CompileSays(n, g);
    if g == Ipv6Mtu {
      Ipv6MtuExactly(n.ipv6Mtu);
    } else if InLink(g) {
      LinkIntended(n, g);
    } else {
      OtherIntended(n, g);
    }
  }

  lemma {:induction false} LinkIntended(n: Config, g: Field)
    requires InLink(g)
    ensures LastSource(n, g) == Intended(n, g) <==> !Missed(n, g)
    ensures Missed(n, g) ==> g == RequiredForOnline && LastSource(n, g) == None
  {
  }

  lemma {:induction false} OtherIntended(n: Config, g: Field)
    requires !InLink(g) && g != Ipv6Mtu
    ensures LastSource(n, g) == Intended(n, g) && !Missed(n, g)
  {
  }

  lemma {:induction false} Ipv6MtuExactly(mtu: Uint32)
    ensures SignedText(mtu) == Decimal(mtu) <==> mtu < 0x8000_0000
    ensures mtu >= 0x8000_0000 ==> SignedText(mtu) == "-" + Decimal(0x1_0000_0000 - mtu)
  {
    if mtu >= 0x8000_0000 {
      assert SignedText(mtu)[0] == '-' && '0' <= Decimal(mtu)[0];
    }
  }

  /** A network of which nothing is set. */
  function Blank(ifname: string): Config {
    Config(ifname, None, None, None, None, None, None, None, None, None, None, 0, None, None, None, None, None, None,
           None, None, None, None, None, None, 0, None, [], [], None)
  }

  /** A network of which only `optional` is set loses it. */
  lemma {:induction false} OptionalLost(ifname: string)
    ensures var n := Blank(ifname).(optional := Some(true));
      At(Compile(n), RequiredForOnline) == None && Intended(n, RequiredForOnline) == Some(Some("no"))
  {
    CompileRecovers(Blank(ifname).(optional := Some(true)), RequiredForOnline);
  }

  /** An IPv6 MTU of 2^31 is written as a negative number. */
  lemma {:induction false} LargeIpv6MtuNegative(ifname: string)
    ensures var n := Blank(ifname).(ipv6Mtu := 0x8000_0000);
      At(Compile(n), Ipv6Mtu) == Some(Some("-" + Decimal(0x8000_0000)))
  {
    CompileRecovers(Blank(ifname).(ipv6Mtu := 0x8000_0000), Ipv6Mtu);
  }
}
