/** Parsing one kernel command line token (src/dracut/dracut-parser.c), on values. */
module DracutTokens {
  import opened Wrappers
  import opened Strings
  import opened Addresses

  const DHCP_CLIENT_INVALID := -22

  /** `dracut_dhcp_mode_table`, in the order of the enumeration. */
  const DRACUT_DHCP_MODES: seq<string> :=
    ["none", "off", "dhcp", "on", "any", "dhcp6", "auto6", "either6", "ibft"]

  /** `dracut_to_networkd_dhcp_mode_table`; the last three modes have no name. */
  const NETWORKD_DHCP_MODES: seq<Option<string>> :=
    [Some("no"), Some("no"), Some("ipv4"), Some("yes"), Some("yes"), Some("ipv6"), None, None, None]

  /** `dracut_dhcp_mode_to_mode` from position `i` on. */
  function ModeFrom(name: string, i: nat): int
    requires i <= |DRACUT_DHCP_MODES|
    decreases |DRACUT_DHCP_MODES| - i
  {
    if i == |DRACUT_DHCP_MODES| then DHCP_CLIENT_INVALID
    else if EqFold(name, DRACUT_DHCP_MODES[i]) then i
    else ModeFrom(name, i + 1)
  }

  function ModeOf(name: string): int {
    ModeFrom(name, 0)
  }

  /** A name's mode is the least number whose table entry agrees with it apart from case, and
      a name without one is invalid. */
  lemma {:induction false} ModeLeast(name: string, i: nat)
    requires i <= |DRACUT_DHCP_MODES|
    ensures var m := ModeFrom(name, i);
      && (m == DHCP_CLIENT_INVALID <==>
            forall j :: i <= j < |DRACUT_DHCP_MODES| ==> !EqFold(name, DRACUT_DHCP_MODES[j]))
      && (m != DHCP_CLIENT_INVALID ==>
            && i <= m < |DRACUT_DHCP_MODES| && EqFold(name, DRACUT_DHCP_MODES[m])
            && forall j :: i <= j < m ==> !EqFold(name, DRACUT_DHCP_MODES[j]))
    decreases |DRACUT_DHCP_MODES| - i
  {
    if i < |DRACUT_DHCP_MODES| && !EqFold(name, DRACUT_DHCP_MODES[i]) {
      ModeLeast(name, i + 1);
    }
  }

  /** `dracut_to_networkd_dhcp_mode_to_name`. */
  function NetworkdMode(id: int): Option<string> {
    if 0 <= id < |NETWORKD_DHCP_MODES| then NETWORKD_DHCP_MODES[id] else None
  }

  /** The part of `Route` the command line sets; the family is that of the gateway. */
  datatype Route = Route(dst: Option<IPAddress>, gw: IPAddress)

  /** The part of `Network` the command line sets. Name servers are keyed the way their
      table hashes and compares them. */
  datatype Net = Net(
    ifname: Option<string>,
    mac: Option<string>,
    hostname: Option<string>,
    dhcpType: int,
    mtu: Uint32,
    addresses: set<IPAddress>,
    nameservers: map<seq<Octet>, IPAddress>,
    routes: set<Route>,
    dracut: bool)
  {
    /** `set_add` on the name servers: an entry with an equal key is replaced. */
    function AddNameserver(ip: IPAddress): Net {
      this.(nameservers := nameservers[StringKey(ip) := ip])
    }
  }

  /** `network_new`. */
  const FRESH: Net := Net(None, None, None, DHCP_CLIENT_INVALID, 0, {}, map[], {}, false)

  datatype Status = Success | Error(errno: Errno) | Crash

  /** A parse mutates its network even when it fails, and the next form starts from there. */
  datatype Parsed = Parsed(net: Net, status: Status)

  /** Field `k`, with a missing field read as empty (`isempty(NULL)`). */
  function Field(s: seq<string>, k: nat): string {
    if k < |s| then s[k] else ""
  }

  // ------------------------------------------------------- the long ip= form

  datatype Mask = NoMask | Length(len: int) | Unreadable | Undefined

  /** The netmask field: a dotted mask, else a number. */
  function ReadMask(lib: Libc, f: string): Mask {
    if f == "" then NoMask
    else match lib.ip(f)
      case Some(m) => (match NetmaskToPrefixLen(m) case Some(k) => Length(k) case None => Undefined)
      case None => (match lib.number(f) case Some(v) => Length(v) case None => Unreadable)
  }

  /** Whether `r` is still negative after the MTU and MAC fields were tried: the last field
      given decides, and with neither given an unreadable netmask still counts. */
  predicate TailFails(lib: Libc, mtu: string, mac: string, stale: bool) {
    if mac != "" then !lib.ether(mac)
    else if mtu != "" then lib.mtu(mtu).None?
    else stale
  }

  function WithMtu(lib: Libc, f: string, n: Net): Net {
    if f != "" && lib.mtu(f).Some? then n.(mtu := lib.mtu(f).value) else n
  }

  function WithMac(lib: Libc, f: string, n: Net): Net {
    if f != "" && lib.ether(f) then n.(mac := Some(f)) else n
  }

  function WithDhcp(f: string, n: Net): Net {
    if f != "" then n.(dhcpType := ModeOf(f)) else n
  }

  function WithNames(hostname: string, ifname: string, n: Net): Net {
    n.(hostname := if hostname != "" then Some(hostname) else n.hostname,
       ifname := if ifname != "" then Some(ifname) else n.ifname)
  }

  /** The name server reading of the last two fields, tried when the first reading failed.
      With exactly seven fields the ninth is read past the end of the vector. */
  function DnsTail(lib: Libc, s: seq<string>, n: Net): Parsed {
    if Field(s, 7) != "" && lib.ip(Field(s, 7)).None? then Parsed(n, Error(EINVAL))
    else
      var n1 := if Field(s, 7) != "" then n.AddNameserver(lib.ip(Field(s, 7)).value) else n;
      if |s| == 7 then Parsed(n1, Crash)
      else if Field(s, 8) != "" && lib.ip(Field(s, 8)).None? then Parsed(n1, Error(EINVAL))
      else Parsed(if Field(s, 8) != "" then n1.AddNameserver(lib.ip(Field(s, 8)).value) else n1, Success)
  }

  /** `parse_command_line_ip_interface` from the gateway field on. */
  function LongRest(lib: Libc, s: seq<string>, n: Net): Parsed {
    var mask := ReadMask(lib, Field(s, 3));
    if Field(s, 2) != "" && lib.ip(Field(s, 2)).None? then Parsed(n, Error(EINVAL))
    else if mask.Undefined? || (mask.Length? && Field(s, 2) == "") then Parsed(n, Crash)
    else
      var n1 := if Field(s, 2) == "" then n
                else
                  var gw := lib.ip(Field(s, 2)).value;
                  n.(routes := n.routes + {Route(None, if mask.Length? then gw.(prefix := mask.len) else gw)});
      LongTail(lib, s, mask.Unreadable?, WithDhcp(Field(s, 6), WithNames(Field(s, 4), Field(s, 5), n1)))
  }

  /** The last two fields: MTU and MAC address if that succeeds, else name servers. */
  function LongTail(lib: Libc, s: seq<string>, stale: bool, n: Net): Parsed {
    var n1 := WithMac(lib, Field(s, 8), WithMtu(lib, Field(s, 7), n));
    if TailFails(lib, Field(s, 7), Field(s, 8), stale) then DnsTail(lib, s, n1) else Parsed(n1, Success)
  }

  /** `parse_command_line_ip_interface`. A readable peer is written through a null pointer. */
  function ParseLong(lib: Libc, line: string, n: Net): Parsed {
    LongFields(lib, Split(line, ':', 9), n)
  }

  function LongFields(lib: Libc, s: seq<string>, n: Net): Parsed {
    if Field(s, 0) != "" && lib.ip(Field(s, 0)).None? then Parsed(n, Error(EINVAL))
    else
      var n1 := if Field(s, 0) != "" then n.(addresses := n.addresses + {lib.ip(Field(s, 0)).value}) else n;
      if Field(s, 1) != "" then Parsed(n1, if lib.ip(Field(s, 1)).None? then Error(EINVAL) else Crash)
      else LongRest(lib, s, n1)
  }

  // ------------------------------------------------------ the short ip= form

  /** `parse_command_line_ip_dhcp_interface`. */
  function ParseShort(lib: Libc, line: string, n: Net): Parsed {
    ShortFields(lib, Split(line, ':', 4), n)
  }

  function ShortFields(lib: Libc, s: seq<string>, n: Net): Parsed {
    if Field(s, 0) == "" || Field(s, 1) == "" then Parsed(n, Error(EINVAL))
    else
      var n1 := n.(ifname := Some(s[0]), dhcpType := ModeOf(Field(s, 1)));
      Parsed(WithMac(lib, Field(s, 3), WithMtu(lib, Field(s, 2), n1)), Success)
  }

  /** `parse_command_line_ip`. */
  function ParseIp(lib: Libc, line: string, n: Net): Parsed {
    if ':' !in line then Parsed(n.(dhcpType := ModeOf(line)), Success)
    else
      var p := ParseLong(lib, line, n);
      if p.status.Error? then ParseShort(lib, line, p.net) else p
  }

  // ---------------------------------------------------------------- rd.route=

  /** `parse_command_line_rd_route`. Fewer than two fields leave the third past the end. */
  function ParseRdRoute(lib: Libc, line: string, n: Net): Parsed {
    RouteFields(lib, Split(line, ':', 3), n)
  }

  function RouteFields(lib: Libc, s: seq<string>, n: Net): Parsed {
    if Field(s, 0) != "" && lib.ip(Field(s, 0)).None? then Parsed(n, Error(EINVAL))
    else if |s| < 2 then Parsed(n, Crash)
    else if s[1] != "" && lib.ip(s[1]).None? then Parsed(n, Error(EINVAL))
    else
      var dst := if s[0] != "" then lib.ip(s[0]) else None;
      var n1 := if s[1] != "" then n.(routes := n.routes + {Route(dst, lib.ip(s[1]).value)}) else n;
      Parsed(if Field(s, 2) != "" then n1.(ifname := Some(s[2])) else n1, Success)
  }

  // ------------------------------------------------------------------- tokens

  /** What one token contributes, independently of every other token. */
  datatype Reading =
    | IpToken(net: Net)
    | RouteToken(net: Net)
    | NameserverToken(address: Outcome<IPAddress>)
    | OtherToken
    | BadToken(status: Status)

  /** A key without `=` hands a null line to a parser that asserts against it. */
  function ReadIp(lib: Libc, v: Option<string>): Reading {
    if v.None? then BadToken(Crash)
    else
      var p := ParseIp(lib, v.value, FRESH);
      if p.status.Success? then IpToken(p.net) else BadToken(p.status)
  }

  function ReadRoute(lib: Libc, v: Option<string>): Reading {
    if v.None? then BadToken(Crash)
    else
      var p := ParseRdRoute(lib, v.value, FRESH);
      if p.status.Success? then RouteToken(p.net) else BadToken(p.status)
  }

  function ReadNameserver(lib: Libc, v: Option<string>): Reading {
    if v.None? then NameserverToken(Crashed)
    else
      match lib.ip(v.value)
      case None => NameserverToken(Failed(EINVAL))
      case Some(ip) => NameserverToken(Done(ip))
  }

  function Read(lib: Libc, token: string): Reading {
    match ParseLine(token)
    case None => BadToken(Error(ENODATA))
    case Some((k, v)) =>
      if k == "ip" then ReadIp(lib, v)
      else if k == "rd.route" then ReadRoute(lib, v)
      else if k == "nameserver" then ReadNameserver(lib, v)
      else OtherToken
  }

  function ReadAll(lib: Libc, tokens: seq<string>): (rs: seq<Reading>)
    ensures |rs| == |tokens|
    ensures forall i :: 0 <= i < |rs| ==> rs[i] == Read(lib, tokens[i])
  {
    seq(|tokens|, i requires 0 <= i < |tokens| => Read(lib, tokens[i]))
  }
}
