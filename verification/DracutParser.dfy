/** src/dracut/dracut-parser.c in its own form: parsers that fill in a `Network` object, and a
    token loop over an owning table, an index by interface name and a current network. */
module DracutParser {
  import opened Wrappers
  import opened Strings
  import opened Addresses
  import opened DracutTokens
  import opened DracutRun

  class Network {
    var ifname: Option<string>
    var mac: Option<string>
    var hostname: Option<string>
    var dhcpType: int
    var mtu: Uint32
    var addresses: set<IPAddress>
    var nameservers: map<seq<Octet>, IPAddress>
    var routes: set<Route>
    var dracut: bool

    /** `network_new`. */
    constructor ()
      ensures Value() == FRESH
    {
      ifname, mac, hostname := None, None, None;
      dhcpType, mtu := DHCP_CLIENT_INVALID, 0;
      addresses, nameservers, routes := {}, map[], {};
      dracut := false;
    }

    function Value(): Net
      reads this
    {
      Net(ifname, mac, hostname, dhcpType, mtu, addresses, nameservers, routes, dracut)
    }
  }

  // ----------------------------------------------------------- one token

  /** `parse_address_from_str_and_add` on the name servers. */
  method AddNameserverFromString(lib: Libc, f: string, n: Network) returns (r: Status)
    modifies n
    ensures match lib.ip(f)
            case None => r == Error(EINVAL) && n.Value() == old(n.Value())
            case Some(ip) => r == Success && n.Value() == old(n.Value()).AddNameserver(ip)
  {
    match lib.ip(f) {
      case None =>
        r := Error(EINVAL);
      case Some(ip) =>
        n.nameservers := n.nameservers[StringKey(ip) := ip];
        r := Success;
    }
  }

  /** The last two fields as MTU and MAC address, then as name servers if that failed. */
  method ParseTail(lib: Libc, s: seq<string>, stale: bool, n: Network) returns (r: Status)
    modifies n
    ensures Parsed(n.Value(), r) == LongTail(lib, s, stale, old(n.Value()))
  {
    var failing := stale;
    if |s| >= 7 && Field(s, 7) != "" {
      failing := lib.mtu(Field(s, 7)).None?;
      if !failing {
        n.mtu := lib.mtu(Field(s, 7)).value;
      }
    }
    if |s| >= 8 && Field(s, 8) != "" {
      failing := !lib.ether(Field(s, 8));
      if !failing {
        n.mac := Some(Field(s, 8));
      }
    }
    if !failing {
      return Success;
    }
    if |s| >= 7 && Field(s, 7) != "" {
      r := AddNameserverFromString(lib, Field(s, 7), n);
      if r.Error? {
        return;
      }
    }
    if |s| == 7 {
      return Crash;  // the ninth field lies past the end of the vector
    }
    if |s| >= 7 && Field(s, 8) != "" {
      r := AddNameserverFromString(lib, Field(s, 8), n);
      if r.Error? {
        return;
      }
    }
    r := Success;
  }

  /** The gateway field, with the prefix length the netmask field gives it. */
  method ReadGateway(lib: Libc, s: seq<string>) returns (r: Status, gw: Option<IPAddress>, stale: bool)
    ensures var mask := ReadMask(lib, Field(s, 3));
      && (r.Error? <==> Field(s, 2) != "" && lib.ip(Field(s, 2)).None?) && (r.Error? ==> r.errno == EINVAL)
      && (r.Crash? <==> !r.Error? && (mask.Undefined? || (mask.Length? && Field(s, 2) == "")))
      && (r.Success? ==>
            && stale == mask.Unreadable?
            && gw == if Field(s, 2) == "" then None
                     else if mask.Length? then Some(lib.ip(Field(s, 2)).value.(prefix := mask.len))
                     else lib.ip(Field(s, 2)))
  {
    r, gw, stale := Success, None, false;
    if |s| >= 2 && Field(s, 2) != "" {
      gw := lib.ip(Field(s, 2));
      if gw.None? {
        r := Error(EINVAL);
        return;
      }
    }
    if |s| >= 3 && Field(s, 3) != "" {
      var mask := lib.ip(Field(s, 3));
      var len := if mask.Some? then NetmaskToPrefixLen(mask.value) else lib.number(Field(s, 3));
      if len.Some? {
        if gw.None? {
          r := Crash;
          return;
        }
        gw := Some(gw.value.(prefix := len.value));
      } else if mask.Some? {
        r := Crash;
      } else {
        stale := true;
      }
    }
  }

  /** `parse_command_line_ip_interface` from the gateway field on. The gateway's prefix is set
      before the route is put in the table rather than after; nothing looks in between. */
  method ParseRest(lib: Libc, s: seq<string>, n: Network) returns (r: Status)
    modifies n
    ensures r == LongRest(lib, s, old(n.Value())).status
    ensures !r.Crash? ==> n.Value() == LongRest(lib, s, old(n.Value())).net
  {
    var gw, stale;
    r, gw, stale := ReadGateway(lib, s);
    if !r.Success? {
      return;
    }
    if gw.Some? {
      n.routes := n.routes + {Route(None, gw.value)};
    }
    if |s| >= 4 && Field(s, 4) != "" {
      n.hostname := Some(Field(s, 4));
    }
    if |s| >= 5 && Field(s, 5) != "" {
      n.ifname := Some(Field(s, 5));
    }
    if |s| >= 6 && Field(s, 6) != "" {
      n.dhcpType := ModeOf(Field(s, 6));
    }
    r := ParseTail(lib, s, stale, n);
  }

  /** `parse_command_line_ip_interface`. */
  method ParseCommandLineIpInterface(lib: Libc, line: string, n: Network) returns (r: Status)
    modifies n
    ensures r == ParseLong(lib, line, old(n.Value())).status
    ensures !r.Crash? ==> n.Value() == ParseLong(lib, line, old(n.Value())).net
  {
    var s := StrSplit(line, ':', 9);
    if |s| > 0 && s[0] != "" {
      if lib.ip(s[0]).None? {
        return Error(EINVAL);
      }
      n.addresses := n.addresses + {lib.ip(s[0]).value};
    }
    if |s| >= 1 && Field(s, 1) != "" {
      r := if lib.ip(Field(s, 1)).None? then Error(EINVAL) else Crash;
      return;
    }
    r := ParseRest(lib, s, n);
  }

  /** `parse_command_line_ip_dhcp_interface`. */
  method ParseCommandLineIpDhcpInterface(lib: Libc, line: string, n: Network) returns (r: Status)
    modifies n
    ensures Parsed(n.Value(), r) == ParseShort(lib, line, old(n.Value()))
  {
    var s := StrSplit(line, ':', 4);
    if Field(s, 0) == "" || Field(s, 1) == "" {
      return Error(EINVAL);
    }
    n.ifname := Some(s[0]);
    n.dhcpType := ModeOf(s[1]);
    if |s| >= 2 && Field(s, 2) != "" && lib.mtu(Field(s, 2)).Some? {
      n.mtu := lib.mtu(Field(s, 2)).value;
    }
    if |s| >= 3 && Field(s, 3) != "" && lib.ether(Field(s, 3)) {
      n.mac := Some(Field(s, 3));
    }
    r := Success;
  }

  /** `parse_command_line_ip`. */
  method ParseCommandLineIp(lib: Libc, line: string, n: Network) returns (r: Status)
    modifies n
    ensures r == ParseIp(lib, line, old(n.Value())).status
    ensures !r.Crash? ==> n.Value() == ParseIp(lib, line, old(n.Value())).net
  {
    if ':' !in line {
      n.dhcpType := ModeOf(line);
      return Success;
    }
    r := ParseCommandLineIpInterface(lib, line, n);
    if r.Error? {
      r := ParseCommandLineIpDhcpInterface(lib, line, n);
    }
  }

  /** `parse_command_line_rd_route`. */
  method ParseCommandLineRdRoute(lib: Libc, line: string, n: Network) returns (r: Status)
    modifies n
    ensures Parsed(n.Value(), r) == ParseRdRoute(lib, line, old(n.Value()))
  {
    var s := StrSplit(line, ':', 3);
    var dst: Option<IPAddress> := None;
    if Field(s, 0) != "" {
      dst := lib.ip(Field(s, 0));
      if dst.None? {
        return Error(EINVAL);
      }
    }
    if |s| < 2 {
      return Crash;  // the third field lies past the end of the vector
    }
    if s[1] != "" {
      var gw := lib.ip(s[1]);
      if gw.None? {
        return Error(EINVAL);
      }
      n.routes := n.routes + {Route(dst, gw.value)};
    }
    if Field(s, 2) != "" {
      n.ifname := Some(s[2]);
    }
    r := Success;
  }

  // --------------------------------------------------------------- merging

  /** `merge_network` with `merge_network_routes`: each route is put in the target's table;
      the callback lets go of a route, and so the source loses it, only when the target
      already had an equal one. The rest is still the source's when the source is freed. */
  method MergeNetwork(byIfname: map<string, Network>, n: Network) returns (found: bool)
    requires n.ifname.Some?
    requires n !in byIfname.Values
    modifies n, if n.ifname.value in byIfname then {byIfname[n.ifname.value]} else {}
    ensures found <==> old(n.ifname).value in byIfname
    ensures !found ==> n.Value() == old(n.Value())
    ensures found ==>
      var v := byIfname[old(n.ifname).value];
      && v.Value() == old(v.Value()).(routes := old(v.routes) + old(n.routes))
      && n.Value() == old(n.Value()).(routes := old(n.routes) - old(v.routes))
  {
    found := n.ifname.value in byIfname;
    if !found {
      return;
    }
    var v := byIfname[n.ifname.value];
    assert v in byIfname.Values;
    var left := n.routes;
    while left != {}
      invariant left <= old(n.routes)
      invariant v.Value() == old(v.Value()).(routes := old(v.routes) + (old(n.routes) - left))
      invariant n.Value() == old(n.Value()).(routes := left + (old(n.routes) - old(v.routes)))
      decreases left
    {
      var route :| route in left;
      if route in v.routes {
        n.routes := n.routes - {route};
      }
      v.routes := v.routes + {route};
      left := left - {route};
    }
  }

  // ------------------------------------------------------------- the loop

  /** The tables hold what the state says, in objects of their own. */
  ghost predicate Holds(networks: seq<Network>, byIfname: map<string, Network>, current: Network?, st: State)
    reads networks
  {
    && Valid(st)
    && |networks| == |st.nets|
    && (forall p :: 0 <= p < |networks| ==> networks[p].Value() == st.nets[p])
    && (forall p, q :: 0 <= p < q < |networks| ==> networks[p] != networks[q])
    && byIfname.Keys == st.index.Keys
    && (forall name :: name in byIfname ==> byIfname[name] == networks[st.index[name]])
    && (current == null <==> st.current.None?)
    && (current != null ==> current == networks[st.current.value])
  }

  method HasNoName(networks: seq<Network>) returns (b: bool)
    ensures b <==> exists p :: 0 <= p < |networks| && networks[p].ifname.None?
  {
    for k := 0 to |networks|
      invariant forall p :: 0 <= p < k ==> networks[p].ifname.Some?
    {
      if networks[k].ifname.None? {
        return true;
      }
    }
    b := false;
  }

  /** A status against the outcome the state machine has. */
  ghost predicate Agrees<T>(status: Status, next: Outcome<T>) {
    match status
    case Success => next.Done?
    case Error(e) => next == Failed(e)
    case Crash => next == Crashed
  }

  /** `parse_proc_command_line`, called with no current network yet. */
  method ParseProcCommandLine(lib: Libc, cmdLine: string) returns (status: Status, networks: seq<Network>)
    ensures Agrees(status, ParseCommandLine(lib, cmdLine))
    ensures status.Success? ==>
      var nets := ParseCommandLine(lib, cmdLine).value;
      && |networks| == |nets|
      && (forall p :: 0 <= p < |networks| ==> networks[p].Value() == nets[p])
      && (forall p, q :: 0 <= p < q < |networks| ==> networks[p] != networks[q])
  {
    var tokens := StrSplit(cmdLine, ' ', 0);
    ghost var rs, st := ReadAll(lib, tokens), START;
    networks := [];
    var byIfname: map<string, Network> := map[];
    var current: Network? := null;
    status := Success;
    var j := 0;
    while j < |tokens|
      invariant 0 <= j <= |tokens|
      invariant forall p :: 0 <= p < |networks| ==> fresh(networks[p])
      invariant status.Success? && Reached(rs, j, st)
      invariant Holds(networks, byIfname, current, st)
    {
      status, networks, byIfname, current, st := Turn(lib, tokens, j, networks, byIfname, current, rs, st);
      if !status.Success? {
        return;
      }
      j := j + 1;
    }
    ReachedEnd(rs, st);
  }

  /** The state after the first `j` tokens. */
  ghost predicate Reached(rs: seq<Reading>, j: nat, st: State) {
    j <= |rs| && Run(rs[..j]) == Done(st)
  }

  lemma {:induction false} ReachedEnd(rs: seq<Reading>, st: State)
    requires Reached(rs, |rs|, st)
    ensures Run(rs) == Done(st)
  {
    assert rs[..|rs|] == rs;
  }

  /** One turn of the token loop, against the run up to and including the token. */
  method Turn(lib: Libc, tokens: seq<string>, j: nat, networks: seq<Network>, byIfname: map<string, Network>,
      current: Network?, ghost rs: seq<Reading>, ghost st: State)
    returns (status: Status, networks': seq<Network>, byIfname': map<string, Network>, current': Network?,
        ghost st': State)
    requires j < |tokens| && rs == ReadAll(lib, tokens)
    requires Reached(rs, j, st) && Holds(networks, byIfname, current, st)
    modifies networks
    ensures status.Success? ==> Reached(rs, j + 1, st') && Holds(networks', byIfname', current', st')
    ensures !status.Success? ==> Agrees(status, Run(rs))
    ensures forall p :: 0 <= p < |networks'| ==> networks'[p] in networks || fresh(networks'[p])
  {
    RunNext(rs, j);
    st' := st;
    status, networks', byIfname', current' := TakeToken(lib, tokens[j], networks, byIfname, current, st);
    if status.Success? {
      st' := Run(rs[..j + 1]).value;
    } else {
      RunStops(rs, j + 1);
    }
  }

  lemma {:induction false} RunNext(rs: seq<Reading>, j: nat)
    requires j < |rs| && Run(rs[..j]).Done?
    ensures Run(rs[..j + 1]) == Apply(Run(rs[..j]).value, rs[j])
  {
    assert rs[..j + 1][..j] == rs[..j];
  }

  /** `g_hash_table_insert` into the owning table, which refuses a second nameless network. */
  method InsertNetwork(networks: seq<Network>, n: Network, ghost st: State)
    returns (status: Status, networks': seq<Network>)
    requires |networks| == |st.nets| && n !in networks
    requires forall p :: 0 <= p < |networks| ==> networks[p].Value() == st.nets[p]
    modifies n
    ensures Agrees(status, Insert(st, old(n.Value())))
    ensures !status.Success? ==> networks' == networks
    ensures status.Success? ==>
      && networks' == networks + [n]
      && n.Value() == old(n.Value()).(dracut := true)
  {
    networks' := networks;
    var clash := false;
    if n.ifname.None? {
      clash := HasNoName(networks);
      assert clash <==> HasUnnamed(st.nets) by {
        assert forall p :: 0 <= p < |networks| ==> networks[p].ifname == networks[p].Value().ifname;
      }
    }
    n.dracut := true;
    if clash {
      return Error(EINVAL), networks;
    }
    status, networks' := Success, networks + [n];
  }

  /** An `ip=` token. */
  method TakeIp(lib: Libc, v: Option<string>, networks: seq<Network>, byIfname: map<string, Network>,
      current: Network?, ghost st: State)
    returns (status: Status, networks': seq<Network>, byIfname': map<string, Network>, current': Network?)
    requires Holds(networks, byIfname, current, st)
    ensures Agrees(status, Apply(st, ReadIp(lib, v)))
    ensures status.Success? ==> Holds(networks', byIfname', current', Apply(st, ReadIp(lib, v)).value)
    ensures forall p :: 0 <= p < |networks'| ==> networks'[p] in networks || fresh(networks'[p])
  {
    networks', byIfname', current' := networks, byIfname, current;
    if v.None? {
      status := Crash;
      return;
    }
    var n := new Network();
    current' := n;
    status := ParseCommandLineIp(lib, v.value, n);
    if status.Success? {
      status, networks', byIfname' := PlaceIp(networks, byIfname, current, n, st);
    }
  }

  /** Puts a parsed `ip=` network, now the current one, into both tables. */
  method PlaceIp(networks: seq<Network>, byIfname: map<string, Network>, ghost current: Network?, n: Network,
      ghost st: State)
    returns (status: Status, networks': seq<Network>, byIfname': map<string, Network>)
    requires Holds(networks, byIfname, current, st) && n !in networks
    modifies n
    ensures Agrees(status, Apply(st, IpToken(old(n.Value()))))
    ensures status.Success? ==> Holds(networks', byIfname', n, Apply(st, IpToken(old(n.Value()))).value)
    ensures forall p :: 0 <= p < |networks'| ==> networks'[p] in networks || networks'[p] == n
  {
    networks', byIfname' := networks, byIfname;
    if n.ifname.Some? {
      if n.ifname.value in byIfname {
        return Error(ENOMEM), networks, byIfname;
      }
      byIfname' := byIfname[n.ifname.value := n];
    }
    status, networks' := InsertNetwork(networks, n, st);
  }

  /** An `rd.route=` token. */
  method TakeRoute(lib: Libc, v: Option<string>, networks: seq<Network>, byIfname: map<string, Network>,
      current: Network?, ghost st: State)
    returns (status: Status, networks': seq<Network>)
    requires Holds(networks, byIfname, current, st)
    modifies networks
    ensures Agrees(status, Apply(st, ReadRoute(lib, v)))
    ensures status.Success? ==> Holds(networks', byIfname, current, Apply(st, ReadRoute(lib, v)).value)
    ensures forall p :: 0 <= p < |networks'| ==> networks'[p] in networks || fresh(networks'[p])
  {
    networks' := networks;
    if v.None? {
      return Crash, networks;
    }
    var n := new Network();
    status := ParseCommandLineRdRoute(lib, v.value, n);
    if status.Success? {
      status, networks' := PlaceRoute(networks, byIfname, current, n, st);
    }
  }

  /** Merges a route's network into the network of its interface, else keeps it. */
  method PlaceRoute(networks: seq<Network>, byIfname: map<string, Network>, current: Network?, n: Network,
      ghost st: State)
    returns (status: Status, networks': seq<Network>)
    requires Holds(networks, byIfname, current, st) && n !in networks
    modifies networks, n
    ensures Agrees(status, Apply(st, RouteToken(old(n.Value()))))
    ensures status.Success? ==> Holds(networks', byIfname, current, Apply(st, RouteToken(old(n.Value()))).value)
    ensures forall p :: 0 <= p < |networks'| ==> networks'[p] in networks || networks'[p] == n
  {
    if n.ifname.None? {
      return Crash, networks;  // a null key is looked up
    }
    status, networks' := Success, networks;
    if n.ifname.value in byIfname {
      JoinRoute(networks, byIfname, current, n, st);
    } else {
      status, networks' := InsertNetwork(networks, n, st);
    }
  }

  /** The merge, when the interface has a network: that network has the routes of both, the
      source keeps those it was first to have, and every other network is as it was. */
  method JoinRoute(networks: seq<Network>, byIfname: map<string, Network>, ghost current: Network?, n: Network,
      ghost st: State)
    requires Holds(networks, byIfname, current, st) && n !in networks
    requires n.ifname.Some? && n.ifname.value in byIfname
    modifies networks, n
    ensures Apply(st, RouteToken(old(n.Value()))).Done?
    ensures Holds(networks, byIfname, current, Apply(st, RouteToken(old(n.Value()))).value)
    ensures var v := byIfname[old(n.ifname).value];
      && v in networks && v.Value() == old(v.Value()).(routes := old(v.routes) + old(n.routes))
      && n.Value() == old(n.Value()).(routes := old(n.routes) - old(v.routes))
      && forall p :: 0 <= p < |networks| && networks[p] != v ==> networks[p].Value() == old(networks[p].Value())
  {
    ghost var at := st.index[n.ifname.value];
    ghost var next := Merge(st, at, n.Value());
    assert Apply(st, RouteToken(n.Value())) == Done(next);
    assert byIfname[n.ifname.value] == networks[at];
    assert forall p :: 0 <= p < |networks| && p != at ==> networks[p] != networks[at];
    var found := MergeNetwork(byIfname, n);
    assert forall p :: 0 <= p < |networks| ==> networks[p].Value() == next.nets[p];
  }

  /** The address of a `nameserver=` token goes to the current network. */
  method GiveNameserver(lib: Libc, f: string, networks: seq<Network>, byIfname: map<string, Network>, current: Network,
      ghost st: State)
    returns (status: Status, ghost mid: State)
    requires Holds(networks, byIfname, current, st)
    modifies current
    ensures match lib.ip(f)
            case None => status == Error(EINVAL)
            case Some(ip) =>
              && status == Success && Holds(networks, byIfname, current, mid)
              && mid == st.(nets := Update(st.nets, st.current.value, st.nets[st.current.value].AddNameserver(ip)))
  {
    ghost var at := st.current.value;
    mid := st;
    assert forall p :: 0 <= p < |networks| && p != at ==> networks[p] != current;
    status := AddNameserverFromString(lib, f, current);
    if status.Success? {
      mid := st.(nets := Update(st.nets, at, st.nets[at].AddNameserver(lib.ip(f).value)));
    }
  }

  /** Every `nameserver=` token also inserts a new, empty network. */
  method InsertEmpty(networks: seq<Network>, byIfname: map<string, Network>, ghost current: Network?, ghost st: State)
    returns (status: Status, networks': seq<Network>)
    requires Holds(networks, byIfname, current, st)
    ensures Agrees(status, Insert(st, FRESH))
    ensures status.Success? ==> Holds(networks', byIfname, current, Insert(st, FRESH).value)
    ensures forall p :: 0 <= p < |networks'| ==> networks'[p] in networks || fresh(networks'[p])
  {
    var n := new Network();
    status, networks' := InsertNetwork(networks, n, st);
  }

  /** A `nameserver=` token. */
  method TakeNameserver(lib: Libc, v: Option<string>, networks: seq<Network>, byIfname: map<string, Network>,
      current: Network?, ghost st: State)
    returns (status: Status, networks': seq<Network>)
    requires Holds(networks, byIfname, current, st)
    modifies networks
    ensures Agrees(status, Apply(st, ReadNameserver(lib, v)))
    ensures status.Success? ==> Holds(networks', byIfname, current, Apply(st, ReadNameserver(lib, v)).value)
    ensures forall p :: 0 <= p < |networks'| ==> networks'[p] in networks || fresh(networks'[p])
  {
    networks' := networks;
    ghost var mid := st;
    if current != null {
      if v.None? {
        return Crash, networks;
      }
      status, mid := GiveNameserver(lib, v.value, networks, byIfname, current, st);
      if !status.Success? {
        return;
      }
    }
    status, networks' := InsertEmpty(networks, byIfname, current, mid);
  }

  /** The body of the token loop. */
  method TakeToken(lib: Libc, token: string, networks: seq<Network>, byIfname: map<string, Network>,
      current: Network?, ghost st: State)
    returns (status: Status, networks': seq<Network>, byIfname': map<string, Network>, current': Network?)
    requires Holds(networks, byIfname, current, st)
    modifies networks
    ensures Agrees(status, Apply(st, Read(lib, token)))
    ensures status.Success? ==> Holds(networks', byIfname', current', Apply(st, Read(lib, token)).value)
    ensures forall p :: 0 <= p < |networks'| ==> networks'[p] in networks || fresh(networks'[p])
  {
    status, networks', byIfname', current' := Success, networks, byIfname, current;
    var kv := ParseLine(token);
    if kv.None? {
      status := Error(ENODATA);
      return;
    }
    var (k, v) := kv.value;
    if k == "ip" {
      status, networks', byIfname', current' := TakeIp(lib, v, networks, byIfname, current, st);
    } else if k == "rd.route" {
      status, networks' := TakeRoute(lib, v, networks, byIfname, current, st);
    } else if k == "nameserver" {
      status, networks' := TakeNameserver(lib, v, networks, byIfname, current, st);
    }
  }
}
