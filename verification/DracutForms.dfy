/** The written forms of dracut.cmdline(7) against the parser: the two overlapping `ip=`
    forms, the two readings of the trailing fields, and printing any list of items. */
module DracutForms {
  import opened Wrappers
  import opened Strings
  import opened Addresses
  import opened DracutTokens
  import opened DracutRun
  import opened DracutGrouping

  // ------------------------------------------------------ overlapping forms

  function FirstField(line: string): string {
    line[..IndexOf(line, ':')]
  }

  lemma {:induction false} FirstOfSplit(line: string, limit: nat)
    requires ':' in line && limit != 1
    ensures |Split(line, ':', limit)| >= 2 && Split(line, ':', limit)[0] == FirstField(line)
  {
  }

  /** A line whose first field is not empty and not an address is read as the
      interface:mode form, on the network as it was. */
  lemma {:induction false} InterfaceForm(lib: Libc, line: string, n: Net)
    requires ':' in line && FirstField(line) != "" && lib.ip(FirstField(line)).None?
    ensures ParseIp(lib, line, n) == ParseShort(lib, line, n)
  {
    FirstOfSplit(line, 9);
  }

  lemma {:induction false} RestKeepsAddresses(lib: Libc, s: seq<string>, n: Net)
    ensures LongRest(lib, s, n).net.addresses == n.addresses
  {
  }

  lemma {:induction false} LongAddresses(lib: Libc, s: seq<string>, n: Net)
    requires Field(s, 0) != ""
    ensures lib.ip(s[0]).None? ==> LongFields(lib, s, n) == Parsed(n, Error(EINVAL))
    ensures lib.ip(s[0]).Some? ==> LongFields(lib, s, n).net.addresses == n.addresses + {lib.ip(s[0]).value}
  {
    if lib.ip(s[0]).Some? {
      RestKeepsAddresses(lib, s, n.(addresses := n.addresses + {lib.ip(s[0]).value}));
    }
  }

  /** Whenever a line ends up in the interface:mode form its first field becomes the interface
      name, and the network is first touched exactly when that field is an address. */
  lemma {:induction false} FallbackNames(lib: Libc, line: string, n: Net)
    requires ':' in line && ParseLong(lib, line, n).status.Error? && ParseIp(lib, line, n).status.Success?
    requires lib.ip(FirstField(line)).Some? ==> lib.ip(FirstField(line)).value !in n.addresses
    ensures FirstField(line) != "" && ParseIp(lib, line, n).net.ifname == Some(FirstField(line))
    ensures ParseLong(lib, line, n).net == n <==> lib.ip(FirstField(line)).None?
    ensures ParseIp(lib, line, n).net.addresses == ParseLong(lib, line, n).net.addresses
  {
    FirstOfSplit(line, 9);
    FirstOfSplit(line, 4);
    LongAddresses(lib, Split(line, ':', 9), n);
  }

  /** What a successful reading of the last two fields does to a network. */
  ghost predicate OneReading(lib: Libc, s: seq<string>, fails: bool, n: Net, p: Net) {
    if fails then
      && p.mtu == n.mtu && p.mac == n.mac
      && p.nameservers == AddNameservers(n, Given(lib, Field(s, 7)) + Given(lib, Field(s, 8))).nameservers
    else
      && p.nameservers == n.nameservers
      && p.mtu == WithMtu(lib, Field(s, 7), n).mtu
      && p.mac == (if Field(s, 8) != "" then Some(Field(s, 8)) else n.mac)
  }

  ghost predicate Apart(lib: Libc) {
    forall f :: lib.ip(f).Some? ==> lib.mtu(f).None?
  }

  lemma {:induction false} TailReading(lib: Libc, s: seq<string>, stale: bool, n: Net)
    requires Apart(lib) && LongTail(lib, s, stale, n).status.Success?
    ensures OneReading(lib, s, TailFails(lib, Field(s, 7), Field(s, 8), stale), n, LongTail(lib, s, stale, n).net)
  {
    if TailFails(lib, Field(s, 7), Field(s, 8), stale) {
      FirstReadingUndone(lib, s, stale, n);
      DnsTailAdds(lib, s, n);
    }
  }

  /** What is read as a name server was not taken for an MTU, nor for a MAC address when the
      first reading failed. */
  lemma {:induction false} FirstReadingUndone(lib: Libc, s: seq<string>, stale: bool, n: Net)
    requires Apart(lib) && TailFails(lib, Field(s, 7), Field(s, 8), stale)
    requires LongTail(lib, s, stale, n).status.Success?
    ensures WithMac(lib, Field(s, 8), WithMtu(lib, Field(s, 7), n)) == n
  {
  }

  lemma {:induction false} DnsTailAdds(lib: Libc, s: seq<string>, n: Net)
    requires DnsTail(lib, s, n).status.Success?
    ensures DnsTail(lib, s, n).net == AddNameservers(n, Given(lib, Field(s, 7)) + Given(lib, Field(s, 8)))
    ensures DnsTail(lib, s, n).net.mtu == n.mtu && DnsTail(lib, s, n).net.mac == n.mac
  {
    AddTwo(n, Given(lib, Field(s, 7)), Given(lib, Field(s, 8)));
  }

  /** A reading looks only at what a network had for MTU, MAC and name servers. */
  lemma {:induction false} SameReading(lib: Libc, s: seq<string>, fails: bool, m: Net, n: Net, p: Net)
    requires m.mtu == n.mtu && m.mac == n.mac && m.nameservers == n.nameservers
    requires OneReading(lib, s, fails, m, p)
    ensures OneReading(lib, s, fails, n, p)
  {
    AddTwo(n, Given(lib, Field(s, 7)), Given(lib, Field(s, 8)));
    AddTwo(m, Given(lib, Field(s, 7)), Given(lib, Field(s, 8)));
  }

  lemma {:induction false} RestReading(lib: Libc, s: seq<string>, n: Net)
    requires Apart(lib) && LongRest(lib, s, n).status.Success?
    ensures OneReading(lib, s, TailFails(lib, Field(s, 7), Field(s, 8), ReadMask(lib, Field(s, 3)).Unreadable?),
                       n, LongRest(lib, s, n).net)
  {
    var stale := ReadMask(lib, Field(s, 3)).Unreadable?;
    var m := BeforeTail(lib, s, n);
    TailReading(lib, s, stale, m);
    SameReading(lib, s, TailFails(lib, Field(s, 7), Field(s, 8), stale), m, n, LongRest(lib, s, n).net);
  }

  /** The trailing fields of a long-form line are read one way or the other, never both: when
      the MTU and MAC reading fails they only add name servers, and when it succeeds they add
      none, so that a name server before a MAC address is dropped. */
  lemma {:induction false} OneTailReading(lib: Libc, line: string, n: Net)
    requires Apart(lib) && ParseLong(lib, line, n).status.Success?
    ensures var s := Split(line, ':', 9);
      OneReading(lib, s, TailFails(lib, Field(s, 7), Field(s, 8), ReadMask(lib, Field(s, 3)).Unreadable?),
                 n, ParseLong(lib, line, n).net)
  {
    var s := Split(line, ':', 9);
    var start := FirstOfLong(lib, s, n);
    RestReading(lib, s, start);
    SameReading(lib, s, TailFails(lib, Field(s, 7), Field(s, 8), ReadMask(lib, Field(s, 3)).Unreadable?),
                start, n, LongRest(lib, s, start).net);
  }

  /** The address field touches neither MTU, MAC nor name servers. */
  lemma {:induction false} FirstOfLong(lib: Libc, s: seq<string>, n: Net) returns (m: Net)
    requires LongFields(lib, s, n).status.Success?
    ensures LongFields(lib, s, n) == LongRest(lib, s, m)
    ensures m.mtu == n.mtu && m.mac == n.mac && m.nameservers == n.nameservers
  {
    m := if Field(s, 0) != "" then n.(addresses := n.addresses + {lib.ip(Field(s, 0)).value}) else n;
  }

  /** Everything before the last two fields leaves MTU, MAC and name servers alone. */
  lemma {:induction false} BeforeTail(lib: Libc, s: seq<string>, n: Net) returns (m: Net)
    requires LongRest(lib, s, n).status.Success?
    ensures m.mtu == n.mtu && m.mac == n.mac && m.nameservers == n.nameservers
    ensures LongRest(lib, s, n) == LongTail(lib, s, ReadMask(lib, Field(s, 3)).Unreadable?, m)
  {
    var mask := ReadMask(lib, Field(s, 3));
    var n1 := if Field(s, 2) == "" then n
              else
                var gw := lib.ip(Field(s, 2)).value;
                n.(routes := n.routes + {Route(None, if mask.Length? then gw.(prefix := mask.len) else gw)});
    m := WithDhcp(Field(s, 6), WithNames(Field(s, 4), Field(s, 5), n1));
  }

  /** The addresses a field gives: none, or one. */
  function Given(lib: Libc, f: string): seq<IPAddress> {
    if f != "" && lib.ip(f).Some? then [lib.ip(f).value] else []
  }

  lemma {:induction false} AddOne(n: Net, ips: seq<IPAddress>, ip: IPAddress)
    ensures AddNameservers(n, ips + [ip]) == AddNameservers(n, ips).AddNameserver(ip)
  {
    assert (ips + [ip])[..|ips|] == ips;
  }

  lemma {:induction false} AddTwo(n: Net, a: seq<IPAddress>, b: seq<IPAddress>)
    requires |a| <= 1 && |b| <= 1
    ensures AddNameservers(n, a + b) ==
      var n1 := if a == [] then n else n.AddNameserver(a[0]);
      if b == [] then n1 else n1.AddNameserver(b[0])
  {
    if a != [] {
      AddOne(n, [], a[0]);
      assert [] + [a[0]] == a;
    }
    if b == [] {
      assert a + b == a;
    } else {
      AddOne(n, a, b[0]);
      assert b == [b[0]];
    }
  }

  // ----------------------------------------------------------------- items

  datatype Tail = NoTail | MtuMac(mtu: string, mac: string) | Dns(first: string, second: string)

  /** The items of a kernel command line, by the text of their fields. */
  datatype Item =
    | LongIp(address: string, gateway: string, netmask: string, hostname: string, ifname: string, mode: string,
        tail: Tail)
    | ShortIp(ifname: string, mode: string, mtu: string, mac: string)
    | ModeIp(mode: string)
    | RdRoute(dst: string, gw: string, ifname: string)
    | Nameserver(address: string)

  function FieldsOf(it: Item): seq<string>
    requires it.LongIp?
  {
    [it.address, "", it.gateway, it.netmask, it.hostname, it.ifname, it.mode] +
    match it.tail
    case NoTail => []
    case MtuMac(mtu, mac) => [mtu, mac]
    case Dns(first, second) => [first, second]
  }

  function Key(it: Item): string {
    match it
    case RdRoute(_, _, _) => "rd.route"
    case Nameserver(_) => "nameserver"
    case _ => "ip"
  }

  function Value(it: Item): string {
    match it
    case LongIp(_, _, _, _, _, _, _) => Join(FieldsOf(it), ':')
    case ShortIp(ifname, mode, mtu, mac) => Join([ifname, mode, mtu, mac], ':')
    case ModeIp(mode) => mode
    case RdRoute(dst, gw, ifname) => Join([dst, gw, ifname], ':')
    case Nameserver(address) => address
  }

  function Print(it: Item): string {
    Key(it) + ['='] + Value(it)
  }

  predicate Optional(f: string, ok: bool) {
    f == "" || ok
  }

  /** No field but the last may hold the colon the fields are split on. */
  predicate WellFormed(lib: Libc, it: Item) {
    && Solid(Value(it))
    && match it {
         case LongIp(address, gateway, netmask, hostname, ifname, mode, tail) =>
           && Separable(FieldsOf(it), ':', 9)
           && Optional(address, lib.ip(address).Some?)
           && Optional(gateway, lib.ip(gateway).Some?)
           && Optional(netmask, gateway != "" && ReadMask(lib, netmask).Length?)
           && (match tail
               case NoTail => true
               case MtuMac(mtu, mac) => Optional(mtu, lib.mtu(mtu).Some?) && Optional(mac, lib.ether(mac))
               case Dns(first, second) =>
                 && first != "" && lib.ip(first).Some? && lib.mtu(first).None?
                 && Optional(second, lib.ip(second).Some? && !lib.ether(second)))
         case ShortIp(ifname, mode, mtu, mac) =>
           && Separable([ifname, mode, mtu, mac], ':', 4)
           && ifname != "" && lib.ip(ifname).None? && mode != ""
         case ModeIp(mode) => ':' !in mode
         case RdRoute(dst, gw, ifname) =>
           && Separable([dst, gw, ifname], ':', 3)
           && Optional(dst, lib.ip(dst).Some?) && Optional(gw, lib.ip(gw).Some?) && ifname != ""
         case Nameserver(address) => lib.ip(address).Some?
       }
  }

  function Name(f: string): Option<string> {
    if f == "" then None else Some(f)
  }

  /** The network a well-formed item describes. */
  function Described(lib: Libc, it: Item): Net
    requires WellFormed(lib, it)
  {
    match it
    case LongIp(address, gateway, netmask, hostname, ifname, mode, tail) =>
      Net(Name(ifname),
          if tail.MtuMac? then Name(tail.mac) else None,
          Name(hostname),
          if mode == "" then DHCP_CLIENT_INVALID else ModeOf(mode),
          if tail.MtuMac? && tail.mtu != "" then lib.mtu(tail.mtu).value else 0,
          if address == "" then {} else {lib.ip(address).value},
          if !tail.Dns? then map[]
          else if tail.second == "" then map[StringKey(lib.ip(tail.first).value) := lib.ip(tail.first).value]
          else map[StringKey(lib.ip(tail.first).value) := lib.ip(tail.first).value]
                  [StringKey(lib.ip(tail.second).value) := lib.ip(tail.second).value],
          if gateway == "" then {}
          else if netmask == "" then {Route(None, lib.ip(gateway).value)}
          else {Route(None, lib.ip(gateway).value.(prefix := ReadMask(lib, netmask).len))},
          false)
    case ShortIp(ifname, mode, mtu, mac) =>
      Net(Some(ifname), if mac != "" && lib.ether(mac) then Some(mac) else None, None, ModeOf(mode),
          if mtu != "" && lib.mtu(mtu).Some? then lib.mtu(mtu).value else 0, {}, map[], {}, false)
    case ModeIp(mode) => FRESH.(dhcpType := ModeOf(mode))
    case RdRoute(dst, gw, ifname) =>
      FRESH.(ifname := Some(ifname),
             routes := if gw == "" then {} else {Route(if dst == "" then None else lib.ip(dst), lib.ip(gw).value)})
    case Nameserver(_) => FRESH
  }

  function DescribedReading(lib: Libc, it: Item): Reading
    requires WellFormed(lib, it)
  {
    match it
    case Nameserver(address) => NameserverToken(Done(lib.ip(address).value))
    case RdRoute(_, _, _) => RouteToken(Described(lib, it))
    case _ => IpToken(Described(lib, it))
  }

  // ------------------------------------------------------ item by item

  lemma {:induction false} LongFormRead(lib: Libc, it: Item)
    requires it.LongIp? && WellFormed(lib, it)
    ensures ParseLong(lib, Value(it), FRESH) == Parsed(Described(lib, it), Success)
  {
    SplitJoin(FieldsOf(it), ':', 9);
    LongFieldsRead(lib, it);
  }

  lemma {:induction false} LongFieldsRead(lib: Libc, it: Item)
    requires it.LongIp? && WellFormed(lib, it)
    ensures LongFields(lib, FieldsOf(it), FRESH) == Parsed(Described(lib, it), Success)
  {
    var s := FieldsOf(it);
    assert s[0] == it.address && s[1] == "" && s[2] == it.gateway && s[3] == it.netmask;
    assert s[4] == it.hostname && s[5] == it.ifname && s[6] == it.mode;
    match it.tail {
      case NoTail => assert |s| == 7;
      case MtuMac(mtu, mac) => assert |s| == 9 && s[7] == mtu && s[8] == mac;
      case Dns(first, second) => assert |s| == 9 && s[7] == first && s[8] == second;
    }
    var n := FRESH.(addresses := Described(lib, it).addresses);
    assert FRESH.addresses + Described(lib, it).addresses == Described(lib, it).addresses;
    assert LongFields(lib, s, FRESH) == LongRest(lib, s, n);
    RestRead(lib, it, s, n);
  }

  lemma {:induction false} RestRead(lib: Libc, it: Item, s: seq<string>, n: Net)
    requires it.LongIp? && WellFormed(lib, it) && (|s| == 7 || |s| == 9)
    requires s[2] == it.gateway && s[3] == it.netmask && s[4] == it.hostname && s[5] == it.ifname && s[6] == it.mode
    requires match it.tail {
               case NoTail => |s| == 7
               case MtuMac(mtu, mac) => |s| == 9 && s[7] == mtu && s[8] == mac
               case Dns(first, second) => |s| == 9 && s[7] == first && s[8] == second
             }
    requires n == FRESH.(addresses := Described(lib, it).addresses)
    ensures LongRest(lib, s, n) == Parsed(Described(lib, it), Success)
  {
    var m := Untailed(lib, it);
    GatewayRead(lib, s, n);
    UntailedRead(lib, it, n);
    match it.tail {
      case NoTail =>
      case MtuMac(mtu, mac) => MtuMacRead(lib, it, s, m);
      case Dns(first, second) => DnsRead(lib, it, s, m);
    }
  }

  /** The network after the gateway and netmask fields. */
  function WithGateway(lib: Libc, gateway: string, netmask: string, n: Net): Net
    requires Optional(gateway, lib.ip(gateway).Some?)
  {
    if gateway == "" then n
    else
      var mask, gw := ReadMask(lib, netmask), lib.ip(gateway).value;
      n.(routes := n.routes + {Route(None, if mask.Length? then gw.(prefix := mask.len) else gw)})
  }

  lemma {:induction false} GatewayRead(lib: Libc, s: seq<string>, n: Net)
    requires |s| >= 7 && Optional(s[2], lib.ip(s[2]).Some?)
    requires Optional(s[3], s[2] != "" && ReadMask(lib, s[3]).Length?)
    ensures LongRest(lib, s, n) == LongTail(lib, s, false,
      WithDhcp(s[6], WithNames(s[4], s[5], WithGateway(lib, s[2], s[3], n))))
  {
  }

  lemma {:induction false} UntailedRead(lib: Libc, it: Item, n: Net)
    requires it.LongIp? && WellFormed(lib, it) && n == FRESH.(addresses := Described(lib, it).addresses)
    ensures WithDhcp(it.mode, WithNames(it.hostname, it.ifname, WithGateway(lib, it.gateway, it.netmask, n))) ==
      Untailed(lib, it)
  {
  }

  /** What an item describes before its last two fields. */
  function Untailed(lib: Libc, it: Item): Net
    requires it.LongIp? && WellFormed(lib, it)
  {
    Described(lib, it).(mac := None, mtu := 0, nameservers := map[])
  }

  lemma {:induction false} MtuMacRead(lib: Libc, it: Item, s: seq<string>, m: Net)
    requires it.LongIp? && WellFormed(lib, it) && it.tail.MtuMac? && m == Untailed(lib, it)
    requires |s| == 9 && s[7] == it.tail.mtu && s[8] == it.tail.mac
    ensures LongTail(lib, s, false, m) == Parsed(Described(lib, it), Success)
  {
  }

  lemma {:induction false} DnsRead(lib: Libc, it: Item, s: seq<string>, m: Net)
    requires it.LongIp? && WellFormed(lib, it) && it.tail.Dns? && m == Untailed(lib, it)
    requires |s| == 9 && s[7] == it.tail.first && s[8] == it.tail.second
    ensures LongTail(lib, s, false, m) == Parsed(Described(lib, it), Success)
  {
  }

  lemma {:induction false} ShortFormRead(lib: Libc, it: Item)
    requires it.ShortIp? && WellFormed(lib, it)
    ensures ParseIp(lib, Value(it), FRESH) == Parsed(Described(lib, it), Success)
  {
    var xs := [it.ifname, it.mode, it.mtu, it.mac];
    SplitJoin(xs, ':', 4);
    var rest := Join(xs[1..], ':');
    assert Value(it) == it.ifname + [':'] + rest;
    IndexOfPrefix(it.ifname, ':', rest);
    assert Value(it)[|it.ifname|] == ':';
    InterfaceForm(lib, Value(it), FRESH);
  }

  lemma {:induction false} RouteFormRead(lib: Libc, it: Item)
    requires it.RdRoute? && WellFormed(lib, it)
    ensures ParseRdRoute(lib, Value(it), FRESH) == Parsed(Described(lib, it), Success)
  {
    SplitJoin([it.dst, it.gw, it.ifname], ':', 3);
  }

  /** A token is its key and its value, whatever the value. */
  lemma {:induction false} TokenSplit(key: string, v: string)
    requires Solid(key) && Solid(v) && key != "" && key[0] != '#' && '=' !in key
    ensures ParseLine(key + ['='] + v) == Some((key, Some(v)))
  {
    var t := key + ['='] + v;
    SolidToken(key, v);
    SolidStrip(t);
    assert t[0] == key[0];
    SplitJoin([key, v], '=', 2);
    assert [key, v][1..] == [v];
    assert Join([key, v], '=') == t;
  }

  lemma {:induction false} SolidToken(key: string, v: string)
    requires Solid(key) && Solid(v)
    ensures Solid(key + ['='] + v)
  {
  }

  lemma {:induction false} SolidStrip(t: string)
    requires Solid(t)
    ensures Strip(t) == t
  {
    StripPlain(t);
    TrimTrimmed(t);
  }

  /** A well-formed long form is never retried as the short form. */
  lemma {:induction false} LongNeverFallsBack(lib: Libc, it: Item)
    requires it.LongIp? && WellFormed(lib, it)
    ensures ParseIp(lib, Value(it), FRESH) == ParseLong(lib, Value(it), FRESH) == Parsed(Described(lib, it), Success)
  {
    LongFormRead(lib, it);
    assert Value(it)[|it.address|] == ':';
  }

  lemma {:induction false} IpItemRead(lib: Libc, it: Item)
    requires WellFormed(lib, it) && Key(it) == "ip"
    ensures ParseIp(lib, Value(it), FRESH) == Parsed(Described(lib, it), Success)
  {
    match it {
      case LongIp(_, _, _, _, _, _, _) => LongNeverFallsBack(lib, it);
      case ShortIp(_, _, _, _) => ShortFormRead(lib, it);
      case ModeIp(_) =>
    }
  }

  lemma {:induction false} ReadKeyed(lib: Libc, token: string, k: string, v: string)
    requires ParseLine(token) == Some((k, Some(v)))
    ensures Read(lib, token) ==
      if k == "ip" then ReadIp(lib, Some(v))
      else if k == "rd.route" then ReadRoute(lib, Some(v))
      else if k == "nameserver" then ReadNameserver(lib, Some(v))
      else OtherToken
  {
  }

  /** Printing an item and reading the token gives what the item describes. */
  lemma {:induction false} ItemRead(lib: Libc, it: Item)
    requires WellFormed(lib, it)
    ensures Read(lib, Print(it)) == DescribedReading(lib, it)
  {
    TokenSplit(Key(it), Value(it));
    ReadKeyed(lib, Print(it), Key(it), Value(it));
    if it.RdRoute? {
      RouteFormRead(lib, it);
    } else if !it.Nameserver? {
      IpItemRead(lib, it);
    }
  }

  // --------------------------------------------------------- whole lines

  function PrintAll(items: seq<Item>): (ts: seq<string>)
    ensures |ts| == |items| && forall k :: 0 <= k < |ts| ==> ts[k] == Print(items[k])
  {
    seq(|items|, k requires 0 <= k < |items| => Print(items[k]))
  }

  function DescribedAll(lib: Libc, items: seq<Item>): (rs: seq<Reading>)
    requires forall k :: 0 <= k < |items| ==> WellFormed(lib, items[k])
    ensures |rs| == |items| && forall k :: 0 <= k < |rs| ==> rs[k] == DescribedReading(lib, items[k])
  {
    seq(|items|, k requires 0 <= k < |items| && WellFormed(lib, items[k]) => DescribedReading(lib, items[k]))
  }

  predicate Nameless(it: Item) {
    it.Nameserver? || it.ModeIp? || (it.LongIp? && it.ifname == "")
  }

  predicate SameInterface(a: Item, b: Item) {
    && (a.LongIp? || a.ShortIp?) && (b.LongIp? || b.ShortIp?)
    && a.ifname != "" && a.ifname == b.ifname
  }

  /** Two items that cannot stand on one command line. */
  predicate Clash(a: Item, b: Item) {
    SameInterface(a, b) || (Nameless(a) && Nameless(b))
  }

  lemma {:induction false} CleanExactly(lib: Libc, items: seq<Item>)
    requires forall k :: 0 <= k < |items| ==> WellFormed(lib, items[k])
    ensures Clean(DescribedAll(lib, items)) <==> NoClash(items)
  {
    var rs := DescribedAll(lib, items);
    forall j: nat | j < |items|
      ensures Unnamed(rs, j) <==> Nameless(items[j])
      ensures CleanAt(rs, j) <==> forall i :: 0 <= i < j ==> !Clash(items[i], items[j])
    {
      CleanItem(lib, items, j);
    }
  }

  lemma {:induction false} CleanItem(lib: Libc, items: seq<Item>, j: nat)
    requires forall k :: 0 <= k < |items| ==> WellFormed(lib, items[k])
    requires j < |items|
    ensures Unnamed(DescribedAll(lib, items), j) <==> Nameless(items[j])
    ensures CleanAt(DescribedAll(lib, items), j) <==> forall i :: 0 <= i < j ==> !Clash(items[i], items[j])
  {
    var rs := DescribedAll(lib, items);
    forall i: nat | i < |items|
      ensures Unnamed(rs, i) <==> Nameless(items[i])
      ensures items[j].LongIp? || items[j].ShortIp? ==>
        (items[j].ifname != "" && NamesIp(rs, i, items[j].ifname) <==> SameInterface(items[i], items[j]))
    {
      assert rs[i] == DescribedReading(lib, items[i]);
    }
  }

  /** Any command line succeeds exactly when its readings are clean, and returns their grouping. */
  lemma {:induction false} ParseOfReadings(lib: Libc, line: string, rs: seq<Reading>)
    requires ReadAll(lib, Split(line, ' ', 0)) == rs
    ensures ParseCommandLine(lib, line).Done? <==> Clean(rs)
    ensures ParseCommandLine(lib, line).Done? ==> ParseCommandLine(lib, line).value == Grouping(rs, |rs|)
  {
    RunIsGrouping(rs);
  }

  predicate NoClash(items: seq<Item>) {
    forall i, j :: 0 <= i < j < |items| ==> !Clash(items[i], items[j])
  }

  /** Any list of well-formed items, printed on one line and parsed: the call succeeds exactly
      when no two items clash, and then returns the grouping of what the items describe. */
  lemma {:induction false} PrintThenParse(lib: Libc, items: seq<Item>)
    requires forall k :: 0 <= k < |items| ==> WellFormed(lib, items[k])
    ensures var r := ParseCommandLine(lib, Join(PrintAll(items), ' '));
      && (r.Done? <==> NoClash(items))
      && (r.Done? ==> r.value == Grouping(DescribedAll(lib, items), |items|))
  {
    LineTokens(lib, items);
    CleanExactly(lib, items);
    ParseOfReadings(lib, Join(PrintAll(items), ' '), DescribedAll(lib, items));
  }

  lemma {:induction false} LineTokens(lib: Libc, items: seq<Item>)
    requires forall k :: 0 <= k < |items| ==> WellFormed(lib, items[k])
    ensures ReadAll(lib, Split(Join(PrintAll(items), ' '), ' ', 0)) == DescribedAll(lib, items)
  {
    var ts := PrintAll(items);
    forall k | 0 <= k < |ts|
      ensures ' ' !in ts[k] && ts[k] != "" && Read(lib, ts[k]) == DescribedReading(lib, items[k])
    {
      NoSpace(lib, items[k]);
      ItemRead(lib, items[k]);
    }
    SplitJoin(ts, ' ', 0);
  }

  lemma {:induction false} NoSpace(lib: Libc, it: Item)
    requires WellFormed(lib, it)
    ensures ' ' !in Print(it) && Print(it) != ""
  {
    var v := Value(it);
    assert forall k :: 0 <= k < |v| ==> v[k] != ' ';
  }
}
