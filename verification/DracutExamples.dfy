/** Command lines of one token: which of them crash the parser, and one that loses something it
    says. */
module DracutExamples {
  import opened Wrappers
  import opened Strings
  import opened Addresses
  import opened DracutTokens
  import opened DracutRun
  import opened DracutForms
  import opened DracutCrashes

  /** ip=:::::eth0:none:10.0.0.1:10.0.0.2 */
  const TWO_SERVERS: Item := LongIp("", "", "", "", "eth0", "none", Dns("10.0.0.1", "10.0.0.2"))

  /** The C library reads both addresses, and takes neither for an MTU or MAC address. */
  predicate ReadsServers(lib: Libc) {
    && lib.ip("10.0.0.1") == Some(V4(10, 0, 0, 1, 0)) && lib.mtu("10.0.0.1").None?
    && lib.ip("10.0.0.2") == Some(V4(10, 0, 0, 2, 0)) && !lib.ether("10.0.0.2")
  }

  lemma {:induction false} JoinSolid(xs: seq<string>, c: char)
    requires forall k :: 0 <= k < |xs| ==> Solid(xs[k])
    requires !IsSpace(c) && c != '\\' && c != '\0'
    ensures Solid(Join(xs, c))
  {
    if |xs| > 1 {
      JoinSolid(xs[1..], c);
    }
  }

  lemma {:induction false} TwoServersFields()
    ensures FieldsOf(TWO_SERVERS) == ["", "", "", "", "", "eth0", "none", "10.0.0.1", "10.0.0.2"]
    ensures Separable(FieldsOf(TWO_SERVERS), ':', 9)
  {
  }

  lemma {:induction false} NamesSolid()
    ensures Solid("") && Solid("eth0") && Solid("none")
  {
  }

  lemma {:induction false} AddressesSolid()
    ensures Solid("10.0.0.1") && Solid("10.0.0.2")
  {
  }

  lemma {:induction false} TwoServersWellFormed(lib: Libc)
    requires ReadsServers(lib)
    ensures WellFormed(lib, TWO_SERVERS)
  {
    TwoServersFields();
    NamesSolid();
    AddressesSolid();
    JoinSolid(FieldsOf(TWO_SERVERS), ':');
  }

  /** A long form alone on its line gives the network it describes. */
  lemma {:induction false} OneItem(lib: Libc, it: Item)
    requires WellFormed(lib, it) && it.LongIp?
    ensures ParseCommandLine(lib, Print(it)) == Done([Described(lib, it).(dracut := true)])
  {
    PrintThenParse(lib, [it]);
    assert PrintAll([it]) == [Print(it)];
    OneReading(DescribedAll(lib, [it]), Described(lib, it));
  }

  lemma {:induction false} OneReading(rs: seq<Reading>, n: Net)
    requires rs == [IpToken(n)]
    ensures Clean(rs) && Grouping(rs, 1) == [n.(dracut := true)]
  {
    assert NameserversOf(rs, 0, 0) == [];
    assert JoinedRoutes(rs, 0) == {};
    assert n.routes + {} == n.routes;
    assert Gathered(rs, 0) == n.(dracut := true);
  }

  /** One of its two name servers is lost: 10.0.0.2 replaces 10.0.0.1, from which it differs
      only after a zero byte. */
  lemma {:induction false} NameserverLost(lib: Libc)
    requires ReadsServers(lib)
    ensures var r := ParseCommandLine(lib, Print(TWO_SERVERS));
      r.Done? && |r.value| == 1 && r.value[0].ifname == Some("eth0")
          && r.value[0].nameservers.Values == {V4(10, 0, 0, 2, 0)}
  {
    TwoServersWellFormed(lib);
    OneItem(lib, TWO_SERVERS);
    KeptUnder(V4(10, 0, 0, 1, 0), V4(10, 0, 0, 2, 0));
  }

  lemma {:induction false} KeptUnder(a: IPAddress, b: IPAddress)
    requires a.V4? && b.V4? && a.a == b.a > 0 && a.b == b.b == 0
    ensures map[StringKey(a) := a][StringKey(b) := b].Values == {b}
  {
    var kept := map[StringKey(a) := a][StringKey(b) := b];
    assert StringKey(a) == StringKey(b) && StringKey(b) in kept;
    assert forall key :: key in kept ==> kept[key] == b;
  }

  // --------------------------------------------------- lines that crash

  /** A line of one token is that token's reading. */
  lemma {:induction false} OneToken(lib: Libc, key: string, v: string)
    requires Solid(key) && Solid(v) && key != "" && key[0] != '#' && '=' !in key
    ensures ReadAll(lib, Split(key + ['='] + v, ' ', 0)) == [Read(lib, key + ['='] + v)]
    ensures ParseLine(key + ['='] + v) == Some((key, Some(v)))
  {
    var t := key + ['='] + v;
    TokenSplit(key, v);
    SolidToken(key, v);
    SolidChars(t, ' ');
    SplitJoin([t], ' ', 0);
  }

  lemma {:induction false} OneRun(rs: seq<Reading>)
    requires |rs| == 1
    ensures Ending(Run(rs)) == Verdict(rs, 0)
  {
    EndsAt(rs, 0);
    assert rs[..1] == rs;
  }

  lemma {:induction false} KeysSolid()
    ensures Solid("ip") && Solid("rd.route")
  {
  }

  /** A long form alone on its line crashes the parser exactly when its fields do. */
  lemma {:induction false} LongLineCrashesExactly(lib: Libc, s: seq<string>)
    requires |s| >= 2 && Separable(s, ':', 9) && forall k :: 0 <= k < |s| ==> Solid(s[k])
    ensures ParseCommandLine(lib, "ip" + ['='] + Join(s, ':')) == Crashed <==>
      && EmptyOrAddress(lib, s[0])
      && if s[1] != "" then lib.ip(s[1]).Some? else RestCrashes(lib, s)
  {
    JoinSolid(s, ':');
    KeysSolid();
    TokenCrashesExactly(lib, "ip", Join(s, ':'));
    LongTextCrashesExactly(lib, s);
    LongCrashesExactly(lib, s, FRESH);
  }

  lemma {:induction false} LongTextCrashesExactly(lib: Libc, s: seq<string>)
    requires |s| >= 2 && Separable(s, ':', 9)
    ensures ParseIp(lib, Join(s, ':'), FRESH).status.Crash? <==> LongFields(lib, s, FRESH).status.Crash?
  {
    SplitJoin(s, ':', 9);
    assert Join(s, ':')[|s[0]|] == ':';
    IpCrashesExactly(lib, Join(s, ':'), FRESH);
  }

  /** A line of one token crashes exactly when its reading does, or is a route's without a
      name. */
  lemma {:induction false} TokenCrashesExactly(lib: Libc, key: string, v: string)
    requires Solid(key) && Solid(v) && (key == "ip" || key == "rd.route")
    ensures ParseCommandLine(lib, key + ['='] + v) == Crashed <==>
      if key == "ip" then ParseIp(lib, v, FRESH).status.Crash?
      else
        var p := ParseRdRoute(lib, v, FRESH);
        p.status.Crash? || (p.status.Success? && p.net.ifname.None?)
  {
    OneToken(lib, key, v);
    ReadKeyed(lib, key + ['='] + v, key, v);
    OneRun([Read(lib, key + ['='] + v)]);
  }

  /** So does a route form; one without an interface looks up a null key. */
  lemma {:induction false} RouteLineCrashesExactly(lib: Libc, s: seq<string>)
    requires s != [""] && Separable(s, ':', 3) && forall k :: 0 <= k < |s| ==> Solid(s[k])
    ensures ParseCommandLine(lib, "rd.route" + ['='] + Join(s, ':')) == Crashed <==>
      && EmptyOrAddress(lib, s[0])
      && (|s| == 1 || (EmptyOrAddress(lib, s[1]) && Field(s, 2) == ""))
  {
    JoinSolid(s, ':');
    KeysSolid();
    TokenCrashesExactly(lib, "rd.route", Join(s, ':'));
    SplitJoin(s, ':', 3);
    RouteCrashesExactly(lib, s, FRESH);
    if |s| >= 2 {
      RouteName(lib, s);
    }
  }

  lemma {:induction false} RouteName(lib: Libc, s: seq<string>)
    requires |s| >= 2
    ensures var p := RouteFields(lib, s, FRESH);
      p.status.Success? && p.net.ifname.None? <==>
        EmptyOrAddress(lib, s[0]) && EmptyOrAddress(lib, s[1]) && Field(s, 2) == ""
  {
  }

  /** A text that stands in one field. */
  predicate OneField(f: string) {
    f != "" && Solid(f) && ':' !in f
  }

  /** ip=:p: for a peer address. */
  lemma {:induction false} PeerCrashes(lib: Libc, p: string)
    requires OneField(p) && lib.ip(p).Some?
    ensures ParseCommandLine(lib, "ip" + ['='] + Join(["", p, ""], ':')) == Crashed
  {
    LongLineCrashesExactly(lib, ["", p, ""]);
  }

  /** ip=:::m for a netmask, without a gateway. */
  lemma {:induction false} MaskAloneCrashes(lib: Libc, m: string)
    requires OneField(m) && ReadMask(lib, m).Length?
    ensures ParseCommandLine(lib, "ip" + ['='] + Join(["", "", "", m], ':')) == Crashed
  {
    LongLineCrashesExactly(lib, ["", "", "", m]);
  }

  /** Seven fields, of which the netmask is neither an address nor a number. */
  lemma {:induction false} SevenFieldsCrash(lib: Libc, a: string, g: string, m: string, ifname: string, mode: string)
    requires OneField(a) && lib.ip(a).Some? && OneField(g) && lib.ip(g).Some?
    requires OneField(m) && ReadMask(lib, m).Unreadable? && OneField(ifname) && OneField(mode)
    ensures ParseCommandLine(lib, "ip" + ['='] + Join([a, "", g, m, "", ifname, mode], ':')) == Crashed
  {
    LongLineCrashesExactly(lib, [a, "", g, m, "", ifname, mode]);
  }

  /** rd.route=d:g without an interface. */
  lemma {:induction false} RouteWithoutInterfaceCrashes(lib: Libc, d: string, g: string)
    requires OneField(d) && lib.ip(d).Some? && OneField(g) && lib.ip(g).Some?
    ensures ParseCommandLine(lib, "rd.route" + ['='] + Join([d, g], ':')) == Crashed
  {
    RouteLineCrashesExactly(lib, [d, g]);
  }
}
