/** From a kernel command line to network files
    (`manager_generate_networkd_config_from_command_line` in src/manager/network-manager.c):
    every network of a parsed command line goes through the generator. */
module CommandLineFiles {
  import opened Wrappers
  import opened Strings
  import opened Addresses
  import opened KeyFiles
  import opened DracutTokens
  import opened DracutRun
  import opened DracutGrouping
  import opened DracutLaws
  import NF = NetworkFile
  import NS = NetworkSections

  /** `inet_ntop` on an address, as a parameter. */
  type Printer = IPAddress -> string

  /** `ip_is_null`. */
  predicate IsNull(ip: IPAddress) {
    match ip
    case V4(a, b, c, d, _) => a == 0 && b == 0 && c == 0 && d == 0
    case V6(bytes, _) => forall i :: 0 <= i < |bytes| ==> bytes[i] == 0
  }

  /** `ip_to_str_prefix`. */
  function WithPrefix(show: Printer, ip: IPAddress): string {
    show(ip) + if ip.prefix > 0 then "/" + Signed(ip.prefix) else ""
  }

  function Printable(show: Printer, ip: IPAddress): Option<string> {
    if IsNull(ip) then None else Some(WithPrefix(show, ip))
  }

  function AddressItem(show: Printer, ip: IPAddress): NS.Item {
    NS.Address(WithPrefix(show, ip), None, None)
  }

  /** A route of the command line sets a destination and a gateway; the rest is what
      `route_new` gives. */
  function RouteItem(show: Printer, r: Route): NS.Item {
    NS.Route(if r.dst.Some? then Printable(show, r.dst.value) else None, false, NS.Unspec, Printable(show, r.gw),
             None, None, NS.RT_TABLE_MAIN, None, None, 0, 0, 0, None, None, None)
  }

  /** The order in which a network's tables are walked. */
  datatype Walk = Walk(addresses: seq<IPAddress>, routes: seq<Route>, nameservers: seq<IPAddress>)

  ghost predicate Walks(w: Walk, n: Net) {
    && (forall a :: a in w.addresses <==> a in n.addresses) && |w.addresses| == |n.addresses|
    && (forall r :: r in w.routes <==> r in n.routes) && |w.routes| == |n.routes|
    && (forall s :: s in w.nameservers <==> s in n.nameservers.Values) && |w.nameservers| == |n.nameservers|
  }

  function AddressItems(show: Printer, ips: seq<IPAddress>): (its: seq<NS.Item>)
    ensures |its| == |ips| && forall i :: 0 <= i < |its| ==> its[i] == AddressItem(show, ips[i])
  {
    seq(|ips|, i requires 0 <= i < |ips| => AddressItem(show, ips[i]))
  }

  function RouteItems(show: Printer, rs: seq<Route>): (its: seq<NS.Item>)
    ensures |its| == |rs| && forall i :: 0 <= i < |its| ==> its[i] == RouteItem(show, rs[i])
  {
    seq(|rs|, i requires 0 <= i < |rs| => RouteItem(show, rs[i]))
  }

  function Shown(show: Printer, ips: seq<IPAddress>): (ts: seq<string>)
    ensures |ts| == |ips| && forall i :: 0 <= i < |ts| ==> ts[i] == show(ips[i])
  {
    seq(|ips|, i requires 0 <= i < |ips| => show(ips[i]))
  }

  /** What the generator sees of a network of the command line. A mode is written by its
      networkd name, and the host name is never looked at. */
  function ConfigOf(n: Net, show: Printer, w: Walk): NF.Config
    requires n.ifname.Some?
  {
    NF.Config(n.ifname.value, None, None, None, n.mac, None, None, None, None, None, None, n.mtu, None, None,
              if n.dhcpType == DHCP_CLIENT_INVALID then None else Some(NetworkdMode(n.dhcpType)),
              None, None, None, None, None, None, None, None, None, 0, None,
              Shown(show, w.nameservers), [], None)
  }

  /** The command line sets no option between the three sections and the repeated ones. */
  function FileOf(n: Net, show: Printer, w: Walk): seq<Section>
    requires n.ifname.Some?
  {
    NS.File(ConfigOf(n, show, w), [], AddressItems(show, w.addresses) + RouteItems(show, w.routes))
  }

  /** `determine_conf_file_name`: patterns share one file. */
  function FileName(ifname: string): string {
    "10-" + if '*' in ifname then "network-config-manager" else ifname
  }

  /** A file by its name, or None where the generator does not get to write one. */
  type Output = Option<(string, seq<Section>)>

  function OutputOf(n: Net, show: Printer, w: Walk): Output {
    if n.ifname.None? then None else Some((FileName(n.ifname.value), FileOf(n, show, w)))
  }

  /** What the networks say, whether or not the storage of their routes is still there. */
  function Contents(nets: seq<Net>, walks: seq<Walk>, show: Printer): (r: seq<Output>)
    requires |nets| == |walks|
    ensures |r| == |nets| && forall p :: 0 <= p < |r| ==> r[p] == OutputOf(nets[p], show, walks[p])
  {
    seq(|nets|, p requires 0 <= p < |nets| => OutputOf(nets[p], show, walks[p]))
  }

  /** Some route of network `p` was freed with the network it came from. */
  predicate HasFreedRoute(st: State, p: nat) {
    exists e :: e in st.lent && e.0 == p
  }

  /** What the generator writes for each network: a missing name fails an assertion, and the
      routes of a network are all read, freed or not. */
  function Outputs(st: State, walks: seq<Walk>, show: Printer): (r: seq<Output>)
    requires |st.nets| == |walks|
    ensures |r| == |walks|
    ensures forall p :: 0 <= p < |r| ==>
      r[p] == if HasFreedRoute(st, p) then None else OutputOf(st.nets[p], show, walks[p])
  {
    seq(|walks|, p requires 0 <= p < |walks| =>
      if HasFreedRoute(st, p) then None else OutputOf(st.nets[p], show, walks[p]))
  }

  /** The files after the outputs were written in turn. */
  function Generated(outs: seq<Output>): Outcome<map<string, seq<Section>>> {
    if outs == [] then Done(map[])
    else
      match Generated(outs[..|outs| - 1])
      case Failed(e) => Failed(e)
      case Crashed => Crashed
      case Done(files) =>
        match outs[|outs| - 1]
        case None => Crashed
        case Some((name, file)) => Done(files[name := file])
  }

  class NetworkDirectory {
    var files: map<string, seq<Section>>

    /** Generating every network of the table in its order. */
    method GenerateAll(st: State, walks: seq<Walk>, show: Printer) returns (r: Outcome<()>)
      requires |st.nets| == |walks| && files == map[]
      modifies this
      ensures match Generated(Outputs(st, walks, show))
        case Done(fs) => r == Done(()) && files == fs
        case Failed(_) => false
        case Crashed => r == Crashed
    {
      ghost var outs := Outputs(st, walks, show);
      var k := 0;
      while k < |walks|
        invariant 0 <= k <= |walks|
        invariant Generated(outs[..k]) == Done(files)
      {
        assert outs[..k + 1][..k] == outs[..k];
        if st.nets[k].ifname.None? || HasFreedRoute(st, k) {
          CrashStays(outs, k + 1);
          return Crashed;
        }
        var kf := NS.GenerateFile(ConfigOf(st.nets[k], show, walks[k]), [],
                                  AddressItems(show, walks[k].addresses), RouteItems(show, walks[k].routes));
        files := files[FileName(st.nets[k].ifname.value) := kf.sections];
        k := k + 1;
      }
      assert outs[..k] == outs;
      r := Done(());
    }
  }

  lemma {:induction false} CrashStays(outs: seq<Output>, k: nat)
    requires k <= |outs| && Generated(outs[..k]) == Crashed
    ensures Generated(outs) == Crashed
  {
    if k == |outs| {
      assert outs[..k] == outs;
    } else {
      assert outs[..|outs| - 1][..k] == outs[..k];
      CrashStays(outs[..|outs| - 1], k);
    }
  }

  // ------------------------------------------------------------------ the laws

  lemma {:induction false} GeneratedNamed(outs: seq<Output>)
    ensures Generated(outs).Done? <==> forall p :: 0 <= p < |outs| ==> outs[p].Some?
    ensures !Generated(outs).Done? ==> Generated(outs) == Crashed
  {
    if outs != [] {
      GeneratedNamed(outs[..|outs| - 1]);
    }
  }

  /** An order in which a table of `n` networks is walked: every position once. */
  ghost predicate Order(order: seq<nat>, n: nat) {
    && |order| == n
    && (forall k :: 0 <= k < n ==> order[k] < n)
    && (forall k, l :: 0 <= k < l < n ==> order[k] != order[l])
    && (forall p: nat :: p < n ==> p in order)
  }

  function Walked(outs: seq<Output>, order: seq<nat>): (r: seq<Output>)
    requires forall k :: 0 <= k < |order| ==> order[k] < |outs|
    ensures |r| == |order| && forall k :: 0 <= k < |r| ==> r[k] == outs[order[k]]
  {
    seq(|order|, k requires 0 <= k < |order| => outs[order[k]])
  }

  lemma {:induction false} WalkedNamed(outs: seq<Output>, order: seq<nat>)
    requires Order(order, |outs|)
    ensures (forall k :: 0 <= k < |order| ==> Walked(outs, order)[k].Some?) <==>
      forall p :: 0 <= p < |outs| ==> outs[p].Some?
  {
    if forall k :: 0 <= k < |order| ==> Walked(outs, order)[k].Some? {
      forall p: nat | p < |outs|
        ensures outs[p].Some?
      {
        assert p in order;
        var k :| 0 <= k < |order| && order[k] == p;
        assert Walked(outs, order)[k] == outs[p];
      }
    }
  }

  /** No token leaves a network without an interface name. */
  ghost predicate NoNameless(rs: seq<Reading>) {
    forall j :: 0 <= j < |rs| ==> !rs[j].NameserverToken? && (rs[j].IpToken? ==> rs[j].net.ifname.Some?)
  }

  /** A command line that parses gets its files, in whatever order its networks are walked,
      exactly when it has no `nameserver=` token, no `ip=` token without an interface, and no
      `rd.route=` token that joins an `ip=` network with a route that is new to its token;
      otherwise the generator reads a null name or a freed route. */
  lemma {:induction false} GeneratedExactly(rs: seq<Reading>, walks: seq<Walk>, show: Printer, order: seq<nat>)
    requires Run(rs).Done? && |walks| == |Run(rs).value.nets| && Order(order, |walks|)
    ensures var r := Generated(Walked(Outputs(Run(rs).value, walks, show), order));
      (r.Done? <==> NoNameless(rs) && OnlyRepeats(rs)) && (!r.Done? ==> r == Crashed)
  {
    var st := Run(rs).value;
    var outs := Outputs(st, walks, show);
    GeneratedNamed(Walked(outs, order));
    WalkedNamed(outs, order);
    AllNamedExactly(rs);
    NothingFreedExactly(rs);
    assert forall p :: 0 <= p < |outs| ==> (outs[p].Some? <==> st.nets[p].ifname.Some? && !HasFreedRoute(st, p));
  }

  lemma {:induction false} NothingFreedExactly(rs: seq<Reading>)
    requires Run(rs).Done?
    ensures (forall p :: 0 <= p < |Run(rs).value.nets| ==> !HasFreedRoute(Run(rs).value, p)) <==> OnlyRepeats(rs)
  {
    var st := Run(rs).value;
    MovesExactlyWhenRepeated(rs);
    if st.lent != {} {
      var e :| e in st.lent;
      LenderStands(rs, e.0, e.1);
      assert HasFreedRoute(st, e.0);
    }
  }

  lemma {:induction false} LenderStands(rs: seq<Reading>, p: nat, r: Route)
    requires Run(rs).Done? && (p, r) in Run(rs).value.lent
    ensures p < |Run(rs).value.nets|
  {
    RunIsGrouping(rs);
    assert Lends(rs, p, r);
    var i: nat, j: nat :| Joins(rs, i, j) && p == Rank(rs, i) && r in rs[j].net.routes && r !in rs[i].net.routes;
    GroupingAt(rs, i, |rs|);
  }

  /** Where nothing is freed, the generator writes what the networks say. */
  lemma {:induction false} NothingFreed(rs: seq<Reading>, walks: seq<Walk>, show: Printer)
    requires Run(rs).Done? && |walks| == |Run(rs).value.nets| && OnlyRepeats(rs)
    ensures Outputs(Run(rs).value, walks, show) == Contents(Run(rs).value.nets, walks, show)
  {
    NothingFreedExactly(rs);
  }

  /** A line of one `nameserver=` token parses, and the generator aborts on its result. */
  lemma {:induction false} NameserverAborts(ip: IPAddress, walk: Walk, show: Printer)
    ensures var rs := [NameserverToken(Done(ip))];
      Run(rs).Done? && |Run(rs).value.nets| == 1 && Generated(Outputs(Run(rs).value, [walk], show)) == Crashed
  {
    var rs := [NameserverToken(Done(ip))];
    assert rs[..0] == [];
    assert Run(rs) == Apply(START, rs[0]);
    assert Run(rs).value.nets == [FRESH.(dracut := true)];
    var outs := Outputs(Run(rs).value, [walk], show);
    assert outs[..0] == [] && outs[0] == None;
  }

  /** An `ip=` item and a route for its interface, which it did not have: the generator reads
      the freed route. */
  lemma {:induction false} JoinedRouteFreed(name: string, r: Route, walk: Walk, show: Printer)
    ensures var rs := [IpToken(FRESH.(ifname := Some(name))), RouteToken(FRESH.(ifname := Some(name), routes := {r}))];
      Run(rs).Done? && |Run(rs).value.nets| == 1 && Generated(Outputs(Run(rs).value, [walk], show)) == Crashed
  {
    var rs := [IpToken(FRESH.(ifname := Some(name))), RouteToken(FRESH.(ifname := Some(name), routes := {r}))];
    JoinedRouteShared(name, r);
    var outs := Outputs(Run(rs).value, [walk], show);
    assert (0, r) in Run(rs).value.lent;
    assert outs[..0] == [] && outs[0] == None;
  }

  predicate LastOfName(outs: seq<Output>, p: nat) {
    && p < |outs| && outs[p].Some?
    && forall q :: p < q < |outs| ==> outs[q].Some? && outs[q].value.0 != outs[p].value.0
  }

  /** A file holds what was generated last under its name. */
  lemma {:induction false} LastGeneratedWins(outs: seq<Output>, p: nat)
    requires Generated(outs).Done? && LastOfName(outs, p)
    ensures outs[p].value.0 in Generated(outs).value
    ensures Generated(outs).value[outs[p].value.0] == outs[p].value.1
  {
    if p < |outs| - 1 {
      LastGeneratedWins(outs[..|outs| - 1], p);
    }
  }

  /** The last output under the name of output `p`. */
  lemma {:induction false} LastSameName(outs: seq<Output>, p: nat) returns (q: nat)
    requires p < |outs| && forall i :: 0 <= i < |outs| ==> outs[i].Some?
    ensures p <= q && LastOfName(outs, q) && outs[q].value.0 == outs[p].value.0
    decreases |outs| - p
  {
    if LastOfName(outs, p) {
      q := p;
    } else {
      var i :| p < i < |outs| && outs[i].value.0 == outs[p].value.0;
      q := LastSameName(outs, i);
    }
  }

  /** Every network keeps its file exactly when networks that share a file name, as two
      `rd.route=` networks of one interface do, would write the same. */
  lemma {:induction false} AllKeptExactly(outs: seq<Output>)
    requires Generated(outs).Done? && forall p :: 0 <= p < |outs| ==> outs[p].Some?
    ensures
      (forall p :: 0 <= p < |outs| ==>
        outs[p].value.0 in Generated(outs).value && Generated(outs).value[outs[p].value.0] == outs[p].value.1)
      <==>
      (forall p, q :: 0 <= p < q < |outs| && outs[p].value.0 == outs[q].value.0 ==>
        outs[p].value.1 == outs[q].value.1)
  {
    if forall p, q :: 0 <= p < q < |outs| && outs[p].value.0 == outs[q].value.0 ==> outs[p].value.1 == outs[q].value.1 {
      forall p | 0 <= p < |outs|
        ensures outs[p].value.0 in Generated(outs).value && Generated(outs).value[outs[p].value.0] == outs[p].value.1
      {
        var q := LastSameName(outs, p);
        LastGeneratedWins(outs, q);
      }
    }
  }

  /** What a network of the command line has to say under a key. */
  function Stated(n: Net, show: Printer, w: Walk, g: NF.Field): Option<Option<string>>
    requires n.ifname.Some?
  {
    match g
    case MatchName => Some(Some(n.ifname.value))
    case LinkMac => Wrap(n.mac)
    case MtuBytes => if n.mtu > 0 then Some(Some(Decimal(n.mtu))) else None
    case Dhcp => if n.dhcpType == DHCP_CLIENT_INVALID then None else Some(NetworkdMode(n.dhcpType))
    case Dns => if n.nameservers == map[] then None else Some(Some(Spaced(Shown(show, w.nameservers))))
    case _ => None
  }

  /** A generated file says exactly what its network says: every key of the three sections,
      and one section for each address and each route that is not null. */
  lemma {:induction false} FileSaysNetwork(n: Net, show: Printer, w: Walk, g: NF.Field)
    requires n.ifname.Some? && Walks(w, n)
    ensures NF.At(FileOf(n, show, w), g) == Stated(n, show, w, g)
    ensures NS.ReadItems(FileOf(n, show, w)) ==
      NS.Texts(AddressItems(show, w.addresses) + RouteItems(show, w.routes))
  {
    StatedIsIntended(n, show, w, g);
    NS.FileRecovers(ConfigOf(n, show, w), [], AddressItems(show, w.addresses) + RouteItems(show, w.routes), g);
  }

  lemma {:induction false} StatedIsIntended(n: Net, show: Printer, w: Walk, g: NF.Field)
    requires n.ifname.Some? && Walks(w, n)
    ensures NF.Intended(ConfigOf(n, show, w), g) == Stated(n, show, w, g) && !NF.Missed(ConfigOf(n, show, w), g)
  {
  }

  lemma {:induction false} TextsHave(its: seq<NS.Item>, t: (string, NS.Reading))
    ensures t in NS.Texts(its) <==>
      exists i :: 0 <= i < |its| && NS.Written(its[i]) && t == (NS.ItemName(its[i]), NS.Fields(its[i]))
  {
    if its != [] {
      var init, last := its[..|its| - 1], its[|its| - 1];
      TextsHave(init, t);
      assert forall i :: 0 <= i < |init| ==> init[i] == its[i];
    }
  }

  /** What a reader finds of a route. */
  function RouteText(show: Printer, r: Route): (string, NS.Reading) {
    ("Route", NS.Fields(RouteItem(show, r)))
  }

  /** The network has a route that prints like `r`. */
  ghost predicate Prints(n: Net, show: Printer, r: Route) {
    exists q :: q in n.routes && NS.Written(RouteItem(show, q)) && RouteText(show, q) == RouteText(show, r)
  }

  /** A file has a route's section exactly when its network has a route that prints so. */
  lemma {:induction false} RouteInFile(n: Net, show: Printer, w: Walk, r: Route)
    requires n.ifname.Some? && Walks(w, n)
    ensures RouteText(show, r) in NS.ReadItems(FileOf(n, show, w)) <==> Prints(n, show, r)
  {
    FileSaysNetwork(n, show, w, NF.MatchName);
    RouteInTexts(show, w, r);
  }

  lemma {:induction false} RouteInTexts(show: Printer, w: Walk, r: Route)
    ensures RouteText(show, r) in NS.Texts(AddressItems(show, w.addresses) + RouteItems(show, w.routes)) <==>
      exists q :: q in w.routes && NS.Written(RouteItem(show, q)) && RouteText(show, q) == RouteText(show, r)
  {
    var its := AddressItems(show, w.addresses) + RouteItems(show, w.routes);
    TextsHave(its, RouteText(show, r));
    forall q | q in w.routes
      ensures RouteItem(show, q) in its
    {
      RouteIsItem(show, w, q);
    }
    forall i | 0 <= i < |its|
      ensures its[i].Address? || exists q :: q in w.routes && its[i] == RouteItem(show, q)
    {
      ItemIsRoute(show, w, i);
    }
  }

  lemma {:induction false} RouteIsItem(show: Printer, w: Walk, q: Route)
    requires q in w.routes
    ensures RouteItem(show, q) in RouteItems(show, w.routes)
  {
    var k :| 0 <= k < |w.routes| && w.routes[k] == q;
    assert RouteItems(show, w.routes)[k] == RouteItem(show, q);
  }

  lemma {:induction false} ItemIsRoute(show: Printer, w: Walk, i: nat)
    requires i < |AddressItems(show, w.addresses) + RouteItems(show, w.routes)|
    ensures var it := (AddressItems(show, w.addresses) + RouteItems(show, w.routes))[i];
      it.Address? || exists q :: q in w.routes && it == RouteItem(show, q)
  {
    if i >= |w.addresses| {
      var q := w.routes[i - |w.addresses|];
      assert q in w.routes;
    }
  }

  // ------------------------------------------------- what is left in a file

  ghost predicate HasText(out: Output, t: (string, NS.Reading)) {
    out.Some? && t in NS.ReadItems(out.value.1)
  }

  /** The file of that name is there after a walk, and holds the text. */
  ghost predicate LeftIn(outs: seq<Output>, order: seq<nat>, name: string, t: (string, NS.Reading))
    requires Order(order, |outs|)
  {
    var g := Generated(Walked(outs, order));
    g.Done? && name in g.value && t in NS.ReadItems(g.value[name])
  }

  /** The walk that comes to position `q` last. */
  function LastTo(n: nat, q: nat): (order: seq<nat>)
    requires q < n
    ensures |order| == n && order[n - 1] == q
  {
    seq(n, k requires 0 <= k < n => if k < q then k else if k == n - 1 then q else k + 1)
  }

  lemma {:induction false} LastToOrder(n: nat, q: nat)
    requires q < n
    ensures Order(LastTo(n, q), n)
  {
    var order := LastTo(n, q);
    forall p: nat | p < n
      ensures p in order
    {
      assert order[if p < q then p else if p == q then n - 1 else p - 1] == p;
    }
  }

  /** A text stands in a file whatever the walk exactly when it stands in every output of the
      file's name. */
  lemma {:induction false} LeftInEveryOrder(outs: seq<Output>, p: nat, t: (string, NS.Reading))
    requires p < |outs| && forall q :: 0 <= q < |outs| ==> outs[q].Some?
    ensures (forall order :: Order(order, |outs|) ==> LeftIn(outs, order, outs[p].value.0, t)) <==>
      forall q :: 0 <= q < |outs| && outs[q].value.0 == outs[p].value.0 ==> HasText(outs[q], t)
  {
    var name := outs[p].value.0;
    if forall order :: Order(order, |outs|) ==> LeftIn(outs, order, name, t) {
      forall q: nat | q < |outs| && outs[q].value.0 == name
        ensures HasText(outs[q], t)
      {
        var order := LastTo(|outs|, q);
        LastToOrder(|outs|, q);
        assert LeftIn(outs, order, name, t);
        LastGeneratedWins(Walked(outs, order), |outs| - 1);
      }
    }
    if forall q :: 0 <= q < |outs| && outs[q].value.0 == name ==> HasText(outs[q], t) {
      forall order | Order(order, |outs|)
        ensures LeftIn(outs, order, name, t)
      {
        LeftInOne(outs, order, p, t);
      }
    }
  }

  lemma {:induction false} LeftInOne(outs: seq<Output>, order: seq<nat>, p: nat, t: (string, NS.Reading))
    requires p < |outs| && Order(order, |outs|) && forall q :: 0 <= q < |outs| ==> outs[q].Some?
    requires forall q :: 0 <= q < |outs| && outs[q].value.0 == outs[p].value.0 ==> HasText(outs[q], t)
    ensures LeftIn(outs, order, outs[p].value.0, t)
  {
    var ws := Walked(outs, order);
    WalkedNamed(outs, order);
    GeneratedNamed(ws);
    assert p in order;
    var k :| 0 <= k < |order| && order[k] == p;
    var last := LastSameName(ws, k);
    LastGeneratedWins(ws, last);
    assert ws[last] == outs[order[last]];
  }

  /** Token `k` leaves a network that is written to the file of that name. */
  ghost predicate WritesTo(rs: seq<Reading>, k: nat, name: string) {
    Survives(rs, k) && Gathered(rs, k).ifname.Some? && FileName(Gathered(rs, k).ifname.value) == name
  }

  lemma {:induction false} RankOnto(rs: seq<Reading>, k: nat, p: nat) returns (i: nat)
    requires k <= |rs| && p < |Grouping(rs, k)|
    ensures i < k && Survives(rs, i) && Rank(rs, i) == p && Grouping(rs, k)[p] == Gathered(rs, i)
  {
    GroupingAt(rs, 0, k - 1);
    if p < |Grouping(rs, k - 1)| {
      i := RankOnto(rs, k - 1, p);
    } else {
      i := k - 1;
    }
  }

  /** The outputs of a name and the tokens that write to it. */
  lemma {:induction false} WritersAre(rs: seq<Reading>, walks: seq<Walk>, show: Printer, name: string, r: Route)
    requires Run(rs).Done? && NoNameless(rs) && |walks| == |Run(rs).value.nets|
    requires forall p :: 0 <= p < |walks| ==> Walks(walks[p], Run(rs).value.nets[p])
    ensures var outs := Contents(Run(rs).value.nets, walks, show);
      (forall p :: 0 <= p < |outs| ==> outs[p].Some?) &&
      ((forall q :: 0 <= q < |outs| && outs[q].value.0 == name ==> HasText(outs[q], RouteText(show, r))) <==>
        forall k: nat :: WritesTo(rs, k, name) ==> Prints(Gathered(rs, k), show, r))
  {
    var nets := Run(rs).value.nets;
    var outs := Contents(nets, walks, show);
    RunIsGrouping(rs);
    AllNamedExactly(rs);
    forall q: nat | q < |outs|
      ensures outs[q].Some?
      ensures HasText(outs[q], RouteText(show, r)) <==> Prints(nets[q], show, r)
    {
      RouteInFile(nets[q], show, walks[q], r);
    }
    forall k: nat | WritesTo(rs, k, name)
      ensures Rank(rs, k) < |outs| && nets[Rank(rs, k)] == Gathered(rs, k) && outs[Rank(rs, k)].value.0 == name
    {
      GroupingAt(rs, k, |rs|);
    }
    forall q: nat | q < |outs| && outs[q].value.0 == name
      ensures exists k: nat :: WritesTo(rs, k, name) && Gathered(rs, k) == nets[q]
    {
      var k := RankOnto(rs, |rs|, q);
      assert WritesTo(rs, k, name);
    }
  }

  /** From the command line to the files. A route that an `rd.route=` token adds to an `ip=`
      network is freed before the file is written exactly when the `ip=` token did not have it.
      With its storage still there it would stand in the file of its interface, in whatever
      order the networks are walked, exactly when every network written to that file has a
      route that prints the same; and that is what is written when no route is freed. */
  lemma {:induction false} RouteReachesFile(rs: seq<Reading>, i: nat, j: nat, r: Route, walks: seq<Walk>, show: Printer)
    requires Run(rs).Done? && NoNameless(rs) && |walks| == |Run(rs).value.nets|
    requires forall p :: 0 <= p < |walks| ==> Walks(walks[p], Run(rs).value.nets[p])
    requires Joins(rs, i, j) && r in rs[j].net.routes && NS.Written(RouteItem(show, r))
    ensures (Rank(rs, i), r) in Run(rs).value.lent <==> r !in rs[i].net.routes
    ensures OnlyRepeats(rs) ==> Outputs(Run(rs).value, walks, show) == Contents(Run(rs).value.nets, walks, show)
    ensures var outs, name := Contents(Run(rs).value.nets, walks, show), FileName(rs[j].net.ifname.value);
      && WritesTo(rs, i, name) && Prints(Gathered(rs, i), show, r)
      && ((forall order :: Order(order, |outs|) ==> LeftIn(outs, order, name, RouteText(show, r))) <==>
            forall k: nat :: WritesTo(rs, k, name) ==> Prints(Gathered(rs, k), show, r))
  {
    var outs, name := Contents(Run(rs).value.nets, walks, show), FileName(rs[j].net.ifname.value);
    LentExactly(rs, i, j, r);
    if OnlyRepeats(rs) {
      NothingFreed(rs, walks, show);
    }
    RunIsGrouping(rs);
    GroupingAt(rs, i, |rs|);
    GatheredIp(rs, i);
    assert r in JoinedRoutes(rs, i);
    WritersAre(rs, walks, show, name, r);
    assert outs[Rank(rs, i)].value.0 == name;
    LeftInEveryOrder(outs, Rank(rs, i), RouteText(show, r));
  }

  /** So it would stand there when its `ip=` token is the only one whose network is written to the
      file: no earlier `rd.route=` token of the interface, no other pattern name. */
  lemma {:induction false} AloneInFile(rs: seq<Reading>, i: nat, j: nat, r: Route, walks: seq<Walk>, show: Printer,
      order: seq<nat>)
    requires Run(rs).Done? && NoNameless(rs) && |walks| == |Run(rs).value.nets|
    requires forall p :: 0 <= p < |walks| ==> Walks(walks[p], Run(rs).value.nets[p])
    requires Joins(rs, i, j) && r in rs[j].net.routes && NS.Written(RouteItem(show, r))
    requires forall k: nat :: WritesTo(rs, k, FileName(rs[j].net.ifname.value)) ==> k == i
    requires Order(order, |walks|)
    ensures var name := FileName(rs[j].net.ifname.value);
      && LeftIn(Contents(Run(rs).value.nets, walks, show), order, name, RouteText(show, r))
      && (OnlyRepeats(rs) ==> LeftIn(Outputs(Run(rs).value, walks, show), order, name, RouteText(show, r)))
  {
    RouteReachesFile(rs, i, j, r, walks, show);
  }

  // ------------------------------------------------------- lines that lose

  const GATEWAY_1: Route := Route(None, V4(10, 0, 0, 1, 0))
  const GATEWAY_2: Route := Route(None, V4(10, 0, 0, 2, 0))

  /** The network of an item on eth0 with these routes and nothing else. */
  function OnEth0(routes: set<Route>): Net {
    FRESH.(ifname := Some("eth0"), routes := routes)
  }

  lemma {:induction false} GatewaysPrintApart(show: Printer)
    requires show(GATEWAY_1.gw) != show(GATEWAY_2.gw)
    ensures RouteText(show, GATEWAY_1) != RouteText(show, GATEWAY_2)
    ensures NS.Written(RouteItem(show, GATEWAY_1)) && NS.Written(RouteItem(show, GATEWAY_2))
  {
    var a, b := RouteItem(show, GATEWAY_1), RouteItem(show, GATEWAY_2);
    assert a.gateway.value == show(GATEWAY_1.gw) + "" && b.gateway.value == show(GATEWAY_2.gw) + "";
    assert show(GATEWAY_1.gw) + "" == show(GATEWAY_1.gw) && show(GATEWAY_2.gw) + "" == show(GATEWAY_2.gw);
    assert NS.ITEM_FIELDS[4] == NS.FGateway;
    assert NS.Fields(a)[4] == Some(a.gateway) && NS.Fields(b)[4] == Some(b.gateway);
  }

  /** A route token, the ip token of its interface with another gateway, and that route again. */
  function RouteIpRoute(): seq<Reading> {
    [RouteToken(OnEth0({GATEWAY_1})), IpToken(OnEth0({GATEWAY_2})), RouteToken(OnEth0({GATEWAY_2}))]
  }

  lemma {:induction false} RouteIpRouteRuns()
    ensures var rs := RouteIpRoute();
      && Run(rs).Done? && NoNameless(rs) && OnlyRepeats(rs) && Joins(rs, 1, 2)
      && WritesTo(rs, 0, FileName("eth0")) && Gathered(rs, 0).routes == {GATEWAY_1}
  {
    var rs := RouteIpRoute();
    assert forall j: nat :: j < |rs| ==> CleanAt(rs, j);
    RunIsGrouping(rs);
    assert Joins(rs, 1, 2);
    assert forall i: nat :: !Joins(rs, i, 0);
  }

  /** The last route joins the ip token, nothing is freed, and still some walk leaves the route
      in no file: the first route keeps a network of its own, written to the same file. */
  lemma {:induction false} JoinedRouteLost(walks: seq<Walk>, show: Printer)
    requires show(GATEWAY_1.gw) != show(GATEWAY_2.gw)
    requires var nets := Run(RouteIpRoute());
      nets.Done? && |walks| == |nets.value.nets| && forall p :: 0 <= p < |walks| ==> Walks(walks[p], nets.value.nets[p])
    ensures var outs := Outputs(Run(RouteIpRoute()).value, walks, show);
      exists order :: Order(order, |outs|) && !LeftIn(outs, order, FileName("eth0"), RouteText(show, GATEWAY_2))
  {
    var rs := RouteIpRoute();
    RouteIpRouteRuns();
    GatewaysPrintApart(show);
    assert !Prints(Gathered(rs, 0), show, GATEWAY_2);
    RouteReachesFile(rs, 1, 2, GATEWAY_2, walks, show);
  }

  /** Two route tokens of one interface. */
  function TwoRoutes(): seq<Reading> {
    [RouteToken(OnEth0({GATEWAY_1})), RouteToken(OnEth0({GATEWAY_2}))]
  }

  lemma {:induction false} TwoRoutesRun()
    ensures Run(TwoRoutes()) ==
      Done(START.(nets := [OnEth0({GATEWAY_1}).(dracut := true), OnEth0({GATEWAY_2}).(dracut := true)]))
  {
    var rs := TwoRoutes();
    var first, second := OnEth0({GATEWAY_1}).(dracut := true), OnEth0({GATEWAY_2}).(dracut := true);
    assert rs[..1] == [rs[0]] && rs[..1][..0] == [];
    assert [] + [first] == [first] && [first] + [second] == [first, second];
    assert Run(rs[..1]) == Apply(START, rs[0]) == Done(START.(nets := [first]));
    assert Run(rs) == Apply(START.(nets := [first]), rs[1]);
  }

  lemma {:induction false} RouteTellsApart(a: Net, b: Net, show: Printer, v: Walk, w: Walk, r: Route)
    requires a.ifname.Some? && Walks(v, a) && b.ifname.Some? && Walks(w, b)
    requires Prints(a, show, r) && !Prints(b, show, r)
    ensures FileOf(a, show, v) != FileOf(b, show, w)
  {
    RouteInFile(a, show, v, r);
    RouteInFile(b, show, w, r);
  }

  /** Two outputs of one name: the second is the file. */
  lemma {:induction false} SecondKept(outs: seq<Output>)
    requires |outs| == 2 && outs[0].Some? && outs[1].Some? && outs[0].value.0 == outs[1].value.0
    ensures Generated(outs).Done? && outs[0].value.0 in Generated(outs).value
    ensures Generated(outs).value[outs[0].value.0] == outs[1].value.1
  {
    GeneratedNamed(outs);
    LastGeneratedWins(outs, 1);
  }

  /** Where two networks of one interface are all there is and only the first has a route that
      prints so, the first one's file is not kept. */
  lemma {:induction false} FirstNotKept(st: State, walks: seq<Walk>, show: Printer, r: Route)
    requires |st.nets| == |walks| == 2 && st.lent == {}
    requires Walks(walks[0], st.nets[0]) && Walks(walks[1], st.nets[1])
    requires st.nets[0].ifname.Some? && st.nets[0].ifname == st.nets[1].ifname
    requires Prints(st.nets[0], show, r) && !Prints(st.nets[1], show, r)
    ensures var outs := Outputs(st, walks, show);
      && Generated(outs).Done? && |outs| == 2 && outs[0].Some? && outs[1].Some? && outs[0].value.0 == outs[1].value.0
      && outs[0].value.0 in Generated(outs).value && Generated(outs).value[outs[0].value.0] != outs[0].value.1
  {
    var outs := Outputs(st, walks, show);
    assert outs[0] == OutputOf(st.nets[0], show, walks[0]) && outs[1] == OutputOf(st.nets[1], show, walks[1]);
    RouteTellsApart(st.nets[0], st.nets[1], show, walks[0], walks[1], r);
    SecondKept(outs);
  }

  lemma {:induction false} FirstPrints(show: Printer)
    requires show(GATEWAY_1.gw) != show(GATEWAY_2.gw)
    ensures Prints(OnEth0({GATEWAY_1}).(dracut := true), show, GATEWAY_1)
    ensures !Prints(OnEth0({GATEWAY_2}).(dracut := true), show, GATEWAY_1)
  {
    GatewaysPrintApart(show);
    assert GATEWAY_1 in OnEth0({GATEWAY_1}).routes;
  }

  /** Their networks share a file, and the first one written is not kept. */
  lemma {:induction false} OneOfTwoKept(walks: seq<Walk>, show: Printer)
    requires show(GATEWAY_1.gw) != show(GATEWAY_2.gw)
    requires var st := Run(TwoRoutes());
      st.Done? && |walks| == |st.value.nets| && forall p :: 0 <= p < |walks| ==> Walks(walks[p], st.value.nets[p])
    ensures var outs := Outputs(Run(TwoRoutes()).value, walks, show);
      && Generated(outs).Done? && |outs| == 2 && outs[0].Some? && outs[1].Some? && outs[0].value.0 == outs[1].value.0
      && outs[0].value.0 in Generated(outs).value && Generated(outs).value[outs[0].value.0] != outs[0].value.1
  {
    TwoRoutesRun();
    FirstPrints(show);
    FirstNotKept(Run(TwoRoutes()).value, walks, show, GATEWAY_1);
  }
}
