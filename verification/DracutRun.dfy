/** A whole command line run (`parse_proc_command_line` in src/dracut/dracut-parser.c) as a
    state machine over token readings, and the declarative grouping it computes. */
module DracutRun {
  import opened Wrappers
  import opened Strings
  import opened Addresses
  import opened DracutTokens

  // --------------------------------------------------------- state machine

  /** `nets` is the owning table in insertion order, `index` the table by interface name and
      `current` the network pointer, both as positions in `nets`. `lent` records the routes a
      network in the table took over from a network that still held them when it was freed. */
  datatype State = State(
    nets: seq<Net>,
    index: map<string, nat>,
    current: Option<nat>,
    lent: set<(nat, Route)>)

  const START := State([], map[], None, {})

  ghost predicate Valid(st: State) {
    && (forall name :: name in st.index ==> st.index[name] < |st.nets|)
    && (st.current.Some? ==> st.current.value < |st.nets|)
  }

  /** The owning table hashes a network by its first word, the interface name pointer: two
      networks without a name are the same key, two names never are. */
  predicate HasUnnamed(nets: seq<Net>) {
    exists p :: 0 <= p < |nets| && nets[p].ifname.None?
  }

  function Insert(st: State, n: Net): Outcome<State> {
    if n.ifname.None? && HasUnnamed(st.nets) then Failed(EINVAL)
    else Done(st.(nets := st.nets + [n.(dracut := true)]))
  }

  function Update(nets: seq<Net>, p: nat, n: Net): seq<Net>
    requires p < |nets|
  {
    nets[p := n]
  }

  /** `merge_network`: every route enters the table of network `p`; the ones new to it also
      stay in the source, which is freed. */
  function Merge(st: State, p: nat, n: Net): State
    requires p < |st.nets|
  {
    var v := st.nets[p];
    st.(nets := Update(st.nets, p, v.(routes := v.routes + n.routes)),
        lent := st.lent + (set r | r in n.routes - v.routes :: (p, r)))
  }

  /** One turn of the token loop. */
  function Apply(st: State, rd: Reading): Outcome<State>
    requires Valid(st)
  {
    match rd
    case BadToken(Crash) => Crashed
    case BadToken(Error(e)) => Failed(e)
    case BadToken(Success) => Crashed
    case OtherToken => Done(st)
    case IpToken(n) =>
      if n.ifname.Some? && n.ifname.value in st.index then Failed(ENOMEM)
      else
        var here := |st.nets|;
        Insert(st.(current := Some(here),
                   index := if n.ifname.Some? then st.index[n.ifname.value := here] else st.index), n)
    case RouteToken(n) =>
      if n.ifname.None? then Crashed  // a null key is looked up
      else if n.ifname.value in st.index then Done(Merge(st, st.index[n.ifname.value], n))
      else Insert(st, n)
    case NameserverToken(a) =>
      if st.current.None? then Insert(st, FRESH)
      else
        match a
        case Failed(e) => Failed(e)
        case Crashed => Crashed
        case Done(ip) =>
          var p := st.current.value;
          Insert(st.(nets := Update(st.nets, p, st.nets[p].AddNameserver(ip))), FRESH)
  }

  /** The loop, over all but the last token and then the last. */
  ghost function Run(rs: seq<Reading>): (r: Outcome<State>)
    ensures r.Done? ==> Valid(r.value)
  {
    if rs == [] then Done(START)
    else
      match Run(rs[..|rs| - 1])
      case Failed(e) => Failed(e)
      case Crashed => Crashed
      case Done(st) => Apply(st, rs[|rs| - 1])
  }

  lemma {:induction false} RunStops(rs: seq<Reading>, k: nat)
    requires k <= |rs| && !Run(rs[..k]).Done?
    ensures Run(rs) == Run(rs[..k])
  {
    if k == |rs| {
      assert rs[..k] == rs;
    } else {
      assert rs[..|rs| - 1][..k] == rs[..k];
      RunStops(rs[..|rs| - 1], k);
    }
  }

  ghost function ParseCommandLine(lib: Libc, line: string): Outcome<seq<Net>> {
    match Run(ReadAll(lib, Split(line, ' ', 0)))
    case Done(st) => Done(st.nets)
    case Failed(e) => Failed(e)
    case Crashed => Crashed
  }

  // --------------------------------------------------- declarative grouping

  ghost predicate NamesIp(rs: seq<Reading>, i: nat, name: string) {
    i < |rs| && rs[i].IpToken? && rs[i].net.ifname == Some(name)
  }

  /** Route token `j` belongs to the earlier ip token `i` of its interface. */
  ghost predicate Joins(rs: seq<Reading>, i: nat, j: nat) {
    && i < j < |rs|
    && rs[j].RouteToken? && rs[j].net.ifname.Some?
    && NamesIp(rs, i, rs[j].net.ifname.value)
  }

  /** Ip token `i` is the latest one before position `j`. */
  ghost predicate LatestIp(rs: seq<Reading>, i: nat, j: nat) {
    && i < j <= |rs| && rs[i].IpToken?
    && forall m :: i < m < j ==> !rs[m].IpToken?
  }

  /** Token `j` leaves a network of its own in the result. */
  ghost predicate Survives(rs: seq<Reading>, j: nat) {
    && j < |rs|
    && match rs[j] {
         case IpToken(_) => true
         case NameserverToken(_) => true
         case RouteToken(_) => !exists i: nat :: Joins(rs, i, j)
         case _ => false
       }
  }

  ghost predicate Unnamed(rs: seq<Reading>, j: nat) {
    Survives(rs, j) && (rs[j].NameserverToken? || rs[j].net.ifname.None?)
  }

  ghost function JoinedRoutes(rs: seq<Reading>, i: nat): set<Route> {
    set j: nat, r | j < |rs| && Joins(rs, i, j) && r in rs[j].net.routes :: r
  }

  /** The name servers that tokens `i + 1 .. k` give to ip token `i`, in order. */
  ghost function NameserversOf(rs: seq<Reading>, i: nat, k: nat): seq<IPAddress>
    requires k <= |rs|
  {
    if k == 0 then []
    else
      NameserversOf(rs, i, k - 1) +
      (if LatestIp(rs, i, k - 1) && rs[k - 1].NameserverToken? && rs[k - 1].address.Done?
       then [rs[k - 1].address.value] else [])
  }

  /** `set_add` for a list of addresses. */
  ghost function AddNameservers(n: Net, ips: seq<IPAddress>): Net {
    if ips == [] then n
    else AddNameservers(n, ips[..|ips| - 1]).AddNameserver(ips[|ips| - 1])
  }

  /** The network token `i` stands for once all of `rs` has been read. */
  ghost function Gathered(rs: seq<Reading>, i: nat): Net
    requires Survives(rs, i)
  {
    match rs[i]
    case NameserverToken(_) => FRESH.(dracut := true)
    case RouteToken(n) => n.(dracut := true)
    case IpToken(n) =>
      AddNameservers(n.(dracut := true, routes := n.routes + JoinedRoutes(rs, i)),
                     NameserversOf(rs, i, |rs|))
  }

  /** The gathered networks of the first `k` tokens, in token order. */
  ghost function Grouping(rs: seq<Reading>, k: nat): (g: seq<Net>)
    requires k <= |rs|
  {
    if k == 0 then []
    else Grouping(rs, k - 1) + (if Survives(rs, k - 1) then [Gathered(rs, k - 1)] else [])
  }

  /** Where the network of token `i` stands in the result. */
  ghost function Rank(rs: seq<Reading>, i: nat): (p: nat)
    requires i <= |rs|
    ensures p <= i
  {
    if i == 0 then 0 else Rank(rs, i - 1) + (if Survives(rs, i - 1) then 1 else 0)
  }

  /** Token `j` can be taken after the tokens before it. */
  ghost predicate CleanAt(rs: seq<Reading>, j: nat)
    requires j < |rs|
  {
    match rs[j]
    case BadToken(_) => false
    case OtherToken => true
    case RouteToken(n) => n.ifname.Some?
    case IpToken(n) =>
      if n.ifname.Some? then !exists i: nat :: i < j && NamesIp(rs, i, n.ifname.value)
      else !exists i: nat :: i < j && Unnamed(rs, i)
    case NameserverToken(a) =>
      && ((exists i: nat :: LatestIp(rs, i, j)) ==> a.Done?)
      && !exists i: nat :: i < j && Unnamed(rs, i)
  }

  ghost predicate Clean(rs: seq<Reading>) {
    forall j: nat :: j < |rs| ==> CleanAt(rs, j)
  }

  /** The routes whose storage a surviving network shares with a freed one. */
  ghost predicate Lends(rs: seq<Reading>, p: nat, r: Route) {
    exists i: nat, j: nat :: Joins(rs, i, j) && p == Rank(rs, i) && r in rs[j].net.routes && r !in rs[i].net.routes
  }

  ghost predicate IndexFor(rs: seq<Reading>, index: map<string, nat>) {
    && (forall name :: name in index ==> exists i: nat :: NamesIp(rs, i, name))
    && (forall i: nat, name :: NamesIp(rs, i, name) ==> name in index && index[name] == Rank(rs, i))
  }

  ghost predicate CurrentFor(rs: seq<Reading>, current: Option<nat>) {
    && (current.Some? ==> exists i: nat :: LatestIp(rs, i, |rs|))
    && (forall i: nat :: LatestIp(rs, i, |rs|) ==> current == Some(Rank(rs, i)))
  }

  ghost predicate LentFor(rs: seq<Reading>, lent: set<(nat, Route)>) {
    forall p: nat, r :: (p, r) in lent <==> Lends(rs, p, r)
  }

  /** What the state must be after reading exactly `rs`: the table is the grouping, the index
      holds exactly the named ip networks under their names, the pointer is at the latest ip
      network, and the ledger holds exactly the shared routes. */
  ghost predicate Represents(rs: seq<Reading>, st: State) {
    && st.nets == Grouping(rs, |rs|)
    && IndexFor(rs, st.index)
    && CurrentFor(rs, st.current)
    && LentFor(rs, st.lent)
  }
}
