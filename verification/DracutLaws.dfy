/** What follows from the grouping: route conservation, name servers, ownership of routes and
    what the configuration generator can do with the result. */
module DracutLaws {
  import opened Wrappers
  import opened Addresses
  import opened DracutTokens
  import opened DracutRun
  import opened DracutGrouping

  // ------------------------------------------------------- loop boundaries

  /** At every loop boundary of a successful run the state is the one for the tokens read so
      far; in particular the index names each ip network once and points at it. */
  lemma {:induction false} LoopBoundary(rs: seq<Reading>, k: nat)
    requires k <= |rs| && Run(rs).Done?
    ensures Run(rs[..k]).Done? && Represents(rs[..k], Run(rs[..k]).value)
    ensures var st := Run(rs[..k]).value;
      && (forall name :: name in st.index ==>
            st.index[name] < |st.nets| && st.nets[st.index[name]].ifname == Some(name)
                && st.nets[st.index[name]].dracut)
      && (forall a, b :: a in st.index && b in st.index && st.index[a] == st.index[b] ==> a == b)
  {
    if !Run(rs[..k]).Done? {
      RunStops(rs, k);
    }
    var seen := rs[..k];
    RunIsGrouping(seen);
    var st := Run(seen).value;
    forall name | name in st.index
      ensures st.index[name] < |st.nets| && st.nets[st.index[name]].ifname == Some(name)
        && st.nets[st.index[name]].dracut
    {
      var i: nat :| NamesIp(seen, i, name);
      GroupingAt(seen, i, |seen|);
      GatheredIp(seen, i);
    }
  }

  lemma {:induction false} GatheredIp(rs: seq<Reading>, i: nat)
    requires i < |rs| && rs[i].IpToken?
    ensures Gathered(rs, i) == rs[i].net.(
      dracut := true,
      routes := rs[i].net.routes + JoinedRoutes(rs, i),
      nameservers := AddNameservers(rs[i].net, NameserversOf(rs, i, |rs|)).nameservers)
  {
    var n := rs[i].net;
    var ips := NameserversOf(rs, i, |rs|);
    NameserversKeepRest(n.(dracut := true, routes := n.routes + JoinedRoutes(rs, i)), ips);
    NameserversOnly(n.(dracut := true, routes := n.routes + JoinedRoutes(rs, i)), n, ips);
  }

  lemma {:induction false} NameserversOnly(m: Net, n: Net, ips: seq<IPAddress>)
    requires m.nameservers == n.nameservers
    ensures AddNameservers(m, ips).nameservers == AddNameservers(n, ips).nameservers
  {
    if ips != [] {
      NameserversOnly(m, n, ips[..|ips| - 1]);
    }
  }

  // ---------------------------------------------------- route conservation

  ghost function RoutesRead(rs: seq<Reading>, j: nat): set<Route>
    requires j < |rs|
  {
    if rs[j].IpToken? || rs[j].RouteToken? then rs[j].net.routes else {}
  }

  /** Token `i` is where the routes of token `j` belong: the earlier ip token of its
      interface, else itself. */
  ghost predicate Home(rs: seq<Reading>, j: nat, i: nat) {
    Joins(rs, i, j) || (i == j && Survives(rs, j))
  }

  /** Every route-bearing token of a successful run has exactly one home, and the network of
      a home holds exactly the routes of the tokens it is home to. */
  lemma {:induction false} RouteConservation(rs: seq<Reading>)
    requires Run(rs).Done?
    ensures forall j: nat :: j < |rs| && RoutesRead(rs, j) != {} ==> exists i: nat :: Home(rs, j, i)
    ensures forall j: nat, i: nat, k: nat :: Home(rs, j, i) && Home(rs, j, k) ==> i == k
    ensures forall i: nat :: Survives(rs, i) ==> Rank(rs, i) < |Run(rs).value.nets|
    ensures forall i: nat, r :: Survives(rs, i) ==>
      (r in Run(rs).value.nets[Rank(rs, i)].routes <==>
          exists j: nat :: j < |rs| && Home(rs, j, i) && r in RoutesRead(rs, j))
  {
    RunIsGrouping(rs);
    forall j: nat | j < |rs| && RoutesRead(rs, j) != {}
      ensures exists i: nat :: Home(rs, j, i)
    {
      if Survives(rs, j) {
        assert Home(rs, j, j);
      } else {
        var i: nat :| Joins(rs, i, j);
        assert Home(rs, j, i);
      }
    }
    forall j: nat, i: nat, k: nat | Home(rs, j, i) && Home(rs, j, k)
      ensures i == k
    {
      OneHome(rs, j, i, k);
    }
    forall i: nat | Survives(rs, i)
      ensures Rank(rs, i) < |Run(rs).value.nets|
    {
      GroupingAt(rs, i, |rs|);
    }
    forall i: nat, r | Survives(rs, i)
      ensures r in Run(rs).value.nets[Rank(rs, i)].routes <==>
        exists j: nat :: j < |rs| && Home(rs, j, i) && r in RoutesRead(rs, j)
    {
      HomeRoutes(rs, i, r);
    }
  }

  lemma {:induction false} OneHome(rs: seq<Reading>, j: nat, i: nat, k: nat)
    requires Clean(rs) && Home(rs, j, i) && Home(rs, j, k)
    ensures i == k
  {
    if Joins(rs, i, j) && Joins(rs, k, j) {
      assert CleanAt(rs, i) && CleanAt(rs, k);
    }
  }

  lemma {:induction false} HomeRoutes(rs: seq<Reading>, i: nat, r: Route)
    requires Clean(rs) && Survives(rs, i)
    ensures Rank(rs, i) < |Grouping(rs, |rs|)|
    ensures r in Grouping(rs, |rs|)[Rank(rs, i)].routes <==>
      exists j: nat :: j < |rs| && Home(rs, j, i) && r in RoutesRead(rs, j)
  {
    GroupingAt(rs, i, |rs|);
    if rs[i].IpToken? {
      GatheredIp(rs, i);
    }
    if r in Gathered(rs, i).routes {
      if r in RoutesRead(rs, i) {
        assert Home(rs, i, i);
      } else {
        var j: nat :| j < |rs| && Joins(rs, i, j) && r in rs[j].net.routes;
        assert Home(rs, j, i) && r in RoutesRead(rs, j);
      }
    }
  }

  /** Every merged route repeats one of its ip token's own routes. */
  ghost predicate OnlyRepeats(rs: seq<Reading>) {
    forall i: nat, j: nat :: Joins(rs, i, j) ==> rs[j].net.routes <= rs[i].net.routes
  }

  /** The merge is meant to move routes. It does so, leaving no storage shared with a freed
      network, exactly when every merged route is a repetition. */
  lemma {:induction false} MovesExactlyWhenRepeated(rs: seq<Reading>)
    requires Run(rs).Done?
    ensures Run(rs).value.lent == {} <==> OnlyRepeats(rs)
  {
    RunIsGrouping(rs);
    var st := Run(rs).value;
    if st.lent == {} {
      forall i: nat, j: nat | Joins(rs, i, j)
        ensures rs[j].net.routes <= rs[i].net.routes
      {
        forall r | r in rs[j].net.routes
          ensures r in rs[i].net.routes
        {
          assert Lends(rs, Rank(rs, i), r) <==> (Rank(rs, i), r) in st.lent;
        }
      }
    } else {
      var e :| e in st.lent;
      assert (e.0, e.1) in st.lent;
      assert Lends(rs, e.0, e.1);
    }
  }

  /** A merged route is shared with a freed network exactly when its ip token did not have it. */
  lemma {:induction false} LentExactly(rs: seq<Reading>, i: nat, j: nat, r: Route)
    requires Run(rs).Done? && Joins(rs, i, j) && r in rs[j].net.routes
    ensures (Rank(rs, i), r) in Run(rs).value.lent <==> r !in rs[i].net.routes
  {
    RunIsGrouping(rs);
    assert LentFor(rs, Run(rs).value.lent);
    if Lends(rs, Rank(rs, i), r) {
      var a: nat, b: nat :| Joins(rs, a, b) && Rank(rs, i) == Rank(rs, a) && r in rs[b].net.routes
          && r !in rs[a].net.routes;
      RankInjective(rs, a, i);
    }
  }

  /** A route that joins a network without it is shared with a freed network. */
  lemma {:induction false} JoinedRouteShared(name: string, r: Route)
    ensures var rs := [IpToken(FRESH.(ifname := Some(name))), RouteToken(FRESH.(ifname := Some(name), routes := {r}))];
      Run(rs).Done? && |Run(rs).value.nets| == 1 && Run(rs).value.lent == {(0, r)}
  {
    var ip, route := IpToken(FRESH.(ifname := Some(name))), RouteToken(FRESH.(ifname := Some(name), routes := {r}));
    var rs := [ip, route];
    assert rs[..1] == [ip] && [ip][..0] == [];
    var st := Apply(START, ip).value;
    assert Run([ip]) == Done(st);
    assert st.nets == [FRESH.(ifname := Some(name), dracut := true)] && st.index == map[name := 0];
    assert Run(rs) == Done(Merge(st, 0, route.net));
    assert (set x | x in {r} - {} :: (0, x)) == {(0, r)};
  }

  // ---------------------------------------------------------- name servers

  ghost predicate LastWithKey(ips: seq<IPAddress>, p: nat) {
    p < |ips| && forall q :: p < q < |ips| ==> StringKey(ips[q]) != StringKey(ips[p])
  }

  /** The table ends up with, for each key, the last address added under it. */
  lemma {:induction false} NameserversLast(n: Net, ips: seq<IPAddress>, p: nat)
    requires LastWithKey(ips, p)
    ensures StringKey(ips[p]) in AddNameservers(n, ips).nameservers
    ensures AddNameservers(n, ips).nameservers[StringKey(ips[p])] == ips[p]
  {
    var init := ips[..|ips| - 1];
    if p < |ips| - 1 {
      assert LastWithKey(init, p) by {
        assert forall q :: p < q < |init| ==> init[q] == ips[q];
      }
      NameserversLast(n, init, p);
    }
  }

  lemma {:induction false} NameserversFrom(n: Net, ips: seq<IPAddress>, key: seq<Octet>)
    requires key in AddNameservers(n, ips).nameservers
    ensures var ip := AddNameservers(n, ips).nameservers[key];
      (key in n.nameservers && ip == n.nameservers[key])
          || (exists p: nat :: LastWithKey(ips, p) && ips[p] == ip && StringKey(ip) == key)
  {
    if ips != [] {
      var init, last := ips[..|ips| - 1], ips[|ips| - 1];
      if StringKey(last) == key {
        assert LastWithKey(ips, |ips| - 1);
      } else {
        NameserversFrom(n, init, key);
        var ip := AddNameservers(n, init).nameservers[key];
        if !(key in n.nameservers && ip == n.nameservers[key]) {
          var p: nat :| LastWithKey(init, p) && init[p] == ip && StringKey(ip) == key;
          StillLast(ips, p);
        }
      }
    }
  }

  lemma {:induction false} StillLast(ips: seq<IPAddress>, p: nat)
    requires ips != [] && LastWithKey(ips[..|ips| - 1], p)
    requires StringKey(ips[|ips| - 1]) != StringKey(ips[p])
    ensures LastWithKey(ips, p)
  {
    assert forall q :: p <= q < |ips| - 1 ==> ips[..|ips| - 1][q] == ips[q];
  }

  /** Every name server given to a network is kept exactly when different ones never agree
      up to their first zero byte, which is all their table compares. */
  lemma {:induction false} NameserversKeptExactly(n: Net, ips: seq<IPAddress>)
    requires n.nameservers == map[]
    ensures (forall ip :: ip in ips ==> ip in AddNameservers(n, ips).nameservers.Values)
      <==> (forall p, q :: 0 <= p < q < |ips| && StringKey(ips[p]) == StringKey(ips[q]) ==> ips[p] == ips[q])
  {
    var kept := AddNameservers(n, ips).nameservers;
    if forall ip :: ip in ips ==> ip in kept.Values {
      forall p, q | 0 <= p < q < |ips| && StringKey(ips[p]) == StringKey(ips[q])
        ensures ips[p] == ips[q]
      {
        KeyOfValue(n, ips, ips[p]);
        KeyOfValue(n, ips, ips[q]);
      }
    } else {
      var ip :| ip in ips && ip !in kept.Values;
      var p :| 0 <= p < |ips| && ips[p] == ip;
      var last := LatestKept(n, ips, p);
      assert ips[last] != ips[p];
    }
  }

  lemma {:induction false} LatestKept(n: Net, ips: seq<IPAddress>, p: nat) returns (last: nat)
    requires p < |ips|
    ensures p <= last < |ips| && StringKey(ips[last]) == StringKey(ips[p])
    ensures ips[last] in AddNameservers(n, ips).nameservers.Values
  {
    last := LatestSame(ips, p);
    NameserversLast(n, ips, last);
    assert AddNameservers(n, ips).nameservers[StringKey(ips[last])] == ips[last];
  }

  lemma {:induction false} KeyOfValue(n: Net, ips: seq<IPAddress>, ip: IPAddress)
    requires n.nameservers == map[] && ip in AddNameservers(n, ips).nameservers.Values
    ensures StringKey(ip) in AddNameservers(n, ips).nameservers
      && AddNameservers(n, ips).nameservers[StringKey(ip)] == ip
  {
    var kept := AddNameservers(n, ips).nameservers;
    var key :| key in kept && kept[key] == ip;
    NameserversFrom(n, ips, key);
  }

  /** The last position whose key equals that of position `p`. */
  lemma {:induction false} LatestSame(ips: seq<IPAddress>, p: nat) returns (last: nat)
    requires p < |ips|
    ensures p <= last && LastWithKey(ips, last) && StringKey(ips[last]) == StringKey(ips[p])
    decreases |ips| - p
  {
    if LastWithKey(ips, p) {
      last := p;
    } else {
      var q :| p < q < |ips| && StringKey(ips[q]) == StringKey(ips[p]);
      last := LatestSame(ips, q);
    }
  }

  // --------------------------------------------- what can be generated next

  /** The generator asserts that a network has an interface name. Every network of the result
      has one exactly when the command line has no `nameserver=` token and no `ip=` token
      without an interface. */
  lemma {:induction false} AllNamedExactly(rs: seq<Reading>)
    requires Run(rs).Done?
    ensures (forall p :: 0 <= p < |Run(rs).value.nets| ==> Run(rs).value.nets[p].ifname.Some?)
      <==> (forall j :: 0 <= j < |rs| ==> !rs[j].NameserverToken? && (rs[j].IpToken? ==> rs[j].net.ifname.Some?))
  {
    RunIsGrouping(rs);
    UnnamedPlaces(rs, |rs|);
    forall j: nat | j < |rs|
      ensures Unnamed(rs, j) <==> rs[j].NameserverToken? || (rs[j].IpToken? && rs[j].net.ifname.None?)
    {
      assert CleanAt(rs, j);
    }
    assert (exists j: nat :: j < |rs| && Unnamed(rs, j)) <==> HasUnnamed(Run(rs).value.nets);
  }

  /** A successful command line has at most one token that leaves a nameless network: two
      `nameserver=` tokens, or one and an `ip=` without an interface, make the call fail. */
  lemma {:induction false} OneNamelessToken(rs: seq<Reading>, i: nat, j: nat)
    requires Run(rs).Done? && i < |rs| && j < |rs|
    requires rs[i].NameserverToken? || (rs[i].IpToken? && rs[i].net.ifname.None?)
    requires rs[j].NameserverToken? || (rs[j].IpToken? && rs[j].net.ifname.None?)
    ensures i == j
  {
    RunIsGrouping(rs);
    assert CleanAt(rs, i) && CleanAt(rs, j);
    assert Unnamed(rs, i) && Unnamed(rs, j);
  }
}
