/** The run of `parse_proc_command_line` computes the declarative grouping of its tokens. */
module DracutGrouping {
  import opened Wrappers
  import opened Addresses
  import opened DracutTokens
  import opened DracutRun

  // ------------------------------------------------------ ranks and places

  lemma {:induction false} RankStep(rs: seq<Reading>, i: nat, k: nat)
    requires i < k <= |rs| && Survives(rs, i)
    ensures Rank(rs, i) < Rank(rs, k)
    decreases k
  {
    if k > i + 1 {
      RankStep(rs, i, k - 1);
    }
  }

  lemma {:induction false} RankInjective(rs: seq<Reading>, i: nat, j: nat)
    requires Survives(rs, i) && Survives(rs, j) && Rank(rs, i) == Rank(rs, j)
    ensures i == j
  {
    if i < j {
      RankStep(rs, i, j);
    } else if j < i {
      RankStep(rs, j, i);
    }
  }

  /** Each surviving token's network stands at its rank. */
  lemma {:induction false} GroupingAt(rs: seq<Reading>, i: nat, k: nat)
    requires k <= |rs|
    ensures |Grouping(rs, k)| == Rank(rs, k)
    ensures i < k && Survives(rs, i) ==>
      Rank(rs, i) < Rank(rs, k) && Grouping(rs, k)[Rank(rs, i)] == Gathered(rs, i)
  {
    if k > 0 {
      GroupingAt(rs, i, k - 1);
    }
  }

  lemma {:induction false} NameserversKeepRest(n: Net, ips: seq<IPAddress>)
    ensures AddNameservers(n, ips) == n.(nameservers := AddNameservers(n, ips).nameservers)
  {
    if ips != [] {
      NameserversKeepRest(n, ips[..|ips| - 1]);
    }
  }

  lemma {:induction false} UnnamedPlaces(rs: seq<Reading>, k: nat)
    requires k <= |rs|
    ensures HasUnnamed(Grouping(rs, k)) <==> exists i: nat :: i < k && Unnamed(rs, i)
  {
    if k > 0 {
      UnnamedPlaces(rs, k - 1);
      assert (exists i: nat :: i < k && Unnamed(rs, i)) <==>
          (exists i: nat :: i < k - 1 && Unnamed(rs, i)) || Unnamed(rs, k - 1);
      var g := Grouping(rs, k - 1);
      assert g + [] == g;
      if Survives(rs, k - 1) {
        var n := Gathered(rs, k - 1);
        if rs[k - 1].IpToken? {
          var m := rs[k - 1].net;
          NameserversKeepRest(m.(dracut := true, routes := m.routes + JoinedRoutes(rs, k - 1)),
              NameserversOf(rs, k - 1, |rs|));
        }
        assert n.ifname.None? <==> Unnamed(rs, k - 1);
        HasUnnamedSnoc(g, n);
      }
    }
  }

  lemma {:induction false} HasUnnamedSnoc(g: seq<Net>, n: Net)
    ensures HasUnnamed(g + [n]) <==> HasUnnamed(g) || n.ifname.None?
  {
    if HasUnnamed(g) {
      var p :| 0 <= p < |g| && g[p].ifname.None?;
      assert (g + [n])[p].ifname.None?;
    }
    if n.ifname.None? {
      assert (g + [n])[|g|].ifname.None?;
    }
  }

  // ------------------------------------------------- one more token at the end

  /** What the earlier tokens mean does not depend on a later one. */
  lemma {:induction false} Stable(rs: seq<Reading>, x: Reading)
    ensures forall i: nat, name :: i < |rs| ==> NamesIp(rs + [x], i, name) == NamesIp(rs, i, name)
    ensures forall i: nat, j: nat :: j < |rs| ==> Joins(rs + [x], i, j) == Joins(rs, i, j)
    ensures forall i: nat, j: nat :: j <= |rs| ==> LatestIp(rs + [x], i, j) == LatestIp(rs, i, j)
    ensures forall j: nat :: j < |rs| ==> Survives(rs + [x], j) == Survives(rs, j)
    ensures forall j: nat :: j < |rs| ==> Unnamed(rs + [x], j) == Unnamed(rs, j)
  {
    var all := rs + [x];
    forall i: nat, j: nat | j <= |rs|
      ensures LatestIp(all, i, j) == LatestIp(rs, i, j)
    {
      assert forall m :: i <= m < j ==> all[m] == rs[m];
    }
  }

  lemma {:induction false} StableRank(rs: seq<Reading>, x: Reading, i: nat)
    requires i <= |rs|
    ensures Rank(rs + [x], i) == Rank(rs, i)
  {
    Stable(rs, x);
    if i > 0 {
      StableRank(rs, x, i - 1);
    }
  }

  lemma {:induction false} StableNameservers(rs: seq<Reading>, x: Reading, i: nat, k: nat)
    requires k <= |rs|
    ensures NameserversOf(rs + [x], i, k) == NameserversOf(rs, i, k)
  {
    Stable(rs, x);
    if k > 0 {
      StableNameservers(rs, x, i, k - 1);
    }
  }

  lemma {:induction false} StableClean(rs: seq<Reading>, x: Reading)
    ensures Clean(rs + [x]) <==> Clean(rs) && CleanAt(rs + [x], |rs|)
  {
    Stable(rs, x);
    forall j: nat | j < |rs|
      ensures CleanAt(rs + [x], j) == CleanAt(rs, j)
    {
      assert (rs + [x])[j] == rs[j];
    }
  }

  lemma {:induction false} JoinedRoutesSnoc(rs: seq<Reading>, x: Reading, i: nat)
    requires i < |rs|
    ensures JoinedRoutes(rs + [x], i) ==
      JoinedRoutes(rs, i) + (if Joins(rs + [x], i, |rs|) then x.net.routes else {})
  {
    Stable(rs, x);
    var all := rs + [x];
    forall r | r in JoinedRoutes(all, i)
      ensures r in JoinedRoutes(rs, i) || (Joins(all, i, |rs|) && r in x.net.routes)
    {
      var j: nat :| j < |all| && Joins(all, i, j) && r in all[j].net.routes;
      if j < |rs| {
        assert Joins(rs, i, j) && r in rs[j].net.routes;
      }
    }
    forall r | r in JoinedRoutes(rs, i)
      ensures r in JoinedRoutes(all, i)
    {
      var j: nat :| j < |rs| && Joins(rs, i, j) && r in rs[j].net.routes;
      assert Joins(all, i, j) && r in all[j].net.routes;
    }
    if Joins(all, i, |rs|) {
      assert all[|rs|] == x;
    }
  }

  lemma {:induction false} NameserversRoutesCommute(n: Net, routes: set<Route>, ips: seq<IPAddress>)
    ensures AddNameservers(n.(routes := routes), ips) == AddNameservers(n, ips).(routes := routes)
  {
    if ips != [] {
      NameserversRoutesCommute(n, routes, ips[..|ips| - 1]);
    }
  }

  /** What one more token adds to the network of an earlier one. */
  function Extended(g: Net, x: Reading, joins: bool, latest: bool): Net {
    if joins && x.RouteToken? then g.(routes := g.routes + x.net.routes)
    else if latest && x.NameserverToken? && x.address.Done? then g.AddNameserver(x.address.value)
    else g
  }

  lemma {:induction false} GatheredSnoc(rs: seq<Reading>, x: Reading, i: nat)
    requires Survives(rs, i)
    ensures Survives(rs + [x], i)
    ensures Gathered(rs + [x], i) ==
      Extended(Gathered(rs, i), x, Joins(rs + [x], i, |rs|), LatestIp(rs, i, |rs|))
  {
    Stable(rs, x);
    var all := rs + [x];
    assert all[i] == rs[i];
    if rs[i].IpToken? {
      var n := rs[i].net;
      var base := n.(dracut := true, routes := n.routes + JoinedRoutes(rs, i));
      var ips := NameserversOf(rs, i, |rs|);
      StableNameservers(rs, x, i, |rs|);
      JoinedRoutesSnoc(rs, x, i);
      NameserversKeepRest(base, ips);
      if Joins(all, i, |rs|) {
        assert all[|rs|] == x;
        assert NameserversOf(all, i, |all|) == ips;
        NameserversRoutesCommute(base, base.routes + x.net.routes, ips);
        assert n.routes + JoinedRoutes(all, i) == base.routes + x.net.routes;
      } else {
        assert n.routes + JoinedRoutes(all, i) == base.routes;
        if LatestIp(rs, i, |rs|) && x.NameserverToken? && x.address.Done? {
          assert NameserversOf(all, i, |all|) == ips + [x.address.value];
          assert (ips + [x.address.value])[..|ips|] == ips;
        } else {
          assert NameserversOf(all, i, |all|) == ips;
        }
      }
    }
  }

  /** Token `x` gives nothing to the network of token `m`. */
  ghost predicate Untouched(rs: seq<Reading>, x: Reading, m: nat) {
    && !(x.RouteToken? && Joins(rs + [x], m, |rs|))
    && !(x.NameserverToken? && x.address.Done? && LatestIp(rs, m, |rs|))
  }

  /** What token `j` adds to the grouping: its network, or nothing. */
  ghost function Part(rs: seq<Reading>, j: nat): seq<Net> {
    if Survives(rs, j) then [Gathered(rs, j)] else []
  }

  ghost function Parts(rs: seq<Reading>, k: nat): (ps: seq<seq<Net>>)
    ensures |ps| == k && forall j :: 0 <= j < k ==> ps[j] == Part(rs, j)
  {
    seq(k, (j: nat) => Part(rs, j))
  }

  ghost function Flat(ps: seq<seq<Net>>): seq<Net> {
    if ps == [] then [] else Flat(ps[..|ps| - 1]) + ps[|ps| - 1]
  }

  lemma {:induction false} FlatSnoc(ps: seq<seq<Net>>, q: seq<Net>)
    ensures Flat(ps + [q]) == Flat(ps) + q
  {
    assert (ps + [q])[..|ps|] == ps;
  }

  lemma {:induction false} PartsSnoc(rs: seq<Reading>, k: nat)
    ensures Parts(rs, k + 1) == Parts(rs, k) + [Part(rs, k)]
  {
  }

  lemma {:induction false} GroupingIsFlat(rs: seq<Reading>, k: nat)
    requires k <= |rs|
    ensures Grouping(rs, k) == Flat(Parts(rs, k))
  {
    if k > 0 {
      GroupingIsFlat(rs, k - 1);
      PartsSnoc(rs, k - 1);
      FlatSnoc(Parts(rs, k - 1), Part(rs, k - 1));
    }
  }

  lemma {:induction false} FlatUpdate(ps: seq<seq<Net>>, i: nat, n: Net, m: Net)
    requires i < |ps| && ps[i] == [n]
    ensures |Flat(ps[..i])| < |Flat(ps)|
    ensures Flat(ps[i := [m]]) == Update(Flat(ps), |Flat(ps[..i])|, m)
  {
    var init, last := ps[..|ps| - 1], ps[|ps| - 1];
    if i == |ps| - 1 {
      assert ps[i := [m]] == init + [[m]];
      FlatSnoc(init, [m]);
    } else {
      FlatUpdate(init, i, n, m);
      assert ps[i := [m]] == init[i := [m]] + [last];
      assert init[..i] == ps[..i];
      FlatSnoc(init[i := [m]], last);
    }
  }

  lemma {:induction false} PartKept(rs: seq<Reading>, x: Reading, m: nat)
    requires m < |rs| && (Survives(rs, m) ==> Untouched(rs, x, m))
    ensures Part(rs + [x], m) == Part(rs, m)
  {
    Stable(rs, x);
    if Survives(rs, m) {
      GatheredSnoc(rs, x, m);
    }
  }

  lemma {:induction false} GroupingUnchanged(rs: seq<Reading>, x: Reading, k: nat)
    requires k <= |rs|
    requires forall m: nat :: m < k && Survives(rs, m) ==> Untouched(rs, x, m)
    ensures Grouping(rs + [x], k) == Grouping(rs, k)
  {
    forall m: nat | m < k
      ensures Part(rs + [x], m) == Part(rs, m)
    {
      PartKept(rs, x, m);
    }
    assert Parts(rs + [x], k) == Parts(rs, k);
    GroupingIsFlat(rs, k);
    GroupingIsFlat(rs + [x], k);
  }

  /** If only the network of token `i` changes, only its place in the grouping changes. */
  lemma {:induction false} GroupingOneChange(rs: seq<Reading>, x: Reading, i: nat)
    requires i < |rs| && Survives(rs, i)
    requires forall m: nat :: m < |rs| && m != i && Survives(rs, m) ==> Untouched(rs, x, m)
    ensures Survives(rs + [x], i) && Rank(rs, i) < |Grouping(rs, |rs|)|
    ensures Grouping(rs + [x], |rs|) == Update(Grouping(rs, |rs|), Rank(rs, i), Gathered(rs + [x], i))
  {
    SurvivesStable(rs, x, i);
    PartsChanged(rs, x, i, Gathered(rs + [x], i));
    RankIsFlat(rs, i);
    FlatUpdate(Parts(rs, |rs|), i, Gathered(rs, i), Gathered(rs + [x], i));
    GroupingIsFlat(rs, |rs|);
    GroupingIsFlat(rs + [x], |rs|);
  }

  lemma {:induction false} PartsChanged(rs: seq<Reading>, x: Reading, i: nat, n: Net)
    requires i < |rs| && Part(rs + [x], i) == [n]
    requires forall m: nat :: m < |rs| && m != i && Survives(rs, m) ==> Untouched(rs, x, m)
    ensures Parts(rs + [x], |rs|) == Parts(rs, |rs|)[i := [n]]
  {
    forall m: nat | m < |rs| && m != i
      ensures Part(rs + [x], m) == Part(rs, m)
    {
      PartKept(rs, x, m);
    }
  }

  lemma {:induction false} RankIsFlat(rs: seq<Reading>, i: nat)
    requires i <= |rs|
    ensures Rank(rs, i) == |Flat(Parts(rs, |rs|)[..i])|
  {
    GroupingAt(rs, 0, i);
    GroupingIsFlat(rs, i);
    assert Parts(rs, |rs|)[..i] == Parts(rs, i);
  }

  lemma {:induction false} SurvivesStable(rs: seq<Reading>, x: Reading, i: nat)
    requires Survives(rs, i)
    ensures Survives(rs + [x], i)
  {
    Stable(rs, x);
  }

  // ---------------------------------------------------------- step by step

  lemma {:induction false} LendsSnoc(rs: seq<Reading>, x: Reading, p: nat, r: Route)
    ensures Lends(rs + [x], p, r) <==>
      || Lends(rs, p, r)
      || exists i: nat :: Joins(rs + [x], i, |rs|) && p == Rank(rs, i) && r in x.net.routes && r !in rs[i].net.routes
  {
    Stable(rs, x);
    var all := rs + [x];
    if Lends(all, p, r) {
      var i: nat, j: nat :| Joins(all, i, j) && p == Rank(all, i) && r in all[j].net.routes && r !in all[i].net.routes;
      StableRank(rs, x, i);
      assert all[i] == rs[i];
      if j < |rs| {
        assert Joins(rs, i, j) && r in rs[j].net.routes;
      } else {
        assert Joins(all, i, |rs|) && all[j] == x;
      }
    }
    if Lends(rs, p, r) {
      var i: nat, j: nat :| Joins(rs, i, j) && p == Rank(rs, i) && r in rs[j].net.routes && r !in rs[i].net.routes;
      StableRank(rs, x, i);
      assert Joins(all, i, j) && all[j] == rs[j] && all[i] == rs[i];
    }
    forall i: nat | Joins(all, i, |rs|) && p == Rank(rs, i) && r in x.net.routes && r !in rs[i].net.routes
      ensures Lends(all, p, r)
    {
      StableRank(rs, x, i);
      assert all[|rs|] == x && all[i] == rs[i];
    }
  }

  lemma {:induction false} LatestSnoc(rs: seq<Reading>, x: Reading, i: nat)
    ensures LatestIp(rs + [x], i, |rs| + 1) <==>
      if x.IpToken? then i == |rs| else LatestIp(rs, i, |rs|)
  {
    var all := rs + [x];
    assert all[|rs|] == x;
    assert forall m :: 0 <= m < |rs| ==> all[m] == rs[m];
  }

  lemma {:induction false} IndexKept(rs: seq<Reading>, x: Reading, index: map<string, nat>)
    requires IndexFor(rs, index) && !x.IpToken?
    ensures IndexFor(rs + [x], index)
  {
    var all := rs + [x];
    assert all[|rs|] == x;
    forall name | name in index
      ensures exists i: nat :: NamesIp(all, i, name)
    {
      var i: nat :| NamesIp(rs, i, name);
      assert NamesIp(all, i, name);
    }
    forall i: nat, name | NamesIp(all, i, name)
      ensures name in index && index[name] == Rank(all, i)
    {
      assert NamesIp(rs, i, name);
      StableRank(rs, x, i);
    }
  }

  lemma {:induction false} IndexExtended(rs: seq<Reading>, n: Net, index: map<string, nat>)
    requires IndexFor(rs, index) && (n.ifname.Some? ==> n.ifname.value !in index)
    ensures IndexFor(rs + [IpToken(n)], if n.ifname.Some? then index[n.ifname.value := Rank(rs, |rs|)] else index)
  {
    var x := IpToken(n);
    var all := rs + [x];
    var index' := if n.ifname.Some? then index[n.ifname.value := Rank(rs, |rs|)] else index;
    assert all[|rs|] == x;
    forall name | name in index'
      ensures exists i: nat :: NamesIp(all, i, name)
    {
      if n.ifname == Some(name) {
        assert NamesIp(all, |rs|, name);
      } else {
        var i: nat :| NamesIp(rs, i, name);
        assert NamesIp(all, i, name);
      }
    }
    forall i: nat, name | NamesIp(all, i, name)
      ensures name in index' && index'[name] == Rank(all, i)
    {
      StableRank(rs, x, i);
      if i < |rs| {
        assert NamesIp(rs, i, name);
      }
    }
  }

  lemma {:induction false} CurrentKept(rs: seq<Reading>, x: Reading, current: Option<nat>)
    requires CurrentFor(rs, current) && !x.IpToken?
    ensures CurrentFor(rs + [x], current)
  {
    if current.Some? {
      var i: nat :| LatestIp(rs, i, |rs|);
      LatestSnoc(rs, x, i);
    }
    forall i: nat | LatestIp(rs + [x], i, |rs| + 1)
      ensures current == Some(Rank(rs + [x], i))
    {
      LatestSnoc(rs, x, i);
      StableRank(rs, x, i);
    }
  }

  lemma {:induction false} CurrentMoved(rs: seq<Reading>, n: Net)
    ensures CurrentFor(rs + [IpToken(n)], Some(Rank(rs, |rs|)))
  {
    var x := IpToken(n);
    LatestSnoc(rs, x, |rs|);
    StableRank(rs, x, |rs|);
    var all := rs + [x];
    forall i: nat
      ensures LatestIp(all, i, |all|) ==> i == |rs|
    {
      LatestSnoc(rs, x, i);
    }
  }

  lemma {:induction false} LentKept(rs: seq<Reading>, x: Reading, lent: set<(nat, Route)>)
    requires LentFor(rs, lent)
    requires forall i: nat :: !Joins(rs + [x], i, |rs|)
    ensures LentFor(rs + [x], lent)
  {
    forall p: nat, r
      ensures (p, r) in lent <==> Lends(rs + [x], p, r)
    {
      LendsSnoc(rs, x, p, r);
    }
  }

  lemma {:induction false} StepOther(rs: seq<Reading>, st: State)
    requires Represents(rs, st)
    ensures Represents(rs + [OtherToken], st)
  {
    var x := OtherToken;
    assert (rs + [x])[|rs|] == x;
    GroupingUnchanged(rs, x, |rs|);
    IndexKept(rs, x, st.index);
    CurrentKept(rs, x, st.current);
    LentKept(rs, x, st.lent);
  }

  lemma {:induction false} StepRouteAlone(rs: seq<Reading>, st: State, n: Net)
    requires Represents(rs, st) && Valid(st)
    requires n.ifname.Some? && n.ifname.value !in st.index
    ensures Apply(st, RouteToken(n)).Done?
    ensures Represents(rs + [RouteToken(n)], Apply(st, RouteToken(n)).value)
  {
    var x := RouteToken(n);
    var all := rs + [x];
    Stable(rs, x);
    assert all[|rs|] == x;
    var name := n.ifname.value;
    assert forall i: nat :: Joins(all, i, |rs|) ==> NamesIp(rs, i, name);
    GroupingUnchanged(rs, x, |rs|);
    IndexKept(rs, x, st.index);
    CurrentKept(rs, x, st.current);
    LentKept(rs, x, st.lent);
    assert Gathered(all, |rs|) == n.(dracut := true);
  }

  lemma {:induction false} StepRouteJoin(rs: seq<Reading>, st: State, n: Net)
    requires Represents(rs, st) && Valid(st)
    requires n.ifname.Some? && n.ifname.value in st.index
    ensures Represents(rs + [RouteToken(n)], Apply(st, RouteToken(n)).value)
  {
    MergeGrouped(rs, st, n);
    JoinApplied(st, n);
    MergeRepresents(rs, st, RouteToken(n), Merge(st, st.index[n.ifname.value], n));
  }

  lemma {:induction false} JoinApplied(st: State, n: Net)
    requires Valid(st) && n.ifname.Some? && n.ifname.value in st.index
    ensures Apply(st, RouteToken(n)) == Done(Merge(st, st.index[n.ifname.value], n))
  {
  }

  /** The table and the ledger after a merge. */
  lemma {:induction false} MergeGrouped(rs: seq<Reading>, st: State, n: Net)
    requires Represents(rs, st) && Valid(st)
    requires n.ifname.Some? && n.ifname.value in st.index
    ensures var next, all := Merge(st, st.index[n.ifname.value], n), rs + [RouteToken(n)];
      next.nets == Grouping(all, |all|) && LentFor(all, next.lent)
  {
    var i := JoinedToken(rs, st, n);
    RouteGiven(rs, n, i);
    JoinLends(rs, st, n, i);
  }

  lemma {:induction false} MergeRepresents(rs: seq<Reading>, st: State, x: Reading, next: State)
    requires Represents(rs, st) && !x.IpToken?
    requires next.nets == Grouping(rs + [x], |rs| + 1) && LentFor(rs + [x], next.lent)
    requires next.index == st.index && next.current == st.current
    ensures Represents(rs + [x], next)
  {
    IndexKept(rs, x, st.index);
    CurrentKept(rs, x, st.current);
  }

  /** The four parts of a representation. */
  lemma {:induction false} Represented(rs: seq<Reading>, st: State)
    requires st.nets == Grouping(rs, |rs|)
    requires IndexFor(rs, st.index) && CurrentFor(rs, st.current) && LentFor(rs, st.lent)
    ensures Represents(rs, st)
  {
  }

  /** A joined route changes the network of its token and adds none. */
  lemma {:induction false} RouteGiven(rs: seq<Reading>, n: Net, i: nat)
    requires Survives(rs, i) && Rank(rs, i) < |Grouping(rs, |rs|)|
    requires forall m: nat :: Joins(rs + [RouteToken(n)], m, |rs|) <==> m == i
    ensures Grouping(rs + [RouteToken(n)], |rs| + 1) ==
      var v := Grouping(rs, |rs|)[Rank(rs, i)];
      Update(Grouping(rs, |rs|), Rank(rs, i), v.(routes := v.routes + n.routes))
  {
    var x := RouteToken(n);
    assert (rs + [x])[|rs|] == x;
    assert Joins(rs + [x], i, |rs|);
    GroupingAt(rs, i, |rs|);
    GroupingOneChange(rs, x, i);
    GatheredSnoc(rs, x, i);
  }

  /** The one token a named route joins. */
  lemma {:induction false} JoinedToken(rs: seq<Reading>, st: State, n: Net) returns (i: nat)
    requires Represents(rs, st) && n.ifname.Some? && n.ifname.value in st.index
    ensures NamesIp(rs, i, n.ifname.value) && Survives(rs, i) && st.index[n.ifname.value] == Rank(rs, i)
    ensures Rank(rs, i) < |Grouping(rs, |rs|)|
    ensures forall m: nat :: Joins(rs + [RouteToken(n)], m, |rs|) <==> m == i
  {
    var x := RouteToken(n);
    var all := rs + [x];
    assert all[|rs|] == x;
    i :| NamesIp(rs, i, n.ifname.value);
    GroupingAt(rs, i, |rs|);
    forall m: nat
      ensures Joins(all, m, |rs|) <==> m == i
    {
      if Joins(all, m, |rs|) {
        assert NamesIp(rs, m, n.ifname.value);
        RankInjective(rs, m, i);
      }
      assert NamesIp(all, i, n.ifname.value);
    }
  }

  /** The ledger after a merge. */
  lemma {:induction false} JoinLends(rs: seq<Reading>, st: State, n: Net, i: nat)
    requires Represents(rs, st) && n.ifname.Some? && NamesIp(rs, i, n.ifname.value) && Rank(rs, i) < |st.nets|
    requires forall m: nat :: Joins(rs + [RouteToken(n)], m, |rs|) <==> m == i
    ensures LentFor(rs + [RouteToken(n)], Merge(st, Rank(rs, i), n).lent)
  {
    var x := RouteToken(n);
    GroupingAt(rs, i, |rs|);
    var own := rs[i].net.routes;
    NameserversKeepRest(rs[i].net.(dracut := true, routes := own + JoinedRoutes(rs, i)), NameserversOf(rs, i, |rs|));
    assert st.nets[Rank(rs, i)].routes == own + JoinedRoutes(rs, i);
    forall p: nat, r
      ensures (p, r) in Merge(st, Rank(rs, i), n).lent <==> Lends(rs + [x], p, r)
    {
      LendsSnoc(rs, x, p, r);
      if p == Rank(rs, i) && r in n.routes && r !in own && r in JoinedRoutes(rs, i) {
        var j: nat :| j < |rs| && Joins(rs, i, j) && r in rs[j].net.routes;
        assert Lends(rs, p, r);
      }
    }
  }

  lemma {:induction false} StepNameserver(rs: seq<Reading>, st: State, a: Outcome<IPAddress>)
    requires Represents(rs, st) && Valid(st)
    ensures Apply(st, NameserverToken(a)).Done? <==> CleanAt(rs + [NameserverToken(a)], |rs|)
    ensures Apply(st, NameserverToken(a)).Done? ==>
      Represents(rs + [NameserverToken(a)], Apply(st, NameserverToken(a)).value)
  {
    var x := NameserverToken(a);
    var all := rs + [x];
    Stable(rs, x);
    assert all[|rs|] == x;
    UnnamedPlaces(rs, |rs|);
    var nets := st.nets;
    if st.current.Some? && a.Done? {
      nets := Update(st.nets, st.current.value, st.nets[st.current.value].AddNameserver(a.value));
      assert forall p :: 0 <= p < |nets| ==> nets[p].ifname == st.nets[p].ifname;
      NameserverGiven(rs, st, a);
    } else if st.current.None? {
      GroupingUnchanged(rs, x, |rs|);
    }
    if Apply(st, x).Done? {
      IndexKept(rs, x, st.index);
      CurrentKept(rs, x, st.current);
      LentKept(rs, x, st.lent);
      assert Gathered(all, |rs|) == FRESH.(dracut := true);
    }
  }

  lemma {:induction false} NameserverGiven(rs: seq<Reading>, st: State, a: Outcome<IPAddress>)
    requires Represents(rs, st) && Valid(st) && st.current.Some? && a.Done?
    ensures Grouping(rs + [NameserverToken(a)], |rs|)
      == Update(st.nets, st.current.value, st.nets[st.current.value].AddNameserver(a.value))
  {
    var x := NameserverToken(a);
    var i: nat :| LatestIp(rs, i, |rs|);
    assert forall m: nat :: LatestIp(rs, m, |rs|) ==> m == i;
    GroupingAt(rs, i, |rs|);
    GroupingOneChange(rs, x, i);
    GatheredSnoc(rs, x, i);
  }

  lemma {:induction false} NoNameserversYet(rs: seq<Reading>, k: nat)
    requires rs != [] && k <= |rs|
    ensures NameserversOf(rs, |rs| - 1, k) == []
  {
    if k > 0 {
      NoNameserversYet(rs, k - 1);
    }
  }

  lemma {:induction false} NewIpGathered(rs: seq<Reading>, n: Net)
    ensures Gathered(rs + [IpToken(n)], |rs|) == n.(dracut := true)
  {
    var all := rs + [IpToken(n)];
    NoNameserversYet(all, |all|);
    assert JoinedRoutes(all, |rs|) == {};
    assert n.routes + {} == n.routes;
  }

  lemma {:induction false} StepIp(rs: seq<Reading>, st: State, n: Net)
    requires Represents(rs, st) && Valid(st)
    ensures Apply(st, IpToken(n)).Done? <==> CleanAt(rs + [IpToken(n)], |rs|)
    ensures Apply(st, IpToken(n)).Done? ==> Represents(rs + [IpToken(n)], Apply(st, IpToken(n)).value)
  {
    var x := IpToken(n);
    var all := rs + [x];
    Stable(rs, x);
    assert all[|rs|] == x;
    UnnamedPlaces(rs, |rs|);
    if Apply(st, x).Done? {
      StepIpDone(rs, st, n);
    }
  }

  lemma {:induction false} StepIpDone(rs: seq<Reading>, st: State, n: Net)
    requires Represents(rs, st) && Valid(st) && Apply(st, IpToken(n)).Done?
    ensures Represents(rs + [IpToken(n)], Apply(st, IpToken(n)).value)
  {
    NewIpGrouped(rs, n);
    IndexExtended(rs, n, st.index);
    CurrentMoved(rs, n);
    NothingJoins(rs, n);
    LentKept(rs, IpToken(n), st.lent);
    Represented(rs + [IpToken(n)], Apply(st, IpToken(n)).value);
  }

  lemma {:induction false} NothingJoins(rs: seq<Reading>, n: Net)
    ensures forall i: nat :: !Joins(rs + [IpToken(n)], i, |rs|)
  {
    assert (rs + [IpToken(n)])[|rs|] == IpToken(n);
  }

  lemma {:induction false} NewIpGrouped(rs: seq<Reading>, n: Net)
    ensures Rank(rs, |rs|) == |Grouping(rs, |rs|)|
    ensures Grouping(rs + [IpToken(n)], |rs| + 1) == Grouping(rs, |rs|) + [n.(dracut := true)]
  {
    var x := IpToken(n);
    assert (rs + [x])[|rs|] == x;
    NothingJoins(rs, n);
    GroupingUnchanged(rs, x, |rs|);
    GroupingAt(rs, 0, |rs|);
    NewIpGathered(rs, n);
  }

  // ----------------------------------------------------------- main results

  /** The parser succeeds on a command line exactly when its tokens are clean, and the state
      it ends in is then the declarative grouping of those tokens. */
  lemma {:induction false} RunIsGrouping(rs: seq<Reading>)
    ensures Run(rs).Done? <==> Clean(rs)
    ensures Run(rs).Done? ==> Represents(rs, Run(rs).value)
  {
    if rs == [] {
      assert forall i: nat, j: nat :: !Joins(rs, i, j);
    } else {
      var init, x := rs[..|rs| - 1], rs[|rs| - 1];
      assert rs == init + [x];
      RunIsGrouping(init);
      StableClean(init, x);
      if Run(init).Done? {
        StepAny(init, Run(init).value, x);
      }
    }
  }

  lemma {:induction false} StepAny(rs: seq<Reading>, st: State, x: Reading)
    requires Represents(rs, st) && Valid(st)
    ensures Apply(st, x).Done? <==> CleanAt(rs + [x], |rs|)
    ensures Apply(st, x).Done? ==> Represents(rs + [x], Apply(st, x).value)
  {
    assert (rs + [x])[|rs|] == x;
    match x {
      case BadToken(_) =>
      case OtherToken => StepOther(rs, st);
      case IpToken(n) => StepIp(rs, st, n);
      case NameserverToken(a) => StepNameserver(rs, st, a);
      case RouteToken(n) =>
        if n.ifname.Some? {
          if n.ifname.value in st.index {
            StepRouteJoin(rs, st, n);
          } else {
            StepRouteAlone(rs, st, n);
          }
        }
    }
  }
}
