/** How a command line that does not succeed ends: which token ends the run, with what, and
    which lines crash the parser. */
module DracutCrashes {
  import opened Wrappers
  import opened Strings
  import opened Addresses
  import opened DracutTokens
  import opened DracutRun
  import opened DracutGrouping

  // ------------------------------------------------------------- one token

  predicate EmptyOrAddress(lib: Libc, f: string) {
    f == "" || lib.ip(f).Some?
  }

  /** A long form crashes in the middle of a gateway and netmask it can read. */
  predicate RestCrashes(lib: Libc, s: seq<string>) {
    && EmptyOrAddress(lib, Field(s, 2))
    && match ReadMask(lib, Field(s, 3)) {
         case NoMask => false
         case Length(_) => Field(s, 2) == ""
         case Undefined => true
         case Unreadable => |s| == 7
       }
  }

  /** The long form crashes exactly when its address can be read and then its peer can be
      read, or there is no peer, the gateway can be read, and the netmask is zero, or lacks a
      gateway, or is unreadable as one of seven fields. */
  lemma {:induction false} LongCrashesExactly(lib: Libc, s: seq<string>, n: Net)
    ensures LongFields(lib, s, n).status.Crash? <==>
      && EmptyOrAddress(lib, Field(s, 0))
      && if Field(s, 1) != "" then lib.ip(Field(s, 1)).Some? else RestCrashes(lib, s)
  {
    if EmptyOrAddress(lib, Field(s, 0)) && Field(s, 1) == "" {
      var m := if Field(s, 0) != "" then n.(addresses := n.addresses + {lib.ip(Field(s, 0)).value}) else n;
      RestCrashesExactly(lib, s, m);
    }
  }

  lemma {:induction false} RestCrashesExactly(lib: Libc, s: seq<string>, n: Net)
    ensures LongRest(lib, s, n).status.Crash? <==> RestCrashes(lib, s)
  {
    var mask := ReadMask(lib, Field(s, 3));
    if EmptyOrAddress(lib, Field(s, 2)) && !mask.Undefined? && !(mask.Length? && Field(s, 2) == "") {
      var gw := lib.ip(Field(s, 2));
      var m := if Field(s, 2) == "" then n
               else
                 var hop := if mask.Length? then gw.value.(prefix := mask.len) else gw.value;
                 n.(routes := n.routes + {Route(None, hop)});
      TailCrashesExactly(lib, s, mask.Unreadable?, WithDhcp(Field(s, 6), WithNames(Field(s, 4), Field(s, 5), m)));
    }
  }

  lemma {:induction false} TailCrashesExactly(lib: Libc, s: seq<string>, stale: bool, n: Net)
    ensures LongTail(lib, s, stale, n).status.Crash? <==> stale && |s| == 7
  {
  }

  /** The other form never crashes. */
  lemma {:induction false} IpCrashesExactly(lib: Libc, line: string, n: Net)
    ensures ParseIp(lib, line, n).status.Crash? <==>
      ':' in line && LongFields(lib, Split(line, ':', 9), n).status.Crash?
  {
  }

  lemma {:induction false} RouteCrashesExactly(lib: Libc, s: seq<string>, n: Net)
    ensures RouteFields(lib, s, n).status.Crash? <==> EmptyOrAddress(lib, Field(s, 0)) && |s| < 2
  {
  }

  // ------------------------------------------------------------ whole runs

  ghost predicate NamedBefore(rs: seq<Reading>, j: nat, name: string) {
    exists i: nat :: i < j && NamesIp(rs, i, name)
  }

  ghost predicate UnnamedBefore(rs: seq<Reading>, j: nat) {
    exists i: nat :: i < j && Unnamed(rs, i)
  }

  ghost predicate IpBefore(rs: seq<Reading>, j: nat) {
    exists i: nat :: LatestIp(rs, i, j)
  }

  /** How token `j` ends a run that reaches it, if it does. */
  ghost function Verdict(rs: seq<Reading>, j: nat): Outcome<()>
    requires j < |rs|
  {
    match rs[j]
    case BadToken(Error(e)) => Failed(e)
    case BadToken(_) => Crashed
    case OtherToken => Done(())
    case RouteToken(n) => if n.ifname.None? then Crashed else Done(())
    case IpToken(n) =>
      if n.ifname.Some? && NamedBefore(rs, j, n.ifname.value) then Failed(ENOMEM)
      else if n.ifname.None? && UnnamedBefore(rs, j) then Failed(EINVAL)
      else Done(())
    case NameserverToken(a) =>
      if !a.Done? && IpBefore(rs, j) then Ending(a)
      else if UnnamedBefore(rs, j) then Failed(EINVAL)
      else Done(())
  }

  function Ending<T>(r: Outcome<T>): Outcome<()> {
    match r
    case Done(_) => Done(())
    case Failed(e) => Failed(e)
    case Crashed => Crashed
  }

  lemma {:induction false} CleanIsDone(rs: seq<Reading>, j: nat)
    requires j < |rs|
    ensures CleanAt(rs, j) <==> Verdict(rs, j).Done?
  {
  }

  /** What earlier tokens mean does not depend on later ones. */
  lemma {:induction false} PrefixSame(rs: seq<Reading>, k: nat, i: nat)
    requires i < k <= |rs|
    ensures Unnamed(rs[..k], i) == Unnamed(rs, i)
    ensures forall name :: NamesIp(rs[..k], i, name) == NamesIp(rs, i, name)
  {
    var front := rs[..k];
    assert front[i] == rs[i];
    forall m: nat
      ensures Joins(front, m, i) == Joins(rs, m, i)
    {
      if m < i {
        assert front[m] == rs[m];
      }
    }
  }

  lemma {:induction false} PrefixNamed(rs: seq<Reading>, k: nat, j: nat, name: string)
    requires j < k <= |rs|
    ensures NamedBefore(rs[..k], j, name) == NamedBefore(rs, j, name)
  {
    forall i: nat | i < j
      ensures NamesIp(rs[..k], i, name) == NamesIp(rs, i, name)
    {
      PrefixSame(rs, k, i);
    }
  }

  lemma {:induction false} PrefixLatest(rs: seq<Reading>, k: nat, i: nat, j: nat)
    requires j <= k <= |rs|
    ensures LatestIp(rs[..k], i, j) == LatestIp(rs, i, j)
  {
    assert forall m :: 0 <= m < j ==> rs[..k][m] == rs[m];
  }

  lemma {:induction false} PrefixVerdict(rs: seq<Reading>, k: nat, j: nat)
    requires j < k <= |rs|
    ensures Verdict(rs[..k], j) == Verdict(rs, j)
  {
    var front := rs[..k];
    assert front[j] == rs[j];
    if rs[j].IpToken? && rs[j].net.ifname.Some? {
      PrefixNamed(rs, k, j, rs[j].net.ifname.value);
    }
    forall i: nat | i < j
      ensures Unnamed(front, i) == Unnamed(rs, i)
    {
      PrefixSame(rs, k, i);
    }
    forall i: nat
      ensures LatestIp(front, i, j) == LatestIp(rs, i, j)
    {
      PrefixLatest(rs, k, i, j);
    }
    assert IpBefore(front, j) == IpBefore(rs, j);
    assert UnnamedBefore(front, j) == UnnamedBefore(rs, j);
  }

  /** A token read in a state that represents the tokens before it ends the run as it should. */
  lemma {:induction false} StepVerdict(rs: seq<Reading>, st: State, x: Reading)
    requires Represents(rs, st) && Valid(st)
    ensures Ending(Apply(st, x)) == Verdict(rs + [x], |rs|)
  {
    var all := rs + [x];
    assert all[|rs|] == x;
    Stable(rs, x);
    UnnamedPlaces(rs, |rs|);
    if x.RouteToken? && x.net.ifname.Some? {
      assert Apply(st, x).Done?;
    } else if x.IpToken? && x.net.ifname.Some? {
      IndexNames(rs, st, x);
    } else if x.NameserverToken? && x.address.Done? && st.current.Some? {
      var nets := Update(st.nets, st.current.value, st.nets[st.current.value].AddNameserver(x.address.value));
      assert forall p :: 0 <= p < |nets| ==> nets[p].ifname == st.nets[p].ifname;
    }
  }

  lemma {:induction false} IndexNames(rs: seq<Reading>, st: State, x: Reading)
    requires Represents(rs, st) && x.IpToken? && x.net.ifname.Some?
    ensures x.net.ifname.value in st.index <==> NamedBefore(rs + [x], |rs|, x.net.ifname.value)
  {
    Stable(rs, x);
    var name := x.net.ifname.value;
    if name in st.index {
      var i: nat :| NamesIp(rs, i, name);
      assert NamesIp(rs + [x], i, name);
    }
    forall i: nat | i < |rs| && NamesIp(rs + [x], i, name)
      ensures name in st.index
    {
      assert NamesIp(rs, i, name);
    }
  }

  /** The first token that cannot be taken ends the run, with its own verdict. */
  lemma {:induction false} EndsAt(rs: seq<Reading>, j: nat)
    requires j < |rs| && Clean(rs[..j])
    ensures Ending(Run(rs[..j + 1])) == Verdict(rs, j)
    ensures !Verdict(rs, j).Done? ==> Ending(Run(rs)) == Verdict(rs, j)
  {
    var front := rs[..j];
    RunIsGrouping(front);
    NextPrefix(rs, j);
    assert rs[..j + 1][..j] == front;
    StepVerdict(front, Run(front).value, rs[j]);
    PrefixVerdict(rs, j + 1, j);
    if !Verdict(rs, j).Done? {
      RunStops(rs, j + 1);
    }
  }

  /** A run that does not succeed has a token that ends it. */
  lemma {:induction false} FirstEnd(rs: seq<Reading>) returns (j: nat)
    requires !Run(rs).Done?
    ensures j < |rs| && Clean(rs[..j]) && Ending(Run(rs)) == Verdict(rs, j)
  {
    var k := |rs| - 1;
    var init := rs[..k];
    RunIsGrouping(init);
    if Run(init).Done? {
      j := k;
      EndsAt(rs, k);
      assert rs[..k + 1] == rs;
    } else {
      j := FirstEnd(init);
      assert init[..j] == rs[..j];
      PrefixVerdict(rs, k, j);
    }
  }

  /** Token `j` is reached and ends the run so. */
  ghost predicate EndsWith(rs: seq<Reading>, j: nat, end: Outcome<()>) {
    j < |rs| && Clean(rs[..j]) && Verdict(rs, j) == end
  }

  /** All three outcomes of a run: it crashes or fails exactly when some token, with clean
      ones before it, does so, and else it succeeds. */
  lemma {:induction false} RunEndsExactly(rs: seq<Reading>)
    ensures Run(rs) == Crashed <==> exists j: nat :: EndsWith(rs, j, Crashed)
    ensures forall e :: Run(rs) == Failed(e) <==> exists j: nat :: EndsWith(rs, j, Failed(e))
    ensures Run(rs).Done? <==> forall j: nat :: j < |rs| ==> Verdict(rs, j).Done?
  {
    RunIsGrouping(rs);
    forall j: nat | j < |rs|
      ensures CleanAt(rs, j) <==> Verdict(rs, j).Done?
    {
      CleanIsDone(rs, j);
    }
    forall j: nat, end | EndsWith(rs, j, end) && !end.Done?
      ensures Ending(Run(rs)) == end
    {
      EndsAt(rs, j);
    }
    if !Run(rs).Done? {
      var j := FirstEnd(rs);
      assert EndsWith(rs, j, Ending(Run(rs)));
    }
  }

  /** The same for any command line. */
  lemma {:induction false} LineEndsExactly(lib: Libc, line: string)
    ensures var rs := ReadAll(lib, Split(line, ' ', 0));
      && (ParseCommandLine(lib, line) == Crashed <==> exists j: nat :: EndsWith(rs, j, Crashed))
      && (forall e :: ParseCommandLine(lib, line) == Failed(e) <==> exists j: nat :: EndsWith(rs, j, Failed(e)))
  {
    RunEndsExactly(ReadAll(lib, Split(line, ' ', 0)));
  }
}
