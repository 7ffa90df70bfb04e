/** From a kernel command line to the text of its network files and back: without escapes and
    newlines in the line, every file that is written reads back. */
module CommandLineText {
  import opened Wrappers
  import opened Strings
  import opened Addresses
  import opened KeyFiles
  import opened KeyFileText
  import opened DracutTokens
  import opened DracutRun
  import opened CommandLineFiles
  import NF = NetworkFile
  import NS = NetworkSections
  import NT = NetworkText

  // ----------------------------------------------------------------- tokens

  predicate AllOneLine(xs: seq<string>) {
    forall k :: 0 <= k < |xs| ==> OneLine(xs[k])
  }

  lemma {:induction false} PiecesOneLine(s: string, c: char, limit: nat)
    requires OneLine(s)
    ensures AllOneLine(Pieces(s, c, limit))
    decreases |s|
  {
    var i := IndexOf(s, c);
    if !(limit == 1 || i == |s|) {
      PartsOneLine(s, i);
      PiecesOneLine(s[i + 1..], c, Room(limit));
      ConsOneLine(s[..i], Pieces(s[i + 1..], c, Room(limit)));
    }
  }

  lemma {:induction false} PartsOneLine(s: string, i: nat)
    requires i < |s| && OneLine(s)
    ensures OneLine(s[..i]) && OneLine(s[i + 1..])
  {
  }

  lemma {:induction false} ConsOneLine(x: string, xs: seq<string>)
    requires OneLine(x) && AllOneLine(xs)
    ensures AllOneLine([x] + xs)
  {
  }

  lemma {:induction false} SplitOneLine(s: string, c: char, limit: nat)
    requires OneLine(s)
    ensures AllOneLine(Split(s, c, limit))
  {
    if s != "" {
      PiecesOneLine(s, c, limit);
    }
  }

  lemma {:induction false} CompressFront(a: string, b: string)
    requires '\\' !in a
    ensures Compress(a + b) == a + Compress(b)
  {
    if a == "" {
      assert a + b == b;
    } else {
      assert (a + b)[1..] == a[1..] + b;
      CompressFront(a[1..], b);
      assert a == [a[0]] + a[1..];
    }
  }

  /** An escape in a token is resolved, so that its value can hold a newline. */
  lemma {:induction false} EscapedNewline(x: string, y: string)
    requires Solid(x) && Solid(y) && y != ""
    ensures ParseLine("ip=" + x + "\\n" + y) == Some(("ip", Some(x + "\n" + y)))
  {
    EscapedStrip(x, y);
    FirstEquals(x + "\n" + y);
  }

  lemma {:induction false} EscapedStrip(x: string, y: string)
    requires Solid(x) && Solid(y) && y != ""
    ensures Strip("ip=" + x + "\\n" + y) == "ip=" + (x + "\n" + y)
  {
    EscapeResolved("ip=" + x, y);
    assert ("ip=" + x) + "\n" + y == "ip=" + (x + "\n" + y);
    NoNul(x, y);
    TrimTrimmed("ip=" + (x + "\n" + y));
  }

  lemma {:induction false} FirstEquals(v: string)
    ensures Split("ip=" + v, '=', 2) == ["ip", v]
  {
    SplitJoin(["ip", v], '=', 2);
    JoinCons("ip", [v], '=');
    assert ["ip"] + [v] == ["ip", v];
    assert "ip" + ['='] + v == "ip=" + v;
  }

  lemma {:induction false} EscapeResolved(front: string, y: string)
    requires '\\' !in front && '\\' !in y
    ensures Compress(front + "\\n" + y) == front + "\n" + y
  {
    CompressFront(front, "\\n" + y);
    CompressPlain(y);
    assert ("\\n" + y)[2..] == y;
    assert front + ("\\n" + y) == front + "\\n" + y;
    assert front + ("\n" + y) == front + "\n" + y;
  }

  lemma {:induction false} NoNul(x: string, y: string)
    requires Solid(x) && Solid(y)
    ensures var t := "ip=" + (x + "\n" + y); CString(t) == t
  {
  }

  /** The texts a network takes over from the line. */
  predicate OneLineNet(n: Net) {
    && (n.ifname.Some? ==> OneLine(n.ifname.value))
    && (n.mac.Some? ==> OneLine(n.mac.value))
  }

  lemma {:induction false} LongOneLine(lib: Libc, s: seq<string>, n: Net)
    requires AllOneLine(s) && OneLineNet(n)
    ensures OneLineNet(LongFields(lib, s, n).net)
  {
    RestOneLine(lib, s, if Field(s, 0) != "" && lib.ip(Field(s, 0)).Some?
                        then n.(addresses := n.addresses + {lib.ip(Field(s, 0)).value}) else n);
  }

  lemma {:induction false} RestOneLine(lib: Libc, s: seq<string>, n: Net)
    requires AllOneLine(s) && OneLineNet(n)
    ensures OneLineNet(LongRest(lib, s, n).net)
  {
    var mask := ReadMask(lib, Field(s, 3));
    var m := if Field(s, 2) == "" || lib.ip(Field(s, 2)).None? then n
             else
               var gw := lib.ip(Field(s, 2)).value;
               n.(routes := n.routes + {Route(None, if mask.Length? then gw.(prefix := mask.len) else gw)});
    TailOneLine(lib, s, mask.Unreadable?, WithDhcp(Field(s, 6), WithNames(Field(s, 4), Field(s, 5), m)));
  }

  lemma {:induction false} TailOneLine(lib: Libc, s: seq<string>, stale: bool, n: Net)
    requires AllOneLine(s) && OneLineNet(n)
    ensures OneLineNet(LongTail(lib, s, stale, n).net)
  {
  }

  lemma {:induction false} IpOneLine(lib: Libc, line: string)
    requires OneLine(line)
    ensures OneLineNet(ParseIp(lib, line, FRESH).net)
  {
    SplitOneLine(line, ':', 9);
    SplitOneLine(line, ':', 4);
    LongOneLine(lib, Split(line, ':', 9), FRESH);
    ShortOneLine(lib, Split(line, ':', 4), ParseLong(lib, line, FRESH).net);
  }

  lemma {:induction false} ShortOneLine(lib: Libc, s: seq<string>, n: Net)
    requires AllOneLine(s) && OneLineNet(n)
    ensures OneLineNet(ShortFields(lib, s, n).net)
  {
  }

  lemma {:induction false} RouteOneLine(lib: Libc, line: string)
    requires OneLine(line)
    ensures OneLineNet(ParseRdRoute(lib, line, FRESH).net)
  {
    SplitOneLine(line, ':', 3);
  }

  predicate OneLineReading(rd: Reading) {
    match rd
    case IpToken(n) => OneLineNet(n)
    case RouteToken(n) => OneLineNet(n)
    case _ => true
  }

  lemma {:induction false} ValueOneLine(token: string)
    requires OneLine(token) && ParseLine(token).Some?
    ensures ParseLine(token).value.1.Some? ==> OneLine(ParseLine(token).value.1.value)
  {
    StripPlain(token);
    SplitOneLine(Strip(token), '=', 2);
  }

  lemma {:induction false} ReadOneLine(lib: Libc, token: string)
    requires OneLine(token)
    ensures OneLineReading(Read(lib, token))
  {
    if ParseLine(token).Some? && ParseLine(token).value.1.Some? {
      ValueOneLine(token);
      IpOneLine(lib, ParseLine(token).value.1.value);
      RouteOneLine(lib, ParseLine(token).value.1.value);
    }
  }

  // ------------------------------------------------------------------- runs

  predicate AllOneLineNets(nets: seq<Net>) {
    forall p :: 0 <= p < |nets| ==> OneLineNet(nets[p])
  }

  lemma {:induction false} ApplyOneLine(st: State, rd: Reading)
    requires Valid(st) && AllOneLineNets(st.nets) && OneLineReading(rd) && Apply(st, rd).Done?
    ensures AllOneLineNets(Apply(st, rd).value.nets)
  {
  }

  lemma {:induction false} RunOneLine(rs: seq<Reading>)
    requires (forall j :: 0 <= j < |rs| ==> OneLineReading(rs[j])) && Run(rs).Done?
    ensures AllOneLineNets(Run(rs).value.nets)
  {
    if rs != [] {
      RunOneLine(rs[..|rs| - 1]);
      ApplyOneLine(Run(rs[..|rs| - 1]).value, rs[|rs| - 1]);
    }
  }

  /** Names and MAC addresses of a line without escapes and newlines are without them. */
  lemma {:induction false} LineOneLine(lib: Libc, line: string)
    requires OneLine(line) && ParseCommandLine(lib, line).Done?
    ensures AllOneLineNets(ParseCommandLine(lib, line).value)
  {
    var tokens := Split(line, ' ', 0);
    SplitOneLine(line, ' ', 0);
    forall j | 0 <= j < |tokens|
      ensures OneLineReading(Read(lib, tokens[j]))
    {
      ReadOneLine(lib, tokens[j]);
    }
    RunOneLine(ReadAll(lib, tokens));
  }

  // ------------------------------------------------------------------ files

  /** The C library prints an address on one line. */
  ghost predicate PrintsLines(show: Printer) {
    forall ip :: OneLine(show(ip))
  }

  lemma {:induction false} DecimalOneLine(n: nat)
    ensures OneLine(Decimal(n))
  {
    assert forall c :: c in Decimal(n) ==> '0' <= c <= '9';
  }

  lemma {:induction false} SpacedOneLine(xs: seq<string>)
    requires AllOneLine(xs)
    ensures OneLine(Spaced(xs))
  {
    if xs != [] {
      SpacedOneLine(xs[..|xs| - 1]);
    }
  }

  lemma {:induction false} PrefixOneLine(show: Printer, ip: IPAddress)
    requires PrintsLines(show)
    ensures OneLine(WithPrefix(show, ip))
  {
    assert OneLine(show(ip));
    if ip.prefix > 0 {
      DecimalOneLine(ip.prefix);
    }
  }

  lemma {:induction false} ConfigOneLine(n: Net, show: Printer, w: Walk)
    requires n.ifname.Some? && OneLineNet(n) && PrintsLines(show)
    ensures NT.OneLineConfig(ConfigOf(n, show, w))
  {
    DecimalOneLine(n.mtu);
    SpacedOneLine(Shown(show, w.nameservers));
    ModesOneLine(n.dhcpType);
  }

  lemma {:induction false} ModesOneLine(mode: int)
    ensures OneLine(Text(NetworkdMode(mode)))
  {
  }

  lemma {:induction false} AddressItemOneLine(show: Printer, ip: IPAddress)
    requires PrintsLines(show)
    ensures NT.OneLineItem(AddressItem(show, ip))
  {
    PrefixOneLine(show, ip);
  }

  lemma {:induction false} RouteItemOneLine(show: Printer, r: Route)
    requires PrintsLines(show)
    ensures NT.OneLineItem(RouteItem(show, r))
  {
    PrefixOneLine(show, r.gw);
    if r.dst.Some? {
      PrefixOneLine(show, r.dst.value);
    }
  }

  function Items(show: Printer, w: Walk): seq<NS.Item> {
    AddressItems(show, w.addresses) + RouteItems(show, w.routes)
  }

  ghost predicate OneLineItems(its: seq<NS.Item>) {
    forall i :: 0 <= i < |its| ==> NT.OneLineItem(its[i])
  }

  lemma {:induction false} ConcatOneLine(a: seq<NS.Item>, b: seq<NS.Item>)
    requires OneLineItems(a) && OneLineItems(b)
    ensures OneLineItems(a + b)
  {
  }

  lemma {:induction false} ItemsOneLine(show: Printer, w: Walk)
    requires PrintsLines(show)
    ensures OneLineItems(Items(show, w))
  {
    forall i | 0 <= i < |w.addresses|
      ensures NT.OneLineItem(AddressItems(show, w.addresses)[i])
    {
      AddressItemOneLine(show, w.addresses[i]);
    }
    forall i | 0 <= i < |w.routes|
      ensures NT.OneLineItem(RouteItems(show, w.routes)[i])
    {
      RouteItemOneLine(show, w.routes[i]);
    }
    ConcatOneLine(AddressItems(show, w.addresses), RouteItems(show, w.routes));
  }

  lemma {:induction false} FileOfGood(n: Net, show: Printer, w: Walk)
    requires n.ifname.Some? && OneLineNet(n) && PrintsLines(show)
    ensures Good(FileOf(n, show, w))
  {
    ConfigOneLine(n, show, w);
    ItemsOneLine(show, w);
    NT.FileGood(ConfigOf(n, show, w), [], Items(show, w));
  }

  // ---------------------------------------------------------- reading back

  /** For any line without escapes and newlines: the saved file of each of its networks reads
      back as what the network states and one section for each address and route, all values
      trimmed. */
  lemma {:induction false} LineThroughText(lib: Libc, line: string, p: nat, w: Walk, show: Printer, g: NF.Field)
    requires OneLine(line) && PrintsLines(show)
    requires ParseCommandLine(lib, line).Done? && p < |ParseCommandLine(lib, line).value|
    requires var n := ParseCommandLine(lib, line).value[p]; n.ifname.Some? && Walks(w, n)
    ensures var n := ParseCommandLine(lib, line).value[p];
      var again := Parse(Save(FileOf(n, show, w)));
      && again.Done?
      && NF.At(again.value, g) == AsRead(Stated(n, show, w, g))
      && NS.ReadItems(again.value) == NS.TextsAsRead(NS.Texts(Items(show, w)))
  {
    var n := ParseCommandLine(lib, line).value[p];
    LineOneLine(lib, line);
    FileOfGood(n, show, w);
    NS.FileThroughText(ConfigOf(n, show, w), [], Items(show, w), g);
    FileSaysNetwork(n, show, w, g);
    NS.FileKeys(ConfigOf(n, show, w), [], Items(show, w), g);
  }

  lemma {:induction false} HasAsRead(ts: seq<(string, NS.Reading)>, t: (string, NS.Reading))
    requires t in ts
    ensures (t.0, NS.AllAsRead(t.1)) in NS.TextsAsRead(ts)
  {
    var init, last := ts[..|ts| - 1], ts[|ts| - 1];
    InitLast(ts);
    if t != last {
      HasAsRead(init, t);
    }
  }

  /** A generated file is the output of some network. */
  lemma {:induction false} GeneratedFrom(outs: seq<Output>, name: string) returns (p: nat)
    requires Generated(outs).Done? && name in Generated(outs).value
    ensures p < |outs| && outs[p] == Some((name, Generated(outs).value[name]))
  {
    var last := |outs| - 1;
    if outs[last].value.0 == name {
      p := last;
    } else {
      p := GeneratedFrom(outs[..last], name);
    }
  }

  /** A route left in a file after a walk is in the text that was saved. */
  lemma {:induction false} LeftInText(lib: Libc, line: string, walks: seq<Walk>, show: Printer, order: seq<nat>,
      name: string, t: (string, NS.Reading))
    requires OneLine(line) && PrintsLines(show) && Run(ReadAll(lib, Split(line, ' ', 0))).Done?
    requires var st := Run(ReadAll(lib, Split(line, ' ', 0))).value;
      && |walks| == |st.nets| && Order(order, |walks|)
      && (forall p :: 0 <= p < |walks| ==> Walks(walks[p], st.nets[p]))
      && LeftIn(Outputs(st, walks, show), order, name, t)
    ensures var st := Run(ReadAll(lib, Split(line, ' ', 0))).value;
      var again := Parse(Save(Generated(Walked(Outputs(st, walks, show), order)).value[name]));
      again.Done? && (t.0, NS.AllAsRead(t.1)) in NS.ReadItems(again.value)
  {
    var st := Run(ReadAll(lib, Split(line, ' ', 0))).value;
    var outs := Outputs(st, walks, show);
    var k := GeneratedFrom(Walked(outs, order), name);
    var p := order[k];
    assert outs[p] == OutputOf(st.nets[p], show, walks[p]);
    LineThroughText(lib, line, p, walks[p], show, NF.MatchName);
    FileSaysNetwork(st.nets[p], show, walks[p], NF.MatchName);
    HasAsRead(NS.Texts(Items(show, walks[p])), t);
  }
}
