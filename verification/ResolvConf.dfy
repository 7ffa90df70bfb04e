/** /etc/resolv.conf as the program reads and writes it (`parse_resolv_conf` in
    src/share/config-parser.c, `write_to_resolv_conf_file` in src/share/config-file.c) and
    `add_dns_server_and_domain_to_resolv_conf` (src/dns/dns.c). */
module ResolvConf {
  import opened Wrappers
  import opened Strings
  import opened Dns
  import KeyFileText

  /** What was read: a list is missing when no line gave one. */
  datatype Lists = Lists(dns: Option<seq<string>>, domains: Option<seq<string>>)

  // ----------------------------------------------------------------- reading

  /** `strspn(line, word)`: how many leading characters occur in the word. */
  function Span(line: string, word: string): (n: nat)
    ensures n <= |line|
  {
    if line != "" && line[0] in word then 1 + Span(line[1..], word) else 0
  }

  /** `skip_first_word_and_split` on a line that starts with the word. */
  function AfterWord(line: string, word: string): seq<string> {
    Split(Strip(line[Span(line, word)..]), ' ', 0)
  }

  /** One line; a later line of a kind replaces what an earlier one gave. */
  function ReadLine(ls: Lists, line: string): Lists {
    var t := Strip(line);
    if t == "" || t[0] == '#' || t[0] == ';' then ls
    else
      var withDns := if "nameserver" <= t then ls.(dns := Some(AfterWord(t, "nameserver"))) else ls;
      if "domain" <= t then withDns.(domains := Some(AfterWord(t, "domain"))) else withDns
  }

  function ReadLines(lines: seq<string>): Lists {
    if lines == [] then Lists(None, None)
    else ReadLine(ReadLines(lines[..|lines| - 1]), lines[|lines| - 1])
  }

  /** `parse_resolv_conf` on the file's contents. */
  function Parse(text: string): Lists {
    ReadLines(Split(text, '\n', 0))
  }

  method ParseResolvConf(text: string) returns (ls: Lists)
    ensures ls == Parse(text)
  {
    var lines := StrSplit(text, '\n', 0);
    ls := Lists(None, None);
    for i := 0 to |lines|
      invariant ls == ReadLines(lines[..i])
    {
      assert lines[..i + 1][..i] == lines[..i];
      ls := ReadLine(ls, lines[i]);
    }
    assert lines[..|lines|] == lines;
  }

  // ----------------------------------------------------------------- writing

  /** Each entry after a space. */
  function Preceded(xs: seq<string>): string {
    if xs == [] then "" else Preceded(xs[..|xs| - 1]) + " " + xs[|xs| - 1]
  }

  /** An empty list writes no line. */
  function ListLine(word: string, xs: Option<seq<string>>): seq<string> {
    if xs.None? || xs.value == [] then [] else [word + " " + Preceded(xs.value)]
  }

  function RenderLines(ls: Lists): seq<string> {
    ListLine("nameserver", ls.dns) + ListLine("domain", ls.domains)
  }

  /** What `write_to_resolv_conf_file` puts in place of the old contents. */
  function Render(ls: Lists): string {
    KeyFileText.Terminate(RenderLines(ls))
  }

  method WriteList(word: string, xs: Option<seq<string>>) returns (c: string)
    ensures c == KeyFileText.Terminate(ListLine(word, xs))
  {
    c := "";
    if xs.Some? && |xs.value| > 0 {
      var body := "";
      for i := 0 to |xs.value|
        invariant body == Preceded(xs.value[..i])
      {
        assert xs.value[..i + 1][..i] == xs.value[..i];
        body := body + " " + xs.value[i];
      }
      assert xs.value[..|xs.value|] == xs.value;
      c := word + " " + body + "\n";
      KeyFileText.TerminateSnoc([], word + " " + body);
      assert [] + [word + " " + body] == ListLine(word, xs);
    }
  }

  // ---------------------------------------------------------------- updating

  /** A missing list cannot be added to: the first printable server fails an assertion. */
  function AddServers(dns: Option<seq<string>>, added: seq<string>): Outcome<Option<seq<string>>> {
    if added == [] then Done(dns)
    else if dns.None? then Crashed
    else Done(Some(Merge(dns.value, added)))
  }

  /** Without a domain line the given domains are taken as they are. */
  function AddDomains(domains: Option<seq<string>>, added: Option<seq<string>>): Option<seq<string>> {
    if domains.None? then added
    else if added.None? then domains
    else Some(Merge(domains.value, added.value))
  }

  /** The texts of the servers to add. */
  function Added(servers: Option<seq<Option<string>>>): seq<string> {
    if servers.Some? then Printed(servers.value) else []
  }

  function Update(text: string, servers: Option<seq<Option<string>>>, domains: Option<seq<string>>): Outcome<string> {
    var ls := Parse(text);
    match AddServers(ls.dns, Added(servers))
    case Done(dns) => Done(Render(Lists(dns, AddDomains(ls.domains, domains))))
    case Failed(e) => Failed(e)
    case Crashed => Crashed
  }

  class ResolvConf {
    var text: Option<string>

    method MergeServers(dns: Option<seq<string>>, servers: seq<Option<string>>)
      returns (r: Outcome<Option<seq<string>>>)
      ensures r == AddServers(dns, Printed(servers))
    {
      var config := dns;
      for i := 0 to |servers|
        invariant config.Some? <==> dns.Some?
        invariant config.Some? ==> config.value == Merge(dns.value, Printed(servers[..i]))
        invariant config.None? ==> Printed(servers[..i]) == []
      {
        assert servers[..i + 1][..i] == servers[..i];
        if servers[i].Some? {
          var pretty := servers[i].value;
          assert servers[..i] + [Some(pretty)] == servers[..i + 1];
          PrintedSnoc(servers[..i], pretty);
          if config.None? {
            PrintedMore(servers, i);
            return Crashed;
          }
          MergeSnoc(dns.value, Printed(servers[..i]), pretty);
          if pretty !in config.value {
            config := Some(config.value + [pretty]);
          }
        } else {
          assert Printed(servers[..i]) + [] == Printed(servers[..i]);
        }
      }
      assert servers[..|servers|] == servers;
      r := Done(config);
    }

    method MergeDomains(domains: Option<seq<string>>, added: Option<seq<string>>) returns (r: Option<seq<string>>)
      ensures r == AddDomains(domains, added)
    {
      r := domains;
      if added.Some? && domains.Some? {
        for i := 0 to |added.value|
          invariant r == Some(Merge(domains.value, added.value[..i]))
        {
          assert added.value[..i + 1] == added.value[..i] + [added.value[i]];
          MergeSnoc(domains.value, added.value[..i], added.value[i]);
          if added.value[i] !in r.value {
            r := Some(r.value + [added.value[i]]);
          }
        }
        assert added.value[..|added.value|] == added.value;
      }
      if r.None? {
        r := added;
      }
    }

    /** `add_dns_server_and_domain_to_resolv_conf`. */
    method Add(servers: Option<seq<Option<string>>>, domains: Option<seq<string>>) returns (r: Outcome<()>)
      modifies this
      ensures old(text).None? ==> r == Failed(ENOENT) && text == old(text)
      ensures old(text).Some? ==>
        match Update(old(text).value, servers, domains)
        case Done(t) => r == Done(()) && text == Some(t)
        case Failed(e) => false
        case Crashed => r == Crashed && text == old(text)
    {
      if text.None? {
        return Failed(ENOENT);
      }
      var ls := ParseResolvConf(text.value);
      var dns := ls.dns;
      if servers.Some? {
        var merged := MergeServers(ls.dns, servers.value);
        match merged {
          case Done(d) => dns := d;
          case Failed(_) => assert false;
          case Crashed => return Crashed;
        }
      }
      var names := MergeDomains(ls.domains, domains);
      var first := WriteList("nameserver", dns);
      var second := WriteList("domain", names);
      KeyFileText.TerminateConcat(ListLine("nameserver", dns), ListLine("domain", names));
      text := Some(first + second);
      r := Done(());
    }
  }

  lemma {:induction false} PrintedMore(servers: seq<Option<string>>, i: nat)
    requires i < |servers| && servers[i].Some?
    ensures Printed(servers) != []
  {
    if i < |servers| - 1 {
      PrintedMore(servers[..|servers| - 1], i);
    }
  }

  // ---------------------------------------------------------------- the laws

  /** The given list is there exactly when it was there before or is not empty; an empty list
      writes no line. */
  function Kept(xs: Option<seq<string>>): Option<seq<string>> {
    if xs.None? || xs.value == [] then None else xs
  }

  /** A given entry as the callers hand it over: not empty, stripped, on one line. */
  predicate Tidy(x: string) {
    x != "" && Plain(x) && '\n' !in x && Trimmed(x)
  }

  predicate TidyList(xs: seq<string>) {
    forall i :: 0 <= i < |xs| ==> Tidy(xs[i])
  }

  /** A list whose joined text keeps its ends; entries may be empty or hold white space. */
  predicate Loose(xs: seq<string>) {
    xs != [] && Tidy(Join(xs, ' '))
  }

  /** A list that its line gives back. */
  predicate Fit(xs: seq<string>) {
    Loose(xs) && NoSpaces(xs)
  }

  predicate LooseList(xs: Option<seq<string>>) {
    xs.Some? && xs.value != [] ==> Loose(xs.value)
  }

  lemma {:induction false} SolidTidy(x: string)
    requires Solid(x) && x != ""
    ensures Tidy(x) && ' ' !in x
  {
    SolidChars(x, '\n');
    SolidChars(x, ' ');
  }

  lemma {:induction false} PrecededJoin(xs: seq<string>)
    requires xs != []
    ensures Preceded(xs) == " " + Join(xs, ' ')
  {
    var init, last := xs[..|xs| - 1], xs[|xs| - 1];
    assert xs == init + [last];
    if init != [] {
      PrecededJoin(init);
      JoinSnoc(init, last, ' ');
    }
  }

  lemma {:induction false} SpanWord(word: string, rest: string)
    requires ' ' !in word
    ensures Span(word + " " + rest, word) == |word|
  {
    SpanFrom(word, 0, rest);
  }

  lemma {:induction false} SpanFrom(word: string, i: nat, rest: string)
    requires ' ' !in word && i <= |word|
    ensures Span(word[i..] + " " + rest, word) == |word| - i
    decreases |word| - i
  {
    var s := word[i..] + " " + rest;
    if i < |word| {
      SpanFrom(word, i + 1, rest);
      assert s[0] == word[i];
      assert s[1..] == word[i + 1..] + " " + rest;
    } else {
      assert s[0] == ' ';
    }
  }

  /** Stripping leaves a written line alone. */
  lemma {:induction false} LineStrip(word: string, j: string)
    requires Solid(word) && word != "" && Tidy(j)
    ensures var t := word + "  " + j; Strip(t) == t && '\n' !in t
  {
    var t := word + "  " + j;
    assert t[0] == word[0] && t[|t| - 1] == j[|j| - 1];
    SolidChars(word, '\n');
    StripPlain(t);
    TrimTrimmed(t);
  }

  lemma {:induction false} LineAfter(word: string, j: string)
    requires Solid(word) && Tidy(j)
    ensures AfterWord(word + "  " + j, word) == Split(j, ' ', 0)
  {
    SolidChars(word, ' ');
    SpanWord(word, " " + j);
    var t := word + "  " + j;
    assert t == word + " " + (" " + j);
    assert t[|word|..] == "  " + j;
    TwoSpaces(j);
  }

  /** A written line is read as the pieces of its joined text. */
  lemma {:induction false} LineRead(word: string, xs: seq<string>, t: string)
    requires Solid(word) && word != "" && Loose(xs)
    requires t == word + " " + Preceded(xs)
    ensures Strip(t) == t && '\n' !in t && AfterWord(t, word) == Split(Join(xs, ' '), ' ', 0)
  {
    PrecededJoin(xs);
    assert t == word + "  " + Join(xs, ' ');
    LineStrip(word, Join(xs, ' '));
    LineAfter(word, Join(xs, ' '));
  }

  /** They are the list exactly when no entry holds a space. */
  lemma {:induction false} PiecesAreList(xs: seq<string>)
    requires Loose(xs)
    ensures Split(Join(xs, ' '), ' ', 0) == xs <==> NoSpaces(xs)
  {
    SplitJoin(xs, ' ', 0);
    assert xs != [""];
  }

  lemma {:induction false} TwoSpaces(j: string)
    requires Tidy(j)
    ensures Strip("  " + j) == j
  {
    var s := "  " + j;
    StripPlain(s);
    var one := " " + j;
    assert s[1..] == one && one[1..] == j;
    assert Chug(s) == Chug(one) == Chug(j) == j;
    TrimTrimmed(j);
  }

  lemma {:induction false} ReadSnoc(lines: seq<string>, line: string)
    ensures ReadLines(lines + [line]) == ReadLine(ReadLines(lines), line)
  {
    assert (lines + [line])[..|lines|] == lines;
  }

  /** A text of whole lines is read line by line. */
  lemma {:induction false} WholeLines(lines: seq<string>)
    requires forall i :: 0 <= i < |lines| ==> '\n' !in lines[i]
    ensures Parse(KeyFileText.Terminate(lines)) == ReadLines(lines)
  {
    if lines != [] {
      KeyFileText.TerminateJoin(lines);
      SplitJoin(lines + [""], '\n', 0);
      ReadSnoc(lines, "");
      StripPlain("");
    }
  }

  lemma {:induction false} WordsSolid()
    ensures Solid("nameserver") && Solid("domain")
  {
  }

  /** A line that is read as a list of servers, and the servers on it. */
  predicate ServerLine(line: string) {
    "nameserver" <= Strip(line)
  }

  function ServersOn(line: string): seq<string> {
    AfterWord(Strip(line), "nameserver")
  }

  lemma {:induction false} ReadDns(ls: Lists, line: string)
    ensures ReadLine(ls, line).dns == if ServerLine(line) then Some(ServersOn(line)) else ls.dns
    ensures ServerLine(line) ==> ReadLine(ls, line).domains == ls.domains
  {
    var t := Strip(line);
    if ServerLine(line) {
      assert t[0] == 'n';
    }
  }

  lemma {:induction false} ReadDomain(ls: Lists, t: string)
    requires Strip(t) == t && "domain" <= t
    ensures ReadLine(ls, t) == ls.(domains := Some(AfterWord(t, "domain")))
  {
    assert t[0] == 'd';
  }

  lemma {:induction false} StartsWith(word: string, rest: string)
    ensures word <= word + rest
  {
  }

  /** What a list is read as once it was written. */
  function Back(xs: Option<seq<string>>): Option<seq<string>> {
    if xs.None? || xs.value == [] then None else Some(Split(Join(xs.value, ' '), ' ', 0))
  }

  lemma {:induction false} DnsLine(ls: Lists, xs: seq<string>, t: string)
    requires Loose(xs)
    requires t == "nameserver" + " " + Preceded(xs)
    ensures '\n' !in t && ServerLine(t) && ReadLine(ls, t) == ls.(dns := Back(Some(xs)))
    ensures ServersOn(t) == Split(Join(xs, ' '), ' ', 0)
  {
    assert "nameserver" <= t by {
      StartsWith("nameserver", " " + Preceded(xs));
    }
    assert Strip(t) == t && '\n' !in t && AfterWord(t, "nameserver") == Split(Join(xs, ' '), ' ', 0) by {
      WordsSolid();
      LineRead("nameserver", xs, t);
    }
    ReadDns(ls, t);
  }

  lemma {:induction false} DomainLine(ls: Lists, xs: seq<string>, t: string)
    requires Loose(xs)
    requires t == "domain" + " " + Preceded(xs)
    ensures '\n' !in t && ReadLine(ls, t) == ls.(domains := Back(Some(xs)))
  {
    assert "domain" <= t by {
      StartsWith("domain", " " + Preceded(xs));
    }
    assert Strip(t) == t && '\n' !in t && AfterWord(t, "domain") == Split(Join(xs, ' '), ' ', 0) by {
      WordsSolid();
      LineRead("domain", xs, t);
    }
    ReadDomain(ls, t);
  }

  lemma {:induction false} DnsLines(dns: Option<seq<string>>, a: seq<string>)
    requires LooseList(dns) && a == ListLine("nameserver", dns)
    ensures ReadLines(a) == Lists(Back(dns), None)
    ensures forall i :: 0 <= i < |a| ==> '\n' !in a[i]
  {
    if a != [] {
      DnsLine(Lists(None, None), dns.value, a[0]);
      ReadSnoc([], a[0]);
      assert [] + [a[0]] == a;
    }
  }

  lemma {:induction false} DomainLines(before: seq<string>, domains: Option<seq<string>>, b: seq<string>)
    requires LooseList(domains) && b == ListLine("domain", domains)
    requires ReadLines(before).domains == None
    ensures ReadLines(before + b) == ReadLines(before).(domains := Back(domains))
    ensures forall i :: 0 <= i < |b| ==> '\n' !in b[i]
  {
    if b != [] {
      DomainLine(ReadLines(before), domains.value, b[0]);
      ReadSnoc(before, b[0]);
      assert [b[0]] == b;
    } else {
      assert before + b == before;
    }
  }

  /** What is written is read back, each list as the pieces of its joined text, which is the
      list itself exactly when no entry holds a space; an empty list is gone. */
  lemma {:induction false} WriteThenRead(ls: Lists)
    requires LooseList(ls.dns) && LooseList(ls.domains)
    ensures Parse(Render(ls)) == Lists(Back(ls.dns), Back(ls.domains))
    ensures Parse(Render(ls)) == Lists(Kept(ls.dns), Kept(ls.domains)) <==>
      (ls.dns.Some? ==> NoSpaces(ls.dns.value)) && (ls.domains.Some? ==> NoSpaces(ls.domains.value))
  {
    var a := ListLine("nameserver", ls.dns);
    var b := ListLine("domain", ls.domains);
    DnsLines(ls.dns, a);
    DomainLines(a, ls.domains, b);
    WholeLines(a + b);
    BackKept(ls.dns);
    BackKept(ls.domains);
  }

  lemma {:induction false} BackKept(xs: Option<seq<string>>)
    requires LooseList(xs)
    ensures Back(xs) == Kept(xs) <==> (xs.Some? ==> NoSpaces(xs.value))
  {
    if xs.Some? && xs.value != [] {
      PiecesAreList(xs.value);
    }
  }

  // ------------------------------------------------- which servers are lost

  /** Line `k` is the last one with servers. */
  predicate LastServers(lines: seq<string>, k: nat) {
    k < |lines| && ServerLine(lines[k]) && forall m :: k < m < |lines| ==> !ServerLine(lines[m])
  }

  predicate HasServers(lines: seq<string>) {
    exists k :: 0 <= k < |lines| && ServerLine(lines[k])
  }

  /** No servers are read exactly when there is no such line. */
  lemma {:induction false} SomeServersRead(lines: seq<string>)
    ensures ReadLines(lines).dns.Some? <==> HasServers(lines)
  {
    if lines != [] {
      var init, last := lines[..|lines| - 1], lines[|lines| - 1];
      SomeServersRead(init);
      ReadDns(ReadLines(init), last);
      HasServersSnoc(init, last);
      assert lines == init + [last];
    }
  }

  lemma {:induction false} HasServersSnoc(lines: seq<string>, last: string)
    ensures HasServers(lines + [last]) <==> HasServers(lines) || ServerLine(last)
  {
    var all := lines + [last];
    assert all[|lines|] == last && forall m :: 0 <= m < |lines| ==> all[m] == lines[m];
    if HasServers(lines) {
      var m :| 0 <= m < |lines| && ServerLine(lines[m]);
      assert ServerLine(all[m]);
    }
  }

  /** The servers read are those of the last such line. */
  lemma {:induction false} LastLineOnly(lines: seq<string>, k: nat)
    requires LastServers(lines, k)
    ensures ReadLines(lines).dns == Some(ServersOn(lines[k]))
  {
    var init, last := lines[..|lines| - 1], lines[|lines| - 1];
    InitLast(lines);
    ReadSnoc(init, last);
    ReadDns(ReadLines(init), last);
    if k < |lines| - 1 {
      LastInFront(lines, k);
      LastLineOnly(init, k);
    }
  }

  lemma {:induction false} LastInFront(lines: seq<string>, k: nat)
    requires LastServers(lines, k) && k < |lines| - 1
    ensures LastServers(lines[..|lines| - 1], k) && !ServerLine(lines[|lines| - 1])
    ensures lines[..|lines| - 1][k] == lines[k]
  {
  }

  lemma {:induction false} PrintedSome(servers: seq<Option<string>>)
    ensures Printed(servers) != [] <==> exists i :: 0 <= i < |servers| && servers[i].Some?
  {
    if servers != [] {
      var init := servers[..|servers| - 1];
      PrintedSome(init);
      assert forall i :: 0 <= i < |init| ==> init[i] == servers[i];
    }
  }

  /** An update aborts exactly when some given server can be printed and no line of the file is
      read as servers. */
  lemma {:induction false} AbortsExactly(text: string, servers: Option<seq<Option<string>>>,
      domains: Option<seq<string>>)
    ensures Update(text, servers, domains) == Crashed <==>
      && servers.Some? && (exists i :: 0 <= i < |servers.value| && servers.value[i].Some?)
      && !HasServers(Split(text, '\n', 0))
    ensures Update(text, servers, domains).Done? || Update(text, servers, domains) == Crashed
  {
    SomeServersRead(Split(text, '\n', 0));
    if servers.Some? {
      PrintedSome(servers.value);
    }
  }

  lemma {:induction false} LooseSnoc(xs: seq<string>, x: string)
    requires xs == [] || Loose(xs)
    requires Tidy(x)
    ensures Loose(xs + [x])
    ensures NoSpaces(xs + [x]) <==> NoSpaces(xs) && ' ' !in x
  {
    if xs == [] {
      assert xs + [x] == [x];
    } else {
      JoinSnoc(xs, x, ' ');
      var j := Join(xs, ' ');
      assert Join(xs + [x], ' ') == j + [' '] + x;
    }
    assert (xs + [x])[|xs|] == x;
    assert forall i :: 0 <= i < |xs| ==> (xs + [x])[i] == xs[i];
  }

  lemma {:induction false} MergeLoose(base: seq<string>, added: seq<string>)
    requires base == [] || Loose(base)
    requires TidyList(added)
    ensures Merge(base, added) == [] || Loose(Merge(base, added))
  {
    if added != [] {
      var init, last := added[..|added| - 1], added[|added| - 1];
      MergeLoose(base, init);
      assert Tidy(last);
      LooseSnoc(Merge(base, init), last);
    }
  }

  lemma {:induction false} GivenLoose(xs: seq<string>)
    requires TidyList(xs)
    ensures xs == [] || Loose(xs)
  {
    if xs != [] {
      var init, last := xs[..|xs| - 1], xs[|xs| - 1];
      GivenLoose(init);
      assert Tidy(last);
      LooseSnoc(init, last);
      assert xs == init + [last];
    }
  }

  lemma {:induction false} SplitFit(s: string)
    requires Tidy(s)
    ensures Fit(Split(s, ' ', 0))
  {
    JoinSplit(s, ' ', 0);
    PiecesSeparable(s, ' ', 0);
  }

  lemma {:induction false} StripTidy(s: string)
    requires Plain(s) && '\n' !in s
    ensures Strip(s) == "" || Tidy(Strip(s))
  {
    StripPlain(s);
    TrimTrimmed(s);
  }

  /** What a line of a plain text gives has neither spaces nor loose ends. */
  lemma {:induction false} AfterWordFit(line: string, word: string)
    requires Plain(line) && '\n' !in line
    ensures var xs := AfterWord(Strip(line), word); xs == [] || Fit(xs)
  {
    StripTidy(line);
    var t := Strip(line);
    var rest := t[Span(t, word)..];
    StripTidy(rest);
    if Strip(rest) != "" {
      SplitFit(Strip(rest));
    }
  }

  predicate FitList(xs: Option<seq<string>>) {
    xs.Some? && xs.value != [] ==> Fit(xs.value)
  }

  lemma {:induction false} ReadFit(lines: seq<string>)
    requires forall i :: 0 <= i < |lines| ==> Plain(lines[i]) && '\n' !in lines[i]
    ensures FitList(ReadLines(lines).dns) && FitList(ReadLines(lines).domains)
  {
    if lines != [] {
      var init, last := lines[..|lines| - 1], lines[|lines| - 1];
      ReadFit(init);
      ReadLineFit(ReadLines(init), last);
    }
  }

  lemma {:induction false} ReadLineFit(ls: Lists, line: string)
    requires FitList(ls.dns) && FitList(ls.domains) && Plain(line) && '\n' !in line
    ensures FitList(ReadLine(ls, line).dns) && FitList(ReadLine(ls, line).domains)
  {
    AfterWordFit(line, "nameserver");
    AfterWordFit(line, "domain");
    LineGives(ls, line);
    var t := Strip(line);
    StaysFit(ls.dns, AfterWord(t, "nameserver"), ReadLine(ls, line).dns);
    StaysFit(ls.domains, AfterWord(t, "domain"), ReadLine(ls, line).domains);
  }

  lemma {:induction false} LineGives(ls: Lists, line: string)
    ensures ReadLine(ls, line).dns == ls.dns || ReadLine(ls, line).dns == Some(AfterWord(Strip(line), "nameserver"))
    ensures ReadLine(ls, line).domains == ls.domains
      || ReadLine(ls, line).domains == Some(AfterWord(Strip(line), "domain"))
  {
  }

  lemma {:induction false} StaysFit(was: Option<seq<string>>, xs: seq<string>, next: Option<seq<string>>)
    requires FitList(was) && (xs == [] || Fit(xs))
    requires next == was || next == Some(xs)
    ensures FitList(next)
  {
  }

  /** The lists read from the file come back when they are written: what an escape stands for
      in one of them neither escapes nor ends a line itself. */
  predicate Rewritable(text: string) {
    FitList(Parse(text).dns) && FitList(Parse(text).domains)
  }

  /** A file without escapes is so. */
  lemma {:induction false} PlainRewritable(text: string)
    requires Plain(text)
    ensures Rewritable(text)
  {
    if text != "" {
      KeyFileText.PiecesPlain(text, '\n');
    }
    ReadFit(Split(text, '\n', 0));
  }

  /** Servers as the C library prints them. */
  predicate ServerTexts(xs: seq<string>) {
    forall i :: 0 <= i < |xs| ==> xs[i] != "" && Solid(xs[i])
  }

  lemma {:induction false} MergeFit(base: seq<string>, added: seq<string>)
    requires base == [] || Fit(base)
    requires TidyList(added) && NoSpaces(added)
    ensures Merge(base, added) == [] || Fit(Merge(base, added))
  {
    MergeLoose(base, added);
    MergeNoSpaces(base, added);
  }

  lemma {:induction false} ServersTidy(xs: seq<string>)
    requires ServerTexts(xs)
    ensures TidyList(xs) && NoSpaces(xs)
  {
    forall i | 0 <= i < |xs|
      ensures Tidy(xs[i]) && ' ' !in xs[i]
    {
      SolidTidy(xs[i]);
    }
  }

  /** What the caller hands over: printed servers and tidy domains. */
  predicate Given(servers: Option<seq<Option<string>>>, domains: Option<seq<string>>) {
    ServerTexts(Added(servers)) && (domains.Some? ==> TidyList(domains.value))
  }

  /** Reading an updated file. */
  lemma {:induction false} UpdateReads(text: string, servers: Option<seq<Option<string>>>, domains: Option<seq<string>>)
    requires Rewritable(text) && Given(servers, domains) && Update(text, servers, domains).Done?
    ensures var dns, names := AddServers(Parse(text).dns, Added(servers)).value,
      AddDomains(Parse(text).domains, domains);
      && FitList(dns) && LooseList(names)
      && Parse(Update(text, servers, domains).value) == Lists(Kept(dns), Back(names))
  {
    var ls, added := Parse(text), Added(servers);
    ServersTidy(added);
    if added != [] {
      MergeFit(ls.dns.value, added);
    }
    if domains.Some? {
      if ls.domains.Some? {
        MergeLoose(ls.domains.value, domains.value);
      } else {
        GivenLoose(domains.value);
      }
    }
    var dns, names := AddServers(ls.dns, added).value, AddDomains(ls.domains, domains);
    WriteThenRead(Lists(dns, names));
    BackKept(dns);
  }

  /** The servers a file is read to have. */
  function Servers(text: string): seq<string> {
    if Parse(text).dns.Some? then Parse(text).dns.value else []
  }

  /** The server stands on some line of servers. */
  predicate Listed(lines: seq<string>, x: string) {
    exists m :: 0 <= m < |lines| && ServerLine(lines[m]) && x in ServersOn(lines[m])
  }

  /** An update keeps the servers of all its lines exactly when each of them
      stands on the last such line or is among those added. */
  lemma {:induction false} AllServersKeptExactly(text: string, servers: Option<seq<Option<string>>>,
      domains: Option<seq<string>>, k: nat)
    requires Rewritable(text) && Given(servers, domains) && Update(text, servers, domains).Done?
    requires LastServers(Split(text, '\n', 0), k)
    ensures var lines, after := Split(text, '\n', 0), Update(text, servers, domains).value;
      (forall x :: Listed(lines, x) ==> x in Servers(after)) <==>
      (forall x :: Listed(lines, x) ==> x in ServersOn(lines[k]) || x in Added(servers))
  {
    var lines, added := Split(text, '\n', 0), Added(servers);
    LastLineOnly(lines, k);
    UpdateReads(text, servers, domains);
    MergeIsUnion(ServersOn(lines[k]), added);
  }

  /** A file of one server a line. */
  function TwoServers(a: string, b: string): string {
    KeyFileText.Terminate(["nameserver" + " " + Preceded([a]), "nameserver" + " " + Preceded([b])])
  }

  /** Adding nothing to it loses the first one. */
  lemma {:induction false} FirstServerLost(a: string, b: string)
    requires a != b && ServerTexts([a, b])
    ensures Listed(Split(TwoServers(a, b), '\n', 0), a)
    ensures Update(TwoServers(a, b), None, None).Done?
    ensures a !in Servers(Update(TwoServers(a, b), None, None).value)
  {
    var la, lb := "nameserver" + " " + Preceded([a]), "nameserver" + " " + Preceded([b]);
    assert [a, b][0] == a && [a, b][1] == b;
    OneServerLine(Lists(None, None), a, la);
    OneServerLine(ReadLine(Lists(None, None), la), b, lb);
    TwoLines(la, lb);
    var text := TwoServers(a, b);
    assert Listed([la, lb, ""], a) by {
      assert [la, lb, ""][0] == la;
    }
    assert Parse(text) == Lists(Some([b]), None);
    GivenLoose([b]);
    WriteThenRead(Lists(Some([b]), None));
    assert Update(text, None, None) == Done(Render(Lists(Some([b]), None)));
    assert Parse(Render(Lists(Some([b]), None))).dns == Some([b]);
  }

  lemma {:induction false} TwoLines(a: string, b: string)
    requires '\n' !in a && '\n' !in b
    ensures Split(KeyFileText.Terminate([a, b]), '\n', 0) == [a, b, ""]
    ensures Parse(KeyFileText.Terminate([a, b])) == ReadLine(ReadLine(Lists(None, None), a), b)
  {
    KeyFileText.TerminateJoin([a, b]);
    assert [a, b] + [""] == [a, b, ""];
    SplitJoin([a, b, ""], '\n', 0);
    WholeLines([a, b]);
    ReadTwo(a, b);
  }

  lemma {:induction false} ReadTwo(a: string, b: string)
    ensures ReadLines([a, b]) == ReadLine(ReadLine(Lists(None, None), a), b)
  {
    ReadSnoc([], a);
    ReadSnoc([a], b);
    assert [] + [a] == [a] && [a] + [b] == [a, b];
  }

  lemma {:induction false} OneServerLine(ls: Lists, a: string, t: string)
    requires a != "" && Solid(a) && t == "nameserver" + " " + Preceded([a])
    ensures '\n' !in t && ServerLine(t) && ServersOn(t) == [a] && ReadLine(ls, t) == ls.(dns := Some([a]))
    ensures Tidy(a) && NoSpaces([a])
  {
    SolidTidy(a);
    GivenLoose([a]);
    PiecesAreList([a]);
    DnsLine(ls, [a], t);
  }

  // ------------------------------------------------------ updating again

  lemma {:induction false} ServersTwice(dns: Option<seq<string>>, added: seq<string>)
    requires AddServers(dns, added).Done?
    ensures var once := AddServers(dns, added).value;
      AddServers(Kept(once), added).Done? && Kept(AddServers(Kept(once), added).value) == Kept(once)
  {
    if added != [] {
      MergeTwice(dns.value, added);
      MergeIsUnion(dns.value, added);
      assert added[0] in Merge(dns.value, added);
    }
  }

  lemma {:induction false} RenderKept(ls: Lists)
    ensures Render(ls) == Render(Lists(Kept(ls.dns), Kept(ls.domains)))
  {
  }

  lemma {:induction false} DomainsTwice(domains: Option<seq<string>>, added: Option<seq<string>>)
    ensures var once := AddDomains(domains, added);
      Kept(AddDomains(Kept(once), added)) == Kept(once)
  {
    if added.Some? {
      if domains.Some? {
        MergeTwice(domains.value, added.value);
        MergeIsUnion(domains.value, added.value);
        if added.value != [] {
          assert added.value[0] in Merge(domains.value, added.value);
        }
      } else {
        MergeKnown(added.value, added.value);
      }
    }
  }

  /** A domain with a space is not found on the line and lengthens it again. */
  lemma {:induction false} SpacedDomainGrows(names: seq<string>, added: seq<string>, x: string)
    requires Loose(names) && x in added && ' ' in x
    ensures var again := Merge(Split(Join(names, ' '), ' ', 0), added);
      again != [] && |Join(again, ' ')| > |Join(names, ' ')|
  {
    var j := Join(names, ' ');
    var pieces := Split(j, ' ', 0);
    PiecesSeparable(j, ' ', 0);
    JoinSplit(j, ' ', 0);
    MergeGrows(pieces, added, x);
    JoinLonger(pieces, Merge(pieces, added), x);
  }

  /** The text of the domain line grows with the joined list. */
  lemma {:induction false} LongerDiffers(dns: Option<seq<string>>, a: seq<string>, b: seq<string>)
    requires a != [] && b != [] && Join(a, ' ') != Join(b, ' ')
    ensures Render(Lists(dns, Some(a))) != Render(Lists(dns, Some(b)))
  {
    var first := ListLine("nameserver", dns);
    PrecededJoin(a);
    PrecededJoin(b);
    var la, lb := "domain" + " " + Preceded(a), "domain" + " " + Preceded(b);
    assert la == "domain  " + Join(a, ' ') && lb == "domain  " + Join(b, ' ');
    assert la[8..] == Join(a, ' ') && lb[8..] == Join(b, ' ');
    KeyFileText.TerminateSnoc(first, la);
    KeyFileText.TerminateSnoc(first, lb);
    var t := KeyFileText.Terminate(first);
    var ta, tb := t + la + "\n", t + lb + "\n";
    assert ta[|t|..|ta| - 1] == la && tb[|t|..|tb| - 1] == lb;
  }

  /** Two updates differ at most in the domains. */
  lemma {:induction false} BothRender(text: string, servers: Option<seq<Option<string>>>, domains: Option<seq<string>>)
    requires Rewritable(text) && Given(servers, domains) && Update(text, servers, domains).Done?
    ensures var dns, names := Kept(AddServers(Parse(text).dns, Added(servers)).value),
      AddDomains(Parse(text).domains, domains);
      && Update(text, servers, domains) == Done(Render(Lists(dns, names)))
      && Update(Update(text, servers, domains).value, servers, domains) ==
           Done(Render(Lists(dns, AddDomains(Back(names), domains))))
  {
    var dns, names := AddServers(Parse(text).dns, Added(servers)).value, AddDomains(Parse(text).domains, domains);
    UpdateReads(text, servers, domains);
    ServersTwice(Parse(text).dns, Added(servers));
    DnsKept(dns, names);
    DnsKept(AddServers(Kept(dns), Added(servers)).value, AddDomains(Back(names), domains));
  }

  lemma {:induction false} DnsKept(dns: Option<seq<string>>, names: Option<seq<string>>)
    ensures Render(Lists(Kept(dns), names)) == Render(Lists(dns, names))
  {
  }

  lemma {:induction false} UnspacedSame(text: string, domains: Option<seq<string>>, dns: Option<seq<string>>)
    requires Rewritable(text) && (domains.Some? ==> TidyList(domains.value) && NoSpaces(domains.value))
    requires LooseList(AddDomains(Parse(text).domains, domains))
    ensures var names := AddDomains(Parse(text).domains, domains);
      Render(Lists(dns, AddDomains(Back(names), domains))) == Render(Lists(dns, names))
  {
    var names := AddDomains(Parse(text).domains, domains);
    UnspacedNames(text, domains);
    BackKept(names);
    DomainsTwice(Parse(text).domains, domains);
    RenderKept(Lists(dns, names));
    RenderKept(Lists(dns, AddDomains(Back(names), domains)));
  }

  lemma {:induction false} SpacedDiffers(base: Option<seq<string>>, given: seq<string>, dns: Option<seq<string>>)
    requires !NoSpaces(given) && LooseList(AddDomains(base, Some(given)))
    ensures var names := AddDomains(base, Some(given));
      Render(Lists(dns, AddDomains(Back(names), Some(given)))) != Render(Lists(dns, names))
  {
    var names := AddDomains(base, Some(given)).value;
    var x :| x in given && ' ' in x;
    MergeIsUnion(if base.Some? then base.value else [], given);
    assert x in names;
    SpacedDomainGrows(names, given, x);
    LongerDiffers(dns, names, AddDomains(Back(Some(names)), Some(given)).value);
  }

  /** Applying the same update to a file again leaves it as it is exactly when no given
      domain holds a space. */
  lemma {:induction false} UpdateTwiceSame(text: string, servers: Option<seq<Option<string>>>,
      domains: Option<seq<string>>)
    requires Rewritable(text) && Given(servers, domains) && Update(text, servers, domains).Done?
    ensures Update(Update(text, servers, domains).value, servers, domains) == Update(text, servers, domains) <==>
      (domains.Some? ==> NoSpaces(domains.value))
  {
    var dns := Kept(AddServers(Parse(text).dns, Added(servers)).value);
    BothRender(text, servers, domains);
    UpdateReads(text, servers, domains);
    if domains.Some? ==> NoSpaces(domains.value) {
      UnspacedSame(text, domains, dns);
    } else {
      SpacedDiffers(Parse(text).domains, domains.value, dns);
    }
  }

  lemma {:induction false} UnspacedNames(text: string, domains: Option<seq<string>>)
    requires Rewritable(text) && (domains.Some? ==> NoSpaces(domains.value))
    ensures var names := AddDomains(Parse(text).domains, domains); names.Some? ==> NoSpaces(names.value)
  {
    var base := Parse(text).domains;
    if base.Some? && domains.Some? {
      MergeNoSpaces(base.value, domains.value);
    }
  }
}
