/** The DNS and NTP queries over the JSON description (`json_parse_dns_servers` and
    `json_fill_ntp_servers` in src/json/network-json.c). */
module JsonQueries {
  import opened Wrappers
  import opened NetworkJson

  /** One element of the resulting array, with the keys that were added to it. */
  datatype Answer = Answer(
    name: Option<string>,
    address: Option<string>,
    family: Option<int>,
    server: Option<string>,
    source: Option<string>,
    provider: Option<string>)

  /** What one entry gives. */
  datatype Given = Skipped | Refused | Gives(answer: Answer)

  const ADDRESS := "Address"

  function WithProvider(lib: Library, e: Entry, family: int, a: Answer): Given {
    if e.provider.None? then Gives(a)
    else
      match ToIp(lib, e.provider.value, family, -1)
      case None => Refused
      case Some(p) => Gives(a.(provider := Some(p)))
  }

  /** A DNS entry needs an address and a family; one that cannot be printed is passed over,
      but a provider that cannot be printed ends the whole query. */
  function DnsGiven(lib: Library, e: Entry, name: Option<string>): Given {
    if ADDRESS !in e.addresses || e.family.None? then Skipped
    else
      match ToIp(lib, e.addresses[ADDRESS], e.family.value, -1)
      case None => Skipped
      case Some(ip) =>
        WithProvider(lib, e, e.family.value, Answer(name, Some(ip), e.family, None, e.source, None))
  }

  /** An NTP entry needs an address or a server name. The name is looked at only without an
      address, and the family only with one; without it a provider is printed in groups. */
  function NtpGiven(lib: Library, e: Entry, name: Option<string>): Given {
    if ADDRESS in e.addresses then
      if e.family.None? then WithProvider(lib, e, 0, Answer(name, None, None, None, e.source, None))
      else
        match ToIp(lib, e.addresses[ADDRESS], e.family.value, -1)
        case None => Skipped
        case Some(ip) =>
          WithProvider(lib, e, e.family.value, Answer(name, Some(ip), e.family, None, e.source, None))
    else if e.server.Some? then WithProvider(lib, e, 0, Answer(name, None, None, e.server, e.source, None))
    else Skipped
  }

  function GivenBy(lib: Library, kind: Kind, e: Entry, name: Option<string>): Given {
    if kind == Dns then DnsGiven(lib, e, name) else NtpGiven(lib, e, name)
  }

  /** The answers of a list, or None when a provider ended the query. */
  function Answers(lib: Library, kind: Kind, es: seq<Entry>, name: Option<string>): Option<seq<Answer>> {
    if es == [] then Some([])
    else
      match Answers(lib, kind, es[..|es| - 1], name)
      case None => None
      case Some(answers) => Extended(answers, GivenBy(lib, kind, es[|es| - 1], name))
  }

  /** One more entry. */
  function Extended(found: seq<Answer>, g: Given): Option<seq<Answer>> {
    match g
    case Skipped => Some(found)
    case Refused => None
    case Gives(a) => Some(found + [a])
  }

  /** The list of an interface that the query looks at: any named one, or the given link. */
  function Looked(i: Interface, kind: Kind, link: Option<string>): seq<Entry> {
    if i.name.Some? && (link.Some? ==> i.name == link) && kind in i.lists then i.lists[kind] else []
  }

  function Collected(lib: Library, kind: Kind, ifs: seq<Interface>, link: Option<string>): Option<seq<Answer>> {
    if ifs == [] then Some([])
    else
      var last := ifs[|ifs| - 1];
      match Collected(lib, kind, ifs[..|ifs| - 1], link)
      case None => None
      case Some(answers) =>
        match Answers(lib, kind, Looked(last, kind, link), if link.None? then last.name else None)
        case None => None
        case Some(more) => Some(answers + more)
  }

  /** The query for one link, or for all of them, where each answer has a name. */
  function Query(lib: Library, kind: Kind, doc: Document, link: Option<string>): Outcome<seq<Answer>> {
    if doc.interfaces.None? then Failed(ENOENT)
    else
      match Collected(lib, kind, doc.interfaces.value, link)
      case None => Failed(EINVAL)
      case Some(answers) => if answers == [] then Failed(ENOENT) else Done(answers)
  }

  // ------------------------------------------------------------- the methods

  /** The body of the DNS loop. */
  method DnsEntry(lib: Library, e: Entry, name: Option<string>) returns (g: Given)
    ensures g == DnsGiven(lib, e, name)
  {
    if ADDRESS !in e.addresses || e.family.None? {
      return Skipped;
    }
    var ip := ArrayToIp(lib, e.addresses[ADDRESS], e.family.value, -1);
    if ip.None? {
      return Skipped;
    }
    var a := Answer(name, ip, e.family, None, e.source, None);
    if e.provider.Some? {
      var p := ArrayToIp(lib, e.provider.value, e.family.value, -1);
      if p.None? {
        return Refused;
      }
      a := a.(provider := p);
    }
    g := Gives(a);
  }

  /** The body of the NTP loop. */
  method NtpEntry(lib: Library, e: Entry, name: Option<string>) returns (g: Given)
    ensures g == NtpGiven(lib, e, name)
  {
    var a := Answer(name, None, None, None, e.source, None);
    var family := 0;
    if ADDRESS in e.addresses {
      if e.family.Some? {
        family := e.family.value;
        var ip := ArrayToIp(lib, e.addresses[ADDRESS], family, -1);
        if ip.None? {
          return Skipped;
        }
        a := a.(address := ip, family := e.family);
      }
    } else if e.server.Some? {
      a := a.(server := e.server);
    } else {
      return Skipped;
    }
    if e.provider.Some? {
      var p := ArrayToIp(lib, e.provider.value, family, -1);
      if p.None? {
        return Refused;
      }
      a := a.(provider := p);
    }
    g := Gives(a);
  }

  method EntryGiven(lib: Library, kind: Kind, e: Entry, name: Option<string>) returns (g: Given)
    ensures g == GivenBy(lib, kind, e, name)
  {
    if kind == Dns {
      g := DnsEntry(lib, e, name);
    } else {
      g := NtpEntry(lib, e, name);
    }
  }

  lemma {:induction false} AnswersStep(lib: Library, kind: Kind, es: seq<Entry>, name: Option<string>, j: nat)
    requires j < |es| && Answers(lib, kind, es[..j], name).Some?
    ensures Answers(lib, kind, es[..j + 1], name) ==
      Extended(Answers(lib, kind, es[..j], name).value, GivenBy(lib, kind, es[j], name))
  {
    assert es[..j + 1][..j] == es[..j];
  }

  /** The inner loop. */
  method ReadList(lib: Library, kind: Kind, es: seq<Entry>, name: Option<string>) returns (r: Option<seq<Answer>>)
    ensures r == Answers(lib, kind, es, name)
  {
    var found: seq<Answer> := [];
    var j := 0;
    while j < |es|
      invariant 0 <= j <= |es|
      invariant Answers(lib, kind, es[..j], name) == Some(found)
    {
      var g := EntryGiven(lib, kind, es[j], name);
      AnswersStep(lib, kind, es, name, j);
      match g {
        case Skipped =>
        case Gives(a) => found := found + [a];
        case Refused =>
          Stopped(lib, kind, es, name, j + 1);
          return None;
      }
      j := j + 1;
    }
    assert es[..j] == es;
    r := Some(found);
  }

  lemma {:induction false} Stopped(lib: Library, kind: Kind, es: seq<Entry>, name: Option<string>, j: nat)
    requires j <= |es| && Answers(lib, kind, es[..j], name).None?
    ensures Answers(lib, kind, es, name).None?
  {
    if j == |es| {
      assert es[..j] == es;
    } else {
      assert es[..|es| - 1][..j] == es[..j];
      Stopped(lib, kind, es[..|es| - 1], name, j);
    }
  }

  lemma {:induction false} CollectStopped(lib: Library, kind: Kind, ifs: seq<Interface>, link: Option<string>, j: nat)
    requires j <= |ifs| && Collected(lib, kind, ifs[..j], link).None?
    ensures Collected(lib, kind, ifs, link).None?
  {
    if j == |ifs| {
      assert ifs[..j] == ifs;
    } else {
      assert ifs[..|ifs| - 1][..j] == ifs[..j];
      CollectStopped(lib, kind, ifs[..|ifs| - 1], link, j);
    }
  }

  lemma {:induction false} CollectStep(lib: Library, kind: Kind, ifs: seq<Interface>, link: Option<string>, i: nat)
    requires i < |ifs| && Collected(lib, kind, ifs[..i], link).Some?
    ensures var more := Answers(lib, kind, Looked(ifs[i], kind, link), if link.None? then ifs[i].name else None);
      Collected(lib, kind, ifs[..i + 1], link) ==
        if more.None? then None else Some(Collected(lib, kind, ifs[..i], link).value + more.value)
  {
    assert ifs[..i + 1][..i] == ifs[..i];
  }

  /** One turn of the outer loop: what an interface adds. */
  method ReadInterface(lib: Library, kind: Kind, i: Interface, link: Option<string>) returns (r: Option<seq<Answer>>)
    ensures r == Answers(lib, kind, Looked(i, kind, link), if link.None? then i.name else None)
  {
    if i.name.None? || (link.Some? && i.name != link) || kind !in i.lists {
      return Some([]);
    }
    r := ReadList(lib, kind, i.lists[kind], if link.None? then i.name else None);
  }

  /** The outer loop. */
  method ReadInterfaces(lib: Library, kind: Kind, ifs: seq<Interface>, link: Option<string>)
    returns (r: Option<seq<Answer>>)
    ensures r == Collected(lib, kind, ifs, link)
  {
    var i := 0;
    r := Some([]);
    while i < |ifs|
      invariant 0 <= i <= |ifs|
      invariant r.Some? && Collected(lib, kind, ifs[..i], link) == r
    {
      r := NextInterface(lib, kind, ifs, link, i, r.value);
      i := i + 1;
      if r.None? {
        break;
      }
    }
    CollectedHere(lib, kind, ifs, link, i);
  }

  /** The loop ends at the end of the list, or where a provider ended the query. */
  lemma {:induction false} CollectedHere(lib: Library, kind: Kind, ifs: seq<Interface>, link: Option<string>, i: nat)
    requires i <= |ifs| && (i == |ifs| || Collected(lib, kind, ifs[..i], link).None?)
    ensures Collected(lib, kind, ifs, link) == Collected(lib, kind, ifs[..i], link)
  {
    if i == |ifs| {
      assert ifs[..i] == ifs;
    } else {
      CollectStopped(lib, kind, ifs, link, i);
    }
  }

  /** One turn of the outer loop. */
  method NextInterface(lib: Library, kind: Kind, ifs: seq<Interface>, link: Option<string>, i: nat,
      answers: seq<Answer>)
    returns (r: Option<seq<Answer>>)
    requires i < |ifs| && Collected(lib, kind, ifs[..i], link) == Some(answers)
    ensures r == Collected(lib, kind, ifs[..i + 1], link)
  {
    var more := ReadInterface(lib, kind, ifs[i], link);
    CollectStep(lib, kind, ifs, link, i);
    r := if more.None? then None else Some(answers + more.value);
  }

  /** `json_parse_dns_servers` and `json_fill_ntp_servers`. */
  method RunQuery(lib: Library, kind: Kind, doc: Document, link: Option<string>) returns (r: Outcome<seq<Answer>>)
    ensures r == Query(lib, kind, doc, link)
  {
    if doc.interfaces.None? {
      return Failed(ENOENT);
    }
    var found := ReadInterfaces(lib, kind, doc.interfaces.value, link);
    if found.None? {
      return Failed(EINVAL);
    }
    r := if |found.value| == 0 then Failed(ENOENT) else Done(found.value);
  }

  // ------------------------------------------------ all links and one link

  /** The answers that carry a name, with the name taken off. */
  function Only(answers: seq<Answer>, link: string): seq<Answer> {
    if answers == [] then []
    else
      var last := answers[|answers| - 1];
      Only(answers[..|answers| - 1], link) + if last.name == Some(link) then [last.(name := None)] else []
  }

  lemma {:induction false} OnlyConcat(a: seq<Answer>, b: seq<Answer>, link: string)
    ensures Only(a + b, link) == Only(a, link) + Only(b, link)
  {
    if b == [] {
      assert a + b == a;
    } else {
      assert (a + b)[..|a + b| - 1] == a + b[..|b| - 1];
      OnlyConcat(a, b[..|b| - 1], link);
    }
  }

  lemma {:induction false} OnlyOne(a: Answer, link: string)
    ensures Only([a], link) == if a.name == Some(link) then [a.(name := None)] else []
  {
    assert [a][..0] == [];
  }

  /** A list read under a name gives the same answers as without, each with the name. */
  lemma {:induction false} Tagged(lib: Library, kind: Kind, es: seq<Entry>, name: string, link: string)
    ensures Answers(lib, kind, es, Some(name)).Some? <==> Answers(lib, kind, es, None).Some?
    ensures Answers(lib, kind, es, Some(name)).Some? ==>
      Only(Answers(lib, kind, es, Some(name)).value, link) ==
        if name == link then Answers(lib, kind, es, None).value else []
  {
    if es != [] {
      var init, e := es[..|es| - 1], es[|es| - 1];
      Tagged(lib, kind, init, name, link);
      SameGiven(lib, kind, e, name);
      if Answers(lib, kind, init, Some(name)).Some? {
        TaggedNext(Answers(lib, kind, init, Some(name)).value, Answers(lib, kind, init, None).value,
                   GivenBy(lib, kind, e, Some(name)), GivenBy(lib, kind, e, None), name, link);
      }
    }
  }

  lemma {:induction false} TaggedNext(named: seq<Answer>, plain: seq<Answer>, g: Given, h: Given, name: string,
      link: string)
    requires Only(named, link) == if name == link then plain else []
    requires match h
      case Skipped => g == Skipped
      case Refused => g == Refused
      case Gives(a) => a.name == None && g == Gives(a.(name := Some(name)))
    ensures Extended(named, g).Some? <==> Extended(plain, h).Some?
    ensures Extended(named, g).Some? ==>
      Only(Extended(named, g).value, link) == if name == link then Extended(plain, h).value else []
  {
    if g.Gives? {
      OnlyConcat(named, [g.answer], link);
      OnlyOne(g.answer, link);
    }
  }

  lemma {:induction false} SameGiven(lib: Library, kind: Kind, e: Entry, name: string)
    ensures match GivenBy(lib, kind, e, None)
      case Skipped => GivenBy(lib, kind, e, Some(name)) == Skipped
      case Refused => GivenBy(lib, kind, e, Some(name)) == Refused
      case Gives(a) => a.name == None && GivenBy(lib, kind, e, Some(name)) == Gives(a.(name := Some(name)))
  {
  }

  /** Collecting for all links and keeping one link's answers is collecting for that link, as
      long as no provider ends the collection. */
  lemma {:induction false} CollectedOnly(lib: Library, kind: Kind, ifs: seq<Interface>, link: string)
    requires Collected(lib, kind, ifs, None).Some?
    ensures Collected(lib, kind, ifs, Some(link)) == Some(Only(Collected(lib, kind, ifs, None).value, link))
  {
    if ifs != [] {
      var init, last := ifs[..|ifs| - 1], ifs[|ifs| - 1];
      CollectedOnly(lib, kind, init, link);
      var before := Collected(lib, kind, init, None).value;
      var es := Looked(last, kind, None);
      OnlyConcat(before, Answers(lib, kind, es, last.name).value, link);
      if last.name.Some? {
        Tagged(lib, kind, es, last.name.value, link);
        assert Looked(last, kind, Some(link)) == if last.name == Some(link) then es else [];
      } else {
        assert es == [];
      }
    }
  }

  /** When no provider ends the query for all links, keeping the answers with a link's name
      and taking the name off gives that link's own answers in the same order; and that link's
      query finds nothing exactly when none remain. */
  lemma {:induction false} AllThenOne(lib: Library, kind: Kind, doc: Document, link: string)
    requires Query(lib, kind, doc, None) != Failed(EINVAL)
    ensures var all := Query(lib, kind, doc, None);
      var mine := if all.Done? then Only(all.value, link) else [];
      Query(lib, kind, doc, Some(link)) == if mine == [] then Failed(ENOENT) else Done(mine)
  {
    if doc.interfaces.Some? {
      CollectedOnly(lib, kind, doc.interfaces.value, link);
    }
  }

  lemma {:induction false} SomeLinkStops(lib: Library, kind: Kind, ifs: seq<Interface>)
    requires Collected(lib, kind, ifs, None).None?
    ensures exists link: string :: Collected(lib, kind, ifs, Some(link)).None?
  {
    var init, last := ifs[..|ifs| - 1], ifs[|ifs| - 1];
    if Collected(lib, kind, init, None).None? {
      SomeLinkStops(lib, kind, init);
      var link: string :| Collected(lib, kind, init, Some(link)).None?;
      assert Collected(lib, kind, ifs, Some(link)).None?;
    } else {
      var name := last.name.value;
      Tagged(lib, kind, Looked(last, kind, None), name, name);
      assert Collected(lib, kind, ifs, Some(name)).None?;
    }
  }

  /** A provider ends the query for all links exactly when it ends some link's own. */
  lemma {:induction false} StoppedExactly(lib: Library, kind: Kind, doc: Document)
    ensures Query(lib, kind, doc, None) == Failed(EINVAL) <==>
      exists link: string :: Query(lib, kind, doc, Some(link)) == Failed(EINVAL)
  {
    if doc.interfaces.Some? {
      if Query(lib, kind, doc, None) == Failed(EINVAL) {
        SomeLinkStops(lib, kind, doc.interfaces.value);
        var link: string :| Collected(lib, kind, doc.interfaces.value, Some(link)).None?;
        assert Query(lib, kind, doc, Some(link)) == Failed(EINVAL);
      } else {
        forall link: string
          ensures Query(lib, kind, doc, Some(link)) != Failed(EINVAL)
        {
          AllThenOne(lib, kind, doc, link);
        }
      }
    }
  }
}
