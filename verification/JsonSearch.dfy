/** Searching the JSON description of the network (src/json/network-json.c): where an address
    or a route came from. */
module JsonSearch {
  import opened Wrappers
  import opened Strings
  import opened NetworkJson

  // --------------------------------------------------- address and route search

  /** An entry's bytes and prefix, when it has the keys the search needs: addresses need a
      prefix length, routes are printed without one. */
  function Shown(e: Entry, kind: Kind, key: string): Option<(seq<CInt>, int, CInt)> {
    if key !in e.addresses || e.family.None? || (kind == Addresses && e.prefix.None?) then None
    else Some((e.addresses[key], e.family.value, if kind == Addresses then e.prefix.value else -1))
  }

  /** The entry prints as the given text. */
  predicate Hit(lib: Library, e: Entry, kind: Kind, key: string, address: string) {
    match Shown(e, kind, key)
    case None => false
    case Some((bytes, family, prefix)) => ToIp(lib, bytes, family, prefix) == Some(address)
  }

  /** The entries of a kind under a link's name, in document order. */
  function EntriesOf(ifs: seq<Interface>, link: string, kind: Kind): seq<Entry> {
    if ifs == [] then []
    else
      (if ifs[0].name == Some(link) && kind in ifs[0].lists then ifs[0].lists[kind] else []) +
      EntriesOf(ifs[1..], link, kind)
  }

  function FirstHit(lib: Library, es: seq<Entry>, kind: Kind, key: string, address: string): Option<Entry> {
    if es == [] then None
    else if Hit(lib, es[0], kind, key, address) then Some(es[0])
    else FirstHit(lib, es[1..], kind, key, address)
  }

  /** What a search returns and what it stores for its caller. */
  datatype Found = Found(status: Outcome<()>, source: Option<string>, provider: Option<string>, state: Option<string>)

  const NOT_FOUND := Found(Failed(ENOENT), None, None, None)

  /** A provider that cannot be printed fails an address search, whose source is stored by
      then, and is left out of a route search. */
  function Report(lib: Library, e: Entry, kind: Kind): Found
    requires e.family.Some?
  {
    var provider := if e.provider.Some? then ToIp(lib, e.provider.value, e.family.value, -1) else None;
    if e.provider.Some? && provider.None? && kind == Addresses then Found(Failed(EINVAL), e.source, None, None)
    else Found(Done(()), e.source, provider, e.state)
  }

  lemma {:induction false} FirstHitHits(lib: Library, es: seq<Entry>, kind: Kind, key: string, address: string)
    ensures var e := FirstHit(lib, es, kind, key, address);
      e.Some? ==> e.value in es && Hit(lib, e.value, kind, key, address) && e.value.family.Some?
    ensures FirstHit(lib, es, kind, key, address).None? ==>
      forall i :: 0 <= i < |es| ==> !Hit(lib, es[i], kind, key, address)
  {
    if es != [] && !Hit(lib, es[0], kind, key, address) {
      FirstHitHits(lib, es[1..], kind, key, address);
    }
  }

  function Search(lib: Library, doc: Document, kind: Kind, link: string, key: string, address: string): Found {
    if doc.interfaces.None? then NOT_FOUND
    else
      var es := EntriesOf(doc.interfaces.value, link, kind);
      FirstHitHits(lib, es, kind, key, address);
      match FirstHit(lib, es, kind, key, address)
      case None => NOT_FOUND
      case Some(e) => Report(lib, e, kind)
  }

  lemma {:induction false} FirstHitConcat(lib: Library, a: seq<Entry>, b: seq<Entry>, kind: Kind, key: string,
      address: string)
    ensures FirstHit(lib, a + b, kind, key, address) ==
      if FirstHit(lib, a, kind, key, address).Some? then FirstHit(lib, a, kind, key, address)
      else FirstHit(lib, b, kind, key, address)
  {
    if a == [] {
      assert a + b == b;
    } else {
      assert (a + b)[1..] == a[1..] + b;
      FirstHitConcat(lib, a[1..], b, kind, key, address);
    }
  }

  /** The inner loop over one interface's list. */
  method FindEntry(lib: Library, es: seq<Entry>, kind: Kind, key: string, address: string) returns (hit: Option<Entry>)
    ensures hit == FirstHit(lib, es, kind, key, address)
  {
    for j := 0 to |es|
      invariant FirstHit(lib, es, kind, key, address) == FirstHit(lib, es[j..], kind, key, address)
    {
      var e := es[j];
      if key in e.addresses && e.family.Some? && (kind == Addresses ==> e.prefix.Some?) {
        var ip := ArrayToIp(lib, e.addresses[key], e.family.value, if kind == Addresses then e.prefix.value else -1);
        if ip == Some(address) {
          return Some(e);
        }
      }
    }
    hit := None;
  }

  /** `json_parse_address_config_source` and `json_parse_route_config_source`, which share
      their loops. */
  method ConfigSource(lib: Library, doc: Document, kind: Kind, link: string, key: string, address: string)
    returns (r: Found)
    ensures r == Search(lib, doc, kind, link, key, address)
  {
    if doc.interfaces.None? {
      return NOT_FOUND;
    }
    var ifs := doc.interfaces.value;
    for i := 0 to |ifs|
      invariant FirstHit(lib, EntriesOf(ifs, link, kind), kind, key, address) ==
        FirstHit(lib, EntriesOf(ifs[i..], link, kind), kind, key, address)
    {
      assert ifs[i..][1..] == ifs[i + 1..];
      if ifs[i].name == Some(link) && kind in ifs[i].lists {
        FirstHitConcat(lib, ifs[i].lists[kind], EntriesOf(ifs[i + 1..], link, kind), kind, key, address);
        var hit := FindEntry(lib, ifs[i].lists[kind], kind, key, address);
        if hit.Some? {
          FirstHitHits(lib, EntriesOf(ifs, link, kind), kind, key, address);
          var e := hit.value;
          var provider: Option<string> := None;
          if e.provider.Some? {
            provider := ArrayToIp(lib, e.provider.value, e.family.value, -1);
            if provider.None? && kind == Addresses {
              return Found(Failed(EINVAL), e.source, None, None);
            }
          }
          return Found(Done(()), e.source, provider, e.state);
        }
      } else {
        assert [] + EntriesOf(ifs[i + 1..], link, kind) == EntriesOf(ifs[i + 1..], link, kind);
      }
    }
    r := NOT_FOUND;
  }

  // ------------------------------------------- text matching is raw matching

  /** The entry holds these very bytes under these prefixes. */
  predicate RawHit(e: Entry, kind: Kind, key: string, bytes: seq<CInt>, family: int, prefix: int) {
    match Shown(e, kind, key)
    case None => false
    case Some((b, f, p)) => f == family && b == bytes && SamePrefix(p, prefix)
  }

  function FirstRaw(es: seq<Entry>, kind: Kind, key: string, bytes: seq<CInt>, family: int,
      prefix: int): Option<Entry> {
    if es == [] then None
    else if RawHit(es[0], kind, key, bytes, family, prefix) then Some(es[0])
    else FirstRaw(es[1..], kind, key, bytes, family, prefix)
  }

  /** What is used of the C library: a canonical IPv6 text holds a colon, and two addresses
      written in full groups, with prefixes that fit an `int`, have the same canonical text only
      if they are the same. */
  ghost predicate Faithful(lib: Library) {
    && (forall t :: lib.canonical(t).Some? ==> ':' in lib.canonical(t).value)
    && (forall a: seq<CInt>, p: CInt, b: seq<CInt>, q: CInt ::
          |a| == 16 && |b| == 16 && Octets(a) && Octets(b) && lib.canonical(Text(a, AF_INET6, p)).Some? &&
          lib.canonical(Text(a, AF_INET6, p)) == lib.canonical(Text(b, AF_INET6, q)) ==>
          Text(a, AF_INET6, p) == Text(b, AF_INET6, q))
  }

  lemma {:induction false} DottedHasDot(bytes: seq<CInt>, prefix: int)
    requires |bytes| >= 2
    ensures '.' in Text(bytes, AF_INET, prefix)
  {
    var xs := Texts(bytes);
    assert Join(xs, '.')[|xs[0]|] == '.';
  }

  lemma {:induction false} DottedNoColon(bytes: seq<CInt>, prefix: int)
    ensures ':' !in Text(bytes, AF_INET, prefix)
  {
    JoinAvoids(Texts(bytes), '.', ':');
  }

  lemma {:induction false} GroupedNoDot(bytes: seq<CInt>, family: int, prefix: int)
    requires family != AF_INET
    ensures '.' !in Text(bytes, family, prefix)
  {
    forall g | 0 <= g < |Groups(bytes)|
      ensures '.' !in Groups(bytes)[g]
    {
      NoDotGroup(bytes, g);
    }
    JoinAvoids(Groups(bytes), ':', '.');
  }

  lemma {:induction false} NoDotGroup(bytes: seq<CInt>, g: nat)
    ensures '.' !in GroupAt(bytes, g)
  {
  }

  /** An entry prints as an IPv4 address exactly when it holds it. */
  lemma {:induction false} HitIsRaw(lib: Library, e: Entry, kind: Kind, key: string, bytes: seq<CInt>, prefix: int)
    requires Faithful(lib) && |bytes| == 4
    ensures Hit(lib, e, kind, key, Text(bytes, AF_INET, prefix)) <==> RawHit(e, kind, key, bytes, AF_INET, prefix)
  {
    match Shown(e, kind, key) {
      case None =>
      case Some((b, f, p)) =>
        if f == AF_INET {
          DottedInjective(b, p, bytes, prefix);
        } else if f == AF_INET6 {
          DottedNoColon(bytes, prefix);
        } else {
          DottedHasDot(bytes, prefix);
          GroupedNoDot(b, f, p);
        }
    }
  }

  lemma {:induction false} FirstIsRaw(lib: Library, es: seq<Entry>, kind: Kind, key: string, bytes: seq<CInt>,
      prefix: int)
    requires Faithful(lib) && |bytes| == 4
    ensures FirstHit(lib, es, kind, key, Text(bytes, AF_INET, prefix)) ==
      FirstRaw(es, kind, key, bytes, AF_INET, prefix)
  {
    if es != [] {
      HitIsRaw(lib, es[0], kind, key, bytes, prefix);
      FirstIsRaw(lib, es[1..], kind, key, bytes, prefix);
    }
  }

  lemma {:induction false} FirstRawExactly(es: seq<Entry>, kind: Kind, key: string, bytes: seq<CInt>, family: int,
      prefix: int)
    ensures var e := FirstRaw(es, kind, key, bytes, family, prefix);
      e.Some? ==> RawHit(e.value, kind, key, bytes, family, prefix)
    ensures FirstRaw(es, kind, key, bytes, family, prefix).Some? <==>
      exists i :: 0 <= i < |es| && RawHit(es[i], kind, key, bytes, family, prefix)
  {
    if es != [] && !RawHit(es[0], kind, key, bytes, family, prefix) {
      FirstRawExactly(es[1..], kind, key, bytes, family, prefix);
    }
  }

  /** Where the first entry that prints as the text is the first that holds the address, the
      search reports it, and finds nothing exactly when no entry holds the address. */
  lemma {:induction false} SearchFinds(lib: Library, doc: Document, kind: Kind, link: string, key: string,
      address: string, bytes: seq<CInt>, family: int, prefix: int)
    requires doc.interfaces.Some?
    requires var es := EntriesOf(doc.interfaces.value, link, kind);
      FirstHit(lib, es, kind, key, address) == FirstRaw(es, kind, key, bytes, family, prefix)
    ensures var r := Search(lib, doc, kind, link, key, address);
      var es := EntriesOf(doc.interfaces.value, link, kind);
      var e := FirstRaw(es, kind, key, bytes, family, prefix);
      && (e.Some? <==> exists i :: 0 <= i < |es| && RawHit(es[i], kind, key, bytes, family, prefix))
      && (e.Some? ==> e.value.family == Some(family) && r == Report(lib, e.value, kind))
      && (e.None? ==> r == NOT_FOUND)
  {
    FirstRawExactly(EntriesOf(doc.interfaces.value, link, kind), kind, key, bytes, family, prefix);
  }

  /** Searching for the text of an IPv4 address succeeds exactly when the link has an entry
      with those bytes and that prefix, and reports the first one's source, provider and
      state. */
  lemma {:induction false} SearchIsRaw(lib: Library, doc: Document, kind: Kind, link: string, key: string,
      bytes: seq<CInt>, prefix: int)
    requires Faithful(lib) && |bytes| == 4 && doc.interfaces.Some?
    ensures var r := Search(lib, doc, kind, link, key, Text(bytes, AF_INET, prefix));
      var es := EntriesOf(doc.interfaces.value, link, kind);
      var e := FirstRaw(es, kind, key, bytes, AF_INET, prefix);
      && (r.status.Done? <==> exists i :: 0 <= i < |es| && RawHit(es[i], kind, key, bytes, AF_INET, prefix))
      && (r.status.Done? ==> e.Some? && r == Found(Done(()), e.value.source, DottedProvider(e.value), e.value.state))
      && (!r.status.Done? ==> r == NOT_FOUND)
  {
    var es := EntriesOf(doc.interfaces.value, link, kind);
    FirstIsRaw(lib, es, kind, key, bytes, prefix);
    SearchFinds(lib, doc, kind, link, key, Text(bytes, AF_INET, prefix), bytes, AF_INET, prefix);
    var e := FirstRaw(es, kind, key, bytes, AF_INET, prefix);
    if e.Some? {
      ReportDotted(lib, e.value, kind);
    }
  }

  function DottedProvider(e: Entry): Option<string> {
    if e.provider.Some? then Some(Text(e.provider.value, AF_INET, -1)) else None
  }

  lemma {:induction false} ReportDotted(lib: Library, e: Entry, kind: Kind)
    requires e.family == Some(AF_INET)
    ensures Report(lib, e, kind) == Found(Done(()), e.source, DottedProvider(e), e.state)
  {
  }

  /** An entry of one of the two families, whose IPv6 addresses are 16 bytes long. */
  predicate Proper(e: Entry, key: string) {
    && (e.family.Some? ==> e.family.value == AF_INET || e.family.value == AF_INET6)
    && (e.family == Some(AF_INET6) && key in e.addresses ==> |e.addresses[key]| == 16 && Octets(e.addresses[key]))
  }

  /** The same for IPv6, with the address in its canonical text. */
  lemma {:induction false} Hit6IsRaw(lib: Library, e: Entry, kind: Kind, key: string, bytes: seq<CInt>, prefix: CInt)
    requires Faithful(lib) && |bytes| == 16 && Octets(bytes) && Proper(e, key)
    requires ToIp(lib, bytes, AF_INET6, prefix).Some?
    ensures Hit(lib, e, kind, key, ToIp(lib, bytes, AF_INET6, prefix).value) <==>
      RawHit(e, kind, key, bytes, AF_INET6, prefix)
  {
    match Shown(e, kind, key) {
      case None =>
      case Some((b, f, p)) =>
        if f == AF_INET6 {
          GroupedInjective(b, p, bytes, prefix, AF_INET6);
        } else {
          DottedNoColon(b, p);
        }
    }
  }

  /** Among entries of the two families, the first one that prints as a canonical IPv6 text is
      the first one that holds the address. */
  lemma {:induction false} First6IsRaw(lib: Library, es: seq<Entry>, kind: Kind, key: string, bytes: seq<CInt>,
      prefix: CInt)
    requires Faithful(lib) && |bytes| == 16 && Octets(bytes) && ToIp(lib, bytes, AF_INET6, prefix).Some?
    requires forall i :: 0 <= i < |es| ==> Proper(es[i], key)
    ensures FirstHit(lib, es, kind, key, ToIp(lib, bytes, AF_INET6, prefix).value) ==
      FirstRaw(es, kind, key, bytes, AF_INET6, prefix)
  {
    if es != [] {
      Hit6IsRaw(lib, es[0], kind, key, bytes, prefix);
      First6IsRaw(lib, es[1..], kind, key, bytes, prefix);
    }
  }

  /** Searching for the canonical text of an IPv6 address reports the first entry of the link
      that holds it, and finds nothing exactly when there is none. */
  lemma {:induction false} Search6IsRaw(lib: Library, doc: Document, kind: Kind, link: string, key: string,
      bytes: seq<CInt>, prefix: CInt)
    requires Faithful(lib) && |bytes| == 16 && Octets(bytes) && ToIp(lib, bytes, AF_INET6, prefix).Some?
    requires doc.interfaces.Some?
    requires forall e :: e in EntriesOf(doc.interfaces.value, link, kind) ==> Proper(e, key)
    ensures var r := Search(lib, doc, kind, link, key, ToIp(lib, bytes, AF_INET6, prefix).value);
      var es := EntriesOf(doc.interfaces.value, link, kind);
      var e := FirstRaw(es, kind, key, bytes, AF_INET6, prefix);
      && (r == NOT_FOUND <==> forall i :: 0 <= i < |es| ==> !RawHit(es[i], kind, key, bytes, AF_INET6, prefix))
      && (r != NOT_FOUND ==> e.Some? && e.value.family == Some(AF_INET6) && r == Report(lib, e.value, kind))
  {
    var es := EntriesOf(doc.interfaces.value, link, kind);
    First6IsRaw(lib, es, kind, key, bytes, prefix);
    SearchFinds(lib, doc, kind, link, key, ToIp(lib, bytes, AF_INET6, prefix).value, bytes, AF_INET6, prefix);
  }
}
