/** The repeated sections of a generated network file: one [Address] per address and one
    [Route] per route (`append_addresses` and `append_routes` in src/manager/network.c), and
    the whole file read back, in memory and through its text. */
module NetworkSections {
  import opened Wrappers
  import opened Strings
  import opened KeyFiles
  import opened KeyFileText
  import opened NetworkFile

  datatype Family = Unspec | Inet | Inet6

  const RT_TABLE_MAIN := 254

  /** An address or a route with its addresses printed; a null address is None. A scope or
      type that is set may have no name. */
  datatype Item =
    | Address(address: string, name: Option<string>, lifetime: Option<string>)
    | Route(destination: Option<string>, toDefault: bool, family: Family, gateway: Option<string>,
            source: Option<string>, onlink: Option<bool>, table: nat, scope: Option<Option<string>>,
            routeType: Option<Option<string>>, metric: nat, initcwnd: nat, initrwnd: nat,
            quickAck: Option<bool>, tfo: Option<bool>, ttlPropagate: Option<bool>)

  datatype ItemField =
    | FAddress | FLabel | FLifetime
    | FDestination | FGateway | FSource | FOnlink | FTable | FScope | FType | FMetric
    | FInitcwnd | FInitrwnd | FQuickAck | FTfo | FTtlPropagate

  /** The order in which the keys are added. */
  const ITEM_FIELDS: seq<ItemField> :=
    [FAddress, FLabel, FLifetime, FDestination, FGateway, FSource, FOnlink, FTable, FScope, FType,
     FMetric, FInitcwnd, FInitrwnd, FQuickAck, FTfo, FTtlPropagate]

  function ItemKey(f: ItemField): string {
    match f
    case FAddress => "Address"
    case FLabel => "Label"
    case FLifetime => "PreferredLifetime"
    case FDestination => "Destination"
    case FGateway => "Gateway"
    case FSource => "PreferredSource"
    case FOnlink => "Onlink"
    case FTable => "Table"
    case FScope => "Scope"
    case FType => "Type"
    case FMetric => "RouteMetric"
    case FInitcwnd => "InitialCongestionWindow"
    case FInitrwnd => "InitialAdvertisedReceiveWindow"
    case FQuickAck => "QuickAck"
    case FTfo => "FastOpenNoCookie"
    case FTtlPropagate => "TTLPropagate"
  }

  function NumberText(n: nat): Option<string> {
    if n > 0 then Some(Decimal(n)) else None
  }

  /** The destination given, else the default route of the family. */
  function DestinationText(r: Item): Option<string>
    requires r.Route?
  {
    if r.destination.Some? then r.destination
    else if !r.toDefault then None
    else match r.family
      case Inet => Some("0.0.0.0/0")
      case Inet6 => Some("::/0")
      case Unspec => None
  }

  /** What an item says under a key; a field of the other kind of item is not set. */
  function ItemValue(it: Item, f: ItemField): Option<Option<string>> {
    match it
    case Address(a, name, lifetime) =>
      (match f
       case FAddress => Some(Some(a))
       case FLabel => Wrap(name)
       case FLifetime => Wrap(lifetime)
       case _ => None)
    case Route(_, _, _, _, _, _, _, _, _, _, _, _, _, _, _) =>
      match f
      case FDestination => Wrap(DestinationText(it))
      case FGateway => Wrap(it.gateway)
      case FSource => Wrap(it.source)
      case FOnlink => Wrap(BoolValue(it.onlink))
      case FTable => Wrap(if it.table == RT_TABLE_MAIN then None else NumberText(it.table))
      case FScope => it.scope
      case FType => it.routeType
      case FMetric => Wrap(NumberText(it.metric))
      case FInitcwnd => Wrap(NumberText(it.initcwnd))
      case FInitrwnd => Wrap(NumberText(it.initrwnd))
      case FQuickAck => Wrap(BoolValue(it.quickAck))
      case FTfo => Wrap(BoolValue(it.tfo))
      case FTtlPropagate => Wrap(BoolValue(it.ttlPropagate))
      case _ => None
  }

  // --------------------------------------------------------- what is written

  function KeysFor(it: Item, fs: seq<ItemField>): seq<Key> {
    if fs == [] then []
    else
      var last := fs[|fs| - 1];
      KeysFor(it, fs[..|fs| - 1]) + OptKey(ItemKey(last), ItemValue(it, last))
  }

  function ItemName(it: Item): string {
    match it
    case Address(_, _, _) => "Address"
    case Route(_, _, _, _, _, _, _, _, _, _, _, _, _, _, _) => "Route"
  }

  function ItemSection(it: Item): Section {
    Section(ItemName(it), KeysFor(it, ITEM_FIELDS))
  }

  /** A route with neither destination nor gateway is left out. */
  predicate Written(it: Item) {
    it.Address? || it.destination.Some? || it.gateway.Some?
  }

  function ItemSections(its: seq<Item>): seq<Section> {
    if its == [] then []
    else
      var last := its[|its| - 1];
      ItemSections(its[..|its| - 1]) + if Written(last) then [ItemSection(last)] else []
  }

  /** The guarded `add_key_to_section` calls of one section, in order. */
  method MakeSection(it: Item) returns (s: Section)
    ensures s == ItemSection(it)
  {
    var keys := [];
    for i := 0 to |ITEM_FIELDS|
      invariant keys == KeysFor(it, ITEM_FIELDS[..i])
    {
      var f := ITEM_FIELDS[i];
      assert ITEM_FIELDS[..i + 1][..i] == ITEM_FIELDS[..i];
      var v := ItemValue(it, f);
      if v.Some? {
        keys := keys + [Key(ItemKey(f), v.value)];
      }
    }
    assert ITEM_FIELDS[..|ITEM_FIELDS|] == ITEM_FIELDS;
    s := Section(ItemName(it), keys);
  }

  /** Walking a table of addresses or routes in its order. */
  method AppendItems(kf: KeyFile, its: seq<Item>)
    modifies kf
    ensures kf.name == old(kf.name) && kf.sections == old(kf.sections) + ItemSections(its)
  {
    for i := 0 to |its|
      invariant kf.name == old(kf.name) && kf.sections == old(kf.sections) + ItemSections(its[..i])
    {
      assert its[..i + 1][..i] == its[..i];
      if Written(its[i]) {
        var s := MakeSection(its[i]);
        kf.AddSection(s);
      }
    }
    assert its[..|its|] == its;
  }

  /** The whole file: the three sections, whatever sections the options in between leave, and
      the repeated sections. */
  function File(n: Config, between: seq<Section>, its: seq<Item>): seq<Section> {
    Compile(n) + between + ItemSections(its)
  }

  /** Sections that are not of the modelled kinds. */
  predicate Foreign(secs: seq<Section>) {
    forall i :: 0 <= i < |secs| ==> secs[i].name !in ["Match", "Link", "Network", "Address", "Route"]
  }

  /** `generate_network_config`: addresses first, then routes. */
  method GenerateFile(n: Config, between: seq<Section>, addresses: seq<Item>, routes: seq<Item>)
    returns (kf: KeyFile)
    ensures fresh(kf) && kf.sections == File(n, between, addresses + routes)
  {
    kf := GenerateSections(n);
    for i := 0 to |between|
      invariant fresh(kf) && kf.sections == Compile(n) + between[..i]
    {
      kf.AddSection(between[i]);
    }
    AppendItems(kf, addresses);
    AppendItems(kf, routes);
    ItemSectionsConcat(addresses, routes);
    Gather(Compile(n), between, ItemSections(addresses), ItemSections(routes));
  }

  lemma {:induction false} Gather(a: seq<Section>, b: seq<Section>, c: seq<Section>, d: seq<Section>)
    ensures a + b[..|b|] + c + d == a + b + (c + d)
  {
    assert b[..|b|] == b;
  }

  lemma {:induction false} ItemSectionsConcat(a: seq<Item>, b: seq<Item>)
    ensures ItemSections(a + b) == ItemSections(a) + ItemSections(b)
  {
    if b == [] {
      assert a + b == a;
    } else {
      assert (a + b)[..|a + b| - 1] == a + b[..|b| - 1];
      ItemSectionsConcat(a, b[..|b| - 1]);
    }
  }

  // ---------------------------------------------------------- reading it back

  /** What a section says under each key an item may have. */
  type Reading = seq<Option<Option<string>>>

  function ReadFields(keys: seq<Key>): (r: Reading)
    ensures |r| == |ITEM_FIELDS|
  {
    seq(|ITEM_FIELDS|, i requires 0 <= i < |ITEM_FIELDS| => ReadKey(keys, ItemKey(ITEM_FIELDS[i])))
  }

  function Fields(it: Item): (r: Reading)
    ensures |r| == |ITEM_FIELDS|
  {
    seq(|ITEM_FIELDS|, i requires 0 <= i < |ITEM_FIELDS| => ItemValue(it, ITEM_FIELDS[i]))
  }

  predicate Repeated(name: string) {
    name == "Address" || name == "Route"
  }

  /** The address and route sections of a file, in order. */
  function ReadItems(secs: seq<Section>): seq<(string, Reading)> {
    if secs == [] then []
    else
      var last := secs[|secs| - 1];
      ReadItems(secs[..|secs| - 1]) + if Repeated(last.name) then [(last.name, ReadFields(last.keys))] else []
  }

  /** What a reader should find: each written item's name and fields, in order. */
  function Texts(its: seq<Item>): seq<(string, Reading)> {
    if its == [] then []
    else
      var last := its[|its| - 1];
      Texts(its[..|its| - 1]) + if Written(last) then [(ItemName(last), Fields(last))] else []
  }

  lemma {:induction false} ItemKeysDistinct(f: ItemField, g: ItemField)
    requires f != g
    ensures ItemKey(f) != ItemKey(g)
  {
    assert Code(ItemKey(f)) != Code(ItemKey(g));
  }

  lemma {:induction false} ReadKeysFor(it: Item, fs: seq<ItemField>, g: ItemField)
    ensures ReadKey(KeysFor(it, fs), ItemKey(g)) == if g in fs then ItemValue(it, g) else None
  {
    if fs != [] {
      var init, last := fs[..|fs| - 1], fs[|fs| - 1];
      ReadKeysFor(it, init, g);
      InitLast(fs);
      if last != g {
        ItemKeysDistinct(last, g);
      }
      ReadOpt(KeysFor(it, init), ItemKey(last), ItemValue(it, last), ItemKey(g));
    }
  }

  /** A section gives back every field that is set and no other. */
  lemma {:induction false} FieldsRecovered(it: Item)
    ensures ReadFields(ItemSection(it).keys) == Fields(it)
  {
    forall i | 0 <= i < |ITEM_FIELDS|
      ensures ReadKey(ItemSection(it).keys, ItemKey(ITEM_FIELDS[i])) == ItemValue(it, ITEM_FIELDS[i])
    {
      ReadKeysFor(it, ITEM_FIELDS, ITEM_FIELDS[i]);
    }
  }

  lemma {:induction false} ReadItemsConcat(a: seq<Section>, b: seq<Section>)
    ensures ReadItems(a + b) == ReadItems(a) + ReadItems(b)
  {
    if b == [] {
      assert a + b == a;
    } else {
      assert (a + b)[..|a + b| - 1] == a + b[..|b| - 1];
      ReadItemsConcat(a, b[..|b| - 1]);
    }
  }

  lemma {:induction false} NoItems(secs: seq<Section>)
    requires forall i :: 0 <= i < |secs| ==> !Repeated(secs[i].name)
    ensures ReadItems(secs) == []
  {
    if secs != [] {
      NoItems(secs[..|secs| - 1]);
    }
  }

  lemma {:induction false} SectionsRecovered(its: seq<Item>)
    ensures ReadItems(ItemSections(its)) == Texts(its)
  {
    if its != [] {
      var init, last := its[..|its| - 1], its[|its| - 1];
      SectionsRecovered(init);
      if Written(last) {
        FieldsRecovered(last);
        ReadItemsConcat(ItemSections(init), [ItemSection(last)]);
        assert [ItemSection(last)][..0] == [];
      } else {
        assert ItemSections(init) + [] == ItemSections(init);
      }
    }
  }

  // ------------------------------------------------------------ whole files

  lemma {:induction false} LookupWithout(secs: seq<Section>, s: string, k: string)
    requires Without(secs, s)
    ensures Lookup(secs, s, k) == None
  {
    if secs != [] {
      LookupWithout(secs[1..], s, k);
    }
  }

  lemma {:induction false} ItemNames(its: seq<Item>)
    ensures forall i :: 0 <= i < |ItemSections(its)| ==> Repeated(ItemSections(its)[i].name)
  {
    if its != [] {
      ItemNames(its[..|its| - 1]);
    }
  }

  lemma {:induction false} FileKeys(n: Config, between: seq<Section>, its: seq<Item>, g: Field)
    requires Foreign(between)
    ensures At(File(n, between, its), g) == At(Compile(n), g)
  {
    var s, k := SectionOf(g), KeyOf(g);
    LookupConcat(Compile(n) + between, ItemSections(its), s, k);
    LookupConcat(Compile(n), between, s, k);
    LookupWithout(between, s, k);
    ItemNames(its);
    LookupWithout(ItemSections(its), s, k);
  }

  lemma {:induction false} FileItems(n: Config, between: seq<Section>, its: seq<Item>)
    requires Foreign(between)
    ensures ReadItems(File(n, between, its)) == Texts(its)
  {
    CompileWithout(n, "Address");
    CompileWithout(n, "Route");
    NoItems(Compile(n));
    NoItems(between);
    ReadItemsConcat(Compile(n) + between, ItemSections(its));
    ReadItemsConcat(Compile(n), between);
    SectionsRecovered(its);
  }

  /** A generated file gives back every key of the three sections as intended, up to the
      missing gate on `optional` and large IPv6 MTUs, and every written address and route, field by field and in
      order; what stands between makes no difference. */
  lemma {:induction false} FileRecovers(n: Config, between: seq<Section>, its: seq<Item>, g: Field)
    requires Foreign(between)
    ensures At(File(n, between, its), g) == Intended(n, g) <==> !Missed(n, g)
    ensures ReadItems(File(n, between, its)) == Texts(its)
  {
    FileKeys(n, between, its, g);
    CompileRecovers(n, g);
    FileItems(n, between, its);
  }

  function AllAsRead(r: Reading): (t: Reading)
    ensures |t| == |r| && forall i :: 0 <= i < |r| ==> t[i] == AsRead(r[i])
  {
    seq(|r|, i requires 0 <= i < |r| => AsRead(r[i]))
  }

  function TextsAsRead(ts: seq<(string, Reading)>): seq<(string, Reading)> {
    if ts == [] then []
    else TextsAsRead(ts[..|ts| - 1]) + [(ts[|ts| - 1].0, AllAsRead(ts[|ts| - 1].1))]
  }

  /** No address or route section is empty, so none disappears from the text. */
  predicate ItemsHaveKeys(secs: seq<Section>) {
    forall i :: 0 <= i < |secs| && Repeated(secs[i].name) ==> secs[i].keys != []
  }

  lemma {:induction false} WrittenHasKeys(it: Item)
    requires Written(it)
    ensures ItemSection(it).keys != []
  {
    var f := if it.Address? then FAddress else if it.destination.Some? then FDestination else FGateway;
    assert f in ITEM_FIELDS by {
      assert ITEM_FIELDS[0] == FAddress && ITEM_FIELDS[3] == FDestination && ITEM_FIELDS[4] == FGateway;
    }
    ReadKeysFor(it, ITEM_FIELDS, f);
  }

  lemma {:induction false} SectionsHaveKeys(its: seq<Item>)
    ensures ItemsHaveKeys(ItemSections(its))
  {
    if its != [] {
      SectionsHaveKeys(its[..|its| - 1]);
      if Written(its[|its| - 1]) {
        WrittenHasKeys(its[|its| - 1]);
      }
    }
  }

  lemma {:induction false} FileHasKeys(n: Config, between: seq<Section>, its: seq<Item>)
    requires Foreign(between)
    ensures ItemsHaveKeys(File(n, between, its))
  {
    CompileWithout(n, "Address");
    CompileWithout(n, "Route");
    SectionsHaveKeys(its);
  }

  lemma {:induction false} FieldsNormal(keys: seq<Key>)
    ensures ReadFields(NormalKeys(keys)) == AllAsRead(ReadFields(keys))
  {
    forall i | 0 <= i < |ITEM_FIELDS|
      ensures ReadFields(NormalKeys(keys))[i] == AsRead(ReadFields(keys)[i])
    {
      ReadNormal(keys, ItemKey(ITEM_FIELDS[i]));
    }
  }

  lemma {:induction false} ItemsSnoc(secs: seq<Section>, s: Section)
    ensures ReadItems(secs + [s]) == ReadItems(secs) + if Repeated(s.name) then [(s.name, ReadFields(s.keys))] else []
  {
    assert (secs + [s])[..|secs|] == secs;
  }

  lemma {:induction false} ItemsNormal(secs: seq<Section>)
    requires ItemsHaveKeys(secs)
    ensures ReadItems(Normal(secs)) == TextsAsRead(ReadItems(secs))
  {
    if secs != [] {
      var init, last := secs[..|secs| - 1], secs[|secs| - 1];
      ItemsNormal(init);
      ItemsNormalStep(Normal(init), ReadItems(init), last);
    }
  }

  lemma {:induction false} ItemsNormalStep(secs: seq<Section>, ts: seq<(string, Reading)>, s: Section)
    requires ReadItems(secs) == TextsAsRead(ts)
    requires Repeated(s.name) ==> s.keys != []
    ensures ReadItems(secs + if s.keys == [] then [] else [Section(s.name, NormalKeys(s.keys))]) ==
      TextsAsRead(ts + if Repeated(s.name) then [(s.name, ReadFields(s.keys))] else [])
  {
    assert secs + [] == secs && ts + [] == ts;
    if s.keys != [] {
      ItemsSnoc(secs, Section(s.name, NormalKeys(s.keys)));
      FieldsNormal(s.keys);
      if Repeated(s.name) {
        TextsSnoc(ts, s);
      }
    }
  }

  lemma {:induction false} TextsSnoc(ts: seq<(string, Reading)>, s: Section)
    ensures TextsAsRead(ts + [(s.name, ReadFields(s.keys))]) ==
      TextsAsRead(ts) + [(s.name, AllAsRead(ReadFields(s.keys)))]
  {
    var all := ts + [(s.name, ReadFields(s.keys))];
    assert all[..|all| - 1] == ts;
  }

  /** Saving a generated file and parsing it back changes values only by trimming them and
      by giving an empty value to a key without one; no address or route is lost. */
  lemma {:induction false} FileThroughText(n: Config, between: seq<Section>, its: seq<Item>, g: Field)
    requires Foreign(between) && Good(File(n, between, its))
    ensures Parse(Save(File(n, between, its))).Done?
    ensures At(Parse(Save(File(n, between, its))).value, g) == AsRead(At(Compile(n), g))
    ensures ReadItems(Parse(Save(File(n, between, its))).value) == TextsAsRead(Texts(its))
  {
    var file := File(n, between, its);
    SaveParse(file);
    LookupNormal(file, SectionOf(g), KeyOf(g));
    FileKeys(n, between, its, g);
    FileHasKeys(n, between, its);
    ItemsNormal(file);
    FileItems(n, between, its);
  }
}
