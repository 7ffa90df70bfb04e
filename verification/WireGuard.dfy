/** WireGuard peer sections (the peer loop of `generate_netdev_config` in src/manager/netdev.c)
    and what a reader of the saved file gets back. */
module WireGuard {
  import opened Wrappers
  import opened Strings
  import opened KeyFiles
  import opened KeyFileText

  datatype Peer = Peer(
    publicKey: Option<string>,
    endpoint: Option<string>,
    presharedKey: Option<string>,
    presharedKeyFile: Option<string>,
    allowedIps: Option<seq<string>>,
    keepAlive: nat)

  function AllowedText(ips: Option<seq<string>>): Option<string> {
    match ips case None => None case Some(xs) => Some(Spaced(xs))
  }

  function KeepAliveText(n: nat): Option<string> {
    if n > 0 then Some(Decimal(n)) else None
  }

  datatype PeerField = PublicKey | Endpoint | PresharedKey | PresharedKeyFile | AllowedIPs | PersistentKeepalive

  /** The order in which the keys are added. */
  const PEER_FIELDS: seq<PeerField> :=
    [PublicKey, Endpoint, PresharedKey, PresharedKeyFile, AllowedIPs, PersistentKeepalive]

  function PeerKey(f: PeerField): string {
    match f
    case PublicKey => "PublicKey"
    case Endpoint => "Endpoint"
    case PresharedKey => "PresharedKey"
    case PresharedKeyFile => "PresharedKeyFile"
    case AllowedIPs => "AllowedIPs"
    case PersistentKeepalive => "PersistentKeepalive"
  }

  function PeerValue(p: Peer, f: PeerField): Option<string> {
    match f
    case PublicKey => p.publicKey
    case Endpoint => p.endpoint
    case PresharedKey => p.presharedKey
    case PresharedKeyFile => p.presharedKeyFile
    case AllowedIPs => AllowedText(p.allowedIps)
    case PersistentKeepalive => KeepAliveText(p.keepAlive)
  }

  function KeysFor(p: Peer, fs: seq<PeerField>): seq<Key> {
    if fs == [] then []
    else
      var last := fs[|fs| - 1];
      KeysFor(p, fs[..|fs| - 1]) + OptKey(PeerKey(last), Wrap(PeerValue(p, last)))
  }

  function PeerSection(p: Peer): Section {
    Section("WireGuardPeer", KeysFor(p, PEER_FIELDS))
  }

  function PeerSections(ps: seq<Peer>): seq<Section> {
    if ps == [] then [] else PeerSections(ps[..|ps| - 1]) + [PeerSection(ps[|ps| - 1])]
  }

  /** `add_key_to_section` for the next field, if it is set. */
  method AddIfSet(keys: seq<Key>, p: Peer, f: PeerField, v: Option<string>, ghost j: nat) returns (r: seq<Key>)
    requires j < |PEER_FIELDS| && PEER_FIELDS[j] == f && v == PeerValue(p, f)
    requires keys == KeysFor(p, PEER_FIELDS[..j])
    ensures r == KeysFor(p, PEER_FIELDS[..j + 1])
  {
    assert PEER_FIELDS[..j + 1][..j] == PEER_FIELDS[..j];
    r := if v.Some? then keys + [Key(PeerKey(f), v)] else keys;
    assert keys + [] == keys;
  }

  method MakeSection(p: Peer) returns (s: Section)
    ensures s == PeerSection(p)
  {
    var allowed: Option<string> := None;
    if p.allowedIps.Some? {
      var c := JoinSpaced(p.allowedIps.value);
      allowed := Some(c);
    }
    var keys := AddIfSet([], p, PublicKey, p.publicKey, 0);
    keys := AddIfSet(keys, p, Endpoint, p.endpoint, 1);
    keys := AddIfSet(keys, p, PresharedKey, p.presharedKey, 2);
    keys := AddIfSet(keys, p, PresharedKeyFile, p.presharedKeyFile, 3);
    keys := AddIfSet(keys, p, AllowedIPs, allowed, 4);
    keys := AddIfSet(keys, p, PersistentKeepalive, KeepAliveText(p.keepAlive), 5);
    assert PEER_FIELDS[..6] == PEER_FIELDS;
    s := Section("WireGuardPeer", keys);
  }

  /** The peer loop. */
  method AppendPeers(kf: KeyFile, peers: seq<Peer>)
    modifies kf
    ensures kf.name == old(kf.name) && kf.sections == old(kf.sections) + PeerSections(peers)
  {
    var i := 0;
    while i < |peers|
      invariant 0 <= i <= |peers|
      invariant kf.name == old(kf.name) && kf.sections == old(kf.sections) + PeerSections(peers[..i])
    {
      var s := MakeSection(peers[i]);
      assert peers[..i + 1][..i] == peers[..i];
      assert PeerSections(peers[..i + 1]) == PeerSections(peers[..i]) + [s];
      kf.AddSection(s);
      i := i + 1;
    }
    assert peers[..i] == peers;
  }

  // ---------------------------------------------------------------- reading

  /** The value of a key, if it has one. */
  function Said(keys: seq<Key>, k: string): Option<string> {
    match ReadKey(keys, k) case None => None case Some(v) => v
  }

  function ReadNumber(s: string): nat {
    if forall k :: 0 <= k < |s| ==> '0' <= s[k] <= '9' then DecimalValue(s) else 0
  }

  function ReadAllowed(v: Option<string>): Option<seq<string>> {
    match v case None => None case Some(t) => Some(Entries(Split(t, ' ', 0)))
  }

  function ReadKeepAlive(v: Option<string>): nat {
    match v case None => 0 case Some(t) => ReadNumber(t)
  }

  function ReadPeer(keys: seq<Key>): Peer {
    Peer(Said(keys, PeerKey(PublicKey)), Said(keys, PeerKey(Endpoint)), Said(keys, PeerKey(PresharedKey)),
         Said(keys, PeerKey(PresharedKeyFile)),
         ReadAllowed(Said(keys, PeerKey(AllowedIPs))), ReadKeepAlive(Said(keys, PeerKey(PersistentKeepalive))))
  }

  function ReadPeers(secs: seq<Section>): seq<Peer> {
    if secs == [] then []
    else
      var last := secs[|secs| - 1];
      ReadPeers(secs[..|secs| - 1]) + if last.name == "WireGuardPeer" then [ReadPeer(last.keys)] else []
  }

  // ------------------------------------------------------------------- laws

  lemma {:induction false} PeerKeysDistinct(f: PeerField, g: PeerField)
    requires f != g
    ensures PeerKey(f) != PeerKey(g)
  {
    assert |PeerKey(f)| != |PeerKey(g)|;
  }

  lemma {:induction false} ReadFor(p: Peer, fs: seq<PeerField>, g: PeerField)
    ensures ReadKey(KeysFor(p, fs), PeerKey(g)) == if g in fs then Wrap(PeerValue(p, g)) else None
  {
    if fs != [] {
      var init, last := fs[..|fs| - 1], fs[|fs| - 1];
      ReadFor(p, init, g);
      InitLast(fs);
      if last != g {
        PeerKeysDistinct(last, g);
      }
      ReadOpt(KeysFor(p, init), PeerKey(last), Wrap(PeerValue(p, last)), PeerKey(g));
    }
  }

  /** A section says under each key what the peer has there. */
  lemma {:induction false} ReadField(p: Peer, g: PeerField)
    ensures ReadKey(PeerSection(p).keys, PeerKey(g)) == Wrap(PeerValue(p, g))
  {
    ReadFor(p, PEER_FIELDS, g);
    assert PEER_FIELDS[0] == PublicKey && PEER_FIELDS[1] == Endpoint && PEER_FIELDS[2] == PresharedKey;
    assert PEER_FIELDS[3] == PresharedKeyFile && PEER_FIELDS[4] == AllowedIPs && PEER_FIELDS[5] == PersistentKeepalive;
  }

  predicate GoodPeer(p: Peer) {
    p.allowedIps.Some? ==> GoodEntries(p.allowedIps.value)
  }

  lemma {:induction false} FieldSaid(p: Peer, g: PeerField)
    ensures Said(PeerSection(p).keys, PeerKey(g)) == PeerValue(p, g)
  {
    ReadField(p, g);
  }

  lemma {:induction false} AllowedSaid(p: Peer)
    requires GoodPeer(p)
    ensures ReadAllowed(Said(PeerSection(p).keys, PeerKey(AllowedIPs))) == p.allowedIps
  {
    FieldSaid(p, AllowedIPs);
    if p.allowedIps.Some? {
      EntriesRecovered(p.allowedIps.value);
    }
  }

  lemma {:induction false} KeepAliveSaid(p: Peer)
    ensures ReadKeepAlive(Said(PeerSection(p).keys, PeerKey(PersistentKeepalive))) == p.keepAlive
  {
    FieldSaid(p, PersistentKeepalive);
    if p.keepAlive > 0 {
      DecimalRoundTrip(p.keepAlive);
    }
  }

  /** A section gives its peer back. */
  lemma {:induction false} PeerRecovered(p: Peer)
    requires GoodPeer(p)
    ensures ReadPeer(PeerSection(p).keys) == p
  {
    FieldSaid(p, PublicKey);
    FieldSaid(p, Endpoint);
    FieldSaid(p, PresharedKey);
    FieldSaid(p, PresharedKeyFile);
    AllowedSaid(p);
    KeepAliveSaid(p);
  }

  lemma {:induction false} ReadPeersSnoc(secs: seq<Section>, s: Section)
    ensures ReadPeers(secs + [s]) == ReadPeers(secs) + if s.name == "WireGuardPeer" then [ReadPeer(s.keys)] else []
  {
    assert (secs + [s])[..|secs|] == secs;
  }

  lemma {:induction false} ReadPeersConcat(a: seq<Section>, b: seq<Section>)
    ensures ReadPeers(a + b) == ReadPeers(a) + ReadPeers(b)
  {
    if b == [] {
      assert a + b == a;
    } else {
      assert (a + b)[..|a + b| - 1] == a + b[..|b| - 1];
      ReadPeersConcat(a, b[..|b| - 1]);
    }
  }

  /** The section holds the peer. */
  predicate Tells(s: Section, p: Peer) {
    s.name == "WireGuardPeer" && ReadPeer(s.keys) == p
  }

  predicate AllTell(secs: seq<Section>, ps: seq<Peer>)
    decreases |ps|
  {
    |secs| == |ps| && (ps == [] || (AllTell(secs[..|ps| - 1], ps[..|ps| - 1]) && Tells(secs[|ps| - 1], ps[|ps| - 1])))
  }

  lemma {:induction false} ReadTold(secs: seq<Section>, ps: seq<Peer>)
    requires AllTell(secs, ps)
    ensures ReadPeers(secs) == ps
    decreases |ps|
  {
    if ps != [] {
      var k := |ps| - 1;
      ReadTold(secs[..k], ps[..k]);
      NextRead(secs[..k], ps[..k], secs[k], ps[k]);
      InitLast(secs);
      InitLast(ps);
    }
  }

  lemma {:induction false} NextRead(secs: seq<Section>, ps: seq<Peer>, s: Section, p: Peer)
    requires ReadPeers(secs) == ps && Tells(s, p)
    ensures ReadPeers(secs + [s]) == ps + [p]
  {
    ReadPeersSnoc(secs, s);
  }

  lemma {:induction false} SectionsTell(ps: seq<Peer>)
    requires forall i :: 0 <= i < |ps| ==> GoodPeer(ps[i])
    ensures AllTell(PeerSections(ps), ps)
  {
    if ps != [] {
      var init, last := ps[..|ps| - 1], ps[|ps| - 1];
      SectionsTell(init);
      PeerRecovered(last);
      assert PeerSections(ps)[..|ps| - 1] == PeerSections(init);
    }
  }

  /** One section per peer, in order: reading the sections back gives the list, after the
      peers that were there. */
  lemma {:induction false} PeersRecovered(secs: seq<Section>, ps: seq<Peer>)
    requires forall i :: 0 <= i < |ps| ==> GoodPeer(ps[i])
    ensures ReadPeers(secs + PeerSections(ps)) == ReadPeers(secs) + ps
  {
    ReadPeersConcat(secs, PeerSections(ps));
    SectionsTell(ps);
    ReadTold(PeerSections(ps), ps);
  }

  // -------------------------------------------------------- through the file

  /** Text that a saved and parsed value keeps. */
  predicate Kept(v: Option<string>) {
    v.Some? ==> Trimmed(v.value)
  }

  /** A peer none of whose fields the text form changes. */
  predicate TextPeer(p: Peer) {
    && GoodPeer(p)
    && Kept(p.publicKey) && Kept(p.endpoint) && Kept(p.presharedKey) && Kept(p.presharedKeyFile)
    && (p.allowedIps.Some? ==>
          forall i, k :: 0 <= i < |p.allowedIps.value| && 0 <= k < |p.allowedIps.value[i]| ==>
            !IsSpace(p.allowedIps.value[i][k]))
  }

  lemma {:induction false} DecimalTrim(n: nat)
    ensures Trim(Decimal(n)) == Decimal(n)
  {
    TrimTrimmed(Decimal(n));
    assert Trimmed(Decimal(n));
  }

  /** A section read back from the file says under each key the trimmed text. */
  lemma {:induction false} FieldThroughText(p: Peer, g: PeerField)
    ensures Said(NormalKeys(PeerSection(p).keys), PeerKey(g)) ==
      match PeerValue(p, g) case None => None case Some(v) => Some(Trim(v))
  {
    ReadNormal(PeerSection(p).keys, PeerKey(g));
    ReadField(p, g);
  }

  lemma {:induction false} KeptThroughText(p: Peer, g: PeerField)
    requires Kept(PeerValue(p, g))
    ensures Said(NormalKeys(PeerSection(p).keys), PeerKey(g)) == PeerValue(p, g)
  {
    FieldThroughText(p, g);
    KeptTrim(PeerValue(p, g));
  }

  lemma {:induction false} AllowedThroughText(p: Peer)
    requires TextPeer(p)
    ensures ReadAllowed(Said(NormalKeys(PeerSection(p).keys), PeerKey(AllowedIPs))) == p.allowedIps
  {
    FieldThroughText(p, AllowedIPs);
    if p.allowedIps.Some? {
      SpacedTrim(p.allowedIps.value);
      EntriesRecovered(p.allowedIps.value);
    }
  }

  lemma {:induction false} KeepAliveThroughText(p: Peer)
    ensures ReadKeepAlive(Said(NormalKeys(PeerSection(p).keys), PeerKey(PersistentKeepalive))) == p.keepAlive
  {
    FieldThroughText(p, PersistentKeepalive);
    if p.keepAlive > 0 {
      DecimalTrim(p.keepAlive);
      DecimalRoundTrip(p.keepAlive);
    }
  }

  /** A section read back from the file gives its peer back. */
  lemma {:induction false} PeerThroughText(p: Peer)
    requires TextPeer(p)
    ensures ReadPeer(NormalKeys(PeerSection(p).keys)) == p
  {
    KeptThroughText(p, PublicKey);
    KeptThroughText(p, Endpoint);
    KeptThroughText(p, PresharedKey);
    KeptThroughText(p, PresharedKeyFile);
    AllowedThroughText(p);
    KeepAliveThroughText(p);
  }

  lemma {:induction false} KeptTrim(v: Option<string>)
    requires Kept(v)
    ensures v.Some? ==> Trim(v.value) == v.value
  {
    if v.Some? {
      TrimTrimmed(v.value);
    }
  }

  /** The peer sets nothing. */
  predicate Empty(p: Peer) {
    PeerSection(p).keys == []
  }

  /** The peers that set something. */
  function Described(ps: seq<Peer>): seq<Peer> {
    if ps == [] then []
    else
      var last := ps[|ps| - 1];
      Described(ps[..|ps| - 1]) + if Empty(last) then [] else [last]
  }

  /** The peers of a file read back after a save. */
  function ReadBack(secs: seq<Section>): seq<Peer> {
    ReadPeers(Normal(secs))
  }

  /** The section holds the peer and keeps it through the text. */
  predicate TellsText(s: Section, p: Peer) {
    s.name == "WireGuardPeer" && ReadPeer(NormalKeys(s.keys)) == p && (s.keys == [] <==> Empty(p))
  }

  lemma {:induction false} NormalTold(secs: seq<Section>, s: Section, p: Peer)
    requires TellsText(s, p)
    ensures ReadBack(secs + [s]) == ReadBack(secs) + if Empty(p) then [] else [p]
  {
    NormalSnoc(secs, s);
    if s.keys == [] {
      assert Normal(secs) + [] == Normal(secs);
    } else {
      ReadPeersSnoc(Normal(secs), Section("WireGuardPeer", NormalKeys(s.keys)));
    }
  }

  predicate AllTellText(secs: seq<Section>, ps: seq<Peer>)
    decreases |ps|
  {
    && |secs| == |ps|
    && (ps == [] || (AllTellText(secs[..|ps| - 1], ps[..|ps| - 1]) && TellsText(secs[|ps| - 1], ps[|ps| - 1])))
  }

  lemma {:induction false} ReadToldText(secs: seq<Section>, ps: seq<Peer>)
    requires AllTellText(secs, ps)
    ensures ReadBack(secs) == Described(ps)
    decreases |ps|
  {
    if ps != [] {
      var k := |ps| - 1;
      ReadToldText(secs[..k], ps[..k]);
      NextTold(secs[..k], ps[..k], secs[k], ps[k]);
      InitLast(secs);
      InitLast(ps);
    }
  }

  lemma {:induction false} NextTold(secs: seq<Section>, ps: seq<Peer>, s: Section, p: Peer)
    requires ReadBack(secs) == Described(ps) && TellsText(s, p)
    ensures ReadBack(secs + [s]) == Described(ps + [p])
  {
    NormalTold(secs, s, p);
    assert (ps + [p])[..|ps|] == ps;
  }

  lemma {:induction false} SectionsTellText(ps: seq<Peer>)
    requires forall i :: 0 <= i < |ps| ==> TextPeer(ps[i])
    ensures AllTellText(PeerSections(ps), ps)
  {
    if ps != [] {
      var init, last := ps[..|ps| - 1], ps[|ps| - 1];
      SectionsTellText(init);
      PeerThroughText(last);
      assert PeerSections(ps)[..|ps| - 1] == PeerSections(init);
    }
  }

  /** Saving the sections and parsing the file gives back, in order, the peers that set
      something; a peer that sets nothing leaves no section in the file. */
  lemma {:induction false} PeersNormal(secs: seq<Section>, ps: seq<Peer>)
    requires forall i :: 0 <= i < |ps| ==> TextPeer(ps[i])
    ensures ReadBack(secs + PeerSections(ps)) == ReadBack(secs) + Described(ps)
  {
    SectionsTellText(ps);
    ReadToldText(PeerSections(ps), ps);
    NormalConcat(secs, PeerSections(ps));
    ReadPeersConcat(Normal(secs), Normal(PeerSections(ps)));
  }

  lemma {:induction false} PeersThroughText(secs: seq<Section>, ps: seq<Peer>)
    requires forall i :: 0 <= i < |ps| ==> TextPeer(ps[i])
    requires Good(secs + PeerSections(ps))
    ensures Parse(Save(secs + PeerSections(ps))).Done?
    ensures ReadPeers(Parse(Save(secs + PeerSections(ps))).value) == ReadBack(secs) + Described(ps)
  {
    SaveParse(secs + PeerSections(ps));
    PeersNormal(secs, ps);
  }
}
