/** `nmctl` link features: the argument loop of `ncm_configure_link_features`
    (src/manager/ncm-link.c) into the writes of `netdev_link_configure`
    (src/manager/netdev-link.c). */
module LinkFeatures {
  import opened Wrappers
  import opened Strings
  import opened KeyFiles
  import opened KeyFileText
  import opened ConfigStore

  /** The keywords, in the order they are compared. */
  const KEYWORDS: seq<string> :=
    ["auton", "rxcsumo", "txcsumo", "tso", "tso6", "gso", "grxo", "grxoh",
     "lrxo", "rxvtha", "txvtha", "rxvtf", "txvstha", "ntf", "uarxc", "uatxc"]

  /** The configuration keys, in the order they are written. */
  const KEYS: seq<string> :=
    ["AutoNegotiation", "ReceiveChecksumOffload", "TransmitChecksumOffload", "TCPSegmentationOffload",
     "TCP6SegmentationOffload", "GenericSegmentationOffload", "GenericReceiveOffload", "GenericReceiveOffloadHardware",
     "LargeReceiveOffload", "ReceiveVLANCTAGHardwareAcceleration", "TransmitVLANCTAGHardwareAcceleration",
     "ReceiveVLANCTAGFilter", "TransmitVLANSTAGHardwareAcceleration", "NTupleFilter",
     "UseAdaptiveRxCoalesce", "UseAdaptiveTxCoalesce"]

  const COUNT: nat := |KEYS|

  function FeatureFrom(word: string, j: nat): (r: nat)
    requires j <= COUNT
    ensures r <= COUNT
    decreases COUNT - j
  {
    if j == COUNT then COUNT else if EqFold(word, KEYWORDS[j]) then j else FeatureFrom(word, j + 1)
  }

  /** The feature a keyword names, or COUNT. */
  function Feature(word: string): (r: nat)
    ensures r <= COUNT
  {
    FeatureFrom(word, 0)
  }

  /** `parse_bool`. */
  function ParseBool(v: string): Option<int> {
    if v == "1" || EqFold(v, "yes") || EqFold(v, "y") || EqFold(v, "true") || EqFold(v, "t") || EqFold(v, "on")
        || EqFold(v, "enable")
    then Some(1)
    else if v == "0" || EqFold(v, "no") || EqFold(v, "n") || EqFold(v, "false") || EqFold(v, "f")
        || EqFold(v, "off") || EqFold(v, "disable")
    then Some(0)
    else None
  }

  type Setting = s: seq<int> | |s| == COUNT witness seq(COUNT, _ => -1)

  /** `netdev_link_new`: nothing is set. */
  const UNSET: Setting := seq(COUNT, _ => -1)

  /** One assignment: a feature and the value it is given. */
  type Op = op: (nat, int) | op.0 < COUNT && 0 <= op.1 <= 1 witness (0, 0)

  function DecodePair(k: string, v: string): Option<Op> {
    if Feature(k) == COUNT then None
    else match ParseBool(v) case None => None case Some(b) => Some((Feature(k), b))
  }

  /** The arguments as assignments: keyword and value pairs; anything else, or a keyword
      without its value, ends the call (or the process) with an error. */
  function Decode(words: seq<string>): Option<seq<Op>>
    decreases |words|
  {
    if words == [] then Some([])
    else if |words| == 1 || DecodePair(words[0], words[1]).None? then None
    else
      match Decode(words[2..])
      case None => None
      case Some(ops) => Some([DecodePair(words[0], words[1]).value] + ops)
  }

  function Assign(given: Setting, ops: seq<Op>): Setting {
    if ops == [] then given
    else
      var op := ops[|ops| - 1];
      Assign(given, ops[..|ops| - 1])[op.0 := op.1]
  }

  /** The writes under the first `j` of these keys, for those that are set. */
  function WritesUnder(keys: seq<string>, given: seq<int>, j: nat): (ws: seq<Write>)
    requires j <= |keys| == |given|
  {
    if j == 0 then []
    else
      WritesUnder(keys, given, j - 1) +
      if given[j - 1] >= 0 then [Write("Link", keys[j - 1], Some(YesNo(given[j - 1] != 0)))] else []
  }

  /** The writes of the first `j` features. */
  function Writes(given: Setting, j: nat): seq<Write>
    requires j <= COUNT
  {
    WritesUnder(KEYS, given, j)
  }

  class NetDevLink {
    /** One tri-state field per feature. */
    const feature: array<int>

    constructor ()
      ensures fresh(feature) && feature.Length == COUNT && feature[..] == UNSET
    {
      feature := new int[COUNT](_ => -1);
    }
  }

  lemma {:induction false} AssignSnoc(given: Setting, ops: seq<Op>, op: Op)
    ensures Assign(given, ops + [op]) == Assign(given, ops)[op.0 := op.1]
  {
    assert (ops + [op])[..|ops|] == ops;
  }

  function Prepend(ops: seq<Op>, rest: Option<seq<Op>>): Option<seq<Op>> {
    if rest.None? then None else Some(ops + rest.value)
  }

  lemma {:induction false} DecodeStep(words: seq<string>, i: nat, ops: seq<Op>)
    requires i + 1 < |words|
    ensures Prepend(ops, Decode(words[i..])) ==
      var op := DecodePair(words[i], words[i + 1]);
      if op.None? then None else Prepend(ops + [op.value], Decode(words[i + 2..]))
  {
    var rest := words[i..];
    assert rest[0] == words[i] && rest[1] == words[i + 1] && rest[2..] == words[i + 2..];
    var op := DecodePair(words[i], words[i + 1]);
    if op.Some? && Decode(words[i + 2..]).Some? {
      assert ops + ([op.value] + Decode(words[i + 2..]).value) == (ops + [op.value]) + Decode(words[i + 2..]).value;
    }
  }

  /** The argument loop of `ncm_configure_link_features`. */
  method ParseArguments(words: seq<string>, n: NetDevLink) returns (r: Outcome<()>)
    requires n.feature.Length == COUNT
    modifies n.feature
    ensures match Decode(words)
            case Some(ops) => r == Done(()) && n.feature[..] == Assign(old(n.feature[..]), ops)
            case None => r == Failed(EINVAL)
  {
    ghost var ops: seq<Op> := [];
    var i := 0;
    assert words[0..] == words;
    assert Decode(words).Some? ==> [] + Decode(words).value == Decode(words).value;
    while i < |words|
      invariant 0 <= i <= |words|
      invariant Decode(words) == Prepend(ops, Decode(words[i..]))
      invariant n.feature[..] == Assign(old(n.feature[..]), ops)
    {
      if i + 1 >= |words| {
        return Failed(EINVAL);
      }
      DecodeStep(words, i, ops);
      var op := DecodePair(words[i], words[i + 1]);
      if op.None? {
        return Failed(EINVAL);
      }
      AssignSnoc(old(n.feature[..]), ops, op.value);
      n.feature[op.value.0] := op.value.1;
      ops := ops + [op.value];
      i := i + 2;
    }
    assert words[i..] == [];
    assert ops + [] == ops;
    r := Done(());
  }

  /** The files once the first `j` features are written: one file differs. */
  ghost predicate Written(before: map<string, string>, path: string, given: Setting, j: nat, now: map<string, string>)
    requires j <= COUNT
  {
    && path in before && path in now && now == before[path := now[path]]
    && FileSetAll(before[path], Writes(given, j)) == Done(now[path])
  }

  lemma {:induction false} NothingWritten(before: map<string, string>, path: string, given: Setting)
    requires path in before
    ensures Written(before, path, given, 0, before)
  {
    assert before[path := before[path]] == before;
  }

  /** One feature of `netdev_link_configure`, after the first `j` are written. */
  method WriteFeature(store: Store, path: string, j: nat, b: int, ghost before: map<string, string>,
      ghost given: Setting)
    returns (r: Outcome<()>)
    requires j < COUNT && b == given[j] && Written(before, path, given, j, store.text)
    modifies store
    ensures r.Done? ==> Written(before, path, given, j + 1, store.text)
    ensures !r.Done? ==> !FileSetAll(before[path], Writes(given, j + 1)).Done?
  {
    ghost var text := store.text[path];
    if b < 0 {
      assert Writes(given, j + 1) == Writes(given, j);
      return Done(());
    }
    FileSetAllSnoc(before[path], Writes(given, j), Write("Link", KEYS[j], Some(YesNo(b != 0))));
    r := store.SetConfigFileStr(path, "Link", KEYS[j], YesNo(b != 0));
    if r.Done? {
      Overwritten(before, path, text, store.text[path]);
    }
  }

  /** The feature writes of `netdev_link_configure`, one file update each. The C code repeats
      the same three lines per feature. */
  method Configure(store: Store, path: string, n: NetDevLink) returns (r: Outcome<()>)
    requires n.feature.Length == COUNT && path in store.text
    modifies store
    ensures var end := FileSetAll(old(store.text)[path], Writes(n.feature[..], COUNT));
      && (r.Done? <==> end.Done?)
      && (r.Done? ==> store.text == old(store.text)[path := end.value])
  {
    ghost var before := store.text;
    ghost var given: Setting := n.feature[..];
    NothingWritten(before, path, given);
    var j := 0;
    r := Done(());
    while j < n.feature.Length
      invariant 0 <= j <= n.feature.Length == COUNT
      invariant n.feature[..] == given
      invariant r.Done? && Written(before, path, given, j, store.text)
    {
      r := WriteFeature(store, path, j, n.feature[j], before, given);
      if !r.Done? {
        ConfigureStops(before[path], given, j + 1);
        return;
      }
      j := j + 1;
    }
  }

  lemma {:induction false} ConfigureStops(text: string, given: Setting, j: nat)
    requires j <= COUNT && !FileSetAll(text, Writes(given, j)).Done?
    ensures !FileSetAll(text, Writes(given, COUNT)).Done?
  {
    WritesPrefix(given, j, COUNT);
    FileSetAllStops(text, Writes(given, COUNT), |Writes(given, j)|);
  }

  lemma {:induction false} WritesPrefix(given: Setting, i: nat, j: nat)
    requires i <= j <= COUNT
    ensures |Writes(given, i)| <= |Writes(given, j)|
    ensures Writes(given, j)[..|Writes(given, i)|] == Writes(given, i)
  {
    if i < j {
      WritesPrefix(given, i, j - 1);
    }
  }

  /** A new link file's [Match] section: the device's MAC address, if it has one. */
  function MacMatch(text: string, mac: string): Outcome<string> {
    if mac != "" then FileSet(text, "Match", "MACAddress", mac) else Done(text)
  }

  function NameMatch(text: string, ifname: string): Outcome<string> {
    FileSet(text, "Match", "OriginalName", ifname)
  }

  /** The link file's text before the features are written: a missing file is created with a
      [Match] section for the MAC address and the name. */
  function LinkFile(text: Option<string>, ifname: string, mac: string): Outcome<string> {
    match text
    case Some(t) => Done(t)
    case None =>
      var start := MacMatch("", mac);
      if start.Done? then NameMatch(start.value, ifname) else start
  }

  function Find(m: map<string, string>, path: string): Option<string> {
    if path in m then Some(m[path]) else None
  }

  /** `create_or_parse_netdev_link_conf_file`. */
  method LinkConfFile(store: Store, path: string, ifname: string, mac: string) returns (r: Outcome<()>)
    modifies store
    ensures var t := LinkFile(Find(old(store.text), path), ifname, mac);
      && (r.Done? <==> t.Done?)
      && (r.Done? ==> store.text == old(store.text)[path := t.value])
  {
    if path in store.text {
      return Done(());
    }
    ghost var before := store.text;
    store.CreateConfFile(path);
    r := MatchMac(store, path, mac);
    if r.Done? {
      ghost var t := MacMatch("", mac).value;
      Overwritten(before, path, "", t);
      r := MatchName(store, path, ifname);
      if r.Done? {
        Overwritten(before, path, t, NameMatch(t, ifname).value);
      }
    }
  }

  lemma {:induction false} Overwritten(m: map<string, string>, path: string, a: string, b: string)
    ensures m[path := a][path := b] == m[path := b]
  {
  }

  method MatchName(store: Store, path: string, ifname: string) returns (r: Outcome<()>)
    requires path in store.text
    modifies store
    ensures var t := NameMatch(old(store.text)[path], ifname);
      && (r.Done? <==> t.Done?)
      && (r.Done? ==> store.text == old(store.text)[path := t.value])
  {
    r := store.SetConfigFileStr(path, "Match", "OriginalName", ifname);
  }

  method MatchMac(store: Store, path: string, mac: string) returns (r: Outcome<()>)
    requires path in store.text
    modifies store
    ensures var t := MacMatch(old(store.text)[path], mac);
      && (r.Done? <==> t.Done?)
      && (r.Done? ==> store.text == old(store.text)[path := t.value])
  {
    r := Done(());
    if mac != "" {
      r := store.SetConfigFileStr(path, "Match", "MACAddress", mac);
    }
  }

  /** `ncm_configure_link_features` on a known link: nothing is written, nor any file
      created, unless every argument is good. */
  method ConfigureLinkFeatures(store: Store, path: string, ifname: string, mac: string, words: seq<string>)
    returns (r: Outcome<()>)
    modifies store
    ensures Decode(words).None? ==> r == Failed(EINVAL) && store.text == old(store.text)
    ensures Decode(words).Some? ==>
      var start := LinkFile(Find(old(store.text), path), ifname, mac);
      if !start.Done? then !r.Done?
      else
        var end := FileSetAll(start.value, Writes(Assign(UNSET, Decode(words).value), COUNT));
        && (r.Done? <==> end.Done?)
        && (r.Done? ==> store.text == old(store.text)[path := end.value])
  {
    var n := new NetDevLink();
    r := ParseArguments(words, n);
    if r.Done? {
      r := LinkConfFile(store, path, ifname, mac);
    }
    if r.Done? {
      r := Configure(store, path, n);
    }
  }

  // ------------------------------------------------------------------- laws

  /** The value the last assignment to feature `j` gives it, or what it was. */
  function LastGiven(ops: seq<Op>, j: nat, was: int): int {
    if ops == [] then was
    else
      var op := ops[|ops| - 1];
      if op.0 == j then op.1 else LastGiven(ops[..|ops| - 1], j, was)
  }

  lemma {:induction false} LastValueWins(given: Setting, ops: seq<Op>, j: nat)
    requires j < COUNT
    ensures Assign(given, ops)[j] == LastGiven(ops, j, given[j])
  {
    if ops != [] {
      LastValueWins(given, ops[..|ops| - 1], j);
    }
  }

  /** The outcome depends only on the last value given for each feature, so pairs naming
      different features may come in any order. */
  lemma {:induction false} OnlyLastValuesMatter(a: seq<Op>, b: seq<Op>)
    requires forall j: nat :: j < COUNT ==> LastGiven(a, j, -1) == LastGiven(b, j, -1)
    ensures Writes(Assign(UNSET, a), COUNT) == Writes(Assign(UNSET, b), COUNT)
  {
    forall j: nat | j < COUNT
      ensures Assign(UNSET, a)[j] == Assign(UNSET, b)[j]
    {
      LastValueWins(UNSET, a, j);
      LastValueWins(UNSET, b, j);
    }
    assert Assign(UNSET, a) == Assign(UNSET, b);
  }

  function PairAt(words: seq<string>, i: nat): Option<Op>
    requires 2 * i + 1 < |words|
  {
    DecodePair(words[2 * i], words[2 * i + 1])
  }

  lemma {:induction false} PairOfTail(words: seq<string>, i: nat)
    requires 2 * i + 3 < |words|
    ensures PairAt(words[2..], i) == PairAt(words, i + 1)
  {
  }

  /** The loop accepts exactly the lists of whole good pairs. */
  lemma {:induction false} DecodeExactly(words: seq<string>)
    ensures Decode(words).Some? <==> |words| % 2 == 0 && forall i :: 0 <= i < |words| / 2 ==> PairAt(words, i).Some?
    decreases |words|
  {
    if |words| >= 2 {
      var rest := words[2..];
      DecodeExactly(rest);
      forall i | 0 <= i < |rest| / 2
        ensures PairAt(rest, i) == PairAt(words, i + 1)
      {
        PairOfTail(words, i);
      }
      assert PairAt(words, 0) == DecodePair(words[0], words[1]);
      assert |words| / 2 == |rest| / 2 + 1;
      forall i | 1 <= i < |words| / 2
        ensures PairAt(words, i) == PairAt(rest, i - 1)
      {
        PairOfTail(words, i - 1);
      }
    }
  }

  lemma {:induction false} KeysDistinct(i: nat, j: nat)
    requires i < j < COUNT
    ensures KEYS[i] != KEYS[j]
  {
  }

  lemma {:induction false} NextWrite(keys: seq<string>, given: seq<int>, j: nat, k: string)
    requires j < |keys| == |given|
    ensures LastWrite(WritesUnder(keys, given, j + 1), "Link", k) ==
      if keys[j] == k && given[j] >= 0 then Some(Some(YesNo(given[j] != 0)))
      else LastWrite(WritesUnder(keys, given, j), "Link", k)
  {
    var before := WritesUnder(keys, given, j);
    if given[j] >= 0 {
      LastWriteSnoc(before, Write("Link", keys[j], Some(YesNo(given[j] != 0))), "Link", k);
    } else {
      assert before + [] == before;
    }
  }

  /** Under distinct keys, each key's write is that of its own value. */
  lemma {:induction false} WriteUnder(keys: seq<string>, given: seq<int>, j: nat, k: nat)
    requires k < |keys| == |given| && j <= |keys|
    requires forall i :: 0 <= i < |keys| && i != k ==> keys[i] != keys[k]
    ensures LastWrite(WritesUnder(keys, given, j), "Link", keys[k]) ==
      if k < j && given[k] >= 0 then Some(Some(YesNo(given[k] != 0))) else None
  {
    if j > 0 {
      WriteUnder(keys, given, j - 1, k);
      NextWriteOf(keys, given, j - 1, k);
    }
  }

  lemma {:induction false} NextWriteOf(keys: seq<string>, given: seq<int>, j: nat, k: nat)
    requires j < |keys| == |given| && k < |keys| && (j != k ==> keys[j] != keys[k])
    ensures LastWrite(WritesUnder(keys, given, j + 1), "Link", keys[k]) ==
      if j == k && given[j] >= 0 then Some(Some(YesNo(given[j] != 0)))
      else LastWrite(WritesUnder(keys, given, j), "Link", keys[k])
  {
    NextWrite(keys, given, j, keys[k]);
  }

  lemma {:induction false} WriteOf(given: Setting, j: nat, k: nat)
    requires k < COUNT && j <= COUNT
    ensures LastWrite(Writes(given, j), "Link", KEYS[k]) ==
      if k < j && given[k] >= 0 then Some(Some(YesNo(given[k] != 0))) else None
  {
    forall i | 0 <= i < COUNT && i != k
      ensures KEYS[i] != KEYS[k]
    {
      if i < k {
        KeysDistinct(i, k);
      } else {
        KeysDistinct(k, i);
      }
    }
    WriteUnder(KEYS, given, j, k);
  }

  lemma {:induction false} WritesGood(given: Setting, j: nat)
    requires j <= COUNT
    ensures GoodWrites(Writes(given, j), "Link")
  {
    if j > 0 {
      WritesGood(given, j - 1);
      KeyGood(j - 1);
    }
  }

  lemma {:induction false} ShortKeysAreWords()
    ensures Word("AutoNegotiation") && Word("NTupleFilter")
  {
  }

  lemma {:induction false} CoalesceKeysAreWords()
    ensures Word("UseAdaptiveRxCoalesce") && Word("UseAdaptiveTxCoalesce")
  {
  }

  lemma {:induction false} ChecksumKeysAreWords()
    ensures Word("ReceiveChecksumOffload") && Word("TransmitChecksumOffload")
  {
  }

  lemma {:induction false} SegmentationKeysAreWords()
    ensures Word("TCPSegmentationOffload") && Word("TCP6SegmentationOffload")
  {
  }

  lemma {:induction false} LargeKeysAreWords()
    ensures Word("GenericSegmentationOffload") && Word("LargeReceiveOffload")
  {
  }

  lemma {:induction false} FilterKeyIsWord()
    ensures Word("ReceiveVLANCTAGFilter")
  {
  }

  lemma {:induction false} ReceiveKeysAreWords()
    ensures Word("GenericReceiveOffload") && Word("GenericReceiveOffloadHardware")
  {
  }

  lemma {:induction false} ReceiveVlanKeyIsWord()
    ensures Word("ReceiveVLANCTAGHardwareAcceleration")
  {
  }

  lemma {:induction false} TransmitVlanKeyIsWord()
    ensures Word("TransmitVLANCTAGHardwareAcceleration")
  {
  }

  lemma {:induction false} TransmitServiceVlanKeyIsWord()
    ensures Word("TransmitVLANSTAGHardwareAcceleration")
  {
  }

  lemma {:induction false} KeyGood(j: nat)
    requires j < COUNT
    ensures GoodWrite("Link", KEYS[j], "yes") && GoodWrite("Link", KEYS[j], "no")
  {
    ShortKeysAreWords();
    CoalesceKeysAreWords();
    ChecksumKeysAreWords();
    SegmentationKeysAreWords();
    ReceiveKeysAreWords();
    LargeKeysAreWords();
    FilterKeyIsWord();
    ReceiveVlanKeyIsWord();
    TransmitVlanKeyIsWord();
    TransmitServiceVlanKeyIsWord();
    WordGood(KEYS[j]);
  }

  lemma {:induction false} WordGood(k: string)
    requires Word(k)
    ensures GoodWrite("Link", k, "yes") && GoodWrite("Link", k, "no")
  {
    WordKey(k, Some("yes"));
    WordKey(k, Some("no"));
  }

  lemma {:induction false} NoOtherWrite(given: Setting, j: nat, s: string, k: string)
    requires j <= COUNT && (s != "Link" || k !in KEYS)
    ensures LastWrite(Writes(given, j), s, k) == None
  {
    if j > 0 {
      NoOtherWrite(given, j - 1, s, k);
      assert KEYS[j - 1] in KEYS;
      if given[j - 1] < 0 {
        assert Writes(given, j - 1) + [] == Writes(given, j - 1);
      }
    }
  }

  /** The link file after its writes. */
  function Configured(text: string, given: Setting): Outcome<string> {
    FileSetAll(text, Writes(given, COUNT))
  }

  predicate Readable(file: Outcome<string>) {
    file.Done? && Parse(file.value).Done?
  }

  /** What a readable file says under a key. */
  function Says(file: Outcome<string>, s: string, k: string): Option<Option<string>>
    requires Readable(file)
  {
    Lookup(Parse(file.value).value, s, k)
  }

  lemma {:induction false} SomeWrite(ops: seq<Op>)
    requires ops != []
    ensures Writes(Assign(UNSET, ops), COUNT) != []
  {
    var f := ops[|ops| - 1].0;
    LastValueWins(UNSET, ops, f);
    WriteOf(Assign(UNSET, ops), COUNT, f);
  }

  lemma {:induction false} FeaturesWritten(text: string, ops: seq<Op>)
    requires Plain(text) && Readable(Done(text)) && ops != []
    ensures Readable(Configured(text, Assign(UNSET, ops)))
    ensures Parse(Configured(text, Assign(UNSET, ops)).value) ==
      Done(Normal(SetAll(Parse(text).value, Writes(Assign(UNSET, ops), COUNT))))
  {
    WritesGood(Assign(UNSET, ops), COUNT);
    SomeWrite(ops);
    ManyWritesRead(text, Writes(Assign(UNSET, ops), COUNT), "Link");
  }

  lemma {:induction false} SaysLastWrite(text: string, ops: seq<Op>, s: string, k: string)
    requires Plain(text) && Readable(Done(text)) && ops != []
    ensures Readable(Configured(text, Assign(UNSET, ops)))
    ensures var last := LastWrite(Writes(Assign(UNSET, ops), COUNT), s, k);
      Says(Configured(text, Assign(UNSET, ops)), s, k) == AsRead(if last.Some? then last else Says(Done(text), s, k))
  {
    var ws := Writes(Assign(UNSET, ops), COUNT);
    FeaturesWritten(text, ops);
    LastWriteWins(Parse(text).value, ws, s, k);
    LookupNormal(SetAll(Parse(text).value, ws), s, k);
  }

  /** End to end, for any plain, readable link file and any argument list that sets something:
      the file read again says for each feature named its last value, and under every other
      key of any section what it said before, a key without a value now having an empty one. */
  lemma {:induction false} FeaturesEndToEnd(text: string, ops: seq<Op>)
    requires Plain(text) && Readable(Done(text)) && ops != []
    ensures Readable(Configured(text, Assign(UNSET, ops)))
    ensures forall j: nat :: j < COUNT ==>
      Says(Configured(text, Assign(UNSET, ops)), "Link", KEYS[j]) ==
        if LastGiven(ops, j, -1) >= 0 then Some(Some(YesNo(LastGiven(ops, j, -1) != 0)))
        else AsRead(Says(Done(text), "Link", KEYS[j]))
    ensures forall s, k :: s != "Link" || k !in KEYS ==>
      Says(Configured(text, Assign(UNSET, ops)), s, k) == AsRead(Says(Done(text), s, k))
  {
    FeaturesWritten(text, ops);
    forall j: nat | j < COUNT
      ensures Says(Configured(text, Assign(UNSET, ops)), "Link", KEYS[j]) ==
        if LastGiven(ops, j, -1) >= 0 then Some(Some(YesNo(LastGiven(ops, j, -1) != 0)))
        else AsRead(Says(Done(text), "Link", KEYS[j]))
    {
      FeatureSays(text, ops, j);
    }
    forall s, k | s != "Link" || k !in KEYS
      ensures Says(Configured(text, Assign(UNSET, ops)), s, k) == AsRead(Says(Done(text), s, k))
    {
      SaysLastWrite(text, ops, s, k);
      NoOtherWrite(Assign(UNSET, ops), COUNT, s, k);
    }
  }

  lemma {:induction false} FeatureSays(text: string, ops: seq<Op>, j: nat)
    requires Plain(text) && Readable(Done(text)) && ops != [] && j < COUNT
    ensures Readable(Configured(text, Assign(UNSET, ops)))
    ensures Says(Configured(text, Assign(UNSET, ops)), "Link", KEYS[j]) ==
      if LastGiven(ops, j, -1) >= 0 then Some(Some(YesNo(LastGiven(ops, j, -1) != 0)))
      else AsRead(Says(Done(text), "Link", KEYS[j]))
  {
    SaysLastWrite(text, ops, "Link", KEYS[j]);
    LastValueWins(UNSET, ops, j);
    WriteOf(Assign(UNSET, ops), COUNT, j);
    YesNoTrim(LastGiven(ops, j, -1) != 0);
  }

  lemma {:induction false} YesNoTrim(b: bool)
    ensures Trim(YesNo(b)) == YesNo(b)
  {
    TrimTrimmed(YesNo(b));
  }
}
