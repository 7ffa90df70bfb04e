/** Enslaving the members of a bond, bridge or VRF (`generate_master_device_network` in
    src/manager/network.c): the loop is the same for the three kinds. */
module MasterDevice {
  import opened Wrappers
  import opened Strings
  import opened KeyFiles
  import opened KeyFileText
  import opened ConfigStore

  /** What the system knows of links: the index of a device name, the network file systemd
      uses for an index, and the path of the file nmctl makes for a name. */
  datatype Links = Links(index: string -> Option<nat>, file: nat -> Option<string>, conf: string -> string)

  /** `parse_ifname_or_index` into a variable that keeps its value when the name is unknown. */
  function IndexAfter(links: Links, p: Option<nat>, name: string): Option<nat> {
    if links.index(name).Some? then links.index(name) else p
  }

  function InUse(links: Links, p: Option<nat>): Option<string> {
    if p.Some? then links.file(p.value) else None
  }

  /** `parse_network_file`: the file in use for the index, else the one made for the name. */
  function PathFor(links: Links, p: Option<nat>, name: string): string {
    match InUse(links, p) case Some(path) => path case None => links.conf(name)
  }

  /** `create_network_conf_file`. */
  function NewFile(name: string): string {
    Save([Section("Match", [Key("Name", Some(name))])])
  }

  /** `parse_network_file` creates the file made for the name when it is missing. */
  function Prepare(links: Links, files: map<string, string>, p: Option<nat>, name: string): map<string, string> {
    if InUse(links, p).None? && links.conf(name) !in files then files[links.conf(name) := NewFile(name)] else files
  }

  /** `config_exists` on a path: its negative error codes read as true. */
  function Configured(files: map<string, string>, path: string, key: string, dev: string): Outcome<bool> {
    if path !in files then Done(true)
    else
      match Parse(files[path])
      case Done(secs) => Exists(secs, "Network", key, dev)
      case Failed(_) => Done(true)
      case Crashed => Crashed
  }

  /** How a member's turn ends: the loop goes on, or stops at a member that has the key. */
  datatype Turn = Next(files: map<string, string>) | Stop(files: map<string, string>)

  /** One member's turn, once its index is known. */
  function TakeTurn(links: Links, files: map<string, string>, name: string, q: Option<nat>, key: string,
      dev: string): Outcome<Turn> {
    var ready := Prepare(links, files, q, name);
    var path := PathFor(links, q, name);
    match Configured(ready, path, key, dev)
    case Crashed => Crashed
    case Failed(e) => Failed(e)
    case Done(true) => Done(Stop(ready))
    case Done(false) =>
      match FileAdd(ready[path], "Network", key, dev)
      case Done(t) => Done(Next(ready[path := t]))
      case Failed(e) => Failed(e)
      case Crashed => Crashed
  }

  /** The loop over the members. */
  function Enslave(links: Links, files: map<string, string>, members: seq<string>, p: Option<nat>, key: string,
      dev: string): Outcome<map<string, string>>
    decreases |members|
  {
    if members == [] then Done(files)
    else
      var q := IndexAfter(links, p, members[0]);
      match TakeTurn(links, files, members[0], q, key, dev)
      case Done(Next(next)) => Enslave(links, next, members[1..], q, key, dev)
      case Done(Stop(last)) => Done(last)
      case Failed(e) => Failed(e)
      case Crashed => Crashed
  }

  /** `config_exists`. */
  method ConfigExists(store: Store, path: string, key: string, dev: string) returns (r: Outcome<bool>)
    ensures r == Configured(store.text, path, key, dev)
  {
    var loaded := store.Load(path);
    match loaded {
      case Failed(_) => r := Done(true);
      case Crashed => r := Crashed;
      case Done(kf) => r := kf.ConfigExists("Network", key, dev);
    }
  }

  /** `create_network_conf_file`. */
  method CreateNetworkConfFile(store: Store, path: string, name: string) returns (r: Outcome<()>)
    modifies store
    ensures r == Done(()) && store.text == old(store.text)[path := NewFile(name)]
  {
    store.CreateConfFile(path);
    assert Parse("") == Done([]);
    r := store.SetConfigFileStr(path, "Match", "Name", name);
  }

  /** The body of one of the loops of `generate_master_device_network`. */
  method MemberTurn(store: Store, links: Links, name: string, q: Option<nat>, key: string, dev: string)
    returns (r: Outcome<bool>)
    modifies store
    ensures match TakeTurn(links, old(store.text), name, q, key, dev)
      case Done(Next(files)) => r == Done(true) && store.text == files
      case Done(Stop(files)) => r == Done(false) && store.text == files
      case Failed(_) => !r.Done?
      case Crashed => !r.Done?
  {
    var path := PathFor(links, q, name);
    if InUse(links, q).None? && path !in store.text {
      var created := CreateNetworkConfFile(store, path, name);
    }
    var found := ConfigExists(store, path, key, dev);
    match found {
      case Crashed => return Crashed;
      case Failed(e) => return Failed(e);
      case Done(b) =>
        if b {
          return Done(false);
        }
    }
    var added := store.AddKeyToSectionStr(path, "Network", key, dev);
    match added {
      case Crashed => return Crashed;
      case Failed(e) => return Failed(e);
      case Done(_) => return Done(true);
    }
  }

  /** One of the loops of `generate_master_device_network`. */
  method GenerateMembers(store: Store, links: Links, members: seq<string>, key: string, dev: string)
    returns (r: Outcome<()>)
    modifies store
    ensures var end := Enslave(links, old(store.text), members, None, key, dev);
      && (r.Done? <==> end.Done?)
      && (r.Done? ==> store.text == end.value)
  {
    var p: Option<nat> := None;
    var i := 0;
    assert members[0..] == members;
    while i < |members|
      invariant 0 <= i <= |members|
      invariant Enslave(links, old(store.text), members, None, key, dev) ==
        Enslave(links, store.text, members[i..], p, key, dev)
    {
      EnslaveNext(links, store.text, members, i, p, key, dev);
      p := IndexAfter(links, p, members[i]);
      var more := MemberTurn(store, links, members[i], p, key, dev);
      match more {
        case Crashed => return Crashed;
        case Failed(e) => return Failed(e);
        case Done(goOn) =>
          if !goOn {
            return Done(());
          }
      }
      i := i + 1;
    }
    r := Done(());
  }

  lemma {:induction false} EnslaveNext(links: Links, files: map<string, string>, members: seq<string>, i: nat,
      p: Option<nat>, key: string, dev: string)
    requires i < |members|
    ensures var q := IndexAfter(links, p, members[i]);
      Enslave(links, files, members[i..], p, key, dev) ==
        match TakeTurn(links, files, members[i], q, key, dev)
        case Done(Next(next)) => Enslave(links, next, members[i + 1..], q, key, dev)
        case Done(Stop(last)) => Done(last)
        case Failed(e) => Failed(e)
        case Crashed => Crashed
  {
    assert members[i..][0] == members[i] && members[i..][1..] == members[i + 1..];
  }

  // ------------------------------------------------------------------- laws

  /** The file each member's turn works on; the index carries over from member to member. */
  function Paths(links: Links, members: seq<string>, p: Option<nat>): (r: seq<string>)
    ensures |r| == |members|
  {
    if members == [] then []
    else
      var q := IndexAfter(links, p, members[0]);
      [PathFor(links, q, members[0])] + Paths(links, members[1..], q)
  }

  function Count(keys: seq<Key>, k: string, v: string): nat {
    if keys == [] then 0 else Count(keys[..|keys| - 1], k, v) + if keys[|keys| - 1] == Key(k, Some(v)) then 1 else 0
  }

  /** How often a file holds a key with a value. */
  function Occurrences(secs: seq<Section>, s: string, k: string, v: string): nat {
    if secs == [] then 0
    else
      var last := secs[|secs| - 1];
      Occurrences(secs[..|secs| - 1], s, k, v) + if last.name == s then Count(last.keys, k, v) else 0
  }

  lemma {:induction false} NoKeyNoCount(keys: seq<Key>, k: string, v: string)
    requires KeysExist(keys, k, v) == Done(false)
    ensures Count(keys, k, v) == 0
  {
    KeysExistAll(keys, k, v);
    CountNone(keys, k, v);
  }

  lemma {:induction false} KeysExistAll(keys: seq<Key>, k: string, v: string)
    requires KeysExist(keys, k, v) == Done(false)
    ensures forall i :: 0 <= i < |keys| && keys[i].name == k ==> keys[i].v.Some? && keys[i].v.value != v
  {
    if keys != [] {
      KeysExistAll(keys[1..], k, v);
      assert forall i :: 1 <= i < |keys| ==> keys[i] == keys[1..][i - 1];
    }
  }

  lemma {:induction false} CountNone(keys: seq<Key>, k: string, v: string)
    requires forall i :: 0 <= i < |keys| ==> keys[i] != Key(k, Some(v))
    ensures Count(keys, k, v) == 0
  {
    if keys != [] {
      CountNone(keys[..|keys| - 1], k, v);
    }
  }

  lemma {:induction false} ExistsNone(secs: seq<Section>, s: string, k: string, v: string)
    requires Exists(secs, s, k, v) == Done(false)
    ensures forall i :: 0 <= i < |secs| && secs[i].name == s ==> KeysExist(secs[i].keys, k, v) == Done(false)
  {
    if secs != [] {
      ExistsNone(secs[1..], s, k, v);
      assert forall i :: 1 <= i < |secs| ==> secs[i] == secs[1..][i - 1];
    }
  }

  lemma {:induction false} OccurrencesNone(secs: seq<Section>, s: string, k: string, v: string)
    requires forall i :: 0 <= i < |secs| && secs[i].name == s ==> KeysExist(secs[i].keys, k, v) == Done(false)
    ensures Occurrences(secs, s, k, v) == 0
  {
    if secs != [] {
      OccurrencesNone(secs[..|secs| - 1], s, k, v);
      if secs[|secs| - 1].name == s {
        NoKeyNoCount(secs[|secs| - 1].keys, k, v);
      }
    }
  }

  lemma {:induction false} OccurrencesUpdate(secs: seq<Section>, i: nat, sec: Section, s: string, k: string, v: string)
    requires i < |secs| && secs[i].name == sec.name == s
    ensures Occurrences(secs[i := sec], s, k, v) + Count(secs[i].keys, k, v) ==
      Occurrences(secs, s, k, v) + Count(sec.keys, k, v)
  {
    var init := secs[..|secs| - 1];
    if i < |secs| - 1 {
      assert secs[i := sec][..|secs| - 1] == init[i := sec];
      OccurrencesUpdate(init, i, sec, s, k, v);
    } else {
      assert secs[i := sec][..|secs| - 1] == init;
    }
  }

  /** Reading the keys back neither drops nor makes a key of that name and value. */
  predicate Steady(keys: seq<Key>, k: string) {
    forall j :: 0 <= j < |keys| && keys[j].name == k ==> keys[j].v.Some? && Trimmed(keys[j].v.value)
  }

  lemma {:induction false} CountNormal(keys: seq<Key>, k: string, v: string)
    requires Steady(keys, k)
    ensures Count(NormalKeys(keys), k, v) == Count(keys, k, v)
  {
    if keys != [] {
      var init, last := keys[..|keys| - 1], keys[|keys| - 1];
      CountNormal(init, k, v);
      TrimTrimmed(Text(last.v));
      assert NormalKeys(keys)[..|keys| - 1] == NormalKeys(init);
    }
  }

  lemma {:induction false} OccurrencesSnoc(secs: seq<Section>, last: Section, s: string, k: string, v: string)
    ensures Occurrences(secs + [last], s, k, v) ==
      Occurrences(secs, s, k, v) + if last.name == s then Count(last.keys, k, v) else 0
  {
    assert (secs + [last])[..|secs|] == secs;
  }

  lemma {:induction false} OccurrencesNormal(secs: seq<Section>, s: string, k: string, v: string)
    requires forall i :: 0 <= i < |secs| && secs[i].name == s ==> Steady(secs[i].keys, k)
    ensures Occurrences(Normal(secs), s, k, v) == Occurrences(secs, s, k, v)
  {
    if secs != [] {
      var init, last := secs[..|secs| - 1], secs[|secs| - 1];
      OccurrencesNormal(init, s, k, v);
      InitLast(secs);
      NormalSnoc(init, last);
      if last.name == s {
        CountNormal(last.keys, k, v);
      }
      if last.keys != [] {
        OccurrencesSnoc(Normal(init), Section(last.name, NormalKeys(last.keys)), s, k, v);
      }
    }
  }

  lemma {:induction false} AddSteady(secs: seq<Section>, s: string, k: string, v: string)
    requires Exists(secs, s, k, v) == Done(false) && AllSettled(secs) && Trimmed(v)
    ensures var after := Add(secs, s, k, v);
      forall i :: 0 <= i < |after| && after[i].name == s ==> Steady(after[i].keys, k)
  {
    ExistsNone(secs, s, k, v);
    forall i | 0 <= i < |secs| && secs[i].name == s
      ensures Steady(secs[i].keys, k)
    {
      KeysExistAll(secs[i].keys, k, v);
      assert Settled(secs[i]);
    }
  }

  /** Adding a key that a file read earlier does not have makes it occur exactly once, in the
      file written and read again too. */
  lemma {:induction false} AddedOnce(secs: seq<Section>, s: string, k: string, v: string)
    requires Exists(secs, s, k, v) == Done(false) && AllSettled(secs) && Trimmed(v)
    ensures Occurrences(secs, s, k, v) == 0 && Occurrences(Normal(Add(secs, s, k, v)), s, k, v) == 1
  {
    AddOccursOnce(secs, s, k, v);
    AddSteady(secs, s, k, v);
    OccurrencesNormal(Add(secs, s, k, v), s, k, v);
  }

  lemma {:induction false} AddOccursOnce(secs: seq<Section>, s: string, k: string, v: string)
    requires Exists(secs, s, k, v) == Done(false)
    ensures Occurrences(secs, s, k, v) == 0 && Occurrences(Add(secs, s, k, v), s, k, v) == 1
  {
    ExistsNone(secs, s, k, v);
    OccurrencesNone(secs, s, k, v);
    var i := FindSection(secs, s);
    if i < |secs| {
      var more := secs[i].keys + [Key(k, Some(v))];
      assert more[..|more| - 1] == secs[i].keys;
      OccurrencesUpdate(secs, i, Section(s, more), s, k, v);
    } else {
      var added := Section(s, [Key(k, Some(v))]);
      assert (secs + [added])[..|secs|] == secs;
      assert Count(added.keys, k, v) == 1;
    }
  }

  /** No key of that name lacks a value, so searching it cannot fail. */
  predicate Valued(secs: seq<Section>) {
    forall i, j :: 0 <= i < |secs| && 0 <= j < |secs[i].keys| ==> secs[i].keys[j].v.Some?
  }

  lemma {:induction false} KeysExistFound(keys: seq<Key>, k: string, v: string, j: nat)
    requires j < |keys| && keys[j] == Key(k, Some(v))
    requires forall m :: 0 <= m < |keys| ==> keys[m].v.Some?
    ensures KeysExist(keys, k, v) == Done(true)
  {
    if j > 0 {
      KeysExistFound(keys[1..], k, v, j - 1);
    }
  }

  lemma {:induction false} KeysExistDone(keys: seq<Key>, k: string, v: string)
    requires forall m :: 0 <= m < |keys| ==> keys[m].v.Some?
    ensures KeysExist(keys, k, v) == Done(true) || KeysExist(keys, k, v) == Done(false)
  {
    if keys != [] {
      KeysExistDone(keys[1..], k, v);
    }
  }

  lemma {:induction false} ExistsFound(secs: seq<Section>, s: string, k: string, v: string, i: nat, j: nat)
    requires Valued(secs) && i < |secs| && secs[i].name == s
    requires j < |secs[i].keys| && secs[i].keys[j] == Key(k, Some(v))
    ensures Exists(secs, s, k, v) == Done(true)
  {
    if secs[0].name == s {
      KeysExistDone(secs[0].keys, k, v);
    }
    if i == 0 {
      KeysExistFound(secs[0].keys, k, v, j);
    } else {
      var rest := secs[1..];
      assert rest[i - 1] == secs[i];
      assert forall m :: 0 <= m < |rest| ==> rest[m] == secs[m + 1];
      ExistsFound(rest, s, k, v, i - 1, j);
    }
  }

  lemma {:induction false} NormalValued(secs: seq<Section>)
    ensures Valued(Normal(secs))
  {
    if secs != [] {
      NormalValued(secs[..|secs| - 1]);
    }
  }

  /** Where the sections of a file stand in its normal form. */
  lemma {:induction false} NormalKeeps(secs: seq<Section>, i: nat) returns (m: nat)
    requires i < |secs| && secs[i].keys != []
    ensures m < |Normal(secs)| && Normal(secs)[m] == Section(secs[i].name, NormalKeys(secs[i].keys))
  {
    if i == |secs| - 1 {
      m := |Normal(secs[..i])|;
    } else {
      m := NormalKeeps(secs[..|secs| - 1], i);
    }
  }

  /** Once a file has been given the key, it is found there. */
  lemma {:induction false} AddedIsFound(secs: seq<Section>, s: string, k: string, v: string)
    requires Trimmed(v)
    ensures Exists(Normal(Add(secs, s, k, v)), s, k, v) == Done(true)
  {
    var after := Add(secs, s, k, v);
    var i := FindSection(secs, s);
    var keys := after[i].keys;
    assert keys[|keys| - 1] == Key(k, Some(v));
    var m := NormalKeeps(after, i);
    TrimTrimmed(v);
    NormalValued(after);
    ExistsFound(Normal(after), s, k, v, m, |keys| - 1);
  }

  // --------------------------------------------------- the loop as a whole

  /** The text a member's turn finds: its file's, or that of the file nmctl makes for it. A
      file in use that is missing is not made. */
  function FoundText(links: Links, files: map<string, string>, q: Option<nat>, name: string): Option<string> {
    var path := PathFor(links, q, name);
    if path in files then Some(files[path])
    else if InUse(links, q).None? then Some(NewFile(name))
    else None
  }

  function Texts(links: Links, files: map<string, string>, members: seq<string>,
      p: Option<nat>): (r: seq<Option<string>>)
    ensures |r| == |members|
  {
    if members == [] then []
    else
      var q := IndexAfter(links, p, members[0]);
      [FoundText(links, files, q, members[0])] + Texts(links, files, members[1..], q)
  }

  /** The text can be read and searched. */
  predicate Usable(t: Option<string>, key: string, dev: string) {
    && t.Some? && Plain(t.value) && Parse(t.value).Done?
    && (Exists(Parse(t.value).value, "Network", key, dev) == Done(true)
        || Exists(Parse(t.value).value, "Network", key, dev) == Done(false))
  }

  /** The text already has the key. */
  predicate Has(t: Option<string>, key: string, dev: string) {
    t.Some? && Parse(t.value).Done? && Exists(Parse(t.value).value, "Network", key, dev) == Done(true)
  }

  /** The loop ends at the member: its file has the key, or is in use and missing. */
  predicate Ends(t: Option<string>, key: string, dev: string) {
    t.None? || Has(t, key, dev)
  }

  /** How many members come before the first one at which the loop ends or whose file is that
      of an earlier member. */
  function Leading(paths: seq<string>, ts: seq<Option<string>>, seen: set<string>, key: string, dev: string): (c: nat)
    requires |paths| == |ts|
    ensures c <= |ts|
  {
    if ts == [] || Ends(ts[0], key, dev) || paths[0] in seen then 0
    else 1 + Leading(paths[1..], ts[1..], seen + {paths[0]}, key, dev)
  }

  /** The member can be given the key: the loop does not end there, and no earlier member has
      its file. */
  predicate Open(paths: seq<string>, ts: seq<Option<string>>, seen: set<string>, key: string, dev: string, i: nat)
    requires i < |paths| == |ts|
  {
    !Ends(ts[i], key, dev) && paths[i] !in seen && paths[i] !in paths[..i]
  }

  lemma {:induction false} LeadingOpen(paths: seq<string>, ts: seq<Option<string>>, seen: set<string>, key: string,
      dev: string, i: nat)
    requires |paths| == |ts| && i < |ts|
    ensures i < Leading(paths, ts, seen, key, dev) ==> Open(paths, ts, seen, key, dev, i)
    ensures i == Leading(paths, ts, seen, key, dev) ==> !Open(paths, ts, seen, key, dev, i)
  {
    if i > 0 && !Ends(ts[0], key, dev) && paths[0] !in seen {
      LeadingOpen(paths[1..], ts[1..], seen + {paths[0]}, key, dev, i - 1);
      assert paths[..i] == [paths[0]] + paths[1..][..i - 1];
      assert paths[1..][i - 1] == paths[i] && ts[1..][i - 1] == ts[i];
    }
  }

  predicate Distinct(paths: seq<string>) {
    forall i, j :: 0 <= i < j < |paths| ==> paths[i] != paths[j]
  }

  /** The number of members that are given the key. */
  function Given(links: Links, files: map<string, string>, members: seq<string>, p: Option<nat>, key: string,
      dev: string): (c: nat)
    ensures c <= |members|
  {
    Leading(Paths(links, members, p), Texts(links, files, members, p), {}, key, dev)
  }

  ghost predicate AllUsable(links: Links, files: map<string, string>, members: seq<string>, p: Option<nat>,
      key: string, dev: string) {
    forall i :: 0 <= i < Given(links, files, members, p, key, dev) ==>
        Usable(Texts(links, files, members, p)[i], key, dev)
  }

  /** The file at a path reads back as the text found there with the key added, and now has
      the key exactly once. */
  ghost predicate Enslaved(t: Option<string>, after: map<string, string>, path: string, key: string, dev: string) {
    && t.Some? && path in after && Parse(t.value).Done?
    && Parse(after[path]) == Done(Normal(Add(Parse(t.value).value, "Network", key, dev)))
    && Occurrences(Parse(after[path]).value, "Network", key, dev) == 1
  }

  /** Files that differ only at one path give the members of other paths the same texts. */
  lemma {:induction false} TextsElsewhere(links: Links, f: map<string, string>, g: map<string, string>,
      members: seq<string>, p: Option<nat>, path: string)
    requires forall x :: x != path ==> (x in f <==> x in g) && (x in f ==> f[x] == g[x])
    requires path in g
    ensures forall i :: 0 <= i < |members| ==>
      Texts(links, g, members, p)[i] ==
        if Paths(links, members, p)[i] == path then Some(g[path]) else Texts(links, f, members, p)[i]
  {
    if members != [] {
      var q := IndexAfter(links, p, members[0]);
      var own, rest := PathFor(links, q, members[0]), members[1..];
      var t, u := FoundText(links, f, q, members[0]), FoundText(links, g, q, members[0]);
      TextsElsewhere(links, f, g, rest, q, path);
      assert u == if own == path then Some(g[path]) else t;
      OneMore(own, Paths(links, rest, q), t, Texts(links, f, rest, q), u, Texts(links, g, rest, q), path, g[path]);
    }
  }

  lemma {:induction false} OneMore(name: string, paths: seq<string>, t: Option<string>, ts: seq<Option<string>>,
      u: Option<string>, us: seq<Option<string>>, path: string, text: string)
    requires |paths| == |ts| == |us|
    requires u == if name == path then Some(text) else t
    requires forall i :: 0 <= i < |us| ==> us[i] == if paths[i] == path then Some(text) else ts[i]
    ensures var (names, fs, gs) := ([name] + paths, [t] + ts, [u] + us);
      forall i :: 0 <= i < |gs| ==> gs[i] == if names[i] == path then Some(text) else fs[i]
  {
  }

  /** A path where the loop would end now counts like one seen before. */
  lemma {:induction false} LeadingSeen(paths: seq<string>, ts: seq<Option<string>>, next: seq<Option<string>>,
      seen: set<string>, path: string, key: string, dev: string)
    requires |paths| == |ts| == |next|
    requires forall i :: 0 <= i < |paths| ==> if paths[i] == path then Ends(next[i], key, dev) else next[i] == ts[i]
    ensures Leading(paths, ts, seen + {path}, key, dev) == Leading(paths, next, seen, key, dev)
  {
    if paths != [] && paths[0] != path {
      assert seen + {path} + {paths[0]} == seen + {paths[0]} + {path};
      LeadingSeen(paths[1..], ts[1..], next[1..], seen + {paths[0]}, path, key, dev);
    }
  }

  /** The loop's result: the members before the first one that already has the key, or whose
      file is missing or an earlier member's, are given it, every other file that existed is
      as it was, and no file appears but a member's. */
  ghost predicate Result(files: map<string, string>, paths: seq<string>, ts: seq<Option<string>>, key: string,
      dev: string, after: map<string, string>)
    requires |ts| == |paths|
  {
    var c := Leading(paths, ts, {}, key, dev);
    && (forall i :: 0 <= i < c ==> Enslaved(ts[i], after, paths[i], key, dev))
    && (forall x :: x in files && x !in paths[..c] ==> x in after && after[x] == files[x])
    && (forall x :: x in after && x !in paths ==> x in files)
  }

  /** With files that can be read, the loop gives the key to the members before the first one
      that already has it or shares an earlier member's file, and touches nothing else. */
  lemma {:induction false} EnslavesLeading(links: Links, files: map<string, string>, members: seq<string>,
      p: Option<nat>, key: string, dev: string)
    requires GoodWrite("Network", key, dev)
    requires AllUsable(links, files, members, p, key, dev)
    ensures Enslave(links, files, members, p, key, dev).Done?
    ensures Result(files, Paths(links, members, p), Texts(links, files, members, p), key, dev,
      Enslave(links, files, members, p, key, dev).value)
    decreases |members|
  {
    if members != [] {
      var paths, ts := Paths(links, members, p), Texts(links, files, members, p);
      if Ends(ts[0], key, dev) {
        FirstEnds(links, files, members, p, key, dev);
      } else {
        var q, next := FirstTurn(links, files, members, p, key, dev);
        TailUsable(links, files, next, members, p, key, dev);
        EnslavesLeading(links, next, members[1..], q, key, dev);
        var after := Enslave(links, next, members[1..], q, key, dev).value;
        ResultCons(files, next, paths, ts, Texts(links, next, members[1..], q), key, dev, after);
      }
    }
  }

  /** A first member at which the loop does not end is given the key, and the loop goes on. */
  lemma {:induction false} FirstTurn(links: Links, files: map<string, string>, members: seq<string>, p: Option<nat>,
      key: string, dev: string) returns (q: Option<nat>, next: map<string, string>)
    requires GoodWrite("Network", key, dev)
    requires members != [] && AllUsable(links, files, members, p, key, dev)
    requires !Ends(Texts(links, files, members, p)[0], key, dev)
    ensures q == IndexAfter(links, p, members[0])
    ensures Enslave(links, files, members, p, key, dev) == Enslave(links, next, members[1..], q, key, dev)
    ensures var path := Paths(links, members, p)[0];
      && (forall x :: x != path ==> (x in next <==> x in files) && (x in files ==> next[x] == files[x]))
      && Enslaved(Texts(links, files, members, p)[0], next, path, key, dev)
      && Has(Some(next[path]), key, dev)
  {
    q := IndexAfter(links, p, members[0]);
    var t := FoundText(links, files, q, members[0]);
    assert Texts(links, files, members, p)[0] == t;
    assert Usable(t, key, dev);
    GivenOnce(t.value, key, dev);
    var ready := Prepare(links, files, q, members[0]);
    next := ready[PathFor(links, q, members[0]) := FileAdd(t.value, "Network", key, dev).value];
  }

  /** A text without the key is written with the key in it once. */
  lemma {:induction false} GivenOnce(text: string, key: string, dev: string)
    requires GoodWrite("Network", key, dev) && Usable(Some(text), key, dev) && !Has(Some(text), key, dev)
    ensures FileAdd(text, "Network", key, dev).Done?
    ensures Parse(FileAdd(text, "Network", key, dev).value) == Done(Normal(Add(Parse(text).value, "Network", key, dev)))
    ensures Occurrences(Parse(FileAdd(text, "Network", key, dev).value).value, "Network", key, dev) == 1
    ensures Has(Some(FileAdd(text, "Network", key, dev).value), key, dev)
  {
    FileAddRead(text, "Network", key, dev);
    ParseSettled(text);
    AddedOnce(Parse(text).value, "Network", key, dev);
    AddedIsFound(Parse(text).value, "Network", key, dev);
  }

  /** What a turn leaves for the later members: the texts of other files, and a text with the
      key in its own. */
  ghost predicate After(paths: seq<string>, ts: seq<Option<string>>, next: seq<Option<string>>, key: string,
      dev: string)
    requires |paths| == |ts| == |next| + 1
  {
    forall i :: 0 <= i < |next| ==>
      if paths[i + 1] == paths[0] then Ends(next[i], key, dev) else next[i] == ts[i + 1]
  }

  lemma {:induction false} LeadingAfter(paths: seq<string>, ts: seq<Option<string>>, next: seq<Option<string>>,
      key: string, dev: string)
    requires |paths| == |ts| == |next| + 1 && After(paths, ts, next, key, dev) && !Ends(ts[0], key, dev)
    ensures Leading(paths, ts, {}, key, dev) == 1 + Leading(paths[1..], next, {}, key, dev)
  {
    LeadingSeen(paths[1..], ts[1..], next, {}, paths[0], key, dev);
  }

  lemma {:induction false} TailUsable(links: Links, files: map<string, string>, next: map<string, string>,
      members: seq<string>, p: Option<nat>, key: string, dev: string)
    requires members != [] && AllUsable(links, files, members, p, key, dev)
    requires var path := Paths(links, members, p)[0];
      && (forall x :: x != path ==> (x in next <==> x in files) && (x in files ==> next[x] == files[x]))
      && path in next && Has(Some(next[path]), key, dev)
    requires !Ends(Texts(links, files, members, p)[0], key, dev)
    ensures var q := IndexAfter(links, p, members[0]);
      && AllUsable(links, next, members[1..], q, key, dev)
      && Paths(links, members, p)[1..] == Paths(links, members[1..], q)
      && After(Paths(links, members, p), Texts(links, files, members, p), Texts(links, next, members[1..], q), key, dev)
  {
    var q := IndexAfter(links, p, members[0]);
    var paths, ts := Paths(links, members, p), Texts(links, files, members, p);
    var nextTexts := Texts(links, next, members[1..], q);
    TextsElsewhere(links, files, next, members[1..], q, paths[0]);
    assert After(paths, ts, nextTexts, key, dev);
    UsableAfter(paths, ts, nextTexts, key, dev);
  }

  lemma {:induction false} UsableAfter(paths: seq<string>, ts: seq<Option<string>>, next: seq<Option<string>>,
      key: string, dev: string)
    requires |paths| == |ts| == |next| + 1 && After(paths, ts, next, key, dev) && !Ends(ts[0], key, dev)
    requires forall i :: 0 <= i < Leading(paths, ts, {}, key, dev) ==> Usable(ts[i], key, dev)
    ensures forall i :: 0 <= i < Leading(paths[1..], next, {}, key, dev) ==> Usable(next[i], key, dev)
  {
    LeadingAfter(paths, ts, next, key, dev);
    forall i | 0 <= i < Leading(paths[1..], next, {}, key, dev)
      ensures Usable(next[i], key, dev)
    {
      LeadingOpen(paths[1..], next, {}, key, dev, i);
      assert next[i] == ts[i + 1];
    }
  }

  lemma {:induction false} ResultCons(files: map<string, string>, next: map<string, string>, paths: seq<string>,
      ts: seq<Option<string>>, nextTexts: seq<Option<string>>, key: string, dev: string, after: map<string, string>)
    requires |paths| == |ts| == |nextTexts| + 1
    requires forall x :: x != paths[0] ==> (x in next <==> x in files) && (x in files ==> next[x] == files[x])
    requires Enslaved(ts[0], next, paths[0], key, dev) && !Ends(ts[0], key, dev)
    requires After(paths, ts, nextTexts, key, dev)
    requires Result(next, paths[1..], nextTexts, key, dev, after)
    ensures Result(files, paths, ts, key, dev, after)
  {
    var c := Leading(paths, ts, {}, key, dev);
    LeadingAfter(paths, ts, nextTexts, key, dev);
    forall i | 0 < i < c
      ensures paths[i] !in paths[..i]
    {
      LeadingOpen(paths, ts, {}, key, dev, i);
    }
    FirstElsewhere(paths, c);
    assert after[paths[0]] == next[paths[0]];
    forall i | 0 <= i < c
      ensures Enslaved(ts[i], after, paths[i], key, dev)
    {
      if i > 0 {
        assert paths[1..][i - 1] == paths[i] && nextTexts[i - 1] == ts[i];
      }
    }
    forall x | x in files && x !in paths[..c]
      ensures x in after && after[x] == files[x]
    {
      assert x !in paths[1..][..c - 1];
    }
    forall x | x in after && x !in paths
      ensures x in files
    {
      assert x !in paths[1..];
    }
  }

  lemma {:induction false} FirstElsewhere(paths: seq<string>, c: nat)
    requires 0 < c <= |paths| && forall i :: 0 < i < c ==> paths[i] !in paths[..i]
    ensures paths[0] !in paths[1..][..c - 1] && paths[0] in paths[..c]
    ensures forall i :: 0 < i < c ==> paths[i] != paths[0]
    ensures paths[..c] == [paths[0]] + paths[1..][..c - 1]
    ensures paths == [paths[0]] + paths[1..]
  {
    forall i | 0 < i < c
      ensures paths[i] != paths[0]
    {
      assert paths[..i][0] == paths[0];
    }
  }

  /** From a state where no member has the key yet and no two share a file, every member is
      given it. */
  lemma {:induction false} EnslavesAll(links: Links, files: map<string, string>, members: seq<string>,
      key: string, dev: string)
    requires GoodWrite("Network", key, dev)
    requires Distinct(Paths(links, members, None))
    requires forall i :: 0 <= i < |members| ==>
      Usable(Texts(links, files, members, None)[i], key, dev) && !Has(Texts(links, files, members, None)[i], key, dev)
    ensures var r := Enslave(links, files, members, None, key, dev);
      && r.Done?
      && (forall i :: 0 <= i < |members| ==>
            && Enslaved(Texts(links, files, members, None)[i], r.value, Paths(links, members, None)[i], key, dev)
            && Has(Some(r.value[Paths(links, members, None)[i]]), key, dev))
  {
    EnslavesLeading(links, files, members, None, key, dev);
    var paths, ts := Paths(links, members, None), Texts(links, files, members, None);
    var after := Enslave(links, files, members, None, key, dev).value;
    AllLeading(paths, ts, key, dev);
    forall i | 0 <= i < |members|
      ensures Enslaved(ts[i], after, paths[i], key, dev) && Has(Some(after[paths[i]]), key, dev)
    {
      GivenHas(ts[i], after, paths[i], key, dev);
    }
  }

  lemma {:induction false} AllLeading(paths: seq<string>, ts: seq<Option<string>>, key: string, dev: string)
    requires |paths| == |ts| && Distinct(paths) && forall i :: 0 <= i < |ts| ==> !Ends(ts[i], key, dev)
    ensures Leading(paths, ts, {}, key, dev) == |ts|
  {
    var c := Leading(paths, ts, {}, key, dev);
    if c < |ts| {
      LeadingOpen(paths, ts, {}, key, dev, c);
      assert false;
    }
  }

  /** The second of two members that share a file finds the key there, and the loop ends. */
  lemma {:induction false} SharedFileEnds(links: Links, files: map<string, string>, members: seq<string>,
      p: Option<nat>, key: string, dev: string, i: nat, j: nat)
    requires i < j < |members| && Paths(links, members, p)[i] == Paths(links, members, p)[j]
    ensures Given(links, files, members, p, key, dev) <= j
  {
    var paths, ts := Paths(links, members, p), Texts(links, files, members, p);
    LeadingOpen(paths, ts, {}, key, dev, j);
    assert paths[..j][i] == paths[j];
  }

  /** A first member that already has the key ends the loop with nothing done. */
  lemma {:induction false} StopsAtOnce(links: Links, files: map<string, string>, members: seq<string>,
      p: Option<nat>, path: string, key: string, dev: string)
    requires members != [] && path == PathFor(links, IndexAfter(links, p, members[0]), members[0])
    requires path in files && Configured(files, path, key, dev) == Done(true)
    ensures Enslave(links, files, members, p, key, dev) == Done(files)
  {
    var q := IndexAfter(links, p, members[0]);
    assert Prepare(links, files, q, members[0]) == files;
  }

  /** A first member at which the loop ends is prepared and nothing else happens. */
  lemma {:induction false} FirstEnds(links: Links, files: map<string, string>, members: seq<string>,
      p: Option<nat>, key: string, dev: string)
    requires members != [] && Ends(Texts(links, files, members, p)[0], key, dev)
    ensures var r := Enslave(links, files, members, p, key, dev);
      && r.Done? && Enslave(links, r.value, members, p, key, dev) == r
      && (forall x :: x in files ==> x in r.value && r.value[x] == files[x])
      && (forall x :: x in r.value && x != Paths(links, members, p)[0] ==> x in files)
  {
    var q := IndexAfter(links, p, members[0]);
    assert Texts(links, files, members, p)[0] == FoundText(links, files, q, members[0]);
    var ready := Prepare(links, files, q, members[0]);
    assert Enslave(links, files, members, p, key, dev) == Done(ready);
    assert Prepare(links, ready, q, members[0]) == ready;
  }

  /** A text that was given the key has it. */
  lemma {:induction false} GivenHas(t: Option<string>, after: map<string, string>, path: string, key: string,
      dev: string)
    requires Trimmed(dev) && Enslaved(t, after, path, key, dev)
    ensures path in after && Has(Some(after[path]), key, dev) && Configured(after, path, key, dev) == Done(true)
  {
    AddedIsFound(Parse(t.value).value, "Network", key, dev);
  }

  /** A second run changes nothing. */
  lemma {:induction false} SecondRunChangesNothing(links: Links, files: map<string, string>,
      members: seq<string>, key: string, dev: string)
    requires GoodWrite("Network", key, dev)
    requires AllUsable(links, files, members, None, key, dev)
    ensures var r := Enslave(links, files, members, None, key, dev);
      r.Done? && Enslave(links, r.value, members, None, key, dev) == r
  {
    EnslavesLeading(links, files, members, None, key, dev);
    if members != [] {
      var paths, ts := Paths(links, members, None), Texts(links, files, members, None);
      if Ends(ts[0], key, dev) {
        FirstEnds(links, files, members, None, key, dev);
      } else {
        var after := Enslave(links, files, members, None, key, dev).value;
        assert Enslaved(ts[0], after, paths[0], key, dev);
        GivenHas(ts[0], after, paths[0], key, dev);
        StopsAtOnce(links, after, members, None, paths[0], key, dev);
      }
    }
  }

  // ----------------------------------------------------- the stale index

  /** The index in the variable at the turn of member `i`. */
  function Carried(links: Links, members: seq<string>, p: Option<nat>, i: nat): Option<nat>
    requires i < |members|
  {
    var q := IndexAfter(links, p, members[0]);
    if i == 0 then q else Carried(links, members[1..], q, i - 1)
  }

  /** A member's turn works on the member's own file exactly when the member is a known
      device, or the index left over from earlier members leads to no other file. */
  lemma {:induction false} OwnFileExactly(links: Links, members: seq<string>, p: Option<nat>, i: nat)
    requires i < |members|
    ensures var own := PathFor(links, links.index(members[i]), members[i]);
      Paths(links, members, p)[i] == own <==>
        || links.index(members[i]).Some?
        || InUse(links, Carried(links, members, p, i)).None?
        || InUse(links, Carried(links, members, p, i)) == Some(links.conf(members[i]))
  {
    if i > 0 {
      OwnFileExactly(links, members[1..], IndexAfter(links, p, members[0]), i - 1);
    }
  }

  /** After a member whose device has a network file, a member that is not a known device
      ends the loop: it and all later members are left out. */
  lemma {:induction false} UnknownMemberStops(links: Links, files: map<string, string>, a: string, b: string,
      rest: seq<string>, p: Option<nat>, key: string, dev: string)
    requires GoodWrite("Network", key, dev)
    requires links.index(a).Some? && links.file(links.index(a).value).Some? && links.index(b).None?
    requires Usable(FoundText(links, files, links.index(a), a), key, dev)
    ensures Enslave(links, files, [a, b] + rest, p, key, dev) == Enslave(links, files, [a], p, key, dev)
  {
    var q := links.index(a);
    var path := links.file(q.value).value;
    var all := [a, b] + rest;
    assert all[1..] == [b] + rest && [a][1..] == [] && ([b] + rest)[0] == b;
    if !Has(Some(files[path]), key, dev) {
      FileAddRead(files[path], "Network", key, dev);
      AddedIsFound(Parse(files[path]).value, "Network", key, dev);
      var next := files[path := FileAdd(files[path], "Network", key, dev).value];
      assert Enslave(links, next, [b] + rest, q, key, dev) == Done(next);
    }
  }
}
