/** Key files in memory (src/share/config-file.c, src/share/config-parser.c): an ordered list
    of sections, each an ordered list of keys. */
module KeyFiles {
  import opened Wrappers

  /** A key may have no value at all, which is not the empty value. */
  datatype Key = Key(name: string, v: Option<string>)

  datatype Section = Section(name: string, keys: seq<Key>)

  function Wrap(v: Option<string>): Option<Option<string>> {
    match v case None => None case Some(x) => Some(Some(x))
  }

  // ---------------------------------------------------------------- finding

  function FindKey(keys: seq<Key>, k: string): (i: nat)
    ensures i <= |keys|
    ensures i < |keys| ==> keys[i].name == k
    ensures forall j :: 0 <= j < i ==> keys[j].name != k
  {
    if keys == [] || keys[0].name == k then 0 else 1 + FindKey(keys[1..], k)
  }

  function FindSection(secs: seq<Section>, s: string): (i: nat)
    ensures i <= |secs|
    ensures i < |secs| ==> secs[i].name == s
    ensures forall j :: 0 <= j < i ==> secs[j].name != s
  {
    if secs == [] || secs[0].name == s then 0 else 1 + FindSection(secs[1..], s)
  }

  /** The first value under a section and key, over all sections of that name
      (`key_file_parse_str`). */
  function Lookup(secs: seq<Section>, s: string, k: string): Option<Option<string>> {
    if secs == [] then None
    else if secs[0].name == s && FindKey(secs[0].keys, k) < |secs[0].keys|
    then Some(secs[0].keys[FindKey(secs[0].keys, k)].v)
    else Lookup(secs[1..], s, k)
  }

  function KeysExist(keys: seq<Key>, k: string, v: string): Outcome<bool> {
    if keys == [] then Done(false)
    else if keys[0].name != k then KeysExist(keys[1..], k, v)
    else if keys[0].v.None? then Crashed
    else if keys[0].v.value == v then Done(true)
    else KeysExist(keys[1..], k, v)
  }

  /** `key_file_config_exists`: comparing a key without a value reads through a null. */
  function Exists(secs: seq<Section>, s: string, k: string, v: string): Outcome<bool> {
    if secs == [] then Done(false)
    else if secs[0].name != s then Exists(secs[1..], s, k, v)
    else if KeysExist(secs[0].keys, k, v) == Done(false) then Exists(secs[1..], s, k, v)
    else KeysExist(secs[0].keys, k, v)
  }

  // ---------------------------------------------------------------- setting

  function SetKey(keys: seq<Key>, k: string, v: Option<string>): seq<Key> {
    var i := FindKey(keys, k);
    if i < |keys| then keys[i := Key(k, v)] else keys + [Key(k, v)]
  }

  /** `set_config`: overwrite the key in the first section of that name, add it there, or add
      the section. */
  function Set(secs: seq<Section>, s: string, k: string, v: Option<string>): seq<Section> {
    var i := FindSection(secs, s);
    if i < |secs| then secs[i := Section(s, SetKey(secs[i].keys, k, v))]
    else secs + [Section(s, [Key(k, v)])]
  }

  /** `add_key_to_section_str` on the file in memory: add without overwriting. */
  function Add(secs: seq<Section>, s: string, k: string, v: string): seq<Section> {
    var i := FindSection(secs, s);
    if i < |secs| then secs[i := Section(s, secs[i].keys + [Key(k, Some(v))])]
    else secs + [Section(s, [Key(k, Some(v))])]
  }

  class KeyFile {
    var name: string
    var sections: seq<Section>

    /** `key_file_new`. */
    constructor (name: string)
      ensures this.name == name && sections == []
    {
      this.name := name;
      sections := [];
    }

    /** `add_section_to_key_file`. */
    method AddSection(s: Section)
      modifies this
      ensures name == old(name) && sections == old(sections) + [s]
    {
      sections := sections + [s];
    }

    /** `set_config`. A missing value frees an existing one without replacing it, so it may
        only be given for a new key. */
    method SetConfig(s: string, k: string, v: Option<string>)
      requires v.None? ==>
        var i := FindSection(sections, s); i < |sections| ==> FindKey(sections[i].keys, k) == |sections[i].keys|
      modifies this
      ensures name == old(name) && sections == Set(old(sections), s, k, v)
    {
      var i := 0;
      while i < |sections| && sections[i].name != s
        invariant i <= |sections|
        invariant forall p :: 0 <= p < i ==> sections[p].name != s
      {
        i := i + 1;
      }
      if i == |sections| {
        sections := sections + [Section(s, [Key(k, v)])];
        return;
      }
      var keys, j := sections[i].keys, 0;
      while j < |keys| && keys[j].name != k
        invariant j <= |keys|
        invariant forall p :: 0 <= p < j ==> keys[p].name != k
      {
        j := j + 1;
      }
      keys := if j < |keys| then keys[j := Key(k, v)] else keys + [Key(k, v)];
      sections := sections[i := Section(s, keys)];
    }

    /** The loop of `add_key_to_section_str`. */
    method AddKey(s: string, k: string, v: string)
      modifies this
      ensures name == old(name) && sections == Add(old(sections), s, k, v)
    {
      var i := 0;
      while i < |sections| && sections[i].name != s
        invariant i <= |sections|
        invariant forall p :: 0 <= p < i ==> sections[p].name != s
      {
        i := i + 1;
      }
      if i < |sections| {
        sections := sections[i := Section(s, sections[i].keys + [Key(k, Some(v))])];
      } else {
        sections := sections + [Section(s, [Key(k, Some(v))])];
      }
    }

    /** `key_file_config_exists`. */
    method ConfigExists(s: string, k: string, v: string) returns (r: Outcome<bool>)
      ensures r == Exists(sections, s, k, v)
    {
      var i := 0;
      while i < |sections|
        invariant i <= |sections|
        invariant Exists(sections, s, k, v) == Exists(sections[i..], s, k, v)
      {
        if sections[i].name == s {
          var keys, j := sections[i].keys, 0;
          while j < |keys|
            invariant j <= |keys|
            invariant KeysExist(keys, k, v) == KeysExist(keys[j..], k, v)
          {
            if keys[j].name == k {
              if keys[j].v.None? {
                return Crashed;
              }
              if keys[j].v.value == v {
                return Done(true);
              }
            }
            j := j + 1;
          }
        }
        i := i + 1;
      }
      r := Done(false);
    }
  }

  // ------------------------------------------------------------------- laws

  lemma {:induction false} LookupAt(secs: seq<Section>, s: string, k: string)
    ensures var i := FindSection(secs, s);
      i == |secs| ==> Lookup(secs, s, k) == None
    ensures var i := FindSection(secs, s);
      i < |secs| ==>
        Lookup(secs, s, k) ==
          (if FindKey(secs[i].keys, k) < |secs[i].keys| then Some(secs[i].keys[FindKey(secs[i].keys, k)].v)
           else Lookup(secs[i + 1..], s, k))
  {
    if secs != [] && secs[0].name != s {
      LookupAt(secs[1..], s, k);
    }
  }

  /** The position of a key is the only one of its name before which there is none. */
  lemma {:induction false} FindKeyIs(keys: seq<Key>, k: string, i: nat)
    requires i <= |keys| && (i < |keys| ==> keys[i].name == k)
    requires forall j :: 0 <= j < i ==> keys[j].name != k
    ensures FindKey(keys, k) == i
  {
  }

  lemma {:induction false} SetKeyFinds(keys: seq<Key>, k: string, v: Option<string>, k': string)
    ensures FindKey(SetKey(keys, k, v), k) == FindKey(keys, k) < |SetKey(keys, k, v)|
    ensures SetKey(keys, k, v)[FindKey(keys, k)].v == v
    ensures k' != k ==>
      var i := FindKey(keys, k');
      var i' := FindKey(SetKey(keys, k, v), k');
      if i < |keys| then i' == i && SetKey(keys, k, v)[i'] == keys[i] else i' == |SetKey(keys, k, v)|
  {
    var after := SetKey(keys, k, v);
    FindKeyIs(after, k, FindKey(keys, k));
    if k' != k {
      var i := FindKey(keys, k');
      FindKeyIs(after, k', if i < |keys| then i else |after|);
    }
  }

  lemma {:induction false} LookupUpdate(secs: seq<Section>, i: nat, sec: Section, s: string, k: string)
    requires i < |secs|
    requires sec.name == secs[i].name
    requires sec.name == s ==>
      var a, b := FindKey(secs[i].keys, k), FindKey(sec.keys, k);
      if a < |secs[i].keys| then b < |sec.keys| && sec.keys[b].v == secs[i].keys[a].v else b == |sec.keys|
    ensures Lookup(secs[i := sec], s, k) == Lookup(secs, s, k)
  {
    if i > 0 {
      assert secs[i := sec][1..] == secs[1..][i - 1 := sec];
      LookupUpdate(secs[1..], i - 1, sec, s, k);
    } else {
      assert secs[i := sec][1..] == secs[1..];
    }
  }

  lemma {:induction false} LookupSnoc(secs: seq<Section>, sec: Section, s: string, k: string)
    ensures Lookup(secs + [sec], s, k) ==
      if Lookup(secs, s, k).Some? then Lookup(secs, s, k) else Lookup([sec], s, k)
  {
    if secs == [] {
      assert secs + [sec] == [sec];
    } else {
      assert (secs + [sec])[1..] == secs[1..] + [sec];
      LookupSnoc(secs[1..], sec, s, k);
    }
  }

  /** What is set is found. */
  lemma {:induction false} LookupSet(secs: seq<Section>, s: string, k: string, v: Option<string>)
    ensures Lookup(Set(secs, s, k, v), s, k) == Some(v)
  {
    var i := FindSection(secs, s);
    var after := Set(secs, s, k, v);
    LookupAt(after, s, k);
    if i < |secs| {
      SetKeyFinds(secs[i].keys, k, v, k);
    } else {
      assert after[i].keys == [Key(k, v)];
    }
    assert FindSection(after, s) == i;
  }

  /** Every other key keeps its value. */
  lemma {:induction false} LookupSetOther(secs: seq<Section>, s: string, k: string, v: Option<string>,
      s': string, k': string)
    requires s' != s || k' != k
    ensures Lookup(Set(secs, s, k, v), s', k') == Lookup(secs, s', k')
  {
    var i := FindSection(secs, s);
    if i < |secs| {
      if s' == s {
        SetKeyFinds(secs[i].keys, k, v, k');
      }
      LookupUpdate(secs, i, Section(s, SetKey(secs[i].keys, k, v)), s', k');
    } else {
      LookupSnoc(secs, Section(s, [Key(k, v)]), s', k');
      assert Lookup([Section(s, [Key(k, v)])], s', k') == None;
    }
  }

  // ------------------------------------------------------- optional keys

  function OptKey(name: string, v: Option<Option<string>>): seq<Key> {
    match v case None => [] case Some(x) => [Key(name, x)]
  }

  function ReadKey(keys: seq<Key>, k: string): Option<Option<string>> {
    var i := FindKey(keys, k);
    if i < |keys| then Some(keys[i].v) else None
  }

  lemma {:induction false} ReadSnoc(keys: seq<Key>, key: Key, k: string)
    ensures ReadKey(keys + [key], k) ==
      if ReadKey(keys, k).Some? then ReadKey(keys, k) else if key.name == k then Some(key.v) else None
  {
    if keys == [] {
      assert keys + [key] == [key];
      assert [key][1..] == [];
    } else if keys[0].name != k {
      assert (keys + [key])[1..] == keys[1..] + [key];
      ReadSnoc(keys[1..], key, k);
    }
  }

  lemma {:induction false} ReadOpt(keys: seq<Key>, name: string, v: Option<Option<string>>, k: string)
    ensures ReadKey(keys + OptKey(name, v), k) ==
      if ReadKey(keys, k).Some? then ReadKey(keys, k) else if name == k then v else None
  {
    if v.Some? {
      ReadSnoc(keys, Key(name, v.value), k);
    } else {
      assert keys + [] == keys;
    }
  }

  lemma {:induction false} LookupConcat(a: seq<Section>, b: seq<Section>, s: string, k: string)
    ensures Lookup(a + b, s, k) == if Lookup(a, s, k).Some? then Lookup(a, s, k) else Lookup(b, s, k)
  {
    if a == [] {
      assert a + b == b;
    } else {
      assert (a + b)[1..] == a[1..] + b;
      LookupConcat(a[1..], b, s, k);
    }
  }

  lemma {:induction false} LookupSingle(sec: Section, s: string, k: string)
    ensures Lookup([sec], s, k) == if sec.name == s then ReadKey(sec.keys, k) else None
  {
    assert [sec][1..] == [];
  }

  // ------------------------------------------------------- lists of writes

  datatype Write = Write(section: string, key: string, v: Option<string>)

  /** A sequence of `set_config` calls. */
  function SetAll(secs: seq<Section>, ws: seq<Write>): seq<Section> {
    if ws == [] then secs
    else
      var w := ws[|ws| - 1];
      Set(SetAll(secs, ws[..|ws| - 1]), w.section, w.key, w.v)
  }

  /** The value the last write to a key gives it. */
  function LastWrite(ws: seq<Write>, s: string, k: string): Option<Option<string>> {
    if ws == [] then None
    else
      var w := ws[|ws| - 1];
      if w.section == s && w.key == k then Some(w.v) else LastWrite(ws[..|ws| - 1], s, k)
  }

  lemma {:induction false} LastWriteSnoc(ws: seq<Write>, w: Write, s: string, k: string)
    ensures LastWrite(ws + [w], s, k) == if w.section == s && w.key == k then Some(w.v) else LastWrite(ws, s, k)
  {
    assert (ws + [w])[..|ws|] == ws;
  }

  /** After any sequence of writes each key holds its last write, or what it held before. */
  lemma {:induction false} LastWriteWins(secs: seq<Section>, ws: seq<Write>, s: string, k: string)
    ensures Lookup(SetAll(secs, ws), s, k) ==
      if LastWrite(ws, s, k).Some? then LastWrite(ws, s, k) else Lookup(secs, s, k)
  {
    if ws != [] {
      var init, w := ws[..|ws| - 1], ws[|ws| - 1];
      LastWriteWins(secs, init, s, k);
      if w.section == s && w.key == k {
        LookupSet(SetAll(secs, init), s, k, w.v);
      } else {
        LookupSetOther(SetAll(secs, init), w.section, w.key, w.v, s, k);
      }
    }
  }

  lemma {:induction false} LastWriteConcat(a: seq<Write>, b: seq<Write>, s: string, k: string)
    ensures LastWrite(a + b, s, k) == if LastWrite(b, s, k).Some? then LastWrite(b, s, k) else LastWrite(a, s, k)
  {
    if b == [] {
      assert a + b == a;
    } else {
      assert (a + b)[..|a + b| - 1] == a + b[..|b| - 1];
      LastWriteConcat(a, b[..|b| - 1], s, k);
    }
  }

  lemma {:induction false} SetAllConcat(secs: seq<Section>, a: seq<Write>, b: seq<Write>)
    ensures SetAll(secs, a + b) == SetAll(SetAll(secs, a), b)
  {
    if b == [] {
      assert a + b == a;
    } else {
      assert (a + b)[..|a + b| - 1] == a + b[..|b| - 1];
      SetAllConcat(secs, a, b[..|b| - 1]);
    }
  }
}
