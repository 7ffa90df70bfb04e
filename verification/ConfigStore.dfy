/** Configuration files on disk: each `set_config_file_str` and `add_key_to_section_str` call
    (src/share/config-file.c) reads the file, changes it in memory and writes it back. */
module ConfigStore {
  import opened Wrappers
  import opened Strings
  import opened KeyFiles
  import opened KeyFileText

  /** `set_config_file_str` on a file's text. */
  function FileSet(text: string, s: string, k: string, v: string): Outcome<string> {
    match Parse(text)
    case Done(secs) => Done(Save(Set(secs, s, k, Some(v))))
    case Failed(e) => Failed(e)
    case Crashed => Crashed
  }

  /** `add_key_to_section_str` on a file's text. */
  function FileAdd(text: string, s: string, k: string, v: string): Outcome<string> {
    match Parse(text)
    case Done(secs) => Done(Save(Add(secs, s, k, v)))
    case Failed(e) => Failed(e)
    case Crashed => Crashed
  }

  /** The files, by path. File modes and owners are not modelled. */
  class Store {
    var text: map<string, string>

    /** `parse_key_file`. */
    method Load(path: string) returns (r: Outcome<KeyFile>)
      ensures path !in text ==> r == Failed(ENOENT)
      ensures path in text ==>
        match Parse(text[path])
        case Done(secs) => r.Done? && fresh(r.value) && r.value.sections == secs
        case Failed(e) => r == Failed(e)
        case Crashed => r == Crashed
    {
      if path !in text {
        return Failed(ENOENT);
      }
      var res := ParseKeyFile(text[path]);
      match res {
        case Failed(e) => r := Failed(e);
        case Crashed => r := Crashed;
        case Done(secs) =>
          var kf := new KeyFile(path);
          for i := 0 to |secs|
            invariant fresh(kf) && kf.sections == secs[..i]
          {
            kf.AddSection(secs[i]);
          }
          r := Done(kf);
      }
    }

    /** `key_file_save`. */
    method SaveTo(path: string, kf: KeyFile)
      modifies this
      ensures text == old(text)[path := Save(kf.sections)]
    {
      var t := KeyFileSave(kf.sections);
      text := text[path := t];
    }

    /** `set_config_file_str`. */
    method SetConfigFileStr(path: string, s: string, k: string, v: string) returns (r: Outcome<()>)
      modifies this
      ensures path !in old(text) ==> r == Failed(ENOENT) && text == old(text)
      ensures path in old(text) ==>
        match FileSet(old(text)[path], s, k, v)
        case Done(t) => r == Done(()) && text == old(text)[path := t]
        case Failed(e) => r == Failed(e) && text == old(text)
        case Crashed => r == Crashed && text == old(text)
    {
      var loaded := Load(path);
      match loaded {
        case Failed(e) => r := Failed(e);
        case Crashed => r := Crashed;
        case Done(kf) =>
          kf.SetConfig(s, k, Some(v));
          SaveTo(path, kf);
          r := Done(());
      }
    }

    /** `add_key_to_section_str`. */
    method AddKeyToSectionStr(path: string, s: string, k: string, v: string) returns (r: Outcome<()>)
      modifies this
      ensures path !in old(text) ==> r == Failed(ENOENT) && text == old(text)
      ensures path in old(text) ==>
        match FileAdd(old(text)[path], s, k, v)
        case Done(t) => r == Done(()) && text == old(text)[path := t]
        case Failed(e) => r == Failed(e) && text == old(text)
        case Crashed => r == Crashed && text == old(text)
    {
      var loaded := Load(path);
      match loaded {
        case Failed(e) => r := Failed(e);
        case Crashed => r := Crashed;
        case Done(kf) =>
          kf.AddKey(s, k, v);
          SaveTo(path, kf);
          r := Done(());
      }
    }

    /** `create_conf_file`: the file is truncated. */
    method CreateConfFile(path: string)
      modifies this
      ensures text == old(text)[path := ""]
    {
      text := text[path := ""];
    }
  }

  // ------------------------------------------------- writes through the text

  /** What can be written without being changed by the text form. */
  predicate GoodWrite(s: string, k: string, v: string) {
    GoodName(s) && GoodKey(Key(k, Some(v))) && Trimmed(v)
  }

  lemma {:induction false} SetGood(secs: seq<Section>, s: string, k: string, v: string)
    requires Good(secs) && GoodWrite(s, k, v)
    ensures Good(Set(secs, s, k, Some(v)))
  {
  }

  lemma {:induction false} AddGood(secs: seq<Section>, s: string, k: string, v: string)
    requires Good(secs) && GoodWrite(s, k, v)
    ensures Good(Add(secs, s, k, v))
  {
  }

  /** Saved text is as plain as the file. */
  lemma {:induction false} TerminatePlain(ls: seq<string>)
    requires forall i :: 0 <= i < |ls| ==> Plain(ls[i])
    ensures Plain(Terminate(ls))
  {
    if ls != [] {
      TerminatePlain(ls[..|ls| - 1]);
    }
  }

  lemma {:induction false} LinesPlain(secs: seq<Section>)
    requires Good(secs)
    ensures forall i :: 0 <= i < |FileLines(secs)| ==> Plain(FileLines(secs)[i])
  {
    if secs != [] {
      var last := secs[|secs| - 1];
      LinesPlain(secs[..|secs| - 1]);
      forall i | 0 <= i < |SectionLines(last)|
        ensures Plain(SectionLines(last)[i])
      {
        if 1 <= i <= |last.keys| {
          assert SectionLines(last)[i] == KeyLine(last.keys[i - 1]);
          assert GoodKey(last.keys[i - 1]);
        }
      }
    }
  }

  lemma {:induction false} SavePlain(secs: seq<Section>)
    requires Good(secs)
    ensures Plain(Save(secs))
  {
    LinesPlain(secs);
    TerminatePlain(FileLines(secs));
  }

  /** One write through a plain file: the file stays plain and reads back as the change in
      memory, in normal form. */
  lemma {:induction false} FileSetRead(text: string, s: string, k: string, v: string)
    requires Plain(text) && Parse(text).Done? && GoodWrite(s, k, v)
    ensures FileSet(text, s, k, v).Done? && Plain(FileSet(text, s, k, v).value)
    ensures Parse(FileSet(text, s, k, v).value) == Done(Normal(Set(Parse(text).value, s, k, Some(v))))
  {
    ParseGood(text);
    SetGood(Parse(text).value, s, k, v);
    SaveParse(Set(Parse(text).value, s, k, Some(v)));
    SavePlain(Set(Parse(text).value, s, k, Some(v)));
  }

  lemma {:induction false} FileAddRead(text: string, s: string, k: string, v: string)
    requires Plain(text) && Parse(text).Done? && GoodWrite(s, k, v)
    ensures FileAdd(text, s, k, v).Done? && Plain(FileAdd(text, s, k, v).value)
    ensures Parse(FileAdd(text, s, k, v).value) == Done(Normal(Add(Parse(text).value, s, k, v)))
  {
    ParseGood(text);
    AddGood(Parse(text).value, s, k, v);
    SaveParse(Add(Parse(text).value, s, k, v));
    SavePlain(Add(Parse(text).value, s, k, v));
  }

  // --------------------------------------------------------- normal form laws

  /** The first section of that name, if any, has keys. */
  predicate Filled(secs: seq<Section>, s: string) {
    var i := FindSection(secs, s);
    i < |secs| ==> secs[i].keys != []
  }

  lemma {:induction false} NormalSetKey(keys: seq<Key>, k: string, v: Option<string>)
    ensures NormalKeys(SetKey(keys, k, v)) == SetKey(NormalKeys(keys), k, Some(Trim(Text(v))))
  {
    assert FindKey(NormalKeys(keys), k) == FindKey(keys, k);
  }

  lemma {:induction false} FindSectionSnoc(secs: seq<Section>, last: Section, s: string)
    ensures FindSection(secs + [last], s) ==
      if FindSection(secs, s) < |secs| then FindSection(secs, s)
      else if last.name == s then |secs| else |secs| + 1
  {
    if secs != [] {
      assert (secs + [last])[1..] == secs[1..] + [last];
      FindSectionSnoc(secs[1..], last, s);
    } else {
      assert secs + [last] == [last];
    }
  }

  lemma {:induction false} SetSnoc(secs: seq<Section>, last: Section, s: string, k: string, v: Option<string>)
    ensures FindSection(secs, s) < |secs| ==> Set(secs + [last], s, k, v) == Set(secs, s, k, v) + [last]
    ensures FindSection(secs, s) == |secs| && last.name == s ==>
      Set(secs + [last], s, k, v) == secs + [Section(s, SetKey(last.keys, k, v))]
    ensures FindSection(secs, s) == |secs| && last.name != s ==>
      Set(secs + [last], s, k, v) == secs + [last] + [Section(s, [Key(k, v)])]
  {
    FindSectionSnoc(secs, last, s);
  }

  lemma {:induction false} NormalFinds(secs: seq<Section>, s: string)
    requires Filled(secs, s)
    ensures FindSection(Normal(secs), s) < |Normal(secs)| <==> FindSection(secs, s) < |secs|
    ensures Filled(Normal(secs), s)
  {
    if secs != [] {
      var init, last := secs[..|secs| - 1], secs[|secs| - 1];
      assert secs == init + [last];
      FindSectionSnoc(init, last, s);
      NormalFinds(init, s);
      NormalSnoc(init, last);
      if last.keys != [] {
        FindSectionSnoc(Normal(init), Section(last.name, NormalKeys(last.keys)), s);
      }
    }
  }

  lemma {:induction false} NormalSetFront(init: seq<Section>, last: Section, s: string, k: string,
      v: Option<string>, w: Option<string>)
    requires FindSection(init, s) < |init| && FindSection(Normal(init), s) < |Normal(init)|
    requires Normal(Set(init, s, k, v)) == Set(Normal(init), s, k, w)
    ensures Normal(Set(init + [last], s, k, v)) == Set(Normal(init + [last]), s, k, w)
  {
    SetSnoc(init, last, s, k, v);
    NormalSnoc(Set(init, s, k, v), last);
    NormalSnoc(init, last);
    SetSnoc(Normal(init), Section(last.name, NormalKeys(last.keys)), s, k, w);
  }

  lemma {:induction false} NormalSetLast(init: seq<Section>, last: Section, s: string, k: string,
      v: Option<string>, w: Option<string>)
    requires FindSection(init, s) == |init| && FindSection(Normal(init), s) == |Normal(init)|
    requires last.name == s && last.keys != [] && w == Some(Trim(Text(v)))
    ensures Normal(Set(init + [last], s, k, v)) == Set(Normal(init + [last]), s, k, w)
  {
    SetSnoc(init, last, s, k, v);
    NormalSnoc(init, Section(s, SetKey(last.keys, k, v)));
    NormalSetKey(last.keys, k, v);
    NormalSnoc(init, last);
    SetSnoc(Normal(init), Section(last.name, NormalKeys(last.keys)), s, k, w);
  }

  lemma {:induction false} NormalSetNew(secs: seq<Section>, s: string, k: string, v: Option<string>, w: Option<string>)
    requires FindSection(secs, s) == |secs| && FindSection(Normal(secs), s) == |Normal(secs)|
    requires w == Some(Trim(Text(v)))
    ensures Normal(Set(secs, s, k, v)) == Set(Normal(secs), s, k, w)
  {
    assert NormalKeys([Key(k, v)]) == [Key(k, w)];
    NormalSnoc(secs, Section(s, [Key(k, v)]));
  }

  /** Setting a key commutes with taking the normal form, once the section is not an empty
      one that the normal form would drop. */
  lemma {:induction false} NormalSet(secs: seq<Section>, s: string, k: string, v: Option<string>)
    requires Filled(secs, s)
    ensures Normal(Set(secs, s, k, v)) == Set(Normal(secs), s, k, Some(Trim(Text(v))))
  {
    var w := Some(Trim(Text(v)));
    NormalFinds(secs, s);
    if FindSection(secs, s) == |secs| {
      NormalSetNew(secs, s, k, v, w);
    } else {
      var init, last := secs[..|secs| - 1], secs[|secs| - 1];
      assert secs == init + [last];
      FindSectionSnoc(init, last, s);
      NormalFinds(init, s);
      if FindSection(init, s) < |init| {
        NormalSet(init, s, k, v);
        NormalSetFront(init, last, s, k, v, w);
      } else {
        NormalSetLast(init, last, s, k, v, w);
      }
    }
  }

  lemma {:induction false} SetFills(secs: seq<Section>, s: string, k: string, v: Option<string>)
    ensures Filled(Set(secs, s, k, v), s)
  {
    var i := FindSection(secs, s);
    var after := Set(secs, s, k, v);
    assert FindSection(after, s) == i by {
      assert after[i].name == s;
    }
  }

  // --------------------------------------------------- many writes, one section

  /** A run of `set_config_file_str` calls on one file. */
  function FileSetAll(text: string, ws: seq<Write>): Outcome<string> {
    if ws == [] then Done(text)
    else
      var w := ws[|ws| - 1];
      match FileSetAll(text, ws[..|ws| - 1])
      case Done(t) => FileSet(t, w.section, w.key, Text(w.v))
      case Failed(e) => Failed(e)
      case Crashed => Crashed
  }

  lemma {:induction false} FileSetAllSnoc(text: string, ws: seq<Write>, w: Write)
    requires FileSetAll(text, ws).Done?
    ensures FileSetAll(text, ws + [w]) == FileSet(FileSetAll(text, ws).value, w.section, w.key, Text(w.v))
  {
    assert (ws + [w])[..|ws|] == ws;
  }

  /** A run that has failed stays failed. */
  lemma {:induction false} FileSetAllStops(text: string, ws: seq<Write>, k: nat)
    requires k <= |ws| && !FileSetAll(text, ws[..k]).Done?
    ensures !FileSetAll(text, ws).Done?
  {
    if k == |ws| {
      assert ws[..k] == ws;
    } else {
      assert ws[..|ws| - 1][..k] == ws[..k];
      FileSetAllStops(text, ws[..|ws| - 1], k);
    }
  }

  predicate GoodWrites(ws: seq<Write>, s: string) {
    forall i :: 0 <= i < |ws| ==> ws[i].section == s && ws[i].v.Some? && GoodWrite(s, ws[i].key, ws[i].v.value)
  }

  lemma {:induction false} SetSettled(secs: seq<Section>, s: string, k: string, v: Option<string>)
    requires AllSettled(secs) && Trimmed(Text(v))
    ensures AllSettled(Set(secs, s, k, v))
  {
    var i := FindSection(secs, s);
    if i < |secs| {
      assert Settled(secs[i]);
      assert Settled(Section(s, SetKey(secs[i].keys, k, v)));
    } else {
      assert Settled(Section(s, [Key(k, v)]));
    }
  }

  /** One more write to a file that was saved with the section filled. */
  lemma {:induction false} OneMoreWrite(secs: seq<Section>, s: string, k: string, v: string)
    requires Good(secs) && AllSettled(secs) && Filled(secs, s) && GoodWrite(s, k, v)
    ensures FileSet(Save(secs), s, k, v) == Done(Save(Set(secs, s, k, Some(v))))
  {
    SaveParse(secs);
    TrimTrimmed(v);
    NormalSet(secs, s, k, Some(v));
    SetSettled(secs, s, k, Some(v));
    SaveNormal(Set(secs, s, k, Some(v)));
  }

  /** What a run of writes to one section leaves in memory. */
  lemma {:induction false} SetAllKeeps(secs: seq<Section>, ws: seq<Write>, s: string)
    requires Good(secs) && AllSettled(secs) && GoodWrites(ws, s)
    ensures Good(SetAll(secs, ws)) && AllSettled(SetAll(secs, ws))
    ensures ws != [] ==> Filled(SetAll(secs, ws), s)
  {
    if ws != [] {
      var init, w := ws[..|ws| - 1], ws[|ws| - 1];
      SetAllKeeps(secs, init, s);
      assert GoodWrite(s, w.key, w.v.value);
      SetGood(SetAll(secs, init), s, w.key, w.v.value);
      SetSettled(SetAll(secs, init), s, w.key, w.v);
      SetFills(SetAll(secs, init), s, w.key, w.v);
    }
  }

  /** Reading, changing and writing a plain file once per write leaves the same text as making
      all the changes in memory and writing once. */
  lemma {:induction false} ManyWritesOneSave(text: string, ws: seq<Write>, s: string)
    requires Plain(text) && Parse(text).Done? && GoodWrites(ws, s)
    ensures FileSetAll(text, ws) == Done(if ws == [] then text else Save(SetAll(Parse(text).value, ws)))
  {
    if ws != [] {
      var init, w := ws[..|ws| - 1], ws[|ws| - 1];
      var secs := Parse(text).value;
      ManyWritesOneSave(text, init, s);
      if init != [] {
        ParseGood(text);
        ParseSettled(text);
        SetAllKeeps(secs, init, s);
        OneMoreWrite(SetAll(secs, init), s, w.key, w.v.value);
      }
    }
  }

  /** And that text reads back as the changed sections. */
  lemma {:induction false} ManyWritesRead(text: string, ws: seq<Write>, s: string)
    requires Plain(text) && Parse(text).Done? && GoodWrites(ws, s) && ws != []
    ensures FileSetAll(text, ws).Done? && Plain(FileSetAll(text, ws).value)
    ensures Parse(FileSetAll(text, ws).value) == Done(Normal(SetAll(Parse(text).value, ws)))
  {
    ManyWritesOneSave(text, ws, s);
    ParseGood(text);
    ParseSettled(text);
    SetAllKeeps(Parse(text).value, ws, s);
    SaveParse(SetAll(Parse(text).value, ws));
    SavePlain(SetAll(Parse(text).value, ws));
  }
}
