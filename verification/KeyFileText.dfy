/** Key files as text: `key_file_save` (src/share/config-file.c) and `parse_key_file`
    (src/share/config-parser.c), and the round trip between them. */
module KeyFileText {
  import opened Wrappers
  import opened Strings
  import opened KeyFiles

  const LINE_MAX := 2048

  // ----------------------------------------------------------------- saving

  function Text(v: Option<string>): string {
    match v case Some(s) => s case None => ""
  }

  function KeyLine(key: Key): string {
    key.name + ['='] + Text(key.v)
  }

  function KeyLines(keys: seq<Key>): (ls: seq<string>)
    ensures |ls| == |keys|
    ensures forall i :: 0 <= i < |ls| ==> ls[i] == KeyLine(keys[i])
  {
    if keys == [] then [] else KeyLines(keys[..|keys| - 1]) + [KeyLine(keys[|keys| - 1])]
  }

  function SectionLines(sec: Section): seq<string> {
    if sec.keys == [] then [] else ["[" + sec.name + "]"] + KeyLines(sec.keys) + [""]
  }

  function FileLines(secs: seq<Section>): seq<string> {
    if secs == [] then [] else FileLines(secs[..|secs| - 1]) + SectionLines(secs[|secs| - 1])
  }

  /** Each line with its newline. */
  function Terminate(ls: seq<string>): string {
    if ls == [] then "" else Terminate(ls[..|ls| - 1]) + ls[|ls| - 1] + "\n"
  }

  /** What `key_file_save` writes. */
  function Save(secs: seq<Section>): string {
    Terminate(FileLines(secs))
  }

  lemma {:induction false} TerminateConcat(a: seq<string>, b: seq<string>)
    ensures Terminate(a + b) == Terminate(a) + Terminate(b)
  {
    if b == [] {
      assert a + b == a;
    } else {
      assert (a + b)[..|a + b| - 1] == a + b[..|b| - 1];
      TerminateConcat(a, b[..|b| - 1]);
    }
  }

  /** `key_file_save` as the loops it is. */
  method KeyFileSave(secs: seq<Section>) returns (config: string)
    ensures config == Save(secs)
  {
    config := "";
    var i := 0;
    while i < |secs|
      invariant 0 <= i <= |secs|
      invariant config == Save(secs[..i])
    {
      var text := SectionSave(secs[i]);
      SaveNext(secs, i);
      config := config + text;
      i := i + 1;
    }
    assert secs[..i] == secs;
  }

  lemma {:induction false} SaveSnoc(secs: seq<Section>, s: Section)
    ensures Save(secs + [s]) == Save(secs) + Terminate(SectionLines(s))
  {
    assert (secs + [s])[..|secs|] == secs;
    TerminateConcat(FileLines(secs), SectionLines(s));
  }

  lemma {:induction false} SaveNext(secs: seq<Section>, i: nat)
    requires i < |secs|
    ensures Save(secs[..i + 1]) == Save(secs[..i]) + Terminate(SectionLines(secs[i]))
  {
    SaveSnoc(secs[..i], secs[i]);
    NextPrefix(secs, i);
  }

  method SectionSave(s: Section) returns (text: string)
    ensures text == Terminate(SectionLines(s))
  {
    if |s.keys| == 0 {
      return "";
    }
    var body, j := "", 0;
    while j < |s.keys|
      invariant 0 <= j <= |s.keys|
      invariant body == Terminate(KeyLines(s.keys[..j]))
    {
      NextKeyLine(s.keys, j);
      body := body + (s.keys[j].name + ['='] + Text(s.keys[j].v)) + "\n";
      j := j + 1;
    }
    assert s.keys[..j] == s.keys;
    SectionText(s);
    text := "[" + s.name + "]\n" + body + "\n";
  }

  lemma {:induction false} NextKeyLine(keys: seq<Key>, j: nat)
    requires j < |keys|
    ensures Terminate(KeyLines(keys[..j + 1])) ==
      Terminate(KeyLines(keys[..j])) + (keys[j].name + ['='] + Text(keys[j].v)) + "\n"
  {
    assert keys[..j + 1][..j] == keys[..j];
    TerminateSnoc(KeyLines(keys[..j]), KeyLine(keys[j]));
  }

  lemma {:induction false} TerminateSnoc(ls: seq<string>, l: string)
    ensures Terminate(ls + [l]) == Terminate(ls) + l + "\n"
  {
    assert (ls + [l])[..|ls|] == ls;
  }

  lemma {:induction false} SectionText(s: Section)
    requires s.keys != []
    ensures Terminate(SectionLines(s)) == "[" + s.name + "]\n" + Terminate(KeyLines(s.keys)) + "\n"
  {
    var h := "[" + s.name + "]";
    TerminateConcat([h], KeyLines(s.keys));
    TerminateConcat([h] + KeyLines(s.keys), [""]);
    assert Terminate([h]) == h + "\n";
    assert Terminate([""]) == "\n";
  }

  // ---------------------------------------------------------------- parsing

  /** The sections read so far and the one being read. */
  datatype Reader = Reader(sections: seq<Section>, open: Option<Section>)

  const EMPTY := Reader([], None)

  function Close(r: Reader): seq<Section> {
    if r.open.Some? then r.sections + [r.open.value] else r.sections
  }

  function StripValue(v: Option<string>): Option<string> {
    match v case Some(s) => Some(Strip(s)) case None => None
  }

  /** One line: a section header opens a section, a key goes into the open section, and a key
      before any section fails an assertion. */
  function ReadLine(r: Reader, line: string): Outcome<Reader> {
    var s := Strip(line);
    if s == "" || s[0] == '#' || s[0] == ';' then Done(r)
    else if s[0] == '[' then
      var end := IndexOf(s[1..], ']');
      if end == |s[1..]| then Done(r)
      else
        var name := if end < LINE_MAX then s[1..][..end] else s[1..][..LINE_MAX - 1];
        Done(Reader(Close(r), Some(Section(name, []))))
    else
      match ParseLine(s)
      case None => Done(r)
      case Some((k, v)) =>
        if r.open.None? then Crashed
        else Done(r.(open := Some(Section(r.open.value.name, r.open.value.keys + [Key(Strip(k), StripValue(v))]))))
  }

  function ReadLines(r: Reader, lines: seq<string>): Outcome<Reader>
    decreases |lines|
  {
    if lines == [] then Done(r)
    else
      match ReadLine(r, lines[0])
      case Done(r') => ReadLines(r', lines[1..])
      case Failed(e) => Failed(e)
      case Crashed => Crashed
  }

  /** `parse_key_file` on a file's contents. */
  function Parse(text: string): Outcome<seq<Section>> {
    match ReadLines(EMPTY, Split(text, '\n', 0))
    case Done(r) => Done(Close(r))
    case Failed(e) => Failed(e)
    case Crashed => Crashed
  }

  /** `parse_key_file` as the loop it is. */
  method ParseKeyFile(text: string) returns (res: Outcome<seq<Section>>)
    ensures res == Parse(text)
  {
    var lines := StrSplit(text, '\n', 0);
    var r, i := EMPTY, 0;
    while i < |lines|
      invariant 0 <= i <= |lines|
      invariant ReadLines(EMPTY, lines) == ReadLines(r, lines[i..])
    {
      assert lines[i..][0] == lines[i] && lines[i..][1..] == lines[i + 1..];
      var next := ReadLine(r, lines[i]);
      match next {
        case Done(r') => r := r';
        case Failed(e) => return Failed(e);
        case Crashed => return Crashed;
      }
      i := i + 1;
    }
    res := Done(Close(r));
  }

  lemma {:induction false} ReadConcat(r: Reader, a: seq<string>, b: seq<string>)
    requires ReadLines(r, a).Done?
    ensures ReadLines(r, a + b) == ReadLines(ReadLines(r, a).value, b)
    decreases |a|
  {
    if a == [] {
      assert a + b == b;
    } else {
      assert (a + b)[1..] == a[1..] + b;
      ReadConcat(ReadLine(r, a[0]).value, a[1..], b);
    }
  }

  // -------------------------------------------------------------- round trip

  predicate OneLine(s: string) {
    Plain(s) && '\n' !in s
  }

  predicate GoodKey(key: Key) {
    && OneLine(key.name) && '=' !in key.name && Trimmed(key.name)
    && (key.name == "" || (key.name[0] != '#' && key.name[0] != ';' && key.name[0] != '['))
    && OneLine(Text(key.v))
  }

  /** Letters and digits, and nothing the text form gives a meaning to. */
  predicate Word(s: string) {
    forall c :: c in s ==> '0' <= c <= 'z' && c != ';' && c != '=' && c != '[' && c != '\\'
  }

  lemma {:induction false} WordKey(k: string, v: Option<string>)
    requires Word(k) && OneLine(Text(v))
    ensures GoodKey(Key(k, v))
  {
    forall i | 0 <= i < |k|
      ensures '0' <= k[i] && k[i] != ';' && k[i] != '[' && k[i] != '\\'
    {
      assert k[i] in k;
    }
  }

  predicate GoodName(name: string) {
    OneLine(name) && ']' !in name && |name| < LINE_MAX
  }

  /** Files whose text the parser takes apart the way it was put together. */
  predicate Good(secs: seq<Section>) {
    forall i :: 0 <= i < |secs| ==> GoodSection(secs[i])
  }

  predicate GoodSection(sec: Section) {
    GoodName(sec.name) && forall j :: 0 <= j < |sec.keys| ==> GoodKey(sec.keys[j])
  }

  /** A key as read back: its value trimmed, and empty if it had none. */
  function NormalKey(key: Key): Key {
    Key(key.name, Some(Trim(Text(key.v))))
  }

  function NormalKeys(keys: seq<Key>): (r: seq<Key>)
    ensures |r| == |keys| && forall j :: 0 <= j < |r| ==> r[j] == NormalKey(keys[j])
  {
    if keys == [] then [] else NormalKeys(keys[..|keys| - 1]) + [NormalKey(keys[|keys| - 1])]
  }

  lemma {:induction false} FindNormal(keys: seq<Key>, k: string)
    ensures FindKey(NormalKeys(keys), k) == FindKey(keys, k)
  {
  }

  /** A file as read back: sections without keys are gone. */
  function Normal(secs: seq<Section>): seq<Section> {
    if secs == [] then []
    else
      var last := secs[|secs| - 1];
      Normal(secs[..|secs| - 1]) + if last.keys == [] then [] else [Section(last.name, NormalKeys(last.keys))]
  }

  /** Stripping a written key line and taking it apart gives the key back. */
  lemma {:induction false} KeyLineRead(key: Key, r: Reader)
    requires GoodKey(key) && r.open.Some?
    ensures ReadLine(r, KeyLine(key)) ==
      Done(r.(open := Some(Section(r.open.value.name, r.open.value.keys + [NormalKey(key)]))))
  {
    var v := Text(key.v);
    var s := key.name + ['='] + Chomp(v);
    KeyLineStrip(key);
    assert s[0] == if key.name == "" then '=' else key.name[0];
    KeyLineParts(key.name, v);
  }

  lemma {:induction false} KeyLineStrip(key: Key)
    requires GoodKey(key)
    ensures Strip(KeyLine(key)) == key.name + ['='] + Chomp(Text(key.v))
  {
    StripPlain(KeyLine(key));
    TrimAround(key.name, '=', Text(key.v));
    ChugTrimmed(key.name);
  }

  lemma {:induction false} ChugTrimmed(s: string)
    requires Trimmed(s)
    ensures Chug(s) == s
  {
  }

  lemma {:induction false} KeyLineParts(name: string, v: string)
    requires OneLine(name) && '=' !in name && Trimmed(name) && OneLine(v)
    requires name == "" || name[0] != '#'
    ensures ParseLine(name + ['='] + Chomp(v)) == Some((name, Some(Chomp(v))))
    ensures Strip(name) == name && Strip(Chomp(v)) == Trim(v)
  {
    ChompPrefix(v);
    var w := Chomp(v);
    assert Strip(name + ['='] + w) == name + ['='] + w by {
      StripPlain(name + ['='] + w);
      TrimAround(name, '=', w);
      ChugTrimmed(name);
      ChompTwice(v);
    }
    SplitPair(name, w);
    StripPlain(name);
    TrimTrimmed(name);
    StripPlain(w);
    TrimChomp(v);
  }

  lemma {:induction false} SplitPair(name: string, w: string)
    requires '=' !in name
    ensures Split(name + ['='] + w, '=', 2) == [name, w]
  {
    SplitJoin([name, w], '=', 2);
    assert [name, w][1..] == [w];
    assert Join([name, w], '=') == name + ['='] + w;
  }

  lemma {:induction false} ChompTwice(s: string)
    ensures Chomp(Chomp(s)) == Chomp(s)
  {
  }

  lemma {:induction false} HeaderRead(name: string, r: Reader)
    requires GoodName(name)
    ensures ReadLine(r, "[" + name + "]") == Done(Reader(Close(r), Some(Section(name, []))))
  {
    var line := "[" + name + "]";
    HeaderStrip(name);
    assert line[1..] == name + [']'] + "";
    IndexOfPrefix(name, ']', "");
    assert line[1..][..|name|] == name;
  }

  lemma {:induction false} HeaderStrip(name: string)
    requires Plain(name)
    ensures Strip("[" + name + "]") == "[" + name + "]"
  {
    StripPlain("[" + name + "]");
    TrimTrimmed("[" + name + "]");
  }

  lemma {:induction false} KeysRead(keys: seq<Key>, r: Reader, name: string)
    requires forall j :: 0 <= j < |keys| ==> GoodKey(keys[j])
    requires r.open == Some(Section(name, []))
    ensures ReadLines(r, KeyLines(keys)) == Done(r.(open := Some(Section(name, NormalKeys(keys)))))
  {
    if keys != [] {
      var init, last := keys[..|keys| - 1], keys[|keys| - 1];
      KeysRead(init, r, name);
      ReadConcat(r, KeyLines(init), [KeyLine(last)]);
      var mid := r.(open := Some(Section(name, NormalKeys(init))));
      KeyLineRead(last, mid);
      ReadOne(mid, KeyLine(last));
    }
  }

  lemma {:induction false} ReadOne(r: Reader, line: string)
    ensures ReadLines(r, [line]) == ReadLine(r, line)
  {
    assert [line][1..] == [];
    match ReadLine(r, line) {
      case Done(r') => assert ReadLines(r', []) == Done(r');
      case Failed(_) =>
      case Crashed =>
    }
  }

  lemma {:induction false} SectionRead(sec: Section, r: Reader)
    requires GoodSection(sec) && sec.keys != []
    ensures ReadLines(r, SectionLines(sec)) == Done(Reader(Close(r), Some(Section(sec.name, NormalKeys(sec.keys)))))
  {
    var h := "[" + sec.name + "]";
    HeaderRead(sec.name, r);
    ReadOne(r, h);
    var begun := Reader(Close(r), Some(Section(sec.name, [])));
    KeysRead(sec.keys, begun, sec.name);
    ReadConcat(r, [h], KeyLines(sec.keys));
    var full := begun.(open := Some(Section(sec.name, NormalKeys(sec.keys))));
    ReadConcat(r, [h] + KeyLines(sec.keys), [""]);
    StripEmpty();
    ReadOne(full, "");
  }

  lemma {:induction false} StripEmpty()
    ensures Strip("") == ""
  {
    StripPlain("");
  }

  lemma {:induction false} SectionsRead(secs: seq<Section>)
    requires Good(secs)
    ensures ReadLines(EMPTY, FileLines(secs)).Done?
    ensures Close(ReadLines(EMPTY, FileLines(secs)).value) == Normal(secs)
  {
    if secs != [] {
      var init, last := secs[..|secs| - 1], secs[|secs| - 1];
      SectionsRead(init);
      ReadConcat(EMPTY, FileLines(init), SectionLines(last));
      if last.keys != [] {
        SectionRead(last, ReadLines(EMPTY, FileLines(init)).value);
      } else {
        assert FileLines(init) + [] == FileLines(init);
      }
    }
  }

  lemma {:induction false} TerminateJoin(ls: seq<string>)
    ensures Terminate(ls) == Join(ls + [""], '\n')
  {
    if ls != [] {
      var init, last := ls[..|ls| - 1], ls[|ls| - 1];
      TerminateJoin(init);
      JoinLast(init, last, '\n');
      JoinSnoc(init + [last], "", '\n');
      assert ls == init + [last];
    } else {
      assert ls + [""] == [""];
    }
  }

  lemma {:induction false} GoodLines(secs: seq<Section>)
    requires Good(secs)
    ensures forall i :: 0 <= i < |FileLines(secs)| ==> '\n' !in FileLines(secs)[i]
  {
    if secs != [] {
      var last := secs[|secs| - 1];
      GoodLines(secs[..|secs| - 1]);
      forall i | 0 <= i < |SectionLines(last)|
        ensures '\n' !in SectionLines(last)[i]
      {
        if 1 <= i <= |last.keys| {
          assert SectionLines(last)[i] == KeyLine(last.keys[i - 1]);
          assert GoodKey(last.keys[i - 1]);
        }
      }
    }
  }

  /** Saving a good file and parsing the text gives the file back, in normal form. */
  lemma {:induction false} SaveParse(secs: seq<Section>)
    requires Good(secs)
    ensures Parse(Save(secs)) == Done(Normal(secs))
  {
    var ls := FileLines(secs);
    SectionsRead(secs);
    if ls == [] {
      assert Split("", '\n', 0) == [];
    } else {
      TerminateJoin(ls);
      GoodLines(secs);
      SplitJoin(ls + [""], '\n', 0);
      ReadConcat(EMPTY, ls, [""]);
      StripEmpty();
      ReadOne(ReadLines(EMPTY, ls).value, "");
    }
  }

  // ---------------------------------------------------- what parsing gives

  ghost predicate GoodReader(r: Reader) {
    Good(r.sections) && (r.open.Some? ==> GoodSection(r.open.value))
  }

  lemma {:induction false} ParsedKeyGood(s: string)
    requires OneLine(s) && Trimmed(s) && s != "" && s[0] != '#' && s[0] != ';' && s[0] != '['
    requires ParseLine(s).Some?
    ensures var (k, v) := ParseLine(s).value; GoodKey(Key(Strip(k), StripValue(v)))
  {
    StripPlain(s);
    TrimTrimmed(s);
    var kv := Split(s, '=', 2);
    PiecesSeparable(s, '=', 2);
    var i := IndexOf(s, '=');
    assert kv[0] == s[..i];
    assert i < |s| ==> Pieces(s[i + 1..], '=', 1) == [s[i + 1..]];
    StripPlain(kv[0]);
    TrimTrimmed(kv[0]);
    ChompPrefix(kv[0]);
    if |kv| > 1 {
      StripPlain(kv[1]);
    }
  }

  lemma {:induction false} ReadLineGood(r: Reader, line: string)
    requires GoodReader(r) && OneLine(line) && ReadLine(r, line).Done?
    ensures GoodReader(ReadLine(r, line).value)
  {
    StripPlain(line);
    TrimTrimmed(line);
    var s := Strip(line);
    if s != "" && s[0] != '#' && s[0] != ';' {
      if s[0] == '[' {
        HeaderGood(s);
      } else if ParseLine(s).Some? {
        ParsedKeyGood(s);
      }
    }
  }

  lemma {:induction false} HeaderGood(s: string)
    requires OneLine(s) && s != ""
    ensures var end := IndexOf(s[1..], ']');
      GoodName(if end < LINE_MAX then s[1..][..end] else s[1..][..LINE_MAX - 1])
  {
    var end := IndexOf(s[1..], ']');
    assert ']' !in s[1..][..end];
  }

  lemma {:induction false} ReadLinesGood(r: Reader, lines: seq<string>)
    requires GoodReader(r) && ReadLines(r, lines).Done?
    requires forall i :: 0 <= i < |lines| ==> OneLine(lines[i])
    ensures GoodReader(ReadLines(r, lines).value)
    decreases |lines|
  {
    if lines != [] {
      ReadLineGood(r, lines[0]);
      ReadLinesGood(ReadLine(r, lines[0]).value, lines[1..]);
    }
  }

  lemma {:induction false} PiecesPlain(s: string, c: char)
    requires Plain(s)
    ensures forall i :: 0 <= i < |Pieces(s, c, 0)| ==> Plain(Pieces(s, c, 0)[i]) && c !in Pieces(s, c, 0)[i]
    decreases |s|
  {
    var i := IndexOf(s, c);
    if i < |s| {
      PiecesPlain(s[i + 1..], c);
    }
  }

  /** Parsing plain text gives a good file, so a parsed file survives being saved. */
  lemma {:induction false} ParseGood(text: string)
    requires Plain(text) && Parse(text).Done?
    ensures Good(Parse(text).value)
  {
    if text != "" {
      PiecesPlain(text, '\n');
    }
    ReadLinesGood(EMPTY, Split(text, '\n', 0));
  }

  // -------------------------------------------------- reading a normal form

  lemma {:induction false} NormalSnoc(secs: seq<Section>, last: Section)
    ensures Normal(secs + [last]) ==
      if last.keys == [] then Normal(secs) else Normal(secs) + [Section(last.name, NormalKeys(last.keys))]
  {
    assert (secs + [last])[..|secs|] == secs;
    assert Normal(secs) + [] == Normal(secs);
  }

  lemma {:induction false} NormalConcat(a: seq<Section>, b: seq<Section>)
    ensures Normal(a + b) == Normal(a) + Normal(b)
  {
    if b == [] {
      assert a + b == a;
    } else {
      assert (a + b)[..|a + b| - 1] == a + b[..|b| - 1];
      NormalConcat(a, b[..|b| - 1]);
    }
  }

  /** A value as the saved text gives it back. */
  function AsRead(v: Option<Option<string>>): Option<Option<string>> {
    match v case None => None case Some(x) => Some(Some(Trim(Text(x))))
  }

  lemma {:induction false} ReadNormal(keys: seq<Key>, k: string)
    ensures ReadKey(NormalKeys(keys), k) == AsRead(ReadKey(keys, k))
  {
    FindNormal(keys, k);
  }

  lemma {:induction false} LookupNormal(secs: seq<Section>, s: string, k: string)
    ensures Lookup(Normal(secs), s, k) == AsRead(Lookup(secs, s, k))
  {
    if secs != [] {
      var init, last := secs[..|secs| - 1], secs[|secs| - 1];
      LookupNormal(init, s, k);
      LookupConcat(init, [last], s, k);
      assert secs == init + [last];
      LookupNormalOne(Normal(init), last, s, k);
    }
  }

  lemma {:induction false} LookupNormalOne(before: seq<Section>, last: Section, s: string, k: string)
    ensures Lookup(before + (if last.keys == [] then [] else [Section(last.name, NormalKeys(last.keys))]), s, k) ==
      if Lookup(before, s, k).Some? then Lookup(before, s, k) else AsRead(Lookup([last], s, k))
  {
    LookupSingle(last, s, k);
    if last.keys == [] {
      assert before + [] == before;
    } else {
      var read := Section(last.name, NormalKeys(last.keys));
      LookupConcat(before, [read], s, k);
      LookupSingle(read, s, k);
      ReadNormal(last.keys, k);
    }
  }

  // --------------------------------------------------- writing back unchanged

  /** No value has white space at its ends. */
  predicate Settled(sec: Section) {
    forall j :: 0 <= j < |sec.keys| ==> Trimmed(Text(sec.keys[j].v))
  }

  predicate AllSettled(secs: seq<Section>) {
    forall i :: 0 <= i < |secs| ==> Settled(secs[i])
  }

  lemma {:induction false} NormalLines(sec: Section)
    requires Settled(sec)
    ensures SectionLines(Section(sec.name, NormalKeys(sec.keys))) == SectionLines(sec)
  {
    forall j | 0 <= j < |sec.keys|
      ensures KeyLine(NormalKey(sec.keys[j])) == KeyLine(sec.keys[j])
    {
      TrimTrimmed(Text(sec.keys[j].v));
    }
    assert KeyLines(NormalKeys(sec.keys)) == KeyLines(sec.keys);
  }

  /** Taking the normal form of a file with trimmed values leaves its text as it is. */
  lemma {:induction false} SaveNormal(secs: seq<Section>)
    requires AllSettled(secs)
    ensures FileLines(Normal(secs)) == FileLines(secs) && Save(Normal(secs)) == Save(secs)
  {
    if secs != [] {
      var init, last := secs[..|secs| - 1], secs[|secs| - 1];
      SaveNormal(init);
      NormalLines(last);
      NormalLinesSnoc(Normal(init), init, last);
    }
  }

  lemma {:induction false} NormalLinesSnoc(before: seq<Section>, init: seq<Section>, last: Section)
    requires FileLines(before) == FileLines(init)
    requires SectionLines(Section(last.name, NormalKeys(last.keys))) == SectionLines(last)
    ensures FileLines(before + if last.keys == [] then [] else [Section(last.name, NormalKeys(last.keys))]) ==
      FileLines(init) + SectionLines(last)
  {
    if last.keys == [] {
      assert before + [] == before && FileLines(init) + [] == FileLines(init);
    } else {
      var read := Section(last.name, NormalKeys(last.keys));
      assert (before + [read])[..|before|] == before;
    }
  }

  predicate SettledReader(r: Reader) {
    AllSettled(r.sections) && (r.open.Some? ==> Settled(r.open.value))
  }

  lemma {:induction false} ReadLineSettled(r: Reader, line: string)
    requires SettledReader(r) && ReadLine(r, line).Done?
    ensures SettledReader(ReadLine(r, line).value)
  {
    var s := Strip(line);
    if ParseLine(s).Some? {
      var v := ParseLine(s).value.1;
      TrimTrimmed(if v.Some? then CString(Compress(v.value)) else "");
    }
  }

  lemma {:induction false} ReadLinesSettled(r: Reader, lines: seq<string>)
    requires SettledReader(r) && ReadLines(r, lines).Done?
    ensures SettledReader(ReadLines(r, lines).value)
    decreases |lines|
  {
    if lines != [] {
      ReadLineSettled(r, lines[0]);
      ReadLinesSettled(ReadLine(r, lines[0]).value, lines[1..]);
    }
  }

  /** Parsing trims every value. */
  lemma {:induction false} ParseSettled(text: string)
    requires Parse(text).Done?
    ensures AllSettled(Parse(text).value)
  {
    ReadLinesSettled(EMPTY, Split(text, '\n', 0));
  }

  /** Rewriting a file without a change settles its text at once: reading and writing it again
      gives the same text. */
  lemma {:induction false} SaveParseAgain(text: string)
    requires Plain(text) && Parse(text).Done?
    ensures var once := Save(Parse(text).value);
      Parse(once) == Done(Normal(Parse(text).value)) && Save(Parse(once).value) == once
  {
    ParseGood(text);
    SaveParse(Parse(text).value);
    ParseSettled(text);
    SaveNormal(Parse(text).value);
  }
}
