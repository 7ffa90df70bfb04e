/** The string helpers of src/share/string-util.c and the GLib calls behind them.
    Every delimiter the program splits on is one character. */
module Strings {
  import opened Wrappers

  // ---------------------------------------------------------------- search

  /** Position of the first `c`, or the length when there is none. */
  function IndexOf(s: string, c: char): (i: nat)
    ensures i <= |s|
    ensures c !in s[..i]
    ensures i < |s| ==> s[i] == c
    ensures i == |s| <==> c !in s
  {
    if s == "" then 0
    else if s[0] == c then 0
    else
      var i := 1 + IndexOf(s[1..], c);
      assert s[..i] == [s[0]] + s[1..][..i - 1];
      i
  }

  lemma {:induction false} IndexOfPrefix(p: string, c: char, q: string)
    requires c !in p
    ensures IndexOf(p + [c] + q, c) == |p|
  {
    if p != "" {
      IndexOfPrefix(p[1..], c, q);
      assert (p + [c] + q)[1..] == p[1..] + [c] + q;
    }
  }

  // ------------------------------------------------------- split and join

  /** How many pieces are left to split off; 0 stands for any number. */
  function Room(limit: nat): nat {
    if limit == 0 then 0 else limit - 1
  }

  /** `g_strsplit` on a non-empty remainder; a limit of 0 means no limit. */
  function Pieces(s: string, c: char, limit: nat): (r: seq<string>)
    ensures |r| >= 1
    decreases |s|
  {
    var i := IndexOf(s, c);
    if limit == 1 || i == |s| then [s]
    else [s[..i]] + Pieces(s[i + 1..], c, Room(limit))
  }

  /** `g_strsplit`: the empty string splits into the empty vector. */
  function Split(s: string, c: char, limit: nat): seq<string> {
    if s == "" then [] else Pieces(s, c, limit)
  }

  /** `g_strjoinv` with a one-character separator. */
  function Join(xs: seq<string>, c: char): string {
    if |xs| == 0 then ""
    else if |xs| == 1 then xs[0]
    else xs[0] + [c] + Join(xs[1..], c)
  }

  /** `g_strsplit` as the loop it is. */
  method StrSplit(s: string, c: char, limit: nat) returns (r: seq<string>)
    ensures r == Split(s, c, limit)
  {
    r := [];
    if s == "" {
      return;
    }
    var rest, left := s, limit;
    var i := IndexOf(rest, c);
    while left != 1 && i < |rest|
      invariant i == IndexOf(rest, c)
      invariant Pieces(s, c, limit) == r + Pieces(rest, c, left)
      decreases |rest|
    {
      NextPiece(r, rest, c, left);
      r := r + [rest[..i]];
      rest, left := rest[i + 1..], Room(left);
      i := IndexOf(rest, c);
    }
    r := r + [rest];
  }

  lemma {:induction false} NextPiece(r: seq<string>, rest: string, c: char, left: nat)
    requires left != 1 && c in rest
    ensures var i := IndexOf(rest, c);
      r + Pieces(rest, c, left) == (r + [rest[..i]]) + Pieces(rest[i + 1..], c, Room(left))
  {
    var head, tail := HeadAndTail(rest, c, left);
    ConcatThree(r, [head], Pieces(tail, c, Room(left)));
  }

  lemma {:induction false} ConcatThree(a: seq<string>, b: seq<string>, c: seq<string>)
    ensures (a + b) + c == a + (b + c)
  {
  }

  /** `g_strjoinv` as the loop it is. */
  method StrJoin(xs: seq<string>, c: char) returns (r: string)
    ensures r == Join(xs, c)
  {
    r := "";
    if |xs| == 0 {
      return;
    }
    r := xs[0];
    var k := 1;
    while k < |xs|
      invariant 1 <= k <= |xs|
      invariant r == Join(xs[..k], c)
    {
      JoinSnoc(xs[..k], xs[k], c);
      assert xs[..k] + [xs[k]] == xs[..k + 1];
      r := r + [c] + xs[k];
      k := k + 1;
    }
    assert xs[..k] == xs;
  }

  lemma {:induction false} JoinSnoc(xs: seq<string>, x: string, c: char)
    requires |xs| >= 1
    ensures Join(xs + [x], c) == Join(xs, c) + [c] + x
  {
    if |xs| == 1 {
      assert (xs + [x])[1..] == [x];
    } else {
      JoinSnoc(xs[1..], x, c);
      assert (xs + [x])[1..] == xs[1..] + [x];
    }
  }

  /** Only the last entry changes. */
  lemma {:induction false} JoinLast(init: seq<string>, last: string, c: char)
    ensures Join(init + [last], c) == Join(init + [""], c) + last
  {
    if init == [] {
      assert init + [last] == [last] && init + [""] == [""];
    } else {
      JoinSnoc(init, last, c);
      JoinSnoc(init, "", c);
    }
  }

  /** No piece but a last one cut short by the limit holds the delimiter. */
  predicate Separable(xs: seq<string>, c: char, limit: nat) {
    && |xs| >= 1
    && (forall k :: 0 <= k < |xs| - 1 ==> c !in xs[k])
    && (limit == 0 || |xs| <= limit)
    && (c in xs[|xs| - 1] ==> |xs| == limit)
  }

  /** Joining the pieces restores the line, whatever the limit. */
  lemma {:induction false} JoinSplit(s: string, c: char, limit: nat)
    ensures Join(Split(s, c, limit), c) == s
  {
    if s != "" {
      JoinPieces(s, c, limit);
    }
  }

  lemma {:induction false} JoinPieces(s: string, c: char, limit: nat)
    ensures Join(Pieces(s, c, limit), c) == s
    decreases |s|
  {
    if limit == 1 || c !in s {
      OnePiece(s, c, limit);
    } else {
      var head, tail := HeadAndTail(s, c, limit);
      JoinPieces(tail, c, Room(limit));
      JoinCons(head, Pieces(tail, c, Room(limit)), c);
    }
  }

  lemma {:induction false} HeadAndTail(s: string, c: char, limit: nat) returns (head: string, tail: string)
    requires limit != 1 && c in s
    ensures head == s[..IndexOf(s, c)] && tail == s[IndexOf(s, c) + 1..]
    ensures s == head + [c] + tail && c !in head
    ensures Pieces(s, c, limit) == [head] + Pieces(tail, c, Room(limit))
  {
    head, tail := s[..IndexOf(s, c)], s[IndexOf(s, c) + 1..];
  }

  lemma {:induction false} JoinCons(x: string, xs: seq<string>, c: char)
    requires xs != []
    ensures Join([x] + xs, c) == x + [c] + Join(xs, c)
  {
    assert ([x] + xs)[1..] == xs;
  }

  /** Pieces are separable: the limit is kept and the delimiter is gone from all but
      the piece the limit cut short. */
  lemma {:induction false} PiecesSeparable(s: string, c: char, limit: nat)
    ensures Separable(Pieces(s, c, limit), c, limit)
    decreases |s|
  {
    var i := IndexOf(s, c);
    if !(limit == 1 || i == |s|) {
      PiecesSeparable(s[i + 1..], c, Room(limit));
      SeparableCons(s[..i], Pieces(s[i + 1..], c, Room(limit)), c, limit);
    }
  }

  lemma {:induction false} SeparableCons(x: string, xs: seq<string>, c: char, limit: nat)
    requires limit != 1 && c !in x && Separable(xs, c, Room(limit))
    ensures Separable([x] + xs, c, limit)
  {
  }

  /** Splitting a join restores the fields exactly when they are separable and are not
      the single empty field, which joins to the empty line. */
  lemma {:induction false} SplitJoin(xs: seq<string>, c: char, limit: nat)
    ensures Split(Join(xs, c), c, limit) == xs <==> xs == [] || (Separable(xs, c, limit) && xs != [""])
  {
    if xs != [] && Split(Join(xs, c), c, limit) == xs {
      PiecesSeparable(Join(xs, c), c, limit);
    }
    if Separable(xs, c, limit) {
      PiecesJoin(xs, c, limit);
      if |xs| > 1 {
        assert Join(xs, c)[|xs[0]|] == c;
      }
    }
  }

  lemma {:induction false} PiecesJoin(xs: seq<string>, c: char, limit: nat)
    requires Separable(xs, c, limit)
    ensures Pieces(Join(xs, c), c, limit) == xs
    decreases |xs|
  {
    if |xs| == 1 {
      OnePiece(xs[0], c, limit);
      assert xs == [xs[0]];
    } else {
      var tail := xs[1..];
      assert xs == [xs[0]] + tail;
      JoinCons(xs[0], tail, c);
      FirstPiece(xs[0], Join(tail, c), c, limit);
      PiecesJoin(tail, c, Room(limit));
    }
  }

  lemma {:induction false} OnePiece(x: string, c: char, limit: nat)
    requires c in x ==> limit == 1
    ensures Pieces(x, c, limit) == [x]
  {
  }

  lemma {:induction false} FirstPiece(x: string, rest: string, c: char, limit: nat)
    requires c !in x && limit != 1
    ensures Pieces(x + [c] + rest, c, limit) == [x] + Pieces(rest, c, Room(limit))
  {
    var s := x + [c] + rest;
    IndexOfPrefix(x, c, rest);
    assert s[..|x|] == x && s[|x| + 1..] == rest;
  }

  // ------------------------------------------------------ strip and escape

  /** `g_ascii_isspace`. */
  predicate IsSpace(c: char) {
    c == ' ' || c == '\t' || c == '\n' || c == '\r' || c == '\U{0B}' || c == '\U{0C}'
  }

  function Chug(s: string): (r: string)
    ensures r == "" || !IsSpace(r[0])
  {
    if s != "" && IsSpace(s[0]) then Chug(s[1..]) else s
  }

  function Chomp(s: string): (r: string)
    ensures r == "" || !IsSpace(r[|r| - 1])
  {
    if s != "" && IsSpace(s[|s| - 1]) then Chomp(s[..|s| - 1]) else s
  }

  lemma {:induction false} ChugSuffix(s: string)
    ensures |Chug(s)| <= |s| && Chug(s) == s[|s| - |Chug(s)|..]
  {
    if s != "" && IsSpace(s[0]) {
      ChugSuffix(s[1..]);
    }
  }

  lemma {:induction false} ChompPrefix(s: string)
    ensures |Chomp(s)| <= |s| && Chomp(s) == s[..|Chomp(s)|]
  {
    if s != "" && IsSpace(s[|s| - 1]) {
      ChompPrefix(s[..|s| - 1]);
    }
  }

  /** `g_strstrip`. */
  function Trim(s: string): string {
    Chomp(Chug(s))
  }

  predicate Octal(c: char) {
    '0' <= c <= '7'
  }

  /** Value of up to `room` leading octal digits, one byte wide, and how many there were. */
  function OctalRun(s: string, room: nat, acc: nat): (r: (nat, nat))
    ensures r.1 <= |s| && r.0 < 256
    ensures room > 0 && s != "" && Octal(s[0]) ==> r.1 > 0
  {
    if room == 0 || s == "" || !Octal(s[0]) then (acc % 256, 0)
    else
      var r := OctalRun(s[1..], room - 1, acc * 8 + (s[0] as int - '0' as int));
      (r.0, r.1 + 1)
  }

  /** `g_strcompress`: undo C escapes; a lone trailing backslash is dropped. */
  function Compress(s: string): string
    decreases |s|
  {
    if s == "" then ""
    else if s[0] != '\\' then [s[0]] + Compress(s[1..])
    else if |s| == 1 then ""
    else if Octal(s[1]) then
      var r := OctalRun(s[1..], 3, 0);
      [r.0 as char] + Compress(s[1 + r.1..])
    else
      [match s[1]
       case 'b' => '\U{08}'
       case 'f' => '\U{0C}'
       case 'n' => '\n'
       case 'r' => '\r'
       case 't' => '\t'
       case 'v' => '\U{0B}'
       case c => c] + Compress(s[2..])
  }

  /** What C sees of a buffer: everything before the first NUL. */
  function CString(s: string): string {
    s[..IndexOf(s, '\0')]
  }

  /** `str_strip`: compress, then trim. */
  function Strip(s: string): string {
    Trim(CString(Compress(s)))
  }

  /** `parse_line`: the key of a line and, when it has an `=`, its value; None is -ENODATA. */
  function ParseLine(line: string): Option<(string, Option<string>)> {
    var s := Strip(line);
    if s == "" || s[0] == '#' then None
    else
      var pair := Split(s, '=', 2);
      Some((pair[0], if |pair| > 1 then Some(pair[1]) else None))
  }

  /** Text free of escapes and NULs, which `str_strip` only trims. */
  predicate Plain(s: string) {
    '\\' !in s && '\0' !in s
  }

  /** Text that splitting on spaces and stripping leave alone. */
  predicate Solid(s: string) {
    Plain(s) && forall k :: 0 <= k < |s| ==> !IsSpace(s[k])
  }

  lemma {:induction false} SolidChars(x: string, c: char)
    requires Solid(x) && IsSpace(c)
    ensures c !in x
  {
  }

  lemma {:induction false} CompressPlain(s: string)
    requires '\\' !in s
    ensures Compress(s) == s
  {
    if s != "" {
      CompressPlain(s[1..]);
      assert s == [s[0]] + s[1..];
    }
  }

  lemma {:induction false} StripPlain(s: string)
    requires Plain(s)
    ensures Strip(s) == Trim(s)
    ensures forall c :: c in Trim(s) ==> c in s
  {
    CompressPlain(s);
    assert CString(s) == s;
    ChugSuffix(s);
    ChompPrefix(Chug(s));
  }

  /** No white space at either end. */
  predicate Trimmed(s: string) {
    s == "" || (!IsSpace(s[0]) && !IsSpace(s[|s| - 1]))
  }

  lemma {:induction false} TrimTrimmed(s: string)
    ensures Trimmed(Trim(s))
    ensures Trimmed(s) ==> Trim(s) == s
  {
    ChompPrefix(Chug(s));
  }

  /** Trimming around a separator that is not white space trims the outer ends only. */
  lemma {:induction false} TrimAround(a: string, c: char, b: string)
    requires !IsSpace(c)
    ensures Trim(a + [c] + b) == Chug(a) + [c] + Chomp(b)
  {
    var s := a + ([c] + b);
    assert a + [c] + b == s;
    assert Chug(s) == Chug(a) + ([c] + b) by {
      ChugAround(a, [c] + b);
    }
    var front := Chug(a) + [c];
    assert Chug(s) == front + b;
    TrimFront(s, front, b);
  }

  lemma {:induction false} TrimFront(s: string, front: string, b: string)
    requires Chug(s) == front + b && front != "" && !IsSpace(front[|front| - 1])
    ensures Trim(s) == front + Chomp(b)
  {
    ChompAround(front, b);
  }

  lemma {:induction false} ChugAround(a: string, b: string)
    requires b != "" && !IsSpace(b[0])
    ensures Chug(a + b) == Chug(a) + b
  {
    if a == "" {
      assert a + b == b;
    } else {
      assert (a + b)[0] == a[0];
      assert (a + b)[1..] == a[1..] + b;
      if IsSpace(a[0]) {
        ChugAround(a[1..], b);
      }
    }
  }

  lemma {:induction false} ChompAround(a: string, b: string)
    requires a != "" && !IsSpace(a[|a| - 1])
    ensures Chomp(a + b) == a + Chomp(b)
    decreases |b|
  {
    if b == "" {
      assert a + b == a;
    } else if IsSpace(b[|b| - 1]) {
      ChompAround(a, b[..|b| - 1]);
      assert (a + b)[..|a + b| - 1] == a + b[..|b| - 1];
    }
  }

  lemma {:induction false} ChugSnoc(s: string, c: char)
    requires IsSpace(c)
    ensures Chug(s + [c]) == if Chug(s) == "" then "" else Chug(s) + [c]
  {
    if s != "" {
      assert (s + [c])[0] == s[0];
      assert (s + [c])[1..] == s[1..] + [c];
      if IsSpace(s[0]) {
        ChugSnoc(s[1..], c);
      }
    } else {
      assert s + [c] == [c];
    }
  }

  lemma {:induction false} ChompSpace(s: string, c: char)
    requires IsSpace(c)
    ensures Chomp(s + [c]) == Chomp(s)
  {
    assert (s + [c])[..|s|] == s;
  }

  /** Trimming the right end first makes no difference. */
  lemma {:induction false} TrimChomp(s: string)
    ensures Trim(Chomp(s)) == Trim(s)
    decreases |s|
  {
    if s != "" && IsSpace(s[|s| - 1]) {
      var init, c := s[..|s| - 1], s[|s| - 1];
      TrimChomp(init);
      ChugSnoc(init, c);
      assert s == init + [c];
      if Chug(init) != "" {
        ChompSpace(Chug(init), c);
      }
    }
  }

  // ------------------------------------------------------- case and numbers

  function Lower(c: char): char {
    if 'A' <= c <= 'Z' then (c as int + 32) as char else c
  }

  /** `bool_to_str`. */
  function YesNo(b: bool): string {
    if b then "yes" else "no"
  }

  /** `strcasecmp(a, b) == 0`. */
  predicate EqFold(a: string, b: string) {
    |a| == |b| && forall k :: 0 <= k < |a| ==> Lower(a[k]) == Lower(b[k])
  }

  function Digit(d: nat): (c: char)
    requires d < 10
    ensures '0' <= c <= '9'
  {
    ('0' as int + d) as char
  }

  /** `%u`. */
  function Decimal(n: nat): (s: string)
    ensures s != "" && forall k :: 0 <= k < |s| ==> '0' <= s[k] <= '9'
  {
    if n < 10 then [Digit(n)] else Decimal(n / 10) + [Digit(n % 10)]
  }

  /** `%d`. */
  function Signed(n: int): (s: string)
    ensures s != ""
    ensures forall k :: 0 <= k < |s| ==> '0' <= s[k] <= '9' || s[k] == '-'
  {
    if n < 0 then "-" + Decimal(-n) else Decimal(n)
  }

  function DecimalValue(s: string): nat
    requires forall k :: 0 <= k < |s| ==> '0' <= s[k] <= '9'
  {
    if s == "" then 0
    else DecimalValue(s[..|s| - 1]) * 10 + (s[|s| - 1] as int - '0' as int)
  }

  lemma {:induction false} DecimalRoundTrip(n: nat)
    ensures DecimalValue(Decimal(n)) == n
  {
    if n < 10 {
      assert Decimal(n)[..0] == "";
    } else {
      DecimalRoundTrip(n / 10);
      var p := Decimal(n / 10);
      assert (p + [Digit(n % 10)])[..|p|] == p;
    }
  }

  lemma {:induction false} SignedHead(n: int)
    ensures Signed(n)[0] == '-' <==> n < 0
  {
    assert n >= 0 ==> '0' <= Decimal(n)[0] <= '9';
  }

  // ------------------------------------------------- space-separated lists

  /** Each entry followed by a space. */
  function Spaced(xs: seq<string>): string {
    if xs == [] then "" else Spaced(xs[..|xs| - 1]) + xs[|xs| - 1] + " "
  }

  /** The loop that appends each entry and a space. */
  method JoinSpaced(xs: seq<string>) returns (c: string)
    ensures c == Spaced(xs)
  {
    c := "";
    for i := 0 to |xs|
      invariant c == Spaced(xs[..i])
    {
      assert xs[..i + 1][..i] == xs[..i];
      c := c + xs[i] + " ";
    }
    assert xs[..|xs|] == xs;
  }

  /** The entries of a space-separated list, however many spaces there are. */
  function Entries(xs: seq<string>): seq<string> {
    if xs == [] then [] else (if xs[0] == "" then [] else [xs[0]]) + Entries(xs[1..])
  }

  /** A list entry survives when it has no space and is not empty. */
  predicate GoodEntry(x: string) {
    x != "" && ' ' !in x
  }

  predicate GoodEntries(xs: seq<string>) {
    forall i :: 0 <= i < |xs| ==> GoodEntry(xs[i])
  }

  lemma {:induction false} SpacedJoin(xs: seq<string>)
    ensures Spaced(xs) == Join(xs + [""], ' ')
  {
    if xs == [] {
      assert xs + [""] == [""];
    } else {
      var init, last := xs[..|xs| - 1], xs[|xs| - 1];
      SpacedJoin(init);
      JoinSnoc(init + [last], "", ' ');
      JoinLast(init, last, ' ');
      assert xs == init + [last];
    }
  }

  lemma {:induction false} EntriesKeep(xs: seq<string>)
    requires GoodEntries(xs)
    ensures Entries(xs) == xs && Entries(xs + [""]) == xs
  {
    if xs == [] {
      assert xs + [""] == [""];
    } else {
      EntriesKeep(xs[1..]);
      assert (xs + [""])[1..] == xs[1..] + [""];
      assert (xs + [""])[0] == xs[0];
      assert [xs[0]] + xs[1..] == xs;
    }
  }

  /** The list is recovered from its text, with or without the trailing space. */
  lemma {:induction false} EntriesRecovered(xs: seq<string>)
    requires GoodEntries(xs)
    ensures Entries(Split(Spaced(xs), ' ', 0)) == xs
    ensures Entries(Split(Join(xs, ' '), ' ', 0)) == xs
  {
    SpacedJoin(xs);
    EntriesKeep(xs);
    if xs != [] {
      assert forall i :: 0 <= i < |xs| ==> ' ' !in xs[i];
      SplitJoin(xs + [""], ' ', 0);
      SplitJoin(xs, ' ', 0);
      assert GoodEntry(xs[0]);
    }
  }

  lemma {:induction false} JoinEnds(xs: seq<string>)
    requires xs != [] && GoodEntries(xs)
    requires forall i, k :: 0 <= i < |xs| && 0 <= k < |xs[i]| ==> !IsSpace(xs[i][k])
    ensures Join(xs, ' ') != "" && Trimmed(Join(xs, ' '))
  {
    assert GoodEntry(xs[0]);
    if |xs| > 1 {
      JoinEnds(xs[1..]);
      assert Join(xs, ' ')[0] == xs[0][0];
    }
  }

  lemma {:induction false} SpacedTrim(xs: seq<string>)
    requires GoodEntries(xs)
    requires forall i, k :: 0 <= i < |xs| && 0 <= k < |xs[i]| ==> !IsSpace(xs[i][k])
    ensures Trim(Spaced(xs)) == Join(xs, ' ')
  {
    if xs != [] {
      SpacedJoin(xs);
      JoinSnoc(xs, "", ' ');
      JoinEnds(xs);
      var j := Join(xs, ' ');
      assert Spaced(xs) == j + " ";
      assert (j + " ")[..|j|] == j;
      assert Chug(j + " ") == j + " ";
      assert Chomp(j + " ") == Chomp(j);
      TrimTrimmed(j);
    }
  }
}
