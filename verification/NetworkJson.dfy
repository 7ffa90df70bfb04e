/** The JSON description of the network (src/json/network-json.c): addresses printed
    from their bytes, and parsers that undo the printing. */
module NetworkJson {
  import opened Wrappers
  import opened Strings

  const AF_INET := 2
  const AF_INET6 := 10

  /** Reading an IPv6 text and printing it again, a C library matter. */
  datatype Library = Library(canonical: string -> Option<string>)

  /** A C `int`. Numbers are held as the JSON library gives them, clamped to this range. */
  type CInt = x: int | -0x8000_0000 <= x < 0x8000_0000

  /** One element of an interface's list, with the keys that are present. `addresses` holds
      the byte arrays by key: Address, Gateway, PreferredSource, Destination. */
  datatype Entry = Entry(
    addresses: map<string, seq<CInt>>,
    prefix: Option<CInt>,
    family: Option<int>,
    server: Option<string>,
    source: Option<string>,
    provider: Option<seq<CInt>>,
    state: Option<string>)

  datatype Kind = Addresses | Routes | Dns | Ntp

  datatype Interface = Interface(name: Option<string>, lists: map<Kind, seq<Entry>>)

  /** The document; its list of interfaces may be missing. */
  datatype Document = Document(interfaces: Option<seq<Interface>>)

  // --------------------------------------------------------------- rendering

  function HexDigit(d: nat): (c: char)
    requires d < 16
    ensures '0' <= c <= '9' || 'a' <= c <= 'f'
  {
    if d < 10 then ('0' as int + d) as char else ('a' as int + d - 10) as char
  }

  /** `%x` of a non-negative number. */
  function Hex(n: nat): (s: string)
    ensures s != ""
    ensures forall k :: 0 <= k < |s| ==> '0' <= s[k] <= '9' || 'a' <= s[k] <= 'f'
  {
    if n < 16 then [HexDigit(n)] else Hex(n / 16) + [HexDigit(n % 16)]
  }

  /** `%02x` of an `int`, which prints it as unsigned. */
  function HexPair(n: CInt): (s: string)
    ensures forall k :: 0 <= k < |s| ==> '0' <= s[k] <= '9' || 'a' <= s[k] <= 'f'
  {
    var h := Hex(n % 0x1_0000_0000);
    if |h| < 2 then "0" + h else h
  }

  function Texts(ns: seq<int>): (r: seq<string>)
    ensures |r| == |ns| && forall i :: 0 <= i < |r| ==> r[i] == Signed(ns[i])
  {
    seq(|ns|, i requires 0 <= i < |ns| => Signed(ns[i]))
  }

  /** An element past the end reads as 0. */
  function At(bytes: seq<CInt>, i: nat): CInt {
    if i < |bytes| then bytes[i] else 0
  }

  /** Two bytes a group. */
  function GroupAt(bytes: seq<CInt>, g: nat): string {
    HexPair(At(bytes, 2 * g)) + HexPair(At(bytes, 2 * g + 1))
  }

  function Groups(bytes: seq<CInt>): (r: seq<string>)
    ensures |r| == (|bytes| + 1) / 2
    ensures forall g :: 0 <= g < |r| ==> r[g] == GroupAt(bytes, g)
  {
    seq((|bytes| + 1) / 2, g requires 0 <= g => GroupAt(bytes, g))
  }

  /** The fields of an address text and what separates them. */
  function Fields(bytes: seq<CInt>, family: int): seq<string> {
    if family == AF_INET then Texts(bytes) else Groups(bytes)
  }

  function Separator(family: int): (c: char)
    ensures c != '/'
  {
    if family == AF_INET then '.' else ':'
  }

  function Body(bytes: seq<CInt>, family: int): string {
    Join(Fields(bytes, family), Separator(family))
  }

  function PrefixText(prefix: int): string {
    if prefix > 0 then "/" + Signed(prefix) else ""
  }

  /** The text before an IPv6 address is made canonical. */
  function Text(bytes: seq<CInt>, family: int, prefix: int): string {
    Body(bytes, family) + PrefixText(prefix)
  }

  /** `json_array_to_ip`. */
  function ToIp(lib: Library, bytes: seq<CInt>, family: int, prefix: int): Option<string> {
    if family == AF_INET6 then lib.canonical(Text(bytes, family, prefix)) else Some(Text(bytes, family, prefix))
  }

  /** Where field `k` starts: a field takes one element or two. */
  function Start(family: int, k: nat): nat {
    if family == AF_INET then k else 2 * k
  }

  /** The field that starts at element `i`. */
  function FieldText(bytes: seq<CInt>, family: int, i: nat): string
    requires i < |bytes|
  {
    if family == AF_INET then Signed(bytes[i]) else HexPair(bytes[i]) + HexPair(At(bytes, i + 1))
  }

  /** The loop of `json_array_to_ip`, which takes one element or two at a time. */
  method ArrayBody(bytes: seq<CInt>, family: int) returns (v: string)
    ensures v == Body(bytes, family)
  {
    ghost var fields := Fields(bytes, family);
    var c := Separator(family);
    ghost var k := 0;
    var i := 0;
    v := "";
    while i < |bytes|
      invariant 0 <= k <= |fields| && i == Start(family, k)
      invariant v == Join(fields[..k], c)
    {
      var field := FieldText(bytes, family, i);
      FieldAt(bytes, family, k);
      JoinMore(fields, k, c);
      v := v + (if i == 0 then "" else [c]) + field;
      i := i + if family == AF_INET then 1 else 2;
      k := k + 1;
    }
    FieldCount(bytes, family, k);
    assert fields[..k] == fields;
  }

  lemma {:induction false} FieldCount(bytes: seq<CInt>, family: int, k: nat)
    requires k <= |Fields(bytes, family)| && Start(family, k) >= |bytes|
    ensures k == |Fields(bytes, family)|
  {
  }

  method ArrayToIp(lib: Library, bytes: seq<CInt>, family: int, prefix: int) returns (r: Option<string>)
    ensures r == ToIp(lib, bytes, family, prefix)
  {
    var v := ArrayBody(bytes, family);
    v := v + if prefix > 0 then "/" + Signed(prefix) else "";
    r := if family == AF_INET6 then lib.canonical(v) else Some(v);
  }

  /** Field `k` is made of the elements the loop is at. */
  lemma {:induction false} FieldAt(bytes: seq<CInt>, family: int, k: nat)
    requires Start(family, k) < |bytes|
    ensures k < |Fields(bytes, family)|
    ensures Fields(bytes, family)[k] == FieldText(bytes, family, Start(family, k))
  {
    if family != AF_INET {
      assert Groups(bytes)[k] == GroupAt(bytes, k);
    }
  }

  lemma {:induction false} JoinMore(fields: seq<string>, k: nat, c: char)
    requires k < |fields|
    ensures Join(fields[..k + 1], c) == Join(fields[..k], c) + (if k == 0 then "" else [c]) + fields[k]
  {
    assert fields[..k + 1] == fields[..k] + [fields[k]];
    if k > 0 {
      JoinSnoc(fields[..k], fields[k], c);
    }
  }

  // ------------------------------------------------- rendering and its inverse

  function SignedValue(s: string): int {
    if s != "" && s[0] == '-' then -Number(s[1..]) else Number(s)
  }

  function Number(s: string): int {
    if forall k :: 0 <= k < |s| ==> '0' <= s[k] <= '9' then DecimalValue(s) else 0
  }

  lemma {:induction false} SignedRoundTrip(n: int)
    ensures SignedValue(Signed(n)) == n
  {
    SignedHead(n);
    DecimalRoundTrip(if n < 0 then -n else n);
    if n < 0 {
      assert Signed(n)[1..] == Decimal(-n);
    }
  }

  function Values(xs: seq<string>): (r: seq<int>)
    ensures |r| == |xs| && forall i :: 0 <= i < |r| ==> r[i] == SignedValue(xs[i])
  {
    seq(|xs|, i requires 0 <= i < |xs| => SignedValue(xs[i]))
  }

  function ParsePrefix(text: string): int {
    var parts := Split(text, '/', 2);
    if |parts| > 1 then SignedValue(parts[1]) else 0
  }

  function ParseBody(text: string): string {
    var parts := Split(text, '/', 2);
    if |parts| > 0 then parts[0] else ""
  }

  /** The bytes and prefix of a dotted text. */
  function ParseDotted(text: string): (seq<int>, int) {
    (Values(Split(ParseBody(text), '.', 0)), ParsePrefix(text))
  }

  lemma {:induction false} PrefixParsed(body: string, prefix: int)
    requires '/' !in body
    ensures ParseBody(body + PrefixText(prefix)) == body
    ensures ParsePrefix(body + PrefixText(prefix)) == if prefix > 0 then prefix else 0
  {
    if prefix > 0 {
      SignedRoundTrip(prefix);
      SplitJoin([body, Signed(prefix)], '/', 2);
      assert [body, Signed(prefix)][1..] == [Signed(prefix)];
      assert Join([body, Signed(prefix)], '/') == body + PrefixText(prefix);
      assert '/' !in Signed(prefix);
    } else {
      assert body + "" == body;
      SplitJoin([body], '/', 2);
    }
  }

  lemma {:induction false} JoinAvoids(xs: seq<string>, c: char, d: char)
    requires c != d && forall i :: 0 <= i < |xs| ==> d !in xs[i]
    ensures d !in Join(xs, c)
  {
    if |xs| > 1 {
      JoinAvoids(xs[1..], c, d);
    }
  }

  /** A dotted text is undone by its parser, for numbers of any size. */
  lemma {:induction false} DottedRoundTrip(bytes: seq<CInt>, prefix: int)
    ensures ParseDotted(Text(bytes, AF_INET, prefix)) == (bytes, if prefix > 0 then prefix else 0)
  {
    forall i | 0 <= i < |bytes|
      ensures SignedValue(Texts(bytes)[i]) == bytes[i]
      ensures '.' !in Texts(bytes)[i] && '/' !in Texts(bytes)[i] && Texts(bytes)[i] != ""
    {
      SignedRoundTrip(bytes[i]);
    }
    JoinAvoids(Texts(bytes), '.', '/');
    PrefixParsed(Body(bytes, AF_INET), prefix);
    SplitJoin(Texts(bytes), '.', 0);
    assert Values(Texts(bytes)) == bytes;
  }

  function HexValue(c: char): int {
    if '0' <= c <= '9' then c as int - '0' as int else c as int - 'a' as int + 10
  }

  /** Byte `h` of a group of four digits. */
  function HalfValue(g: string, h: nat): int
    requires h < 2
  {
    if |g| == 4 then HexValue(g[2 * h]) * 16 + HexValue(g[2 * h + 1]) else 0
  }

  function ByteAt(groups: seq<string>, i: nat): int
    requires i < 2 * |groups|
  {
    HalfValue(groups[i / 2], i % 2)
  }

  function GroupBytes(groups: seq<string>): (r: seq<int>)
    ensures |r| == 2 * |groups|
    ensures forall i :: 0 <= i < |r| ==> r[i] == ByteAt(groups, i)
  {
    seq(2 * |groups|, i requires 0 <= i < 2 * |groups| => ByteAt(groups, i))
  }

  function ParseGrouped(text: string): (seq<int>, int) {
    (GroupBytes(Split(ParseBody(text), ':', 0)), ParsePrefix(text))
  }

  predicate Octets(bytes: seq<CInt>) {
    forall i :: 0 <= i < |bytes| ==> 0 <= bytes[i] < 256
  }

  /** What the groups hold: an odd last byte gets a zero after it. */
  function Padded(bytes: seq<CInt>): seq<CInt> {
    if |bytes| % 2 == 0 then bytes else bytes + [0]
  }

  lemma {:induction false} DigitValue(d: nat)
    requires d < 16
    ensures HexValue(HexDigit(d)) == d
  {
  }

  lemma {:induction false} HexByte(n: int)
    requires 0 <= n < 256
    ensures HexPair(n) == [HexDigit(n / 16), HexDigit(n % 16)]
  {
    assert n % 0x1_0000_0000 == n;
    if n >= 16 {
      assert Hex(n / 16) == [HexDigit(n / 16)];
    }
  }

  lemma {:induction false} HalfOf(a: int, b: int)
    requires 0 <= a < 256 && 0 <= b < 256
    ensures |HexPair(a) + HexPair(b)| == 4
    ensures HalfValue(HexPair(a) + HexPair(b), 0) == a && HalfValue(HexPair(a) + HexPair(b), 1) == b
  {
    HexByte(a);
    HexByte(b);
    DigitValue(a / 16);
    DigitValue(a % 16);
    DigitValue(b / 16);
    DigitValue(b % 16);
  }

  lemma {:induction false} GroupBytesBack(bytes: seq<CInt>)
    requires Octets(bytes)
    ensures GroupBytes(Groups(bytes)) == Padded(bytes)
    ensures forall i :: 0 <= i < |Groups(bytes)| ==> |Groups(bytes)[i]| == 4
  {
    var groups := Groups(bytes);
    forall g | 0 <= g < |groups|
      ensures |groups[g]| == 4
    {
      GroupValue(bytes, g);
    }
    forall j | 0 <= j < 2 * |groups|
      ensures ByteAt(groups, j) == At(bytes, j)
    {
      ByteBack(bytes, j);
    }
  }

  lemma {:induction false} ByteBack(bytes: seq<CInt>, j: nat)
    requires Octets(bytes) && j < 2 * |Groups(bytes)|
    ensures ByteAt(Groups(bytes), j) == At(bytes, j)
  {
    GroupValue(bytes, j / 2);
    assert Groups(bytes)[j / 2] == GroupAt(bytes, j / 2);
    assert j == 2 * (j / 2) + j % 2;
  }

  lemma {:induction false} GroupValue(bytes: seq<CInt>, g: nat)
    requires Octets(bytes)
    ensures |GroupAt(bytes, g)| == 4
    ensures HalfValue(GroupAt(bytes, g), 0) == At(bytes, 2 * g)
    ensures HalfValue(GroupAt(bytes, g), 1) == At(bytes, 2 * g + 1)
  {
    HalfOf(At(bytes, 2 * g), At(bytes, 2 * g + 1));
  }

  /** A grouped text is undone by its parser, up to the byte that fills the last group. */
  lemma {:induction false} GroupedRoundTrip(bytes: seq<CInt>, family: int, prefix: int)
    requires family != AF_INET && Octets(bytes)
    ensures ParseGrouped(Text(bytes, family, prefix)) == (Padded(bytes), if prefix > 0 then prefix else 0)
  {
    GroupBytesBack(bytes);
    forall g | 0 <= g < |Groups(bytes)|
      ensures ':' !in Groups(bytes)[g] && '/' !in Groups(bytes)[g]
    {
      HexOnly(bytes, g);
    }
    BodyParsed(Groups(bytes), prefix);
  }

  lemma {:induction false} HexOnly(bytes: seq<CInt>, g: nat)
    ensures ':' !in GroupAt(bytes, g) && '/' !in GroupAt(bytes, g)
  {
  }

  lemma {:induction false} BodyParsed(groups: seq<string>, prefix: int)
    requires forall g :: 0 <= g < |groups| ==> ':' !in groups[g] && '/' !in groups[g] && |groups[g]| == 4
    ensures ParseGrouped(Join(groups, ':') + PrefixText(prefix)) ==
      (GroupBytes(groups), if prefix > 0 then prefix else 0)
  {
    JoinAvoids(groups, ':', '/');
    PrefixParsed(Join(groups, ':'), prefix);
    SplitJoin(groups, ':', 0);
  }

  predicate SamePrefix(p: int, q: int) {
    p == q || (p <= 0 && q <= 0)
  }

  /** Two IPv4 texts agree exactly when the numbers agree and the prefixes are equal or both
      not positive. */
  lemma {:induction false} DottedInjective(a: seq<CInt>, p: int, b: seq<CInt>, q: int)
    ensures Text(a, AF_INET, p) == Text(b, AF_INET, q) <==> a == b && SamePrefix(p, q)
  {
    DottedRoundTrip(a, p);
    DottedRoundTrip(b, q);
  }

  /** Two grouped texts agree exactly when the filled groups agree and the prefixes are equal
      or both not positive; for arrays of even length that is when the bytes agree. */
  lemma {:induction false} GroupedInjective(a: seq<CInt>, p: int, b: seq<CInt>, q: int, family: int)
    requires family != AF_INET && Octets(a) && Octets(b)
    ensures Text(a, family, p) == Text(b, family, q) <==> Padded(a) == Padded(b) && SamePrefix(p, q)
    ensures |a| % 2 == 0 && |b| % 2 == 0 ==>
      (Text(a, family, p) == Text(b, family, q) <==> a == b && SamePrefix(p, q))
  {
    GroupedRoundTrip(a, family, p);
    GroupedRoundTrip(b, family, q);
    GroupsPadded(a);
    GroupsPadded(b);
  }

  lemma {:induction false} GroupsPadded(bytes: seq<CInt>)
    ensures Groups(Padded(bytes)) == Groups(bytes)
  {
    forall g | 0 <= g < |Groups(bytes)|
      ensures GroupAt(Padded(bytes), g) == GroupAt(bytes, g)
    {
    }
  }
}
