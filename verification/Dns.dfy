/** Adding DNS servers and domains to /etc/resolv.conf and resolved.conf (src/dns/dns.c):
    an ordered union on lists, and what it does to the files. */
module Dns {
  import opened Wrappers
  import opened Strings

  // ---------------------------------------------------------- ordered union

  /** Adding each new entry that is not there yet. */
  function Merge(base: seq<string>, added: seq<string>): seq<string> {
    if added == [] then base
    else
      var m, x := Merge(base, added[..|added| - 1]), added[|added| - 1];
      if x in m then m else m + [x]
  }

  /** The position of the first occurrence, or the length. */
  function FirstAt(xs: seq<string>, x: string): (i: nat)
    ensures i <= |xs|
    ensures i < |xs| <==> x in xs
    ensures i < |xs| ==> xs[i] == x && x !in xs[..i]
  {
    if xs == [] then 0
    else if xs[0] == x then 0
    else
      var i := 1 + FirstAt(xs[1..], x);
      assert xs[..i] == [xs[0]] + xs[1..][..i - 1];
      i
  }

  /** What the merge of two lists should be, without saying how it is made: the old list
      first, every new entry there, nothing else, nothing added twice, and the additions in
      the order of their first occurrence. */
  ghost predicate OrderedUnion(base: seq<string>, added: seq<string>, r: seq<string>) {
    && base <= r
    && (forall x :: x in r <==> x in base || x in added)
    && (forall i, j :: 0 <= i < j < |r| && |base| <= j ==> r[i] != r[j])
    && (forall i, j :: |base| <= i < j < |r| ==> FirstAt(added, r[i]) < FirstAt(added, r[j]))
  }

  lemma {:induction false} FirstAtSnoc(xs: seq<string>, y: string, x: string)
    ensures FirstAt(xs + [y], x) == if x in xs then FirstAt(xs, x) else if x == y then |xs| else |xs| + 1
  {
    if xs == [] {
      assert xs + [y] == [y];
    } else {
      assert (xs + [y])[0] == xs[0];
      if xs[0] != x {
        assert (xs + [y])[1..] == xs[1..] + [y];
        FirstAtSnoc(xs[1..], y, x);
      }
    }
  }

  /** The merge is an ordered union. */
  lemma {:induction false} MergeIsUnion(base: seq<string>, added: seq<string>)
    ensures OrderedUnion(base, added, Merge(base, added))
  {
    if added != [] {
      var init, x := added[..|added| - 1], added[|added| - 1];
      MergeIsUnion(base, init);
      assert added == init + [x];
      MergeStep(base, init, x);
    }
  }

  lemma {:induction false} MergeStep(base: seq<string>, init: seq<string>, x: string)
    requires OrderedUnion(base, init, Merge(base, init))
    ensures OrderedUnion(base, init + [x],
      if x in Merge(base, init) then Merge(base, init) else Merge(base, init) + [x])
  {
    var m := Merge(base, init);
    var r := if x in m then m else m + [x];
    forall i, j | |base| <= i < j < |r|
      ensures FirstAt(init + [x], r[i]) < FirstAt(init + [x], r[j])
    {
      assert forall k :: 0 <= k < |base| ==> base[k] == m[k];
      assert r[i] in init;
      FirstAtSnoc(init, x, r[i]);
      FirstAtSnoc(init, x, r[j]);
    }
  }

  /** An ordered union is unique, so the four properties determine the merge. */
  lemma {:induction false} UnionIsMerge(base: seq<string>, added: seq<string>, r: seq<string>)
    ensures OrderedUnion(base, added, r) <==> r == Merge(base, added)
  {
    MergeIsUnion(base, added);
    if OrderedUnion(base, added, r) {
      UnionsAgree(base, added, r, Merge(base, added), |r|);
      UnionsAgree(base, added, Merge(base, added), r, |Merge(base, added)|);
    }
  }

  lemma {:induction false} UnionsAgree(base: seq<string>, added: seq<string>, r: seq<string>, s: seq<string>, k: nat)
    requires OrderedUnion(base, added, r) && OrderedUnion(base, added, s)
    requires |base| <= k <= |r|
    ensures k <= |s| && r[..k] == s[..k]
    decreases k
  {
    if k == |base| {
      assert r[..k] == base == s[..k];
    } else {
      UnionsAgree(base, added, r, s, k - 1);
      SamePlace(base, added, r, s, k - 1);
      assert r[..k] == r[..k - 1] + [r[k - 1]] && s[..k] == s[..k - 1] + [s[k - 1]];
    }
  }

  /** Where two unions agree before `q`, what is at `q` in one stands at or after `q` in the
      other. */
  lemma {:induction false} PlaceAfter(base: seq<string>, added: seq<string>, r: seq<string>, s: seq<string>,
      q: nat) returns (p: nat)
    requires OrderedUnion(base, added, r) && OrderedUnion(base, added, s)
    requires |base| <= q < |r| && q <= |s| && r[..q] == s[..q]
    ensures q <= p < |s| && s[p] == r[q] && r[q] in added
  {
    assert r[q] in s;
    p :| 0 <= p < |s| && s[p] == r[q];
    assert forall k :: 0 <= k < q ==> s[k] == s[..q][k] == r[..q][k] == r[k];
    assert forall k :: 0 <= k < |base| ==> base[k] == r[k];
  }

  lemma {:induction false} SamePlace(base: seq<string>, added: seq<string>, r: seq<string>, s: seq<string>, q: nat)
    requires OrderedUnion(base, added, r) && OrderedUnion(base, added, s)
    requires |base| <= q < |r| && q <= |s| && r[..q] == s[..q]
    ensures q < |s| && r[q] == s[q]
  {
    var p := PlaceAfter(base, added, r, s, q);
    var t := PlaceAfter(base, added, s, r, q);
    assert FirstAt(added, r[q]) <= FirstAt(added, r[t]);
    assert FirstAt(added, s[q]) <= FirstAt(added, s[p]);
    assert r[q] == added[FirstAt(added, r[q])];
  }

  /** Merging twice in sequence is merging the concatenation once. */
  lemma {:induction false} MergeConcat(base: seq<string>, a: seq<string>, b: seq<string>)
    ensures Merge(Merge(base, a), b) == Merge(base, a + b)
  {
    if b == [] {
      assert a + b == a;
    } else {
      assert (a + b)[..|a + b| - 1] == a + b[..|b| - 1];
      MergeConcat(base, a, b[..|b| - 1]);
    }
  }

  /** Merging entries that are all there changes nothing. */
  lemma {:induction false} MergeKnown(base: seq<string>, added: seq<string>)
    requires forall x :: x in added ==> x in base
    ensures Merge(base, added) == base
  {
    if added != [] {
      MergeKnown(base, added[..|added| - 1]);
    }
  }

  lemma {:induction false} MergeTwice(base: seq<string>, added: seq<string>)
    ensures Merge(Merge(base, added), added) == Merge(base, added)
  {
    MergeIsUnion(base, added);
    MergeKnown(Merge(base, added), added);
  }

  // ----------------------------------------------------------- resolved.conf

  /** The [Resolve] values the program looks at. A list kept in the file's list syntax beyond
      spaces is not modelled. */
  datatype Resolved = NoGroup | Group(dns: Option<string>, domains: Option<string>)

  function EntriesOf(line: Option<string>): seq<string> {
    if line.None? then [] else Split(line.value, ' ', 0)
  }

  /** One key of the file after the loop; joining no list at all sets nothing. */
  function UpdateLine(line: Option<string>, added: seq<string>): Option<string> {
    if line.None? && added == [] then None else Some(Join(Merge(EntriesOf(line), added), ' '))
  }

  /** The texts of the servers; one that cannot be printed is skipped. */
  function Printed(servers: seq<Option<string>>): seq<string> {
    if servers == [] then []
    else
      var last := servers[|servers| - 1];
      Printed(servers[..|servers| - 1]) + if last.Some? then [last.value] else []
  }

  function Resolve(f: Resolved, servers: Option<seq<Option<string>>>, domains: Option<seq<string>>): Outcome<Resolved> {
    if f.NoGroup? then if servers.None? && domains.None? then Done(f) else Failed(EGROUP)
    else Done(Group(if servers.Some? then UpdateLine(f.dns, Printed(servers.value)) else f.dns,
                    if domains.Some? then UpdateLine(f.domains, domains.value) else f.domains))
  }

  class ResolvedConf {
    var file: Option<Resolved>

    /** The server loop and the write that follows it. */
    method UpdateDns(line: Option<string>, servers: seq<Option<string>>) returns (r: Option<string>)
      ensures r == UpdateLine(line, Printed(servers))
    {
      var s: Option<seq<string>> := None;
      if line.Some? {
        var pieces := StrSplit(line.value, ' ', 0);
        s := Some(pieces);
      }
      for i := 0 to |servers|
        invariant s.None? <==> line.None? && Printed(servers[..i]) == []
        invariant s.Some? ==> s.value == Merge(EntriesOf(line), Printed(servers[..i]))
      {
        assert servers[..i + 1][..i] == servers[..i];
        if servers[i].Some? {
          var pretty := servers[i].value;
          PrintedSnoc(servers[..i], pretty);
          assert servers[..i] + [Some(pretty)] == servers[..i + 1];
          MergeSnoc(EntriesOf(line), Printed(servers[..i]), pretty);
          if s.None? || |s.value| == 0 {
            s := Some([pretty]);
          } else if pretty !in s.value {
            s := Some(s.value + [pretty]);
          }
        } else {
          assert Printed(servers[..i]) + [] == Printed(servers[..i]);
        }
      }
      assert servers[..|servers|] == servers;
      if s.Some? {
        var joined := StrJoin(s.value, ' ');
        r := Some(joined);
      } else {
        r := None;
      }
    }

    /** The domain loop and the write that follows it. */
    method UpdateDomains(line: Option<string>, domains: seq<string>) returns (r: Option<string>)
      ensures r == UpdateLine(line, domains)
    {
      var s: Option<seq<string>> := None;
      if line.Some? {
        var pieces := StrSplit(line.value, ' ', 0);
        s := Some(pieces);
      }
      for i := 0 to |domains|
        invariant s.None? <==> line.None? && i == 0
        invariant s.Some? ==> s.value == Merge(EntriesOf(line), domains[..i])
      {
        assert domains[..i + 1] == domains[..i] + [domains[i]];
        MergeSnoc(EntriesOf(line), domains[..i], domains[i]);
        if s.None? || |s.value| == 0 {
          s := Some([domains[i]]);
        } else if domains[i] !in s.value {
          s := Some(s.value + [domains[i]]);
        }
      }
      assert domains[..|domains|] == domains;
      if s.Some? {
        var joined := StrJoin(s.value, ' ');
        r := Some(joined);
      } else {
        r := None;
      }
    }

    /** `add_dns_server_and_domain_to_resolved_conf`. */
    method Add(servers: Option<seq<Option<string>>>, domains: Option<seq<string>>) returns (r: Outcome<()>)
      modifies this
      ensures old(file).None? ==> r == Failed(ENODATA) && file == old(file)
      ensures old(file).Some? ==>
        match Resolve(old(file).value, servers, domains)
        case Done(f) => r == Done(()) && file == Some(f)
        case Failed(e) => r == Failed(e) && file == old(file)
        case Crashed => false
    {
      if file.None? {
        return Failed(ENODATA);
      }
      var f := file.value;
      if servers.Some? {
        if f.NoGroup? {
          return Failed(EGROUP);
        }
        var line := UpdateDns(f.dns, servers.value);
        f := f.(dns := line);
      }
      if domains.Some? {
        if f.NoGroup? {
          return Failed(EGROUP);
        }
        var line := UpdateDomains(f.domains, domains.value);
        f := f.(domains := line);
      }
      file := Some(f);
      r := Done(());
    }
  }

  lemma {:induction false} PrintedSnoc(servers: seq<Option<string>>, x: string)
    ensures Printed(servers + [Some(x)]) == Printed(servers) + [x]
  {
    assert (servers + [Some(x)])[..|servers|] == servers;
  }

  lemma {:induction false} MergeSnoc(base: seq<string>, added: seq<string>, x: string)
    ensures Merge(base, added + [x]) == if x in Merge(base, added) then Merge(base, added) else Merge(base, added) + [x]
  {
    assert (added + [x])[..|added|] == added;
  }

  predicate NoSpaces(xs: seq<string>) {
    forall i :: 0 <= i < |xs| ==> ' ' !in xs[i]
  }

  lemma {:induction false} PiecesNoSpaces(line: Option<string>)
    ensures NoSpaces(EntriesOf(line))
  {
    if line.Some? && line.value != "" {
      PiecesSeparable(line.value, ' ', 0);
    }
  }

  lemma {:induction false} MergeNoSpaces(base: seq<string>, added: seq<string>)
    requires NoSpaces(base) && NoSpaces(added)
    ensures NoSpaces(Merge(base, added))
  {
    if added != [] {
      MergeNoSpaces(base, added[..|added| - 1]);
    }
  }

  /** The joined line splits into the merged list again, unless that is one empty entry. */
  lemma {:induction false} MergedReadBack(line: Option<string>, added: seq<string>)
    requires NoSpaces(added)
    ensures var m := Merge(EntriesOf(line), added);
      Split(Join(m, ' '), ' ', 0) == if m == [""] then [] else m
  {
    var m := Merge(EntriesOf(line), added);
    PiecesNoSpaces(line);
    MergeNoSpaces(EntriesOf(line), added);
    SplitJoin(m, ' ', 0);
  }

  /** Updating a key twice leaves what updating it once leaves exactly when no given entry
      holds a space. */
  lemma {:induction false} UpdateTwice(line: Option<string>, added: seq<string>)
    ensures UpdateLine(UpdateLine(line, added), added) == UpdateLine(line, added) <==> NoSpaces(added)
  {
    if UpdateLine(line, added).Some? {
      var m := Merge(EntriesOf(line), added);
      if NoSpaces(added) {
        MergedReadBack(line, added);
        MergeIsUnion(EntriesOf(line), added);
        if m == [""] {
          forall i | 0 <= i < |added|
            ensures added[i] == ""
          {
            assert added[i] in m;
          }
          OnlyEmpty(added);
        } else {
          MergeKnown(m, added);
        }
      } else {
        SpaceAddsAgain(line, added);
      }
    }
  }

  lemma {:induction false} OnlyEmpty(added: seq<string>)
    requires forall i :: 0 <= i < |added| ==> added[i] == ""
    ensures Merge([], added) == if added == [] then [] else [""]
  {
    if added != [] {
      OnlyEmpty(added[..|added| - 1]);
    }
  }

  lemma {:induction false} MergeGrows(base: seq<string>, added: seq<string>, x: string)
    requires x in added && x !in base
    ensures base < Merge(base, added) && x in Merge(base, added)
  {
    MergeIsUnion(base, added);
    assert Merge(base, added) != base;
  }

  /** An entry with a space is never found again, so the line keeps growing. */
  lemma {:induction false} SpaceAddsAgain(line: Option<string>, added: seq<string>)
    requires !NoSpaces(added)
    ensures UpdateLine(line, added).Some?
    ensures |UpdateLine(UpdateLine(line, added), added).value| > |UpdateLine(line, added).value|
  {
    var once := UpdateLine(line, added);
    var i :| 0 <= i < |added| && ' ' in added[i];
    var base := EntriesOf(once);
    PiecesNoSpaces(once);
    MergeGrows(base, added, added[i]);
    JoinSplit(once.value, ' ', 0);
    JoinLonger(base, Merge(base, added), added[i]);
  }

  lemma {:induction false} JoinPrefix(a: seq<string>, b: seq<string>)
    requires a != [] && b != []
    ensures Join(a + b, ' ') == Join(a, ' ') + [' '] + Join(b, ' ')
  {
    if |a| == 1 {
      assert (a + b)[1..] == b;
    } else {
      JoinPrefix(a[1..], b);
      assert (a + b)[1..] == a[1..] + b;
    }
  }

  lemma {:induction false} JoinLonger(a: seq<string>, m: seq<string>, x: string)
    requires a < m && x in m && |x| > 0
    ensures |Join(m, ' ')| > |Join(a, ' ')|
  {
    var b := m[|a|..];
    assert m == a + b;
    if a != [] {
      JoinPrefix(a, b);
    } else {
      JoinHas(m, x);
    }
  }

  lemma {:induction false} JoinHas(m: seq<string>, x: string)
    requires x in m
    ensures |Join(m, ' ')| >= |x|
  {
    if m[0] != x {
      JoinHas(m[1..], x);
    }
  }

  /** Updating in sequence is updating with the concatenation. */
  lemma {:induction false} UpdateConcat(line: Option<string>, a: seq<string>, b: seq<string>)
    requires NoSpaces(a) && "" !in a
    ensures UpdateLine(UpdateLine(line, a), b) == UpdateLine(line, a + b)
  {
    MergeConcat(EntriesOf(line), a, b);
    if UpdateLine(line, a).None? {
      assert a + b == b;
    } else {
      MergedReadBack(line, a);
      MergeIsUnion(EntriesOf(line), a);
      MergeNotEmptyEntry(line, a);
    }
  }

  lemma {:induction false} MergeNotEmptyEntry(line: Option<string>, a: seq<string>)
    requires "" !in a
    ensures Merge(EntriesOf(line), a) != [""]
  {
    var base := EntriesOf(line);
    MergeIsUnion(base, a);
    JoinSplit(if line.Some? then line.value else "", ' ', 0);
    assert base != [""];
    var m := Merge(base, a);
    assert base == [] || base[0] == m[0];
    assert m != [] ==> m[0] in m;
  }
}
