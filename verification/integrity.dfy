/** Process integrity (tests/test_process_integrity.py): each scaffold
    README indexes its documents in a table whose links resolve, and each
    AGENTS template tells an agent where it is and what to read first. */
module ProcessIntegrity {
  import opened Text
  import opened Seqs
  import opened Corpus
  import opened Report
  import opened Catalog
  import opened Links

  const MinTableLinks := 10
  const MinPathReferences := 2
  const AgentsHeading := "# AGENTS.md"

  // ---------------------------------------------------------------------
  // Table links: `\|\s*\[[^\]]+\]\(([^)]+)\)\s*\|`

  /** The parts of one table-cell match: whitespace, caption, target,
      whitespace, between two pipes. */
  datatype TableCell = TableCell(lead: string, caption: string, target: string, trail: string)

  predicate WellFormedCell(c: TableCell) {
    && AllSpace(c.lead) && AllSpace(c.trail)
    && |c.caption| > 0 && ']' !in c.caption
    && |c.target| > 0 && ')' !in c.target
  }

  /** The text a cell match consumes, both pipes included. */
  function CellText(c: TableCell): string {
    "|" + c.lead + "[" + c.caption + "](" + c.target + ")" + c.trail + "|"
  }

  /** The pattern tried at the start of `s`. Every run is maximal: the
      whitespace runs end at a non-space (`[` or `|`), the caption at the
      first `]` and the target at the first `)`. */
  function MatchTableAt(s: string): (r: Option<TableCell>)
    ensures r.Some? ==> WellFormedCell(r.value) && CellText(r.value) <= s
  {
    if |s| == 0 || s[0] != '|' then None
    else
      var a := s[1..];
      var b := LStrip(a);
      if |b| == 0 || b[0] != '[' then None
      else
        var k := Find(b[1..], ']');
        if k == 0 || k == |b| - 1 then None
        else
          var d := b[k + 2..];
          if |d| == 0 || d[0] != '(' then None
          else
            var m := Find(d[1..], ')');
            if m == 0 || m == |d| - 1 then None
            else
              var f := d[m + 2..];
              var g := LStrip(f);
              if |g| == 0 || g[0] != '|' then None
              else
                CellAt(s, b, k, d, m, f, g)
  }

  /** The cell between the cut points the matcher found. */
  function CellAt(s: string, b: string, k: nat, d: string, m: nat, f: string, g: string): (r: Option<TableCell>)
    requires |s| > 0 && s[0] == '|' && b == LStrip(s[1..])
    requires |b| > 0 && b[0] == '['
    requires 0 < k < |b| - 1 && k == Find(b[1..], ']') && d == b[k + 2..]
    requires |d| > 0 && d[0] == '('
    requires 0 < m < |d| - 1 && m == Find(d[1..], ')') && f == d[m + 2..]
    requires g == LStrip(f) && |g| > 0 && g[0] == '|'
    ensures r.Some? && WellFormedCell(r.value) && CellText(r.value) <= s
  {
    var c := TableCell(s[1..][..|s[1..]| - |b|], b[1..k + 1], d[1..m + 1], f[..|f| - |g|]);
    CellMatchSound(s, b, k, d, m, f, g, c);
    Some(c)
  }

  lemma CellMatchSound(s: string, b: string, k: nat, d: string, m: nat, f: string, g: string, c: TableCell)
    requires |s| > 0 && s[0] == '|' && b == LStrip(s[1..])
    requires |b| > 0 && b[0] == '['
    requires 0 < k < |b| - 1 && k == Find(b[1..], ']') && d == b[k + 2..]
    requires |d| > 0 && d[0] == '('
    requires 0 < m < |d| - 1 && m == Find(d[1..], ')') && f == d[m + 2..]
    requires g == LStrip(f) && |g| > 0 && g[0] == '|'
    requires c == TableCell(s[1..][..|s[1..]| - |b|], b[1..k + 1], d[1..m + 1], f[..|f| - |g|])
    ensures WellFormedCell(c) && CellText(c) <= s
  {
    PipeLead(s, b, c.lead);
    OpenThen(b, k);
    OpenParenThen(d, m);
    TrailPipe(f, g, c.trail);
    Assemble(s, c, b, d[1..], f, g[1..]);
  }

  lemma PipeLead(s: string, b: string, lead: string)
    requires |s| > 0 && s[0] == '|' && b == LStrip(s[1..])
    requires lead == s[1..][..|s[1..]| - |b|]
    ensures s == "|" + lead + b && AllSpace(lead)
  {
    LStripHead(s[1..], b, lead);
    PipeThen(s, lead, b);
  }

  lemma TrailPipe(f: string, g: string, trail: string)
    requires g == LStrip(f) && |g| > 0 && g[0] == '|'
    requires trail == f[..|f| - |g|]
    ensures f == trail + "|" + g[1..] && AllSpace(trail)
  {
    LStripHead(f, g, trail);
    PipeAfter(f, trail, g);
  }

  /** `lstrip()` splits its argument into a whitespace head and the result. */
  lemma LStripHead(x: string, b: string, lead: string)
    requires b == LStrip(x) && lead == x[..|x| - |b|]
    ensures x == lead + b && AllSpace(lead)
  {
    LStripSplit(x);
  }

  lemma PipeThen(s: string, x: string, y: string)
    requires |s| > 0 && s[0] == '|' && s[1..] == x + y
    ensures s == "|" + x + y
  {
    assert s == [s[0]] + s[1..];
  }

  lemma PipeAfter(f: string, x: string, g: string)
    requires f == x + g && |g| > 0 && g[0] == '|'
    ensures f == x + "|" + g[1..]
  {
    assert g == [g[0]] + g[1..];
  }


  lemma OpenThen(b: string, k: nat)
    requires 0 < k < |b| - 1 && b[0] == '[' && k == Find(b[1..], ']')
    requires |b[k + 2..]| > 0 && b[k + 2] == '('
    ensures b == "[" + b[1..k + 1] + "](" + b[k + 2..][1..]
    ensures ']' !in b[1..k + 1]
  {
    assert b[1..][k] == ']';
    assert b[1..k + 1] == b[1..][..k];
  }

  lemma OpenParenThen(d: string, m: nat)
    requires 0 < m < |d| - 1 && m == Find(d[1..], ')')
    ensures d[1..] == d[1..m + 1] + ")" + d[m + 2..]
    ensures ')' !in d[1..m + 1]
  {
    assert d[1..][m] == ')';
    assert d[1..m + 1] == d[1..][..m];
  }


  lemma Assemble(s: string, c: TableCell, b: string, d1: string, f: string, g1: string)
    requires s == "|" + c.lead + b
    requires b == "[" + c.caption + "](" + d1
    requires d1 == c.target + ")" + f
    requires f == c.trail + "|" + g1
    ensures s == CellText(c) + g1
  {
  }

  /** Every text of the cell shape is matched, with its own parts. */
  lemma MatchTableAtComplete(c: TableCell, rest: string)
    requires WellFormedCell(c)
    ensures MatchTableAt(CellText(c) + rest) == Some(c)
  {
    var s := CellText(c) + rest;
    var b, d, f, g := CellCuts(c, rest);
    MatchTableAtIs(s, b, |c.caption|, d, |c.target|, f, g, c);
  }

  /** Where the matcher cuts the text of a well-formed cell. */
  lemma CellCuts(c: TableCell, rest: string) returns (b: string, d: string, f: string, g: string)
    requires WellFormedCell(c)
    ensures var s := CellText(c) + rest;
      |s| > 0 && s[0] == '|' && b == LStrip(s[1..]) && |b| > 0 && b[0] == '['
    ensures var k := |c.caption|;
      0 < k < |b| - 1 && k == Find(b[1..], ']') && d == b[k + 2..] && |d| > 0 && d[0] == '('
    ensures var m := |c.target|;
      0 < m < |d| - 1 && m == Find(d[1..], ')') && f == d[m + 2..]
    ensures g == LStrip(f) && |g| > 0 && g[0] == '|'
    ensures var s := CellText(c) + rest;
      c == TableCell(s[1..][..|s[1..]| - |b|], b[1..|c.caption| + 1], d[1..|c.target| + 1], f[..|f| - |g|])
  {
    var t4 := "|" + rest;
    var t3 := c.trail + t4;
    var t2 := ")" + t3;
    var t1 := c.target + t2;
    var t0 := "](" + t1;
    var b1 := c.caption + t0;
    b := "[" + b1;
    var a := c.lead + b;
    var s := CellText(c) + rest;
    CellTextNested(c, rest, a);
    HeadTail(s, '|', a);
    LStripSpaces(c.lead, b);
    Split2(a, c.lead, b);
    CaptionPart(b, c.caption, t1);
    d := "(" + t1;
    TargetPart(d, c.target, t3);
    LStripSpaces(c.trail, t4);
    Split2(t3, c.trail, t4);
    f, g := t3, t4;
  }

  /** The cell text followed by `rest`, grouped from the right. */
  lemma CellTextNested(c: TableCell, rest: string, a: string)
    requires a == c.lead + ("[" + (c.caption + ("](" + (c.target + (")" + (c.trail + ("|" + rest)))))))
    ensures CellText(c) + rest == "|" + a
  {
  }

  /** The matcher's answer once its cut points are known. */
  lemma MatchTableAtIs(s: string, b: string, k: nat, d: string, m: nat, f: string, g: string, c: TableCell)
    requires |s| > 0 && s[0] == '|' && b == LStrip(s[1..])
    requires |b| > 0 && b[0] == '['
    requires 0 < k < |b| - 1 && k == Find(b[1..], ']') && d == b[k + 2..]
    requires |d| > 0 && d[0] == '('
    requires 0 < m < |d| - 1 && m == Find(d[1..], ')') && f == d[m + 2..]
    requires g == LStrip(f) && |g| > 0 && g[0] == '|'
    requires c == TableCell(s[1..][..|s[1..]| - |b|], b[1..k + 1], d[1..m + 1], f[..|f| - |g|])
    ensures MatchTableAt(s) == Some(c)
  {
  }

  /** What `([^)]+)` captures. */
  predicate IsTarget(x: string) {
    |x| > 0 && ')' !in x
  }

  predicate AllTargets(ts: seq<string>) {
    forall i :: 0 <= i < |ts| ==> IsTarget(ts[i])
  }

  lemma TargetsCons(x: string, ts: seq<string>)
    requires IsTarget(x) && AllTargets(ts)
    ensures AllTargets([x] + ts)
  {
    assert forall i :: 0 < i <= |ts| ==> ([x] + ts)[i] == ts[i - 1];
  }

  /** `TABLE_LINK_PATTERN.findall(content)`: the targets of leftmost,
      non-overlapping cell matches. */
  function TableLinks(s: string): (ts: seq<string>)
    ensures |ts| <= |s| / 2
    decreases |s|
  {
    if |s| == 0 then []
    else
      match MatchTableAt(s)
      case Some(c) =>
        [c.target] + TableLinks(s[|CellText(c)|..])
      case None => TableLinks(s[1..])
  }

  /** Every captured target is non-empty and holds no `)`. */
  lemma {:induction false} TableLinksTargets(s: string)
    ensures AllTargets(TableLinks(s))
    decreases |s|
  {
    if |s| > 0 {
      match MatchTableAt(s)
      case Some(c) =>
        var rest := s[|CellText(c)|..];
        TableLinksTargets(rest);
        assert TableLinks(s) == [c.target] + TableLinks(rest);
        TargetsCons(c.target, TableLinks(rest));
      case None =>
        TableLinksTargets(s[1..]);
    }
  }

  /** A cell at the front is found, and scanning resumes after its closing
      pipe. */
  lemma TableLinksAfterCell(c: TableCell, rest: string)
    requires WellFormedCell(c)
    ensures TableLinks(CellText(c) + rest) == [c.target] + TableLinks(rest)
  {
    MatchTableAtComplete(c, rest);
    assert (CellText(c) + rest)[|CellText(c)|..] == rest;
  }

  /** Where no cell starts, the scan moves on by one character. */
  lemma TableLinksNoMatch(s: string)
    requires |s| > 0 && MatchTableAt(s) == None
    ensures TableLinks(s) == TableLinks(s[1..])
  {
  }

  /** Text without a `|` starts no cell: scanning passes over it. */
  lemma {:induction false} TableLinksSkipPlain(p: string, rest: string)
    requires '|' !in p
    ensures TableLinks(p + rest) == TableLinks(rest)
    decreases |p|
  {
    if |p| > 0 {
      var s := p + rest;
      assert s[0] == p[0];
      TableLinksNoMatch(s);
      assert s[1..] == p[1..] + rest;
      TableLinksSkipPlain(p[1..], rest);
    } else {
      assert p + rest == rest;
    }
  }

  /** A pipe not followed (after whitespace) by `[`, such as the pipes of
      a header row, starts no cell: the scan resumes right after it. */
  lemma PipeWithoutLink(rest: string)
    requires |LStrip(rest)| == 0 || LStrip(rest)[0] != '['
    ensures TableLinks("|" + rest) == TableLinks(rest)
  {
    var s := "|" + rest;
    assert s[1..] == rest;
    assert MatchTableAt(s) == None;
    TableLinksNoMatch(s);
  }

  /** Text whose only pipe is its last character holds no cell. */
  lemma {:induction false} NoCellBeforeLastPipe(p: string)
    requires '|' !in p
    ensures TableLinks(p + "|") == []
    decreases |p|
  {
    var s := p + "|";
    if |p| == 0 {
      assert LStrip(s[1..]) == [];
      assert TableLinks(s[1..]) == [];
    } else {
      assert s[0] != '|';
      assert s[1..] == p[1..] + "|";
      NoCellBeforeLastPipe(p[1..]);
    }
  }

  /** Two cells written with their own pipes are both found. */
  lemma SeparateCells(c1: TableCell, c2: TableCell)
    requires WellFormedCell(c1) && WellFormedCell(c2)
    ensures TableLinks(CellText(c1) + CellText(c2)) == [c1.target, c2.target]
  {
    var t2 := CellText(c2);
    TableLinksAfterCell(c1, t2);
    TableLinksAfterCell(c2, "");
    AppendEmpty(t2);
    assert TableLinks("") == [];
    ConsTwo(TableLinks(CellText(c1) + t2), TableLinks(t2), c1.target, c2.target);
  }

  lemma AppendEmpty(s: string)
    ensures s + "" == s
  {
  }

  lemma ConsTwo(x: seq<string>, y: seq<string>, a: string, b: string)
    requires x == [a] + y && y == [b] + []
    ensures x == [a, b]
  {
  }

  /** Two adjacent cells sharing a pipe: the first match consumes the
      shared pipe, so only the first cell is found. */
  lemma SharedPipe(c1: TableCell, c2: TableCell)
    requires WellFormedCell(c1) && WellFormedCell(c2)
    requires '|' !in c2.caption && '|' !in c2.target
    ensures TableLinks(CellText(c1) + CellText(c2)[1..]) == [c1.target]
  {
    var inner := c2.lead + "[" + c2.caption + "](" + c2.target + ")" + c2.trail;
    assert CellText(c2)[1..] == inner + "|";
    assert '|' !in inner by {
      assert !IsSpace('|');
      forall i | 0 <= i < |inner|
        ensures inner[i] != '|'
      {
        assert inner[i] in c2.lead || inner[i] in c2.caption || inner[i] in c2.target
            || inner[i] in c2.trail || inner[i] in "[" || inner[i] in "](" || inner[i] in ")";
      }
    }
    NoCellBeforeLastPipe(inner);
    TableLinksAfterCell(c1, inner + "|");
  }

  // ---------------------------------------------------------------------
  // The README table-link rule

  /** A table link is broken when the text before its first `#` (not
      stripped) does not resolve below the scaffold directory. */
  predicate IsBrokenTableLink(t: Tree, s: string, raw: string) {
    !Resolves(t, [s], BeforeFragment(raw))
  }

  function BrokenTableLinks(t: Tree, s: string, links: seq<string>): (bad: seq<string>)
    ensures forall x :: multiset(bad)[x] == if IsBrokenTableLink(t, s, x) then multiset(links)[x] else 0
  {
    Filter(links, (x: string) => IsBrokenTableLink(t, s, x))
  }

  /** One README: fewer than ten table links is one failure and nothing is
      resolved; otherwise one failure per broken link, quoting the raw
      link. */
  function TableLinkFailures(t: Tree, s: string, content: string): (fs: seq<Failure>)
    ensures var links := TableLinks(content);
      |links| < MinTableLinks ==>
        fs == [Failure(TooFewTableLinks(|links|), ReadmePath(s), "")]
    ensures var links := TableLinks(content);
      var bad := BrokenTableLinks(t, s, links);
      |links| >= MinTableLinks ==>
        |fs| == |bad| && forall i :: 0 <= i < |fs| ==> fs[i] == Failure(BrokenTableLink, ReadmePath(s), bad[i])
  {
    var links := TableLinks(content);
    if |links| < MinTableLinks then [Failure(TooFewTableLinks(|links|), ReadmePath(s), "")]
    else
      BrokenLinkFailures(ReadmePath(s), BrokenTableLinks(t, s, links))
  }

  /** One failure per broken link, in order, each quoting its link. */
  function BrokenLinkFailures(p: Path, bad: seq<string>): (fs: seq<Failure>)
    ensures |fs| == |bad| && forall i :: 0 <= i < |fs| ==> fs[i] == Failure(BrokenTableLink, p, bad[i])
  {
    seq(|bad|, i requires 0 <= i < |bad| => Failure(BrokenTableLink, p, bad[i]))
  }

  function ReadmeStep(t: Tree, s: string): Outcome {
    WithFile(t, ReadmePath(s), (c: string) => TableLinkFailures(t, s, c))
  }

  /** `test_readme_index_links_resolve`. */
  function ReadmeIndexTest(t: Tree): (o: Outcome)
    ensures o.Errored? <==> exists s :: s in AllScaffolds && !IsFile(t, ReadmePath(s))
  {
    ForEach(AllScaffolds, ReadmeSteps(t))
  }

  function ReadmeSteps(t: Tree): string -> Outcome {
    (s: string) => ReadmeStep(t, s)
  }

  /** A README whose table has at least ten links, all resolving. */
  predicate IndexResolves(t: Tree, s: string) {
    && IsFile(t, ReadmePath(s))
    && var links := TableLinks(t[ReadmePath(s)].content);
    && |links| >= MinTableLinks
    && forall raw :: raw in links ==> !IsBrokenTableLink(t, s, raw)
  }

  lemma ReadmeStepPasses(t: Tree, s: string)
    ensures Passed(ReadmeStep(t, s)) <==> IndexResolves(t, s)
  {
    if IsFile(t, ReadmePath(s)) {
      var links := TableLinks(t[ReadmePath(s)].content);
      if |links| >= MinTableLinks {
        var bad := BrokenTableLinks(t, s, links);
        if |bad| > 0 {
          assert bad[0] in multiset(bad);
        } else {
          forall raw | raw in links
            ensures !IsBrokenTableLink(t, s, raw)
          {
            assert multiset(bad)[raw] == 0;
          }
        }
      }
    }
  }

  /** The index test passes exactly when every scaffold README indexes at
      least ten documents and every one of them resolves. */
  lemma ReadmeIndexTestPasses(t: Tree)
    ensures Passed(ReadmeIndexTest(t)) <==> forall s :: s in AllScaffolds ==> IndexResolves(t, s)
  {
    forall s: string
      ensures Passed(ReadmeSteps(t)(s)) <==> IndexResolves(t, s)
    {
      ReadmeStepPasses(t, s);
    }
    ForEachIff(AllScaffolds, ReadmeSteps(t), (s: string) => IndexResolves(t, s));
  }

  /** The fragment is dropped before resolving: a link to an existing
      sibling document with an anchor is not broken. */
  lemma AnchoredSiblingResolves(t: Tree, s: string, name: string, anchor: string)
    requires IsPlainComponent(name) && '#' !in name
    requires [s, name] in t
    ensures !IsBrokenTableLink(t, s, name + "#" + anchor)
  {
    var tail := "#" + anchor;
    var raw := name + tail;
    assert raw == name + "#" + anchor;
    assert Find(tail, '#') == 0;
    FindAfter(name, tail, '#');
    Split2(raw, name, tail);
    assert BeforeFragment(raw) == name;
    assert Resolve([s], name) == Some([s] + [name]);
    assert [s] + [name] == [s, name];
  }

  // ---------------------------------------------------------------------
  // Backtick path references: `` `[^`/\\]*[/\\][^`]+` ``

  predicate IsPlainPathChar(c: char) {
    c != '`' && c != '/' && c != '\\'
  }

  predicate IsPathSeparator(c: char) {
    c == '/' || c == '\\'
  }

  /** The parts of one match: the text before the first separator, the
      separator, and the rest up to the closing backtick. */
  datatype PathRef = PathRef(head: string, sep: char, tail: string)

  predicate WellFormedRef(r: PathRef) {
    && (forall i :: 0 <= i < |r.head| ==> IsPlainPathChar(r.head[i]))
    && IsPathSeparator(r.sep)
    && |r.tail| > 0 && '`' !in r.tail
  }

  function RefText(r: PathRef): string {
    "`" + r.head + [r.sep] + r.tail + "`"
  }

  /** The length of the longest run of plain path characters at the front. */
  function PlainRun(s: string): (n: nat)
    ensures n <= |s|
    ensures forall i :: 0 <= i < n ==> IsPlainPathChar(s[i])
    ensures n == |s| || !IsPlainPathChar(s[n])
    decreases |s|
  {
    if |s| > 0 && IsPlainPathChar(s[0]) then 1 + PlainRun(s[1..]) else 0
  }

  /** The pattern tried at the start of `s`: after the opening backtick,
      the first backtick, `/` or `\` must be a separator, and at least one
      character must follow it before the next backtick. */
  function MatchRefAt(s: string): (m: Option<PathRef>)
    ensures m.Some? ==> WellFormedRef(m.value) && RefText(m.value) <= s
  {
    if |s| == 0 || s[0] != '`' then None
    else
      var k := PlainRun(s[1..]);
      if 1 + k >= |s| || s[1 + k] == '`' then None
      else
        var e := Find(s[k + 2..], '`');
        if e == 0 || e == |s| - (k + 2) then None
        else
          var r := PathRef(s[1..1 + k], s[1 + k], s[k + 2..k + 2 + e]);
          RefMatchSound(s, k, e, r);
          Some(r)
  }

  lemma RefMatchSound(s: string, k: nat, e: nat, r: PathRef)
    requires |s| > 0 && s[0] == '`' && k == PlainRun(s[1..])
    requires 1 + k < |s| && s[1 + k] != '`'
    requires e == Find(s[k + 2..], '`') && 0 < e < |s| - (k + 2)
    requires r == PathRef(s[1..1 + k], s[1 + k], s[k + 2..k + 2 + e])
    ensures WellFormedRef(r) && RefText(r) <= s
  {
    var t := s[k + 2..];
    assert r.tail == t[..e];
    assert s[k + 2 + e] == t[e] == '`';
    assert forall i :: 0 <= i < k ==> r.head[i] == s[1..][i];
    var n := k + 3 + e;
    assert s[..n] == [s[0]] + s[1..1 + k] + [s[1 + k]] + s[k + 2..k + 2 + e] + [s[k + 2 + e]];
  }

  /** Every text of the reference shape is matched, with its own parts. */
  lemma MatchRefAtComplete(r: PathRef, rest: string)
    requires WellFormedRef(r)
    ensures MatchRefAt(RefText(r) + rest) == Some(r)
  {
    var s := RefText(r) + rest;
    var k := |r.head|;
    var e := |r.tail|;
    RefHeadParts(r, rest, s, k);
    RefTailParts(s, k, e, r.tail, rest);
    MatchRefAtParts(s, r, k, e);
  }

  /** The scanner's decisions on a text, stated as facts about it. */
  lemma MatchRefAtParts(s: string, r: PathRef, k: nat, e: nat)
    requires |s| > 0 && s[0] == '`' && 1 + k < |s| && k + 2 + e <= |s|
    requires PlainRun(s[1..]) == k && s[1 + k] == r.sep && r.sep != '`'
    requires Find(s[k + 2..], '`') == e && 0 < e < |s| - (k + 2)
    requires s[1..1 + k] == r.head && s[k + 2..k + 2 + e] == r.tail
    ensures MatchRefAt(s) == Some(r)
  {
  }

  /** Where the head and separator of a reference text sit. */
  lemma RefHeadParts(r: PathRef, rest: string, s: string, k: nat)
    requires WellFormedRef(r) && s == RefText(r) + rest && k == |r.head|
    ensures 1 + k < |s| && s[0] == '`'
    ensures PlainRun(s[1..]) == k && s[1 + k] == r.sep
    ensures s[1..1 + k] == r.head && s[k + 2..] == r.tail + ("`" + rest)
  {
    var y := r.tail + ("`" + rest);
    var x := [r.sep] + y;
    var a := r.head + x;
    RefTextNested(r, rest, a);
    HeadTail(s, '`', a);
    Split2(a, r.head, x);
    PlainRunAfter(r.head, x);
    HeadTail(x, r.sep, y);
    assert s[k + 2..] == y;
    SliceAt(s, 1, 1 + k, r.head, x);
  }

  /** Where the tail of a reference text sits. */
  lemma RefTailParts(s: string, k: nat, e: nat, tail: string, rest: string)
    requires k + 2 <= |s| && s[k + 2..] == tail + ("`" + rest)
    requires '`' !in tail && e == |tail|
    ensures k + 2 + e < |s| && Find(s[k + 2..], '`') == e
    ensures s[k + 2..k + 2 + e] == tail
  {
    FindClosing(tail, rest);
    SliceAt(s, k + 2, k + 2 + e, tail, "`" + rest);
  }

  /** The first backtick after a backtick-free text is the one that
      follows it. */
  lemma FindClosing(tail: string, rest: string)
    requires '`' !in tail
    ensures Find(tail + ("`" + rest), '`') == |tail|
  {
    assert Find("`" + rest, '`') == 0;
    FindAfter(tail, "`" + rest, '`');
  }

  /** The reference text followed by `rest`, grouped from the right. */
  lemma RefTextNested(r: PathRef, rest: string, a: string)
    requires a == r.head + ([r.sep] + (r.tail + ("`" + rest)))
    ensures RefText(r) + rest == "`" + a
  {
  }

  lemma {:induction false} PlainRunAfter(head: string, x: string)
    requires forall i :: 0 <= i < |head| ==> IsPlainPathChar(head[i])
    requires |x| > 0 && !IsPlainPathChar(x[0])
    ensures PlainRun(head + x) == |head|
    decreases |head|
  {
    if |head| == 0 {
      assert head + x == x;
    } else {
      assert (head + x)[1..] == head[1..] + x;
      PlainRunAfter(head[1..], x);
    }
  }

  /** `len(BACKTICK_PATH_PATTERN.findall(content))`. */
  function PathRefCount(s: string): (n: nat)
    ensures n <= |s|
    decreases |s|
  {
    if |s| == 0 then 0
    else match MatchRefAt(s)
      case Some(r) => 1 + PathRefCount(s[|RefText(r)|..])
      case None => PathRefCount(s[1..])
  }

  /** A reference at the front counts once, and counting resumes after its
      closing backtick. */
  lemma RefAfterRef(r: PathRef, rest: string)
    requires WellFormedRef(r)
    ensures PathRefCount(RefText(r) + rest) == 1 + PathRefCount(rest)
  {
    MatchRefAtComplete(r, rest);
    assert (RefText(r) + rest)[|RefText(r)|..] == rest;
  }

  /** Where no reference starts, counting moves on by one character. */
  lemma RefCountNoMatch(s: string)
    requires |s| > 0 && MatchRefAt(s) == None
    ensures PathRefCount(s) == PathRefCount(s[1..])
  {
  }

  /** Text without a backtick starts no reference: counting passes over
      it. */
  lemma {:induction false} RefCountSkipPlain(p: string, rest: string)
    requires '`' !in p
    ensures PathRefCount(p + rest) == PathRefCount(rest)
    decreases |p|
  {
    if |p| > 0 {
      var s := p + rest;
      assert s[0] == p[0];
      RefCountNoMatch(s);
      assert s[1..] == p[1..] + rest;
      RefCountSkipPlain(p[1..], rest);
    } else {
      assert p + rest == rest;
    }
  }

  /** A backticked word without a separator, such as a command, is no
      reference; its closing backtick is then tried as an opening one. */
  lemma BacktickWordNoRef(w: string, rest: string)
    requires forall i :: 0 <= i < |w| ==> IsPlainPathChar(w[i])
    ensures PathRefCount("`" + w + "`" + rest) == PathRefCount("`" + rest)
  {
    var s := "`" + (w + ("`" + rest));
    assert "`" + w + "`" + rest == s;
    assert s[1..] == w + ("`" + rest);
    PlainRunOf(w, "`" + rest);
    assert s[1 + |w|] == '`';
    assert MatchRefAt(s) == None;
    RefCountNoMatch(s);
    assert '`' !in w;
    RefCountSkipPlain(w, "`" + rest);
  }

  /** The plain run of plain text followed by a non-plain character. */
  lemma {:induction false} PlainRunOf(w: string, rest: string)
    requires forall i :: 0 <= i < |w| ==> IsPlainPathChar(w[i])
    requires |rest| > 0 && !IsPlainPathChar(rest[0])
    ensures PlainRun(w + rest) == |w|
    decreases |w|
  {
    if |w| > 0 {
      assert (w + rest)[1..] == w[1..] + rest;
      PlainRunOf(w[1..], rest);
    } else {
      assert w + rest == rest;
    }
  }

  /** The same path mentioned twice counts twice. */
  lemma DuplicateRefsCountTwice(r: PathRef)
    requires WellFormedRef(r)
    ensures PathRefCount(RefText(r) + RefText(r)) == 2
  {
    RefAfterRef(r, RefText(r));
    RefAfterRef(r, "");
    assert RefText(r) + "" == RefText(r);
  }

  /** Text without a backtick holds no reference. */
  lemma {:induction false} NoBacktickNoRefs(s: string)
    requires '`' !in s
    ensures PathRefCount(s) == 0
    decreases |s|
  {
    if |s| > 0 {
      NoBacktickNoRefs(s[1..]);
    }
  }

  // ---------------------------------------------------------------------
  // The AGENTS template rule

  predicate HasAgentsHeading(content: string) {
    AgentsHeading <= LStrip(content)
  }

  predicate HasMissionSection(lowered: string) {
    Contains(lowered, "## mission") || Contains(lowered, "## current phase")
    || Contains(lowered, "## current stage")
  }

  predicate HasSourceNavigation(lowered: string) {
    Contains(lowered, "read these files") || Contains(lowered, "read in this order")
    || Contains(lowered, "sources of truth") || Contains(lowered, "source of truth")
  }

  predicate AgentsOk(content: string) {
    && HasAgentsHeading(content)
    && HasMissionSection(Lower(content))
    && HasSourceNavigation(Lower(content))
    && PathRefCount(content) >= MinPathReferences
  }

  /** The four AGENTS checks, each independent of the others. */
  function AgentsFailures(p: Path, content: string): (fs: seq<Failure>)
    ensures |fs| == 0 <==> AgentsOk(content)
  {
    var lowered := Lower(content);
    AgentsVerdict(p, HasAgentsHeading(content), HasMissionSection(lowered),
                  HasSourceNavigation(lowered), PathRefCount(content))
  }

  /** The checks over their four findings: the heading, the mission
      section, the navigation phrase, and the number of path
      references. */
  function AgentsVerdict(p: Path, heading: bool, mission: bool, sources: bool, refs: nat): (fs: seq<Failure>)
    ensures |fs| <= 4
    ensures Failure(AgentsHeadingMissing, p, "") in fs <==> !heading
    ensures Failure(MissionSectionMissing, p, "") in fs <==> !mission
    ensures Failure(SourceNavigationMissing, p, "") in fs <==> !sources
    ensures Failure(TooFewPathReferences(refs), p, "") in fs <==> refs < MinPathReferences
    ensures |fs| == 0 <==> heading && mission && sources && refs >= MinPathReferences
  {
    FailIf(!heading, Failure(AgentsHeadingMissing, p, ""))
    + FailIf(!mission, Failure(MissionSectionMissing, p, ""))
    + FailIf(!sources, Failure(SourceNavigationMissing, p, ""))
    + FailIf(refs < MinPathReferences, Failure(TooFewPathReferences(refs), p, ""))
  }

  function AgentsStep(t: Tree, s: string): Outcome {
    WithFile(t, AgentsPath(s), (c: string) => AgentsFailures(AgentsPath(s), c))
  }

  /** `test_agents_templates_have_minimum_navigation_contract`. */
  function AgentsTest(t: Tree): (o: Outcome)
    ensures o.Errored? <==> exists s :: s in AllScaffolds && !IsFile(t, AgentsPath(s))
  {
    ForEach(AllScaffolds, AgentsSteps(t))
  }

  function AgentsSteps(t: Tree): string -> Outcome {
    (s: string) => AgentsStep(t, s)
  }

  predicate AgentsTemplateOk(t: Tree, s: string) {
    IsFile(t, AgentsPath(s)) && AgentsOk(t[AgentsPath(s)].content)
  }

  lemma AgentsStepPasses(t: Tree, s: string)
    ensures Passed(AgentsStep(t, s)) <==> AgentsTemplateOk(t, s)
  {
  }

  /** The AGENTS test passes exactly when every scaffold's template exists
      and meets all four checks. */
  lemma AgentsTestPasses(t: Tree)
    ensures Passed(AgentsTest(t)) <==> forall s :: s in AllScaffolds ==> AgentsTemplateOk(t, s)
  {
    var ok := (s: string) => AgentsTemplateOk(t, s);
    forall s: string
      ensures Passed(AgentsSteps(t)(s)) <==> ok(s)
    {
      AgentsStepPasses(t, s);
    }
    ForEachIff(AllScaffolds, AgentsSteps(t), ok);
  }

  /** The section checks ignore case: a heading written in any case is
      found wherever it sits in the text. */
  lemma MissionAnyCase(pre: string, heading: string, post: string)
    requires Lower(heading) == "## mission"
    ensures HasMissionSection(Lower(pre + heading + post))
  {
    LowerConcat(pre + heading, post);
    LowerConcat(pre, heading);
    var low := Lower(pre) + "## mission" + Lower(post);
    assert low[|pre|..|pre| + 10] == "## mission";
    ContainsAt(low, "## mission", |pre|);
  }

  /** The section checks see only the lower-cased text: an AGENTS file and
      its lower-cased copy agree on them. */
  lemma SectionsOfLowered(content: string)
    ensures HasMissionSection(Lower(Lower(content))) == HasMissionSection(Lower(content))
    ensures HasSourceNavigation(Lower(Lower(content))) == HasSourceNavigation(Lower(content))
  {
    LowerIdempotent(content);
  }

  /** Unlike the section checks, the heading check is case-sensitive: a
      lower-cased heading is not found. */
  lemma HeadingCaseSensitive()
    ensures !HasAgentsHeading("# agents.md")
  {
    var lowered := "# agents.md";
    assert !IsSpace(lowered[0]);
    assert LStrip(lowered) == lowered;
    assert lowered[2] != AgentsHeading[2];
    assert !(AgentsHeading <= lowered);
  }

  /** The heading check tolerates leading whitespace before the
      heading. */
  lemma HeadingAfterBlankLines(lead: string, rest: string)
    requires AllSpace(lead)
    ensures HasAgentsHeading(lead + AgentsHeading + rest)
  {
    assert lead + AgentsHeading + rest == lead + (AgentsHeading + rest);
    LStripSpaces(lead, AgentsHeading + rest);
  }
}
