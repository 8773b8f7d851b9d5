/** Scaffold completeness (tests/test_scaffold_completeness.py): every
    scaffold README links each numbered guide beside it and points at the
    templates, and every process overview shows some depth. */
module Completeness {
  import opened Text
  import opened Seqs
  import opened Corpus
  import opened Report
  import opened Catalog
  import opened Style

  const MinPhaseMentions := 3
  const MinLifecycleMentions := 1
  const MinNumberedSections := 4
  const Overview := "01-process-overview.md"

  // ---------------------------------------------------------------------
  // The README index

  /** An entry `scaffold_dir.glob("*.md")` yields whose name the
      numbered-guide pattern accepts. */
  predicate IsGuideOf(s: string, p: Path) {
    |p| == 2 && p[0] == s && IsNumberedName(p[1])
  }

  function GuideGlob(s: string): Path -> bool {
    (p: Path) => IsGuideOf(s, p)
  }

  /** The names of the scaffold's numbered guides, in walk order. */
  function GuideNames(walk: seq<Path>, s: string): (names: seq<string>)
    ensures forall n :: n in names ==> IsNumberedName(n) && [s, n] in walk
    ensures forall p :: p in walk && IsGuideOf(s, p) ==> p[1] in names
    ensures Distinct(walk) ==> Distinct(names)
    decreases |walk|
  {
    if |walk| == 0 then []
    else
      var rest := GuideNames(walk[1..], s);
      var names := if IsGuideOf(s, walk[0]) then [walk[0][1]] + rest else rest;
      GuideNamesStep(walk, s, rest, names);
      names
  }

  lemma GuideNamesStep(walk: seq<Path>, s: string, rest: seq<string>, names: seq<string>)
    requires |walk| > 0
    requires forall n :: n in rest ==> IsNumberedName(n) && [s, n] in walk[1..]
    requires forall p :: p in walk[1..] && IsGuideOf(s, p) ==> p[1] in rest
    requires Distinct(walk[1..]) ==> Distinct(rest)
    requires names == if IsGuideOf(s, walk[0]) then [walk[0][1]] + rest else rest
    ensures forall n :: n in names ==> IsNumberedName(n) && [s, n] in walk
    ensures forall p :: p in walk && IsGuideOf(s, p) ==> p[1] in names
    ensures Distinct(walk) ==> Distinct(names)
  {
    assert walk == [walk[0]] + walk[1..];
    if IsGuideOf(s, walk[0]) {
      GuidePath(s, walk[0]);
      if Distinct(walk) {
        assert Distinct(walk[1..]);
        assert walk[0] !in walk[1..];
        assert walk[0][1] !in rest;
      }
    }
  }

  lemma GuidePath(s: string, p: Path)
    requires IsGuideOf(s, p)
    ensures p == [s, p[1]]
  {
  }

  /** `[name](name)`: the literal index entry a guide needs. */
  function IndexLink(name: string): string {
    "[" + name + "](" + name + ")"
  }

  /** One failure per guide whose index entry is absent, and nothing for
      any other name. */
  function GuideFailures(readme: Path, content: string, names: seq<string>): (fs: seq<Failure>)
    ensures |fs| <= |names|
    ensures forall f :: f in fs ==>
      f.kind == GuideNotIndexed && f.subject == readme && f.detail in names
      && !Contains(content, IndexLink(f.detail))
    ensures Distinct(names) ==> forall n ::
      multiset(fs)[Failure(GuideNotIndexed, readme, n)]
        == if n in names && !Contains(content, IndexLink(n)) then 1 else 0
    ensures |fs| == 0 <==> forall n :: n in names ==> Contains(content, IndexLink(n))
    decreases |names|
  {
    if |names| == 0 then []
    else
      var rest := GuideFailures(readme, content, names[1..]);
      var here := FailIf(!Contains(content, IndexLink(names[0])),
                         Failure(GuideNotIndexed, readme, names[0]));
      NamesCons(names);
      here + rest
  }

  lemma NamesCons(names: seq<string>)
    requires |names| > 0
    ensures forall n :: n in names <==> n == names[0] || n in names[1..]
    ensures Distinct(names) ==> Distinct(names[1..]) && names[0] !in names[1..]
  {
    assert names == [names[0]] + names[1..];
  }

  /** The templates index: the literal index entry, or a `## templates`
      heading in any case together with a case-sensitive `(templates/`. */
  predicate HasTemplatesIndex(content: string) {
    || Contains(content, "[templates/](templates/)")
    || (Contains(Lower(content), "## templates") && Contains(content, "(templates/"))
  }

  /** One README: the guide failures, then at most one templates failure. */
  function IndexFailures(readme: Path, content: string, names: seq<string>): (fs: seq<Failure>)
    ensures |fs| <= |names| + 1
    ensures Failure(TemplatesIndexMissing, readme, "") in fs <==> !HasTemplatesIndex(content)
    ensures |fs| == 0 <==>
      (forall n :: n in names ==> Contains(content, IndexLink(n))) && HasTemplatesIndex(content)
  {
    var guides := GuideFailures(readme, content, names);
    guides + FailIf(!HasTemplatesIndex(content), Failure(TemplatesIndexMissing, readme, ""))
  }

  function IndexStep(t: Tree, walk: seq<Path>, s: string): Outcome {
    WithFile(t, ReadmePath(s), (c: string) => IndexFailures(ReadmePath(s), c, GuideNames(walk, s)))
  }

  function IndexSteps(t: Tree, walk: seq<Path>): string -> Outcome {
    (s: string) => IndexStep(t, walk, s)
  }

  /** `test_readme_index_covers_all_numbered_guides`. */
  function IndexTest(t: Tree, walk: seq<Path>): (o: Outcome)
    ensures o.Errored? <==> exists s :: s in AllScaffolds && !IsFile(t, ReadmePath(s))
  {
    ForEach(AllScaffolds, IndexSteps(t, walk))
  }

  /** The scaffold README exists, lists every numbered guide of the
      scaffold directory, and points at the templates. */
  predicate ReadmeIndexed(t: Tree, s: string) {
    && IsFile(t, ReadmePath(s))
    && var content := t[ReadmePath(s)].content;
    && (forall p :: p in t && IsGuideOf(s, p) ==> Contains(content, IndexLink(p[1])))
    && HasTemplatesIndex(content)
  }

  lemma IndexStepPasses(t: Tree, walk: seq<Path>, s: string)
    requires IsWalk(t, walk)
    ensures Passed(IndexStep(t, walk, s)) <==> ReadmeIndexed(t, s)
  {
    if IsFile(t, ReadmePath(s)) {
      var content := t[ReadmePath(s)].content;
      var names := GuideNames(walk, s);
      if forall n :: n in names ==> Contains(content, IndexLink(n)) {
        forall p | p in t && IsGuideOf(s, p)
          ensures Contains(content, IndexLink(p[1]))
        {
          assert p in walk;
        }
      }
      if forall p :: p in t && IsGuideOf(s, p) ==> Contains(content, IndexLink(p[1])) {
        forall n | n in names
          ensures Contains(content, IndexLink(n))
        {
          var i :| 0 <= i < |names| && names[i] == n;
          assert IsGuideOf(s, [s, n]);
        }
      }
    }
  }

  /** The index test passes exactly when every scaffold README lists each
      of its numbered guides and points at the templates, whatever order
      the directory is listed in. */
  lemma IndexTestPasses(t: Tree, walk: seq<Path>)
    requires IsWalk(t, walk)
    ensures Passed(IndexTest(t, walk)) <==> forall s :: s in AllScaffolds ==> ReadmeIndexed(t, s)
  {
    forall s: string
      ensures Passed(IndexSteps(t, walk)(s)) <==> ReadmeIndexed(t, s)
    {
      IndexStepPasses(t, walk, s);
    }
    ForEachIff(AllScaffolds, IndexSteps(t, walk), (s: string) => ReadmeIndexed(t, s));
  }

  /** Either form of the templates index is enough on its own. */
  lemma TemplatesIndexForms(pre: string, post: string, heading: string)
    requires Lower(heading) == "## templates"
    ensures HasTemplatesIndex(pre + "[templates/](templates/)" + post)
    ensures HasTemplatesIndex(heading + pre + "(templates/" + post)
  {
    var link := "[templates/](templates/)";
    var a := pre + link + post;
    assert a[|pre|..|pre| + |link|] == link;
    ContainsAt(a, link, |pre|);
    var b := heading + pre + "(templates/" + post;
    var tail := pre + "(templates/" + post;
    assert b == heading + tail;
    LowerConcat(heading, tail);
    assert Lower(b) == "## templates" + Lower(tail);
    ContainsAt(Lower(b), "## templates", 0);
    assert b[|heading + pre|..|heading + pre| + 11] == "(templates/";
    ContainsAt(b, "(templates/", |heading + pre|);
  }

  // ---------------------------------------------------------------------
  // Process-overview depth

  /** A line `^###\s+\d+\.` matches: `###`, a whitespace run, a digit
      run, then `.`. */
  predicate IsNumberedSection(line: string) {
    |line| >= 3 && line[..3] == "###" &&
    var r := line[3..];
    var a := LStrip(r);
    |a| < |r| &&
    var d := DigitRun(a);
    0 < |d| < |a| && a[|d|] == '.'
  }

  /** `len(re.findall(r"^###\s+\d+\.", content, re.MULTILINE))`. */
  function NumberedSections(content: string): (n: nat)
    ensures n <= |Lines(content)|
  {
    |Filter(Lines(content), IsNumberedSection)|
  }

  /** Sections are counted line by line: joining two texts with a newline
      adds their counts. */
  lemma NumberedSectionsSplit(a: string, b: string)
    ensures NumberedSections(a + "\n" + b) == NumberedSections(a) + NumberedSections(b)
  {
    SplitConcat(a, b, '\n');
    FilterConcat(Lines(a), Lines(b), IsNumberedSection);
  }

  /** A single line counts once when it is a numbered section heading and
      not at all otherwise. */
  lemma NumberedSectionLine(l: string)
    requires '\n' !in l
    ensures NumberedSections(l) == if IsNumberedSection(l) then 1 else 0
  {
    LinesOfLine(l);
  }

  function PhaseMentions(content: string): nat {
    Count(Lower(content), "phase")
  }

  function LifecycleMentions(content: string): nat {
    Count(Lower(content), "lifecycle")
  }

  /** The depth rule over the three counts: shallow only when all three
      fall short. */
  function DepthVerdict(p: Path, phase: nat, lifecycle: nat, numbered: nat): (fs: seq<Failure>)
    ensures |fs| <= 1
    ensures |fs| == 1 ==> fs[0] == Failure(ShallowProcessOverview(phase, lifecycle, numbered), p, "")
    ensures |fs| == 0 <==>
      phase >= MinPhaseMentions || lifecycle >= MinLifecycleMentions || numbered >= MinNumberedSections
  {
    FailIf(phase < MinPhaseMentions && lifecycle < MinLifecycleMentions && numbered < MinNumberedSections,
           Failure(ShallowProcessOverview(phase, lifecycle, numbered), p, ""))
  }

  function DepthFailures(p: Path, content: string): (fs: seq<Failure>)
    ensures |fs| <= 1
  {
    DepthVerdict(p, PhaseMentions(content), LifecycleMentions(content), NumberedSections(content))
  }

  /** A process overview is deep enough exactly when it says "phase"
      three times, or says "lifecycle" at all (in any case), or has four
      numbered `###` sections. */
  predicate DeepEnough(content: string) {
    || Count(Lower(content), "phase") >= MinPhaseMentions
    || Contains(Lower(content), "lifecycle")
    || NumberedSections(content) >= MinNumberedSections
  }

  lemma DepthPasses(p: Path, content: string)
    ensures DepthFailures(p, content) == [] <==> DeepEnough(content)
  {
    CountZero(Lower(content), "lifecycle");
  }

  function OverviewPath(s: string): Path {
    [s, Overview]
  }

  function DepthStep(t: Tree, s: string): Outcome {
    WithFile(t, OverviewPath(s), (c: string) => DepthFailures(OverviewPath(s), c))
  }

  function DepthSteps(t: Tree): string -> Outcome {
    (s: string) => DepthStep(t, s)
  }

  /** `test_process_overview_has_sufficient_phase_depth`. */
  function DepthTest(t: Tree): (o: Outcome)
    ensures o.Errored? <==> exists s :: s in AllScaffolds && !IsFile(t, OverviewPath(s))
  {
    ForEach(AllScaffolds, DepthSteps(t))
  }

  predicate OverviewDeep(t: Tree, s: string) {
    IsFile(t, OverviewPath(s)) && DeepEnough(t[OverviewPath(s)].content)
  }

  /** The depth test passes exactly when every scaffold has a process
      overview that is deep enough. */
  lemma DepthTestPasses(t: Tree)
    ensures Passed(DepthTest(t)) <==> forall s :: s in AllScaffolds ==> OverviewDeep(t, s)
  {
    forall s: string
      ensures Passed(DepthSteps(t)(s)) <==> OverviewDeep(t, s)
    {
      if IsFile(t, OverviewPath(s)) {
        DepthPasses(OverviewPath(s), t[OverviewPath(s)].content);
      }
    }
    ForEachIff(AllScaffolds, DepthSteps(t), (s: string) => OverviewDeep(t, s));
  }

  /** The grammar read forwards: `###`, a non-empty whitespace run, a
      non-empty digit run and `.` make a numbered section, whatever
      follows. */
  lemma NumberedSectionIntro(ws: string, d: string, rest: string)
    requires |ws| > 0 && AllSpace(ws)
    requires |d| > 0 && AllDigits(d)
    ensures IsNumberedSection("###" + ws + d + "." + rest)
  {
    var line := "###" + ws + d + "." + rest;
    var a := d + "." + rest;
    assert line[..3] == "###";
    assert line[3..] == ws + a;
    LStripSpaces(ws, a);
    DigitRunOf(d, "." + rest);
    assert a == d + ("." + rest);
  }

  /** The grammar read backwards: every numbered section splits into
      `###`, a whitespace run, a digit run, `.` and the rest. */
  lemma NumberedSectionShape(line: string) returns (ws: string, d: string, rest: string)
    requires IsNumberedSection(line)
    ensures |ws| > 0 && AllSpace(ws) && |d| > 0 && AllDigits(d)
    ensures line == "###" + ws + d + "." + rest
  {
    var r := line[3..];
    var a := LStrip(r);
    LStripSplit(r);
    ws := r[..|r| - |a|];
    d := DigitRun(a);
    rest := a[|d| + 1..];
    DotSplit(a, d, rest);
    HashesThen(line);
    Glue(line, r, ws, a, d, rest);
  }

  lemma HashesThen(line: string)
    requires |line| >= 3 && line[..3] == "###"
    ensures line == "###" + line[3..]
  {
    assert line == line[..3] + line[3..];
  }

  lemma DotSplit(a: string, d: string, rest: string)
    requires d <= a && |d| < |a| && a[|d|] == '.' && rest == a[|d| + 1..]
    ensures a == d + "." + rest
  {
    assert a == a[..|d|] + a[|d|..];
  }

  lemma Glue(line: string, r: string, ws: string, a: string, d: string, rest: string)
    requires line == "###" + r && r == ws + a && a == d + "." + rest
    ensures line == "###" + ws + d + "." + rest
  {
  }

  /** A fourth `#` makes the line a deeper heading, which is not
      counted. */
  lemma DeeperHeadingNotCounted(x: string)
    ensures !IsNumberedSection("####" + x)
  {
    var line := "####" + x;
    assert line[3..] == "#" + x;
    assert LStrip(line[3..]) == line[3..];
  }

  /** The word counts ignore case: a document and its lower-cased copy
      have the same phase and lifecycle counts. */
  lemma MentionsOfLowered(content: string)
    ensures PhaseMentions(Lower(content)) == PhaseMentions(content)
    ensures LifecycleMentions(Lower(content)) == LifecycleMentions(content)
  {
    LowerIdempotent(content);
  }
}
