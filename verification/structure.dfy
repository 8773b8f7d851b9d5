/** Scaffold structure (tests/test_structure.py): every scaffold is a
    directory with a README, a templates directory, the guides 00 to 08
    and an AGENTS template. Each test asserts, so its first missing item
    ends it. */
module Structure {
  import opened Text
  import opened Corpus
  import opened Report
  import opened Catalog

  // ---------------------------------------------------------------------
  // Scaffold directories, README, templates directory, AGENTS template

  function DirCheck(t: Tree, s: string): Option<Failure> {
    if IsDir(t, [s]) then None else Some(Failure(ScaffoldDirectoryMissing, [s], ""))
  }

  /** `test_expected_scaffolds_exist`. */
  function DirsTest(t: Tree): (o: Outcome)
    ensures Passed(o) <==> forall s :: s in AllScaffolds ==> IsDir(t, [s])
  {
    var check := (s: string) => DirCheck(t, s);
    var o := Assertions(AllScaffolds, check);
    AssertionsIn(AllScaffolds, check);
    o
  }

  /** The README is checked before the templates directory. */
  function TopLevelCheck(t: Tree, s: string): (r: Option<Failure>)
    ensures r.None? <==> IsFile(t, ReadmePath(s)) && IsDir(t, TemplatesPath(s))
    ensures !IsFile(t, ReadmePath(s)) ==> r == Some(Failure(ReadmeMissing, [s], ""))
  {
    if !IsFile(t, ReadmePath(s)) then Some(Failure(ReadmeMissing, [s], ""))
    else if !IsDir(t, TemplatesPath(s)) then Some(Failure(TemplatesDirectoryMissing, [s], ""))
    else None
  }

  function TemplatesPath(s: string): Path {
    [s, "templates"]
  }

  /** `test_each_scaffold_has_required_top_level_files`: a regular-file
      README (a directory of that name does not do) and a templates
      directory. */
  function TopLevelTest(t: Tree): (o: Outcome)
    ensures Passed(o) <==> forall s :: s in AllScaffolds ==>
      IsFile(t, ReadmePath(s)) && IsDir(t, TemplatesPath(s))
  {
    var check := (s: string) => TopLevelCheck(t, s);
    AssertionsIn(AllScaffolds, check);
    Assertions(AllScaffolds, check)
  }

  function AgentsCheck(t: Tree, s: string): Option<Failure> {
    if IsFile(t, AgentsPath(s)) then None else Some(Failure(AgentsTemplateMissing, [s], ""))
  }

  /** `test_templates_have_agents_template`. */
  function AgentsTemplateTest(t: Tree): (o: Outcome)
    ensures Passed(o) <==> forall s :: s in AllScaffolds ==> IsFile(t, AgentsPath(s))
  {
    var check := (s: string) => AgentsCheck(t, s);
    AssertionsIn(AllScaffolds, check);
    Assertions(AllScaffolds, check)
  }

  /** Only the first missing scaffold directory is reported, however many
      more are missing after it. */
  lemma FirstMissingDirReported(t: Tree, i: nat)
    requires i < |AllScaffolds| && !IsDir(t, [AllScaffolds[i]])
    requires forall j :: 0 <= j < i ==> IsDir(t, [AllScaffolds[j]])
    ensures DirsTest(t) == Ran([Failure(ScaffoldDirectoryMissing, [AllScaffolds[i]], "")])
  {
    AssertionsFirst(AllScaffolds, (s: string) => DirCheck(t, s), i);
  }

  // ---------------------------------------------------------------------
  // Numbered guides

  /** A required guide: an exact file name, or a two-digit number any
      `NN-` name satisfies. */
  datatype Requirement = Exact(name: string) | Numbered(prefix: string)

  const RequiredGuides: seq<Requirement> := [
    Exact("00-philosophy.md"), Exact("01-process-overview.md"),
    Numbered("02"), Numbered("03"), Numbered("04"), Numbered("05"),
    Numbered("06"), Numbered("07"), Numbered("08")
  ]

  /** The names `scaffold_path.glob("*.md")` yields; none when the
      scaffold is not a directory. */
  function MarkdownNames(t: Tree, s: string): (names: set<string>)
    ensures forall n :: n in names <==> IsDir(t, [s]) && [s, n] in t && EndsWith(n, ".md")
  {
    var names := set p | p in t && IsDir(t, [s]) && |p| == 2 && p[0] == s && EndsWith(p[1], ".md") :: p[1];
    forall n | IsDir(t, [s]) && [s, n] in t && EndsWith(n, ".md")
      ensures n in names
    {
      var p := [s, n];
      assert p[1] == n;
    }
    forall n | n in names
      ensures [s, n] in t
    {
      var p :| p in t && |p| == 2 && p[0] == s && p[1] == n;
      assert p == [s, n];
    }
    names
  }

  predicate Satisfied(names: set<string>, r: Requirement) {
    match r
    case Exact(name) => name in names
    case Numbered(prefix) => exists n :: n in names && prefix + "-" <= n
  }

  function Label(r: Requirement): string {
    match r
    case Exact(name) => name
    case Numbered(prefix) => prefix
  }

  function RequirementCheck(s: string, names: set<string>, r: Requirement): Option<Failure> {
    if Satisfied(names, r) then None else Some(Failure(GuideMissing, [s], Label(r)))
  }

  /** The first unmet requirement of one scaffold, if any. */
  function GuideCheck(t: Tree, s: string): (r: Option<Failure>)
    ensures r.None? <==> forall q :: q in RequiredGuides ==> Satisfied(MarkdownNames(t, s), q)
  {
    var names := MarkdownNames(t, s);
    var check := (q: Requirement) => RequirementCheck(s, names, q);
    var o := Assertions(RequiredGuides, check);
    AssertionsIn(RequiredGuides, check);
    if |o.failures| == 0 then None else Some(o.failures[0])
  }

  /** `test_each_scaffold_has_numbered_guides_00_to_08`. */
  function GuidesTest(t: Tree): (o: Outcome)
    ensures o.Ran? && |o.failures| <= 1
  {
    Assertions(AllScaffolds, GuideChecks(t))
  }

  function GuideChecks(t: Tree): string -> Option<Failure> {
    (s: string) => GuideCheck(t, s)
  }

  /** The guide prefix for number `k`: `0`, the digit, `-`. */
  function GuidePrefix(k: nat): string
    requires k <= 9
  {
    ['0', ('0' as int + k) as char, '-']
  }

  /** The scaffold directory holds `00-philosophy.md`,
      `01-process-overview.md`, and for each number from 2 to 8 some
      Markdown entry whose name starts with `0k-`. */
  predicate HasGuides(t: Tree, s: string) {
    && IsDir(t, [s])
    && [s, "00-philosophy.md"] in t
    && [s, "01-process-overview.md"] in t
    && forall k :: 2 <= k <= 8 ==>
         exists p :: p in t && IsGuideEntry(s, p) && GuidePrefix(k) <= p[1]
  }

  /** An entry `glob("*.md")` yields in the scaffold directory. */
  predicate IsGuideEntry(s: string, p: Path) {
    |p| == 2 && p[0] == s && EndsWith(p[1], ".md")
  }

  lemma RequirementsMeanGuides(t: Tree, s: string)
    ensures (forall q :: q in RequiredGuides ==> Satisfied(MarkdownNames(t, s), q)) <==> HasGuides(t, s)
  {
    if forall q :: q in RequiredGuides ==> Satisfied(MarkdownNames(t, s), q) {
      GuidesFromRequirements(t, s);
    }
    if HasGuides(t, s) {
      RequirementsFromGuides(t, s);
    }
  }

  lemma GuidesFromRequirements(t: Tree, s: string)
    requires forall q :: q in RequiredGuides ==> Satisfied(MarkdownNames(t, s), q)
    ensures HasGuides(t, s)
  {
    var names := MarkdownNames(t, s);
    RequiredShape();
    assert Satisfied(names, RequiredGuides[0]);
    assert Satisfied(names, RequiredGuides[1]);
    forall k | 2 <= k <= 8
      ensures exists p :: p in t && IsGuideEntry(s, p) && GuidePrefix(k) <= p[1]
    {
      assert Satisfied(names, RequiredGuides[k]);
      NumberedMet(t, s, k);
    }
  }

  lemma RequirementsFromGuides(t: Tree, s: string)
    requires HasGuides(t, s)
    ensures forall q :: q in RequiredGuides ==> Satisfied(MarkdownNames(t, s), q)
  {
    var names := MarkdownNames(t, s);
    RequiredShape();
    assert EndsWith("00-philosophy.md", ".md") && EndsWith("01-process-overview.md", ".md");
    assert Satisfied(names, RequiredGuides[0]) && Satisfied(names, RequiredGuides[1]);
    forall k | 2 <= k <= 8
      ensures Satisfied(names, RequiredGuides[k])
    {
      NumberedMet(t, s, k);
    }
    assert forall i :: 0 <= i < |RequiredGuides| ==> Satisfied(names, RequiredGuides[i]);
  }

  /** The numbered requirements are the prefixes `02` to `08`. */
  lemma RequiredShape()
    ensures |RequiredGuides| == 9
    ensures RequiredGuides[0] == Exact("00-philosophy.md")
    ensures RequiredGuides[1] == Exact("01-process-overview.md")
    ensures forall k :: 2 <= k <= 8 ==> RequiredGuides[k] == Numbered(GuidePrefix(k)[..2])
  {
    assert GuidePrefix(2)[..2] == "02";
    assert GuidePrefix(3)[..2] == "03";
    assert GuidePrefix(4)[..2] == "04";
    assert GuidePrefix(5)[..2] == "05";
    assert GuidePrefix(6)[..2] == "06";
    assert GuidePrefix(7)[..2] == "07";
    assert GuidePrefix(8)[..2] == "08";
  }

  /** Requirement k is met exactly when some Markdown entry of the
      scaffold directory starts with `0k-`. */
  lemma NumberedMet(t: Tree, s: string, k: nat)
    requires 2 <= k <= 8 && IsDir(t, [s])
    ensures Satisfied(MarkdownNames(t, s), Numbered(GuidePrefix(k)[..2])) <==>
      exists p :: p in t && IsGuideEntry(s, p) && GuidePrefix(k) <= p[1]
  {
    var names := MarkdownNames(t, s);
    var pre := GuidePrefix(k);
    assert pre[..2] + "-" == pre;
    if Satisfied(names, Numbered(pre[..2])) {
      var n :| n in names && pre <= n;
      assert IsGuideEntry(s, [s, n]);
    }
    if exists p :: p in t && IsGuideEntry(s, p) && pre <= p[1] {
      var p :| p in t && IsGuideEntry(s, p) && pre <= p[1];
      assert p == [s, p[1]];
      assert p[1] in names;
    }
  }

  /** The guides test passes exactly when every scaffold directory holds
      the two named guides and a guide for each number from 2 to 8. */
  lemma GuidesTestPasses(t: Tree)
    ensures Passed(GuidesTest(t)) <==> forall s :: s in AllScaffolds ==> HasGuides(t, s)
  {
    AssertionsIn(AllScaffolds, GuideChecks(t));
    forall s | s in AllScaffolds
      ensures GuideChecks(t)(s).None? <==> HasGuides(t, s)
    {
      RequirementsMeanGuides(t, s);
    }
  }

  /** Any title after the number does: `0k-<anything>.md` meets
      requirement k. */
  lemma AnyTitleCounts(t: Tree, s: string, k: nat, title: string)
    requires 2 <= k <= 8
    requires IsDir(t, [s]) && [s, GuidePrefix(k) + title + ".md"] in t
    ensures Satisfied(MarkdownNames(t, s), Numbered(GuidePrefix(k)[..2]))
  {
    var n := GuidePrefix(k) + title + ".md";
    assert EndsWith(n, ".md");
    assert n in MarkdownNames(t, s);
    assert GuidePrefix(k)[..2] + "-" == GuidePrefix(k);
    assert GuidePrefix(k) <= n;
  }

  /** The first two guides need their exact names: another title for
      guide 00 does not meet the requirement. */
  lemma FirstGuidesByName(t: Tree, s: string)
    requires forall p :: p in t && |p| == 2 && p[0] == s ==> p[1] != "00-philosophy.md"
    ensures !Satisfied(MarkdownNames(t, s), RequiredGuides[0])
  {
  }
}
