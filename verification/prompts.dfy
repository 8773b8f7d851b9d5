/** Prompt playbooks and Markdown templates
    (tests/test_prompt_template_semantics.py).

    A playbook needs at least five prompt headings, at least as many
    fenced code blocks as headings, and some task instructions. Each
    scaffold needs at least four Markdown templates, and each template
    opens with an H1 and offers the reader something to fill in. */
module PromptSemantics {
  import opened Text
  import opened Seqs
  import opened Corpus
  import opened Report
  import opened Catalog
  import opened Links
  import opened Style

  const MinPromptSections := 5
  const MinMarkdownTemplates := 4
  const Playbook := "07-agent-prompts.md"

  // ---------------------------------------------------------------------
  // The prompt-heading grammar, one line at a time (case-insensitive).
  // A line has no '\n', so every `\s` run below stays inside it.

  /** `###`, whitespace, `Prompt:`, anything. */
  predicate IsColonForm(line: string) {
    |line| >= 3 && line[..3] == "###" &&
    var r := line[3..];
    var rest := LStrip(r);
    |rest| < |r| && "prompt:" <= Lower(rest)
  }

  /** `##`, whitespace, `Prompt`, whitespace, digits, `:`, anything. Each
      whitespace run is followed by a non-space, so it is the maximal one. */
  predicate IsNumberedForm(line: string) {
    |line| >= 2 && line[..2] == "##" &&
    var r := line[2..];
    var a := LStrip(r);
    |a| < |r| && "prompt" <= Lower(a) &&
    var r2 := a[6..];
    var b := LStrip(r2);
    |b| < |r2| &&
    var d := DigitRun(b);
    0 < |d| < |b| && b[|d|] == ':'
  }

  /** `##`, whitespace, anything, `Prompt`, optional trailing whitespace. */
  predicate IsTrailingForm(line: string) {
    |line| >= 3 && line[..2] == "##" && IsSpace(line[2]) &&
    var r := RStrip(line);
    |r| >= 9 && EndsWith(Lower(r), "prompt")
  }

  predicate IsPromptHeading(line: string) {
    IsColonForm(line) || IsNumberedForm(line) || IsTrailingForm(line)
  }

  /** The lines `findall` reports, in document order. */
  function PromptHeadings(content: string): (hs: seq<string>)
    ensures forall i :: 0 <= i < |hs| ==> IsPromptHeading(hs[i]) && hs[i] in Lines(content)
    ensures forall i :: 0 <= i < |Lines(content)| && IsPromptHeading(Lines(content)[i]) ==>
      Lines(content)[i] in hs
    ensures forall x :: multiset(hs)[x] == if IsPromptHeading(x) then multiset(Lines(content))[x] else 0
  {
    Filter(Lines(content), IsPromptHeading)
  }

  function HeadingCount(content: string): nat {
    |PromptHeadings(content)|
  }

  /** Headings are counted line by line: joining two texts with a newline
      adds their counts. */
  lemma HeadingCountSplits(a: string, b: string)
    ensures HeadingCount(a + "\n" + b) == HeadingCount(a) + HeadingCount(b)
  {
    SplitConcat(a, b, '\n');
    FilterConcat(Lines(a), Lines(b), IsPromptHeading);
  }

  /** A single line counts once when it is a heading and not at all
      otherwise. */
  lemma HeadingCountLine(l: string)
    requires '\n' !in l
    ensures HeadingCount(l) == if IsPromptHeading(l) then 1 else 0
  {
    LinesOfLine(l);
  }

  /** A `##` heading whose text ends in `Prompt` counts whatever precedes
      that word and whatever trailing whitespace follows it. */
  lemma TrailingFormCounts(title: string, trail: string)
    requires AllSpace(trail)
    ensures IsPromptHeading("## " + title + "Prompt" + trail)
  {
    var x := "## " + title + "Prompt";
    var line := x + trail;
    assert line[..2] == "##" && line[2] == ' ';
    RStripSpaces(x, trail);
    var low := Lower(x);
    assert low[|x| - 6..] == "prompt";
  }

  /** `### Prompt` is only a heading with the colon. */
  lemma ColonRequired(rest: string)
    requires |rest| == 0 || rest[0] != ':'
    ensures !IsPromptHeading("### Prompt" + rest)
  {
    var line := "### Prompt" + rest;
    HashPrompt(rest);
    ThirdHashOnlyColonForm(line);
    var w := "Prompt" + rest;
    LStripOne(' ', w);
    SpacePrompt(rest);
    NoColonAt(w);
  }

  /** A `###` line can only be a heading in the colon form. */
  lemma ThirdHashOnlyColonForm(line: string)
    requires |line| >= 3 && line[2] == '#'
    ensures !IsNumberedForm(line) && !IsTrailingForm(line)
  {
    assert LStrip(line[2..]) == line[2..];
  }

  lemma HashPrompt(rest: string)
    ensures |"### Prompt" + rest| >= 3
    ensures ("### Prompt" + rest)[..3] == "###" && ("### Prompt" + rest)[2] == '#'
    ensures ("### Prompt" + rest)[3..] == " Prompt" + rest
  {
  }

  lemma SpacePrompt(rest: string)
    ensures " Prompt" + rest == [' '] + ("Prompt" + rest)
  {
  }

  /** A prefix ending in `:` needs a `:` (in any case) at that position. */
  lemma NoColonAt(w: string)
    requires 6 < |w| ==> w[6] != ':'
    ensures !("prompt:" <= Lower(w))
  {
    if 6 < |w| {
      assert Lower(w)[6] == LowerChar(w[6]) != ':';
    }
  }

  /** A plural is not the word `Prompt`. */
  lemma PluralNotCounted()
    ensures !IsPromptHeading("## Prompts")
  {
    PluralNotColon();
    PluralNotNumbered();
    PluralNotTrailing();
  }

  lemma PluralNotColon()
    ensures !IsColonForm("## Prompts")
  {
    assert "## Prompts"[2] == ' ';
  }

  lemma PluralNotNumbered()
    ensures !IsNumberedForm("## Prompts")
  {
    PluralPieces();
    LStripOne(' ', "Prompts");
    WordMustEnd("## Prompts");
  }

  lemma PluralPieces()
    ensures "## Prompts"[2..] == [' '] + "Prompts"
  {
  }

  /** In the numbered form the word `Prompt` is followed by whitespace. */
  lemma WordMustEnd(line: string)
    requires |line| >= 2
    requires var a := LStrip(line[2..]); |a| > 6 && !IsSpace(a[6])
    ensures !IsNumberedForm(line)
  {
    var a := LStrip(line[2..]);
    assert LStrip(a[6..]) == a[6..];
  }

  lemma PluralNotTrailing()
    ensures !IsTrailingForm("## Prompts")
  {
    var line := "## Prompts";
    assert RStrip(line) == line;
    assert Lower(line)[9] == 's';
  }

  // ---------------------------------------------------------------------
  // Playbooks

  /** Fenced code blocks: half the non-overlapping fence count, rounded
      down. */
  function CodeBlockPairs(content: string): nat {
    Count(content, Fence) / 2
  }

  /** A fenced block adds one pair to whatever follows it. */
  lemma BlockPairs(a: string, b: string, c: string)
    requires !Contains(a + "``", Fence) && !Contains(b + "``", Fence)
    ensures CodeBlockPairs(a + Fence + b + Fence + c) == 1 + CodeBlockPairs(c)
  {
    CountPair(a, b, c);
  }

  predicate HasTaskMarker(content: string) {
    Contains(content, "Tasks:") || Contains(content, "1.")
  }

  /** The three playbook checks, each independent of the others: too few
      headings, fewer blocks than headings, no task marker. */
  function PlaybookFailures(subject: Path, content: string): (fs: seq<Failure>)
    ensures |fs| == 0 <==> PlaybookOk(content)
  {
    PlaybookVerdict(subject, HeadingCount(content), CodeBlockPairs(content), HasTaskMarker(content))
  }

  /** The checks on a playbook with `n` prompt headings, `pairs` fenced
      blocks and a task marker when `marked`. */
  function PlaybookVerdict(subject: Path, n: nat, pairs: nat, marked: bool): (fs: seq<Failure>)
    ensures |fs| <= 3
    ensures Failure(TooFewPromptSections(n), subject, "") in fs <==> n < MinPromptSections
    ensures Failure(FewerCodeBlocksThanPrompts(pairs, n), subject, "") in fs <==> pairs < n
    ensures Failure(NoTaskInstructions, subject, "") in fs <==> !marked
    ensures |fs| == 0 <==> n >= MinPromptSections && pairs >= n && marked
  {
    FailIf(n < MinPromptSections, Failure(TooFewPromptSections(n), subject, ""))
    + FailIf(pairs < n, Failure(FewerCodeBlocksThanPrompts(pairs, n), subject, ""))
    + FailIf(!marked, Failure(NoTaskInstructions, subject, ""))
  }

  predicate PlaybookOk(content: string) {
    && HeadingCount(content) >= MinPromptSections
    && CodeBlockPairs(content) >= HeadingCount(content)
    && HasTaskMarker(content)
  }

  /** A passing playbook holds at least ten fences. */
  lemma PassingPlaybookHasFences(content: string)
    requires PlaybookOk(content)
    ensures Count(content, Fence) >= 2 * MinPromptSections
  {
  }

  function PlaybookPath(s: string): Path {
    [s, Playbook]
  }

  function PlaybookStep(t: Tree, s: string): Outcome {
    WithFile(t, PlaybookPath(s), (c: string) => PlaybookFailures(PlaybookPath(s), c))
  }

  /** `test_prompt_playbooks_have_minimum_structure`. */
  function PlaybookTest(t: Tree): (o: Outcome)
    ensures o.Errored? <==> exists s :: s in PromptScaffolds && !IsFile(t, PlaybookPath(s))
  {
    ForEach(PromptScaffolds, PlaybookSteps(t))
  }

  function PlaybookSteps(t: Tree): string -> Outcome {
    (s: string) => PlaybookStep(t, s)
  }

  /** The scaffold's playbook exists and meets all three checks. */
  predicate PlaybookPresent(t: Tree, s: string) {
    IsFile(t, PlaybookPath(s)) && PlaybookOk(t[PlaybookPath(s)].content)
  }

  lemma PlaybookStepPasses(t: Tree, s: string)
    ensures Passed(PlaybookStep(t, s)) <==> PlaybookPresent(t, s)
  {
  }

  /** The playbook test passes exactly when every prompt scaffold has a
      playbook file meeting all three checks. */
  lemma PlaybookTestPasses(t: Tree)
    ensures Passed(PlaybookTest(t)) <==> forall s :: s in PromptScaffolds ==> PlaybookPresent(t, s)
  {
    var ok := (s: string) => PlaybookPresent(t, s);
    forall s: string
      ensures Passed(PlaybookSteps(t)(s)) <==> ok(s)
    {
      PlaybookStepPasses(t, s);
    }
    ForEachIff(PromptScaffolds, PlaybookSteps(t), ok);
  }

  /** Greenfield has no playbook rule: whatever its playbook holds, the
      verdict is the same. */
  lemma GreenfieldPlaybookIgnored(t: Tree, e: Entry)
    ensures PlaybookTest(t[PlaybookPath("greenfield") := e]) == PlaybookTest(t)
  {
    var t' := t[PlaybookPath("greenfield") := e];
    CatalogShape();
    forall i | 0 <= i < |PromptScaffolds|
      ensures PlaybookStep(t', PromptScaffolds[i]) == PlaybookStep(t, PromptScaffolds[i])
    {
      var p := PlaybookPath(PromptScaffolds[i]);
      assert p != PlaybookPath("greenfield");
      assert Read(t', p) == Read(t, p);
    }
    ForEachAgree(PromptScaffolds, PlaybookSteps(t'), PlaybookSteps(t));
  }

  // ---------------------------------------------------------------------
  // Placeholders: `\{[^{}\n]+\}` searched anywhere.

  predicate IsBodyChar(c: char) {
    c != '{' && c != '}' && c != '\n'
  }

  /** The placeholder regex matches `s[i..j + 1]`. */
  predicate PlaceholderSpan(s: string, i: int, j: int) {
    0 <= i && i + 1 < j < |s| && s[i] == '{' && s[j] == '}'
    && forall k :: i < k < j ==> IsBodyChar(s[k])
  }

  /** The length of the longest run of body characters at the front. */
  function BodyRun(s: string): (n: nat)
    ensures n <= |s|
    ensures forall k :: 0 <= k < n ==> IsBodyChar(s[k])
    ensures n == |s| || !IsBodyChar(s[n])
    decreases |s|
  {
    if |s| > 0 && IsBodyChar(s[0]) then 1 + BodyRun(s[1..]) else 0
  }

  /** A placeholder starts at the front of `s`. */
  predicate PlaceholderAt(s: string) {
    |s| > 0 && s[0] == '{' &&
    var n := BodyRun(s[1..]);
    0 < n && n + 1 < |s| && s[n + 1] == '}'
  }

  /** The scanner for `PLACEHOLDER_PATTERN.search`. */
  predicate HasPlaceholder(s: string)
    decreases |s|
  {
    |s| > 0 && (PlaceholderAt(s) || HasPlaceholder(s[1..]))
  }

  /** The scanner finds a placeholder exactly when the regex has a match
      somewhere. */
  lemma {:induction false} HasPlaceholderIff(s: string)
    ensures HasPlaceholder(s) <==> exists i, j :: PlaceholderSpan(s, i, j)
    decreases |s|
  {
    if |s| > 0 {
      HasPlaceholderIff(s[1..]);
      if HasPlaceholder(s) {
        if PlaceholderAt(s) {
          assert PlaceholderSpan(s, 0, BodyRun(s[1..]) + 1);
        } else {
          var i, j :| PlaceholderSpan(s[1..], i, j);
          assert PlaceholderSpan(s, i + 1, j + 1);
        }
      }
      if exists i, j :: PlaceholderSpan(s, i, j) {
        var i, j :| PlaceholderSpan(s, i, j);
        if i == 0 {
          SpanAtFront(s, j);
        } else {
          assert PlaceholderSpan(s[1..], i - 1, j - 1);
        }
      }
    }
  }

  lemma SpanAtFront(s: string, j: int)
    requires PlaceholderSpan(s, 0, j)
    ensures PlaceholderAt(s)
  {
    var n := BodyRun(s[1..]);
    assert !IsBodyChar(s[1..][j - 1]);
  }

  // ---------------------------------------------------------------------
  // Markdown templates

  /** An entry `templates_dir.glob("*.md.template")` yields for scaffold `s`. */
  predicate IsMarkdownTemplateOf(t: Tree, s: string, p: Path) {
    |p| == 3 && p[0] == s && p[1] == "templates" && EndsWith(p[2], ".md.template")
    && IsDir(t, [s, "templates"])
  }

  function TemplateGlob(t: Tree, s: string): Path -> bool {
    (p: Path) => IsMarkdownTemplateOf(t, s, p)
  }

  function MarkdownTemplates(t: Tree, walk: seq<Path>, s: string): (r: seq<Path>)
    ensures forall i :: 0 <= i < |r| ==> IsMarkdownTemplateOf(t, s, r[i])
  {
    Filter(walk, TemplateGlob(t, s))
  }

  /** A template fills something in: a placeholder, a checklist item or a
      table. */
  predicate IsActionable(content: string) {
    HasPlaceholder(content) || Contains(content, "- [ ]") || Contains(content, "|")
  }

  /** One template: without an H1 it gets that failure alone, and its
      actionability is not checked. */
  function TemplateFailures(p: Path, content: string): (fs: seq<Failure>)
    ensures |fs| <= 1
    ensures !(H1 <= Strip(content)) ==> fs == [Failure(TemplateWithoutH1, p, "")]
    ensures |fs| == 0 <==> H1 <= Strip(content) && IsActionable(content)
  {
    if !(H1 <= Strip(content)) then [Failure(TemplateWithoutH1, p, "")]
    else FailIf(!IsActionable(content), Failure(TemplateNotActionable, p, ""))
  }

  function TemplateStep(t: Tree, p: Path): Outcome {
    WithFile(t, p, (c: string) => TemplateFailures(p, c))
  }

  function TemplateSteps(t: Tree): Path -> Outcome {
    (p: Path) => TemplateStep(t, p)
  }

  lemma TemplateStepPasses(t: Tree, p: Path)
    ensures Passed(TemplateStep(t, p)) <==>
      IsFile(t, p) && H1 <= Strip(t[p].content) && IsActionable(t[p].content)
  {
  }

  /** One scaffold's templates: with fewer than four, one failure and no
      per-file checks; otherwise every template is checked. */
  function ScaffoldTemplates(t: Tree, walk: seq<Path>, s: string): (o: Outcome)
    ensures |MarkdownTemplates(t, walk, s)| < MinMarkdownTemplates ==>
      o == Ran([Failure(TooFewMarkdownTemplates(|MarkdownTemplates(t, walk, s)|), [s, "templates"], "")])
    ensures |MarkdownTemplates(t, walk, s)| >= MinMarkdownTemplates ==>
      (Passed(o) <==> forall i :: 0 <= i < |MarkdownTemplates(t, walk, s)| ==>
        Passed(TemplateStep(t, MarkdownTemplates(t, walk, s)[i])))
    ensures o.Errored? <==> TemplateUnreadable(t, walk, s)
  {
    var ts := MarkdownTemplates(t, walk, s);
    if |ts| < MinMarkdownTemplates then
      Ran([Failure(TooFewMarkdownTemplates(|ts|), [s, "templates"], "")])
    else ForEach(ts, TemplateSteps(t))
  }

  /** A scaffold with enough templates, one of which cannot be read. */
  predicate TemplateUnreadable(t: Tree, walk: seq<Path>, s: string) {
    var ts := MarkdownTemplates(t, walk, s);
    |ts| >= MinMarkdownTemplates && exists p :: p in ts && !IsFile(t, p)
  }

  /** `test_markdown_templates_are_actionable`. */
  function TemplatesTest(t: Tree, walk: seq<Path>): (o: Outcome)
    ensures o.Errored? <==> exists s :: s in AllScaffolds && TemplateUnreadable(t, walk, s)
  {
    ForEach(AllScaffolds, ScaffoldTemplateSteps(t, walk))
  }

  /** A scaffold's templates pass exactly when it has at least four of them
      (counted in the tree, whatever the walk order) and each is a file
      with an H1 that offers something to fill in. */
  lemma ScaffoldTemplatesPass(t: Tree, walk: seq<Path>, s: string)
    requires IsWalk(t, walk)
    ensures Passed(ScaffoldTemplates(t, walk, s)) <==>
      && |set p | p in t && IsMarkdownTemplateOf(t, s, p)| >= MinMarkdownTemplates
      && forall p :: p in t && IsMarkdownTemplateOf(t, s, p) ==>
           IsFile(t, p) && H1 <= Strip(t[p].content) && IsActionable(t[p].content)
  {
    TemplateCount(t, walk, s);
    if |MarkdownTemplates(t, walk, s)| >= MinMarkdownTemplates {
      WalkForEach(t, walk, TemplateGlob(t, s), TemplateSteps(t));
      forall p | p in t
        ensures Passed(TemplateSteps(t)(p)) <==>
          IsFile(t, p) && H1 <= Strip(t[p].content) && IsActionable(t[p].content)
      {
        TemplateStepPasses(t, p);
      }
    }
  }

  /** The scaffold has at least four Markdown templates, each a file
      with an H1 that offers something to fill in. */
  predicate TemplatesActionable(t: Tree, s: string) {
    && |set p | p in t && IsMarkdownTemplateOf(t, s, p)| >= MinMarkdownTemplates
    && forall p :: p in t && IsMarkdownTemplateOf(t, s, p) ==>
         IsFile(t, p) && H1 <= Strip(t[p].content) && IsActionable(t[p].content)
  }

  function ScaffoldTemplateSteps(t: Tree, walk: seq<Path>): string -> Outcome {
    (s: string) => ScaffoldTemplates(t, walk, s)
  }

  /** The template test passes exactly when every scaffold, greenfield
      included, has at least four actionable Markdown templates. */
  lemma TemplatesTestPasses(t: Tree, walk: seq<Path>)
    requires IsWalk(t, walk)
    ensures Passed(TemplatesTest(t, walk)) <==> forall s :: s in AllScaffolds ==> TemplatesActionable(t, s)
  {
    forall s: string
      ensures Passed(ScaffoldTemplateSteps(t, walk)(s)) <==> TemplatesActionable(t, s)
    {
      ScaffoldTemplatesPass(t, walk, s);
    }
    ForEachIff(AllScaffolds, ScaffoldTemplateSteps(t, walk), (s: string) => TemplatesActionable(t, s));
  }

  lemma TemplateCount(t: Tree, walk: seq<Path>, s: string)
    requires IsWalk(t, walk)
    ensures |MarkdownTemplates(t, walk, s)| == |set p | p in t && IsMarkdownTemplateOf(t, s, p)|
  {
    var select := TemplateGlob(t, s);
    WalkCount(t, walk, select);
    var a := set p | p in t && select(p);
    var b := set p | p in t && IsMarkdownTemplateOf(t, s, p);
    assert forall p :: p in a <==> p in b;
    assert a == b;
  }
}
