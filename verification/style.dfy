/** The Markdown style rules: every checked document opens with an H1
    heading, and a numbered guide's first line carries the guide's number
    (tests/test_style.py). */
module Style {
  import opened Text
  import opened Seqs
  import opened Corpus
  import opened Report

  const H1 := "# "

  /** A name matched by `^(\d{2})-.*\.md$`: two digits, a dash, a run
      without newlines, and the `.md` suffix. (`$` also matches before a
      final newline, but a name that `*.md` selected has none.) */
  predicate IsNumberedName(name: string) {
    && |name| >= 6
    && IsDigit(name[0]) && IsDigit(name[1]) && name[2] == '-'
    && EndsWith(name, ".md")
    && '\n' !in name[3..|name| - 3]
  }

  /** `# ` followed by the guide's two-digit number. */
  function ExpectedPrefix(name: string): (r: string)
    requires IsNumberedName(name)
    ensures |r| == 4 && H1 <= r
    ensures !IsSpace(r[0]) && !IsSpace(r[3])
    ensures forall i :: 0 <= i < |r| ==> !IsLineBreak(r[i])
  {
    H1 + name[..2]
  }

  /** The H1 rule for one document, given its raw content. A document that
      is blank after stripping gets exactly the "is empty" failure and no
      heading check; otherwise it passes exactly when the stripped text
      starts with `# ` (its first line does exactly when the text does). */
  function H1Failures(p: Path, raw: string): (fs: seq<Failure>)
    ensures AllSpace(raw) ==> fs == [Failure(EmptyDocument, p, "")]
    ensures !AllSpace(raw) ==> |fs| <= 1 && (|fs| == 0 <==> H1 <= Strip(raw))
    ensures !AllSpace(raw) && |fs| == 1 ==> fs[0].kind == FirstLineNotH1
  {
    var content := Strip(raw);
    if |content| == 0 then [Failure(EmptyDocument, p, "")]
    else
      FirstLinePrefix(content, H1);
      var first := FirstLine(content).value;
      FailIf(!(H1 <= first), Failure(FirstLineNotH1, p, first))
  }

  /** The prefix rule for one numbered guide. The first line of the RAW
      content is taken (an empty file has none, and the test errors), then
      stripped, and must start with `# NN`: a prefix test only. */
  function PrefixCheck(p: Path, raw: string): (o: Outcome)
    requires IsNumberedName(Name(p))
    ensures o.Errored? <==> |raw| == 0
    ensures o.Errored? ==> o.cause.kind == NoFirstLine
    ensures o.Ran? ==> |o.failures| <= 1
    ensures o.Ran? ==>
      (Passed(o) <==> ExpectedPrefix(Name(p)) <= Strip(FirstLine(raw).value))
  {
    var expected := ExpectedPrefix(Name(p));
    match FirstLine(raw)
    case None => Errored(Failure(NoFirstLine, p, ""))
    case Some(line) =>
      Ran(FailIf(!(expected <= Strip(line)), Failure(NumberPrefixMismatch, p, expected)))
  }

  /** The documents the prefix rule visits. */
  predicate IsNumberedGuide(p: Path) {
    IsCheckedMarkdown(p) && IsNumberedName(Name(p))
  }

  function NumberedPaths(walk: seq<Path>): (r: seq<Path>)
    ensures forall i :: 0 <= i < |r| ==> r[i] in walk && IsNumberedGuide(r[i])
    ensures forall i :: 0 <= i < |walk| && IsNumberedGuide(walk[i]) ==> walk[i] in r
  {
    Filter(walk, IsNumberedGuide)
  }

  function H1Step(t: Tree, p: Path): Outcome {
    WithFile(t, p, (c: string) => H1Failures(p, c))
  }

  function PrefixStep(t: Tree, p: Path): Outcome {
    if !IsNumberedName(Name(p)) then Ran([])
    else match Read(t, p)
      case None => Unreadable(p)
      case Some(raw) => PrefixCheck(p, raw)
  }

  /** `test_markdown_files_start_with_h1`. */
  function H1Test(t: Tree, walk: seq<Path>): (o: Outcome)
    ensures o.Errored? <==> exists p :: p in walk && IsCheckedMarkdown(p) && !IsFile(t, p)
  {
    ForEach(MarkdownPaths(walk), (p: Path) => H1Step(t, p))
  }

  /** `test_numbered_guides_have_matching_h1_prefix`. */
  function PrefixTest(t: Tree, walk: seq<Path>): (o: Outcome)
    ensures o.Errored? <==> exists p :: p in walk && IsNumberedGuide(p) && (!IsFile(t, p) || t[p].content == "")
  {
    ForEach(NumberedPaths(walk), (p: Path) => PrefixStep(t, p))
  }

  /** The H1 test passes exactly when every checked document of the corpus
      is a file whose stripped text is non-blank and starts with `# `;
      excluded directories never matter. */
  lemma H1TestPasses(t: Tree, walk: seq<Path>)
    requires IsWalk(t, walk)
    ensures Passed(H1Test(t, walk)) <==>
      forall p :: p in t && IsCheckedMarkdown(p) ==>
        IsFile(t, p) && !AllSpace(t[p].content) && H1 <= Strip(t[p].content)
  {
    WalkForEach(t, walk, IsCheckedMarkdown, (p: Path) => H1Step(t, p));
  }

  /** The prefix test passes exactly when every numbered guide is a
      non-empty file whose stripped first line starts with `# NN`. */
  lemma PrefixTestPasses(t: Tree, walk: seq<Path>)
    requires IsWalk(t, walk)
    ensures Passed(PrefixTest(t, walk)) <==>
      forall p :: p in t && IsNumberedGuide(p) ==>
        IsFile(t, p) && |t[p].content| > 0
        && ExpectedPrefix(Name(p)) <= Strip(FirstLine(t[p].content).value)
  {
    WalkForEach(t, walk, IsNumberedGuide, (p: Path) => PrefixStep(t, p));
  }

  /** The number is matched as a prefix only: a guide `01-…` whose heading
      reads `# 012 …` (anything after the two digits, on the same line)
      passes. */
  lemma PrefixOnly(p: Path, extra: string, rest: string)
    requires IsNumberedName(Name(p))
    requires forall i :: 0 <= i < |extra| ==> !IsLineBreak(extra[i])
    ensures Passed(PrefixCheck(p, ExpectedPrefix(Name(p)) + extra + rest))
  {
    var expected := ExpectedPrefix(Name(p));
    var raw := expected + extra + rest;
    var head := expected + extra;
    assert forall i :: 0 <= i < |head| ==> !IsLineBreak(head[i]);
    FirstLinePrefix(raw, head);
    var line := FirstLine(raw).value;
    assert head <= line;
    assert expected <= line;
    StripKeepsPrefix(line, expected);
  }

  /** The two rules read the first line differently: a numbered guide whose
      heading follows a blank first line passes the H1 rule (which strips
      the whole text first) but fails the prefix rule (which takes the raw
      first line). */
  lemma LeadingBlankLine(p: Path, doc: string)
    requires IsNumberedName(Name(p))
    requires ExpectedPrefix(Name(p)) <= doc
    ensures H1Failures(p, "\n" + doc) == []
    ensures PrefixCheck(p, "\n" + doc) == Ran([Failure(NumberPrefixMismatch, p, ExpectedPrefix(Name(p)))])
  {
    var expected := ExpectedPrefix(Name(p));
    var raw := "\n" + doc;
    assert raw[1..] == doc;
    assert LStrip(raw) == LStrip(doc) == doc;
    assert Strip(raw) == RStrip(doc) == Strip(doc);
    StripKeepsPrefix(doc, expected);
    assert !AllSpace(raw) by { assert !IsSpace(raw[1]); }
    assert FirstLine(raw) == Some("");
  }
}
