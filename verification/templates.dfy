/** Template hygiene (tests/test_templates.py): a scaffold's templates
    directory holds only `.template` files, and no Markdown template in
    the corpus is blank. */
module Templates {
  import opened Text
  import opened Seqs
  import opened Corpus
  import opened Report

  // ---------------------------------------------------------------------
  // Entries of `*/templates`

  /** A top-level entry named `templates` (the glob `*` then `/templates`)
      that `is_dir()` accepts. */
  predicate IsTemplatesDir(t: Tree, d: Path) {
    |d| == 2 && d[1] == "templates" && IsDir(t, d)
  }

  /** A child `iterdir()` lists. */
  predicate IsChildOf(d: Path, p: Path) {
    |p| == |d| + 1 && p[..|d|] == d
  }

  /** One entry: a directory gets that failure alone; anything else fails
      only when its name lacks the `.template` suffix. */
  function EntryFailures(t: Tree, p: Path): (fs: seq<Failure>)
    ensures |fs| <= 1
    ensures IsDir(t, p) ==> fs == [Failure(TemplateEntryIsDirectory, p, "")]
    ensures !IsDir(t, p) ==> (|fs| == 0 <==> EndsWith(Name(p), ".template"))
    ensures !IsDir(t, p) && |fs| == 1 ==> fs[0] == Failure(TemplateSuffixMissing, p, "")
  {
    if IsDir(t, p) then [Failure(TemplateEntryIsDirectory, p, "")]
    else FailIf(!EndsWith(Name(p), ".template"), Failure(TemplateSuffixMissing, p, ""))
  }

  predicate EntryOk(t: Tree, p: Path) {
    !IsDir(t, p) && EndsWith(Name(p), ".template")
  }

  function EntryStep(t: Tree, p: Path): Outcome {
    Ran(EntryFailures(t, p))
  }

  function ChildGlob(d: Path): Path -> bool {
    (p: Path) => IsChildOf(d, p)
  }

  /** The inner loop over one templates directory. */
  function DirStep(t: Tree, walk: seq<Path>, d: Path): Outcome {
    ForEach(Filter(walk, ChildGlob(d)), (p: Path) => EntryStep(t, p))
  }

  function DirGlob(t: Tree): Path -> bool {
    (d: Path) => IsTemplatesDir(t, d)
  }

  /** `test_all_template_files_use_md_template_extension`. */
  function SuffixTest(t: Tree, walk: seq<Path>): (o: Outcome)
    ensures o.Ran?
  {
    ForEach(Filter(walk, DirGlob(t)), (d: Path) => DirStep(t, walk, d))
  }

  lemma DirStepPasses(t: Tree, walk: seq<Path>, d: Path)
    requires IsWalk(t, walk)
    ensures Passed(DirStep(t, walk, d)) <==> forall p :: p in t && IsChildOf(d, p) ==> EntryOk(t, p)
  {
    var step := (p: Path) => EntryStep(t, p);
    WalkForEach(t, walk, ChildGlob(d), step);
    forall p | p in t && IsChildOf(d, p)
      ensures Passed(step(p)) <==> EntryOk(t, p)
    {
    }
  }

  /** The suffix test passes exactly when every entry directly inside a
      top-level `templates` directory is a non-directory whose name ends
      with `.template`; nothing else in the tree is looked at. */
  lemma SuffixTestPasses(t: Tree, walk: seq<Path>)
    requires IsWalk(t, walk)
    ensures Passed(SuffixTest(t, walk)) <==>
      forall d, p :: d in t && IsTemplatesDir(t, d) && p in t && IsChildOf(d, p) ==> EntryOk(t, p)
  {
    var step := (d: Path) => DirStep(t, walk, d);
    WalkForEach(t, walk, DirGlob(t), step);
    forall d | d in t && IsTemplatesDir(t, d)
      ensures Passed(step(d)) <==> forall p :: p in t && IsChildOf(d, p) ==> EntryOk(t, p)
    {
      DirStepPasses(t, walk, d);
    }
  }

  // ---------------------------------------------------------------------
  // Emptiness of `*.md.template`

  /** An entry `ROOT.rglob("*.md.template")` yields, at any depth and
      under any directory. */
  predicate IsMarkdownTemplate(p: Path) {
    |p| > 0 && EndsWith(Name(p), ".md.template")
  }

  /** A template is blank when nothing is left after `strip()`. */
  function EmptyFailures(p: Path, content: string): (fs: seq<Failure>)
    ensures |fs| <= 1
    ensures |fs| == 0 <==> exists i :: 0 <= i < |content| && !IsSpace(content[i])
  {
    FailIf(|Strip(content)| == 0, Failure(TemplateEmpty, p, ""))
  }

  function EmptyStep(t: Tree, p: Path): Outcome {
    WithFile(t, p, (c: string) => EmptyFailures(p, c))
  }

  /** `test_templates_are_not_empty`. */
  function EmptyTest(t: Tree, walk: seq<Path>): (o: Outcome)
    ensures o.Errored? <==> exists p :: p in walk && IsMarkdownTemplate(p) && !IsFile(t, p)
  {
    ForEach(Filter(walk, IsMarkdownTemplate), (p: Path) => EmptyStep(t, p))
  }

  /** The emptiness test passes exactly when every `*.md.template` entry
      is a file with some non-whitespace character. A directory with
      that suffix cannot be read, and the test errors on it. */
  lemma EmptyTestPasses(t: Tree, walk: seq<Path>)
    requires IsWalk(t, walk)
    ensures Passed(EmptyTest(t, walk)) <==>
      forall p :: p in t && IsMarkdownTemplate(p) ==> IsFile(t, p) && !AllSpace(t[p].content)
  {
    WalkForEach(t, walk, IsMarkdownTemplate, (p: Path) => EmptyStep(t, p));
  }

  /** A plain `.template` that is not Markdown is never checked for
      emptiness. */
  lemma OtherTemplatesNotChecked(name: string)
    requires EndsWith(name, ".template")
    requires !EndsWith(name, ".md.template")
    ensures forall p :: |p| > 0 && Name(p) == name ==> !IsMarkdownTemplate(p)
  {
  }
}
