/** The README operator contract (tests/test_readme_contract.py): every
    scaffold README, read in lower case, has an audience section, a
    how-to-use section, a document index and some templates guidance. */
module ReadmeContract {
  import opened Text
  import opened Corpus
  import opened Report
  import opened Catalog

  /** `## when to use this scaffold` or `## who is this for?` (the `?` is
      a literal character, not a pattern). */
  predicate HasAudience(lowered: string) {
    Contains(lowered, "## when to use this scaffold") || Contains(lowered, "## who is this for?")
  }

  predicate HasHowToUse(lowered: string) {
    Contains(lowered, "## how to use this scaffold")
  }

  /** The phrase may sit anywhere, not only in a heading. */
  predicate HasDocumentIndex(lowered: string) {
    Contains(lowered, "document index")
  }

  predicate HasTemplatesGuidance(lowered: string) {
    Contains(lowered, "(templates/)") || Contains(lowered, "## templates")
  }

  predicate ContractOk(lowered: string) {
    HasAudience(lowered) && HasHowToUse(lowered) && HasDocumentIndex(lowered)
    && HasTemplatesGuidance(lowered)
  }

  /** The four independent checks over the lower-cased README. */
  function ContractVerdict(p: Path, audience: bool, howTo: bool, index: bool, templates: bool): (fs: seq<Failure>)
    ensures |fs| <= 4
    ensures Failure(AudienceSectionMissing, p, "") in fs <==> !audience
    ensures Failure(HowToUseSectionMissing, p, "") in fs <==> !howTo
    ensures Failure(DocumentIndexMissing, p, "") in fs <==> !index
    ensures Failure(TemplatesGuidanceMissing, p, "") in fs <==> !templates
    ensures |fs| == 0 <==> audience && howTo && index && templates
  {
    FailIf(!audience, Failure(AudienceSectionMissing, p, ""))
    + FailIf(!howTo, Failure(HowToUseSectionMissing, p, ""))
    + FailIf(!index, Failure(DocumentIndexMissing, p, ""))
    + FailIf(!templates, Failure(TemplatesGuidanceMissing, p, ""))
  }

  /** One README: the checks all read `content.lower()`. */
  function ContractFailures(p: Path, content: string): (fs: seq<Failure>)
    ensures |fs| <= 4
    ensures |fs| == 0 <==> ContractOk(Lower(content))
  {
    var lowered := Lower(content);
    ContractVerdict(p, HasAudience(lowered), HasHowToUse(lowered), HasDocumentIndex(lowered),
                    HasTemplatesGuidance(lowered))
  }

  function ContractStep(t: Tree, s: string): Outcome {
    WithFile(t, ReadmePath(s), (c: string) => ContractFailures(ReadmePath(s), c))
  }

  function ContractSteps(t: Tree): string -> Outcome {
    (s: string) => ContractStep(t, s)
  }

  /** `test_each_scaffold_readme_has_operator_sections`. */
  function ContractTest(t: Tree): (o: Outcome)
    ensures o.Errored? <==> exists s :: s in AllScaffolds && !IsFile(t, ReadmePath(s))
  {
    ForEach(AllScaffolds, ContractSteps(t))
  }

  predicate ReadmeMeetsContract(t: Tree, s: string) {
    IsFile(t, ReadmePath(s)) && ContractOk(Lower(t[ReadmePath(s)].content))
  }

  lemma ContractStepPasses(t: Tree, s: string)
    ensures Passed(ContractStep(t, s)) <==> ReadmeMeetsContract(t, s)
  {
  }

  /** The contract test passes exactly when every scaffold has a README
      meeting all four checks. */
  lemma ContractTestPasses(t: Tree)
    ensures Passed(ContractTest(t)) <==> forall s :: s in AllScaffolds ==> ReadmeMeetsContract(t, s)
  {
    forall s: string
      ensures Passed(ContractSteps(t)(s)) <==> ReadmeMeetsContract(t, s)
    {
      ContractStepPasses(t, s);
    }
    ForEachIff(AllScaffolds, ContractSteps(t), (s: string) => ReadmeMeetsContract(t, s));
  }

  /** A README written in any case is judged like its lower-cased copy. */
  lemma ContractOfLowered(p: Path, content: string)
    ensures ContractFailures(p, Lower(content)) == ContractFailures(p, content)
  {
    LowerIdempotent(content);
  }

  /** `Document Index` in any case, anywhere in the text (a sentence, not
      a heading), satisfies the index check. */
  lemma DocumentIndexAnywhere(pre: string, phrase: string, post: string)
    requires Lower(phrase) == "document index"
    ensures HasDocumentIndex(Lower(pre + phrase + post))
  {
    LowerConcat(pre + phrase, post);
    LowerConcat(pre, phrase);
    var low := Lower(pre) + "document index" + Lower(post);
    assert low[|pre|..|pre| + 14] == "document index";
    ContainsAt(low, "document index", |pre|);
  }

  /** Each check has its own failure: a README with none of the four
      sections gets all four failures, in the order of the checks. */
  lemma AllFourMissing(p: Path)
    ensures ContractFailures(p, "") == [
      Failure(AudienceSectionMissing, p, ""), Failure(HowToUseSectionMissing, p, ""),
      Failure(DocumentIndexMissing, p, ""), Failure(TemplatesGuidanceMissing, p, "")]
  {
    assert Lower("") == "";
    ShortNotContains("", "## when to use this scaffold");
    ShortNotContains("", "## who is this for?");
    ShortNotContains("", "## how to use this scaffold");
    ShortNotContains("", "document index");
    ShortNotContains("", "(templates/)");
    ShortNotContains("", "## templates");
  }
}
