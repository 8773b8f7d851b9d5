# Documentation-conformance rules of the scaffold repository

The scaffold repository holds nine process scaffolds. Each is a directory of
numbered Markdown guides, a README and a `templates/` directory. The
repository checks its own documentation with eleven unittest modules under
`tests/`; ten of them are modelled here. Each module is a small set of text and shape rules: links must
resolve, guides start with a matching H1, playbooks have enough prompt
sections, templates are actionable, and so on. This project models those
rules in Dafny and proves what each test actually accepts.

How the model is built:

- **Corpus** (`corpus.dfy`). The file system is an immutable map from
  root-relative paths (`seq<string>`) to entries `File(content) | Dir`.
  `read_text`, `is_file`, `is_dir` and `exists` are lookups in that map.
  The order in which `glob`/`rglob`/`iterdir` list entries is an input
  `walk`, constrained only to list every entry once (`IsWalk`). Every
  verdict is proved independent of that order.
- **Report** (`report.dfy`). A test method's verdict is an `Outcome`:
  `Ran(failures)` or `Errored(cause)`, where the error stands for a Python
  exception such as reading a missing file. There are two test styles:
  - collecting tests append one tagged `Failure` per violation (`ForEach`);
  - asserting tests stop at the first violation (`Assertions`).
- **Text** (`text.dfy`). Hand-written scanners with Python's meaning:
  `strip`, `lower`, `in`, non-overlapping `str.count`, `split`,
  `splitlines`, and leftmost digit runs.
- **Regular expressions.** Each one becomes a scanner with the same
  leftmost, non-overlapping semantics:
  - the lazy fence pattern and the inline link pattern (`links.dfy`);
  - the table-cell and backtick-path patterns (`integrity.dfy`);
  - the prompt-heading grammar and `{…}` placeholders (`prompts.dfy`);
  - `### N.` headings (`completeness.dfy`);
  - `--fail-under=(\d+)` (`ci_policy.dfy`).

  Each scanner comes with a soundness contract (every match has the
  pattern's shape) and a completeness lemma (every text of that shape is
  matched with exactly those groups).
- **One module per test file.** Each module proves a lemma of the form
  "the test passes exactly when …". It restates the test's verdict as a
  property of the tree, with no loops, orders or scanners. Some modules
  also carry lemmas that pin down edge behaviour of the source, such as
  shared table pipes, an odd fence count, or a blank first line.

## Model

| member | source | states |
|---|---|---|
| Corpus.Read | tests/test_links.py:35 | reading yields the content exactly when the path is a regular file; a missing path or a directory yields nothing (Python raises) |
| Corpus.MarkdownPaths | tests/test_links.py:11-18 | every selected path is in the walk, ends with `.md` and has no `.git`, `tests` or `.venv` component; every such walk entry is selected |
| Corpus.NormalizeIsPlain | tests/test_links.py:42 | resolving a relative target never yields an empty, `.` or `..` component, so the result is a path the tree can hold |
| Corpus.Resolve | tests/test_links.py:42 | an absolute target resolves to nothing; a single plain name resolves to that entry of the document's directory; `..` resolves to the parent, and to nothing at the corpus root |
| Corpus.ResolveRelative | tests/test_links.py:42 | a `/`-joined sequence of plain components resolves to exactly those components below the directory |
| Report.FailIf | tests/test_links.py:43-47 | a check contributes no failure when it holds and exactly the given failure when violated |
| Report.WithFile | tests/test_links.py:35 | a per-file step errors exactly when the path is not a regular file, and otherwise runs the check on the file's content |
| Report.ForEach | tests/test_links.py:34-51 | a collecting loop passes exactly when every iteration passes, and errors exactly when some iteration raises |
| Report.ForEachFailures | tests/test_links.py:32-51 | when no iteration raises, the failures are those of the iterations, in loop order |
| Report.Assertions | tests/test_structure.py:32-36 | an asserting loop reports at most one failure; it passes exactly when every item's check holds, and a failure it reports is the failure of the first failing item |
| Report.AssertionsIn | tests/test_structure.py:32-36 | an asserting loop passes exactly when the check holds for every member of the list, whatever its position |
| Report.AssertionsFirst | tests/test_structure.py:32-36 | when item i is the first that fails, the loop reports exactly item i's failure and nothing after it |
| Report.WalkForEach | tests/test_style.py:14-31 | a loop over the glob's selection from any listing order passes exactly when the body passes for every selected entry of the tree |
| Report.ForEachIff | tests/test_readme_contract.py:22-48 | a loop passes exactly when every item meets the property that characterises a passing iteration |
| Report.WalkCount | tests/test_prompt_template_semantics.py:71-73 | the number of entries a glob selects is the size of the selected set, whatever the listing order |
| Seqs.Filter | tests/test_links.py:12-18 | the selection keeps exactly the elements meeting the predicate, each with its multiplicity, and nothing else |
| Catalog.CatalogShape | tests/test_prompt_template_semantics.py:7-27 | there are nine scaffolds and eight playbook scaffolds, both without repeats; the playbook scaffolds are all scaffolds except `greenfield` |
| Text.Lower | tests/test_readme_contract.py:24 | lowering keeps the length and maps each character on its own (ASCII case) |
| Text.LowerIdempotent | tests/test_readme_contract.py:24 | lowering lowered text changes nothing |
| Text.LowerConcat | tests/test_process_integrity.py:55 | lowering distributes over concatenation |
| Text.LStrip | tests/test_process_integrity.py:57 | the result is a suffix, everything removed is whitespace, and it does not start with whitespace |
| Text.RStrip | tests/test_style.py:52 | the result is a prefix, everything removed is whitespace, and it does not end with whitespace |
| Text.Strip | tests/test_style.py:22-23 | the stripped text is the input with whitespace, and only whitespace, removed from both ends: it occurs in the input with nothing but whitespace before and after it, has no whitespace at either end, and is empty exactly when the input is all whitespace |
| Text.StripNoop | tests/test_style.py:22-23 | text with no whitespace at either end is left unchanged, whitespace inside it included |
| Text.ContainsIff | tests/test_readme_contract.py:26-32 | the substring scanner answers yes exactly when the pattern occurs at some position |
| Text.IndexOf | tests/test_links.py:8 | the reported index is an occurrence with no earlier one; none is reported only when there is no occurrence |
| Text.IndexOfNone | tests/test_links.py:8 | there is no leftmost occurrence exactly when the text does not contain the pattern |
| Text.Count | tests/test_prompt_template_semantics.py:45 | the non-overlapping count is bounded by the text's length |
| Text.CountZero | tests/test_scaffold_completeness.py:61-62 | the non-overlapping count is zero exactly when the pattern does not occur |
| Text.Find | tests/test_links.py:38 | the result is the position of the first occurrence of the character, or the length when there is none |
| Text.JoinSplit | tests/test_links.py:42 | splitting a target on `/` and joining it again gives the target back |
| Text.SplitJoin | tests/test_links.py:42 | joining components that contain no `/` and splitting again gives the components back |
| Text.FirstLine | tests/test_style.py:27 | the first line is a line-break-free prefix ending at the first line break; there is none only for empty text |
| Text.FirstLinePrefix | tests/test_style.py:27-28 | for a prefix without line breaks, the first line starts with it exactly when the whole text does |
| Text.StripKeepsPrefix | tests/test_style.py:52-53 | text that starts with a non-space prefix still starts with it after stripping |
| Text.DigitRun | tests/test_ci_policy.py:18 | the `\d+` group is the longest prefix of digits |
| Text.DigitRunOf | tests/test_ci_policy.py:18 | a digit run followed by a non-digit is captured exactly |
| Links.StripFences | tests/test_links.py:36 | stripping fenced blocks never lengthens the text and leaves fence-free text unchanged |
| Links.StripFencesPair | tests/test_links.py:8 | the first fence is paired with the nearest following one: the pair and everything between them go, the text before is kept, and stripping resumes after the pair |
| Links.OddFenceTailSurvives | tests/test_links.py:8 | with an odd number of fences, the last fence and everything after it survive stripping unchanged |
| Links.CountPair | tests/test_links.py:8 | each stripped pair accounts for exactly two fence occurrences |
| Links.MatchLinkAt | tests/test_links.py:7 | a match at the front is `[caption](target)` with a caption free of `]` and a non-empty target free of `)`, and its length is the text it covers |
| Links.MatchLinkAtComplete | tests/test_links.py:7 | every `[caption](target)` of that shape at the front is matched, with exactly that target and length |
| Links.Links | tests/test_links.py:37 | every extracted target is non-empty and contains no `)` |
| Links.LinkTargetsOccur | tests/test_links.py:37 | every extracted target occurs in the text as `](target)` |
| Links.LinksNone | tests/test_links.py:7 | text without `[` yields no links |
| Links.LinksAfterPlain | tests/test_links.py:37 | after text without `[`, the next inline link is found with its target and scanning resumes after it |
| Links.LinksSkipPlain | tests/test_links.py:37 | text without `[` contributes no link and leaves the extraction of what follows unchanged |
| Links.UnlinkedBracket | tests/test_links.py:37 | a bracket pair not followed by `(`, such as a task-list box `[ ]` or a reference label, is no link: extraction continues with what follows it |
| Links.BracketNoLink | tests/test_links.py:37 | no match starts at a `[` whose closing `]` is not followed by `(` |
| Links.BeforeFragment | tests/test_links.py:38 | the kept part is the prefix before the first `#` and contains no `#` |
| Links.LinkPath | tests/test_links.py:38 | the path of a target is the stripped text before its first `#`, or the whole stripped target when it has none; it contains no `#`, and a bare anchor reduces to the empty path |
| Links.ShouldValidate | tests/test_links.py:21-27 | a target is validated exactly when it is not all whitespace and its stripped form starts with none of `http://`, `https://`, `mailto:` and `#` |
| Links.BrokenTargets | tests/test_links.py:39-43 | the broken targets are exactly the validated targets that do not resolve, each with its multiplicity |
| Links.FileLinkFailures | tests/test_links.py:37-47 | a document yields exactly one failure per broken target occurrence, in order, quoting the raw target |
| Links.LinkTest | tests/test_links.py:31-51 | the link test raises exactly when some checked Markdown entry of the walk is not a readable file |
| Links.LinkTestPasses | tests/test_links.py:31-51 | the link test passes exactly when every checked Markdown document is a readable file and each of its validated link paths resolves to an existing entry |
| Links.SiblingLinkBroken | tests/test_links.py:42-43 | a link to a plain name is broken exactly when the document's directory has no entry of that name |
| Style.ExpectedPrefix | tests/test_style.py:51 | the expected prefix is `# ` and the two digits: four characters, no line break, no whitespace at either end |
| Style.H1Failures | tests/test_style.py:22-31 | a blank document gets exactly the empty-document failure; otherwise there is at most one failure, present exactly when the stripped text does not start with `# ` |
| Style.PrefixCheck | tests/test_style.py:51-56 | the check errors exactly on a file with no first line; otherwise it fails exactly when the stripped raw first line does not start with the expected prefix |
| Style.NumberedPaths | tests/test_style.py:39-49 | exactly the walk entries that are checked documents with a numbered name are prefix-checked |
| Style.H1Test | tests/test_style.py:11-34 | the H1 test raises exactly when some checked Markdown entry of the walk is not a readable file |
| Style.H1TestPasses | tests/test_style.py:11-34 | the H1 test passes exactly when every checked Markdown document is a file whose stripped text starts with `# ` |
| Style.PrefixTest | tests/test_style.py:36-59 | the prefix test raises exactly when some checked numbered guide of the walk is not a readable file or is empty, so that it has no first line |
| Style.PrefixTestPasses | tests/test_style.py:36-59 | the prefix test passes exactly when every checked numbered guide is a non-empty file whose stripped first raw line starts with `# NN` |
| Style.PrefixOnly | tests/test_style.py:53 | the prefix check is prefix-only: `# 012` satisfies guide `01` |
| Style.LeadingBlankLine | tests/test_style.py:22-53 | a guide that starts with a blank line passes the H1 rule but fails the prefix rule, because one strips the whole text and the other reads the raw first line |
| PromptSemantics.PromptHeadings | tests/test_prompt_template_semantics.py:29-32 | the headings found are exactly the lines in one of the three heading forms, each as many times as it occurs as a line |
| PromptSemantics.HeadingCountLine | tests/test_prompt_template_semantics.py:29-32 | a single line counts once when it is in one of the heading forms and not at all otherwise |
| PromptSemantics.HeadingCountSplits | tests/test_prompt_template_semantics.py:44 | the heading count is additive over lines: two texts joined by a line break have the sum of their counts |
| PromptSemantics.TrailingFormCounts | tests/test_prompt_template_semantics.py:30 | an `## ` line ending in `Prompt` and trailing whitespace counts as a heading |
| PromptSemantics.ColonRequired | tests/test_prompt_template_semantics.py:30 | `### Prompt` without a colon does not count |
| PromptSemantics.PluralNotCounted | tests/test_prompt_template_semantics.py:30 | `## Prompts` does not count |
| PromptSemantics.WordMustEnd | tests/test_prompt_template_semantics.py:30 | in the numbered form the word `Prompt` must be followed by whitespace, so `## Prompts 1:` is not a numbered heading |
| PromptSemantics.BlockPairs | tests/test_prompt_template_semantics.py:45-46 | each pair of fences adds exactly one code-block pair |
| PromptSemantics.PlaybookVerdict | tests/test_prompt_template_semantics.py:48-61 | the three checks are independent: each failure is present exactly when its own condition fails, at most three in all, and none exactly when all hold |
| PromptSemantics.PlaybookFailures | tests/test_prompt_template_semantics.py:44-61 | a playbook has no failures exactly when it has at least 5 prompt headings, at least as many fence pairs as headings, and a task marker |
| PromptSemantics.PassingPlaybookHasFences | tests/test_prompt_template_semantics.py:45-56 | a passing playbook holds at least ten fences |
| PromptSemantics.PlaybookStepPasses | tests/test_prompt_template_semantics.py:40-61 | one playbook passes exactly when it is a readable file that meets the three checks |
| PromptSemantics.PlaybookTest | tests/test_prompt_template_semantics.py:37-64 | the playbook test raises exactly when the playbook of one of the eight playbook scaffolds is not a readable file |
| PromptSemantics.PlaybookTestPasses | tests/test_prompt_template_semantics.py:37-64 | the playbook test passes exactly when every one of the eight playbook scaffolds has such a playbook |
| PromptSemantics.GreenfieldPlaybookIgnored | tests/test_prompt_template_semantics.py:7-16 | whatever sits at `greenfield/07-agent-prompts.md` does not change the playbook test |
| PromptSemantics.BodyRun | tests/test_prompt_template_semantics.py:33 | the placeholder body is the longest run of characters other than braces and newline |
| PromptSemantics.HasPlaceholderIff | tests/test_prompt_template_semantics.py:33 | the placeholder scanner answers yes exactly when some `{`, one or more body characters, `}` span occurs |
| PromptSemantics.MarkdownTemplates | tests/test_prompt_template_semantics.py:71 | every selected template is a `*.md.template` entry directly in that scaffold's templates directory |
| PromptSemantics.TemplateCount | tests/test_prompt_template_semantics.py:71-73 | the number of selected templates is the number of such entries in the tree, whatever the listing order |
| PromptSemantics.TemplateFailures | tests/test_prompt_template_semantics.py:80-95 | a template without an H1 gets only that failure; a template passes exactly when its stripped text starts with `# ` and it is actionable |
| PromptSemantics.TemplateStepPasses | tests/test_prompt_template_semantics.py:79-95 | one template passes exactly when it is a readable file with an H1 that is actionable |
| PromptSemantics.ScaffoldTemplates | tests/test_prompt_template_semantics.py:73-95 | fewer than 4 templates give exactly one failure and no per-file check; otherwise every template is checked, and the scaffold raises exactly when one of them is not a readable file |
| PromptSemantics.ScaffoldTemplatesPass | tests/test_prompt_template_semantics.py:69-95 | one scaffold passes exactly when it has at least 4 templates and each is a readable, actionable file with an H1 |
| PromptSemantics.TemplatesTest | tests/test_prompt_template_semantics.py:66-98 | the templates test raises exactly when some scaffold has at least 4 Markdown templates and one of them is not a readable file |
| PromptSemantics.TemplatesTestPasses | tests/test_prompt_template_semantics.py:66-98 | the templates test passes exactly when every scaffold's templates directory holds at least 4 Markdown templates, each a file with an H1 that is actionable |
| ProcessIntegrity.MatchTableAt | tests/test_process_integrity.py:19 | a match at the front is a well-formed cell: pipe, spaces, `[caption](target)` with a non-empty caption and target, spaces, pipe |
| ProcessIntegrity.MatchTableAtComplete | tests/test_process_integrity.py:19 | every well-formed cell at the front is matched, with exactly its parts |
| ProcessIntegrity.TableLinks | tests/test_process_integrity.py:31 | the number of table links is at most half the text's length |
| ProcessIntegrity.TableLinksTargets | tests/test_process_integrity.py:19 | every extracted table target is non-empty and contains no `)` |
| ProcessIntegrity.TableLinksAfterCell | tests/test_process_integrity.py:31 | a cell at the front contributes its target, and scanning resumes after its closing pipe |
| ProcessIntegrity.TableLinksNoMatch | tests/test_process_integrity.py:31 | where no cell starts, the scan moves on by one character |
| ProcessIntegrity.TableLinksSkipPlain | tests/test_process_integrity.py:31 | text without a pipe contributes no link and leaves the extraction of what follows unchanged |
| ProcessIntegrity.PipeWithoutLink | tests/test_process_integrity.py:19 | a pipe not followed, after whitespace, by `[` (a header or plain cell) starts no link: the scan resumes right after it |
| ProcessIntegrity.NoCellBeforeLastPipe | tests/test_process_integrity.py:19 | a closing pipe alone yields no cell: text without a pipe, followed by one pipe, gives no links |
| ProcessIntegrity.SeparateCells | tests/test_process_integrity.py:31 | two cells with their own pipes both count |
| ProcessIntegrity.SharedPipe | tests/test_process_integrity.py:19-31 | of two adjacent cells sharing one pipe, only the first is found |
| ProcessIntegrity.BrokenTableLinks | tests/test_process_integrity.py:38-41 | the broken links are exactly the raw links whose part before `#` (not stripped) does not resolve, each with its multiplicity |
| ProcessIntegrity.TableLinkFailures | tests/test_process_integrity.py:31-44 | fewer than 10 links give exactly one failure and no resolution; otherwise one failure per broken link, quoting the raw link |
| ProcessIntegrity.BrokenLinkFailures | tests/test_process_integrity.py:40-44 | broken links map one to one, in order, to failures quoting the raw link |
| ProcessIntegrity.ReadmeStepPasses | tests/test_process_integrity.py:27-44 | one README passes exactly when it is a readable file with at least 10 table links, each resolving |
| ProcessIntegrity.ReadmeIndexTest | tests/test_process_integrity.py:24-47 | the README index test raises exactly when some scaffold README is not a readable file |
| ProcessIntegrity.ReadmeIndexTestPasses | tests/test_process_integrity.py:24-47 | the README index test passes exactly when every scaffold README passes that check |
| ProcessIntegrity.AnchoredSiblingResolves | tests/test_process_integrity.py:39-41 | a link to an existing sibling with an anchor resolves: the anchor is dropped |
| ProcessIntegrity.PlainRun | tests/test_process_integrity.py:20 | the head of a path reference is the longest run of characters other than backtick and separators |
| ProcessIntegrity.MatchRefAt | tests/test_process_integrity.py:20 | a match at the front is a backtick, a head free of separators and backticks, a separator, a non-empty tail free of backticks, and a backtick |
| ProcessIntegrity.MatchRefAtComplete | tests/test_process_integrity.py:20 | every such reference at the front is matched with exactly its parts |
| ProcessIntegrity.PathRefCount | tests/test_process_integrity.py:83 | the reference count is bounded by the text's length |
| ProcessIntegrity.RefAfterRef | tests/test_process_integrity.py:83 | a reference at the front counts one, and counting resumes after its closing backtick |
| ProcessIntegrity.DuplicateRefsCountTwice | tests/test_process_integrity.py:83-84 | the same reference written twice counts twice and meets the minimum of 2 |
| ProcessIntegrity.NoBacktickNoRefs | tests/test_process_integrity.py:20 | text without a backtick holds no references |
| ProcessIntegrity.RefCountNoMatch | tests/test_process_integrity.py:83 | where no reference starts, counting moves on by one character |
| ProcessIntegrity.RefCountSkipPlain | tests/test_process_integrity.py:83 | text without a backtick adds nothing and leaves the count of what follows unchanged |
| ProcessIntegrity.BacktickWordNoRef | tests/test_process_integrity.py:20 | a backticked word without `/` or `\` is no reference, and its closing backtick is then tried as an opening one |
| ProcessIntegrity.AgentsVerdict | tests/test_process_integrity.py:57-87 | the four checks are independent: each failure is present exactly when its own condition fails, at most four in all, and none exactly when all hold |
| ProcessIntegrity.AgentsFailures | tests/test_process_integrity.py:55-87 | an AGENTS template has no failures exactly when it starts with `# AGENTS.md` after leading whitespace, has a mission or phase section, has a source-navigation phrase and holds at least 2 path references |
| ProcessIntegrity.AgentsStepPasses | tests/test_process_integrity.py:53-87 | one AGENTS template passes exactly when it is a readable file meeting the four checks |
| ProcessIntegrity.AgentsTest | tests/test_process_integrity.py:49-90 | the AGENTS test raises exactly when some scaffold's AGENTS template is not a readable file |
| ProcessIntegrity.AgentsTestPasses | tests/test_process_integrity.py:49-90 | the AGENTS test passes exactly when every scaffold's AGENTS template does |
| ProcessIntegrity.MissionAnyCase | tests/test_process_integrity.py:55-66 | `## Mission` in any case, anywhere, satisfies the mission check |
| ProcessIntegrity.SectionsOfLowered | tests/test_process_integrity.py:55-81 | the mission and navigation checks give an AGENTS file and its lower-cased copy the same answer |
| ProcessIntegrity.HeadingCaseSensitive | tests/test_process_integrity.py:57 | the heading check is case-sensitive: a lower-cased `# agents.md` is not accepted |
| ProcessIntegrity.HeadingAfterBlankLines | tests/test_process_integrity.py:57 | the heading check tolerates leading whitespace before `# AGENTS.md` |
| Completeness.GuideNames | tests/test_scaffold_completeness.py:31-35 | the guide names are exactly the numbered `.md` names directly in the scaffold directory, without repeats |
| Completeness.GuideFailures | tests/test_scaffold_completeness.py:37-42 | each guide whose literal `[name](name)` is absent from the README gets exactly one failure, and none is reported otherwise, so there are at most as many failures as guides |
| Completeness.IndexFailures | tests/test_scaffold_completeness.py:37-48 | the templates-index failure is present exactly when the index is missing; no failures exactly when every guide is linked and the index is present |
| Completeness.IndexStepPasses | tests/test_scaffold_completeness.py:26-48 | one README passes exactly when it is a readable file linking every numbered guide of its scaffold and holding a templates index |
| Completeness.IndexTest | tests/test_scaffold_completeness.py:23-51 | the index test raises exactly when some scaffold README is not a readable file |
| Completeness.IndexTestPasses | tests/test_scaffold_completeness.py:23-51 | the index test passes exactly when every scaffold README does |
| Completeness.TemplatesIndexForms | tests/test_scaffold_completeness.py:44-47 | the literal `[templates/](templates/)` anywhere, or a `## templates` heading in any case together with `(templates/`, satisfies the templates index |
| Completeness.NumberedSections | tests/test_scaffold_completeness.py:63 | numbered sections are counted at most once per line |
| Completeness.NumberedSectionsSplit | tests/test_scaffold_completeness.py:63 | the section count is additive over lines: two texts joined by a line break have the sum of their counts |
| Completeness.NumberedSectionLine | tests/test_scaffold_completeness.py:63 | a single line counts once when it is a `###` heading followed by a number and a dot, and not at all otherwise |
| Completeness.DepthVerdict | tests/test_scaffold_completeness.py:65-68 | at most one failure, quoting the three counts, present exactly when all three thresholds are missed |
| Completeness.DepthFailures | tests/test_scaffold_completeness.py:59-68 | an overview gets at most one depth failure |
| Completeness.DepthPasses | tests/test_scaffold_completeness.py:59-68 | an overview passes exactly when it mentions `phase` at least 3 times, or `lifecycle` at least once, or has at least 4 numbered sections |
| Completeness.DepthTest | tests/test_scaffold_completeness.py:53-71 | the depth test raises exactly when some scaffold's process overview is not a readable file |
| Completeness.DepthTestPasses | tests/test_scaffold_completeness.py:53-71 | the depth test passes exactly when every scaffold's process overview is a readable file deep enough by that rule |
| Completeness.NumberedSectionIntro | tests/test_scaffold_completeness.py:63 | `###`, whitespace, digits and a dot at the start of a line make a numbered section |
| Completeness.NumberedSectionShape | tests/test_scaffold_completeness.py:63 | every numbered section line has exactly that shape |
| Completeness.DeeperHeadingNotCounted | tests/test_scaffold_completeness.py:63 | a `####` heading is never a numbered section |
| Completeness.MentionsOfLowered | tests/test_scaffold_completeness.py:59-62 | an overview and its lower-cased copy have the same `phase` and `lifecycle` counts |
| ReadmeContract.ContractVerdict | tests/test_readme_contract.py:26-45 | the four checks are independent: each failure is present exactly when its own check fails, at most four in all, and none exactly when all hold |
| ReadmeContract.ContractFailures | tests/test_readme_contract.py:24-45 | a README has no failures exactly when its lowered text has an audience heading, a how-to-use heading, `document index` and templates guidance |
| ReadmeContract.ContractStepPasses | tests/test_readme_contract.py:22-45 | one README passes exactly when it is a readable file meeting the contract |
| ReadmeContract.ContractTest | tests/test_readme_contract.py:20-48 | the contract test raises exactly when some scaffold README is not a readable file |
| ReadmeContract.ContractTestPasses | tests/test_readme_contract.py:20-48 | the contract test passes exactly when every scaffold README does |
| ReadmeContract.ContractOfLowered | tests/test_readme_contract.py:24 | a README is judged like its lowered copy |
| ReadmeContract.DocumentIndexAnywhere | tests/test_readme_contract.py:39 | `document index` in any case and anywhere in the text satisfies the index check |
| ReadmeContract.AllFourMissing | tests/test_readme_contract.py:26-45 | an empty README gets all four failures, in the order of the checks |
| Templates.EntryFailures | tests/test_templates.py:16-24 | a directory entry gets exactly the directory failure; any other entry fails, once, exactly when its name lacks `.template` |
| Templates.DirStepPasses | tests/test_templates.py:15-24 | one templates directory passes exactly when each of its direct entries is a non-directory whose name ends with `.template` |
| Templates.SuffixTest | tests/test_templates.py:9-27 | the suffix test never raises: it looks at names and entry kinds only and reads no file |
| Templates.SuffixTestPasses | tests/test_templates.py:9-27 | the suffix test passes exactly when every direct entry of every top-level `templates` directory is such an entry |
| Templates.EmptyFailures | tests/test_templates.py:33-35 | a template gets at most one failure, present exactly when it has no non-whitespace character |
| Templates.EmptyTest | tests/test_templates.py:29-38 | the emptiness test raises exactly when some `*.md.template` entry of the walk is not a readable file, a directory with that suffix included |
| Templates.EmptyTestPasses | tests/test_templates.py:29-38 | the emptiness test passes exactly when every `*.md.template` entry anywhere is a file with a non-whitespace character |
| Templates.OtherTemplatesNotChecked | tests/test_templates.py:32 | a `.template` file that is not `.md.template` is never checked for emptiness |
| Structure.DirsTest | tests/test_structure.py:31-36 | the directory test passes exactly when every scaffold is a directory |
| Structure.FirstMissingDirReported | tests/test_structure.py:32-36 | only the first missing scaffold directory is reported |
| Structure.TopLevelCheck | tests/test_structure.py:39-48 | a scaffold passes exactly when its README is a regular file and `templates` a directory; a missing README is reported first |
| Structure.TopLevelTest | tests/test_structure.py:38-48 | the top-level test passes exactly when every scaffold has both |
| Structure.AgentsTemplateTest | tests/test_structure.py:62-68 | the AGENTS test passes exactly when every scaffold's `templates/AGENTS.md.template` is a regular file |
| Structure.MarkdownNames | tests/test_structure.py:53 | the names are exactly those of the `.md` entries directly in the scaffold, and none when the scaffold is not a directory |
| Structure.GuideCheck | tests/test_structure.py:55-60 | a scaffold passes exactly when every required guide is present |
| Structure.RequiredShape | tests/test_structure.py:17-27 | guides 00 and 01 are required by name and the numbers 02 to 08 by prefix |
| Structure.NumberedMet | tests/test_structure.py:58-60 | requirement k is met exactly when some `.md` entry of the scaffold starts with `0k-` |
| Structure.RequirementsMeanGuides | tests/test_structure.py:50-60 | the requirement list is met exactly when the scaffold holds `00-philosophy.md`, `01-process-overview.md` and a `0k-` guide for each k from 2 to 8 |
| Structure.GuidesTest | tests/test_structure.py:50-60 | the guides test never raises and reports at most one failure, the first scaffold that lacks its guides |
| Structure.GuidesTestPasses | tests/test_structure.py:50-60 | the guides test passes exactly when every scaffold holds those guides |
| Structure.AnyTitleCounts | tests/test_structure.py:58-60 | any title after the number satisfies a numbered requirement |
| Structure.FirstGuidesByName | tests/test_structure.py:55-56 | guide 00 under another name does not meet its requirement |
| CrossRefs.StartCheck | tests/test_cross_refs.py:34-39 | a scaffold passes exactly when the root README has its literal README link and that README exists |
| CrossRefs.EntriesTest | tests/test_cross_refs.py:22-29 | the listing test raises exactly when the root README is not a readable file, and otherwise reports at most one failure |
| CrossRefs.EntriesTestPasses | tests/test_cross_refs.py:22-29 | the listing test passes exactly when the root README is a file holding the literal table entry of every scaffold, in any visiting order |
| CrossRefs.StartLinksTest | tests/test_cross_refs.py:31-39 | the start-here test raises exactly when the root README is not a readable file, and otherwise reports at most one failure |
| CrossRefs.StartLinksTestPasses | tests/test_cross_refs.py:31-39 | the start-here test passes exactly when the root README links every scaffold README and each exists |
| CrossRefs.OrderIrrelevant | tests/test_cross_refs.py:8-18 | both tests give the same verdict for any two orders of visiting the set |
| CrossRefs.DirectoryReadmeCounts | tests/test_cross_refs.py:36-39 | a scaffold README that is a directory still passes, because only existence is asked |
| CiPolicy.DecimalValue | tests/test_ci_policy.py:21 | `int()` of a digit run; a numeral with a non-zero leading digit has a value of at least that digit, so it is positive |
| CiPolicy.Numeral | tests/test_ci_policy.py:21 | the reference inverse of `int()`: the shortest numeral of a number is a non-empty digit string |
| CiPolicy.NumeralRoundTrip | tests/test_ci_policy.py:21 | reading back the numeral of a number gives the number |
| CiPolicy.CanonicalRoundTrip | tests/test_ci_policy.py:21 | a digit run without leading zeros is the numeral of its value: `int()` is one-to-one on such numerals |
| CiPolicy.LeadingZero | tests/test_ci_policy.py:21 | a leading zero does not change the value |
| CiPolicy.BoundaryValues | tests/test_ci_policy.py:21-26 | `75`, `80`, `85` and `080` read as 75, 80, 85 and 80 |
| CiPolicy.FloorFrom | tests/test_ci_policy.py:18 | the search finds the leftmost `--fail-under=` followed by a digit at or after the start position, or reports that there is none |
| CiPolicy.Floor | tests/test_ci_policy.py:18-19 | there is no floor exactly when no `--fail-under=` is followed by a digit |
| CiPolicy.FloorIsFirst | tests/test_ci_policy.py:18 | the floor is the value at the leftmost match |
| CiPolicy.FirstOptionDecides | tests/test_ci_policy.py:18-21 | only the first option counts: whatever follows, including a later and higher floor, the first value decides |
| CiPolicy.WorkflowFailures | tests/test_ci_policy.py:14-26 | at most one failure; none exactly when the three tokens are present and the floor exists and is at least 80 |
| CiPolicy.WorkflowTest | tests/test_ci_policy.py:11-26 | the CI test raises exactly when the workflow file is not a readable file |
| CiPolicy.WorkflowTestPasses | tests/test_ci_policy.py:11-26 | the CI test passes exactly when the workflow file exists, holds the three tokens, and the leftmost floor is at least 80 |
| CiPolicy.LowFloorReported | tests/test_ci_policy.py:22-26 | with the tokens present, a floor below 80 is the only failure and it quotes the floor |

## Left out

- `tests/test_self_application_tracking.py` is not part of this model. It only probes a fixed list of paths with `is_file`.
- Failure message text is not modelled. Each failure is a tag (`Kind`) carrying the rule, the subject path and the quoted detail, plus any counts the message prints.
- Ordering:
  - The `sorted()` calls in the template and index tests are not modelled; the model keeps the listing order. Every verdict is proved independent of that order, and only the order of the failures would differ.
  - The order in which `test_cross_refs.py` visits its set is an input.
- `Path.resolve()` is modelled lexically: `.` and empty components are dropped and `..` goes up one level. Symlinks are not followed. An absolute target, or one that climbs above the corpus root, counts as not resolving, where Python would look outside the repository.
- Unicode digits and case are not modelled: `\d` means an ASCII digit and `str.lower()` lowers ASCII letters only. Whitespace (`\s`, `strip()`) and line breaks (`splitlines()`) use Python's full sets.
- Regular-expression matches in which `\s+` crosses a line break (a bare `##` line followed by a `… Prompt` line) are not modelled. Prompt headings and `### N.` sections are matched line by line.
- UTF-8 decoding errors are not modelled; every file is text.
- A file's content is the text `read_text()` returns: decoded, with `\r\n` and lone `\r` already translated to `\n`. Raw line endings are not modelled, so `Lines` splits only on `\n`.
- In the template-suffix test, failures are grouped per templates directory, as in the source. Only the order of the directories, and of the entries within each one, comes from the walk rather than from `glob` and `iterdir`.
- Corpus.Excluded: the `.git`, `tests` and `.venv` components are looked for in the path relative to the repository root. The tests look at every component of the absolute path, so a checkout below a directory with one of those names would exclude every document. The model assumes that no ancestor of the repository root has such a name.
- Documented rules versus code. Where the documented rule and the tests differ, the model follows the tests:
  - Duplicate backtick path references are counted twice; the documented rule asks for two *distinct* paths.
  - Guide coverage looks for the literal `[name](name)`, not any link whose target is the guide.
  - With an odd fence count, the last fence and its tail are still scanned for links.
  - When a scaffold is not a directory, its `glob("*.md")` yields nothing, so every guide requirement fails.
- ProcessIntegrity.TableLinks: the contract bounds only the length. What the extracted links are, on every input, is stated by TableLinksAfterCell (with MatchTableAtComplete), TableLinksNoMatch, TableLinksSkipPlain and PipeWithoutLink.
- ProcessIntegrity.PathRefCount: the contract bounds only the count. Its meaning, on every input, is stated by RefAfterRef (with MatchRefAtComplete), RefCountNoMatch, RefCountSkipPlain, BacktickWordNoRef and NoBacktickNoRefs.
- Text.Count: the contract bounds only the count. Its meaning is stated by CountZero and by the fence-counting lemmas Links.CountPair and PromptSemantics.BlockPairs.
- Completeness.DepthFailures: the contract bounds only the count. Its meaning is stated by Completeness.DepthPasses.
- Completeness.NumberedSections: the contract bounds only the count. Which lines it counts is stated by NumberedSectionsSplit and NumberedSectionLine.
- Links.Links: the contract states only the shape of each target. Which targets are extracted is stated by LinksNone, LinksSkipPlain, LinksAfterPlain and UnlinkedBracket.
