/** The scaffold names the test modules hard-code. */
module Catalog {
  import opened Seqs
  import opened Corpus

  /** Every scaffold, in the order the modules list them. */
  const AllScaffolds: seq<string> := [
    "greenfield", "repo-documentation", "refactoring", "feature-addition",
    "bug-investigation", "testing-retrofit", "migration", "incident-response",
    "spike"
  ]

  /** The scaffolds that ship a prompt playbook (all but greenfield, with
      migration listed before testing-retrofit). */
  const PromptScaffolds: seq<string> := [
    "repo-documentation", "refactoring", "feature-addition",
    "bug-investigation", "migration", "testing-retrofit", "incident-response",
    "spike"
  ]

  /** The prompt scaffolds are exactly the scaffolds other than greenfield,
      and neither list repeats a name. */
  lemma CatalogShape()
    ensures |AllScaffolds| == 9 && |PromptScaffolds| == 8
    ensures Distinct(AllScaffolds) && Distinct(PromptScaffolds)
    ensures forall s :: s in PromptScaffolds <==> s in AllScaffolds && s != "greenfield"
  {
  }

  /** `ROOT / scaffold / "README.md"`. */
  function ReadmePath(s: string): Path {
    [s, "README.md"]
  }

  /** `ROOT / scaffold / "templates" / "AGENTS.md.template"`. */
  function AgentsPath(s: string): Path {
    [s, "templates", "AGENTS.md.template"]
  }
}
