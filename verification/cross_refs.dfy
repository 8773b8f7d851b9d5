/** Root README cross references (tests/test_cross_refs.py): the root
    README lists every scaffold and links every scaffold README, and each
    linked README exists. The expected names form a set, so the test
    visits them in an unspecified order; that order is an input here. */
module CrossRefs {
  import opened Text
  import opened Seqs
  import opened Corpus
  import opened Report
  import opened Catalog

  const RootReadme: Path := ["README.md"]

  /** `order` visits every expected scaffold exactly once. */
  predicate IsSetOrder(order: seq<string>) {
    && Distinct(order)
    && (forall s :: s in order ==> s in AllScaffolds)
    && (forall s :: s in AllScaffolds ==> s in order)
  }

  /** `[s/](s/)`, matched exactly and case-sensitively. */
  function TableEntry(s: string): string {
    "[" + s + "/](" + s + "/)"
  }

  /** `[s/README.md](s/README.md)`. */
  function StartLink(s: string): string {
    "[" + s + "/README.md](" + s + "/README.md)"
  }

  function EntryCheck(content: string, s: string): Option<Failure> {
    if Contains(content, TableEntry(s)) then None
    else Some(Failure(RootTableEntryMissing, RootReadme, TableEntry(s)))
  }

  /** The link is asserted before the README's existence. */
  function StartCheck(t: Tree, content: string, s: string): (r: Option<Failure>)
    ensures r.None? <==> Contains(content, StartLink(s)) && Exists(t, ReadmePath(s))
  {
    if !Contains(content, StartLink(s)) then
      Some(Failure(RootReadmeLinkMissing, RootReadme, StartLink(s)))
    else if !Exists(t, ReadmePath(s)) then
      Some(Failure(ScaffoldReadmeMissing, ReadmePath(s), ""))
    else None
  }

  /** `test_root_readme_lists_all_scaffolds`. */
  function EntriesTest(t: Tree, order: seq<string>): (o: Outcome)
    ensures o.Errored? <==> !IsFile(t, RootReadme)
    ensures o.Ran? ==> |o.failures| <= 1
  {
    match Read(t, RootReadme)
    case None => Unreadable(RootReadme)
    case Some(content) => Assertions(order, (s: string) => EntryCheck(content, s))
  }

  /** `test_root_readme_start_here_links_exist`. */
  function StartLinksTest(t: Tree, order: seq<string>): (o: Outcome)
    ensures o.Errored? <==> !IsFile(t, RootReadme)
    ensures o.Ran? ==> |o.failures| <= 1
  {
    match Read(t, RootReadme)
    case None => Unreadable(RootReadme)
    case Some(content) => Assertions(order, (s: string) => StartCheck(t, content, s))
  }

  predicate ListsAll(t: Tree) {
    IsFile(t, RootReadme)
    && forall s :: s in AllScaffolds ==> Contains(t[RootReadme].content, TableEntry(s))
  }

  predicate LinksAll(t: Tree) {
    IsFile(t, RootReadme)
    && forall s :: s in AllScaffolds ==>
         Contains(t[RootReadme].content, StartLink(s)) && Exists(t, ReadmePath(s))
  }

  /** The listing test passes exactly when the root README has the table
      entry of every scaffold, in whatever order the set is visited. */
  lemma EntriesTestPasses(t: Tree, order: seq<string>)
    requires IsSetOrder(order)
    ensures Passed(EntriesTest(t, order)) <==> ListsAll(t)
  {
    if IsFile(t, RootReadme) {
      var content := t[RootReadme].content;
      AssertionsIn(order, (s: string) => EntryCheck(content, s));
    }
  }

  /** The start-here test passes exactly when the root README links every
      scaffold README and every one of them exists. */
  lemma StartLinksTestPasses(t: Tree, order: seq<string>)
    requires IsSetOrder(order)
    ensures Passed(StartLinksTest(t, order)) <==> LinksAll(t)
  {
    if IsFile(t, RootReadme) {
      var content := t[RootReadme].content;
      AssertionsIn(order, (s: string) => StartCheck(t, content, s));
    }
  }

  /** The verdict does not depend on the order the set is visited in. */
  lemma OrderIrrelevant(t: Tree, o1: seq<string>, o2: seq<string>)
    requires IsSetOrder(o1) && IsSetOrder(o2)
    ensures Passed(EntriesTest(t, o1)) == Passed(EntriesTest(t, o2))
    ensures Passed(StartLinksTest(t, o1)) == Passed(StartLinksTest(t, o2))
  {
    EntriesTestPasses(t, o1);
    EntriesTestPasses(t, o2);
    StartLinksTestPasses(t, o1);
    StartLinksTestPasses(t, o2);
  }

  /** A scaffold README that is a directory still counts: the test asks
      only that the path exists. */
  lemma DirectoryReadmeCounts(t: Tree, s: string)
    requires ReadmePath(s) in t && t[ReadmePath(s)] == Dir
    requires IsFile(t, RootReadme) && Contains(t[RootReadme].content, StartLink(s))
    ensures StartCheck(t, t[RootReadme].content, s).None?
  {
  }
}
