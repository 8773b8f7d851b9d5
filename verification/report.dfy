/** Violations and how a test method turns them into its verdict.

    A collecting test appends one failure per violation and fails at the
    end when the list is non-empty; an asserting test stops at its first
    violation; an exception (reading a missing file, indexing an empty
    line list) ends the test as an error and loses what was collected. */
module Report {
  import opened Text
  import opened Seqs
  import opened Corpus

  /** One tag per failure message of the test modules; counts that the
      message prints are kept as fields. */
  datatype Kind =
    // links
    | BrokenLink
    // style
    | EmptyDocument | FirstLineNotH1 | NumberPrefixMismatch
    // prompt playbooks and markdown templates
    | TooFewPromptSections(found: nat)
    | FewerCodeBlocksThanPrompts(pairs: nat, prompts: nat)
    | NoTaskInstructions
    | TooFewMarkdownTemplates(found: nat)
    | TemplateWithoutH1 | TemplateNotActionable
    // process integrity
    | TooFewTableLinks(found: nat) | BrokenTableLink
    | AgentsHeadingMissing | MissionSectionMissing | SourceNavigationMissing
    | TooFewPathReferences(found: nat)
    // scaffold completeness
    | GuideNotIndexed | TemplatesIndexMissing
    | ShallowProcessOverview(phase: nat, lifecycle: nat, numbered: nat)
    // README contract
    | AudienceSectionMissing | HowToUseSectionMissing
    | DocumentIndexMissing | TemplatesGuidanceMissing
    // template hygiene
    | TemplateEntryIsDirectory | TemplateSuffixMissing | TemplateEmpty
    // structure
    | ScaffoldDirectoryMissing | ReadmeMissing | TemplatesDirectoryMissing
    | GuideMissing | AgentsTemplateMissing
    // root cross references
    | RootTableEntryMissing | RootReadmeLinkMissing | ScaffoldReadmeMissing
    // CI policy
    | WorkflowTokenMissing | CoverageFloorMissing | CoverageFloorTooLow(floor: nat)
    // exceptions
    | ReadError | NoFirstLine

  /** A violation: which rule, about which path, and the text the message
      quotes (a link target, an expected prefix, a missing token). */
  datatype Failure = Failure(kind: Kind, subject: Path, detail: string)

  /** The verdict of one test method. */
  datatype Outcome = Ran(failures: seq<Failure>) | Errored(cause: Failure)

  predicate Passed(o: Outcome) {
    o == Ran([])
  }

  /** A single optional failure. */
  function FailIf(violated: bool, f: Failure): (r: seq<Failure>)
    ensures |r| == 0 <==> !violated
    ensures violated ==> r == [f]
  {
    if violated then [f] else []
  }

  /** The exception raised by `read_text` on a path that is not a file. */
  function Unreadable(p: Path): Outcome {
    Errored(Failure(ReadError, p, ""))
  }

  /** Reads one file and hands its content to `check`; a missing file ends
      the test with an error. */
  function WithFile(t: Tree, p: Path, check: string -> seq<Failure>): (o: Outcome)
    ensures o.Errored? <==> !IsFile(t, p)
    ensures IsFile(t, p) ==> o == Ran(check(t[p].content))
  {
    match Read(t, p)
    case None => Unreadable(p)
    case Some(content) => Ran(check(content))
  }

  /** Running one step after another: the first exception wins, otherwise
      the failures are collected in order. */
  function Then(a: Outcome, b: Outcome): (o: Outcome)
    ensures Passed(o) <==> Passed(a) && Passed(b)
    ensures o.Errored? <==> a.Errored? || b.Errored?
    ensures o.Ran? ==> o.failures == a.failures + b.failures
  {
    if a.Errored? then a
    else if b.Errored? then b
    else Ran(a.failures + b.failures)
  }

  /** A collecting loop over `xs`: the test passes exactly when every
      iteration passes, and errors exactly when some iteration raises. */
  function ForEach<T>(xs: seq<T>, body: T -> Outcome): (o: Outcome)
    ensures Passed(o) <==> forall i :: 0 <= i < |xs| ==> Passed(body(xs[i]))
    ensures o.Errored? <==> exists i :: 0 <= i < |xs| && body(xs[i]).Errored?
    decreases |xs|
  {
    if |xs| == 0 then Ran([])
    else
      var rest := ForEach(xs[1..], body);
      assert forall i :: 1 <= i < |xs| ==> xs[i] == xs[1..][i - 1];
      Then(body(xs[0]), rest)
  }

  /** When no iteration raises, the loop's failures are those of each
      iteration, in order. */
  lemma {:induction false} ForEachFailures<T>(xs: seq<T>, body: T -> Outcome)
    requires forall i :: 0 <= i < |xs| ==> body(xs[i]).Ran?
    ensures ForEach(xs, body) == Ran(Concat(xs, body))
    decreases |xs|
  {
    if |xs| > 0 {
      ForEachFailures(xs[1..], body);
    }
  }

  function Concat<T>(xs: seq<T>, body: T -> Outcome): seq<Failure>
    requires forall i :: 0 <= i < |xs| ==> body(xs[i]).Ran?
    decreases |xs|
  {
    if |xs| == 0 then [] else body(xs[0]).failures + Concat(xs[1..], body)
  }

  /** An asserting loop over `xs`: it stops at the first item whose check
      fails and reports only that failure. */
  function Assertions<T>(xs: seq<T>, check: T -> Option<Failure>): (o: Outcome)
    ensures o.Ran? && |o.failures| <= 1
    ensures Passed(o) <==> forall i :: 0 <= i < |xs| ==> check(xs[i]).None?
    ensures |o.failures| == 1 ==>
      exists i :: 0 <= i < |xs| && check(xs[i]) == Some(o.failures[0])
        && forall j :: 0 <= j < i ==> check(xs[j]).None?
    decreases |xs|
  {
    if |xs| == 0 then Ran([])
    else match check(xs[0])
      case Some(f) => Ran([f])
      case None =>
        var rest := Assertions(xs[1..], check);
        assert forall i :: 1 <= i < |xs| ==> xs[i] == xs[1..][i - 1];
        if |rest.failures| == 1 then
          var i :| 0 <= i < |xs[1..]| && check(xs[1..][i]) == Some(rest.failures[0])
                   && forall j :: 0 <= j < i ==> check(xs[1..][j]).None?;
          assert check(xs[i + 1]) == Some(rest.failures[0]);
          rest
        else rest
  }

  /** An asserting loop passes exactly when no item's check fails. */
  lemma AssertionsIn<T>(xs: seq<T>, check: T -> Option<Failure>)
    ensures Passed(Assertions(xs, check)) <==> forall x :: x in xs ==> check(x).None?
  {
    if Passed(Assertions(xs, check)) {
      forall x | x in xs
        ensures check(x).None?
      {
        var i :| 0 <= i < |xs| && xs[i] == x;
      }
    }
  }

  /** An asserting loop reports the first item whose check fails, and
      only that one, whatever the later items hold. */
  lemma {:induction false} AssertionsFirst<T>(xs: seq<T>, check: T -> Option<Failure>, i: nat)
    requires i < |xs| && check(xs[i]).Some?
    requires forall j :: 0 <= j < i ==> check(xs[j]).None?
    ensures Assertions(xs, check) == Ran([check(xs[i]).value])
    decreases i
  {
    if i > 0 {
      assert check(xs[0]).None?;
      assert forall j :: 0 <= j < i - 1 ==> xs[1..][j] == xs[j + 1];
      AssertionsFirst(xs[1..], check, i - 1);
    }
  }

  /** A collecting loop over the walk entries selected by `select` passes
      exactly when every selected entry of the tree passes, whatever the
      walk order. */
  lemma WalkForEach(t: Tree, walk: seq<Path>, select: Path -> bool, body: Path -> Outcome)
    requires IsWalk(t, walk)
    ensures Passed(ForEach(Filter(walk, select), body)) <==>
      forall p :: p in t && select(p) ==> Passed(body(p))
  {
    var xs := Filter(walk, select);
    if Passed(ForEach(xs, body)) {
      forall p | p in t && select(p)
        ensures Passed(body(p))
      {
        var i :| 0 <= i < |walk| && walk[i] == p;
        var k :| 0 <= k < |xs| && xs[k] == p;
      }
    }
  }

  /** A collecting loop passes exactly when every item meets the condition
      under which its own iteration passes. */
  lemma ForEachIff<T>(xs: seq<T>, body: T -> Outcome, ok: T -> bool)
    requires forall x :: x in xs ==> (Passed(body(x)) <==> ok(x))
    ensures Passed(ForEach(xs, body)) <==> forall x :: x in xs ==> ok(x)
  {
    if Passed(ForEach(xs, body)) {
      forall x | x in xs
        ensures ok(x)
      {
        var i :| 0 <= i < |xs| && xs[i] == x;
      }
    }
  }

  /** A loop whose body agrees on every item gives the same verdict. */
  lemma {:induction false} ForEachAgree<T>(xs: seq<T>, f: T -> Outcome, g: T -> Outcome)
    requires forall i :: 0 <= i < |xs| ==> f(xs[i]) == g(xs[i])
    ensures ForEach(xs, f) == ForEach(xs, g)
    decreases |xs|
  {
    if |xs| > 0 {
      ForEachAgree(xs[1..], f, g);
    }
  }

  /** The number of walk entries a glob selects does not depend on the
      walk order: it is the number of selected entries of the tree. */
  lemma WalkCount(t: Tree, walk: seq<Path>, select: Path -> bool)
    requires IsWalk(t, walk)
    ensures |Filter(walk, select)| == |set p | p in t && select(p)|
  {
    var xs := Filter(walk, select);
    DistinctCard(xs);
    assert (set p | p in xs) == (set p | p in t && select(p)) by {
      forall p | p in t && select(p)
        ensures p in xs
      {
        var i :| 0 <= i < |walk| && walk[i] == p;
      }
    }
  }
}
