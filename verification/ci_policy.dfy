/** The CI policy (tests/test_ci_policy.py): the validation workflow runs
    on pull requests, measures coverage, and sets a coverage floor of at
    least 80 with `--fail-under=`. */
module CiPolicy {
  import opened Text
  import opened Corpus
  import opened Report

  const WorkflowPath: Path := [".github", "workflows", "scaffold-validation.yml"]
  const RequiredTokens: seq<string> :=
    ["pull_request:", "python -m coverage run", "python -m coverage report"]
  const FailUnder := "--fail-under="
  const MinCoverage := 80

  // ---------------------------------------------------------------------
  // `int()` of a digit run

  function DigitValue(c: char): nat
    requires IsDigit(c)
  {
    c as int - '0' as int
  }

  /** The value of a decimal numeral, leading zeros allowed: a numeral
      with a non-zero leading digit is at least the value of that digit. */
  function DecimalValue(d: string): (r: nat)
    requires AllDigits(d)
    ensures |d| > 0 && d[0] != '0' ==> r >= DigitValue(d[0]) > 0
    decreases |d|
  {
    if |d| == 0 then 0
    else
      var init := d[..|d| - 1];
      assert |init| > 0 ==> init[0] == d[0];
      10 * DecimalValue(init) + DigitValue(d[|d| - 1])
  }

  /** The shortest numeral of `n`, the reference `DecimalValue` inverts. */
  function Numeral(n: nat): (d: string)
    ensures |d| > 0 && AllDigits(d)
    decreases n
  {
    var last := ('0' as int + n % 10) as char;
    if n < 10 then [last] else Numeral(n / 10) + [last]
  }

  /** Reading back the numeral of `n` gives `n`. */
  lemma {:induction false} NumeralRoundTrip(n: nat)
    ensures DecimalValue(Numeral(n)) == n
    decreases n
  {
    var d := Numeral(n);
    var last := ('0' as int + n % 10) as char;
    if n < 10 {
      assert d == [last];
      assert d[..0] == [];
    } else {
      NumeralRoundTrip(n / 10);
      assert d[..|d| - 1] == Numeral(n / 10);
      assert d[|d| - 1] == last;
    }
  }

  /** The other direction of the round trip: a numeral without leading
      zeros is the numeral of its value. */
  lemma {:induction false} CanonicalRoundTrip(d: string)
    requires AllDigits(d) && |d| > 0
    requires |d| == 1 || d[0] != '0'
    ensures Numeral(DecimalValue(d)) == d
    decreases |d|
  {
    var c := d[|d| - 1];
    var v := DecimalValue(d);
    if |d| == 1 {
      assert d[..0] == [];
      assert DecimalValue(d[..0]) == 0;
      assert IsDigit(d[0]);
      assert v == DigitValue(c) < 10;
      assert ('0' as int + v % 10) as char == c;
    } else {
      var init := d[..|d| - 1];
      assert init[0] == d[0];
      CanonicalRoundTrip(init);
      assert v == 10 * DecimalValue(init) + DigitValue(c);
      assert v / 10 == DecimalValue(init) && v % 10 == DigitValue(c);
      assert ('0' as int + v % 10) as char == c;
      assert d == init + [c];
    }
  }

  /** Leading zeros do not change the value: `int("080") == 80`. */
  lemma {:induction false} LeadingZero(d: string)
    requires AllDigits(d)
    ensures AllDigits("0" + d) && DecimalValue("0" + d) == DecimalValue(d)
    decreases |d|
  {
    var z := "0" + d;
    if |d| == 0 {
      assert z[..0] == [];
    } else {
      var init := d[..|d| - 1];
      LeadingZero(init);
      assert z[..|z| - 1] == "0" + init;
      assert z[|z| - 1] == d[|d| - 1];
    }
  }

  /** The values the test's boundary cases rely on. */
  lemma BoundaryValues()
    ensures DecimalValue("75") == 75 && DecimalValue("80") == 80 && DecimalValue("85") == 85
    ensures DecimalValue("080") == 80
  {
    assert "75"[..1] == "7" && "7"[..0] == "";
    assert "80"[..1] == "8" && "8"[..0] == "";
    assert "85"[..1] == "8";
    LeadingZero("80");
    assert "0" + "80" == "080";
  }

  // ---------------------------------------------------------------------
  // `re.search(r"--fail-under=(\d+)", content)`

  /** The pattern matches at `i`: the option, then at least one digit. */
  predicate IsFloorAt(s: string, i: int) {
    OccursAt(s, FailUnder, i) && i + |FailUnder| < |s| && IsDigit(s[i + |FailUnder|])
  }

  /** The match `search` reports: the leftmost one. */
  predicate IsFirstFloorAt(s: string, i: int) {
    IsFloorAt(s, i) && forall j :: 0 <= j < i ==> !IsFloorAt(s, j)
  }

  /** The captured group: the longest digit run after the option. */
  function FloorValueAt(s: string, i: int): nat
    requires IsFloorAt(s, i)
  {
    DecimalValue(DigitRun(s[i + |FailUnder|..]))
  }

  /** The leftmost match at or after `i`. */
  function FloorFrom(s: string, i: nat): (r: Option<nat>)
    requires i <= |s|
    ensures r.Some? ==> i <= r.value && IsFloorAt(s, r.value)
    ensures r.Some? ==> forall j :: i <= j < r.value ==> !IsFloorAt(s, j)
    ensures r.None? ==> forall j :: i <= j ==> !IsFloorAt(s, j)
    decreases |s| - i
  {
    if IsFloorAt(s, i) then Some(i)
    else if i == |s| then None
    else FloorFrom(s, i + 1)
  }

  /** The floor the test reads, or `None` when the pattern is absent. */
  function Floor(s: string): (r: Option<nat>)
    ensures r.None? <==> forall j :: !IsFloorAt(s, j)
  {
    match FloorFrom(s, 0)
    case None => None
    case Some(i) => Some(FloorValueAt(s, i))
  }

  /** The floor is the value at the leftmost match, and no other. */
  lemma FloorIsFirst(s: string, i: int)
    requires IsFirstFloorAt(s, i)
    ensures Floor(s) == Some(FloorValueAt(s, i))
  {
    var k := FloorFrom(s, 0).value;
    assert !(k < i) && !(i < k);
  }

  /** Only the first option counts: after `--fail-under=` and a digit
      run, anything may follow, including a later and higher floor. */
  lemma FirstOptionDecides(d: string, rest: string)
    requires |d| > 0 && AllDigits(d)
    requires |rest| == 0 || !IsDigit(rest[0])
    ensures Floor(FailUnder + (d + rest)) == Some(DecimalValue(d))
  {
    var s := FailUnder + (d + rest);
    Split2(s, FailUnder, d + rest);
    assert s[|FailUnder|] == d[0];
    assert IsFirstFloorAt(s, 0);
    FloorIsFirst(s, 0);
    DigitRunOf(d, rest);
  }

  // ---------------------------------------------------------------------
  // The test

  function TokenCheck(content: string, token: string): Option<Failure> {
    if Contains(content, token) then None
    else Some(Failure(WorkflowTokenMissing, WorkflowPath, token))
  }

  function TokenChecks(content: string): string -> Option<Failure> {
    (token: string) => TokenCheck(content, token)
  }

  /** The assertions in order: the three tokens, then a floor, then its
      size. The first one that fails is the only failure. */
  function WorkflowFailures(content: string): (fs: seq<Failure>)
    ensures |fs| <= 1
    ensures |fs| == 0 <==>
      (forall token :: token in RequiredTokens ==> Contains(content, token))
      && Floor(content).Some? && Floor(content).value >= MinCoverage
  {
    var tokens := Assertions(RequiredTokens, TokenChecks(content));
    AssertionsIn(RequiredTokens, TokenChecks(content));
    if |tokens.failures| > 0 then tokens.failures
    else match Floor(content)
      case None => [Failure(CoverageFloorMissing, WorkflowPath, "")]
      case Some(floor) =>
        FailIf(floor < MinCoverage, Failure(CoverageFloorTooLow(floor), WorkflowPath, ""))
  }

  /** `test_workflow_enforces_required_quality_gates`. */
  function WorkflowTest(t: Tree): (o: Outcome)
    ensures o.Errored? <==> !IsFile(t, WorkflowPath)
  {
    WithFile(t, WorkflowPath, WorkflowFailures)
  }

  /** The test passes exactly when the workflow file exists, holds the
      three tokens, and its leftmost `--fail-under=` followed by a digit
      sets a floor of at least 80. */
  lemma WorkflowTestPasses(t: Tree)
    ensures Passed(WorkflowTest(t)) <==>
      && IsFile(t, WorkflowPath)
      && var content := t[WorkflowPath].content;
      && (forall token :: token in RequiredTokens ==> Contains(content, token))
      && exists i :: IsFirstFloorAt(content, i) && FloorValueAt(content, i) >= MinCoverage
  {
    if IsFile(t, WorkflowPath) {
      var content := t[WorkflowPath].content;
      match FloorFrom(content, 0)
      case None =>
      case Some(i) =>
        assert IsFirstFloorAt(content, i);
        forall k | IsFirstFloorAt(content, k)
          ensures k == i
        {
          FloorIsFirst(content, k);
        }
    }
  }

  /** With the tokens in place, a floor below 80 is reported with its
      value. */
  lemma LowFloorReported(content: string, i: int)
    requires forall token :: token in RequiredTokens ==> Contains(content, token)
    requires IsFirstFloorAt(content, i) && FloorValueAt(content, i) < MinCoverage
    ensures WorkflowFailures(content) ==
      [Failure(CoverageFloorTooLow(FloorValueAt(content, i)), WorkflowPath, "")]
  {
    AssertionsIn(RequiredTokens, TokenChecks(content));
    FloorIsFirst(content, i);
  }
}
