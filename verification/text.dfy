/** Text primitives shared by every rule: Python's notion of whitespace,
    `strip`, ASCII lower-casing, the substring test `in`, the
    non-overlapping `str.count`, `split` and `splitlines()[0]`.
    Strings are `seq<char>`; the rules only ever compare them. */
module Text {

  datatype Option<T> = None | Some(value: T)

  /** The characters for which Python's `str.isspace()` holds; `strip()`
      and the regular-expression class `\s` both use this set. */
  predicate IsSpace(c: char) {
    || c == ' ' || c == '\t' || c == '\n' || c == '\r'
    || c == '\U{0B}' || c == '\U{0C}'
    || ('\U{1C}' <= c <= '\U{1F}')
    || c == '\U{85}' || c == '\U{A0}' || c == '\U{1680}'
    || ('\U{2000}' <= c <= '\U{200A}')
    || c == '\U{2028}' || c == '\U{2029}' || c == '\U{202F}'
    || c == '\U{205F}' || c == '\U{3000}'
  }

  /** The line boundaries of Python's `str.splitlines()`. */
  predicate IsLineBreak(c: char) {
    || c == '\n' || c == '\r' || c == '\U{0B}' || c == '\U{0C}'
    || ('\U{1C}' <= c <= '\U{1E}')
    || c == '\U{85}' || c == '\U{2028}' || c == '\U{2029}'
  }

  /** An ASCII decimal digit (the model's reading of `\d`). */
  predicate IsDigit(c: char) {
    '0' <= c <= '9'
  }

  predicate AllSpace(s: string) {
    forall i :: 0 <= i < |s| ==> IsSpace(s[i])
  }

  predicate AllDigits(s: string) {
    forall i :: 0 <= i < |s| ==> IsDigit(s[i])
  }

  function LowerChar(c: char): char {
    if 'A' <= c <= 'Z' then (c as int + 32) as char else c
  }

  /** `str.lower()` restricted to ASCII letters. */
  function Lower(s: string): (r: string)
    ensures |r| == |s|
    ensures forall i :: 0 <= i < |s| ==> r[i] == LowerChar(s[i])
  {
    seq(|s|, i requires 0 <= i < |s| => LowerChar(s[i]))
  }

  predicate EndsWith(s: string, suffix: string) {
    |suffix| <= |s| && s[|s| - |suffix|..] == suffix
  }

  lemma EndsWithConcat(pre: string, x: string, z: string)
    requires EndsWith(x, z)
    ensures EndsWith(pre + x, z)
  {
    assert (pre + x)[|pre + x| - |z|..] == x[|x| - |z|..];
  }

  /** `str.lstrip()`: drops the leading whitespace and nothing else. */
  function LStrip(s: string): (r: string)
    ensures |r| <= |s| && r == s[|s| - |r|..]
    ensures forall i :: 0 <= i < |s| - |r| ==> IsSpace(s[i])
    ensures |r| > 0 ==> !IsSpace(r[0])
    decreases |s|
  {
    if |s| > 0 && IsSpace(s[0]) then LStrip(s[1..]) else s
  }

  /** `str.rstrip()`: drops the trailing whitespace and nothing else. */
  function RStrip(s: string): (r: string)
    ensures |r| <= |s| && r == s[..|r|]
    ensures forall i :: |r| <= i < |s| ==> IsSpace(s[i])
    ensures |r| > 0 ==> !IsSpace(r[|r| - 1])
    decreases |s|
  {
    if |s| > 0 && IsSpace(s[|s| - 1]) then RStrip(s[..|s| - 1]) else s
  }

  /** `r` sits at `k` in `s` with nothing but whitespace around it. */
  predicate TrimmedAt(s: string, r: string, k: int) {
    OccursAt(s, r, k) && AllSpace(s[..k]) && AllSpace(s[k + |r|..])
  }

  /** `str.strip()`: the infix left after dropping whitespace, and only
      whitespace, from both ends. */
  function Strip(s: string): (r: string)
    ensures |r| == 0 <==> AllSpace(s)
    ensures |r| > 0 ==> !IsSpace(r[0]) && !IsSpace(r[|r| - 1])
    ensures exists k :: TrimmedAt(s, r, k)
  {
    StripParts(s);
    StripWitness(s);
    RStrip(LStrip(s))
  }

  /** What `lstrip()` and then `rstrip()` drop is whitespace. */
  lemma StripWitness(s: string)
    ensures TrimmedAt(s, RStrip(LStrip(s)), |s| - |LStrip(s)|)
  {
    var l := LStrip(s);
    var r := RStrip(l);
    StripInfix(s);
    LStripDropsSpace(s);
    RStripDropsSpace(l);
    assert s[|s| - |l| + |r|..] == l[|r|..];
  }

  lemma LStripDropsSpace(s: string)
    ensures AllSpace(s[..|s| - |LStrip(s)|])
  {
    var k := |s| - |LStrip(s)|;
    forall i | 0 <= i < k
      ensures IsSpace(s[..k][i])
    {
      assert s[..k][i] == s[i];
    }
  }

  lemma RStripDropsSpace(l: string)
    ensures AllSpace(l[|RStrip(l)|..])
  {
    var n := |RStrip(l)|;
    forall i | 0 <= i < |l| - n
      ensures IsSpace(l[n..][i])
    {
      assert l[n..][i] == l[n + i];
    }
  }

  lemma StripParts(s: string)
    ensures |RStrip(LStrip(s))| == 0 <==> AllSpace(s)
  {
    var l := LStrip(s);
    assert |RStrip(l)| == 0 ==> AllSpace(l);
  }

  lemma StripInfix(s: string)
    ensures OccursAt(s, RStrip(LStrip(s)), |s| - |LStrip(s)|)
  {
    var l := LStrip(s);
    PrefixOfSuffix(s, |s| - |l|, l, RStrip(l));
  }

  /** A prefix of a suffix occurs where the suffix starts. */
  lemma PrefixOfSuffix(s: string, k: nat, l: string, r: string)
    requires k <= |s| && l == s[k..] && |r| <= |l| && r == l[..|r|]
    ensures OccursAt(s, r, k)
  {
    assert s[k..][..|r|] == s[k..k + |r|];
  }

  /** `pat` occurs in `s` at index `i`. */
  predicate OccursAt(s: string, pat: string, i: int) {
    0 <= i && i + |pat| <= |s| && s[i..i + |pat|] == pat
  }

  /** Python's `pat in s`, as a scan over the suffixes of `s`. */
  predicate Contains(s: string, pat: string)
    decreases |s|
  {
    pat <= s || (|s| > 0 && Contains(s[1..], pat))
  }

  lemma OccursShift(s: string, pat: string, i: int)
    requires |s| > 0 && 0 < i
    ensures OccursAt(s, pat, i) <==> OccursAt(s[1..], pat, i - 1)
  {
    if i + |pat| <= |s| {
      DropSlice(s, i, i + |pat|);
    }
  }

  lemma DropSlice(s: string, i: nat, j: nat)
    requires 0 < i <= j <= |s|
    ensures s[1..][i - 1..j - 1] == s[i..j]
  {
  }

  /** The scanner agrees with the declarative reading of `in`. */
  lemma {:induction false} ContainsIff(s: string, pat: string)
    ensures Contains(s, pat) <==> exists i :: OccursAt(s, pat, i)
    decreases |s|
  {
    if pat <= s {
      assert OccursAt(s, pat, 0);
    } else if |s| == 0 {
    } else {
      ContainsIff(s[1..], pat);
      if Contains(s[1..], pat) {
        var i :| OccursAt(s[1..], pat, i);
        OccursShift(s, pat, i + 1);
      } else {
        forall i | 0 < i
          ensures !OccursAt(s, pat, i)
        {
          OccursShift(s, pat, i);
        }
      }
    }
  }

  lemma ContainsAt(s: string, pat: string, i: int)
    requires OccursAt(s, pat, i)
    ensures Contains(s, pat)
  {
    ContainsIff(s, pat);
  }

  lemma ShortNotContains(s: string, pat: string)
    ensures |s| < |pat| ==> !Contains(s, pat)
  {
    ContainsIff(s, pat);
  }

  /** The index of the leftmost occurrence of `pat` in `s`. */
  function IndexOf(s: string, pat: string): (r: Option<nat>)
    ensures r.Some? ==> OccursAt(s, pat, r.value)
    ensures r.Some? ==> forall j :: 0 <= j < r.value ==> !OccursAt(s, pat, j)
    ensures r.None? ==> forall j :: !OccursAt(s, pat, j)
    decreases |s|
  {
    if pat <= s then Some(0)
    else if |s| == 0 then None
    else
      var rest := IndexOf(s[1..], pat);
      assert forall j :: 0 < j ==> (OccursAt(s, pat, j) <==> OccursAt(s[1..], pat, j - 1)) by {
        forall j | 0 < j ensures OccursAt(s, pat, j) <==> OccursAt(s[1..], pat, j - 1) {
          OccursShift(s, pat, j);
        }
      }
      match rest
      case None => None
      case Some(i) => Some(i + 1)
  }

  /** `IndexOf` is `None` exactly when `pat` does not occur. */
  lemma IndexOfNone(s: string, pat: string)
    ensures IndexOf(s, pat).None? <==> !Contains(s, pat)
  {
    ContainsIff(s, pat);
  }

  /** An occurrence with none before it is the one `IndexOf` finds. */
  lemma IndexOfIs(s: string, pat: string, i: nat)
    requires OccursAt(s, pat, i)
    requires forall j :: 0 <= j < i ==> !OccursAt(s, pat, j)
    ensures IndexOf(s, pat) == Some(i)
  {
  }

  /** An occurrence inside a prefix is an occurrence of the prefix. */
  lemma OccursInPrefix(s: string, x: string, pat: string, j: int)
    requires x <= s
    requires OccursAt(s, pat, j) && j + |pat| <= |x|
    ensures OccursAt(x, pat, j)
  {
    assert x[j..j + |pat|] == s[j..j + |pat|];
  }

  /** An occurrence in a suffix is an occurrence of the whole string. */
  lemma ContainsSuffix(s: string, k: nat, pat: string)
    requires k <= |s|
    requires Contains(s[k..], pat)
    ensures Contains(s, pat)
  {
    ContainsIff(s[k..], pat);
    var i :| OccursAt(s[k..], pat, i);
    assert s[k..][i..i + |pat|] == s[k + i..k + i + |pat|];
    ContainsAt(s, pat, k + i);
  }

  /** `strip()` leaves a string without outer whitespace unchanged. */
  lemma StripNoop(s: string)
    requires |s| > 0 ==> !IsSpace(s[0]) && !IsSpace(s[|s| - 1])
    ensures Strip(s) == s
  {
  }

  /** `strip()` keeps a prefix that begins and ends with non-whitespace
      when the string itself begins with it. */
  lemma StripKeepsPrefix(s: string, pre: string)
    requires pre <= s && |pre| > 0
    requires !IsSpace(pre[0]) && !IsSpace(pre[|pre| - 1])
    ensures pre <= Strip(s)
  {
    assert LStrip(s) == s;
    var r := RStrip(s);
    assert !IsSpace(s[|pre| - 1]);
    assert |pre| <= |r|;
    assert pre == s[..|pre|] == r[..|pre|];
  }

  /** A prefix without line breaks starts the text exactly when it starts
      the text's first line. */
  lemma FirstLinePrefix(s: string, pre: string)
    requires |s| > 0
    requires forall i :: 0 <= i < |pre| ==> !IsLineBreak(pre[i])
    ensures pre <= FirstLine(s).value <==> pre <= s
  {
  }

  /** `rstrip()` removes exactly a whitespace tail. */
  lemma {:induction false} RStripSpaces(x: string, trail: string)
    requires |x| > 0 && !IsSpace(x[|x| - 1])
    requires AllSpace(trail)
    ensures RStrip(x + trail) == x
    decreases |trail|
  {
    if |trail| == 0 {
      assert x + trail == x;
    } else {
      var s := x + trail;
      assert s[..|s| - 1] == x + trail[..|trail| - 1];
      RStripSpaces(x, trail[..|trail| - 1]);
    }
  }

  /** `lstrip()` splits a string into its whitespace head and the rest. */
  lemma LStripSplit(x: string)
    ensures x == x[..|x| - |LStrip(x)|] + LStrip(x)
    ensures AllSpace(x[..|x| - |LStrip(x)|])
  {
  }

  /** `lstrip()` removes exactly a whitespace head. */
  lemma {:induction false} LStripSpaces(lead: string, x: string)
    requires AllSpace(lead)
    requires |x| == 0 || !IsSpace(x[0])
    ensures LStrip(lead + x) == x
    decreases |lead|
  {
    if |lead| == 0 {
      assert lead + x == x;
    } else {
      assert (lead + x)[1..] == lead[1..] + x;
      LStripSpaces(lead[1..], x);
    }
  }

  /** Lower-casing works character by character, so it distributes over
      concatenation. */
  lemma LowerConcat(a: string, b: string)
    ensures Lower(a + b) == Lower(a) + Lower(b)
  {
  }

  /** Lower-casing twice is lower-casing once. */
  lemma LowerIdempotent(s: string)
    ensures Lower(Lower(s)) == Lower(s)
  {
  }

  /** `lstrip()` removes one leading space in front of a word. */
  lemma LStripOne(c: char, w: string)
    requires IsSpace(c) && |w| > 0 && !IsSpace(w[0])
    ensures LStrip([c] + w) == w
  {
    assert ([c] + w)[1..] == w;
  }

  /** A character absent from `s` is absent from `strip(s)`. */
  lemma StripKeepsOut(s: string, c: char)
    requires c !in s
    ensures c !in Strip(s)
  {
    var r := Strip(s);
    var k :| TrimmedAt(s, r, k);
    assert r == s[k..k + |r|];
    forall i | 0 <= i < |r|
      ensures r[i] != c
    {
      assert r[i] == s[k + i];
    }
  }

  /** Python's `s.count(pat)`: occurrences found left to right, each
      search resuming after the previous occurrence, so they never overlap. */
  function Count(s: string, pat: string): (n: nat)
    requires |pat| > 0
    ensures n <= |s|
    decreases |s|
  {
    if |s| < |pat| then 0
    else if pat <= s then
      1 + Count(s[|pat|..], pat)
    else
      Count(s[1..], pat)
  }

  /** The count is zero exactly when the pattern does not occur. */
  lemma {:induction false} CountZero(s: string, pat: string)
    requires |pat| > 0
    ensures Count(s, pat) == 0 <==> !Contains(s, pat)
    decreases |s|
  {
    if |s| < |pat| {
      ShortNotContains(s, pat);
    } else if !(pat <= s) {
      CountZero(s[1..], pat);
    }
  }

  lemma CountNone(s: string, pat: string)
    requires |pat| > 0
    requires IndexOf(s, pat).None?
    ensures Count(s, pat) == 0
  {
    ContainsIff(s, pat);
  }

  /** The index of the first `c` in `s`, or `|s|` when there is none. */
  function Find(s: string, c: char): (i: nat)
    ensures i <= |s|
    ensures i < |s| ==> s[i] == c
    ensures c !in s[..i]
    decreases |s|
  {
    if |s| == 0 then 0
    else if s[0] == c then 0
    else 1 + Find(s[1..], c)
  }

  /** `s.split(sep)` for a one-character separator. */
  function Split(s: string, sep: char): (parts: seq<string>)
    ensures |parts| > 0
    decreases |s|
  {
    var k := Find(s, sep);
    if k == |s| then [s] else [s[..k]] + Split(s[k + 1..], sep)
  }

  /** `sep.join(parts)`. */
  function Join(parts: seq<string>, sep: char): string
    requires |parts| > 0
  {
    if |parts| == 1 then parts[0] else parts[0] + [sep] + Join(parts[1..], sep)
  }

  lemma {:induction false} JoinSplit(s: string, sep: char)
    ensures Join(Split(s, sep), sep) == s
    decreases |s|
  {
    var k := Find(s, sep);
    if k < |s| {
      JoinSplit(s[k + 1..], sep);
      assert s == s[..k] + [sep] + s[k + 1..];
    }
  }

  lemma {:induction false} SplitJoin(parts: seq<string>, sep: char)
    requires |parts| > 0
    requires forall i :: 0 <= i < |parts| ==> sep !in parts[i]
    ensures Split(Join(parts, sep), sep) == parts
    decreases |parts|
  {
    FindAbsent(parts[0], sep);
    if |parts| > 1 {
      var tail := Join(parts[1..], sep);
      assert Join(parts, sep) == parts[0] + ([sep] + tail);
      SplitAfterPart(parts[0], tail, sep);
      SplitJoin(parts[1..], sep);
      assert parts == [parts[0]] + parts[1..];
    }
  }

  /** A separator-free part before a separator is split off whole. */
  lemma SplitAfterPart(p: string, tail: string, sep: char)
    requires sep !in p
    ensures Split(p + ([sep] + tail), sep) == [p] + Split(tail, sep)
  {
    var s := p + ([sep] + tail);
    FindAfter(p, [sep] + tail, sep);
    assert Find([sep] + tail, sep) == 0;
    assert s[..|p|] == p;
    assert s[|p| + 1..] == tail;
  }

  /** Splitting at a separator joins the two sides' parts. */
  lemma {:induction false} SplitConcat(a: string, b: string, sep: char)
    ensures Split(a + [sep] + b, sep) == Split(a, sep) + Split(b, sep)
    decreases |a|
  {
    var k := Find(a, sep);
    if k == |a| {
      SplitConcatLast(a, b, sep);
    } else {
      SplitConcat(a[k + 1..], b, sep);
      SplitConcatStep(a, b, sep);
    }
  }

  lemma SplitConcatLast(a: string, b: string, sep: char)
    requires Find(a, sep) == |a|
    ensures Split(a + [sep] + b, sep) == Split(a, sep) + Split(b, sep)
  {
    var s := a + [sep] + b;
    FindAfter(a, [sep] + b, sep);
    assert s == a + ([sep] + b);
    assert s[..|a|] == a;
    assert s[|a| + 1..] == b;
  }

  lemma SplitConcatStep(a: string, b: string, sep: char)
    requires Find(a, sep) < |a|
    requires Split(a[Find(a, sep) + 1..] + [sep] + b, sep) == Split(a[Find(a, sep) + 1..], sep) + Split(b, sep)
    ensures Split(a + [sep] + b, sep) == Split(a, sep) + Split(b, sep)
  {
    var k := Find(a, sep);
    SplitHead(a, b, sep);
    SplitAt(a, sep, k);
    ConsAppend(Split(a + [sep] + b, sep), Split(a, sep), [a[..k]], Split(a[k + 1..], sep), Split(b, sep));
    assert Split(a + [sep] + b, sep) == Split(a, sep) + Split(b, sep);
  }

  /** Splitting `a + [sep] + b` at the first separator of `a`. */
  lemma SplitHead(a: string, b: string, sep: char)
    requires Find(a, sep) < |a|
    ensures var k := Find(a, sep);
      Split(a + [sep] + b, sep) == [a[..k]] + Split(a[k + 1..] + [sep] + b, sep)
  {
    var k := Find(a, sep);
    var s := a + [sep] + b;
    SepSlices(a, b, sep, k);
    FindBefore(a, [sep] + b, sep);
    SplitAt(s, sep, k);
  }

  lemma ConsAppend<T>(whole: seq<T>, front: seq<T>, x: seq<T>, y: seq<T>, z: seq<T>)
    requires whole == x + (y + z) && front == x + y
    ensures whole == front + z
  {
  }

  lemma SepSlices(a: string, b: string, sep: char, k: nat)
    requires k < |a|
    ensures a + [sep] + b == a + ([sep] + b)
    ensures (a + [sep] + b)[..k] == a[..k]
    ensures (a + [sep] + b)[k + 1..] == a[k + 1..] + [sep] + b
  {
  }

  lemma SplitAt(s: string, sep: char, k: nat)
    requires k == Find(s, sep) < |s|
    ensures Split(s, sep) == [s[..k]] + Split(s[k + 1..], sep)
  {
  }

  /** The first separator of a prefix is the first of the whole. */
  lemma FindBefore(a: string, b: string, c: char)
    requires Find(a, c) < |a|
    ensures Find(a + b, c) == Find(a, c)
  {
    var k := Find(a, c);
    assert (a + b)[k] == c;
    assert (a + b)[..k] == a[..k];
  }

  /** `Find` is the one position with no `c` before it that holds `c` or
      ends the text. */
  lemma {:induction false} FindUnique(s: string, c: char, k: nat)
    requires k <= |s| && c !in s[..k]
    requires k == |s| || s[k] == c
    ensures Find(s, c) == k
    decreases |s|
  {
    if k > 0 {
      assert s[..k][0] == s[0];
      assert s[1..][..k - 1] == s[..k][1..];
      FindUnique(s[1..], c, k - 1);
    }
  }

  lemma FindAbsent(s: string, c: char)
    ensures c !in s ==> Find(s, c) == |s|
  {
  }

  lemma {:induction false} FindAfter(a: string, b: string, c: char)
    requires c !in a
    ensures Find(a + b, c) == |a| + Find(b, c)
    decreases |a|
  {
    if |a| == 0 {
      assert a + b == b;
    } else {
      assert (a + b)[0] == a[0];
      assert (a + b)[1..] == a[1..] + b;
      assert c !in a[1..];
      FindAfter(a[1..], b, c);
    }
  }

  /** A text without a line break is one line. */
  lemma LinesOfLine(l: string)
    requires '\n' !in l
    ensures Lines(l) == [l]
  {
    FindAbsent(l, '\n');
  }

  /** The lines seen by a MULTILINE regular expression: `^` and `$`
      only treat `\n` as a line boundary. */
  function Lines(s: string): seq<string> {
    Split(s, '\n')
  }

  /** The length of the first line of `s` under `str.splitlines()`. */
  function LineEnd(s: string): (n: nat)
    ensures n <= |s|
    ensures n < |s| ==> IsLineBreak(s[n])
    ensures forall i :: 0 <= i < n ==> !IsLineBreak(s[i])
    decreases |s|
  {
    if |s| == 0 || IsLineBreak(s[0]) then 0 else 1 + LineEnd(s[1..])
  }

  /** `s.splitlines()[0]`, or `None` where Python raises `IndexError`
      (an empty string has no lines). */
  function FirstLine(s: string): (r: Option<string>)
    ensures r.None? <==> |s| == 0
    ensures r.Some? ==> r.value <= s
    ensures r.Some? ==> |r.value| == |s| || IsLineBreak(s[|r.value|])
    ensures r.Some? ==> forall i :: 0 <= i < |r.value| ==> !IsLineBreak(r.value[i])
  {
    if |s| == 0 then None else Some(s[..LineEnd(s)])
  }

  /** The longest run of digits at the front of `s`. */
  function DigitRun(s: string): (d: string)
    ensures d <= s
    ensures AllDigits(d)
    ensures |d| == |s| || !IsDigit(s[|d|])
    decreases |s|
  {
    if |s| > 0 && IsDigit(s[0]) then [s[0]] + DigitRun(s[1..]) else []
  }

  /** The digit run at the front of `d + x` is `d` when `x` does not start
      with a digit. */
  lemma {:induction false} DigitRunOf(d: string, x: string)
    requires AllDigits(d)
    requires |x| == 0 || !IsDigit(x[0])
    ensures DigitRun(d + x) == d
    decreases |d|
  {
    if |d| == 0 {
      assert d + x == x;
    } else {
      assert (d + x)[1..] == d[1..] + x;
      DigitRunOf(d[1..], x);
      assert [d[0]] + d[1..] == d;
    }
  }

  /* Small facts about slices of concatenations, stated once so that
     the proofs using them stay cheap. */

  lemma HeadTail(s: string, h: char, y: string)
    requires s == [h] + y
    ensures |s| > 0 && s[0] == h && s[1..] == y
  {
  }

  lemma Split2(s: string, x: string, y: string)
    requires s == x + y
    ensures s[..|x|] == x && s[|x|..] == y
  {
  }

  lemma SliceAt(s: string, i: nat, j: nat, w: string, v: string)
    requires i <= |s| && s[i..] == w + v && j == i + |w|
    ensures j <= |s| && s[i..j] == w
  {
    assert s[i..j] == s[i..][..|w|];
  }
}
