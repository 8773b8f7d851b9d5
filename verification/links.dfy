/** The local-link rule of `tests/test_links.py`: strip fenced code,
    extract inline links, drop fragments and skipped targets, and report
    every remaining target that does not resolve inside the corpus. */
module Links {
  import opened Text
  import opened Seqs
  import opened Corpus
  import opened Report

  const Fence: string := "```"

  /** `FENCED_CODE_BLOCK_PATTERN.sub("", s)`: each leftmost fence is paired
      with the nearest fence after it and the pair, with everything between,
      is removed. An unpaired last fence and the text after it are kept. */
  function StripFences(s: string): (r: string)
    ensures |r| <= |s|
    ensures !Contains(s, Fence) ==> r == s
    decreases |s|
  {
    IndexOfNone(s, Fence);
    match IndexOf(s, Fence)
    case None => s
    case Some(i) =>
      match IndexOf(s[i + 3..], Fence)
      case None => s
      case Some(j) => s[..i] + StripFences(s[i + 3 + j + 3..])
  }

  /** A fence pair is removed with its contents, and the text before it
      is kept, when neither stretch can hide an earlier fence. */
  lemma StripFencesPair(a: string, b: string, c: string)
    requires !Contains(a + "``", Fence)
    requires !Contains(b + "``", Fence)
    ensures StripFences(a + Fence + b + Fence + c) == a + StripFences(c)
  {
    var s := a + Fence + b + Fence + c;
    FiveSlices(s, a, b, c);
    FirstFenceAt(a, b + Fence + c);
    FirstFenceAt(b, c);
  }

  /** Where the parts of `a + Fence + b + Fence + c` sit. */
  lemma FiveSlices(s: string, a: string, b: string, c: string)
    requires s == a + Fence + b + Fence + c
    ensures s == a + Fence + (b + Fence + c)
    ensures s[..|a|] == a && s[|a| + 3..] == b + Fence + c
    ensures |a| + 3 + |b| + 3 <= |s| && s[|a| + 3 + |b| + 3..] == c
  {
    assert s == a + Fence + (b + Fence + c);
    assert s[|a| + 3..] == b + Fence + c;
    assert s[|a| + 3 + |b| + 3..] == c;
  }

  /** The first fence of `a + Fence + rest` is the one after `a`. */
  lemma FirstFenceAt(a: string, rest: string)
    requires !Contains(a + "``", Fence)
    ensures IndexOf(a + Fence + rest, Fence) == Some(|a|)
  {
    var s := a + Fence + rest;
    assert s[|a|..|a| + 3] == Fence;
    var x := a + "``";
    assert x <= s;
    forall j | 0 <= j < |a|
      ensures !OccursAt(s, Fence, j)
    {
      if OccursAt(s, Fence, j) {
        OccursInPrefix(s, x, Fence, j);
        ContainsAt(x, Fence, j);
      }
    }
    IndexOfIs(s, Fence, |a|);
  }

  /** The last fence of an odd-numbered set survives, at index `k`, with
      all the text after it. */
  predicate UnpairedTail(s: string, k: int) {
    && OccursAt(s, Fence, k)
    && Count(s[k..], Fence) == 1
    && EndsWith(StripFences(s), s[k..])
  }

  /** With an odd number of fences, the last fence and all text after it
      survive stripping. */
  lemma {:induction false} OddFenceTailSurvives(s: string) returns (k: int)
    requires Count(s, Fence) % 2 == 1
    ensures UnpairedTail(s, k)
    decreases |s|
  {
    match IndexOf(s, Fence)
    case None =>
      CountNone(s, Fence);
      assert false;
    case Some(i) =>
      match IndexOf(s[i + 3..], Fence)
      case None =>
        LoneFence(s, i);
        k := i;
      case Some(j) =>
        var n := i + 3 + j + 3;
        var b, c := FencePair(s, i, j);
        PairCounted(s, s[..i], b, c, n);
        PairStripped(s, s[..i], b, c, n);
        OddLess2(Count(s, Fence), Count(s[n..], Fence));
        var k' := OddFenceTailSurvives(s[n..]);
        k := TailLift(s, n, s[..i], k');
  }

  lemma OddLess2(x: nat, y: nat)
    requires x % 2 == 1 && x == 2 + y
    ensures y % 2 == 1
  {
  }

  lemma PairStripped(s: string, a: string, b: string, c: string, n: nat)
    requires s == a + Fence + b + Fence + c && n <= |s| && c == s[n..]
    requires !Contains(a + "``", Fence) && !Contains(b + "``", Fence)
    ensures StripFences(s) == a + StripFences(s[n..])
  {
    StripFencesPair(a, b, c);
  }

  /** The first fence pair splits the text into the text before it, the
      text between the fences and the text after; neither of the first
      two can hide an earlier fence. */
  lemma FencePair(s: string, i: nat, j: nat) returns (b: string, c: string)
    requires IndexOf(s, Fence) == Some(i)
    requires IndexOf(s[i + 3..], Fence) == Some(j)
    ensures i + 3 + j + 3 <= |s| && c == s[i + 3 + j + 3..]
    ensures s == s[..i] + Fence + b + Fence + c
    ensures !Contains(s[..i] + "``", Fence) && !Contains(b + "``", Fence)
  {
    var t := s[i + 3..];
    b, c := t[..j], t[j + 3..];
    NoEarlierFence(s, i);
    NoEarlierFence(t, j);
    FenceLead(s, i);
    FenceLead(t, j);
    FenceSplit(s, i, t);
    FenceSplit(t, j, c);
    FiveParts(s, s[..i], t, b, c);
    DropDropAt(s, i + 3, j + 3);
  }

  /** The text before the first fence, with two more characters, holds
      no fence. */
  lemma NoEarlierFence(s: string, i: nat)
    requires IndexOf(s, Fence) == Some(i)
    ensures i + 3 <= |s| && !Contains(s[..i + 2], Fence)
  {
    var x := s[..i + 2];
    ContainsIff(x, Fence);
    forall k | 0 <= k
      ensures !OccursAt(x, Fence, k)
    {
      if k + 3 <= |x| {
        SliceOfPrefix(s, i + 2, k, k + 3);
        assert !OccursAt(s, Fence, k);
      }
    }
  }

  lemma SliceOfPrefix(s: string, m: nat, k: nat, l: nat)
    requires k <= l <= m <= |s|
    ensures s[..m][k..l] == s[k..l]
  {
  }

  lemma FenceLead(s: string, i: nat)
    requires OccursAt(s, Fence, i)
    ensures s[..i] + "``" == s[..i + 2]
  {
    assert s[i..i + 2] == s[i..i + 3][..2];
    assert s[..i + 2] == s[..i] + s[i..i + 2];
  }

  /** A fence at `i` splits the text into what comes before it, the
      fence, and `t`, the rest. */
  lemma FenceSplit(s: string, i: nat, t: string)
    requires OccursAt(s, Fence, i) && t == s[i + 3..]
    ensures s == s[..i] + (Fence + t)
  {
    assert s == s[..i] + s[i..i + 3] + s[i + 3..];
  }

  lemma FiveParts(s: string, a: string, t: string, b: string, c: string)
    requires s == a + (Fence + t) && t == b + (Fence + c)
    ensures s == a + Fence + b + Fence + c
  {
  }

  lemma DropDropAt(s: string, k: nat, m: nat)
    requires k <= |s| && m <= |s[k..]|
    ensures s[k..][m..] == s[k + m..]
  {
  }

  /** A fence pair counts two, and counting resumes after it. */
  lemma CountPair(a: string, b: string, c: string)
    requires !Contains(a + "``", Fence) && !Contains(b + "``", Fence)
    ensures Count(a + Fence + b + Fence + c, Fence) == 2 + Count(c, Fence)
  {
    var s := a + Fence + b + Fence + c;
    FiveSlices(s, a, b, c);
    CountAfterClean(a, b + Fence + c);
    CountAfterClean(b, c);
  }

  /** The first fence, after text that hides none, counts one, and
      counting resumes right after it. */
  lemma {:induction false} CountAfterClean(a: string, rest: string)
    requires !Contains(a + "``", Fence)
    ensures Count(a + Fence + rest, Fence) == 1 + Count(rest, Fence)
    decreases |a|
  {
    var s := a + Fence + rest;
    if |a| == 0 {
      FenceFront(s, rest);
    } else {
      NoFenceAtFront(a, rest);
      CleanSuffix(a);
      assert s[1..] == a[1..] + Fence + rest;
      CountAfterClean(a[1..], rest);
    }
  }

  lemma FenceFront(s: string, rest: string)
    requires s == "" + Fence + rest
    ensures Count(s, Fence) == 1 + Count(rest, Fence)
  {
    assert Fence <= s;
    assert s[3..] == rest;
  }

  /** Text that hides no fence cannot start one. */
  lemma NoFenceAtFront(a: string, rest: string)
    requires |a| > 0 && !Contains(a + "``", Fence)
    ensures !(Fence <= a + Fence + rest)
  {
    var s := a + Fence + rest;
    var x := a + "``";
    assert x == s[..|x|];
  }

  lemma CleanSuffix(a: string)
    requires |a| > 0 && !Contains(a + "``", Fence)
    ensures !Contains(a[1..] + "``", Fence)
  {
    assert (a + "``")[1..] == a[1..] + "``";
  }

  lemma PairCounted(s: string, a: string, b: string, c: string, n: nat)
    requires s == a + Fence + b + Fence + c && n <= |s| && c == s[n..]
    requires !Contains(a + "``", Fence) && !Contains(b + "``", Fence)
    ensures Count(s, Fence) == 2 + Count(s[n..], Fence)
  {
    CountPair(a, b, c);
  }

  /** A fence with no fence after it is the unpaired tail. */
  lemma LoneFence(s: string, i: nat)
    requires IndexOf(s, Fence) == Some(i)
    requires IndexOf(s[i + 3..], Fence).None?
    ensures UnpairedTail(s, i)
  {
    CountNone(s[i + 3..], Fence);
    FenceFront(s[i..], s[i + 3..]);
  }

  /** An unpaired tail of a suffix that stripping keeps whole is an
      unpaired tail of the whole text. */
  lemma TailLift(s: string, n: nat, pre: string, k': int) returns (k: int)
    requires n <= |s|
    requires UnpairedTail(s[n..], k')
    requires StripFences(s) == pre + StripFences(s[n..])
    ensures k == n + k' && UnpairedTail(s, k)
  {
    k := n + k';
    SuffixShift(s, n, k', k);
    EndsWithConcat(pre, StripFences(s[n..]), s[k..]);
    UnpairedIntro(s, k, s[k..]);
  }

  lemma UnpairedIntro(s: string, k: int, t: string)
    requires OccursAt(s, Fence, k) && t == s[k..]
    requires Count(t, Fence) == 1 && EndsWith(StripFences(s), t)
    ensures UnpairedTail(s, k)
  {
  }

  lemma SuffixShift(s: string, n: nat, k': int, k: int)
    requires n <= |s| && k == n + k'
    requires OccursAt(s[n..], Fence, k')
    ensures OccursAt(s, Fence, k) && s[n..][k'..] == s[k..]
  {
    assert s[n..][k'..k' + 3] == s[k..k + 3];
  }

  /** One `LINK_PATTERN` match: the captured target and the length of text
      the match consumed. */
  datatype LinkMatch = LinkMatch(target: string, len: nat)

  /** `s` begins with the text of match `m`: `[caption](target)` where the
      caption has no `]` and the target is non-empty with no `)`. */
  predicate IsInlineLink(s: string, m: LinkMatch) {
    var q := m.len - |m.target| - 3;
    && 1 <= q && m.len <= |s|
    && s[..m.len] == "[" + s[1..q] + "](" + m.target + ")"
    && ']' !in s[1..q]
    && |m.target| > 0 && ')' !in m.target
  }

  /** `\[[^\]]*\]\(([^)]+)\)` tried at the start of `s`: the label runs to
      the first `]`, which must be followed by `(`; the target runs to the
      first `)` after it and must not be empty. */
  function MatchLinkAt(s: string): (m: Option<LinkMatch>)
    ensures m.Some? ==> IsInlineLink(s, m.value)
    ensures m.Some? ==> |m.value.target| + 4 <= m.value.len <= |s|
  {
    if |s| == 0 || s[0] != '[' then None
    else
      var q := 1 + Find(s[1..], ']');
      if q + 1 >= |s| || s[q + 1] != '(' then None
      else
        var r := q + 2 + Find(s[q + 2..], ')');
        if r >= |s| || r == q + 2 then None
        else
          Some(LinkAt(s, q, r))
  }

  /** The match between the scanner's cut points. */
  function LinkAt(s: string, q: nat, r: nat): (m: LinkMatch)
    requires 1 <= q && q + 2 < r < |s|
    requires s[0] == '[' && s[q + 1] == '('
    requires q - 1 == Find(s[1..], ']') && r - q - 2 == Find(s[q + 2..], ')')
    ensures IsInlineLink(s, m) && m.len == r + 1 && m.target == s[q + 2..r]
  {
    InlineLinkAt(s, q, r);
    LinkMatch(s[q + 2..r], r + 1)
  }

  /** The scanner's cut points delimit a link: the label ends at `q`,
      the target at `r`. */
  lemma InlineLinkAt(s: string, q: nat, r: nat)
    requires 1 <= q && q + 2 < r < |s|
    requires s[0] == '[' && s[q + 1] == '('
    requires q - 1 == Find(s[1..], ']') && r - q - 2 == Find(s[q + 2..], ')')
    ensures IsInlineLink(s, LinkMatch(s[q + 2..r], r + 1))
  {
    var t := s[q + 2..r];
    SliceOfDrop(s, 1, q);
    SliceOfDrop(s, q + 2, r);
    LinkText(s, q, r, t);
  }

  lemma SliceOfDrop(s: string, i: nat, j: nat)
    requires i <= j <= |s|
    ensures s[i..][..j - i] == s[i..j]
    ensures j < |s| ==> s[i..][j - i] == s[j]
  {
  }

  lemma LinkText(s: string, q: nat, r: nat, t: string)
    requires 1 <= q && q + 2 <= r < |s| && t == s[q + 2..r]
    requires s[0] == '[' && s[q] == ']' && s[q + 1] == '(' && s[r] == ')'
    ensures s[..r + 1] == "[" + s[1..q] + "](" + t + ")"
  {
    assert s[..r + 1] == s[..1] + s[1..q] + s[q..q + 2] + s[q + 2..r] + s[r..r + 1];
  }

  /** `[caption](` then the rest: the caption ends at the first `]`. */
  lemma CaptionPart(b: string, caption: string, t1: string)
    requires ']' !in caption
    requires b == "[" + (caption + ("](" + t1))
    ensures |b| > 0 && b[0] == '['
    ensures Find(b[1..], ']') == |caption|
    ensures b[1..|caption| + 1] == caption && b[|caption| + 2..] == "(" + t1
  {
    var t0 := "](" + t1;
    HeadTail(b, '[', caption + t0);
    FindAfter(caption, t0, ']');
    Split2(caption + t0, caption, t0);
    HeadTail(t0, ']', "(" + t1);
  }

  /** `(target)` then the rest: the target ends at the first `)`. */
  lemma TargetPart(d: string, target: string, t3: string)
    requires |target| > 0 && ')' !in target
    requires d == "(" + (target + (")" + t3))
    ensures |d| > 0 && d[0] == '('
    ensures Find(d[1..], ')') == |target|
    ensures d[1..|target| + 1] == target && d[|target| + 2..] == t3
  {
    var t2 := ")" + t3;
    HeadTail(d, '(', target + t2);
    FindAfter(target, t2, ')');
    Split2(target + t2, target, t2);
    HeadTail(t2, ')', t3);
  }

  /** Every text of the link shape is matched, with its own target. */
  lemma MatchLinkAtComplete(caption: string, target: string, rest: string, s: string)
    requires ']' !in caption
    requires |target| > 0 && ')' !in target
    requires s == "[" + caption + "](" + target + ")" + rest
    ensures MatchLinkAt(s) == Some(LinkMatch(target, |caption| + |target| + 4))
  {
    var q := 1 + |caption|;
    var r := q + 2 + |target|;
    LinkCuts(caption, target, rest, s);
    MatchLinkAtIs(s, q, r, target, |caption| + |target| + 4);
  }

  /** Where the scanner cuts the text of a link. */
  lemma LinkCuts(caption: string, target: string, rest: string, s: string)
    requires ']' !in caption
    requires |target| > 0 && ')' !in target
    requires s == "[" + caption + "](" + target + ")" + rest
    ensures var q := 1 + |caption|; var r := q + 2 + |target|;
      && 1 <= q && q + 2 < r < |s| && s[0] == '[' && s[q + 1] == '('
      && Find(s[1..], ']') == q - 1 && Find(s[q + 2..], ')') == r - q - 2
      && target == s[q + 2..r]
  {
    var t1 := target + (")" + rest);
    LinkNested(caption, target, rest, s);
    CaptionPart(s, caption, t1);
    var q := 1 + |caption|;
    var d := s[q + 1..];
    HeadTail(d, '(', t1);
    TargetPart(d, target, rest);
    DropDropAt(s, q + 1, 1);
    SliceAt(s, q + 2, q + 2 + |target|, target, ")" + rest);
  }

  /** The link text followed by `rest`, grouped from the right. */
  lemma LinkNested(caption: string, target: string, rest: string, s: string)
    requires s == "[" + caption + "](" + target + ")" + rest
    ensures s == "[" + (caption + ("](" + (target + (")" + rest))))
  {
  }

  /** The scanner's answer once its two searches are known. */
  lemma MatchLinkAtIs(s: string, q: nat, r: nat, w: string, n: nat)
    requires 1 <= q && q + 2 < r < |s|
    requires s[0] == '[' && s[q + 1] == '('
    requires Find(s[1..], ']') == q - 1 && Find(s[q + 2..], ')') == r - q - 2
    requires w == s[q + 2..r] && n == r + 1
    ensures MatchLinkAt(s) == Some(LinkMatch(w, n))
  {
  }

  /** `LINK_PATTERN.findall(s)`: leftmost matches, each search resuming
      after the previous match. */
  function Links(s: string): (ts: seq<string>)
    ensures forall i :: 0 <= i < |ts| ==> |ts[i]| > 0 && ')' !in ts[i]
    decreases |s|
  {
    if |s| == 0 then []
    else match MatchLinkAt(s)
      case Some(m) => [m.target] + Links(s[m.len..])
      case None => Links(s[1..])
  }

  /** Every extracted target appears in the text as `](target)`. */
  lemma {:induction false} LinkTargetsOccur(s: string)
    ensures forall i :: 0 <= i < |Links(s)| ==> Contains(s, "](" + Links(s)[i] + ")")
    decreases |s|
  {
    if |s| > 0 {
      match MatchLinkAt(s)
      case Some(m) =>
        LinkTargetsOccur(s[m.len..]);
        FirstTargetOccurs(s, m);
        SuffixTargetsOccur(s, m.len, [m.target]);
      case None =>
        LinkTargetsOccur(s[1..]);
        SuffixTargetsOccur(s, 1, []);
    }
  }

  lemma FirstTargetOccurs(s: string, m: LinkMatch)
    requires IsInlineLink(s, m)
    ensures Contains(s, "](" + m.target + ")")
  {
    var q := m.len - |m.target| - 3;
    assert s[..m.len][q..] == "](" + m.target + ")";
    assert s[q..m.len] == "](" + m.target + ")";
    ContainsAt(s, "](" + m.target + ")", q);
  }

  /** Targets found in a suffix occur in the whole text. */
  lemma SuffixTargetsOccur(s: string, n: nat, front: seq<string>)
    requires n <= |s|
    requires forall i :: 0 <= i < |front| ==> Contains(s, "](" + front[i] + ")")
    requires forall i :: 0 <= i < |Links(s[n..])| ==> Contains(s[n..], "](" + Links(s[n..])[i] + ")")
    ensures forall i :: 0 <= i < |front + Links(s[n..])| ==> Contains(s, "](" + (front + Links(s[n..]))[i] + ")")
  {
    var ts := front + Links(s[n..]);
    forall i | 0 <= i < |ts|
      ensures Contains(s, "](" + ts[i] + ")")
    {
      if i >= |front| {
        ContainsSuffix(s, n, "](" + ts[i] + ")");
      }
    }
  }

  /** Text without `[` holds no link. */
  lemma {:induction false} LinksNone(p: string)
    requires '[' !in p
    ensures Links(p) == []
    decreases |p|
  {
    if |p| > 0 {
      LinksNone(p[1..]);
    }
  }

  /** A link after plain text is extracted, and scanning resumes right
      after its `)`. */
  lemma {:induction false} LinksAfterPlain(p: string, caption: string, target: string, rest: string)
    requires '[' !in p && ']' !in caption
    requires |target| > 0 && ')' !in target
    ensures Links(p + "[" + caption + "](" + target + ")" + rest) == [target] + Links(rest)
    decreases |p|
  {
    var s := p + "[" + caption + "](" + target + ")" + rest;
    if |p| == 0 {
      MatchLinkAtComplete(caption, target, rest, s);
      assert s[|caption| + |target| + 4..] == rest;
    } else {
      assert s[0] == p[0];
      assert s[1..] == p[1..] + "[" + caption + "](" + target + ")" + rest;
      LinksAfterPlain(p[1..], caption, target, rest);
    }
  }

  /** Text without a `[` starts no link: scanning passes over it. */
  lemma {:induction false} LinksSkipPlain(p: string, rest: string)
    requires '[' !in p
    ensures Links(p + rest) == Links(rest)
    decreases |p|
  {
    if |p| > 0 {
      var s := p + rest;
      assert s[0] == p[0];
      LinksPassOver(s);
      assert s[1..] == p[1..] + rest;
      LinksSkipPlain(p[1..], rest);
    } else {
      assert p + rest == rest;
    }
  }

  /** A text not starting with `[` contributes what its tail does. */
  lemma LinksPassOver(s: string)
    requires |s| > 0 && s[0] != '['
    ensures Links(s) == Links(s[1..])
  {
    LinksNoMatch(s);
  }

  /** Where no link starts, the scan moves on by one character. */
  lemma LinksNoMatch(s: string)
    requires |s| > 0 && MatchLinkAt(s) == None
    ensures Links(s) == Links(s[1..])
  {
  }

  /** A bracket pair not followed by `(` (a task-list box `[ ]`, a
      reference-style `[label]`) is no link: the scan passes over it and
      extracts from what follows. */
  lemma UnlinkedBracket(p: string, c: string, rest: string)
    requires '[' !in p && '[' !in c && ']' !in c
    requires |rest| == 0 || rest[0] != '('
    ensures Links(p + "[" + c + "]" + rest) == Links(rest)
  {
    var s := "[" + c + "]" + rest;
    assert p + "[" + c + "]" + rest == p + s;
    LinksSkipPlain(p, s);
    BracketThenRest(c, rest);
  }

  lemma BracketThenRest(c: string, rest: string)
    requires '[' !in c && ']' !in c
    requires |rest| == 0 || rest[0] != '('
    ensures Links("[" + c + "]" + rest) == Links(rest)
  {
    var tail := c + "]";
    var s := "[" + (tail + rest);
    assert "[" + c + "]" + rest == s;
    BracketNoLink(c, rest);
    LinksNoMatch(s);
    assert s[1..] == tail + rest;
    assert '[' !in tail;
    LinksSkipPlain(tail, rest);
  }

  /** The match attempt at a `[` fails when its `]` is not followed by `(`. */
  lemma BracketNoLink(c: string, rest: string)
    requires ']' !in c
    requires |rest| == 0 || rest[0] != '('
    ensures MatchLinkAt("[" + c + "]" + rest) == None
  {
    var s := "[" + c + "]" + rest;
    assert s[1..] == c + ("]" + rest);
    FindAfter(c, "]" + rest, ']');
    assert Find(s[1..], ']') == |c|;
    assert |s| > |c| + 2 ==> s[|c| + 2] == rest[0];
  }

  /** `raw_target.split("#", 1)[0]`. */
  function BeforeFragment(raw: string): (b: string)
    ensures b <= raw && '#' !in b
    ensures |b| < |raw| ==> raw[|b|] == '#'
  {
    raw[..Find(raw, '#')]
  }

  /** The only cut of a target with no `#` before it that ends at a `#`
      or at the end is the one before the first `#`. */
  lemma FragmentCutUnique(raw: string)
    ensures forall k :: 0 <= k <= |raw| && '#' !in raw[..k] && (k == |raw| || raw[k] == '#') ==>
      raw[..k] == BeforeFragment(raw)
  {
    forall k | 0 <= k <= |raw| && '#' !in raw[..k] && (k == |raw| || raw[k] == '#')
      ensures raw[..k] == BeforeFragment(raw)
    {
      FindUnique(raw, '#', k);
    }
  }

  /** The path a link target is checked against: the text before the first
      `#` (all of it when there is none), stripped of surrounding
      whitespace. */
  function LinkPath(raw: string): (t: string)
    ensures '#' !in t
    ensures |raw| > 0 && raw[0] == '#' ==> t == ""
    ensures '#' !in raw ==> t == Strip(raw)
    ensures forall k :: 0 <= k <= |raw| && '#' !in raw[..k] && (k == |raw| || raw[k] == '#') ==>
      t == Strip(raw[..k])
  {
    var b := BeforeFragment(raw);
    FragmentCutUnique(raw);
    StripKeepsOut(b, '#');
    FindAbsent(raw, '#');
    assert '#' !in raw ==> b == raw;
    assert |raw| > 0 && raw[0] == '#' ==> |b| == 0;
    Strip(b)
  }

  /** `should_validate`: blank targets, web and mail URLs and bare anchors
      are not checked. */
  function ShouldValidate(target: string): (b: bool)
    ensures AllSpace(target) ==> !b
    ensures b <==> !AllSpace(target) && !SkippedScheme(Strip(target))
  {
    var stripped := Strip(target);
    if |stripped| == 0 then false
    else if SkippedScheme(stripped) then false
    else true
  }

  predicate SkippedScheme(s: string) {
    "http://" <= s || "https://" <= s || "mailto:" <= s || "#" <= s
  }

  /** A link target the rule reports: validated, and not resolving below
      the directory of the document that holds it. */
  predicate IsBroken(t: Tree, dir: Path, raw: string) {
    var target := LinkPath(raw);
    ShouldValidate(target) && !Resolves(t, dir, target)
  }

  /** The broken targets among `raws`: each broken target as often as it
      occurs, nothing else. */
  function BrokenTargets(t: Tree, dir: Path, raws: seq<string>): (bad: seq<string>)
    ensures forall x :: multiset(bad)[x] == if IsBroken(t, dir, x) then multiset(raws)[x] else 0
  {
    Filter(raws, (x: string) => IsBroken(t, dir, x))
  }

  /** The targets a document links to, code samples excluded. */
  function DocumentLinks(content: string): seq<string> {
    Links(StripFences(content))
  }

  /** The failures recorded for one document, one per broken target. */
  function FileLinkFailures(t: Tree, p: Path, content: string): (fs: seq<Failure>)
    ensures var bad := BrokenTargets(t, Parent(p), DocumentLinks(content));
      |fs| == |bad| && forall i :: 0 <= i < |fs| ==> fs[i] == Failure(BrokenLink, p, bad[i])
  {
    var bad := BrokenTargets(t, Parent(p), DocumentLinks(content));
    seq(|bad|, i requires 0 <= i < |bad| => Failure(BrokenLink, p, bad[i]))
  }

  /** `test_all_local_markdown_links_resolve`. */
  function LinkTest(t: Tree, walk: seq<Path>): (o: Outcome)
    ensures o.Errored? <==> exists p :: p in walk && IsCheckedMarkdown(p) && !IsFile(t, p)
  {
    ForEach(MarkdownPaths(walk), (p: Path) => WithFile(t, p, (c: string) => FileLinkFailures(t, p, c)))
  }

  /** A document whose links all resolve. */
  predicate LinksResolve(t: Tree, p: Path) {
    IsFile(t, p) && forall raw :: raw in DocumentLinks(t[p].content) ==> !IsBroken(t, Parent(p), raw)
  }

  /** The link test passes exactly when every checked document is readable
      and none of its links is broken. */
  lemma LinkTestPasses(t: Tree, walk: seq<Path>)
    requires IsWalk(t, walk)
    ensures Passed(LinkTest(t, walk)) <==>
      forall p :: p in t && IsCheckedMarkdown(p) ==> LinksResolve(t, p)
  {
    var body := (p: Path) => WithFile(t, p, (c: string) => FileLinkFailures(t, p, c));
    WalkForEach(t, walk, IsCheckedMarkdown, body);
    forall p | p in t
      ensures Passed(body(p)) <==> LinksResolve(t, p)
    {
      if IsFile(t, p) {
        var bad := BrokenTargets(t, Parent(p), DocumentLinks(t[p].content));
        if |bad| > 0 {
          assert bad[0] in multiset(bad);
        } else {
          forall raw | raw in DocumentLinks(t[p].content)
            ensures !IsBroken(t, Parent(p), raw)
          {
            assert multiset(bad)[raw] == 0;
          }
        }
      }
    }
  }

  /** A relative link naming a sibling document is broken exactly when
      that document is absent: deleting the file adds that one failure. */
  lemma SiblingLinkBroken(t: Tree, dir: Path, name: string)
    requires IsPlainComponent(name) && '#' !in name
    requires !IsSpace(name[0]) && !IsSpace(name[|name| - 1])
    requires !SkippedScheme(name)
    ensures IsBroken(t, dir, name) <==> dir + [name] !in t
  {
    StripNoop(name);
    assert Resolve(dir, name) == Some(dir + [name]);
  }
}
