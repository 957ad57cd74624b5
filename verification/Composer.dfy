// Prompt composition under a token budget (src/harness/instruction-composer.ts:46-158,
// src/harness/context-harness.ts:886-897, src/harness/model-context.ts:191-199). Texts are sequences of
// characters; that the source may cut one in two UTF-16 units is not modelled.
module Composer {
  import opened StableSort

  // ----- the estimate -----------------------------------------------------------------------------------------

  predicate IsAscii(c: char) { c as int <= 0x7f }

  function AsciiCount(s: string): nat {
    if s == "" then 0 else AsciiCount(s[..|s| - 1]) + if IsAscii(s[|s| - 1]) then 1 else 0
  }

  function OtherCount(s: string): nat {
    if s == "" then 0 else OtherCount(s[..|s| - 1]) + if IsAscii(s[|s| - 1]) then 0 else 1
  }

  // Three ASCII characters to a token, rounded up, and one token for every other character.
  function Estimate(s: string): nat { (AsciiCount(s) + 2) / 3 + OtherCount(s) }

  // Where the characters up to U+007F are, and where the others.
  ghost function Low(s: string): set<int> { set i | 0 <= i < |s| && s[i] as int < 128 }

  ghost function High(s: string): set<int> { set i | 0 <= i < |s| && s[i] as int >= 128 }

  lemma LowOneMore(s: string)
    requires s != ""
    ensures var n := |s| - 1; |Low(s)| == |Low(s[..n])| + if s[n] as int < 128 then 1 else 0
  {
    var n := |s| - 1;
    if s[n] as int < 128 { assert Low(s) == Low(s[..n]) + {n}; } else { assert Low(s) == Low(s[..n]); }
  }

  lemma HighOneMore(s: string)
    requires s != ""
    ensures var n := |s| - 1; |High(s)| == |High(s[..n])| + if s[n] as int >= 128 then 1 else 0
  {
    var n := |s| - 1;
    if s[n] as int >= 128 { assert High(s) == High(s[..n]) + {n}; } else { assert High(s) == High(s[..n]); }
  }

  lemma {:induction false} CountsAreSizes(s: string)
    ensures AsciiCount(s) == |Low(s)| && OtherCount(s) == |High(s)|
  {
    if s == "" {
      assert Low(s) == {} && High(s) == {};
    } else {
      CountsAreSizes(s[..|s| - 1]);
      LowOneMore(s);
      HighOneMore(s);
    }
  }

  // So the estimate is one token for every other character and a third, rounded up, for these.
  lemma EstimateCounts(s: string)
    ensures |Low(s)| <= 3 * (Estimate(s) - |High(s)|) < |Low(s)| + 3
  {
    CountsAreSizes(s);
  }

  method EstimateTextTokens(text: string) returns (tokens: nat)
    ensures tokens == Estimate(text)
  {
    var ascii, nonAscii := 0, 0;
    for i := 0 to |text|
      invariant ascii == AsciiCount(text[..i]) && nonAscii == OtherCount(text[..i])
    {
      assert text[..i + 1][..i] == text[..i];
      if text[i] as int <= 0x7f { ascii := ascii + 1; } else { nonAscii := nonAscii + 1; }
    }
    assert text[..|text|] == text;
    tokens := (ascii + 2) / 3 + nonAscii;
  }

  lemma {:induction false} CountsAppend(a: string, b: string)
    ensures AsciiCount(a + b) == AsciiCount(a) + AsciiCount(b) && OtherCount(a + b) == OtherCount(a) + OtherCount(b)
  {
    if b == "" {
      assert a + b == a;
    } else {
      CountsAppend(a, b[..|b| - 1]);
      assert (a + b)[..|a + b| - 1] == a + b[..|b| - 1];
    }
  }

  // Joining texts never costs more than the texts, and never less than either.
  lemma EstimateJoin(a: string, b: string)
    ensures Estimate(a) <= Estimate(a + b) <= Estimate(a) + Estimate(b) && Estimate(b) <= Estimate(a + b)
    ensures Estimate("") == 0
  {
    CountsAppend(a, b);
  }

  lemma EstimatePrefix(s: string, i: nat, j: nat)
    requires i <= j <= |s|
    ensures Estimate(s[..i]) <= Estimate(s[..j])
  {
    EstimateJoin(s[..i], s[i..j]);
    assert s[..i] + s[i..j] == s[..j];
  }

  // ----- truncation by binary search ------------------------------------------------------------------------------

  const MARKER := "\n" + ['\U{2026}'] + "[truncated]"

  const MARKER_TOKENS := 5

  lemma MarkerTokens()
    ensures Estimate(MARKER) == MARKER_TOKENS
  {
    var m := MARKER;
    assert m[..0] == "";
    assert AsciiCount(m[..1]) == 1 && OtherCount(m[..1]) == 0 by { assert m[..1][..0] == ""; }
    assert AsciiCount(m[..2]) == 1 && OtherCount(m[..2]) == 1 by { assert m[..2][..1] == m[..1]; }
    AllAscii(m[2..]);
    CountsAppend(m[..2], m[2..]);
    assert m == m[..2] + m[2..];
  }

  lemma {:induction false} AllAscii(s: string)
    requires forall i :: 0 <= i < |s| ==> IsAscii(s[i])
    ensures AsciiCount(s) == |s| && OtherCount(s) == 0
  {
    if s != "" { AllAscii(s[..|s| - 1]); }
  }

  function Max(a: int, b: int): int { if a < b then b else a }

  // The length of the longest prefix, no longer than `k`, whose estimate is within the limit.
  function LongestWithin(text: string, limit: nat, k: nat): (r: nat)
    requires k <= |text|
    ensures r <= k && Estimate(text[..r]) <= limit && forall j :: r < j <= k ==> Estimate(text[..j]) > limit
  {
    if k == 0 then
      EstimateJoin("", "");
      assert text[..0] == "";
      0
    else if Estimate(text[..k]) <= limit then k
    else LongestWithin(text, limit, k - 1)
  }

  // The binary search ends at the longest prefix, because the estimate grows with the prefix.
  method LongestPrefix(text: string, limit: nat) returns (low: nat)
    ensures low == LongestWithin(text, limit, |text|)
  {
    hide Estimate;
    low := 0;
    var high := |text|;
    assert text[..0] == "";
    EstimateJoin("", "");
    while low < high
      invariant low <= high <= |text|
      invariant Estimate(text[..low]) <= limit
      invariant forall j :: high < j <= |text| ==> Estimate(text[..j]) > limit
      decreases high - low
    {
      var mid := (low + high + 1) / 2;
      if Estimate(text[..mid]) <= limit {
        low := mid;
      } else {
        forall j | mid <= j <= |text| ensures Estimate(text[..j]) > limit { EstimatePrefix(text, mid, j); }
        high := mid - 1;
      }
    }
  }

  function Truncated(text: string, maxTokens: int): string {
    if Estimate(text) <= maxTokens then text
    else text[..LongestWithin(text, Max(0, maxTokens - MARKER_TOKENS), |text|)] + MARKER
  }

  method TruncateToTokens(text: string, maxTokens: int) returns (r: string, truncated: bool, tokens: nat)
    ensures r == Truncated(text, maxTokens) && tokens == Estimate(r)
    ensures truncated <==> Estimate(text) > maxTokens
  {
    hide Estimate, LongestWithin;
    var originalTokens := EstimateTextTokens(text);
    if originalTokens <= maxTokens { return text, false, originalTokens; }
    var markerTokens := EstimateTextTokens(MARKER);
    MarkerTokens();
    var low := LongestPrefix(text, Max(0, maxTokens - markerTokens));
    r := text[..low] + MARKER;
    truncated := true;
    tokens := EstimateTextTokens(r);
  }

  // The cut text is the first `k` characters and the marker, and more characters would leave it no room.
  ghost predicate CutsAt(text: string, maxTokens: int, k: int) {
    && 0 <= k <= |text| && Truncated(text, maxTokens) == text[..k] + MARKER
    && forall j :: k < j <= |text| ==> Estimate(text[..j]) > Max(0, maxTokens - MARKER_TOKENS)
  }

  // A text that is cut keeps its longest prefix that leaves room for the marker, and meets its budget
  // exactly when the budget holds the marker at all.
  lemma TruncationMeetsBudget(text: string, maxTokens: int)
    ensures Estimate(Truncated(text, maxTokens)) <= maxTokens <==> Estimate(text) <= maxTokens || maxTokens >= MARKER_TOKENS
    ensures Estimate(text) > maxTokens ==> exists k :: CutsAt(text, maxTokens, k)
  {
    hide Estimate, LongestWithin;
    MarkerTokens();
    if Estimate(text) > maxTokens {
      var k := LongestWithin(text, Max(0, maxTokens - MARKER_TOKENS), |text|);
      EstimateJoin(text[..k], MARKER);
      assert CutsAt(text, maxTokens, k);
    }
  }

  // The harness measures the cut text together with the marker; the answer is never longer than needed
  // and never shorter than with the composer's rule.
  function HarnessTruncated(text: string, maxTokens: int): string {
    if Estimate(text) <= maxTokens then text else text[..LongestMarked(text, maxTokens, |text|)] + MARKER
  }

  function LongestMarked(text: string, maxTokens: int, k: nat): (r: nat)
    requires k <= |text|
    ensures r <= k && (r == 0 || Estimate(text[..r] + MARKER) <= maxTokens)
    ensures forall j :: r < j <= k ==> Estimate(text[..j] + MARKER) > maxTokens
  {
    if k == 0 || Estimate(text[..k] + MARKER) <= maxTokens then k else LongestMarked(text, maxTokens, k - 1)
  }

  lemma MarkedGrows(text: string, i: nat, j: nat)
    requires i <= j <= |text|
    ensures Estimate(text[..i] + MARKER) <= Estimate(text[..j] + MARKER)
  {
    CountsAppend(text[..i], MARKER);
    CountsAppend(text[..j], MARKER);
    CountsAppend(text[..i], text[i..j]);
    assert text[..i] + text[i..j] == text[..j];
  }

  method TruncateForHarness(text: string, maxTokens: int) returns (r: string)
    ensures r == HarnessTruncated(text, maxTokens)
  {
    hide Estimate, LongestMarked;
    if Estimate(text) <= maxTokens { return text; }
    var low, high := 0, |text|;
    while low < high
      invariant low <= high <= |text|
      invariant low == 0 || Estimate(text[..low] + MARKER) <= maxTokens
      invariant forall j :: high < j <= |text| ==> Estimate(text[..j] + MARKER) > maxTokens
      decreases high - low
    {
      var mid := (low + high + 1) / 2;
      if Estimate(text[..mid] + MARKER) <= maxTokens {
        low := mid;
      } else {
        forall j | mid <= j <= |text| ensures Estimate(text[..j] + MARKER) > maxTokens { MarkedGrows(text, mid, j); }
        high := mid - 1;
      }
    }
    r := text[..low] + MARKER;
  }

  // A text within the limit is left alone. Otherwise it is cut to the longest beginning with which the marker is
  // still within the limit, or to the marker alone.
  ghost predicate MarkedAt(text: string, maxTokens: int, k: int) {
    && 0 <= k <= |text| && HarnessTruncated(text, maxTokens) == text[..k] + MARKER
    && (k == 0 || Estimate(text[..k] + MARKER) <= maxTokens)
    && forall j :: k < j <= |text| ==> Estimate(text[..j] + MARKER) > maxTokens
  }

  lemma HarnessCutIsLongest(text: string, maxTokens: int)
    ensures Estimate(text) <= maxTokens ==> HarnessTruncated(text, maxTokens) == text
    ensures Estimate(text) > maxTokens ==> exists k :: MarkedAt(text, maxTokens, k)
  {
    hide Estimate;
    if Estimate(text) > maxTokens { assert MarkedAt(text, maxTokens, LongestMarked(text, maxTokens, |text|)); }
  }

  lemma HarnessKeepsMore(text: string, maxTokens: int)
    requires Estimate(text) > maxTokens
    ensures |Truncated(text, maxTokens)| <= |HarnessTruncated(text, maxTokens)|
    ensures maxTokens >= MARKER_TOKENS ==> Estimate(HarnessTruncated(text, maxTokens)) <= maxTokens
  {
    hide Estimate, LongestMarked, LongestWithin;
    MarkerTokens();
    var k := LongestWithin(text, Max(0, maxTokens - MARKER_TOKENS), |text|);
    EstimateJoin(text[..k], MARKER);
    var h := LongestMarked(text, maxTokens, |text|);
    assert text[..0] + MARKER == MARKER;
    if maxTokens < MARKER_TOKENS && k > 0 { NothingFree(text, k); }
  }

  lemma NothingFree(text: string, k: nat)
    requires 0 < k <= |text|
    ensures Estimate(text[..k]) > 0
  {
  }

  // ----- composition ------------------------------------------------------------------------------------------------

  datatype Segment = Segment(id: string, priority: int, content: string, budgetTokens: int)

  // `isKernel` marks the segment with the kernel id, which the caller may set.
  datatype Prepared = Prepared(id: string, text: string, tokens: nat, isKernel: bool)

  function PriorityOf(s: Segment): int { s.priority }

  function Prepare(s: Segment, kernelId: string): Prepared {
    Prepared(s.id, Truncated(s.content, s.budgetTokens), Estimate(Truncated(s.content, s.budgetTokens)), s.id == kernelId)
  }

  function PrepareAll(segments: seq<Segment>, kernelId: string): (r: seq<Prepared>)
    ensures |r| == |segments| && forall i :: 0 <= i < |r| ==> r[i] == Prepare(segments[i], kernelId)
  {
    seq(|segments|, i requires 0 <= i < |segments| => Prepare(segments[i], kernelId))
  }

  // Segments from `c` on are dropped, the kernel excepted.
  predicate Keeps(p: Prepared, i: int, c: int) { i < c || p.isKernel }

  // One token for the separator of each kept segment.
  function TotalKept(ps: seq<Prepared>, c: int): nat {
    if ps == [] then 0
    else
      TotalKept(ps[..|ps| - 1], c) + if Keeps(ps[|ps| - 1], |ps| - 1, c) then ps[|ps| - 1].tokens + 1 else 0
  }

  // The fewest segments dropped from the end that bring the total within the limit; all when none suffice.
  function CutPoint(ps: seq<Prepared>, c: nat, maxTokens: int): (r: nat)
    ensures r <= c && (r == 0 || TotalKept(ps, r) <= maxTokens)
    ensures forall j :: r < j <= c ==> TotalKept(ps, j) > maxTokens
  {
    if c == 0 || TotalKept(ps, c) <= maxTokens then c else CutPoint(ps, c - 1, maxTokens)
  }

  function KeptTexts(ps: seq<Prepared>, c: int): seq<string> {
    if ps == [] then []
    else
      KeptTexts(ps[..|ps| - 1], c) + if Keeps(ps[|ps| - 1], |ps| - 1, c) then [ps[|ps| - 1].text] else []
  }

  function Join(texts: seq<string>): string {
    if texts == [] then ""
    else if |texts| == 1 then texts[0]
    else Join(texts[..|texts| - 1]) + "\n\n" + texts[|texts| - 1]
  }

  function Compose(segments: seq<Segment>, kernelId: string, maxTokens: int): string {
    var ps := PrepareAll(SortBy(segments, PriorityOf), kernelId);
    Join(KeptTexts(ps, CutPoint(ps, |ps|, maxTokens)))
  }

  lemma {:induction false} DropOne(ps: seq<Prepared>, c: nat)
    requires c < |ps|
    ensures TotalKept(ps, c) == TotalKept(ps, c + 1) - if ps[c].isKernel then 0 else ps[c].tokens + 1
  {
    var n := |ps| - 1;
    if c == n {
      SameBelow(ps[..n], c, c + 1);
    } else {
      DropOne(ps[..n], c);
    }
  }

  lemma {:induction false} SameBelow(ps: seq<Prepared>, c: nat, d: nat)
    requires |ps| <= c && |ps| <= d
    ensures TotalKept(ps, c) == TotalKept(ps, d)
  {
    if ps != [] { SameBelow(ps[..|ps| - 1], c, d); }
  }

  method PrepareSegments(ordered: seq<Segment>, kernelId: string) returns (prepared: seq<Prepared>, total: nat)
    ensures prepared == PrepareAll(ordered, kernelId) && total == TotalKept(prepared, |prepared|)
  {
    hide Estimate, Truncated;
    prepared, total := [], 0;
    ghost var ps := PrepareAll(ordered, kernelId);
    for i := 0 to |ordered|
      invariant prepared == ps[..i] && total == TotalKept(ps[..i], |ps|)
    {
      var text, _, tokens := TruncateToTokens(ordered[i].content, ordered[i].budgetTokens);
      assert ps[..i + 1][..i] == ps[..i];
      prepared := prepared + [Prepared(ordered[i].id, text, tokens, ordered[i].id == kernelId)];
      total := total + tokens + 1;
    }
    assert ps[..|ps|] == ps;
  }

  method DropTail(prepared: seq<Prepared>, all: nat, maxTokens: int) returns (dropped: seq<bool>)
    requires all == TotalKept(prepared, |prepared|)
    ensures |dropped| == |prepared|
    ensures forall i :: 0 <= i < |prepared| ==> dropped[i] == !Keeps(prepared[i], i, CutPoint(prepared, |prepared|, maxTokens))
  {
    hide TotalKept, CutPoint, Keeps;
    var total: int := all;
    dropped := seq(|prepared|, _ => false);
    forall k | 0 <= k < |prepared| ensures Keeps(prepared[k], k, |prepared|) { KeptBelow(prepared[k], k, |prepared|); }
    var i := |prepared| - 1;
    while i >= 0 && total > maxTokens
      invariant -1 <= i < |prepared| == |dropped|
      invariant total == TotalKept(prepared, i + 1)
      invariant CutPoint(prepared, i + 1, maxTokens) == CutPoint(prepared, |prepared|, maxTokens)
      invariant forall k :: 0 <= k < |prepared| ==> dropped[k] == !Keeps(prepared[k], k, i + 1)
      decreases i
    {
      DropOne(prepared, i);
      CutStep(prepared, i + 1, maxTokens);
      KeepsStep(prepared, i);
      if !prepared[i].isKernel {
        total := total - (prepared[i].tokens + 1);
        dropped := dropped[i := true];
      }
      i := i - 1;
    }
    CutStep(prepared, i + 1, maxTokens);
  }

  method ComposePrompt(segments: seq<Segment>, kernelId: string, maxTokens: int) returns (content: string, dropped: seq<bool>)
    ensures content == Compose(segments, kernelId, maxTokens)
    ensures var ps := PrepareAll(SortBy(segments, PriorityOf), kernelId);
      |dropped| == |ps| && forall i :: 0 <= i < |ps| ==> dropped[i] == !Keeps(ps[i], i, CutPoint(ps, |ps|, maxTokens))
  {
    hide PrepareAll, CutPoint, Keeps, KeptTexts, TotalKept, Join, Truncated, Estimate, SortBy, Prepare;
    var prepared, total := PrepareSegments(SortBy(segments, PriorityOf), kernelId);
    dropped := DropTail(prepared, total, maxTokens);
    ghost var c := CutPoint(prepared, |prepared|, maxTokens);
    var kept: seq<string> := [];
    NothingKept(c);
    for k := 0 to |prepared|
      invariant kept == KeptTexts(prepared[..k], c)
    {
      assert prepared[..k + 1][..k] == prepared[..k];
      KeptStep(prepared[..k + 1], c);
      if !dropped[k] { kept := kept + [prepared[k].text]; }
    }
    assert prepared[..|prepared|] == prepared;
    content := Join(kept);
  }

  lemma NothingKept(c: int)
    ensures KeptTexts([], c) == []
  {
  }

  lemma KeptBelow(p: Prepared, i: int, c: int)
    requires i < c
    ensures Keeps(p, i, c)
  {
  }

  lemma KeptStep(ps: seq<Prepared>, c: int)
    requires ps != []
    ensures KeptTexts(ps, c) == KeptTexts(ps[..|ps| - 1], c) + if Keeps(ps[|ps| - 1], |ps| - 1, c) then [ps[|ps| - 1].text] else []
  {
  }

  lemma CutStep(ps: seq<Prepared>, c: nat, maxTokens: int)
    ensures CutPoint(ps, c, maxTokens) == if c == 0 || TotalKept(ps, c) <= maxTokens then c else CutPoint(ps, c - 1, maxTokens)
  {
  }

  lemma KeepsStep(ps: seq<Prepared>, i: nat)
    requires i < |ps|
    ensures forall k :: 0 <= k < |ps| && k != i ==> (Keeps(ps[k], k, i) <==> Keeps(ps[k], k, i + 1))
    ensures Keeps(ps[i], i, i) <==> ps[i].isKernel
    ensures Keeps(ps[i], i, i + 1)
  {
  }

  // ----- what composition guarantees ------------------------------------------------------------------------------------

  lemma {:induction false} JoinCost(texts: seq<string>, ps: seq<Prepared>, c: int)
    requires texts == KeptTexts(ps, c) && forall i :: 0 <= i < |ps| ==> ps[i].tokens == Estimate(ps[i].text)
    ensures Estimate(Join(texts)) <= TotalKept(ps, c)
    decreases |ps|
  {
    hide Estimate;
    EstimateJoin("", "");
    if ps != [] {
      var front := ps[..|ps| - 1];
      JoinCost(KeptTexts(front, c), front, c);
      if Keeps(ps[|ps| - 1], |ps| - 1, c) {
        JoinOne(KeptTexts(front, c), ps[|ps| - 1].text);
      } else {
        assert texts == KeptTexts(front, c);
      }
    }
  }

  lemma JoinOne(texts: seq<string>, last: string)
    ensures Estimate(Join(texts + [last])) <= Estimate(Join(texts)) + Estimate(last) + 1
  {
    hide Estimate;
    if texts == [] {
      assert texts + [last] == [last];
      EstimateJoin("", "");
    } else {
      assert (texts + [last])[..|texts|] == texts;
      SeparatorCost();
      EstimateJoin(Join(texts), "\n\n");
      EstimateJoin(Join(texts) + "\n\n", last);
    }
  }

  lemma SeparatorCost()
    ensures Estimate("\n\n") == 1
  {
    AllAscii("\n\n");
  }

  // A composed prompt that keeps any segment but the kernel is within its limit.
  lemma ComposedWithinLimit(segments: seq<Segment>, kernelId: string, maxTokens: int)
    ensures var ps := PrepareAll(SortBy(segments, PriorityOf), kernelId);
      var c := CutPoint(ps, |ps|, maxTokens);
      (exists i :: 0 <= i < |ps| && !ps[i].isKernel && Keeps(ps[i], i, c)) ==> Estimate(Compose(segments, kernelId, maxTokens)) <= maxTokens
  {
    hide Estimate, Truncated;
    var ps := PrepareAll(SortBy(segments, PriorityOf), kernelId);
    var c := CutPoint(ps, |ps|, maxTokens);
    JoinCost(KeptTexts(ps, c), ps, c);
  }

  // The dropped segments are a tail of the order, and dropping any less of it would exceed the limit.
  lemma DroppedTailIsMinimal(segments: seq<Segment>, kernelId: string, maxTokens: int, d: nat)
    ensures var ps := PrepareAll(SortBy(segments, PriorityOf), kernelId);
      var c := CutPoint(ps, |ps|, maxTokens);
      && (forall i, j :: 0 <= i < j < |ps| && !Keeps(ps[i], i, c) && !ps[j].isKernel ==> !Keeps(ps[j], j, c))
      && (forall i :: 0 <= i < |ps| && ps[i].isKernel ==> Keeps(ps[i], i, c))
      && (c < d <= |ps| ==> TotalKept(ps, d) > maxTokens)
      && (forall i, j :: 0 <= i < j < |ps| ==> SortBy(segments, PriorityOf)[i].priority <= SortBy(segments, PriorityOf)[j].priority)
  {
    hide Estimate, Truncated;
    SortBySorts(segments, PriorityOf);
    var o := SortBy(segments, PriorityOf);
    assert forall i, j :: 0 <= i < j < |o| ==> PriorityOf(o[i]) <= PriorityOf(o[j]);
  }

  // ----- the prompt as it reads -------------------------------------------------------------------------------------

  // The texts of the first `d` segments and of the kernel, each cut to its own budget, in order.
  function Chosen(ordered: seq<Segment>, kernelId: string, d: int): seq<string> {
    if ordered == [] then []
    else
      var s := ordered[0];
      (if d > 0 || s.id == kernelId then [Truncated(s.content, s.budgetTokens)] else []) + Chosen(ordered[1..], kernelId, d - 1)
  }

  // What the texts are taken to cost, each with its separator.
  function Cost(texts: seq<string>): nat {
    if texts == [] then 0 else Estimate(texts[0]) + 1 + Cost(texts[1..])
  }

  // The texts with blank lines between them.
  function Spliced(texts: seq<string>): string {
    if texts == [] then "" else if |texts| == 1 then texts[0] else texts[0] + "\n\n" + Spliced(texts[1..])
  }

  lemma {:induction false} ChosenSnoc(front: seq<Segment>, s: Segment, kernelId: string, d: int)
    ensures Chosen(front + [s], kernelId, d) == Chosen(front, kernelId, d)
      + if |front| < d || s.id == kernelId then [Truncated(s.content, s.budgetTokens)] else []
  {
    hide Truncated;
    if front == [] {
      assert [] + [s] == [s] && [s][1..] == [];
    } else {
      assert (front + [s])[1..] == front[1..] + [s];
      ChosenSnoc(front[1..], s, kernelId, d - 1);
    }
  }

  lemma {:induction false} CostSnoc(texts: seq<string>, last: string)
    ensures Cost(texts + [last]) == Cost(texts) + Estimate(last) + 1
  {
    hide Estimate;
    if texts == [] {
      assert [] + [last] == [last] && [last][1..] == [];
    } else {
      assert (texts + [last])[1..] == texts[1..] + [last];
      CostSnoc(texts[1..], last);
    }
  }

  lemma {:induction false} SplicedSnoc(texts: seq<string>, last: string)
    requires texts != []
    ensures Spliced(texts + [last]) == Spliced(texts) + "\n\n" + last
  {
    assert (texts + [last])[1..] == texts[1..] + [last];
    if |texts| > 1 {
      SplicedSnoc(texts[1..], last);
    } else {
      assert texts[1..] + [last] == [last];
    }
  }

  lemma {:induction false} JoinSplices(texts: seq<string>)
    ensures Join(texts) == Spliced(texts)
  {
    if |texts| > 1 {
      var front, last := texts[..|texts| - 1], texts[|texts| - 1];
      JoinSplices(front);
      SplicedSnoc(front, last);
      assert texts == front + [last];
    }
  }

  lemma {:induction false} KeptAreChosen(ordered: seq<Segment>, kernelId: string, d: int)
    ensures KeptTexts(PrepareAll(ordered, kernelId), d) == Chosen(ordered, kernelId, d)
    ensures TotalKept(PrepareAll(ordered, kernelId), d) == Cost(Chosen(ordered, kernelId, d))
  {
    hide Truncated, Estimate;
    if ordered != [] {
      var n := |ordered| - 1;
      var front, s := ordered[..n], ordered[n];
      KeptAreChosen(front, kernelId, d);
      assert PrepareAll(ordered, kernelId)[..n] == PrepareAll(front, kernelId);
      assert ordered == front + [s];
      ChosenSnoc(front, s, kernelId, d);
      if n < d || s.id == kernelId {
        CostSnoc(Chosen(front, kernelId, d), Truncated(s.content, s.budgetTokens));
      } else {
        assert Chosen(ordered, kernelId, d) == Chosen(front, kernelId, d);
      }
    }
  }

  // `c` segments from the start of the order and the kernel make the prompt; no more would be within the limit.
  ghost predicate IsMadeOf(prompt: string, ordered: seq<Segment>, kernelId: string, maxTokens: int, c: nat) {
    && c <= |ordered| && prompt == Spliced(Chosen(ordered, kernelId, c))
    && (c == 0 || Cost(Chosen(ordered, kernelId, c)) <= maxTokens)
    && forall d :: c < d <= |ordered| ==> Cost(Chosen(ordered, kernelId, d)) > maxTokens
  }

  // The prompt is made of as many segments from the start of the order as the limit has room for, and of the kernel,
  // each cut to its own budget, with blank lines between them.
  lemma PromptReads(segments: seq<Segment>, kernelId: string, maxTokens: int)
    ensures exists c: nat ::
      IsMadeOf(Compose(segments, kernelId, maxTokens), SortBy(segments, PriorityOf), kernelId, maxTokens, c)
  {
    hide Truncated, Estimate, Chosen, Cost, Spliced, Join, KeptTexts, TotalKept;
    var ordered := SortBy(segments, PriorityOf);
    var ps := PrepareAll(ordered, kernelId);
    var c := CutPoint(ps, |ps|, maxTokens);
    JoinSplices(KeptTexts(ps, c));
    forall d ensures KeptTexts(ps, d) == Chosen(ordered, kernelId, d) && TotalKept(ps, d) == Cost(Chosen(ordered, kernelId, d)) {
      KeptAreChosen(ordered, kernelId, d);
    }
    assert IsMadeOf(Compose(segments, kernelId, maxTokens), ordered, kernelId, maxTokens, c);
  }
}
