/** How much of a tool result may enter the model context, and how a larger one is cut.

    Texts are measured in UTF-8 bytes but cut between characters. */
module OutputBudget {
  import opened Optional
  import opened Utf8

  // ---------------------------------------------------------------------------------------
  // Longest prefix and suffix within a byte limit
  // ---------------------------------------------------------------------------------------

  function Bytes(text: string): nat {
    |Encode(text)|
  }

  function Max(a: int, b: int): int {
    if a >= b then a else b
  }

  /** The largest number of characters, at most `k`, that take no more than `limit` bytes. */
  function FitPrefix(text: string, limit: int, k: nat): (r: nat)
    requires k <= |text|
    ensures r <= k
    ensures r == 0 || Offset(text, r) <= limit
    ensures forall m: nat :: r < m <= k ==> Offset(text, m) > limit
  {
    if k == 0 || Offset(text, k) <= limit then k else FitPrefix(text, limit, k - 1)
  }

  /** The smallest number of characters, at least `k`, without which the rest takes no more than
      `limit` bytes. */
  function FitSuffix(text: string, limit: int, k: nat): (r: nat)
    requires k <= |text|
    ensures k <= r <= |text|
    ensures r == |text| || Bytes(text) - Offset(text, r) <= limit
    ensures forall m: nat :: k <= m < r ==> Bytes(text) - Offset(text, m) > limit
    decreases |text| - k
  {
    if k == |text| || Bytes(text) - Offset(text, k) <= limit then k else FitSuffix(text, limit, k + 1)
  }

  function Head(text: string, limit: int): string {
    text[..FitPrefix(text, limit, |text|)]
  }

  function Tail(text: string, limit: int): string {
    text[FitSuffix(text, limit, 0)..]
  }

  lemma WholeOffset(text: string)
    ensures Offset(text, |text|) == Bytes(text) && Offset(text, 0) == 0
  {
    assert text[..|text|] == text && text[..0] == "";
  }

  lemma SuffixBytes(text: string, k: nat)
    requires k <= |text|
    ensures Bytes(text[k..]) == Bytes(text) - Offset(text, k)
    ensures Bytes(text[..k]) == Offset(text, k) <= Bytes(text)
  {
    EncodeSplit(text, k);
  }

  /** `Head` is the longest prefix of whole characters that fits, `Tail` the longest such suffix. */
  lemma HeadAndTailAreLongest(text: string, limit: int, k: nat)
    requires k <= |text|
    ensures Head(text, limit) <= text && Bytes(Head(text, limit)) <= Max(0, limit)
    ensures Tail(text, limit) == text[|text| - |Tail(text, limit)|..] && Bytes(Tail(text, limit)) <= Max(0, limit)
    ensures Bytes(text[..k]) <= limit ==> k <= |Head(text, limit)|
    ensures Bytes(text[k..]) <= limit ==> |text| - k <= |Tail(text, limit)|
    ensures Bytes(text) <= limit ==> Head(text, limit) == text == Tail(text, limit)
  {
    WholeOffset(text);
    var h, t := FitPrefix(text, limit, |text|), FitSuffix(text, limit, 0);
    SuffixBytes(text, h);
    SuffixBytes(text, t);
    SuffixBytes(text, k);
  }

  // ---------------------------------------------------------------------------------------
  // The two cuts as they run, on bytes
  // ---------------------------------------------------------------------------------------

  /** Inside one character only its first byte is a boundary, so backing off over continuation
      bytes from offset `i` ends at the start of the character that contains `i`. */
  lemma BackOff(text: string, k: nat, i: nat)
    requires k < |text| && Offset(text, k) <= i < Offset(text, k + 1)
    ensures FitPrefix(text, i, |text|) == k
    ensures i < |Encode(text)| && (Continuation(Encode(text)[i]) <==> i > Offset(text, k))
  {
    ByteInsideChar(text, k, i);
    var h := FitPrefix(text, i, |text|);
    WholeOffset(text);
    if h > k {
      OffsetMonotone(text, k + 1, h);
    }
  }

  method Utf8Head(text: string, maxBytes: int) returns (r: string)
    ensures r == Head(text, maxBytes)
  {
    hide Encode, Decode, Offset;
    var buf := Encode(text);
    if |buf| <= maxBytes {
      HeadAndTailAreLongest(text, maxBytes, 0);
      return text;
    }
    NegativeLimit(text, maxBytes);
    var end := Max(0, maxBytes);
    if end == |buf| {
      return "";
    }
    ghost var limit := end;
    ghost var k := CharAt(text, limit);
    BackOff(text, k, limit);
    while end < |buf| && Continuation(buf[end])
      invariant Offset(text, k) <= end <= limit < |buf|
      decreases end
    {
      BackOff(text, k, end);
      end := end - 1;
    }
    BackOff(text, k, end);
    EncodeSplit(text, k);
    DecodeEncode(text[..k]);
    r := Decode(buf[..end]).value;
  }

  lemma NegativeLimit(text: string, limit: int)
    ensures FitPrefix(text, limit, |text|) == FitPrefix(text, Max(0, limit), |text|)
    ensures Max(0, limit) == |Encode(text)| ==> Head(text, limit) == "" || |Encode(text)| <= limit
  {
    WholeOffset(text);
    if limit < 0 {
      var h := FitPrefix(text, 0, |text|);
      if h > 0 {
        OffsetMonotone(text, 0, h);
      }
    }
  }

  /** Moving forward over continuation bytes from offset `i` ends at the next character. */
  lemma MoveForward(text: string, k: nat, i: nat)
    requires k < |text| && Offset(text, k) < i <= Offset(text, k + 1)
    ensures FitSuffix(text, Bytes(text) - i, 0) == k + 1
    ensures i < |Encode(text)| ==> (Continuation(Encode(text)[i]) <==> i < Offset(text, k + 1))
  {
    var t := FitSuffix(text, Bytes(text) - i, 0);
    SuffixBytes(text, k + 1);
    if t <= k {
      OffsetMonotone(text, t, k);
    } else if t > k + 1 {
    }
    if i < Offset(text, k + 1) {
      ByteInsideChar(text, k, i);
    } else if i < |Encode(text)| {
      WholeOffset(text);
      OffsetStep(text, k + 1);
      ByteInsideChar(text, k + 1, i);
    }
  }

  method Utf8Tail(text: string, maxBytes: int) returns (r: string)
    ensures r == Tail(text, maxBytes)
  {
    hide Encode, Decode, Offset;
    var buf := Encode(text);
    if |buf| <= maxBytes {
      HeadAndTailAreLongest(text, maxBytes, 0);
      return text;
    }
    var start := Max(0, |buf| - maxBytes);
    if start > |buf| {
      NegativeTail(text, maxBytes);
      return "";
    }
    ghost var from := start;
    ghost var k := CharBefore(text, from);
    MoveForward(text, k, from);
    while start < |buf| && Continuation(buf[start])
      invariant from <= start <= Offset(text, k + 1) <= |buf|
    {
      MoveForward(text, k, start);
      start := start + 1;
    }
    MoveForward(text, k, start);
    EncodeSplit(text, k + 1);
    WholeOffset(text);
    DecodeEncode(text[k + 1..]);
    r := Decode(buf[start..]).value;
  }

  lemma NegativeTail(text: string, limit: int)
    requires limit < 0
    ensures Tail(text, limit) == ""
  {
    var t := FitSuffix(text, limit, 0);
    SuffixBytes(text, t);
  }

  /** The character that contains the byte before offset `i`. */
  lemma CharBefore(text: string, i: nat) returns (k: nat)
    requires 0 < i <= |Encode(text)|
    ensures k < |text| && Offset(text, k) < i <= Offset(text, k + 1) <= |Encode(text)|
  {
    k := CharAt(text, i - 1);
    EncodeSplit(text, k + 1);
  }

  // ---------------------------------------------------------------------------------------
  // Cutting the middle out
  // ---------------------------------------------------------------------------------------

  const MARKER := "[OUTPUT TRUNCATED]"
  const MAX_BYTES := 16 * 1024
  const HEAD_BYTES := 6 * 1024
  const TAIL_BYTES := 4 * 1024

  datatype Budget = Budget(maxBytes: int, headBytes: int, tailBytes: int, marker: string)

  const DEFAULT_BUDGET := Budget(MAX_BYTES, HEAD_BYTES, TAIL_BYTES, MARKER)

  datatype SlicedText = SlicedText(
    content: string, truncated: bool, originalBytes: nat, returnedBytes: nat, omittedBytes: int)

  /** Head, marker and tail of a text that is over the budget. */
  function Shortened(text: string, b: Budget): string {
    Head(text, Max(0, b.headBytes)) + b.marker + Tail(text, Max(0, b.tailBytes))
  }

  function SliceTextToBudget(text: string, b: Budget): SlicedText {
    if Bytes(text) <= b.maxBytes then SlicedText(text, false, Bytes(text), Bytes(text), 0)
    else
      var content := Shortened(text, b);
      if Bytes(content) > b.maxBytes then
        var hard := Head(content, b.maxBytes);
        SlicedText(hard, true, Bytes(text), Bytes(hard), Bytes(text) - Bytes(hard))
      else
        SlicedText(content, true, Bytes(text), Bytes(content), Bytes(text) - Bytes(content) + Bytes(b.marker))
  }

  /** The guard of the hard cut. */
  predicate HardCut(text: string, b: Budget) {
    Bytes(text) > b.maxBytes && Bytes(Shortened(text, b)) > b.maxBytes
  }

  lemma ShortenedBytes(text: string, b: Budget)
    ensures Bytes(Shortened(text, b))
         == Bytes(Head(text, Max(0, b.headBytes))) + Bytes(b.marker) + Bytes(Tail(text, Max(0, b.tailBytes)))
  {
    var h, t := Head(text, Max(0, b.headBytes)), Tail(text, Max(0, b.tailBytes));
    EncodeAppend(h + b.marker, t);
    EncodeAppend(h, b.marker);
  }

  /** The result fits the budget (for a negative limit it is empty), the byte counts are those of
      the texts, and a text is left alone exactly when it fits. */
  lemma SlicedFits(text: string, b: Budget)
    ensures var r := SliceTextToBudget(text, b);
            && Bytes(r.content) <= Max(0, b.maxBytes)
            && r.originalBytes == Bytes(text) && r.returnedBytes == Bytes(r.content)
            && (!r.truncated <==> Bytes(text) <= b.maxBytes)
            && (!r.truncated ==> r.content == text && r.omittedBytes == 0)
            && (r.truncated && b.maxBytes >= 0 ==> r.content != text)
  {
    if HardCut(text, b) {
      HeadAndTailAreLongest(Shortened(text, b), b.maxBytes, 0);
    }
  }

  /** Slicing what was sliced changes nothing. */
  lemma SliceTwice(text: string, b: Budget)
    requires b.maxBytes >= 0
    ensures var r := SliceTextToBudget(text, b);
            SliceTextToBudget(r.content, b).content == r.content && !SliceTextToBudget(r.content, b).truncated
  {
    hide Bytes, Shortened;
    SlicedFits(text, b);
  }

  /** Outside the hard cut the text is exactly head, omitted middle and tail: the result is head,
      marker and tail, and `omittedBytes` is the size of the middle. */
  lemma MiddleIsOmitted(text: string, b: Budget) returns (middle: string)
    requires Bytes(text) > b.maxBytes && !HardCut(text, b)
    ensures var r := SliceTextToBudget(text, b);
            var h, t := Head(text, Max(0, b.headBytes)), Tail(text, Max(0, b.tailBytes));
            && text == h + middle + t
            && r.content == h + b.marker + t
            && r.omittedBytes == Bytes(middle)
  {
    var h, t := FitPrefix(text, Max(0, b.headBytes), |text|), FitSuffix(text, Max(0, b.tailBytes), 0);
    ShortenedBytes(text, b);
    SuffixBytes(text, h);
    SuffixBytes(text, t);
    if t < h {
      OffsetMonotone(text, t, h);
    }
    middle := text[h..t];
    assert text == text[..h] + middle + text[t..];
    EncodeAppend(text[..h], middle);
    EncodeAppend(text[..h] + middle, text[t..]);
  }

  /** In the hard cut the result is the longest prefix of head, marker and tail that fits. */
  lemma HardCutIsLongestPrefix(text: string, b: Budget, k: nat)
    requires HardCut(text, b) && k <= |Shortened(text, b)|
    ensures var r := SliceTextToBudget(text, b);
            && r.content <= Shortened(text, b)
            && (Bytes(Shortened(text, b)[..k]) <= b.maxBytes ==> k <= |r.content|)
            && r.omittedBytes == Bytes(text) - Bytes(r.content)
  {
    HeadAndTailAreLongest(Shortened(text, b), b.maxBytes, k);
  }

  // ---------------------------------------------------------------------------------------
  // Resolving the budget
  // ---------------------------------------------------------------------------------------

  const MAX_SAFE_INTEGER := 0x1f_ffff_ffff_ffff

  /** An environment value: `None` when it is unset, blank or not an integer. */
  function PositiveInt(raw: Option<int>, fallback: int): int {
    if raw.Some? && 0 < raw.value <= MAX_SAFE_INTEGER then raw.value else fallback
  }

  function ResolveToolOutputBudget(max: Option<int>, head: Option<int>, tail: Option<int>): Budget {
    var maxBytes := PositiveInt(max, MAX_BYTES);
    var headBytes := PositiveInt(head, HEAD_BYTES);
    var tailBytes := PositiveInt(tail, TAIL_BYTES);
    if headBytes + tailBytes + Bytes(MARKER) > maxBytes then DEFAULT_BUDGET
    else Budget(maxBytes, headBytes, tailBytes, MARKER)
  }

  lemma {:induction false} AsciiBytes(s: string)
    requires forall i :: 0 <= i < |s| ==> s[i] as int < 0x80
    ensures Bytes(s) == |s|
  {
    if s != "" {
      AsciiBytes(s[1..]);
      assert |EncodeChar(s[0])| == 1;
    }
  }

  /** A budget whose parts fit together never leads to the hard cut. */
  lemma FittingBudgetAvoidsHardCut(text: string, b: Budget)
    requires Max(0, b.headBytes) + Max(0, b.tailBytes) + Bytes(b.marker) <= b.maxBytes
    ensures !HardCut(text, b)
  {
    ShortenedBytes(text, b);
    HeadAndTailAreLongest(text, Max(0, b.headBytes), 0);
    HeadAndTailAreLongest(text, Max(0, b.tailBytes), 0);
  }

  /** A setting that is used: a positive safe integer. */
  predicate Usable(raw: Option<int>) {
    raw.Some? && 1 <= raw.value <= 9007199254740991
  }

  /** Whatever the environment holds, the resolved budget never leads to the hard cut and every result
      fits it. Usable settings stand, with the defaults for the others, when head, marker and tail fit
      into the whole; otherwise all are the defaults. */
  lemma ResolvedBudgetNeverCutsHard(max: Option<int>, head: Option<int>, tail: Option<int>, text: string)
    ensures var b := ResolveToolOutputBudget(max, head, tail);
            !HardCut(text, b) && Bytes(SliceTextToBudget(text, b).content) <= b.maxBytes
    ensures var m := if Usable(max) then max.value else 16384;
            var h := if Usable(head) then head.value else 6144;
            var t := if Usable(tail) then tail.value else 4096;
            ResolveToolOutputBudget(max, head, tail) ==
              if h + 18 + t <= m then Budget(m, h, t, "[OUTPUT TRUNCATED]")
              else Budget(16384, 6144, 4096, "[OUTPUT TRUNCATED]")
  {
    hide Bytes;
    AsciiBytes(MARKER);
    var b := ResolveToolOutputBudget(max, head, tail);
    FittingBudgetAvoidsHardCut(text, b);
    SlicedFits(text, b);
  }
}
