// Which images of a conversation go into a request in full (src/runtime/image-materialize.ts:23-26, 190-204).
// An image is its size in bytes; files, placeholders and messages are not modelled.
module InlineImages {

  const BATCH := 2

  datatype Budget = Budget(maxImages: nat, maxBytes: nat)

  // The length of the base64 text, rounded up.
  function Cost(rawBytes: nat): nat { (rawBytes * 4 + 2) / 3 }

  function CostFrom(slots: seq<nat>, i: nat): nat
    requires i <= |slots|
    decreases |slots| - i
  {
    if i == |slots| then 0 else Cost(slots[i]) + CostFrom(slots, i + 1)
  }

  function Min(a: int, b: int): int { if a < b then a else b }

  // How many of the oldest images the count budget leaves out: whole batches, but never the newest image.
  function Omitted(total: nat, maxImages: nat): int {
    var raw := if total <= maxImages then 0 else (total - maxImages + BATCH - 1) / BATCH * BATCH;
    Min(total - 1, raw)
  }

  // The first image that is sent, from `s` downwards.
  function StartBelow(slots: seq<nat>, s: nat, omit: nat, maxBytes: nat): (r: nat)
    requires omit <= s <= |slots|
    ensures omit <= r <= s
  {
    if s == omit || CostFrom(slots, s - 1) > maxBytes then s else StartBelow(slots, s - 1, omit, maxBytes)
  }

  function Start(slots: seq<nat>, b: Budget): nat
    requires slots != []
  {
    OmittedBounds(|slots|, b.maxImages);
    StartBelow(slots, |slots|, Omitted(|slots|, b.maxImages), b.maxBytes)
  }

  lemma OmittedBounds(total: nat, maxImages: nat)
    requires total > 0
    ensures 0 <= Omitted(total, maxImages) < total
    ensures maxImages > 0 ==> total - Omitted(total, maxImages) <= maxImages
  {
  }

  // The estimate is four thirds of the size, rounded up.
  lemma CostIsRoundedUp(rawBytes: nat)
    ensures 3 * Cost(rawBytes) >= 4 * rawBytes && 3 * (Cost(rawBytes) - 1) < 4 * rawBytes
  {
  }

  // Nothing is left out while the count allows it. Otherwise the least number of pairs after which it does, but
  // never the newest image.
  lemma OmittedIsLeastPairs(total: nat, maxImages: nat)
    requires total > 0
    ensures total <= maxImages ==> Omitted(total, maxImages) == 0
    ensures total > maxImages ==>
      exists pairs: nat :: total - 2 * pairs <= maxImages < total - 2 * (pairs - 1)
        && Omitted(total, maxImages) == if 2 * pairs < total then 2 * pairs else total - 1
  {
    if total > maxImages {
      var pairs := (total - maxImages + 1) / 2;
      assert total - 2 * pairs <= maxImages < total - 2 * (pairs - 1);
    }
  }

  method SelectInline(slots: seq<nat>, b: Budget) returns (inline: set<int>)
    requires slots != []
    ensures forall i :: i in inline <==> Start(slots, b) <= i < |slots|
  {
    OmittedBounds(|slots|, b.maxImages);
    var omitCount := Omitted(|slots|, b.maxImages);
    inline := {};
    var inlineBytes := 0;
    var s := |slots| - 1;
    while s >= omitCount
      invariant omitCount - 1 <= s < |slots|
      invariant inlineBytes == CostFrom(slots, s + 1)
      invariant StartBelow(slots, s + 1, omitCount, b.maxBytes) == Start(slots, b)
      invariant forall i :: i in inline <==> s + 1 <= i < |slots|
      decreases s
    {
      var est := Cost(slots[s]);
      if inlineBytes + est > b.maxBytes { break; }
      inlineBytes := inlineBytes + est;
      inline := inline + {s};
      s := s - 1;
    }
  }

  lemma {:induction false} CostFalls(slots: seq<nat>, i: nat, j: nat)
    requires i <= j <= |slots|
    ensures CostFrom(slots, j) <= CostFrom(slots, i)
    decreases j - i
  {
    if i < j { CostFalls(slots, i + 1, j); }
  }

  lemma {:induction false} StartFits(slots: seq<nat>, s: nat, omit: nat, maxBytes: nat)
    requires omit <= s <= |slots| && CostFrom(slots, s) <= maxBytes
    ensures var r := StartBelow(slots, s, omit, maxBytes);
      CostFrom(slots, r) <= maxBytes && forall i :: omit <= i < r ==> CostFrom(slots, i) > maxBytes
  {
    if s > omit {
      if CostFrom(slots, s - 1) <= maxBytes {
        StartFits(slots, s - 1, omit, maxBytes);
      } else {
        forall i | omit <= i < s ensures CostFrom(slots, i) > maxBytes { CostFalls(slots, i, s - 1); }
      }
    }
  }

  // The images sent are the longest run of the newest ones that the count budget admits and the byte
  // budget holds.
  lemma StartIsLeast(slots: seq<nat>, b: Budget)
    requires slots != [] && b.maxImages > 0
    ensures var s := Start(slots, b);
      && s <= |slots| && |slots| - s <= b.maxImages && CostFrom(slots, s) <= b.maxBytes
      && Omitted(|slots|, b.maxImages) <= s
      && forall i :: Omitted(|slots|, b.maxImages) <= i < s ==> CostFrom(slots, i) > b.maxBytes
  {
    OmittedBounds(|slots|, b.maxImages);
    StartFits(slots, |slots|, Omitted(|slots|, b.maxImages), b.maxBytes);
  }

  lemma OmittedGrows(total: nat, maxImages: nat)
    requires total > 0
    ensures Omitted(total, maxImages) <= Omitted(total + 1, maxImages)
  {
  }

  lemma {:induction false} CostOfMore(slots: seq<nat>, x: nat, i: nat)
    requires i <= |slots|
    ensures CostFrom(slots + [x], i) == CostFrom(slots, i) + Cost(x)
    decreases |slots| - i
  {
    if i < |slots| {
      CostOfMore(slots, x, i + 1);
    } else {
      assert CostFrom(slots + [x], |slots| + 1) == 0;
    }
  }

  // Once an image has been left out it stays out: one more image never moves the start back.
  lemma StartNeverMovesBack(slots: seq<nat>, x: nat, b: Budget)
    requires slots != [] && b.maxImages > 0
    ensures Start(slots, b) <= Start(slots + [x], b)
  {
    hide Omitted, StartBelow, Start;
    StartIsLeast(slots, b);
    StartIsLeast(slots + [x], b);
    OmittedGrows(|slots|, b.maxImages);
    var s := Start(slots + [x], b);
    if s <= |slots| { CostOfMore(slots, x, s); }
  }
}
