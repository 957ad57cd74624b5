// Which tool results a projection shortens and to what, told from the messages alone
// (src/harness/tool-output-projection.ts:106-211).
module ProjectionRules {
  import opened OutputBudget
  import opened ToolProjection
  import opened Transcript
  import opened Utf8

  // ----- what is shortened --------------------------------------------------------------------------------------

  // The longest prefix that is no longer than the limit.
  ghost predicate LongestHead(text: string, limit: nat, head: string) {
    && head <= text && |Encode(head)| <= limit
    && forall k :: 0 <= k <= |text| && |Encode(text[..k])| <= limit ==> k <= |head|
  }

  // The longest suffix that is no longer than the limit.
  ghost predicate LongestTail(text: string, limit: nat, tail: string) {
    && |tail| <= |text| && text[|text| - |tail|..] == tail && |Encode(tail)| <= limit
    && forall k :: 0 <= k <= |text| && |Encode(text[k..])| <= limit ==> |text| - k <= |tail|
  }

  lemma HeadIsLongest(text: string, limit: nat)
    ensures LongestHead(text, limit, Head(text, limit))
  {
    HeadAndTailAreLongest(text, limit, 0);
    hide Encode, Head, Tail;
    forall k | 0 <= k <= |text| && |Encode(text[..k])| <= limit ensures k <= |Head(text, limit)| {
      HeadAndTailAreLongest(text, limit, k);
    }
  }

  lemma TailIsLongest(text: string, limit: nat)
    ensures LongestTail(text, limit, Tail(text, limit))
  {
    HeadAndTailAreLongest(text, limit, 0);
    hide Encode, Head, Tail;
    forall k | 0 <= k <= |text| && |Encode(text[k..])| <= limit ensures |text| - k <= |Tail(text, limit)| {
      HeadAndTailAreLongest(text, limit, k);
    }
  }

  lemma MarkerSize()
    ensures |Encode("[OUTPUT TRUNCATED]")| == 18
  {
    AsciiBytes("[OUTPUT TRUNCATED]");
  }

  // Before the boundary, exactly the tool results that are longer than their projection would be are shortened: to
  // the longest head and the longest tail within their limits, with the marker between them.
  lemma WhatIsShortened(ms: seq<Message>, policy: Policy, i: nat)
    requires i < |ms|
    ensures var m, r := ms[i], Project(ms, policy)[i];
      if policy.enabled && i < Boundary(ms, policy) && m.role == Tool
         && |Encode(m.content)| > policy.headBytes + 18 + policy.tailBytes then
        exists head, tail ::
          && r == m.(content := head + "[OUTPUT TRUNCATED]" + tail)
          && LongestHead(m.content, policy.headBytes, head) && LongestTail(m.content, policy.tailBytes, tail)
      else r == m
  {
    MarkerSize();
    HeadIsLongest(ms[i].content, policy.headBytes);
    TailIsLongest(ms[i].content, policy.tailBytes);
    hide Encode, Head, Tail, Boundary, LongestHead, LongestTail;
  }

  // ----- what is kept -------------------------------------------------------------------------------------------

  lemma {:induction false} KthLastIs(ms: seq<Message>, role: Role, k: nat)
    requires k > 0
    ensures var q := KthLast(ms, role, k);
      if Count(ms, role) < k then q == -1 else q >= 0 && ms[q].role == role && Count(ms[q..], role) == k
    decreases |ms|
  {
    if ms != [] {
      var n := |ms| - 1;
      var front, mine := ms[..n], ms[n].role == role;
      if mine && k == 1 {
        assert ms[n..] == [ms[n]] && [ms[n]][..0] == [];
      } else {
        KthLastIs(front, role, if mine then k - 1 else k);
        var q := KthLast(front, role, if mine then k - 1 else k);
        if q >= 0 { CountTail(ms, role, q); }
      }
    }
  }

  // More than the first message has to be kept for the `k` latest messages with this role.
  predicate Binding(ms: seq<Message>, role: Role, k: nat) {
    k > 0 && ms != [] && Count(ms[1..], role) >= k
  }

  lemma CountFrom(ms: seq<Message>, a: nat, b: nat, role: Role)
    requires a <= b <= |ms|
    ensures Count(ms[b..], role) <= Count(ms[a..], role)
    ensures b == a + 1 ==> Count(ms[a..], role) == Count(ms[b..], role) + if ms[a].role == role then 1 else 0
  {
    CountAppend(ms[a..b], ms[b..], role);
    assert ms[a..b] + ms[b..] == ms[a..];
    if b == a + 1 { assert ms[a..b] == [ms[a]] && [ms[a]][..0] == []; }
  }

  lemma KeepFromIs(ms: seq<Message>, role: Role, k: nat)
    ensures var q := KeepFrom(ms, role, k);
      && (q > 0 <==> Binding(ms, role, k))
      && (q > 0 ==> q < |ms| && ms[q].role == role && Count(ms[q..], role) == k)
  {
    if k > 0 && ms != [] {
      KthLastIs(ms, role, k);
      var q := KthLast(ms, role, k);
      assert ms[0..] == ms;
      CountFrom(ms, 0, 1, role);
      if q > 0 { CountFrom(ms, 1, q, role); }
      hide Count, KthLast;
    }
  }

  // From `d` on there are as many messages with this role as have to be kept.
  predicate Leaves(ms: seq<Message>, role: Role, k: nat, d: nat)
    requires d <= |ms|
  {
    Binding(ms, role, k) ==> Count(ms[d..], role) >= k
  }

  // It is at `d` that they start.
  predicate StartsAt(ms: seq<Message>, role: Role, k: nat, d: nat)
    requires d <= |ms|
  {
    Binding(ms, role, k) && d < |ms| && ms[d].role == role && Count(ms[d..], role) == k
  }

  // The latest turns and the latest tool results are behind the desired boundary, and it is the last place of which
  // this is so: it is where the ones or the others start. It is 0 when neither constraint binds.
  lemma DesiredIs(ms: seq<Message>, policy: Policy)
    ensures var d, turns, results := Desired(ms, policy), policy.keepRecentTurns, policy.keepRecentToolResults;
      && Leaves(ms, User, turns, d) && Leaves(ms, Tool, results, d)
      && (if Binding(ms, User, turns) || Binding(ms, Tool, results)
          then StartsAt(ms, User, turns, d) || StartsAt(ms, Tool, results, d)
          else d == 0)
  {
    KeepFromIs(ms, User, policy.keepRecentTurns);
    KeepFromIs(ms, Tool, policy.keepRecentToolResults);
    var u, t := KeepFrom(ms, User, policy.keepRecentTurns), KeepFrom(ms, Tool, policy.keepRecentToolResults);
    hide KeepFrom, Binding;
    if u > 0 && t > u { CountFrom(ms, u, t, Tool); }
    if t > 0 && u > t { CountFrom(ms, t, u, User); }
    hide Count;
  }

  // With batches the boundary is right behind the last of the most tool results before the desired boundary that are
  // whole batches; without, it is the desired boundary.
  lemma BoundaryIs(ms: seq<Message>, policy: Policy)
    ensures var d, b, batch := Desired(ms, policy), Boundary(ms, policy), policy.batchToolResults;
      if batch <= 1 then b == d
      else
        var before := Count(ms[..b], Tool);
        && b <= d && before <= Count(ms[..d], Tool) < before + batch && (exists k: nat :: before == k * batch)
        && (b > 0 ==> ms[b - 1].role == Tool)
  {
    var d, b, batch := Desired(ms, policy), Boundary(ms, policy), policy.batchToolResults;
    if batch > 1 {
      var n := Count(ms[..d], Tool);
      BatchesWithin(ms, d, batch);
      NthEndHolds(ms, Tool, Batches(ms, d, batch));
      WholeBounds(n, batch);
      assert Whole(n, batch) == n / batch * batch;
      if b > d { CountPrefix(ms, d, b - 1, Tool); LastCounts(ms, b); }
    }
  }

  lemma LastCounts(ms: seq<Message>, b: nat)
    requires 0 < b <= |ms| && ms[b - 1].role == Tool
    ensures Count(ms[..b], Tool) == Count(ms[..b - 1], Tool) + 1
  {
    assert ms[..b][..b - 1] == ms[..b - 1];
  }
}
