// Projection of old tool results onto their first and last bytes
// (src/harness/tool-output-projection.ts:106-211).
module ToolProjection {
  import opened OutputBudget
  import opened Transcript
  import opened Utf8

  datatype Policy = Policy(
    enabled: bool, keepRecentTurns: nat, keepRecentToolResults: nat, batchToolResults: nat, headBytes: nat, tailBytes: nat)

  const DEFAULT_POLICY := Policy(true, 2, 20, 10, 160, 224)

  datatype Projection = Projection(messages: seq<Message>, projectedCount: nat, savedBytes: int)

  // ----- the boundary ------------------------------------------------------------------------------------

  // The index of the `k`-th message with this role, counted from the end; -1 when there are fewer.
  function KthLast(ms: seq<Message>, role: Role, k: nat): (r: int)
    ensures -1 <= r < |ms|
  {
    if k == 0 || ms == [] then -1
    else if ms[|ms| - 1].role != role then KthLast(ms[..|ms| - 1], role, k)
    else if k == 1 then |ms| - 1
    else KthLast(ms[..|ms| - 1], role, k - 1)
  }

  // Where the `k` most recent messages with this role start; 0 when this constrains nothing.
  function KeepFrom(ms: seq<Message>, role: Role, k: nat): nat {
    if KthLast(ms, role, k) < 0 then 0 else KthLast(ms, role, k)
  }

  function Desired(ms: seq<Message>, policy: Policy): (r: nat)
    ensures r <= |ms|
  {
    var turns := KeepFrom(ms, User, policy.keepRecentTurns);
    var tools := KeepFrom(ms, Tool, policy.keepRecentToolResults);
    if turns == 0 then tools else if tools == 0 then turns else if turns <= tools then turns else tools
  }

  // One past the `q`-th message with this role, counted from the start; 0 for none.
  function NthEnd(ms: seq<Message>, role: Role, q: nat): nat {
    if q == 0 || ms == [] then 0
    else if Count(ms[..|ms| - 1], role) >= q then NthEnd(ms[..|ms| - 1], role, q)
    else |ms|
  }

  // The whole batches in `n`.
  function Whole(n: nat, batch: nat): nat
    requires batch > 1
  {
    n / batch * batch
  }

  lemma WholeBounds(n: nat, batch: nat)
    requires batch > 1
    ensures Whole(n, batch) <= n < Whole(n, batch) + batch
  {
    assert n == batch * (n / batch) + n % batch;
  }

  lemma WholeMonotone(n: nat, m: nat, batch: nat)
    requires batch > 1 && n <= m
    ensures Whole(n, batch) <= Whole(m, batch)
  {
    WholeBounds(n, batch);
    WholeBounds(m, batch);
    var a, b := n / batch, m / batch;
    if b < a { ProductGrows(batch, b + 1, a); }
  }

  lemma ProductGrows(k: nat, a: nat, b: nat)
    requires a <= b
    ensures a * k <= b * k
  {
    assert b * k == a * k + (b - a) * k;
  }

  // How many of the oldest tool results a boundary stands for: whole batches only.
  function Batches(ms: seq<Message>, boundary: nat, batch: nat): nat
    requires boundary <= |ms| && batch > 1
  {
    Whole(Count(ms[..boundary], Tool), batch)
  }

  function Quantize(ms: seq<Message>, desired: nat, batch: nat): (r: nat)
    requires desired <= |ms|
    ensures r <= |ms|
  {
    if batch <= 1 then desired
    else
      BatchesWithin(ms, desired, batch);
      NthEndHolds(ms, Tool, Batches(ms, desired, batch));
      NthEnd(ms, Tool, Batches(ms, desired, batch))
  }

  function Boundary(ms: seq<Message>, policy: Policy): (r: nat)
    ensures r <= |ms|
  {
    Quantize(ms, Desired(ms, policy), policy.batchToolResults)
  }

  // ----- the loops that find it ----------------------------------------------------------------------------

  lemma KthLastStep(ms: seq<Message>, role: Role, k: nat, i: nat, seen: nat)
    requires i < |ms| && seen < k
    ensures KthLast(ms[..i + 1], role, k - seen) ==
      if ms[i].role != role then KthLast(ms[..i], role, k - seen)
      else if seen + 1 == k then i
      else KthLast(ms[..i], role, k - (seen + 1))
  {
    assert ms[..i + 1][..i] == ms[..i];
  }

  method FindKeepFrom(ms: seq<Message>, role: Role, k: nat) returns (boundary: nat)
    ensures boundary == KeepFrom(ms, role, k)
  {
    boundary := 0;
    if k > 0 {
      var seen := 0;
      assert ms[..|ms|] == ms;
      for i := |ms| downto 0
        invariant seen < k && KthLast(ms[..i], role, k - seen) == KthLast(ms, role, k)
      {
        KthLastStep(ms, role, k, i, seen);
        if ms[i].role != role { continue; }
        seen := seen + 1;
        if seen == k { return i; }
      }
    }
  }

  method DesiredBoundary(ms: seq<Message>, policy: Policy) returns (boundary: nat)
    ensures boundary == Desired(ms, policy) <= |ms|
  {
    var turnBoundary := FindKeepFrom(ms, User, policy.keepRecentTurns);
    var toolBoundary := FindKeepFrom(ms, Tool, policy.keepRecentToolResults);
    if turnBoundary == 0 { return toolBoundary; }
    if toolBoundary == 0 { return turnBoundary; }
    return if turnBoundary <= toolBoundary then turnBoundary else toolBoundary;
  }

  // The characterisation of `NthEnd`: it ends with the `q`-th message of the role and holds `q` of them.
  lemma {:induction false} NthEndMeans(ms: seq<Message>, role: Role, q: nat, i: nat)
    requires i < |ms| && ms[i].role == role && Count(ms[..i + 1], role) == q
    ensures NthEnd(ms, role, q) == i + 1
    decreases |ms|
  {
    var before := ms[..|ms| - 1];
    assert ms[..i + 1][..i] == ms[..i];
    if i < |ms| - 1 {
      assert before[..i + 1] == ms[..i + 1];
      CountPrefix(before, i + 1, |before|, role);
      assert before[..|before|] == before;
      NthEndMeans(before, role, q, i);
    } else {
      assert ms[..i + 1] == ms;
    }
  }

  lemma {:induction false} NthEndHolds(ms: seq<Message>, role: Role, q: nat)
    requires q <= Count(ms, role)
    ensures var b := NthEnd(ms, role, q);
      b <= |ms| && Count(ms[..b], role) == q && (b > 0 ==> q > 0 && ms[b - 1].role == role)
  {
    if q > 0 && ms != [] {
      var before := ms[..|ms| - 1];
      if Count(before, role) >= q {
        NthEndHolds(before, role, q);
        assert before[..NthEnd(before, role, q)] == ms[..NthEnd(before, role, q)];
      } else {
        assert ms[..|ms|] == ms;
      }
    }
  }

  method QuantizeBoundary(ms: seq<Message>, desired: nat, batch: nat) returns (boundary: nat)
    requires desired <= |ms|
    ensures boundary == Quantize(ms, desired, batch)
  {
    hide Whole;
    if batch > 1 { WholeBounds(0, batch); }
    if desired <= 0 { return 0; }
    if batch <= 1 { return desired; }
    var candidate := 0;
    for i := 0 to desired
      invariant candidate == Count(ms[..i], Tool)
    {
      assert ms[..i + 1][..i] == ms[..i];
      if ms[i].role == Tool { candidate := candidate + 1; }
    }
    var quantized := Whole(candidate, batch);
    WholeBounds(candidate, batch);
    if quantized == 0 { return 0; }
    var seen := 0;
    for i := 0 to |ms|
      invariant seen == Count(ms[..i], Tool) < quantized
    {
      assert ms[..i + 1][..i] == ms[..i];
      if ms[i].role != Tool { continue; }
      seen := seen + 1;
      if seen == quantized {
        NthEndMeans(ms, Tool, quantized, i);
        return i + 1;
      }
    }
    CountPrefix(ms, desired, |ms|, Tool);
    assert false;
    return desired;
  }

  // ----- the projection ---------------------------------------------------------------------------------------

  function ProjectedLength(policy: Policy): nat { policy.headBytes + Bytes(MARKER) + policy.tailBytes }

  predicate IsProjected(m: Message, policy: Policy) {
    m.role == Tool && Bytes(m.content) > ProjectedLength(policy)
  }

  function Degrade(m: Message, policy: Policy): Message {
    if IsProjected(m, policy) then
      m.(content := Head(m.content, policy.headBytes) + MARKER + Tail(m.content, policy.tailBytes))
    else m
  }

  function DegradeAll(ms: seq<Message>, policy: Policy): (r: seq<Message>)
    ensures |r| == |ms| && forall i :: 0 <= i < |r| ==> r[i] == Degrade(ms[i], policy)
  {
    seq(|ms|, i requires 0 <= i < |ms| => Degrade(ms[i], policy))
  }

  function Project(ms: seq<Message>, policy: Policy): (r: seq<Message>)
    ensures |r| == |ms|
  {
    if !policy.enabled then ms
    else DegradeAll(ms[..Boundary(ms, policy)], policy) + ms[Boundary(ms, policy)..]
  }

  function TotalBytes(ms: seq<Message>): nat {
    if ms == [] then 0 else TotalBytes(ms[..|ms| - 1]) + Bytes(ms[|ms| - 1].content)
  }

  lemma BatchesWithin(ms: seq<Message>, d: nat, batch: nat)
    requires d <= |ms| && batch > 1
    ensures Batches(ms, d, batch) <= Count(ms[..d], Tool) <= Count(ms, Tool)
  {
    hide Whole;
    WholeBounds(Count(ms[..d], Tool), batch);
    CountPrefix(ms, d, |ms|, Tool);
    assert ms[..|ms|] == ms;
  }

  // ----- the projecting loop ----------------------------------------------------------------------------------

  // What the loop knows after `i` messages.
  ghost predicate ProjectedSoFar(ms: seq<Message>, out: seq<Message>, i: nat, policy: Policy, count: nat, saved: int) {
    && |out| == |ms|
    && (forall k :: 0 <= k < |ms| ==> out[k] == if k < i then Degrade(ms[k], policy) else ms[k])
    && saved == TotalBytes(ms) - TotalBytes(out) && count == Changed(ms, out)
    && saved >= 0 && (count > 0 <==> saved > 0)
  }

  lemma ProjectStep(ms: seq<Message>, out: seq<Message>, i: nat, policy: Policy, count: nat, saved: int)
    requires i < |ms| && ProjectedSoFar(ms, out, i, policy, count, saved)
    ensures var d := Degrade(ms[i], policy);
      if IsProjected(ms[i], policy) then
        ProjectedSoFar(ms, out[i := d], i + 1, policy, count + 1, saved + (Bytes(ms[i].content) - Bytes(d.content)))
      else ProjectedSoFar(ms, out, i + 1, policy, count, saved)
  {
    hide Bytes, IsProjected, Degrade, Changed, TotalBytes;
    DegradeShrinks(ms[i], policy);
    if IsProjected(ms[i], policy) {
      ReplaceBytes(out, i, Degrade(ms[i], policy));
      ReplaceChanged(ms, out, i, Degrade(ms[i], policy));
    }
  }

  method ProjectStaleToolOutputs(ms: seq<Message>, policy: Policy) returns (p: Projection)
    ensures p.messages == Project(ms, policy)
    ensures p.savedBytes == TotalBytes(ms) - TotalBytes(p.messages)
    ensures p.projectedCount == Changed(ms, p.messages) && (p.projectedCount > 0 <==> p.savedBytes > 0)
  {
    hide Bytes, Changed, TotalBytes, Desired, Quantize, Head, Tail, ProjectedSoFar;
    StartProjecting(ms, policy);
    if !policy.enabled { return Projection(ms, 0, 0); }
    var desired := DesiredBoundary(ms, policy);
    var boundary := QuantizeBoundary(ms, desired, policy.batchToolResults);
    var projectedLength := policy.headBytes + Bytes(MARKER) + policy.tailBytes;
    var count, saved := 0, 0;
    var out := ms;
    for i := 0 to boundary
      invariant ProjectedSoFar(ms, out, i, policy, count, saved)
      invariant |out| == |ms|
    {
      ProjectStep(ms, out, i, policy, count, saved);
      var message := ms[i];
      if message.role != Tool { continue; }
      var content := message.content;
      if content == "" {
        EmptyIsSmall(message, policy);
        continue;
      }
      var originalBytes := Bytes(content);
      if originalBytes <= projectedLength { continue; }
      var head := Utf8Head(content, policy.headBytes);
      var tail := Utf8Tail(content, policy.tailBytes);
      var degraded := head + MARKER + tail;
      out := out[i := message.(content := degraded)];
      count := count + 1;
      saved := saved + (originalBytes - Bytes(degraded));
    }
    DoneProjecting(ms, out, boundary, policy, count, saved);
    p := Projection(out, count, saved);
  }

  lemma StartProjecting(ms: seq<Message>, policy: Policy)
    ensures ProjectedSoFar(ms, ms, 0, policy, 0, 0) && Changed(ms, ms) == 0
  {
    SameUnchanged(ms);
  }

  lemma DoneProjecting(ms: seq<Message>, out: seq<Message>, boundary: nat, policy: Policy, count: nat, saved: int)
    requires boundary == Boundary(ms, policy) && policy.enabled
    requires ProjectedSoFar(ms, out, boundary, policy, count, saved)
    ensures out == Project(ms, policy) && saved == TotalBytes(ms) - TotalBytes(out) && |out| == |ms|
    ensures count == Changed(ms, out) && (count > 0 <==> saved > 0)
  {
    hide Degrade;
  }

  lemma EmptyIsSmall(m: Message, policy: Policy)
    requires m.content == ""
    ensures !IsProjected(m, policy)
  {
    AsciiBytes("");
  }

  // The number of places where two lists of messages differ.
  function Changed(a: seq<Message>, b: seq<Message>): nat
    requires |a| == |b|
  {
    if a == [] then 0
    else Changed(a[..|a| - 1], b[..|b| - 1]) + if a[|a| - 1] == b[|b| - 1] then 0 else 1
  }

  lemma {:induction false} SameUnchanged(ms: seq<Message>)
    ensures Changed(ms, ms) == 0
  {
    if ms != [] { SameUnchanged(ms[..|ms| - 1]); }
  }

  lemma {:induction false} ReplaceChanged(ms: seq<Message>, out: seq<Message>, i: nat, m: Message)
    requires |ms| == |out| && i < |ms| && out[i] == ms[i] && m != ms[i]
    ensures Changed(ms, out[i := m]) == Changed(ms, out) + 1
  {
    var n := |ms| - 1;
    if i < n {
      ReplaceChanged(ms[..n], out[..n], i, m);
      assert out[i := m][..n] == out[..n][i := m];
    } else {
      assert out[i := m][..n] == out[..n];
    }
  }

  lemma {:induction false} ReplaceBytes(ms: seq<Message>, i: nat, m: Message)
    requires i < |ms|
    ensures TotalBytes(ms[i := m]) == TotalBytes(ms) - Bytes(ms[i].content) + Bytes(m.content)
  {
    var n := |ms| - 1;
    if i < n {
      ReplaceBytes(ms[..n], i, m);
      assert ms[i := m][..n] == ms[..n][i := m];
    } else {
      assert ms[i := m][..n] == ms[..n];
    }
  }

  // What is degraded gets strictly smaller, keeps its role, its call id and everything else, and is
  // never degraded again.
  lemma DegradeShrinks(m: Message, policy: Policy)
    ensures var d := Degrade(m, policy);
      && d == m.(content := d.content)
      && !IsProjected(d, policy)
      && Bytes(d.content) <= Bytes(m.content)
      && (IsProjected(m, policy) <==> Bytes(d.content) < Bytes(m.content))
      && (IsProjected(m, policy) <==> d != m)
  {
    hide Encode, Head, Tail;
    HeadAndTailAreLongest(m.content, policy.headBytes, 0);
    HeadAndTailAreLongest(m.content, policy.tailBytes, 0);
    EncodeAppend(Head(m.content, policy.headBytes), MARKER);
    EncodeAppend(Head(m.content, policy.headBytes) + MARKER, Tail(m.content, policy.tailBytes));
  }

  // ----- roles decide the boundary ------------------------------------------------------------------------------

  ghost predicate SameRoles(a: seq<Message>, b: seq<Message>) {
    |a| == |b| && forall i :: 0 <= i < |a| ==> a[i].role == b[i].role
  }

  lemma {:induction false} SameCount(a: seq<Message>, b: seq<Message>, role: Role)
    requires SameRoles(a, b)
    ensures Count(a, role) == Count(b, role)
  {
    if a != [] { SameCount(a[..|a| - 1], b[..|b| - 1], role); }
  }

  lemma {:induction false} SameKthLast(a: seq<Message>, b: seq<Message>, role: Role, k: nat)
    requires SameRoles(a, b)
    ensures KthLast(a, role, k) == KthLast(b, role, k)
    decreases |a|
  {
    if a != [] && k > 0 {
      SameKthLast(a[..|a| - 1], b[..|b| - 1], role, k);
      SameKthLast(a[..|a| - 1], b[..|b| - 1], role, k - 1);
    }
  }

  lemma {:induction false} SameNthEnd(a: seq<Message>, b: seq<Message>, role: Role, q: nat)
    requires SameRoles(a, b)
    ensures NthEnd(a, role, q) == NthEnd(b, role, q)
    decreases |a|
  {
    if a != [] {
      SameCount(a[..|a| - 1], b[..|b| - 1], role);
      SameNthEnd(a[..|a| - 1], b[..|b| - 1], role, q);
    }
  }

  lemma SameBoundary(a: seq<Message>, b: seq<Message>, policy: Policy)
    requires SameRoles(a, b)
    ensures Boundary(a, policy) == Boundary(b, policy)
  {
    hide Whole;
    SameKthLast(a, b, User, policy.keepRecentTurns);
    SameKthLast(a, b, Tool, policy.keepRecentToolResults);
    var d := Desired(a, policy);
    SameCount(a[..d], b[..d], Tool);
    if policy.batchToolResults > 1 { SameNthEnd(a, b, Tool, Batches(a, d, policy.batchToolResults)); }
  }

  // Projecting changes nothing but the content of some tool results, and projecting again changes
  // nothing at all.
  lemma ProjectTwice(ms: seq<Message>, policy: Policy)
    ensures var p := Project(ms, policy);
      && |p| == |ms|
      && (forall i :: 0 <= i < |ms| ==> p[i] == ms[i].(content := p[i].content) && (p[i] != ms[i] ==> ms[i].role == Tool))
      && Project(p, policy) == p
  {
    hide IsProjected;
    var p := Project(ms, policy);
    forall i | 0 <= i < |ms|
      ensures p[i] == ms[i].(content := p[i].content) && (p[i] != ms[i] ==> ms[i].role == Tool)
    {
      DegradeShrinks(ms[i], policy);
      OnlyToolResults(ms[i], policy);
    }
    SameBoundary(ms, p, policy);
    forall i | 0 <= i < |ms| ensures Project(p, policy)[i] == p[i] {
      DegradeShrinks(ms[i], policy);
      DegradeShrinks(p[i], policy);
    }
  }

  lemma OnlyToolResults(m: Message, policy: Policy)
    ensures Degrade(m, policy) != m ==> m.role == Tool
  {
  }

  // ----- appending messages -------------------------------------------------------------------------------------

  // Both constraints bind: there are more turns and more tool results than are kept.
  predicate Binds(ms: seq<Message>, policy: Policy) {
    KeepFrom(ms, User, policy.keepRecentTurns) > 0 && KeepFrom(ms, Tool, policy.keepRecentToolResults) > 0
  }

  lemma {:induction false} FewerKept(ms: seq<Message>, role: Role, k: nat)
    requires k > 1
    ensures KthLast(ms, role, k) < KthLast(ms, role, k - 1) || KthLast(ms, role, k) == -1
    decreases |ms|
  {
    if ms != [] {
      FewerKept(ms[..|ms| - 1], role, k);
      if ms[|ms| - 1].role == role && k > 2 { FewerKept(ms[..|ms| - 1], role, k - 1); }
    }
  }

  // One more message never moves back the start of what is kept, once there is one.
  lemma AppendOneKeeps(ms: seq<Message>, m: Message, role: Role, k: nat)
    ensures KthLast(ms, role, k) <= KthLast(ms + [m], role, k)
  {
    assert (ms + [m])[..|ms|] == ms;
    if k > 1 { FewerKept(ms, role, k); }
  }

  lemma {:induction false} AppendKeeps(ms: seq<Message>, xs: seq<Message>, role: Role, k: nat)
    ensures KthLast(ms, role, k) <= KthLast(ms + xs, role, k)
    decreases |xs|
  {
    hide KthLast;
    if xs == [] {
      assert ms + xs == ms;
    } else {
      AppendOneKeeps(ms, xs[0], role, k);
      AppendKeeps(ms + [xs[0]], xs[1..], role, k);
      assert ms + [xs[0]] + xs[1..] == ms + xs;
    }
  }

  lemma {:induction false} NthEndAppend(ms: seq<Message>, xs: seq<Message>, role: Role, q: nat)
    requires q <= Count(ms, role)
    ensures NthEnd(ms + xs, role, q) == NthEnd(ms, role, q)
    decreases |xs|
  {
    if xs == [] {
      assert ms + xs == ms;
    } else {
      var front := xs[..|xs| - 1];
      assert (ms + xs)[..|ms + xs| - 1] == ms + front;
      CountAppend(ms, front, role);
      NthEndAppend(ms, front, role, q);
    }
  }

  lemma {:induction false} NthEndMonotone(ms: seq<Message>, role: Role, p: nat, q: nat)
    requires p <= q <= Count(ms, role)
    ensures NthEnd(ms, role, p) <= NthEnd(ms, role, q)
  {
    NthEndHolds(ms, role, p);
    NthEndHolds(ms, role, q);
    if q > 0 && ms != [] && Count(ms[..|ms| - 1], role) >= q {
      NthEndMonotone(ms[..|ms| - 1], role, p, q);
    }
  }

  // A later desired boundary gives a boundary that is no earlier.
  lemma QuantizeMonotone(ms: seq<Message>, xs: seq<Message>, d: nat, e: nat, batch: nat)
    requires d <= |ms| && d <= e <= |ms + xs|
    ensures Quantize(ms, d, batch) <= Quantize(ms + xs, e, batch)
    ensures batch > 1 && Batches(ms, d, batch) == Batches(ms + xs, e, batch) ==> Quantize(ms, d, batch) == Quantize(ms + xs, e, batch)
  {
    hide Whole;
    if batch > 1 {
      assert (ms + xs)[..d] == ms[..d];
      CountPrefix(ms + xs, d, e, Tool);
      WholeMonotone(Count(ms[..d], Tool), Count((ms + xs)[..e], Tool), batch);
      BatchesWithin(ms, d, batch);
      BatchesWithin(ms + xs, e, batch);
      NthEndAppend(ms, xs, Tool, Batches(ms, d, batch));
      NthEndMonotone(ms + xs, Tool, Batches(ms, d, batch), Batches(ms + xs, e, batch));
    }
  }

  // Once both constraints bind they bind for good, and the boundary never moves back.
  lemma BoundaryNeverMovesBack(ms: seq<Message>, xs: seq<Message>, policy: Policy)
    requires Binds(ms, policy)
    ensures Binds(ms + xs, policy) && Boundary(ms, policy) <= Boundary(ms + xs, policy)
  {
    AppendKeeps(ms, xs, User, policy.keepRecentTurns);
    AppendKeeps(ms, xs, Tool, policy.keepRecentToolResults);
    QuantizeMonotone(ms, xs, Desired(ms, policy), Desired(ms + xs, policy), policy.batchToolResults);
  }

  // What was projected stays projected, byte for byte.
  lemma ProjectedPrefixStays(ms: seq<Message>, xs: seq<Message>, policy: Policy)
    requires Binds(ms, policy)
    ensures Project(ms + xs, policy)[..Boundary(ms, policy)] == Project(ms, policy)[..Boundary(ms, policy)]
  {
    hide Degrade;
    BoundaryNeverMovesBack(ms, xs, policy);
  }

  // While no further batch is full, new messages are only appended: the prefix does not change at all.
  lemma QuietWhileBatchFills(ms: seq<Message>, xs: seq<Message>, policy: Policy)
    requires policy.batchToolResults > 1 && Binds(ms, policy)
    requires Batches(ms, Desired(ms, policy), policy.batchToolResults)
      == Batches(ms + xs, Desired(ms + xs, policy), policy.batchToolResults)
    ensures Project(ms + xs, policy) == Project(ms, policy) + xs
  {
    hide Degrade, Whole;
    AppendKeeps(ms, xs, User, policy.keepRecentTurns);
    AppendKeeps(ms, xs, Tool, policy.keepRecentToolResults);
    QuantizeMonotone(ms, xs, Desired(ms, policy), Desired(ms + xs, policy), policy.batchToolResults);
    assert (ms + xs)[..Boundary(ms, policy)] == ms[..Boundary(ms, policy)];
  }

  // ----- where the boundary does move back -------------------------------------------------------------------------

  function KeptOf(policy: Policy, role: Role): nat {
    if role == User then policy.keepRecentTurns else if role == Tool then policy.keepRecentToolResults else 0
  }

  // Where the messages with the role of the next message, that are kept because of it, start.
  function StartWith(ms: seq<Message>, m: Message, policy: Policy): nat {
    KeepFrom(ms + [m], m.role, KeptOf(policy, m.role))
  }

  // The next message makes the constraint on its role bind, while the other one does already.
  predicate StartsToBind(ms: seq<Message>, m: Message, policy: Policy) {
    Desired(ms, policy) > 0 && KeepFrom(ms, m.role, KeptOf(policy, m.role)) == 0 && StartWith(ms, m, policy) > 0
  }

  lemma {:induction false} NoneAfterLast(ms: seq<Message>, role: Role)
    ensures forall i :: KthLast(ms, role, 1) < i < |ms| ==> ms[i].role != role
  {
    if ms != [] { NoneAfterLast(ms[..|ms| - 1], role); }
  }

  lemma {:induction false} KthHasRole(ms: seq<Message>, role: Role, k: nat)
    ensures KthLast(ms, role, k) >= 0 ==> ms[KthLast(ms, role, k)].role == role
  {
    if ms != [] && k > 0 {
      KthHasRole(ms[..|ms| - 1], role, if ms[|ms| - 1].role != role then k else k - 1);
    }
  }

  lemma {:induction false} NoneBetween(ms: seq<Message>, role: Role, k: nat)
    requires k > 0
    ensures forall i :: KthLast(ms, role, k + 1) < i < KthLast(ms, role, k) ==> ms[i].role != role
    decreases |ms|
  {
    if ms != [] {
      var front := ms[..|ms| - 1];
      if ms[|ms| - 1].role != role {
        NoneBetween(front, role, k);
      } else if k > 1 {
        NoneBetween(front, role, k - 1);
      } else {
        NoneAfterLast(front, role);
      }
    }
  }

  // A constraint that starts to bind does so at the first message with its role that is not the very first
  // message.
  lemma BindsAtTheFirst(ms: seq<Message>, m: Message, policy: Policy)
    requires StartsToBind(ms, m, policy)
    ensures var q := StartWith(ms, m, policy);
      && q <= |ms| && (ms + [m])[q].role == m.role
      && forall i :: 0 < i < q ==> ms[i].role != m.role
  {
    var k := KeptOf(policy, m.role);
    assert (ms + [m])[..|ms|] == ms;
    NoneAfterLast(ms, m.role);
    if k > 1 {
      KthHasRole(ms, m.role, k - 1);
      NoneBetween(ms, m.role, k - 1);
    }
  }

  lemma OtherRoleUnmoved(ms: seq<Message>, m: Message, role: Role, k: nat)
    requires m.role != role
    ensures KthLast(ms + [m], role, k) == KthLast(ms, role, k)
  {
    assert (ms + [m])[..|ms|] == ms;
  }

  // The exact case: one more message moves the boundary back exactly when the constraint on its role starts
  // to bind before the desired boundary and, with batches, the messages up to there hold fewer whole ones.
  lemma MovesBackIffConstraintStarts(ms: seq<Message>, m: Message, policy: Policy)
    ensures Boundary(ms + [m], policy) < Boundary(ms, policy) <==>
      && StartsToBind(ms, m, policy) && StartWith(ms, m, policy) < Desired(ms, policy)
      && (policy.batchToolResults > 1 ==>
            Batches(ms, StartWith(ms, m, policy), policy.batchToolResults)
            < Batches(ms, Desired(ms, policy), policy.batchToolResults))
  {
    hide Whole;
    DesiredAfter(ms, m, policy);
    var d, e := Desired(ms, policy), Desired(ms + [m], policy);
    if d <= e {
      QuantizeMonotone(ms, [m], d, e, policy.batchToolResults);
    } else {
      FewerBatches(ms, m, d, e, policy.batchToolResults);
      assert (ms + [m])[..e] == ms[..e];
    }
  }

  // The desired boundary moves back exactly to where a constraint starts to bind.
  lemma DesiredAfter(ms: seq<Message>, m: Message, policy: Policy)
    ensures var d, e := Desired(ms, policy), Desired(ms + [m], policy);
      && (e < d <==> StartsToBind(ms, m, policy) && StartWith(ms, m, policy) < d)
      && (e < d ==> e == StartWith(ms, m, policy))
  {
    AppendOneKeeps(ms, m, User, policy.keepRecentTurns);
    AppendOneKeeps(ms, m, Tool, policy.keepRecentToolResults);
    if m.role != User { OtherRoleUnmoved(ms, m, User, policy.keepRecentTurns); }
    if m.role != Tool { OtherRoleUnmoved(ms, m, Tool, policy.keepRecentToolResults); }
    hide KthLast;
  }

  lemma FewerBatches(ms: seq<Message>, m: Message, d: nat, e: nat, batch: nat)
    requires e < d <= |ms|
    ensures batch > 1 ==>
      (Quantize(ms + [m], e, batch) < Quantize(ms, d, batch) <==> Batches(ms + [m], e, batch) < Batches(ms, d, batch))
  {
    hide Whole, Count, NthEnd;
    if batch > 1 {
      assert (ms + [m])[..e] == ms[..e];
      CountPrefix(ms, e, d, Tool);
      WholeMonotone(Count(ms[..e], Tool), Count(ms[..d], Tool), batch);
      BatchesWithin(ms, d, batch);
      FewerMeansEarlier(ms, m, Batches(ms + [m], e, batch), Batches(ms, d, batch));
    }
  }

  lemma FewerMeansEarlier(ms: seq<Message>, m: Message, p: nat, q: nat)
    requires p <= q <= Count(ms, Tool)
    ensures NthEnd(ms + [m], Tool, p) < NthEnd(ms, Tool, q) <==> p < q
  {
    NthEndAppend(ms, [m], Tool, p);
    NthEndHolds(ms, Tool, p);
    NthEndHolds(ms, Tool, q);
    NthEndMonotone(ms, Tool, p, q);
  }

  lemma CountTail(ms: seq<Message>, role: Role, i: nat)
    requires i < |ms| && ms[i].role == role
    ensures var n := |ms| - 1;
      if i < n then
        && ms[..n][i..] == ms[i..][..|ms[i..]| - 1]
        && Count(ms[i..], role) == Count(ms[..n][i..], role) + (if ms[n].role == role then 1 else 0)
        && Count(ms[..n][i..], role) > 0
      else Count(ms[i..], role) == 1
  {
    var n := |ms| - 1;
    assert ms[i..][|ms[i..]| - 1] == ms[n];
    if i < n {
      assert ms[..n][i..] == ms[i..][..|ms[i..]| - 1];
      CountAppend([ms[i]], ms[i + 1..n], role);
      assert [ms[i]] + ms[i + 1..n] == ms[..n][i..];
      assert [ms[i]][..0] == [];
    } else {
      assert ms[i..] == [ms[i]] && [ms[i]][..0] == [];
    }
  }

  lemma {:induction false} KthLastMeans(ms: seq<Message>, role: Role, k: nat, i: nat)
    requires i < |ms| && ms[i].role == role && Count(ms[i..], role) == k
    ensures KthLast(ms, role, k) == i
    decreases |ms|
  {
    hide Count;
    var n := |ms| - 1;
    CountTail(ms, role, i);
    if i < n { KthLastMeans(ms[..n], role, if ms[n].role == role then k - 1 else k, i); }
  }

  lemma {:induction false} TooFew(ms: seq<Message>, role: Role, k: nat)
    requires Count(ms, role) < k
    ensures KthLast(ms, role, k) == -1
  {
    if ms != [] {
      TooFew(ms[..|ms| - 1], role, if ms[|ms| - 1].role == role then k - 1 else k);
    }
  }

  lemma {:induction false} CountAll(ms: seq<Message>, mine: Role, role: Role)
    requires forall i :: 0 <= i < |ms| ==> ms[i].role == mine
    ensures Count(ms, role) == if role == mine then |ms| else 0
  {
    if ms != [] { CountAll(ms[..|ms| - 1], mine, role); }
  }

  // With the default policy the twentieth tool result can undo a projection: nineteen results before
  // the two most recent turns give a boundary after the tenth of them, one more result gives none.
  lemma TwentiethResultUndoes(s: Message, u: Message, tools: seq<Message>, v: Message, w: Message, t: Message)
    requires s.role == System && u.role == v.role == w.role == User && t.role == Tool
    requires |tools| == 19 && forall i :: 0 <= i < 19 ==> tools[i].role == Tool
    ensures Boundary([s, u] + tools + [v, w], DEFAULT_POLICY) == 12
    ensures Boundary([s, u] + tools + [v, w] + [t], DEFAULT_POLICY) == 0
  {
    var ms := [s, u] + tools + [v, w];
    var ns := ms + [t];
    PartsOfExample(s, u, tools, v, w, t);
    KthLastMeans(ms, User, 2, 21);
    TooFew(ms, Tool, 20);
    KthLastMeans(ns, User, 2, 21);
    KthLastMeans(ns, Tool, 20, 2);
    NthEndMeans(ms, Tool, 10, 11);
    assert NthEnd(ns, Tool, 0) == 0;
  }

  lemma UsersOfExample(body: seq<Message>, v: Message, w: Message, t: Message)
    requires |body| == 21 && v.role == w.role == User && t.role == Tool
    ensures var ms := body + [v, w];
      && Count(ms[21..], User) == 2 && Count((ms + [t])[21..], User) == 2
  {
    var ms := body + [v, w];
    CountAll([v, w], User, User);
    CountAll([t], Tool, User);
    assert ms[21..] == [v, w];
    assert (ms + [t])[21..] == [v, w] + [t];
    CountAppend([v, w], [t], User);
  }

  lemma ToolsOfHead(head: seq<Message>, tools: seq<Message>)
    requires |head| == 2 && Count(head, Tool) == 0
    requires |tools| == 19 && forall i :: 0 <= i < 19 ==> tools[i].role == Tool
    ensures Count(head + tools, Tool) == 19 && Count((head + tools)[..12], Tool) == 10
  {
    CountAll(tools, Tool, Tool);
    CountAll(tools[..10], Tool, Tool);
    CountAppend(head, tools, Tool);
    assert (head + tools)[..12] == head + tools[..10];
    CountAppend(head, tools[..10], Tool);
  }

  lemma ToolsOfTail(tools: seq<Message>, v: Message, w: Message, t: Message)
    requires v.role == w.role == User && t.role == Tool
    requires |tools| == 19 && forall i :: 0 <= i < 19 ==> tools[i].role == Tool
    ensures Count(tools + [v, w] + [t], Tool) == 20
  {
    CountAll(tools, Tool, Tool);
    CountAll([v, w], User, Tool);
    CountAll([t], Tool, Tool);
    CountAppend(tools, [v, w], Tool);
    CountAppend(tools + [v, w], [t], Tool);
  }

  lemma NoToolsAhead(s: Message, u: Message)
    requires s.role == System && u.role == User
    ensures Count([s, u], Tool) == 0
  {
    assert [s, u][..1] == [s] && [s][..0] == [];
    assert Count([s], Tool) == 0;
  }

  lemma PartsOfExample(s: Message, u: Message, tools: seq<Message>, v: Message, w: Message, t: Message)
    requires s.role == System && u.role == v.role == w.role == User && t.role == Tool
    requires |tools| == 19 && forall i :: 0 <= i < 19 ==> tools[i].role == Tool
    ensures var ms := [s, u] + tools + [v, w];
      var ns := ms + [t];
      && Count(ms[21..], User) == 2 && Count(ns[21..], User) == 2 && Count(ms, Tool) == 19
      && Count(ns[2..], Tool) == 20 && Count(ms[..12], Tool) == 10 && Count(ms[..21], Tool) == 19 && Count(ns[..2], Tool) == 0
      && ms[11].role == Tool && ms[21] == ns[21] == v && ns[2].role == Tool
  {
    hide Count;
    var head := [s, u];
    var ms := head + tools + [v, w];
    var ns := ms + [t];
    NoToolsAhead(s, u);
    UsersOfExample(head + tools, v, w, t);
    ToolsOfHead(head, tools);
    ToolsOfTail(tools, v, w, t);
    CountAll([v, w], User, Tool);
    CountAppend(head + tools, [v, w], Tool);
    assert ms[..21] == head + tools;
    assert ms[..12] == (head + tools)[..12];
    assert ns[2..] == tools + [v, w] + [t];
    assert ns[..2] == head;
  }
}
