// Line ranges of file reads: the union kept by the evidence store
// (src/runtime/execution-evidence-store.ts:339-349).
module ReadRanges {
  import opened StableSort

  datatype Range = Range(startLine: int, endLine: int)

  const MAX_RANGES := 64

  function Max(a: int, b: int): int { if a < b then b else a }

  function StartOf(r: Range): int { r.startLine }

  predicate Proper(r: Range) { 0 < r.startLine <= r.endLine }

  predicate AllProper(rs: seq<Range>) { forall r :: r in rs ==> Proper(r) }

  predicate InRange(r: Range, line: int) { r.startLine <= line <= r.endLine }

  predicate HasLine(rs: seq<Range>, line: int) {
    exists i :: 0 <= i < |rs| && InRange(rs[i], line)
  }

  predicate Inside(inner: Range, outer: Range) {
    outer.startLine <= inner.startLine && outer.endLine >= inner.endLine
  }

  // In ascending order with at least one line between neighbours.
  predicate Separated(rs: seq<Range>) {
    && AllProper(rs)
    && forall i, j :: 0 <= i < j < |rs| ==> rs[i].endLine + 1 < rs[j].startLine
  }

  function LastOf<T>(s: seq<T>, n: nat): seq<T> {
    if |s| <= n then s else s[|s| - n..]
  }

  // One turn of the merge loop.
  function Absorb(merged: seq<Range>, r: Range): seq<Range> {
    if merged != [] && r.startLine <= merged[|merged| - 1].endLine + 1 then
      merged[|merged| - 1 := merged[|merged| - 1].(endLine := Max(merged[|merged| - 1].endLine, r.endLine))]
    else
      merged + [r]
  }

  function AbsorbAll(merged: seq<Range>, rs: seq<Range>): seq<Range>
    decreases rs
  {
    if rs == [] then merged else AbsorbAll(Absorb(merged, rs[0]), rs[1..])
  }

  function Union(rs: seq<Range>): seq<Range> {
    AbsorbAll([], SortBy(rs, StartOf))
  }

  function MergeRanges(rs: seq<Range>): seq<Range> {
    LastOf(Union(rs), MAX_RANGES)
  }

  lemma AbsorbAllStep(merged: seq<Range>, rs: seq<Range>, i: nat)
    requires i < |rs|
    ensures AbsorbAll(merged, rs[i..]) == AbsorbAll(Absorb(merged, rs[i]), rs[i + 1..])
  {
    assert rs[i..][1..] == rs[i + 1..];
  }

  method MergeReadRanges(ranges: seq<Range>) returns (merged: seq<Range>)
    ensures merged == MergeRanges(ranges)
  {
    var sorted := SortBy(ranges, StartOf);
    merged := [];
    for i := 0 to |sorted|
      invariant AbsorbAll(merged, sorted[i..]) == AbsorbAll([], sorted)
    {
      AbsorbAllStep(merged, sorted, i);
      var range := sorted[i];
      if |merged| > 0 && range.startLine <= merged[|merged| - 1].endLine + 1 {
        var last := merged[|merged| - 1];
        merged := merged[|merged| - 1 := last.(endLine := Max(last.endLine, range.endLine))];
      } else {
        merged := merged + [range];
      }
    }
    if |merged| > 64 {
      merged := merged[|merged| - 64..];
    }
  }

  // ----- the union is exact -----------------------------------------------------------------

  // `r` starts no earlier than the range merged last.
  predicate Follows(merged: seq<Range>, r: Range) {
    merged == [] || merged[|merged| - 1].startLine <= r.startLine
  }

  lemma AbsorbSeparates(merged: seq<Range>, r: Range)
    requires Separated(merged) && Proper(r) && Follows(merged, r)
    ensures Separated(Absorb(merged, r))
    ensures Absorb(merged, r) != [] && Absorb(merged, r)[|Absorb(merged, r)| - 1].startLine <= r.startLine
  {
    var a := Absorb(merged, r);
    forall x | x in a ensures Proper(x) {
      assert x in merged || x == r || x == a[|merged| - 1];
      if merged != [] { assert Proper(merged[|merged| - 1]); }
    }
  }

  lemma AbsorbLines(merged: seq<Range>, r: Range, line: int)
    requires Separated(merged) && Proper(r) && Follows(merged, r)
    ensures HasLine(Absorb(merged, r), line) <==> HasLine(merged, line) || InRange(r, line)
  {
    var a := Absorb(merged, r);
    var n := |merged| - 1;
    if HasLine(merged, line) {
      var i :| 0 <= i < |merged| && InRange(merged[i], line);
      assert InRange(a[i], line);
    }
    if InRange(r, line) {
      assert InRange(a[|a| - 1], line);
    }
    if HasLine(a, line) {
      var i :| 0 <= i < |a| && InRange(a[i], line);
      if i < n { assert InRange(merged[i], line); }
      if i == n && !InRange(r, line) { assert InRange(merged[n], line); }
    }
  }

  lemma {:induction false} AbsorbAllSeparates(merged: seq<Range>, rs: seq<Range>)
    requires Separated(merged) && AllProper(rs) && Sorted(rs, StartOf)
    requires rs != [] ==> Follows(merged, rs[0])
    ensures Separated(AbsorbAll(merged, rs))
    decreases rs
  {
    if rs != [] {
      assert rs[0] in rs;
      AbsorbSeparates(merged, rs[0]);
      RestFollows(rs);
      AbsorbAllSeparates(Absorb(merged, rs[0]), rs[1..]);
    }
  }

  lemma RestFollows(rs: seq<Range>)
    requires rs != [] && AllProper(rs) && Sorted(rs, StartOf)
    ensures AllProper(rs[1..]) && Sorted(rs[1..], StartOf)
    ensures |rs| > 1 ==> rs[0].startLine <= rs[1..][0].startLine
  {
    if |rs| > 1 {
      assert StartOf(rs[0]) <= StartOf(rs[1]);
    }
  }

  lemma {:induction false} AbsorbAllLines(merged: seq<Range>, rs: seq<Range>, line: int)
    requires Separated(merged) && AllProper(rs) && Sorted(rs, StartOf)
    requires rs != [] ==> Follows(merged, rs[0])
    ensures HasLine(AbsorbAll(merged, rs), line) <==> HasLine(merged, line) || HasLine(rs, line)
    decreases rs
  {
    if rs != [] {
      assert rs[0] in rs;
      AbsorbSeparates(merged, rs[0]);
      AbsorbLines(merged, rs[0], line);
      RestFollows(rs);
      AbsorbAllLines(Absorb(merged, rs[0]), rs[1..], line);
      SplitLines(rs, line);
    }
  }

  lemma SplitLines(rs: seq<Range>, line: int)
    requires rs != []
    ensures HasLine(rs, line) <==> InRange(rs[0], line) || HasLine(rs[1..], line)
  {
    if HasLine(rs[1..], line) {
      var i :| 0 <= i < |rs[1..]| && InRange(rs[1..][i], line);
      assert InRange(rs[i + 1], line);
    }
    if HasLine(rs, line) {
      var i :| 0 <= i < |rs| && InRange(rs[i], line);
      if i > 0 { assert InRange(rs[1..][i - 1], line); }
    }
  }

  lemma SortedProper(rs: seq<Range>)
    requires AllProper(rs)
    ensures AllProper(SortBy(rs, StartOf)) && Sorted(SortBy(rs, StartOf), StartOf)
  {
    SortBySorts(rs, StartOf);
    forall r | r in SortBy(rs, StartOf) ensures Proper(r) {
      SortMember(rs, StartOf, r);
    }
  }

  lemma LinesByMember(a: seq<Range>, b: seq<Range>, line: int)
    requires forall r :: r in a <==> r in b
    ensures HasLine(a, line) <==> HasLine(b, line)
  {
    if HasLine(a, line) {
      var i :| 0 <= i < |a| && InRange(a[i], line);
      assert a[i] in b;
    }
    if HasLine(b, line) {
      var i :| 0 <= i < |b| && InRange(b[i], line);
      assert b[i] in a;
    }
  }

  // The uncapped union is sorted, leaves a gap between neighbours and covers exactly the input lines.
  lemma UnionIsExact(rs: seq<Range>)
    requires AllProper(rs)
    ensures Separated(Union(rs))
    ensures forall line :: HasLine(Union(rs), line) <==> HasLine(rs, line)
  {
    SortedProper(rs);
    var sorted := SortBy(rs, StartOf);
    AbsorbAllSeparates([], sorted);
    forall line ensures HasLine(Union(rs), line) <==> HasLine(rs, line) {
      AbsorbAllLines([], sorted, line);
      forall r ensures r in sorted <==> r in rs { SortMember(rs, StartOf, r); }
      LinesByMember(sorted, rs, line);
    }
  }

  // ----- one canonical form ---------------------------------------------------------------------

  ghost predicate SameLines(a: seq<Range>, b: seq<Range>) {
    forall line :: HasLine(a, line) <==> HasLine(b, line)
  }

  lemma FirstRangeAgrees(a: seq<Range>, b: seq<Range>)
    requires Separated(a) && Separated(b) && SameLines(a, b) && a != []
    ensures b != [] && a[0] == b[0]
  {
    assert Proper(a[0]);
    assert InRange(a[0], a[0].startLine);
    assert HasLine(a, a[0].startLine);
    var i :| 0 <= i < |b| && InRange(b[i], a[0].startLine);
    assert Proper(b[0]);
    assert InRange(b[0], b[0].startLine);
    assert HasLine(b, b[0].startLine);
    FirstIsLeast(a, b[0].startLine);
    FirstIsLeast(b, a[0].startLine);
    EndIsEdge(a, b);
    EndIsEdge(b, a);
  }

  lemma FirstIsLeast(a: seq<Range>, line: int)
    requires Separated(a) && a != [] && HasLine(a, line)
    ensures a[0].startLine <= line
  {
    var i :| 0 <= i < |a| && InRange(a[i], line);
    assert a[0] in a;
    assert Proper(a[0]);
  }

  // The line after the first range is in no range of `a`, so `b`'s first range ends no later.
  lemma EndIsEdge(a: seq<Range>, b: seq<Range>)
    requires Separated(a) && Separated(b) && SameLines(a, b) && a != [] && b != []
    requires a[0].startLine == b[0].startLine
    ensures b[0].endLine <= a[0].endLine
  {
    var edge := a[0].endLine + 1;
    assert Proper(a[0]);
    assert forall i :: 0 <= i < |a| ==> !InRange(a[i], edge);
    assert !HasLine(a, edge);
    assert !HasLine(b, edge);
    assert !InRange(b[0], edge);
  }

  lemma TailLines(a: seq<Range>, line: int)
    requires Separated(a) && a != []
    ensures HasLine(a[1..], line) <==> HasLine(a, line) && line > a[0].endLine
  {
    SplitLines(a, line);
    if HasLine(a[1..], line) {
      var i :| 0 <= i < |a[1..]| && InRange(a[1..][i], line);
      assert a[1..][i] == a[i + 1];
    }
    assert Proper(a[0]);
  }

  lemma TailSeparated(a: seq<Range>)
    requires Separated(a) && a != []
    ensures Separated(a[1..])
  {
  }

  // Separated lists are a canonical form: the set of lines determines the list.
  lemma {:induction false} SeparatedIsCanonical(a: seq<Range>, b: seq<Range>)
    requires Separated(a) && Separated(b) && SameLines(a, b)
    ensures a == b
  {
    if a == [] {
      if b != [] { FirstRangeAgrees(b, a); }
    } else {
      FirstRangeAgrees(a, b);
      TailSeparated(a);
      TailSeparated(b);
      forall line ensures HasLine(a[1..], line) <==> HasLine(b[1..], line) {
        TailLines(a, line);
        TailLines(b, line);
      }
      SeparatedIsCanonical(a[1..], b[1..]);
      assert a == [a[0]] + a[1..];
      assert b == [b[0]] + b[1..];
    }
  }

  // ----- the merge with its cap --------------------------------------------------------------------

  lemma LastSeparated(a: seq<Range>, n: nat)
    requires Separated(a)
    ensures Separated(LastOf(a, n))
  {
  }

  lemma LastLines(a: seq<Range>, n: nat, line: int)
    requires Separated(a) && 0 < n < |a|
    ensures HasLine(LastOf(a, n), line) <==> HasLine(a, line) && line >= LastOf(a, n)[0].startLine
  {
    var b := LastOf(a, n);
    var k := |a| - n;
    if HasLine(b, line) {
      var i :| 0 <= i < |b| && InRange(b[i], line);
      assert b[i] == a[k + i];
      assert Proper(b[0]);
    }
    if HasLine(a, line) && line >= b[0].startLine {
      var i :| 0 <= i < |a| && InRange(a[i], line);
      assert i >= k;
      assert InRange(b[i - k], line);
    }
  }

  // What a merge keeps: sorted and separated, at most 64 ranges, exactly the union of its inputs
  // unless the cap is reached, and then only lines below the first kept one are forgotten.
  lemma MergeCoversUnion(rs: seq<Range>)
    requires AllProper(rs)
    ensures var m := MergeRanges(rs);
      && Separated(m)
      && |m| <= MAX_RANGES
      && (m == [] <==> rs == [])
      && (|m| < MAX_RANGES ==> SameLines(m, rs))
      && (m != [] ==> forall line :: HasLine(m, line) <==> HasLine(rs, line) && (|Union(rs)| <= MAX_RANGES || line >= m[0].startLine))
  {
    UnionIsExact(rs);
    var u := Union(rs);
    LastSeparated(u, MAX_RANGES);
    if |u| > MAX_RANGES {
      forall line ensures HasLine(LastOf(u, MAX_RANGES), line) <==> HasLine(rs, line) && line >= LastOf(u, MAX_RANGES)[0].startLine {
        LastLines(u, MAX_RANGES, line);
      }
    }
    if rs != [] {
      assert Proper(rs[0]);
      assert InRange(rs[0], rs[0].startLine);
      assert HasLine(rs, rs[0].startLine);
      assert HasLine(u, rs[0].startLine);
    } else {
      assert SortBy(rs, StartOf) == [];
    }
  }

  // The merge depends on the set of lines alone: not on order, overlap or repetition.
  lemma MergeDependsOnLines(a: seq<Range>, b: seq<Range>)
    requires AllProper(a) && AllProper(b) && SameLines(a, b)
    ensures MergeRanges(a) == MergeRanges(b)
  {
    UnionIsExact(a);
    UnionIsExact(b);
    SeparatedIsCanonical(Union(a), Union(b));
  }

  // Merging what a merge returned changes nothing.
  lemma MergedIsFixed(rs: seq<Range>)
    requires Separated(rs) && |rs| <= MAX_RANGES
    ensures MergeRanges(rs) == rs
  {
    UnionIsExact(rs);
    SeparatedIsCanonical(Union(rs), rs);
  }

  // ----- novelty ----------------------------------------------------------------------------------------

  lemma NextRangeHoldsNextLine(rs: seq<Range>, i: nat, line: int)
    requires Separated(rs) && i < |rs| && InRange(rs[i], line) && HasLine(rs, line + 1)
    ensures InRange(rs[i], line + 1)
  {
    var j :| 0 <= j < |rs| && InRange(rs[j], line + 1);
    assert Proper(rs[i]) && Proper(rs[j]);
  }

  lemma {:induction false} RunStaysInRange(rs: seq<Range>, i: nat, q: Range, line: int)
    requires Separated(rs) && i < |rs| && Proper(q) && q.startLine <= line <= q.endLine
    requires forall l :: InRange(q, l) ==> HasLine(rs, l)
    requires InRange(rs[i], q.startLine)
    ensures InRange(rs[i], line)
    decreases line - q.startLine
  {
    if line > q.startLine {
      RunStaysInRange(rs, i, q, line - 1);
      assert InRange(q, line);
      NextRangeHoldsNextLine(rs, i, line - 1);
    }
  }

  // A run of lines is covered by separated ranges exactly when one of them holds it whole.
  lemma CoveredByOne(rs: seq<Range>, q: Range)
    requires Separated(rs) && Proper(q)
    ensures (exists i :: 0 <= i < |rs| && Inside(q, rs[i])) <==> forall line :: InRange(q, line) ==> HasLine(rs, line)
  {
    if i :| 0 <= i < |rs| && Inside(q, rs[i]) {
      forall line | InRange(q, line) ensures HasLine(rs, line) {
        assert InRange(rs[i], line);
      }
    }
    if forall line :: InRange(q, line) ==> HasLine(rs, line) {
      assert InRange(q, q.startLine);
      var i :| 0 <= i < |rs| && InRange(rs[i], q.startLine);
      RunStaysInRange(rs, i, q, q.endLine);
      assert Inside(q, rs[i]);
    }
  }
}
