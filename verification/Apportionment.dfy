// Largest-remainder apportionment over exact fractions (eval/sampling.ts:22-48).
module Apportionment {
  import opened StableSort

  function Sum(s: seq<nat>): nat {
    if s == [] then 0 else Sum(s[..|s| - 1]) + s[|s| - 1]
  }

  // The exact share of a size is `size * total / n`; its whole part and its remainder over `n`.
  function Floor(size: nat, total: nat, n: nat): nat
    requires n > 0
  {
    size * total / n
  }

  function Remainder(size: nat, total: nat, n: nat): (r: nat)
    requires n > 0
    ensures r < n
  {
    size * total % n
  }

  function Floors(sizes: seq<nat>, total: nat, n: nat): (r: seq<nat>)
    requires n > 0
    ensures |r| == |sizes| && forall i :: 0 <= i < |r| ==> r[i] == Floor(sizes[i], total, n)
  {
    seq(|sizes|, i requires 0 <= i < |sizes| => Floor(sizes[i], total, n))
  }

  function Indices(n: nat): (r: seq<int>)
    ensures |r| == n && forall i :: 0 <= i < n ==> r[i] == i
  {
    seq(n, i => i)
  }

  // Sorting by the negated remainder puts the largest first, and equal ones in the order of the groups.
  function Rank(sizes: seq<nat>, total: nat, n: nat): int -> int
    requires n > 0
  {
    (i: int) => if 0 <= i < |sizes| then -(Remainder(sizes[i], total, n) as int) else 0
  }

  function Order(sizes: seq<nat>, total: nat, n: nat): seq<int>
    requires n > 0
  {
    SortBy(Indices(|sizes|), Rank(sizes, total, n))
  }

  // One more for each of the first `remaining` entries of `order`.
  function Bump(q: seq<nat>, order: seq<int>, remaining: int): seq<nat>
    decreases order
  {
    if remaining <= 0 || order == [] then q
    else Bump(if 0 <= order[0] < |q| then q[order[0] := q[order[0]] + 1] else q, order[1..], remaining - 1)
  }

  function Quota(sizes: seq<nat>, total: nat): seq<nat> {
    var n := Sum(sizes);
    if n == 0 then Floors(sizes, total, 1)
    else Bump(Floors(sizes, total, n), Order(sizes, total, n), total - Sum(Floors(sizes, total, n)))
  }

  // The first loop: every share rounded down.
  method FloorShares(sizes: seq<nat>, total: nat, grandTotal: nat) returns (quota: seq<nat>)
    requires grandTotal > 0
    ensures quota == Floors(sizes, total, grandTotal)
  {
    quota := [];
    for i := 0 to |sizes|
      invariant |quota| == i && forall k :: 0 <= k < i ==> quota[k] == Floor(sizes[k], total, grandTotal)
    {
      quota := quota + [sizes[i] * total / grandTotal];
    }
  }

  // The second loop: what remains is handed out one by one, in the given order.
  method HandOut(floors: seq<nat>, byRemainder: seq<int>, left: int) returns (quota: seq<nat>)
    requires forall k :: 0 <= k < |byRemainder| ==> 0 <= byRemainder[k] < |floors|
    ensures quota == Bump(floors, byRemainder, left)
  {
    quota := floors;
    var remaining := left;
    assert byRemainder[0..] == byRemainder;
    for i := 0 to |byRemainder|
      invariant |quota| == |floors|
      invariant Bump(quota, byRemainder[i..], remaining) == Bump(floors, byRemainder, left)
    {
      if remaining <= 0 { break; }
      assert byRemainder[i..][1..] == byRemainder[i + 1..];
      quota := quota[byRemainder[i] := quota[byRemainder[i]] + 1];
      remaining := remaining - 1;
    }
  }

  method Apportion(sizes: seq<nat>, total: nat) returns (quota: seq<nat>)
    requires Sum(sizes) > 0
    ensures quota == Quota(sizes, total)
  {
    hide Sum, Order, Rank, Floors, Bump;
    var grandTotal := Sum(sizes);
    var floors := FloorShares(sizes, total, grandTotal);
    OrderIsPermutation(sizes, total, grandTotal);
    FloorsCount(sizes, total, grandTotal);
    quota := HandOut(floors, Order(sizes, total, grandTotal), total - Sum(floors));
  }

  lemma FloorsCount(sizes: seq<nat>, total: nat, n: nat)
    requires n > 0
    ensures |Floors(sizes, total, n)| == |sizes|
  {
  }

  // ----- the order of the remainders -------------------------------------------------------------------------

  ghost predicate Distinct(s: seq<int>) { forall i, j :: 0 <= i < j < |s| ==> s[i] != s[j] }

  lemma OnceEach(s: seq<int>)
    requires forall x :: multiset(s)[x] <= 1
    ensures Distinct(s)
  {
    forall i, j | 0 <= i < j < |s| ensures s[i] != s[j] {
      if s[i] == s[j] { Twice(s, i, j); }
    }
  }

  lemma Twice(s: seq<int>, i: nat, j: nat)
    requires i < j < |s| && s[i] == s[j]
    ensures multiset(s)[s[i]] >= 2
  {
    assert s == s[..i] + [s[i]] + s[i + 1..j] + [s[j]] + s[j + 1..];
  }

  lemma {:induction false} IndicesOnce(n: nat, x: int)
    ensures multiset(Indices(n))[x] == if 0 <= x < n then 1 else 0
  {
    if n > 0 {
      IndicesOnce(n - 1, x);
      assert Indices(n) == Indices(n - 1) + [n - 1];
    } else {
      assert Indices(0) == [];
    }
  }

  lemma OrderIsPermutation(sizes: seq<nat>, total: nat, n: nat)
    requires n > 0
    ensures var o := Order(sizes, total, n);
      |o| == |sizes| && Distinct(o) && (forall k :: 0 <= k < |o| ==> 0 <= o[k] < |sizes|) && (forall i :: 0 <= i < |sizes| ==> i in o)
  {
    var o := Order(sizes, total, n);
    var all := Indices(|sizes|);
    SortBySorts(all, Rank(sizes, total, n));
    forall x ensures multiset(o)[x] <= 1 {
      IndicesOnce(|sizes|, x);
      assert multiset(o)[x] == multiset(all)[x];
    }
    OnceEach(o);
    forall k | 0 <= k < |o| ensures 0 <= o[k] < |sizes| {
      SortMember(all, Rank(sizes, total, n), o[k]);
      assert o[k] in all;
    }
    forall i | 0 <= i < |sizes| ensures i in o {
      assert all[i] in all;
      SortMember(all, Rank(sizes, total, n), i);
    }
  }

  // Along the order the remainders never grow.
  lemma OrderFalls(sizes: seq<nat>, total: nat, n: nat, a: nat, b: nat)
    requires n > 0 && a <= b < |Order(sizes, total, n)| == |sizes|
    requires 0 <= Order(sizes, total, n)[a] < |sizes| && 0 <= Order(sizes, total, n)[b] < |sizes|
    ensures Remainder(sizes[Order(sizes, total, n)[b]], total, n) <= Remainder(sizes[Order(sizes, total, n)[a]], total, n)
  {
    SortBySorts(Indices(|sizes|), Rank(sizes, total, n));
    var o, key := Order(sizes, total, n), Rank(sizes, total, n);
    assert a < b ==> key(o[a]) <= key(o[b]);
  }

  // ----- sums ---------------------------------------------------------------------------------------------------

  lemma DivMod(a: nat, n: nat)
    requires n > 0
    ensures a == a / n * n + a % n
  {
  }

  function RemainderSum(sizes: seq<nat>, total: nat, n: nat): nat
    requires n > 0
  {
    if sizes == [] then 0
    else RemainderSum(sizes[..|sizes| - 1], total, n) + Remainder(sizes[|sizes| - 1], total, n)
  }

  lemma AddShare(f: nat, r: nat, sum: nat, size: nat, total: nat, n: nat)
    requires n > 0 && f * n + r == sum * total
    ensures (f + Floor(size, total, n)) * n + (r + Remainder(size, total, n)) == (sum + size) * total
  {
    DivMod(size * total, n);
    var x := Floor(size, total, n);
    assert (f + x) * n == f * n + x * n;
    assert (sum + size) * total == sum * total + size * total;
  }

  lemma {:induction false} SharesAddUp(sizes: seq<nat>, total: nat, n: nat)
    requires n > 0
    ensures Sum(Floors(sizes, total, n)) * n + RemainderSum(sizes, total, n) == Sum(sizes) * total
  {
    hide Floor, Remainder;
    if sizes != [] {
      var front, last := sizes[..|sizes| - 1], sizes[|sizes| - 1];
      SharesAddUp(front, total, n);
      assert Floors(sizes, total, n)[..|sizes| - 1] == Floors(front, total, n);
      AddShare(Sum(Floors(front, total, n)), RemainderSum(front, total, n), Sum(front), last, total, n);
    }
  }

  lemma {:induction false} RemainderSumBound(sizes: seq<nat>, total: nat, n: nat)
    requires n > 0
    ensures RemainderSum(sizes, total, n) <= |sizes| * (n - 1)
  {
    if sizes != [] {
      RemainderSumBound(sizes[..|sizes| - 1], total, n);
      assert |sizes| * (n - 1) == (|sizes| - 1) * (n - 1) + (n - 1);
    }
  }

  function SumKey<T>(s: seq<T>, key: T -> int): int {
    if s == [] then 0 else key(s[0]) + SumKey(s[1..], key)
  }

  lemma {:induction false} SumInsert<T>(x: T, s: seq<T>, key: T -> int)
    ensures SumKey(Insert(x, s, key), key) == key(x) + SumKey(s, key)
  {
    if !(s == [] || key(x) <= key(s[0])) { SumInsert(x, s[1..], key); }
  }

  lemma {:induction false} SumSort<T>(s: seq<T>, key: T -> int)
    ensures SumKey(SortBy(s, key), key) == SumKey(s, key)
  {
    if s != [] {
      SumSort(s[1..], key);
      SumInsert(s[0], SortBy(s[1..], key), key);
    }
  }

  lemma {:induction false} SumKeyAppend<T>(a: seq<T>, b: seq<T>, key: T -> int)
    ensures SumKey(a + b, key) == SumKey(a, key) + SumKey(b, key)
  {
    if a == [] {
      assert a + b == b;
    } else {
      SumKeyAppend(a[1..], b, key);
      assert (a + b)[1..] == a[1..] + b;
    }
  }

  // The ranks of all indices add up to the negated sum of the remainders.
  lemma {:induction false} RanksAddUp(sizes: seq<nat>, total: nat, n: nat, k: nat)
    requires n > 0 && k <= |sizes|
    ensures SumKey(Indices(k), Rank(sizes, total, n)) == -(RemainderSum(sizes[..k], total, n) as int)
  {
    if k == 0 {
      assert Indices(0) == [];
    } else {
      RanksAddUp(sizes, total, n, k - 1);
      assert Indices(k) == Indices(k - 1) + [k - 1];
      SumKeyAppend(Indices(k - 1), [k - 1], Rank(sizes, total, n));
      assert sizes[..k][..k - 1] == sizes[..k - 1];
      assert [k - 1][1..] == [];
      assert SumKey([k - 1], Rank(sizes, total, n)) == Rank(sizes, total, n)(k - 1) + SumKey([k - 1][1..], Rank(sizes, total, n));
    }
  }

  // What is left after the whole parts is what the remainders add up to: at least nothing and less than
  // one for each group.
  lemma LeftOver(sizes: seq<nat>, total: nat)
    requires Sum(sizes) > 0
    ensures var n := Sum(sizes);
      var left := total - Sum(Floors(sizes, total, n));
      0 <= left <= |sizes| && left * n == RemainderSum(sizes, total, n)
  {
    hide Sum, Floors, RemainderSum;
    var n := Sum(sizes);
    SharesAddUp(sizes, total, n);
    RemainderSumBound(sizes, total, n);
    LeftOverOf(Sum(Floors(sizes, total, n)), RemainderSum(sizes, total, n), total, n, |sizes|);
  }

  lemma LeftOverOf(f: nat, r: nat, total: nat, n: nat, count: nat)
    requires n > 0 && f * n + r == n * total && r <= count * (n - 1)
    ensures 0 <= total - f <= count && (total - f) * n == r
  {
    var left := total - f;
    assert left * n == total * n - f * n;
    NotNegative(left, n);
    NotMore(left, count, n);
  }

  lemma Scale(a: int, b: int, n: nat)
    requires a <= b
    ensures a * n <= b * n
  {
    assert b * n == a * n + (b - a) * n;
  }

  lemma NotNegative(a: int, n: nat)
    requires n > 0 && a * n >= 0
    ensures a >= 0
  {
    if a < 0 { Scale(a, -1, n); }
  }

  lemma NotMore(a: nat, b: nat, n: nat)
    requires n > 0 && a * n <= b * (n - 1)
    ensures a <= b
  {
    assert b * (n - 1) == b * n - b;
    assert (b + 1) * n == b * n + n;
    if a > b { Scale(b + 1, a, n); }
  }

  // ----- bumping ------------------------------------------------------------------------------------------------

  ghost predicate AmongFirst(order: seq<int>, remaining: int, i: nat) {
    exists k :: 0 <= k < |order| && k < remaining && order[k] == i
  }

  lemma {:induction false} BumpAt(q: seq<nat>, order: seq<int>, remaining: int, i: nat)
    requires i < |q| && Distinct(order)
    ensures |Bump(q, order, remaining)| == |q|
    ensures Bump(q, order, remaining)[i] == q[i] + if AmongFirst(order, remaining, i) then 1 else 0
    decreases order
  {
    if remaining > 0 && order != [] {
      var r := if 0 <= order[0] < |q| then q[order[0] := q[order[0]] + 1] else q;
      BumpAt(r, order[1..], remaining - 1, i);
      if order[0] == i {
        assert AmongFirst(order, remaining, i);
        assert !AmongFirst(order[1..], remaining - 1, i);
      } else {
        if AmongFirst(order, remaining, i) {
          var k :| 0 <= k < |order| && k < remaining && order[k] == i;
          assert order[1..][k - 1] == i;
        }
        if AmongFirst(order[1..], remaining - 1, i) {
          var k :| 0 <= k < |order[1..]| && k < remaining - 1 && order[1..][k] == i;
          assert order[k + 1] == i;
        }
      }
    }
  }

  lemma {:induction false} SumUpdate(q: seq<nat>, i: nat, x: nat)
    requires i < |q|
    ensures Sum(q[i := x]) == Sum(q) - q[i] + x
  {
    var n := |q| - 1;
    if i == n {
      assert q[i := x][..n] == q[..n];
    } else {
      SumUpdate(q[..n], i, x);
      assert q[i := x][..n] == q[..n][i := x];
    }
  }

  lemma {:induction false} BumpSum(q: seq<nat>, order: seq<int>, remaining: nat)
    requires remaining <= |order| && forall k :: 0 <= k < |order| ==> 0 <= order[k] < |q|
    ensures Sum(Bump(q, order, remaining)) == Sum(q) + remaining
    decreases order
  {
    if remaining > 0 {
      SumUpdate(q, order[0], q[order[0]] + 1);
      BumpSum(q[order[0] := q[order[0]] + 1], order[1..], remaining - 1);
    }
  }

  // ----- the theorems ----------------------------------------------------------------------------------------------

  // The quotas add up to the total.
  lemma QuotasAddUp(sizes: seq<nat>, total: nat)
    requires Sum(sizes) > 0
    ensures |Quota(sizes, total)| == |sizes| && Sum(Quota(sizes, total)) == total
  {
    hide Order;
    var n := Sum(sizes);
    LeftOver(sizes, total);
    OrderIsPermutation(sizes, total, n);
    var floors := Floors(sizes, total, n);
    var left := total - Sum(floors);
    BumpSum(floors, Order(sizes, total, n), left);
    if sizes != [] { BumpAt(floors, Order(sizes, total, n), left, 0); }
  }

  lemma OrderAddsUp(sizes: seq<nat>, total: nat, n: nat)
    requires n > 0
    ensures SumKey(Order(sizes, total, n), Rank(sizes, total, n)) == -(RemainderSum(sizes, total, n) as int)
  {
    hide Rank;
    SumSort(Indices(|sizes|), Rank(sizes, total, n));
    RanksAddUp(sizes, total, n, |sizes|);
    assert sizes[..|sizes|] == sizes;
  }

  lemma ZeroRanks(sizes: seq<nat>, total: nat, n: nat, k: nat)
    requires n > 0 && k < |Order(sizes, total, n)| == |sizes| && 0 <= Order(sizes, total, n)[k] < |sizes|
    requires Remainder(sizes[Order(sizes, total, n)[k]], total, n) == 0
    ensures forall j :: k <= j < |sizes| ==> Rank(sizes, total, n)(Order(sizes, total, n)[j]) == 0
  {
    hide Remainder;
    var o := Order(sizes, total, n);
    OrderIsPermutation(sizes, total, n);
    forall j | k <= j < |o| ensures Rank(sizes, total, n)(o[j]) == 0 { OrderFalls(sizes, total, n, k, j); }
  }

  // From a zero remainder on, the remainders along the order add up to the ones before it.
  lemma ZeroFrom(sizes: seq<nat>, total: nat, n: nat, k: nat)
    requires n > 0 && k < |Order(sizes, total, n)| == |sizes| && 0 <= Order(sizes, total, n)[k] < |sizes|
    requires Remainder(sizes[Order(sizes, total, n)[k]], total, n) == 0
    ensures RemainderSum(sizes, total, n) <= k * (n - 1)
  {
    var o, key := Order(sizes, total, n), Rank(sizes, total, n);
    hide Remainder, Rank;
    OrderIsPermutation(sizes, total, n);
    ZeroRanks(sizes, total, n, k);
    OrderAddsUp(sizes, total, n);
    hide Order, RemainderSum;
    SumKeyAppend(o[..k], o[k..], key);
    assert o == o[..k] + o[k..];
    ZeroSum(o[k..], key);
    RanksAreSmall(sizes, total, n);
    RankBound(o[..k], key, n - 1);
  }

  lemma RanksAreSmall(sizes: seq<nat>, total: nat, n: nat)
    requires n > 0
    ensures forall i :: Rank(sizes, total, n)(i) >= -(n - 1)
  {
  }

  // Only groups with a remainder get one more.
  lemma BumpedHasRemainder(sizes: seq<nat>, total: nat, k: nat)
    requires Sum(sizes) > 0 && k < |Order(sizes, total, Sum(sizes))|
    requires k < total - Sum(Floors(sizes, total, Sum(sizes)))
    ensures var i := Order(sizes, total, Sum(sizes))[k]; 0 <= i < |sizes| && Remainder(sizes[i], total, Sum(sizes)) > 0
  {
    hide Order, Remainder, RemainderSum;
    var n := Sum(sizes);
    OrderIsPermutation(sizes, total, n);
    LeftOver(sizes, total);
    if Remainder(sizes[Order(sizes, total, n)[k]], total, n) == 0 {
      ZeroFrom(sizes, total, n, k);
      NotMore(total - Sum(Floors(sizes, total, n)), k, n);
    }
  }

  lemma {:induction false} ZeroSum<T>(s: seq<T>, key: T -> int)
    requires forall j :: 0 <= j < |s| ==> key(s[j]) == 0
    ensures SumKey(s, key) == 0
  {
    if s != [] { ZeroSum(s[1..], key); }
  }

  lemma {:induction false} RankBound<T>(s: seq<T>, key: T -> int, most: int)
    requires forall j :: 0 <= j < |s| ==> key(s[j]) >= -most
    ensures SumKey(s, key) >= -(|s| * most)
  {
    if s != [] {
      RankBound(s[1..], key, most);
      assert |s| * most == (|s| - 1) * most + most;
    }
  }

  // Every quota is the exact share rounded down or up; a whole share is kept as it is.
  lemma QuotaIsRoundedShare(sizes: seq<nat>, total: nat, i: nat)
    requires Sum(sizes) > 0 && i < |sizes|
    ensures var n := Sum(sizes);
      var q := Quota(sizes, total);
      && |q| == |sizes|
      && (q[i] == Floor(sizes[i], total, n) || (q[i] == Floor(sizes[i], total, n) + 1 && Remainder(sizes[i], total, n) > 0))
  {
    hide Floors, Order, Bump, Floor, Remainder;
    var n := Sum(sizes);
    var left := total - Sum(Floors(sizes, total, n));
    OrderIsPermutation(sizes, total, n);
    BumpAt(Floors(sizes, total, n), Order(sizes, total, n), left, i);
    if AmongFirst(Order(sizes, total, n), left, i) {
      var k :| 0 <= k < |Order(sizes, total, n)| && k < left && Order(sizes, total, n)[k] == i;
      BumpedHasRemainder(sizes, total, k);
    }
  }

  // A group never gets more than it holds, as long as the total does not exceed all of them.
  lemma QuotaWithinSize(sizes: seq<nat>, total: nat, i: nat)
    requires 0 < Sum(sizes) && total <= Sum(sizes) && i < |sizes|
    ensures |Quota(sizes, total)| == |sizes| && Quota(sizes, total)[i] <= sizes[i]
  {
    hide Quota, Sum;
    var n := Sum(sizes);
    QuotaIsRoundedShare(sizes, total, i);
    ShareWithin(sizes[i], total, n);
  }

  lemma ShareWithin(size: nat, total: nat, n: nat)
    requires 0 < n && total <= n
    ensures Floor(size, total, n) <= size && (Remainder(size, total, n) > 0 ==> Floor(size, total, n) + 1 <= size)
  {
    var f := Floor(size, total, n);
    DivMod(size * total, n);
    Scale(total, n, size);
    assert (size + 1) * n == size * n + n;
    if f > size { Scale(size + 1, f, n); }
  }

  // Larger groups never get fewer.
  lemma LargerGetNoFewer(sizes: seq<nat>, total: nat, i: nat, j: nat)
    requires Sum(sizes) > 0 && total > 0 && i < |sizes| && j < |sizes| && sizes[i] > sizes[j]
    ensures |Quota(sizes, total)| == |sizes| && Quota(sizes, total)[i] >= Quota(sizes, total)[j]
  {
    hide Floors, Order, Bump, Floor, Remainder, Rank;
    var n := Sum(sizes);
    var o, left := Order(sizes, total, n), total - Sum(Floors(sizes, total, n));
    OrderIsPermutation(sizes, total, n);
    BumpAt(Floors(sizes, total, n), o, left, i);
    BumpAt(Floors(sizes, total, n), o, left, j);
    LargerShare(sizes[i], sizes[j], total, n);
    if AmongFirst(o, left, j) && Floor(sizes[i], total, n) == Floor(sizes[j], total, n) {
      var b :| 0 <= b < |o| && b < left && o[b] == j;
      assert i in o;
      var a :| 0 <= a < |o| && o[a] == i;
      if b <= a { OrderFalls(sizes, total, n, b, a); }
      assert AmongFirst(o, left, i);
    }
  }

  lemma LargerShare(s: nat, t: nat, total: nat, n: nat)
    requires s > t && total > 0 && n > 0
    ensures Floor(s, total, n) > Floor(t, total, n)
      || (Floor(s, total, n) == Floor(t, total, n) && Remainder(s, total, n) > Remainder(t, total, n))
  {
    DivMod(s * total, n);
    DivMod(t * total, n);
    assert s * total == t * total + (s - t) * total;
    assert (s - t) * total >= 1;
    var f, g := Floor(s, total, n), Floor(t, total, n);
    assert (f + 1) * n == f * n + n;
    if f < g { Scale(f + 1, g, n); }
  }
}
