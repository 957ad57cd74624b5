// The tiers of an execution budget (src/harness/execution-policy.ts:107-115, 226-280). Ratios are exact.
module ExecutionBudget {
  import opened Optional

  const MAX_SAFE_INTEGER := 9007199254740991

  datatype Level = NoLevel | Warn | Converge | Exhausted

  // One of the three buckets: calls, tokens or time. `max` is missing when the bucket has no limit.
  datatype Bucket = Bucket(used: nat, warned: bool, converged: bool, exhausted: bool)

  datatype Policy = Policy(max: Option<int>, warnRatio: real, convergeRatio: real)

  const FRESH := Bucket(0, false, false, false)

  function Rank(l: Level): nat { match l case NoLevel => 0 case Warn => 1 case Converge => 2 case Exhausted => 3 }

  predicate Limited(p: Policy) { p.max.Some? && p.max.value > 0 }

  // The tier that an amount of use belongs to.
  function Tier(used: nat, p: Policy): Level {
    if !Limited(p) then NoLevel
    else if used >= p.max.value then Exhausted
    else if used as real >= p.max.value as real * p.convergeRatio then Converge
    else if used as real >= p.max.value as real * p.warnRatio then Warn
    else NoLevel
  }

  function LevelOf(b: Bucket): Level {
    if b.exhausted then Exhausted else if b.converged then Converge else if b.warned then Warn else NoLevel
  }

  function AddUse(used: nat, more: nat): nat {
    if used + more > MAX_SAFE_INTEGER then MAX_SAFE_INTEGER else used + more
  }

  // One observation: the new bucket, and the tier it reports as newly reached.
  function AdvanceOne(b: Bucket, more: nat, p: Policy): (Bucket, Level) {
    var c := b.(used := AddUse(b.used, more));
    match Tier(c.used, p)
    case Exhausted => if b.exhausted then (c, NoLevel) else (c.(exhausted := true), Exhausted)
    case Converge => if b.converged then (c, NoLevel) else (c.(converged := true), Converge)
    case Warn => if b.warned then (c, NoLevel) else (c.(warned := true), Warn)
    case NoLevel => (c, NoLevel)
  }

  method AdvanceBudget(state: seq<Bucket>, more: seq<nat>, policy: seq<Policy>)
    returns (next: seq<Bucket>, level: Level, touched: seq<int>)
    requires |state| == |more| == |policy|
    ensures |next| == |state| && forall i :: 0 <= i < |state| ==> next[i] == AdvanceOne(state[i], more[i], policy[i]).0
    ensures forall i :: 0 <= i < |next| ==> Rank(LevelOf(next[i])) <= Rank(level)
    ensures level == NoLevel || exists i :: 0 <= i < |next| && LevelOf(next[i]) == level
    ensures forall i :: i in touched <==> 0 <= i < |state| && AdvanceOne(state[i], more[i], policy[i]).1 != NoLevel
  {
    next, touched := [], [];
    for i := 0 to |state|
      invariant |next| == i && forall k :: 0 <= k < i ==> next[k] == AdvanceOne(state[k], more[k], policy[k]).0
      invariant forall k :: k in touched <==> 0 <= k < i && AdvanceOne(state[k], more[k], policy[k]).1 != NoLevel
    {
      var c := state[i].(used := AddUse(state[i].used, more[i]));
      var p := policy[i];
      if !Limited(p) {
        next := next + [c];
        continue;
      }
      var isNew := true;
      if c.used >= p.max.value {
        isNew := !c.exhausted;
        c := c.(exhausted := true);
      } else if c.used as real >= p.max.value as real * p.convergeRatio {
        isNew := !c.converged;
        c := c.(converged := true);
      } else if c.used as real >= p.max.value as real * p.warnRatio {
        isNew := !c.warned;
        c := c.(warned := true);
      } else {
        isNew := false;
      }
      next := next + [c];
      if isNew { touched := touched + [i]; }
    }
    level := NoLevel;
    for i := 0 to |next|
      invariant forall k :: 0 <= k < i ==> Rank(LevelOf(next[k])) <= Rank(level)
      invariant level == NoLevel || exists k :: 0 <= k < i && LevelOf(next[k]) == level
    {
      if Rank(LevelOf(next[i])) > Rank(level) { level := LevelOf(next[i]); }
    }
  }

  // One observation adds to the use and raises at most one flag, that of the tier it is in; it reports that tier
  // exactly when the flag is new.
  lemma ObservationReportsNew(b: Bucket, more: nat, p: Policy)
    ensures var (c, l) := AdvanceOne(b, more, p);
      var tier := Tier(c.used, p);
      && c.used == (if b.used + more <= 9007199254740991 then b.used + more else 9007199254740991)
      && (c.warned <==> b.warned || tier == Warn)
      && (c.converged <==> b.converged || tier == Converge)
      && (c.exhausted <==> b.exhausted || tier == Exhausted)
      && (if c.(used := b.used) == b then l == NoLevel else l == tier)
  {
    hide Tier;
  }

  // ----- a whole run of one bucket ---------------------------------------------------------------------------------

  // A bucket and the tiers it has reported, in order.
  datatype Run = Run(bucket: Bucket, reports: seq<Level>)

  function Observe(r: Run, more: nat, p: Policy): Run {
    var (c, l) := AdvanceOne(r.bucket, more, p);
    Run(c, if l == NoLevel then r.reports else r.reports + [l])
  }

  function ObserveAll(r: Run, uses: seq<nat>, p: Policy): Run
    decreases uses
  {
    if uses == [] then r else ObserveAll(Observe(r, uses[0], p), uses[1..], p)
  }

  function TotalUse(used: nat, uses: seq<nat>): nat
    decreases uses
  {
    if uses == [] then used else TotalUse(AddUse(used, uses[0]), uses[1..])
  }

  // More use never belongs to a lower tier.
  lemma TierRises(a: nat, b: nat, p: Policy)
    requires a <= b
    ensures Rank(Tier(a, p)) <= Rank(Tier(b, p))
  {
  }

  // The level is the tier of the use so far, and what has been reported rises strictly up to it.
  ghost predicate Consistent(r: Run, p: Policy) {
    && r.bucket.used <= MAX_SAFE_INTEGER
    && LevelOf(r.bucket) == Tier(r.bucket.used, p)
    && (forall i, j :: 0 <= i < j < |r.reports| ==> Rank(r.reports[i]) < Rank(r.reports[j]))
    && (forall i :: 0 <= i < |r.reports| ==> r.reports[i] != NoLevel && Rank(r.reports[i]) <= Rank(LevelOf(r.bucket)))
    && (LevelOf(r.bucket) != NoLevel ==> r.reports != [] && r.reports[|r.reports| - 1] == LevelOf(r.bucket))
    && (r.bucket.warned ==> Rank(LevelOf(r.bucket)) >= 1) && (r.bucket.converged ==> Rank(LevelOf(r.bucket)) >= 2)
  }

  lemma ObserveKeeps(r: Run, more: nat, p: Policy)
    requires Consistent(r, p)
    ensures Consistent(Observe(r, more, p), p)
    ensures Rank(LevelOf(r.bucket)) <= Rank(LevelOf(Observe(r, more, p).bucket))
  {
    TierRises(r.bucket.used, AddUse(r.bucket.used, more), p);
    hide Tier;
  }

  lemma {:induction false} ObservingKeeps(r: Run, uses: seq<nat>, p: Policy)
    requires Consistent(r, p)
    ensures Consistent(ObserveAll(r, uses, p), p)
    ensures Rank(LevelOf(r.bucket)) <= Rank(LevelOf(ObserveAll(r, uses, p).bucket))
    decreases uses
  {
    hide Consistent, Tier;
    if uses != [] {
      ObserveKeeps(r, uses[0], p);
      ObservingKeeps(Observe(r, uses[0], p), uses[1..], p);
    }
  }

  // Whatever the ratios, the first observation makes the level fit.
  lemma FirstObservation(more: nat, p: Policy)
    ensures Consistent(Observe(Run(FRESH, []), more, p), p)
  {
    hide Tier;
  }

  lemma {:induction false} UseAddsUp(r: Run, uses: seq<nat>, p: Policy)
    ensures ObserveAll(r, uses, p).bucket.used == TotalUse(r.bucket.used, uses)
    decreases uses
  {
    hide Tier;
    if uses != [] { UseAddsUp(Observe(r, uses[0], p), uses[1..], p); }
  }

  lemma {:induction false} ObserveMore(r: Run, a: seq<nat>, b: seq<nat>, p: Policy)
    ensures ObserveAll(r, a + b, p) == ObserveAll(ObserveAll(r, a, p), b, p)
    decreases a
  {
    if a == [] {
      assert a + b == b;
    } else {
      hide Observe;
      assert (a + b)[1..] == a[1..] + b;
      ObserveMore(Observe(r, a[0], p), a[1..], b, p);
    }
  }

  // Over every run of observations of a new bucket: the level is always the tier of the accumulated use, and
  // each tier is reported at most once, in rising order; and the level never falls.
  lemma LevelIsTierOfUse(uses: seq<nat>, more: seq<nat>, p: Policy)
    requires uses != []
    ensures var e := ObserveAll(Run(FRESH, []), uses, p);
      && Consistent(e, p) && e.bucket.used == TotalUse(0, uses)
      && Rank(LevelOf(e.bucket)) <= Rank(LevelOf(ObserveAll(Run(FRESH, []), uses + more, p).bucket))
  {
    hide Consistent, Observe;
    var start := Run(FRESH, []);
    FirstObservation(uses[0], p);
    ObservingKeeps(Observe(start, uses[0], p), uses[1..], p);
    UseAddsUp(start, uses, p);
    ObserveMore(start, uses, more, p);
    ObservingKeeps(ObserveAll(start, uses, p), more, p);
  }

  function Sum(uses: seq<nat>): nat
    decreases uses
  {
    if uses == [] then 0 else uses[0] + Sum(uses[1..])
  }

  lemma {:induction false} UseIsCappedSum(used: nat, uses: seq<nat>)
    requires used <= 9007199254740991
    ensures TotalUse(used, uses) == if used + Sum(uses) <= 9007199254740991 then used + Sum(uses) else 9007199254740991
    decreases uses
  {
    if uses != [] { UseIsCappedSum(AddUse(used, uses[0]), uses[1..]); }
  }

  // So the level is told by the sum of all uses: exhausted from the limit on, then converging and warned from
  // their shares of it on. Without a positive limit there is none.
  lemma LevelOfSum(uses: seq<nat>, p: Policy)
    requires uses != []
    ensures var level := LevelOf(ObserveAll(Run(FRESH, []), uses, p).bucket);
      var used := if Sum(uses) <= 9007199254740991 then Sum(uses) else 9007199254740991;
      if p.max.None? || p.max.value <= 0 then level == NoLevel
      else
        && (level == Exhausted <==> used >= p.max.value)
        && (level == Converge <==> used < p.max.value && used as real >= p.max.value as real * p.convergeRatio)
        && (level == Warn <==>
              && used < p.max.value && (used as real) < p.max.value as real * p.convergeRatio
              && used as real >= p.max.value as real * p.warnRatio)
  {
    hide ObserveAll;
    LevelIsTierOfUse(uses, [], p);
    UseIsCappedSum(0, uses);
  }

  // The levels rise from none to exhausted.
  lemma RanksAre()
    ensures Rank(NoLevel) < Rank(Warn) < Rank(Converge) < Rank(Exhausted)
  {
  }
}
