// The task list a model keeps (src/harness/plan.ts:91-162, 217-235). Titles are measured in characters.
module Plan {
  import opened Optional
  import opened Untrusted

  const MAX_ITEMS := 12
  const MAX_TITLE := 160
  const MAX_SAFE_INTEGER := 9007199254740991

  datatype Status = Pending | InProgress | Completed

  datatype Item = Item(id: string, title: string, status: Status)

  datatype RawItem = RawItem(id: Field<string>, title: Field<string>, status: Field<Status>)

  datatype Plan = Plan(revision: nat, items: seq<Item>)

  datatype Refusal = TooManyItems | TitleMissing(index: nat) | TitleTooLong(index: nat) | StatusInvalid(index: nat)

  datatype Outcome = Refused(why: Refusal) | Normal(items: seq<Item>)

  // ----- texts ------------------------------------------------------------------------------------------------

  function TrimStart(s: string): (r: string)
    ensures |r| <= |s| && (r != "" ==> !IsWhitespace(r[0]))
    ensures s != "" && !IsWhitespace(s[0]) ==> r == s
  {
    if s == "" || !IsWhitespace(s[0]) then s else TrimStart(s[1..])
  }

  function TrimEnd(s: string): (r: string)
    ensures |r| <= |s| && r <= s && (r != "" ==> !IsWhitespace(r[|r| - 1]))
    ensures s != "" && !IsWhitespace(s[|s| - 1]) ==> r == s
  {
    if s == "" || !IsWhitespace(s[|s| - 1]) then s else TrimEnd(s[..|s| - 1])
  }

  // `String.prototype.trim`
  function Trim(s: string): string { TrimEnd(TrimStart(s)) }

  predicate Trimmed(s: string) { s == "" || (!IsWhitespace(s[0]) && !IsWhitespace(s[|s| - 1])) }

  lemma TrimTrims(s: string)
    ensures Trimmed(Trim(s)) && (Trimmed(s) ==> Trim(s) == s)
  {
    var a := TrimStart(s);
    var b := TrimEnd(a);
    if b != "" { assert b[0] == a[0]; }
  }

  ghost predicate AllWhitespace(s: string) { forall i :: 0 <= i < |s| ==> IsWhitespace(s[i]) }

  lemma {:induction false} StartIsTrimmedOff(s: string) returns (n: nat)
    ensures n <= |s| && AllWhitespace(s[..n]) && TrimStart(s) == s[n..]
  {
    if s == "" || !IsWhitespace(s[0]) {
      n := 0;
    } else {
      var m := StartIsTrimmedOff(s[1..]);
      n := m + 1;
      assert s[..n] == [s[0]] + s[1..][..m];
    }
  }

  lemma {:induction false} EndIsTrimmedOff(s: string) returns (n: nat)
    ensures n <= |s| && AllWhitespace(s[n..]) && TrimEnd(s) == s[..n]
  {
    if s == "" || !IsWhitespace(s[|s| - 1]) {
      n := |s|;
    } else {
      n := EndIsTrimmedOff(s[..|s| - 1]);
      assert s[n..] == s[..|s| - 1][n..] + [s[|s| - 1]];
    }
  }

  // Trimming takes off all whitespace at both ends, and nothing else.
  lemma TrimTakesOffWhitespace(s: string)
    ensures Trimmed(Trim(s)) && exists a, b :: AllWhitespace(a) && AllWhitespace(b) && s == a + Trim(s) + b
  {
    TrimTrims(s);
    var n := StartIsTrimmedOff(s);
    var m := EndIsTrimmedOff(s[n..]);
    hide AllWhitespace, Trimmed;
    ThreeParts(s, n, m);
  }

  lemma ThreeParts(s: string, n: nat, m: nat)
    requires n <= |s| && m <= |s[n..]|
    ensures s == s[..n] + s[n..][..m] + s[n..][m..]
  {
  }

  function Digits(n: nat): (r: string)
    ensures r != "" && forall i :: 0 <= i < |r| ==> '0' <= r[i] <= '9'
  {
    if n < 10 then [(n + '0' as int) as char] else Digits(n / 10) + [(n % 10 + '0' as int) as char]
  }

  function Decimal(s: string): int {
    if s == "" then 0 else 10 * Decimal(s[..|s| - 1]) + (s[|s| - 1] as int - '0' as int)
  }

  // The decimal text of a number, without leading zeros.
  lemma {:induction false} DigitsAreDecimal(n: nat)
    ensures Decimal(Digits(n)) == n && (n > 0 ==> Digits(n)[0] != '0')
  {
    var s := Digits(n);
    if n >= 10 {
      DigitsAreDecimal(n / 10);
      assert s[..|s| - 1] == Digits(n / 10);
    } else {
      assert s[..0] == "";
    }
  }

  lemma {:induction false} DigitsInjective(m: nat, n: nat)
    requires Digits(m) == Digits(n)
    ensures m == n
  {
    var a, b := Digits(m), Digits(n);
    assert (m < 10 <==> |a| == 1) && (n < 10 <==> |b| == 1);
    assert a[|a| - 1] == b[|b| - 1];
    if m >= 10 {
      assert Digits(m / 10) == a[..|a| - 1] && Digits(n / 10) == b[..|b| - 1];
      DigitsInjective(m / 10, n / 10);
    }
  }

  function Renamed(id: string, suffix: nat): string { id + "#" + Digits(suffix) }

  lemma RenamedInjective(id: string, m: nat, n: nat)
    requires Renamed(id, m) == Renamed(id, n)
    ensures m == n
  {
    assert Renamed(id, m)[|id| + 1..] == Digits(m) && Renamed(id, n)[|id| + 1..] == Digits(n);
    DigitsInjective(m, n);
  }

  // ----- free ids -----------------------------------------------------------------------------------------------

  // The used ids that are renamings of `id` with a suffix of at least `from`.
  ghost function Taken(used: set<string>, id: string, from: nat): set<string> {
    set x | x in used && exists k: nat :: k >= from && x == Renamed(id, k)
  }

  lemma TakenShrinks(used: set<string>, id: string, from: nat)
    requires Renamed(id, from) in used
    ensures |Taken(used, id, from + 1)| < |Taken(used, id, from)|
  {
    var a, b := Taken(used, id, from), Taken(used, id, from + 1);
    assert Renamed(id, from) in a;
    if Renamed(id, from) in b {
      var k: nat :| k >= from + 1 && Renamed(id, from) == Renamed(id, k);
      RenamedInjective(id, from, k);
    }
    assert b <= a - {Renamed(id, from)};
    Smaller(b, a - {Renamed(id, from)});
  }

  lemma {:induction false} Smaller(a: set<string>, b: set<string>)
    requires a <= b
    ensures |a| <= |b|
  {
    if a != {} {
      var x :| x in a;
      Smaller(a - {x}, b - {x});
    }
  }

  // The least suffix from `suffix` on whose renaming is free: the search ends, because only finitely many
  // ids are used and no two suffixes give the same one.
  function FreeSuffix(used: set<string>, id: string, suffix: nat): (r: nat)
    ensures r >= suffix && Renamed(id, r) !in used
    ensures forall k: nat :: suffix <= k < r ==> Renamed(id, k) in used
    decreases |Taken(used, id, suffix)|
  {
    if Renamed(id, suffix) !in used then suffix
    else
      TakenShrinks(used, id, suffix);
      FreeSuffix(used, id, suffix + 1)
  }

  function FreeId(used: set<string>, id: string): (r: string)
    ensures r !in used && (id !in used ==> r == id)
  {
    if id in used then Renamed(id, FreeSuffix(used, id, 2)) else id
  }

  method FindFreeId(used: set<string>, id: string) returns (r: string)
    ensures r == FreeId(used, id)
  {
    r := id;
    if id in used {
      var suffix := 2;
      while Renamed(id, suffix) in used
        invariant FreeSuffix(used, id, suffix) == FreeSuffix(used, id, 2)
        decreases |Taken(used, id, suffix)|
      {
        TakenShrinks(used, id, suffix);
        suffix := suffix + 1;
      }
      r := Renamed(id, suffix);
    }
  }

  // ----- normalizing --------------------------------------------------------------------------------------------

  function GivenId(raw: RawItem, index: nat): string {
    var provided := if raw.id.Is? then Trim(raw.id.value) else "";
    if provided != "" then provided else "t" + Digits(index + 1)
  }

  function TitleOf(raw: RawItem): string { if raw.title.Is? then Trim(raw.title.value) else "" }

  function Fault(raw: RawItem, index: nat): Option<Refusal> {
    if TitleOf(raw) == "" then Some(TitleMissing(index))
    else if |TitleOf(raw)| > MAX_TITLE then Some(TitleTooLong(index))
    else if !raw.status.Is? then Some(StatusInvalid(index))
    else None
  }

  function Ids(items: seq<Item>): set<string> { set i | 0 <= i < |items| :: items[i].id }

  // The items so far, with ids that are not used yet.
  function Name(raws: seq<RawItem>, items: seq<Item>): Outcome
    requires |items| <= |raws|
    decreases |raws| - |items|
  {
    var i := |items|;
    if i == |raws| then Normal(items)
    else if Fault(raws[i], i).Some? then Refused(Fault(raws[i], i).value)
    else Name(raws, items + [Item(FreeId(Ids(items), GivenId(raws[i], i)), TitleOf(raws[i]), raws[i].status.value)])
  }

  function ActiveCount(items: seq<Item>): nat {
    if items == [] then 0 else ActiveCount(items[..|items| - 1]) + if items[|items| - 1].status == InProgress then 1 else 0
  }

  function LastActive(items: seq<Item>): (r: int)
    ensures -1 <= r < |items| && (r >= 0 ==> items[r].status == InProgress)
    ensures forall i :: r < i < |items| ==> items[i].status != InProgress
    ensures r >= 0 <==> ActiveCount(items) > 0
  {
    if items == [] then -1
    else if items[|items| - 1].status == InProgress then |items| - 1
    else LastActive(items[..|items| - 1])
  }

  function Demote(items: seq<Item>, keep: string): (r: seq<Item>)
    ensures |r| == |items|
    ensures forall i :: 0 <= i < |r| ==>
      r[i] == if items[i].status == InProgress && items[i].id != keep then items[i].(status := Pending) else items[i]
  {
    seq(|items|, i requires 0 <= i < |items| =>
      if items[i].status == InProgress && items[i].id != keep then items[i].(status := Pending) else items[i])
  }

  // Of several items in progress only the last stays so.
  function KeepLastActive(items: seq<Item>): (r: seq<Item>)
    ensures |r| == |items|
  {
    if ActiveCount(items) <= 1 then items else Demote(items, items[LastActive(items)].id)
  }

  function Normalize(raws: seq<RawItem>): Outcome {
    if |raws| > MAX_ITEMS then Refused(TooManyItems)
    else
      match Name(raws, [])
      case Refused(why) => Refused(why)
      case Normal(items) => Normal(KeepLastActive(items))
  }

  method NormalizeItems(raws: seq<RawItem>) returns (r: Outcome)
    ensures r == Normalize(raws)
  {
    hide FreeId, GivenId, Ids, Trim, Demote;
    assert Ids([]) == {} by { NoIds(); }
    if |raws| > MAX_ITEMS { return Refused(TooManyItems); }
    var usedIds: set<string> := {};
    var normalized: seq<Item> := [];
    for index := 0 to |raws|
      invariant |normalized| == index && usedIds == Ids(normalized)
      invariant Name(raws, normalized) == Name(raws, [])
    {
      var raw := raws[index];
      var title := TitleOf(raw);
      if title == "" { return Refused(TitleMissing(index)); }
      if |title| > MAX_TITLE { return Refused(TitleTooLong(index)); }
      if !raw.status.Is? { return Refused(StatusInvalid(index)); }
      var id := FindFreeId(usedIds, GivenId(raw, index));
      MoreIds(normalized, Item(id, title, raw.status.value));
      usedIds := usedIds + {id};
      normalized := normalized + [Item(id, title, raw.status.value)];
    }
    if ActiveCount(normalized) > 1 {
      normalized := DemoteOthers(normalized, normalized[LastActive(normalized)].id);
    }
    return Normal(normalized);
  }

  method DemoteOthers(named: seq<Item>, keep: string) returns (items: seq<Item>)
    ensures items == Demote(named, keep)
  {
    items := named;
    for i := 0 to |named|
      invariant |items| == |named|
      invariant forall k :: 0 <= k < |named| ==> items[k] == if k < i then Demote(named, keep)[k] else named[k]
    {
      if items[i].status == InProgress && items[i].id != keep {
        items := items[i := items[i].(status := Pending)];
      }
    }
  }

  lemma NoIds()
    ensures Ids([]) == {}
  {
  }

  lemma MoreIds(items: seq<Item>, x: Item)
    ensures Ids(items + [x]) == Ids(items) + {x.id}
  {
    var all := items + [x];
    assert all[|items|] == x;
    assert forall i :: 0 <= i < |items| ==> all[i] == items[i];
    forall y | y in Ids(items) ensures y in Ids(all) {
      var i :| 0 <= i < |items| && items[i].id == y;
      assert all[i].id == y;
    }
  }

  // ----- what a normalized list is ---------------------------------------------------------------------------------

  ghost predicate DistinctIds(items: seq<Item>) { forall i, j :: 0 <= i < j < |items| ==> items[i].id != items[j].id }

  predicate WellFormed(x: Item) {
    x.id != "" && Trimmed(x.id) && x.title != "" && Trimmed(x.title) && |x.title| <= MAX_TITLE
  }

  ghost predicate AllWellFormed(items: seq<Item>) { forall i :: 0 <= i < |items| ==> WellFormed(items[i]) }

  // At most twelve well-formed items with distinct ids, of which at most one is in progress.
  ghost predicate IsNormal(items: seq<Item>) {
    |items| <= MAX_ITEMS && DistinctIds(items) && AllWellFormed(items) && ActiveCount(items) <= 1
  }

  lemma GivenIdIsTrimmed(raw: RawItem, index: nat)
    ensures GivenId(raw, index) != "" && Trimmed(GivenId(raw, index))
  {
    if raw.id.Is? { TrimTrims(raw.id.value); }
    var d := Digits(index + 1);
    assert ("t" + d)[|d|] == d[|d| - 1];
  }

  lemma FreeIdIsTrimmed(used: set<string>, id: string)
    requires id != "" && Trimmed(id)
    ensures FreeId(used, id) != "" && Trimmed(FreeId(used, id))
  {
    if id in used {
      var d := Digits(FreeSuffix(used, id, 2));
      var r := id + "#" + d;
      assert r[0] == id[0] && r[|r| - 1] == d[|d| - 1];
    }
  }

  lemma {:induction false} NamedAreDistinct(raws: seq<RawItem>, items: seq<Item>)
    requires |items| <= |raws| && DistinctIds(items) && AllWellFormed(items)
    ensures Name(raws, items).Normal? ==>
      var r := Name(raws, items).items; |r| == |raws| && DistinctIds(r) && AllWellFormed(r)
    decreases |raws| - |items|
  {
    var i := |items|;
    if i < |raws| && Fault(raws[i], i).None? {
      var id := FreeId(Ids(items), GivenId(raws[i], i));
      GivenIdIsTrimmed(raws[i], i);
      FreeIdIsTrimmed(Ids(items), GivenId(raws[i], i));
      TrimTrims(raws[i].title.value);
      forall k | 0 <= k < |items| ensures items[k].id != id { assert items[k].id in Ids(items); }
      NamedAreDistinct(raws, items + [Item(id, TitleOf(raws[i]), raws[i].status.value)]);
    }
  }

  lemma {:induction false} NoneActive(items: seq<Item>, keep: int)
    requires forall i :: 0 <= i < |items| && i != keep ==> items[i].status != InProgress
    ensures ActiveCount(items) <= 1 && (keep >= |items| ==> ActiveCount(items) == 0)
  {
    if items != [] { NoneActive(items[..|items| - 1], keep); }
  }

  lemma KeepLastKeeps(items: seq<Item>)
    requires DistinctIds(items) && AllWellFormed(items)
    ensures var r := KeepLastActive(items);
      && DistinctIds(r) && AllWellFormed(r) && ActiveCount(r) <= 1
      && forall i :: 0 <= i < |items| ==> r[i].id == items[i].id && r[i].title == items[i].title
  {
    if ActiveCount(items) > 1 { NoneActive(KeepLastActive(items), LastActive(items)); }
  }

  // Every accepted submission gives a normal list.
  lemma NormalizedIsNormal(raws: seq<RawItem>)
    ensures Normalize(raws).Normal? ==> IsNormal(Normalize(raws).items) && |Normalize(raws).items| == |raws|
  {
    if |raws| <= MAX_ITEMS {
      NamedAreDistinct(raws, []);
      if Name(raws, []).Normal? { KeepLastKeeps(Name(raws, []).items); }
    }
  }

  // ----- what normalizing keeps --------------------------------------------------------------------------------------

  // Item `i` as it was named: its title and status are the given ones, and so is its id unless that is taken.
  ghost predicate NamedFor(raws: seq<RawItem>, items: seq<Item>, i: nat)
    requires i < |items| <= |raws|
  {
    && items[i].title == TitleOf(raws[i]) && raws[i].status == Is(items[i].status)
    && (items[i].id == GivenId(raws[i], i) || exists j :: 0 <= j < i && items[j].id == GivenId(raws[i], i))
  }

  ghost predicate AllNamedFor(raws: seq<RawItem>, items: seq<Item>)
    requires |items| <= |raws|
  {
    forall i :: 0 <= i < |items| ==> NamedFor(raws, items, i)
  }

  lemma OneMoreNamed(raws: seq<RawItem>, items: seq<Item>, x: Item)
    requires |items| < |raws| && AllNamedFor(raws, items) && Fault(raws[|items|], |items|).None?
    requires x == Item(FreeId(Ids(items), GivenId(raws[|items|], |items|)), TitleOf(raws[|items|]), raws[|items|].status.value)
    ensures AllNamedFor(raws, items + [x])
  {
    hide GivenId, TitleOf;
    var all := items + [x];
    forall i | 0 <= i < |all| ensures NamedFor(raws, all, i) {
      if i < |items| {
        assert NamedFor(raws, items, i);
        if j :| 0 <= j < i && items[j].id == GivenId(raws[i], i) { assert all[j].id == GivenId(raws[i], i); }
      } else if GivenId(raws[i], i) in Ids(items) {
        var j :| 0 <= j < |items| && items[j].id == GivenId(raws[i], i);
        assert all[j].id == GivenId(raws[i], i);
      }
    }
  }

  lemma {:induction false} NamedContent(raws: seq<RawItem>, items: seq<Item>)
    requires |items| <= |raws| && AllNamedFor(raws, items) && Name(raws, items).Normal?
    ensures |Name(raws, items).items| == |raws| && AllNamedFor(raws, Name(raws, items).items)
    decreases |raws| - |items|
  {
    var i := |items|;
    if i < |raws| {
      hide GivenId, TitleOf, FreeId, Ids, NamedFor, AllNamedFor;
      var x := Item(FreeId(Ids(items), GivenId(raws[i], i)), TitleOf(raws[i]), raws[i].status.value);
      OneMoreNamed(raws, items, x);
      NamedContent(raws, items + [x]);
    }
  }

  lemma {:induction false} TwoActive(items: seq<Item>, i: nat, j: nat)
    requires i < j < |items| && items[i].status == InProgress && items[j].status == InProgress
    ensures ActiveCount(items) >= 2
  {
    var front := items[..|items| - 1];
    if j < |front| { TwoActive(front, i, j); } else { assert front[i].status == InProgress && LastActive(front) >= i; }
  }

  ghost predicate ActiveLater(items: seq<Item>, i: nat) {
    exists j :: i < j < |items| && items[j].status == InProgress
  }

  // Demoting touches no item but the ones in progress before the last of those.
  lemma DemotesAllButLast(items: seq<Item>, i: nat)
    requires DistinctIds(items) && i < |items|
    ensures KeepLastActive(items)[i]
      == if items[i].status == InProgress && ActiveLater(items, i) then items[i].(status := Pending) else items[i]
  {
    if items[i].status == InProgress && ActiveLater(items, i) {
      var j :| i < j < |items| && items[j].status == InProgress;
      TwoActive(items, i, j);
    } else if items[i].status == InProgress {
      assert LastActive(items) >= 0;
    }
  }

  // What an accepted submission turns into: its items in order with their trimmed titles; every status as
  // given, but that of several items in progress only the last stays so; and every id as given, unless an
  // earlier item has it.
  lemma AcceptedKeepsContent(raws: seq<RawItem>, i: nat)
    requires Normalize(raws).Normal? && i < |raws|
    ensures var items := Normalize(raws).items;
      && |items| == |raws| && items[i].title == TitleOf(raws[i]) && raws[i].status.Is?
      && items[i].status == (
        if raws[i].status == Is(InProgress) && (exists j :: i < j < |raws| && raws[j].status == Is(InProgress)) then Pending
        else raws[i].status.value)
      && (items[i].id == GivenId(raws[i], i) || exists j :: 0 <= j < i && items[j].id == GivenId(raws[i], i))
  {
    hide GivenId, TitleOf, Name, KeepLastActive;
    NamedContent(raws, []);
    NamedAreDistinct(raws, []);
    var named, items := Name(raws, []).items, Normalize(raws).items;
    forall k | 0 <= k < |raws|
      ensures NamedFor(raws, named, k) && items[k].id == named[k].id && items[k].title == named[k].title
    {
      DemotesAllButLast(named, k);
    }
    DemotesAllButLast(named, i);
    assert ActiveLater(named, i) <==> exists j :: i < j < |raws| && raws[j].status == Is(InProgress) by {
      if ActiveLater(named, i) {
        var j :| i < j < |named| && named[j].status == InProgress;
        assert NamedFor(raws, named, j);
      }
      if j :| i < j < |raws| && raws[j].status == Is(InProgress) { assert NamedFor(raws, named, j); }
    }
    if j :| 0 <= j < i && named[j].id == GivenId(raws[i], i) { assert items[j].id == GivenId(raws[i], i); }
  }

  lemma {:induction false} NamesInOrder(raws: seq<RawItem>, items: seq<Item>, i: nat)
    requires |items| <= i < |raws| && Name(raws, items).Normal?
    ensures var all := Name(raws, items).items;
      && |all| == |raws| && all[..|items|] == items
      && all[i].id == FreeId(Ids(all[..i]), GivenId(raws[i], i))
    decreases |raws| - |items|
  {
    hide FreeId, GivenId, TitleOf, Ids;
    var n := |items|;
    var x := Item(FreeId(Ids(items), GivenId(raws[n], n)), TitleOf(raws[n]), raws[n].status.value);
    if n < i {
      NamesInOrder(raws, items + [x], i);
      assert Name(raws, items).items[..n] == Name(raws, items).items[..n + 1][..n];
    } else if n + 1 < |raws| {
      NamesInOrder(raws, items + [x], n + 1);
      assert Name(raws, items).items[..n] == Name(raws, items).items[..n + 1][..n];
      assert Name(raws, items).items[n] == Name(raws, items).items[..n + 1][n];
    } else {
      assert (items + [x])[..n] == items;
    }
  }

  // Some earlier item has this id.
  ghost predicate HasId(items: seq<Item>, i: nat, id: string) { exists j :: 0 <= j < i && j < |items| && items[j].id == id }

  // The id of an accepted item: the one given, trimmed, or its number behind a `t`; and if an earlier item has that,
  // with the least number from two on behind a `#` that no earlier item has.
  lemma AcceptedIds(raws: seq<RawItem>, i: nat)
    requires Normalize(raws).Normal? && i < |raws|
    ensures var items := Normalize(raws).items;
      var given := if raws[i].id.Is? then Trim(raws[i].id.value) else "";
      var wanted := if given != "" then given else "t" + Digits(i + 1);
      && |items| == |raws|
      && (!HasId(items, i, wanted) ==> items[i].id == wanted)
      && (HasId(items, i, wanted) ==>
            exists k: nat :: k >= 2 && items[i].id == wanted + "#" + Digits(k) && !HasId(items, i, items[i].id)
                             && forall m: nat :: 2 <= m < k ==> HasId(items, i, wanted + "#" + Digits(m)))
  {
    NamesInOrder(raws, [], i);
    var named, items := Name(raws, []).items, Normalize(raws).items;
    SameIds(named);
    var used := Ids(named[..i]);
    forall id ensures id in used <==> HasId(items, i, id) { UsedIds(named, items, i, id); }
    var wanted := GivenId(raws[i], i);
    if wanted in used {
      var k := FreeSuffix(used, wanted, 2);
      assert items[i].id == wanted + "#" + Digits(k);
      forall m: nat | 2 <= m < k ensures HasId(items, i, wanted + "#" + Digits(m)) { assert Renamed(wanted, m) in used; }
    }
  }

  lemma SameIds(named: seq<Item>)
    ensures |KeepLastActive(named)| == |named| && forall k :: 0 <= k < |named| ==> KeepLastActive(named)[k].id == named[k].id
  {
  }

  lemma UsedIds(named: seq<Item>, items: seq<Item>, i: nat, id: string)
    requires i <= |named| == |items| && forall k :: 0 <= k < |named| ==> items[k].id == named[k].id
    ensures id in Ids(named[..i]) <==> HasId(items, i, id)
  {
    if HasId(items, i, id) {
      var j :| 0 <= j < i && j < |items| && items[j].id == id;
      assert named[..i][j].id == id;
    }
  }

  // Item `i` is the first one at fault, for this reason.
  predicate HasTitle(raw: RawItem) { raw.title.Is? && Trim(raw.title.value) != "" }

  predicate Acceptable(raw: RawItem) { HasTitle(raw) && |Trim(raw.title.value)| <= 160 && raw.status.Is? }

  // What is wrong with item `i`; the first that applies is named.
  predicate IsAtFault(raw: RawItem, i: int, why: Refusal) {
    match why
    case TitleMissing(k) => k == i && !HasTitle(raw)
    case TitleTooLong(k) => k == i && HasTitle(raw) && |Trim(raw.title.value)| > 160
    case StatusInvalid(k) => k == i && HasTitle(raw) && |Trim(raw.title.value)| <= 160 && !raw.status.Is?
    case TooManyItems => false
  }

  lemma FaultIs(raw: RawItem, i: nat)
    ensures Fault(raw, i).None? <==> Acceptable(raw)
    ensures Fault(raw, i).Some? ==> IsAtFault(raw, i, Fault(raw, i).value)
  {
    hide Trim;
  }

  ghost predicate FirstFault(raws: seq<RawItem>, i: int, why: Refusal) {
    0 <= i < |raws| && IsAtFault(raws[i], i, why) && forall j :: 0 <= j < i ==> Acceptable(raws[j])
  }

  lemma {:induction false} NameRefuses(raws: seq<RawItem>, items: seq<Item>)
    requires |items| <= |raws| && forall i :: 0 <= i < |items| ==> Acceptable(raws[i])
    ensures Name(raws, items).Refused? ==> exists i :: FirstFault(raws, i, Name(raws, items).why)
    ensures Name(raws, items).Normal? ==> forall i :: 0 <= i < |raws| ==> Acceptable(raws[i])
    decreases |raws| - |items|
  {
    hide Fault, FreeId, Ids, GivenId, TitleOf, IsAtFault, HasTitle, Trim;
    var i := |items|;
    if i < |raws| {
      FaultIs(raws[i], i);
      if Acceptable(raws[i]) {
        NameRefuses(raws, items + [Item(FreeId(Ids(items), GivenId(raws[i], i)), TitleOf(raws[i]), raws[i].status.value)]);
      } else {
        assert FirstFault(raws, i, Fault(raws[i], i).value);
      }
    }
  }

  // A submission is refused exactly when it is too long or some item has no title, too long a title or no
  // valid status, and then for the length or the first such item.
  lemma RefusedForFirstFault(raws: seq<RawItem>)
    ensures Normalize(raws).Refused? <==> |raws| > 12 || exists i :: 0 <= i < |raws| && !Acceptable(raws[i])
    ensures Normalize(raws).Refused? && |raws| <= 12 ==> exists i :: FirstFault(raws, i, Normalize(raws).why)
    ensures |raws| > 12 ==> Normalize(raws) == Refused(TooManyItems)
  {
    hide Fault, Name, KeepLastActive, Acceptable;
    NameRefuses(raws, []);
    if i, why :| FirstFault(raws, i, why) { FaultShows(raws[i], i, why); }
  }

  lemma FaultShows(raw: RawItem, i: int, why: Refusal)
    requires IsAtFault(raw, i, why)
    ensures !Acceptable(raw)
  {
  }

  // ----- submitting the same list again -------------------------------------------------------------------------------

  function Resubmit(items: seq<Item>): (r: seq<RawItem>)
    ensures |r| == |items| && forall i :: 0 <= i < |r| ==> r[i] == RawItem(Is(items[i].id), Is(items[i].title), Is(items[i].status))
  {
    seq(|items|, i requires 0 <= i < |items| => RawItem(Is(items[i].id), Is(items[i].title), Is(items[i].status)))
  }

  lemma IdIsFree(items: seq<Item>, k: nat)
    requires k < |items| && DistinctIds(items)
    ensures items[k].id !in Ids(items[..k])
  {
    forall i | 0 <= i < k ensures items[..k][i].id != items[k].id { assert items[..k][i] == items[i]; }
  }

  lemma {:induction false} NamesStay(items: seq<Item>, k: nat)
    requires k <= |items| && DistinctIds(items) && AllWellFormed(items)
    ensures Name(Resubmit(items), items[..k]) == Normal(items)
    decreases |items| - k
  {
    if k == |items| {
      assert items[..k] == items;
    } else {
      var x := items[k];
      assert WellFormed(x);
      TrimTrims(x.id);
      TrimTrims(x.title);
      IdIsFree(items, k);
      assert items[..k] + [x] == items[..k + 1];
      NamesStay(items, k + 1);
    }
  }

  function Apply(plan: Plan, raws: seq<RawItem>): (Plan, bool) {
    match Normalize(raws)
    case Refused(_) => (plan, false)
    case Normal(items) => if items == plan.items then (plan, false) else (Plan(plan.revision + 1, items), true)
  }

  // Submitting a plan that was accepted once more changes nothing, not even the revision.
  lemma ResubmittingChangesNothing(plan: Plan, raws: seq<RawItem>)
    requires Normalize(raws).Normal?
    ensures var (once, _) := Apply(plan, raws);
      Apply(once, Resubmit(once.items)) == (once, false) && Normalize(Resubmit(once.items)) == Normal(once.items)
  {
    NormalizedIsNormal(raws);
    var items := Normalize(raws).items;
    NamesStay(items, 0);
    assert items[..0] == [];
  }

  // ----- restoring ------------------------------------------------------------------------------------------------------

  function RestoreItem(f: Field<RawItem>, index: nat): Option<Item> {
    if !f.Is? then None
    else
      var title :=
        if f.value.title.Is? then (if |f.value.title.value| > MAX_TITLE then f.value.title.value[..MAX_TITLE] else f.value.title.value)
        else "";
      if title == "" || !f.value.status.Is? then None
      else Some(Item(GivenId(f.value, index), title, f.value.status.value))
  }

  function RestoreItems(fs: seq<Field<RawItem>>): seq<Item> {
    if fs == [] then []
    else
      var n := |fs| - 1;
      RestoreItems(fs[..n]) + (if RestoreItem(fs[n], n).Some? then [RestoreItem(fs[n], n).value] else [])
  }

  function Restore(revision: Field<int>, items: Field<seq<Field<RawItem>>>): Plan {
    if !items.Is? then Plan(0, [])
    else
      var all := RestoreItems(items.value);
      Plan(if revision.Is? && 0 <= revision.value <= MAX_SAFE_INTEGER then revision.value else 0,
           if |all| > MAX_ITEMS then all[..MAX_ITEMS] else all)
  }

  // A stored item is restored exactly when it has a title and a valid status, with at most 160 characters of the
  // title, and with the id it has or gets by its place.
  lemma ItemIsRestoredIff(f: Field<RawItem>, index: nat)
    ensures var r := RestoreItem(f, index);
      && (r.Some? <==> f.Is? && f.value.title.Is? && f.value.title.value != "" && f.value.status.Is?)
      && (r.Some? ==>
            && r.value.title <= f.value.title.value && f.value.status == Is(r.value.status)
            && |r.value.title| == (if |f.value.title.value| <= 160 then |f.value.title.value| else 160)
            && r.value.id == (if f.value.id.Is? && Trim(f.value.id.value) != "" then Trim(f.value.id.value) else "t" + Digits(index + 1)))
  {
  }

  // A stored plan is restored as the first twelve of those items in order, with its revision if that is one; what
  // is no list is the empty plan.
  lemma PlanIsRestored(revision: Field<int>, items: Field<seq<Field<RawItem>>>)
    ensures var p := Restore(revision, items);
      if !items.Is? then p == Plan(0, [])
      else
        && p.revision == (if revision.Is? && 0 <= revision.value <= 9007199254740991 then revision.value else 0)
        && p.items <= RestoreItems(items.value)
        && |p.items| == (if |RestoreItems(items.value)| <= 12 then |RestoreItems(items.value)| else 12)
  {
    hide RestoreItems;
  }

  lemma {:induction false} ItemsRestore(items: seq<Item>)
    requires AllWellFormed(items)
    ensures RestoreItems(WrapAll(Resubmit(items))) == items
  {
    if items != [] {
      var n := |items| - 1;
      ItemsRestore(items[..n]);
      assert WrapAll(Resubmit(items))[..n] == WrapAll(Resubmit(items[..n]));
      assert WellFormed(items[n]);
      TrimTrims(items[n].id);
      assert items == items[..n] + [items[n]];
    }
  }

  // A plan that a series of submissions can lead to.
  ghost predicate Reachable(p: Plan) { p.items == [] || IsNormal(p.items) }

  lemma ApplyStaysReachable(plan: Plan, raws: seq<RawItem>)
    requires Reachable(plan)
    ensures Reachable(Apply(plan, raws).0)
    ensures Apply(plan, raws).0.revision == plan.revision + if Apply(plan, raws).1 then 1 else 0
  {
    NormalizedIsNormal(raws);
  }

  // Saving and restoring gives back every plan that can be reached, as long as its revision is a safe integer.
  lemma RestoreIsIdentity(p: Plan)
    requires Reachable(p)
    ensures Restore(Is(p.revision), Is(WrapAll(Resubmit(p.items)))) == p <==> p.revision <= 9007199254740991
  {
    ItemsRestore(p.items);
  }
}
