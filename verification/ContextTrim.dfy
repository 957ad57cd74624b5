// Trimming a conversation to a token budget (src/harness/context-manager.ts:24-153). The estimate of
// one message is a parameter: any function to the natural numbers.
module ContextTrim {
  import opened Transcript

  // ----- turns -----------------------------------------------------------------------------------------------

  function Flatten(turns: seq<seq<Message>>): seq<Message> {
    if turns == [] then [] else turns[0] + Flatten(turns[1..])
  }

  // Where the next turn starts after position 0.
  function TurnEnd(ms: seq<Message>): (r: nat)
    requires ms != []
    ensures 0 < r <= |ms|
    ensures r < |ms| ==> ms[r].role == User
    ensures forall k :: 0 < k < r ==> ms[k].role != User
  {
    1 + (if FirstIndexOf(ms[1..], User) < 0 then |ms| - 1 else FirstIndexOf(ms[1..], User))
  }

  function Turns(ms: seq<Message>): seq<seq<Message>>
    decreases |ms|
  {
    if ms == [] then [] else [ms[..TurnEnd(ms)]] + Turns(ms[TurnEnd(ms)..])
  }

  // No user message but possibly the first.
  predicate IsTurn(t: seq<Message>) {
    t != [] && forall k :: 0 < k < |t| ==> t[k].role != User
  }

  // `e` is where the first turn ends.
  ghost predicate EndsAt(ms: seq<Message>, e: nat) {
    0 < e <= |ms| && (e < |ms| ==> ms[e].role == User) && forall k :: 0 < k < e ==> ms[k].role != User
  }

  lemma EndExists(ms: seq<Message>)
    requires ms != []
    ensures EndsAt(ms, TurnEnd(ms))
  {
    hide TurnEnd;
  }

  lemma EndIsUnique(ms: seq<Message>, d: nat, e: nat)
    requires EndsAt(ms, d) && EndsAt(ms, e)
    ensures d == e
  {
  }

  lemma TurnsStep(ms: seq<Message>, e: nat)
    requires EndsAt(ms, e)
    ensures e <= |ms| && Turns(ms) == [ms[..e]] + Turns(ms[e..])
  {
    EndExists(ms);
    EndIsUnique(ms, TurnEnd(ms), e);
    assert ms != [];
    hide TurnEnd, EndsAt;
  }

  ghost predicate AllTurns(turns: seq<seq<Message>>) {
    forall i :: 0 <= i < |turns| ==> IsTurn(turns[i])
  }

  // Every turn but the first starts with a user message.
  ghost predicate StartWithUser(turns: seq<seq<Message>>) {
    forall i :: 0 < i < |turns| ==> turns[i] != [] && turns[i][0].role == User
  }

  lemma ConsTurns(t: seq<Message>, rest: seq<seq<Message>>)
    requires IsTurn(t) && AllTurns(rest) && StartWithUser(rest)
    requires rest != [] ==> rest[0] != [] && rest[0][0].role == User
    ensures AllTurns([t] + rest) && StartWithUser([t] + rest) && Flatten([t] + rest) == t + Flatten(rest)
  {
    assert ([t] + rest)[1..] == rest;
    hide Flatten, IsTurn;
    var all := [t] + rest;
    assert forall i :: 0 <= i < |all| ==> all[i] == if i == 0 then t else rest[i - 1];
    assert Flatten(all) == t + Flatten(rest) by { FlattenStep(all); }
  }

  lemma FlattenStep(turns: seq<seq<Message>>)
    requires turns != []
    ensures Flatten(turns) == turns[0] + Flatten(turns[1..])
  {
  }

  lemma EndedTurn(ms: seq<Message>, e: nat)
    requires EndsAt(ms, e)
    ensures IsTurn(ms[..e]) && ms[..e] + ms[e..] == ms && ms[..e][0] == ms[0]
    ensures e < |ms| ==> ms[e..][0].role == User
  {
  }

  // The turns are a partition of the messages: nothing is lost or moved.
  lemma {:induction false} TurnsSplitTheWhole(ms: seq<Message>)
    ensures Flatten(Turns(ms)) == ms && AllTurns(Turns(ms)) && StartWithUser(Turns(ms))
    ensures ms != [] ==> Turns(ms) != [] && Turns(ms)[0] != [] && Turns(ms)[0][0] == ms[0]
    decreases |ms|
  {
    if ms == [] {
      NoTurns();
    } else {
      var e := TurnEnd(ms);
      EndExists(ms);
      hide TurnEnd, Turns, IsTurn, AllTurns, StartWithUser, Flatten;
      assert 0 < e <= |ms|;
      TurnsStep(ms, e);
      EndedTurn(ms, e);
      hide EndsAt;
      TurnsSplitTheWhole(ms[e..]);
      if ms[e..] == [] { NoTurns(); }
      ConsTurns(ms[..e], Turns(ms[e..]));
    }
  }

  // One message more opens a turn, or joins the last one.
  function Grow(turns: seq<seq<Message>>, m: Message): seq<seq<Message>>
    requires turns != []
  {
    var n := |turns| - 1;
    if m.role == User then turns + [[m]] else turns[..n] + [turns[n] + [m]]
  }

  lemma GrowCons(h: seq<Message>, rest: seq<seq<Message>>, m: Message)
    requires rest != []
    ensures [h] + Grow(rest, m) == Grow([h] + rest, m)
  {
    assert m.role == User ==> [h] + (rest + [[m]]) == [h] + rest + [[m]];
    var n := |rest| - 1;
    assert ([h] + rest)[..n + 1] == [h] + rest[..n];
    assert m.role != User ==> [h] + (rest[..n] + [rest[n] + [m]]) == [h] + rest[..n] + [rest[n] + [m]];
  }

  lemma GrowOne(h: seq<Message>, m: Message)
    ensures Grow([h], m) == if m.role == User then [h] + [[m]] else [h + [m]]
  {
    assert [h][..0] + [h + [m]] == [h + [m]];
  }

  lemma {:induction false} TurnsAppend(ms: seq<Message>, m: Message)
    requires ms != []
    ensures Turns(ms) != [] && Turns(ms + [m]) == Grow(Turns(ms), m)
    decreases |ms|
  {
    var e := TurnEnd(ms);
    hide TurnEnd, Turns, Grow;
    var all := ms + [m];
    EndExists(ms);
    assert 0 < e <= |ms|;
    TurnsStep(ms, e);
    AppendParts(ms, m, e);
    hide EndsAt;
    if e < |ms| {
      TurnsAppend(ms[e..], m);
      TurnsStep(all, e);
      GrowCons(ms[..e], Turns(ms[e..]), m);
    } else {
      assert ms[..e] == ms && ms[e..] == [];
      NoTurns();
      assert [ms] + [] == [ms];
      GrowOne(ms, m);
      LastTurn(ms, m);
    }
  }

  lemma AppendParts(ms: seq<Message>, m: Message, e: nat)
    requires EndsAt(ms, e)
    ensures (ms + [m])[..e] == ms[..e] && (ms + [m])[e..] == ms[e..] + [m]
    ensures e < |ms| ==> EndsAt(ms + [m], e)
  {
  }

  lemma LastTurn(ms: seq<Message>, m: Message)
    requires EndsAt(ms, |ms|)
    ensures Turns(ms + [m]) == if m.role == User then [ms] + [[m]] else [ms + [m]]
  {
    hide Turns;
    var all := ms + [m];
    if m.role == User {
      TurnsStep(all, |ms|);
      assert all[..|ms|] == ms && all[|ms|..] == [m];
      OneTurn(m);
    } else {
      TurnsStep(all, |ms| + 1);
      assert all[..|ms| + 1] == all && all[|ms| + 1..] == [];
      NoTurns();
    }
  }

  lemma NoTurns()
    ensures Turns([]) == []
  {
  }

  lemma OneTurn(m: Message)
    ensures Turns([m]) == [[m]]
  {
    TurnsStep([m], 1);
    assert [m][..1] == [m] && [m][1..] == [];
  }

  // One message more: it opens a turn, or joins the last one.
  lemma GroupStep(ms: seq<Message>, i: nat, turns: seq<seq<Message>>, current: seq<Message>)
    requires i < |ms|
    requires if i == 0 then turns == [] && current == [] else current != [] && turns + [current] == Turns(ms[..i])
    ensures if ms[i].role == User && current != [] then turns + [current] + [[ms[i]]] == Turns(ms[..i + 1])
      else turns + [current + [ms[i]]] == Turns(ms[..i + 1])
  {
    hide Turns;
    assert ms[..i] + [ms[i]] == ms[..i + 1];
    assert [] + [ms[i]] == [ms[i]];
    if i == 0 {
      OneTurn(ms[0]);
      assert ms[..1] == [ms[0]] && [] + [ms[0]] == [ms[0]];
    } else {
      TurnsAppend(ms[..i], ms[i]);
      assert (turns + [current])[..|turns|] == turns;
    }
  }

  method GroupConversationTurns(ms: seq<Message>) returns (turns: seq<seq<Message>>)
    ensures turns == Turns(ms)
  {
    hide Turns;
    NoTurns();
    turns := [];
    var current: seq<Message> := [];
    for i := 0 to |ms|
      invariant if i == 0 then turns == [] && current == [] else current != [] && turns + [current] == Turns(ms[..i])
    {
      GroupStep(ms, i, turns, current);
      if ms[i].role == User && |current| > 0 {
        turns := turns + [current];
        current := [];
      }
      assert [] + [ms[i]] == [ms[i]];
      current := current + [ms[i]];
    }
    assert ms[..|ms|] == ms;
    if |current| > 0 { turns := turns + [current]; }
  }

  // ----- tokens ------------------------------------------------------------------------------------------------

  function Tokens(ms: seq<Message>, cost: Message -> nat): nat {
    if ms == [] then 0 else Tokens(ms[..|ms| - 1], cost) + cost(ms[|ms| - 1])
  }

  // ----- what is trimmed ------------------------------------------------------------------------------------------

  // A conversation in the parts that trimming treats differently.
  datatype Parts = Parts(system: seq<Message>, turns: seq<seq<Message>>, current: seq<Message>)

  function Split(ms: seq<Message>): Parts {
    var s, u := FirstIndexOf(ms, System), LastIndexOf(ms, User);
    var start := s + 1;
    var end := if u >= 0 then u else |ms|;
    Parts(if s >= 0 then [ms[s]] else [],
          Turns(if start <= end then ms[start..end] else []),
          if u >= 0 then ms[u..] else [])
  }

  function Assemble(p: Parts, keepFrom: nat, currentFrom: nat): seq<Message>
    requires keepFrom <= |p.turns| && currentFrom <= |p.current|
  {
    p.system + Flatten(p.turns[keepFrom..]) + p.current[currentFrom..]
  }

  function TokensAt(p: Parts, keepFrom: nat, currentFrom: nat, cost: Message -> nat): nat
    requires keepFrom <= |p.turns| && currentFrom <= |p.current|
  {
    Tokens(Assemble(p, keepFrom, currentFrom), cost)
  }

  // The fewest leading turns, from `k` on, without which the rest fits; all of them when none suffices.
  function LeastTurns(p: Parts, k: nat, budget: int, cost: Message -> nat): (r: nat)
    requires k <= |p.turns|
    ensures k <= r <= |p.turns|
    ensures r == |p.turns| || TokensAt(p, r, 0, cost) <= budget
    ensures forall j :: k <= j < r ==> TokensAt(p, j, 0, cost) > budget
    decreases |p.turns| - k
  {
    if k == |p.turns| || TokensAt(p, k, 0, cost) <= budget then k else LeastTurns(p, k + 1, budget, cost)
  }

  // The fewest leading messages of the current turn, from `c` on, without which the rest fits.
  function LeastCurrent(p: Parts, c: nat, budget: int, cost: Message -> nat): (r: nat)
    requires c <= |p.current|
    ensures c <= r <= |p.current|
    ensures r == |p.current| || TokensAt(p, |p.turns|, r, cost) <= budget
    ensures forall j :: c <= j < r ==> TokensAt(p, |p.turns|, j, cost) > budget
    decreases |p.current| - c
  {
    if c == |p.current| || TokensAt(p, |p.turns|, c, cost) <= budget then c else LeastCurrent(p, c + 1, budget, cost)
  }

  // The answer of `trimMessages`.
  function Trim(ms: seq<Message>, budget: int, cost: Message -> nat, emergency: bool): seq<Message> {
    if Tokens(ms, cost) <= budget then ms
    else
      var p := Split(ms);
      var k := LeastTurns(p, 0, budget, cost);
      Assemble(p, k, if emergency && TokensAt(p, k, 0, cost) > budget then LeastCurrent(p, 0, budget, cost) else 0)
  }

  // The first part of `trimMessages`: what may be trimmed and what may not.
  method SplitMessages(ms: seq<Message>) returns (p: Parts)
    ensures p == Split(ms)
  {
    hide Flatten, Turns;
    var systemIndex := FirstIndexOf(ms, System);
    var system := if systemIndex >= 0 then [ms[systemIndex]] else [];
    var lastUserIndex := -1;
    for index := 0 to |ms|
      invariant -1 <= lastUserIndex < index
      invariant lastUserIndex >= 0 ==> ms[lastUserIndex].role == User
      invariant forall k :: lastUserIndex < k < index ==> ms[k].role != User
    {
      if ms[index].role == User { lastUserIndex := index; }
    }
    assert lastUserIndex == LastIndexOf(ms, User);
    var historyStart := systemIndex + 1;
    var historyEnd := if lastUserIndex >= 0 then lastUserIndex else |ms|;
    var historicalTurns := GroupConversationTurns(if historyStart <= historyEnd then ms[historyStart..historyEnd] else []);
    var currentTurn := if lastUserIndex >= 0 then ms[lastUserIndex..] else [];
    p := Parts(system, historicalTurns, currentTurn);
  }

  method TrimMessages(ms: seq<Message>, maxTokens: int, cost: Message -> nat, trimCurrentTurn: bool)
    returns (r: seq<Message>)
    ensures r == Trim(ms, maxTokens, cost, trimCurrentTurn)
  {
    hide Tokens, Split, Assemble, TokensAt;
    if Tokens(ms, cost) <= maxTokens { return ms; }
    var p := SplitMessages(ms);
    var keepFrom := 0;
    while TokensAt(p, keepFrom, 0, cost) > maxTokens && keepFrom < |p.turns|
      invariant keepFrom <= |p.turns|
      invariant LeastTurns(p, keepFrom, maxTokens, cost) == LeastTurns(p, 0, maxTokens, cost)
      decreases |p.turns| - keepFrom
    {
      keepFrom := keepFrom + 1;
    }
    assert keepFrom == LeastTurns(p, 0, maxTokens, cost);
    var currentTurnFrom := 0;
    if trimCurrentTurn && TokensAt(p, keepFrom, 0, cost) > maxTokens && |p.current| > 0 {
      currentTurnFrom := DropFromCurrent(p, maxTokens, cost);
    }
    r := Assemble(p, keepFrom, currentTurnFrom);
  }

  // The emergency pass: it tries to keep the last two messages of the current turn, then one, then none.
  method DropFromCurrent(p: Parts, maxTokens: int, cost: Message -> nat) returns (currentTurnFrom: nat)
    requires TokensAt(p, |p.turns|, 0, cost) > maxTokens && p.current != []
    ensures currentTurnFrom == LeastCurrent(p, 0, maxTokens, cost)
  {
    hide Flatten, Tokens, TokensAt;
    currentTurnFrom := 0;
    var keepLast := 2;
    while keepLast >= 0
      invariant -1 <= keepLast <= 2
      invariant currentTurnFrom <= |p.current|
      invariant keepLast == -1 ==> currentTurnFrom == LeastCurrent(p, 0, maxTokens, cost)
    {
      currentTurnFrom := 0;
      var maxFrom := |p.current| - keepLast;
      while TokensAt(p, |p.turns|, currentTurnFrom, cost) > maxTokens && currentTurnFrom < maxFrom
        invariant currentTurnFrom <= |p.current| && (currentTurnFrom == 0 || currentTurnFrom <= maxFrom)
        invariant LeastCurrent(p, currentTurnFrom, maxTokens, cost) == LeastCurrent(p, 0, maxTokens, cost)
        decreases |p.current| - currentTurnFrom
      {
        currentTurnFrom := currentTurnFrom + 1;
      }
      if TokensAt(p, |p.turns|, currentTurnFrom, cost) <= maxTokens { return; }
      keepLast := keepLast - 1;
    }
  }

  // ----- what trimming guarantees ------------------------------------------------------------------------------

  lemma {:induction false} FlattenSuffix(turns: seq<seq<Message>>, k: nat) returns (p: nat)
    requires k <= |turns| && AllTurns(turns) && StartWithUser(turns)
    ensures p <= |Flatten(turns)| && Flatten(turns[k..]) == Flatten(turns)[p..]
    ensures (p == 0 <==> k == 0 || turns == []) && (k < |turns| && 0 < k ==> p < |Flatten(turns)| && Flatten(turns)[p].role == User)
    ensures k == |turns| ==> p == |Flatten(turns)|
  {
    if k == 0 {
      p := 0;
      assert turns[0..] == turns;
    } else {
      assert turns == [turns[0]] + turns[1..];
      assert IsTurn(turns[0]);
      var rest := Flatten(turns[1..]);
      assert turns[1..][k - 1..] == turns[k..];
      assert AllTurns(turns[1..]) && StartWithUser(turns[1..]);
      var q := FlattenSuffix(turns[1..], k - 1);
      p := |turns[0]| + q;
      assert Flatten(turns)[p..] == rest[q..];
      if k < |turns| && q == 0 {
        assert k == 1;
        assert turns[1..][0] != [] && rest[0] == turns[1][0];
      }
    }
  }

  // Every place where a turn starts is reached by leaving out some whole turns.
  lemma {:induction false} StartHasTurn(turns: seq<seq<Message>>, q: nat) returns (k: nat)
    requires AllTurns(turns) && StartWithUser(turns)
    requires q <= |Flatten(turns)| && (q == 0 || q == |Flatten(turns)| || Flatten(turns)[q].role == User)
    ensures k <= |turns| && Flatten(turns[k..]) == Flatten(turns)[q..]
  {
    if q == 0 {
      k := 0;
      assert turns[0..] == turns;
    } else {
      assert turns == [turns[0]] + turns[1..];
      assert IsTurn(turns[0]);
      var n, rest := |turns[0]|, Flatten(turns[1..]);
      assert forall i :: 0 < i < n ==> Flatten(turns)[i] == turns[0][i];
      assert q >= n;
      assert Flatten(turns)[q..] == rest[q - n..];
      assert q < |Flatten(turns)| ==> Flatten(turns)[q] == rest[q - n];
      assert AllTurns(turns[1..]) && StartWithUser(turns[1..]);
      var j := StartHasTurn(turns[1..], q - n);
      k := j + 1;
      assert turns[1..][j..] == turns[k..];
    }
  }

  // The system message, if any, is the first one.
  predicate Anchored(ms: seq<Message>) { FirstIndexOf(ms, System) <= 0 }

  function HeadLength(ms: seq<Message>): (h: nat)
    ensures h <= |ms|
  {
    if FirstIndexOf(ms, System) == 0 then 1 else 0
  }

  // Where the current turn starts: at the last user message.
  function CurrentStart(ms: seq<Message>): (e: nat)
    ensures e <= |ms|
  {
    if LastIndexOf(ms, User) >= 0 then LastIndexOf(ms, User) else |ms|
  }

  predicate TurnStart(ms: seq<Message>, q: nat) {
    var h, e := HeadLength(ms), CurrentStart(ms);
    q == h || q == e || (h < q < e && ms[q].role == User)
  }

  // The head, and everything from `q` on.
  function From(ms: seq<Message>, q: nat): seq<Message>
    requires q <= |ms|
  {
    ms[..HeadLength(ms)] + ms[q..]
  }

  lemma AnchoredParts(ms: seq<Message>)
    requires Anchored(ms)
    ensures var h, e, p := HeadLength(ms), CurrentStart(ms), Split(ms);
      && h <= e
      && p.system == ms[..h] && Flatten(p.turns) == ms[h..e] && p.current == ms[e..]
      && AllTurns(p.turns) && StartWithUser(p.turns)
  {
    hide Turns, Flatten;
    var h, e := HeadLength(ms), CurrentStart(ms);
    TurnsSplitTheWhole(ms[h..e]);
  }

  lemma JoinParts(ms: seq<Message>, h: nat, e: nat, q: nat)
    requires h <= q <= e <= |ms|
    ensures ms[..h] + ms[h..e][q - h..] + ms[e..] == ms[..h] + ms[q..]
  {
    assert ms[h..e][q - h..] + ms[e..] == ms[q..];
  }

  lemma AssembledFrom(ms: seq<Message>, k: nat) returns (q: nat)
    requires Anchored(ms) && k <= |Split(ms).turns|
    ensures HeadLength(ms) <= q <= CurrentStart(ms) && TurnStart(ms, q) && Assemble(Split(ms), k, 0) == From(ms, q)
    ensures k == |Split(ms).turns| ==> q == CurrentStart(ms)
  {
    hide Flatten, Split;
    AnchoredParts(ms);
    var h, e, p := HeadLength(ms), CurrentStart(ms), Split(ms);
    var r := FlattenSuffix(p.turns, k);
    q := h + r;
    JoinParts(ms, h, e, q);
    assert p.current[0..] == p.current;
  }

  lemma StartAssembled(ms: seq<Message>, q: nat) returns (k: nat)
    requires Anchored(ms) && HeadLength(ms) <= q <= CurrentStart(ms) && TurnStart(ms, q)
    ensures k <= |Split(ms).turns| && Assemble(Split(ms), k, 0) == From(ms, q)
  {
    hide Flatten, Split;
    AnchoredParts(ms);
    var h, e, p := HeadLength(ms), CurrentStart(ms), Split(ms);
    assert h < q < e ==> ms[h..e][q - h] == ms[q];
    k := StartHasTurn(p.turns, q - h);
    JoinParts(ms, h, e, q);
    hide HeadLength, CurrentStart, TurnStart, AllTurns, StartWithUser, Anchored;
    assert p.current[0..] == p.current;
  }

  lemma CurrentAssembled(ms: seq<Message>, c: nat)
    requires Anchored(ms) && CurrentStart(ms) + c <= |ms|
    ensures c <= |Split(ms).current|
    ensures Assemble(Split(ms), |Split(ms).turns|, c) == From(ms, CurrentStart(ms) + c)
  {
    hide Split;
    AnchoredParts(ms);
    var p := Split(ms);
    assert p.turns[|p.turns|..] == [];
    assert p.current[c..] == ms[CurrentStart(ms) + c..];
    assert p.system + [] == p.system;
  }

  ghost predicate TooMuchBefore(ms: seq<Message>, p: nat, budget: int, cost: Message -> nat, emergency: bool) {
    forall q :: HeadLength(ms) <= q < p <= |ms| && (TurnStart(ms, q) || (emergency && CurrentStart(ms) <= q))
      ==> Tokens(From(ms, q), cost) > budget
  }

  // Dropping turns: the result starts at a turn, every earlier turn start is over budget, and the
  // result fits unless all of the history is gone.
  lemma TurnsDroppedAreLeast(ms: seq<Message>, budget: int, cost: Message -> nat) returns (q: nat)
    requires Anchored(ms)
    ensures var p := Split(ms);
      var k := LeastTurns(p, 0, budget, cost);
      && HeadLength(ms) <= q <= CurrentStart(ms) && TurnStart(ms, q) && Assemble(p, k, 0) == From(ms, q)
      && TooMuchBefore(ms, q, budget, cost, false)
      && (Tokens(From(ms, q), cost) <= budget || (q == CurrentStart(ms) && k == |p.turns|))
  {
    hide Split, Assemble, Tokens, TurnStart, From;
    var p := Split(ms);
    var k := LeastTurns(p, 0, budget, cost);
    q := AssembledFrom(ms, k);
    forall r | HeadLength(ms) <= r < q && TurnStart(ms, r) ensures Tokens(From(ms, r), cost) > budget {
      var j := StartAssembled(ms, r);
      if Tokens(From(ms, r), cost) <= budget {
        assert TokensAt(p, j, 0, cost) <= budget;
        assert j >= k;
        FewerTurnsShorter(p, k, j);
        FromLength(ms, q);
        FromLength(ms, r);
      }
    }
  }

  lemma FromLength(ms: seq<Message>, q: nat)
    requires q <= |ms|
    ensures |From(ms, q)| == HeadLength(ms) + |ms| - q
  {
  }

  lemma {:induction false} FewerTurnsShorter(p: Parts, k: nat, j: nat)
    requires k <= j <= |p.turns|
    ensures |Assemble(p, j, 0)| <= |Assemble(p, k, 0)|
    decreases j - k
  {
    if k < j {
      assert p.turns[k..] == [p.turns[k]] + p.turns[k + 1..];
      FewerTurnsShorter(p, k + 1, j);
    }
  }

  // Trimming removes the fewest whole leading turns that meet the budget, or all history if none
  // suffices; in an emergency it then removes the fewest messages of the current turn, and ends within
  // the budget or with the head alone.
  lemma TrimIsLeast(ms: seq<Message>, budget: int, cost: Message -> nat, emergency: bool) returns (p: nat)
    requires Anchored(ms) && Tokens(ms, cost) > budget
    ensures HeadLength(ms) <= p <= |ms| && Trim(ms, budget, cost, emergency) == From(ms, p)
    ensures (p <= CurrentStart(ms) ==> TurnStart(ms, p)) && (!emergency ==> p <= CurrentStart(ms))
    ensures TooMuchBefore(ms, p, budget, cost, emergency)
    ensures Tokens(From(ms, p), cost) <= budget || p == if emergency then |ms| else CurrentStart(ms)
  {
    hide Split, Assemble, Tokens, TurnStart, From, HeadLength, CurrentStart;
    var parts := Split(ms);
    var k := LeastTurns(parts, 0, budget, cost);
    p := TurnsDroppedAreLeast(ms, budget, cost);
    if emergency && TokensAt(parts, k, 0, cost) > budget {
      var c := LeastCurrent(parts, 0, budget, cost);
      CurrentSize(ms);
      CurrentAssembled(ms, c);
      p := CurrentStart(ms) + c;
      forall q | HeadLength(ms) <= q < p && (TurnStart(ms, q) || CurrentStart(ms) <= q) ensures Tokens(From(ms, q), cost) > budget {
        if CurrentStart(ms) <= q {
          CurrentAssembled(ms, q - CurrentStart(ms));
          assert TokensAt(parts, |parts.turns|, q - CurrentStart(ms), cost) > budget;
        }
      }
      CurrentIsStart(ms);
    }
  }

  lemma CurrentSize(ms: seq<Message>)
    requires Anchored(ms)
    ensures CurrentStart(ms) + |Split(ms).current| == |ms| && HeadLength(ms) <= CurrentStart(ms)
  {
    AnchoredParts(ms);
  }

  lemma CurrentIsStart(ms: seq<Message>)
    ensures TurnStart(ms, CurrentStart(ms))
  {
  }

  // ----- tool results keep their calls ------------------------------------------------------------------------------

  // An assistant message of the same turn, before the result, made the call.
  ghost predicate Answers(ms: seq<Message>, i: int, j: int) {
    && 0 <= j < i < |ms| && ms[j].role == Assistant && ms[i].toolCallId in ms[j].calls
    && forall k :: j < k <= i ==> ms[k].role != User
  }

  ghost predicate Paired(ms: seq<Message>) {
    forall i :: 0 <= i < |ms| && ms[i].role == Tool ==> exists j :: Answers(ms, i, j)
  }

  lemma CallIsKept(ms: seq<Message>, p: nat, a: int, b: int)
    requires Anchored(ms) && p <= a && Answers(ms, a, b)
    requires HeadLength(ms) <= p <= CurrentStart(ms) && TurnStart(ms, p)
    ensures p <= b
  {
    if p == HeadLength(ms) {
      assert p == 1 ==> ms[0].role == System;
    } else {
      assert ms[p].role == User;
    }
  }

  lemma AnswerMoves(ms: seq<Message>, p: nat, a: int, b: int)
    requires p <= b && Answers(ms, a, b)
    ensures Answers(From(ms, p), a - p + HeadLength(ms), b - p + HeadLength(ms))
  {
    var h, r := HeadLength(ms), From(ms, p);
    hide HeadLength;
    assert forall k :: h <= k < |r| ==> r[k] == ms[k - h + p];
  }

  lemma FromKeepsPairs(ms: seq<Message>, p: nat)
    requires Anchored(ms) && Paired(ms) && HeadLength(ms) <= p <= CurrentStart(ms) && TurnStart(ms, p)
    ensures Paired(From(ms, p))
  {
    var h, r := HeadLength(ms), From(ms, p);
    assert h == 1 ==> ms[0].role == System;
    hide HeadLength, CurrentStart, TurnStart;
    forall i | 0 <= i < |r| && r[i].role == Tool ensures exists j :: Answers(r, i, j) {
      assert i >= h;
      var a := i - h + p;
      assert ms[a] == r[i];
      var b :| Answers(ms, a, b);
      CallIsKept(ms, p, a, b);
      AnswerMoves(ms, p, a, b);
      assert Answers(r, i, b - p + h);
    }
  }

  // Without the emergency pass every kept tool result keeps the call it answers.
  lemma TrimKeepsPairs(ms: seq<Message>, budget: int, cost: Message -> nat)
    requires Anchored(ms) && Paired(ms)
    ensures Paired(Trim(ms, budget, cost, false))
  {
    if Tokens(ms, cost) > budget {
      var p := TrimIsLeast(ms, budget, cost, false);
      FromKeepsPairs(ms, p);
    }
  }

  // The tool result at `i` is kept by a cut at `p`, and no call that it answers is.
  ghost predicate LosesCall(ms: seq<Message>, p: nat, i: int) {
    p <= i < |ms| && ms[i].role == Tool && forall j :: Answers(ms, i, j) ==> j < p
  }

  lemma AnswerCameFrom(ms: seq<Message>, p: nat, i: int, j: int)
    requires Anchored(ms) && HeadLength(ms) <= p <= |ms| && Answers(From(ms, p), i, j)
    ensures HeadLength(ms) <= j && Answers(ms, i - HeadLength(ms) + p, j - HeadLength(ms) + p)
  {
    var h, r := HeadLength(ms), From(ms, p);
    assert h == 1 ==> r[0] == ms[0] && ms[0].role == System;
    hide HeadLength;
    assert forall k :: h <= k < |r| ==> r[k] == ms[k - h + p];
    forall k | j - h + p < k <= i - h + p ensures ms[k].role != User { assert r[k - p + h] == ms[k]; }
  }

  // A cut at any place keeps the pairs together exactly when no kept result loses its calls.
  lemma CutKeepsPairsIff(ms: seq<Message>, p: nat)
    requires Anchored(ms) && HeadLength(ms) <= p <= |ms|
    ensures Paired(From(ms, p)) <==> forall i :: !LosesCall(ms, p, i)
  {
    var h, r := HeadLength(ms), From(ms, p);
    assert h == 1 ==> r[0] == ms[0] && ms[0].role == System;
    hide HeadLength, Answers;
    assert forall k :: h <= k < |r| ==> r[k] == ms[k - h + p];
    if Paired(r) {
      forall i ensures !LosesCall(ms, p, i) {
        if p <= i < |ms| && ms[i].role == Tool {
          assert r[i - p + h] == ms[i];
          var j :| Answers(r, i - p + h, j);
          AnswerCameFrom(ms, p, i - p + h, j);
          assert Answers(ms, i, j - h + p);
        }
      }
    }
    if forall i :: !LosesCall(ms, p, i) {
      forall a | 0 <= a < |r| && r[a].role == Tool ensures exists j :: Answers(r, a, j) {
        var i := a - h + p;
        assert !LosesCall(ms, p, i) && ms[i] == r[a];
        var j :| Answers(ms, i, j) && j >= p;
        AnswerMoves(ms, p, i, j);
        assert Answers(r, a, j - p + h);
      }
    }
  }

  // In either mode trimming keeps every kept tool result with its call exactly when no result at or after
  // its least cut has all its calls before the cut.
  lemma TrimKeepsPairsIff(ms: seq<Message>, budget: int, cost: Message -> nat, emergency: bool) returns (p: nat)
    requires Anchored(ms) && Tokens(ms, cost) > budget
    ensures HeadLength(ms) <= p <= |ms| && Trim(ms, budget, cost, emergency) == From(ms, p)
    ensures TooMuchBefore(ms, p, budget, cost, emergency)
    ensures Tokens(From(ms, p), cost) <= budget || p == if emergency then |ms| else CurrentStart(ms)
    ensures Paired(Trim(ms, budget, cost, emergency)) <==> forall i :: !LosesCall(ms, p, i)
  {
    hide Trim, From, HeadLength, Paired, LosesCall, Tokens, CurrentStart;
    p := TrimIsLeast(ms, budget, cost, emergency);
    CutKeepsPairsIff(ms, p);
  }

  // So the emergency pass keeps all pairs whenever dropping history is enough: it then cuts where the
  // ordinary trimming does.
  lemma EmergencyKeepsPairs(ms: seq<Message>, budget: int, cost: Message -> nat)
    requires Anchored(ms) && Paired(ms) && Tokens(From(ms, CurrentStart(ms)), cost) <= budget
    ensures Trim(ms, budget, cost, true) == Trim(ms, budget, cost, false)
    ensures Paired(Trim(ms, budget, cost, true))
  {
    TrimKeepsPairs(ms, budget, cost);
    if Tokens(ms, cost) > budget {
      hide Tokens, From, Split, Assemble, HeadLength, CurrentStart, TurnStart;
      var q := TurnsDroppedAreLeast(ms, budget, cost);
    }
  }

  // Otherwise it may separate a pair: with room for two messages, a result stays without its call.
  lemma EmergencySplitsPair(s: Message, u: Message, a: Message, t: Message)
    requires s.role == System && u.role == User && a.role == Assistant && t.role == Tool && t.toolCallId in a.calls
    ensures Paired([s, u, a, t])
    ensures Trim([s, u, a, t], 2, m => 1, true) == [s, t] && !Paired([s, t])
  {
    var ms, one := [s, u, a, t], (m: Message) => 1;
    assert Answers(ms, 3, 2);
    PlacesOf(s, u, a, t);
    OneEach(ms, one);
    var p := TrimIsLeast(ms, 2, one, true);
    forall q: nat | 1 <= q <= 4 ensures Tokens(From(ms, q), one) == 5 - q { OneEach(From(ms, q), one); }
    assert TooMuchBefore(ms, p, 2, one, true);
    assert Tokens(From(ms, 3), one) == 2;
    assert p == 3 && From(ms, 3) == [s, t];
    assert [s, t][1].role == Tool && !exists j :: Answers([s, t], 1, j);
  }

  lemma PlacesOf(s: Message, u: Message, a: Message, t: Message)
    requires s.role == System && u.role == User && a.role == Assistant && t.role == Tool
    ensures var ms := [s, u, a, t]; Anchored(ms) && HeadLength(ms) == 1 && CurrentStart(ms) == 1
  {
    var ms := [s, u, a, t];
    assert FirstIndexOf(ms, System) == 0;
    assert ms[1].role == User && LastIndexOf(ms, User) >= 1;
  }

  lemma {:induction false} OneEach(ms: seq<Message>, one: Message -> nat)
    requires forall m :: one(m) == 1
    ensures Tokens(ms, one) == |ms|
  {
    if ms != [] { OneEach(ms[..|ms| - 1], one); }
  }
}
