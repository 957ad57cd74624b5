// The guard that keeps a side effect from happening twice, and the crash and resume protocol around it
// (src/runtime/side-effect.ts:52-129, src/runtime/agent-context.ts:191, 222-238,
// src/runtime/tool-invocation/process-manager.ts:438-473, 529-542, 692, 839, 925).
module SideEffects {
  import opened Optional

  datatype OperationState = Executing | Succeeded | Uncertain

  datatype Entry = Entry(state: OperationState, result: Option<string>)

  // One operation of a checkpoint; the oldest format has no state and stands for a success.
  datatype SavedOperation = SavedOperation(key: string, state: Option<OperationState>, result: Option<string>)

  datatype Effect = ReadOnly | Idempotent | NonIdempotent

  datatype Disposition = Replay(result: Option<string>) | InDoubt | Start

  // ----- the guard ---------------------------------------------------------------------------------------------

  function SeedEntry(op: SavedOperation): Entry {
    Entry(if op.state.Some? then op.state.value else Succeeded, op.result)
  }

  function FromSeed(seed: seq<SavedOperation>): map<string, Entry> {
    if seed == [] then map[]
    else FromSeed(seed[..|seed| - 1])[seed[|seed| - 1].key := SeedEntry(seed[|seed| - 1])]
  }

  function Resolve(done: map<string, Entry>, key: string, effect: Effect): Disposition {
    if effect != NonIdempotent || key !in done then Start
    else if done[key].state == Succeeded then Replay(done[key].result)
    else InDoubt
  }

  // The operations written so far are those of `keys`.
  ghost predicate Written(ops: seq<SavedOperation>, done: map<string, Entry>, keys: set<string>) {
    FromSeed(ops).Keys == keys && forall k :: k in keys ==> k in done && FromSeed(ops)[k] == done[k]
  }

  lemma WriteOne(ops: seq<SavedOperation>, done: map<string, Entry>, left: set<string>, key: string)
    requires key in left && left <= done.Keys && Written(ops, done, done.Keys - left)
    ensures Written(ops + [SavedOperation(key, Some(done[key].state), done[key].result)], done, done.Keys - (left - {key}))
  {
    var more := ops + [SavedOperation(key, Some(done[key].state), done[key].result)];
    assert more[..|more| - 1] == ops;
    assert FromSeed(more) == FromSeed(ops)[key := done[key]];
    hide FromSeed;
    assert done.Keys - (left - {key}) == done.Keys - left + {key};
  }

  class SideEffectGuard {
    var done: map<string, Entry>

    constructor (seed: seq<SavedOperation>)
      ensures done == FromSeed(seed)
    {
      done := map[];
      new;
      for i := 0 to |seed|
        invariant done == FromSeed(seed[..i])
      {
        assert seed[..i + 1][..i] == seed[..i];
        done := done[seed[i].key := Entry(if seed[i].state.Some? then seed[i].state.value else Succeeded, seed[i].result)];
      }
      assert seed[..|seed|] == seed;
    }

    function ReplayOf(key: string): Option<string>
      reads this
    {
      if key in done && done[key].state == Succeeded then done[key].result else None
    }

    method Begin(key: string)
      modifies this
      ensures done == old(done)[key := Entry(Executing, None)]
    {
      done := done[key := Entry(Executing, None)];
    }

    method Succeed(key: string, result: string)
      modifies this
      ensures done == old(done)[key := Entry(Succeeded, Some(result))]
    {
      done := done[key := Entry(Succeeded, Some(result))];
    }

    method MarkUncertain(key: string)
      modifies this
      ensures done == old(done)[key := Entry(Uncertain, None)]
    {
      done := done[key := Entry(Uncertain, None)];
    }

    method ResolveOperation(key: string, effect: Effect) returns (d: Disposition)
      ensures d == Resolve(done, key, effect)
    {
      if effect != NonIdempotent { return Start; }
      if key in done {
        if done[key].state == Succeeded { return Replay(ReplayOf(key)); }
        return InDoubt;
      }
      return Start;
    }

    // The operations in some order; a guard made from them is in the same state.
    method Snapshot() returns (ops: seq<SavedOperation>)
      ensures FromSeed(ops) == done
    {
      ops := [];
      var left := done.Keys;
      while left != {}
        invariant left <= done.Keys
        invariant Written(ops, done, done.Keys - left)
        decreases left
      {
        var key :| key in left;
        WriteOne(ops, done, left, key);
        left := left - {key};
        ops := ops + [SavedOperation(key, Some(done[key].state), done[key].result)];
      }
    }
  }

  // ----- the protocol -------------------------------------------------------------------------------------------

  // One run over all its processes. `saved` is the guard in the last checkpoint written; `running` are
  // the executions this process waits for. The other fields only log: every execution ever started,
  // every result that came back, and every answer given from a record.
  datatype World = World(
    up: bool, done: map<string, Entry>, saved: map<string, Entry>, running: set<string>,
    started: seq<string>, results: seq<(string, string)>, replays: seq<(string, Option<string>)>)

  // Synchronous code is one step, so a call is resolved, noted as executing and saved at once;
  // `saves` says whether writing the checkpoint succeeds.
  datatype Event =
    | Call(key: string, effect: Effect, saves: bool)
    | Return(key: string, result: string)
    | Throw(key: string)
    | Save
    | Crash
    | Resume

  const FRESH := World(true, map[], map[], {}, [], [], [])

  function TakeCall(w: World, key: string, saves: bool): World {
    match Resolve(w.done, key, NonIdempotent)
    case Replay(r) => w.(replays := w.replays + [(key, r)])
    case InDoubt => w
    case Start =>
      var done := w.done[key := Entry(Executing, None)];
      if saves then w.(done := done, saved := done, running := w.running + {key}, started := w.started + [key])
      else w.(done := done)
  }

  function Take(w: World, e: Event): World {
    if e == Resume then (if w.up then w else w.(up := true, done := w.saved))
    else if !w.up then w
    else
      match e
      case Call(key, effect, saves) => if effect == NonIdempotent then TakeCall(w, key, saves) else w
      case Return(key, result) =>
        if key !in w.running then w
        else
          w.(done := w.done[key := Entry(Succeeded, Some(result))], running := w.running - {key},
             results := w.results + [(key, result)])
      case Throw(key) =>
        if key !in w.running then w
        else w.(done := w.done[key := Entry(Uncertain, None)], running := w.running - {key})
      case Save => w.(saved := w.done)
      case Crash => w.(up := false, done := map[], running := {})
      case Resume => w
  }

  function TakeAll(w: World, events: seq<Event>): World
    decreases events
  {
    if events == [] then w else TakeAll(Take(w, events[0]), events[1..])
  }

  ghost predicate Distinct(s: seq<string>) { forall i, j :: 0 <= i < j < |s| ==> s[i] != s[j] }

  ghost predicate DistinctKeys(s: seq<(string, string)>) { forall i, j :: 0 <= i < j < |s| ==> s[i].0 != s[j].0 }

  ghost predicate HasResult(w: World, key: string) { exists i :: 0 <= i < |w.results| && w.results[i].0 == key }

  // Every started operation is on record, and a recorded success has the result that came back.
  ghost predicate OnRecord(w: World, m: map<string, Entry>) {
    && (forall k :: k in w.started ==> k in m)
    && (forall k :: k in m && m[k].state == Succeeded ==> m[k].result.Some? && (k, m[k].result.value) in w.results)
  }

  ghost predicate Consistent(w: World) {
    && Distinct(w.started) && DistinctKeys(w.results)
    && (forall i :: 0 <= i < |w.results| ==> w.results[i].0 in w.started)
    && OnRecord(w, w.saved) && (w.up ==> OnRecord(w, w.done))
    && (forall k :: k in w.running ==> w.up && k in w.started && !HasResult(w, k))
    && (forall i :: 0 <= i < |w.replays| ==> w.replays[i].1.Some? && (w.replays[i].0, w.replays[i].1.value) in w.results)
  }

  lemma FreshIsConsistent()
    ensures Consistent(FRESH)
  {
  }

  lemma StartStep(w: World, key: string)
    requires Consistent(w) && w.up && key !in w.done
    ensures Consistent(TakeCall(w, key, true))
  {
    var t := TakeCall(w, key, true);
    assert key !in w.started;
    forall k | k in t.started ensures k in t.done { assert k in w.started || k == key; }
    forall k | k in t.running ensures k in t.started && !HasResult(t, k) {
      if k == key {
        assert key == t.started[|w.started|];
        assert forall i :: 0 <= i < |w.results| ==> w.results[i].0 in w.started;
      } else {
        assert k in w.started && t.results == w.results;
        assert !HasResult(w, k);
      }
    }
    assert forall k :: k in w.started ==> k in t.started;
  }

  lemma ReturnStep(w: World, key: string, result: string)
    requires Consistent(w) && w.up && key in w.running
    ensures Consistent(Take(w, Return(key, result)))
  {
    var t := Take(w, Return(key, result));
    assert !HasResult(w, key);
    assert t.results[|w.results|] == (key, result);
    assert forall x :: x in w.results ==> x in t.results;
    forall k | k in t.running ensures !HasResult(t, k) {
      assert !HasResult(w, k);
    }
  }

  lemma TakeKeepsConsistent(w: World, e: Event)
    requires Consistent(w)
    ensures Consistent(Take(w, e))
  {
    if w.up && e != Resume {
      match e
      case Call(key, effect, saves) =>
        if effect == NonIdempotent && Resolve(w.done, key, NonIdempotent) == Start && saves { StartStep(w, key); }
      case Return(key, result) => if key in w.running { ReturnStep(w, key, result); }
      case Throw(key) =>
        var t := Take(w, e);
        assert forall k :: k in t.running ==> k in w.running && (HasResult(t, k) <==> HasResult(w, k));
      case Save =>
      case Crash =>
      case Resume =>
    }
  }

  lemma {:induction false} RunIsConsistent(w: World, events: seq<Event>)
    requires Consistent(w)
    ensures Consistent(TakeAll(w, events))
    decreases events
  {
    if events != [] {
      TakeKeepsConsistent(w, events[0]);
      RunIsConsistent(Take(w, events[0]), events[1..]);
    }
  }

  // In every run, with any interleaving of calls, results, failures, failed or successful saves,
  // crashes and resumes: no operation is ever started twice, and every replayed answer is the one
  // result that came back for that operation.
  lemma AtMostOnce(events: seq<Event>)
    ensures var w := TakeAll(FRESH, events);
      && Distinct(w.started)
      && (forall i :: 0 <= i < |w.replays| ==> w.replays[i].1.Some? && OnlyResult(w, w.replays[i].0, w.replays[i].1.value))
  {
    FreshIsConsistent();
    RunIsConsistent(FRESH, events);
    var w := TakeAll(FRESH, events);
    forall i | 0 <= i < |w.replays| ensures OnlyResult(w, w.replays[i].0, w.replays[i].1.value) {
      var key, r := w.replays[i].0, w.replays[i].1.value;
      assert (key, r) in w.results;
    }
  }

  // `r` is the result that came back for `key`, and the only one.
  ghost predicate OnlyResult(w: World, key: string, r: string) {
    (key, r) in w.results && forall x :: x in w.results && x.0 == key ==> x.1 == r
  }

  // An operation that was started is never in state "start" again: a later call of it is answered from
  // the record or told that the outcome is in doubt, before and after any restart.
  lemma StartedIsNeverRerun(events: seq<Event>, key: string, saves: bool)
    requires key in TakeAll(FRESH, events).started
    ensures var w := TakeAll(FRESH, events);
      && (w.up ==> Resolve(w.done, key, NonIdempotent) != Start)
      && Take(w, Call(key, NonIdempotent, saves)).started == w.started
      && Resolve(w.saved, key, NonIdempotent) != Start
  {
    FreshIsConsistent();
    RunIsConsistent(FRESH, events);
  }

  // Why the record is saved before the execution: a started operation whose record was not saved would
  // be started again after a crash. Here `World` is changed as if the call skipped the save.
  lemma WithoutSavingItRunsTwice(key: string)
    ensures var w := FRESH.(done := map[key := Entry(Executing, None)], running := {key}, started := [key]);
      TakeAll(w, [Crash, Resume, Call(key, NonIdempotent, true)]).started == [key, key]
  {
    var w := FRESH.(done := map[key := Entry(Executing, None)], running := {key}, started := [key]);
    var events := [Crash, Resume, Call(key, NonIdempotent, true)];
    var w1 := Take(w, events[0]);
    var w2 := Take(w1, events[1]);
    var w3 := Take(w2, events[2]);
    assert events[1..] == [Resume, Call(key, NonIdempotent, true)];
    assert events[1..][1..] == [Call(key, NonIdempotent, true)];
    assert TakeAll(w, events) == TakeAll(w1, events[1..]) == TakeAll(w2, events[1..][1..]) == TakeAll(w3, []);
  }

  // A failed save lets nothing run, and a success that was not saved before a crash is in doubt after it.
  lemma UnsavedOutcomes(w: World, key: string, result: string)
    requires w.up && key !in w.done
    ensures Take(w, Call(key, NonIdempotent, false)).started == w.started
    ensures var t := Take(Take(w, Call(key, NonIdempotent, true)), Return(key, result));
      Resolve(Take(Take(t, Crash), Resume).done, key, NonIdempotent) == InDoubt
  {
  }

  // An entry of the oldest checkpoint format counts as a success with its stored result.
  lemma OldEntriesAreSuccesses(seed: seq<SavedOperation>, key: string, result: string)
    ensures Resolve(FromSeed(seed + [SavedOperation(key, None, Some(result))]), key, NonIdempotent) == Replay(Some(result))
  {
    var op := SavedOperation(key, None, Some(result));
    assert (seed + [op])[..|seed|] == seed;
  }

  // ----- what becomes of an operation -----------------------------------------------------------------------------

  predicate Recorded(m: map<string, Entry>, key: string, r: string) { key in m && m[key] == Entry(Succeeded, Some(r)) }

  predicate Doubtful(m: map<string, Entry>, key: string) { key in m && m[key].state != Succeeded }

  // The result is in memory.
  predicate Remembered(w: World, key: string, r: string) { w.up && key !in w.running && Recorded(w.done, key, r) }

  // The result is in the checkpoint, and in memory while the process lives.
  predicate Durable(w: World, key: string, r: string) {
    key !in w.running && Recorded(w.saved, key, r) && (w.up ==> Recorded(w.done, key, r))
  }

  // Nobody waits for the operation any more, and no success is on record.
  predicate Lost(w: World, key: string) {
    key !in w.running && Doubtful(w.saved, key) && (w.up ==> Doubtful(w.done, key))
  }

  lemma {:induction false} StaysDurable(w: World, events: seq<Event>, key: string, r: string)
    requires Durable(w, key, r)
    ensures Durable(TakeAll(w, events), key, r)
    decreases events
  {
    if events != [] { StaysDurable(Take(w, events[0]), events[1..], key, r); }
  }

  lemma {:induction false} StaysLost(w: World, events: seq<Event>, key: string)
    requires Lost(w, key)
    ensures Lost(TakeAll(w, events), key)
    decreases events
  {
    if events != [] { StaysLost(Take(w, events[0]), events[1..], key); }
  }

  lemma {:induction false} StaysRemembered(w: World, events: seq<Event>, key: string, r: string)
    requires Remembered(w, key, r) && Crash !in events
    ensures Remembered(TakeAll(w, events), key, r)
    decreases events
  {
    if events != [] {
      assert events[0] in events && forall e :: e in events[1..] ==> e in events;
      StaysRemembered(Take(w, events[0]), events[1..], key, r);
    }
  }

  // What a call of the operation is told while the process lives, and what it does then.
  ghost predicate AnsweredWith(w: World, key: string, r: string) {
    w.up ==>
      && Resolve(w.done, key, NonIdempotent) == Replay(Some(r))
      && forall saves :: Take(w, Call(key, NonIdempotent, saves)) == w.(replays := w.replays + [(key, Some(r))])
  }

  ghost predicate AnsweredInDoubt(w: World, key: string) {
    w.up ==>
      && Resolve(w.done, key, NonIdempotent) == InDoubt
      && forall saves :: Take(w, Call(key, NonIdempotent, saves)) == w
  }

  // An unknown operation is started once its record is saved, and while it runs a second call is in doubt.
  lemma UnknownIsStarted(w: World, key: string)
    requires w.up && key !in w.done
    ensures var t := Take(w, Call(key, NonIdempotent, true));
      && t.up && t.started == w.started + [key] && t.running == w.running + {key}
      && t.results == w.results && t.replays == w.replays
      && t.done == w.done[key := Entry(Executing, None)] && t.saved == t.done && AnsweredInDoubt(t, key)
    ensures var t := Take(w, Call(key, NonIdempotent, false));
      && t == w.(done := t.done) && AnsweredInDoubt(t, key)
  {
  }

  // A result that comes back answers every later call until the process dies; once a checkpoint was written after
  // it, it answers every later call, whatever dies or resumes.
  lemma ResultIsReplayed(w: World, key: string, r: string, events: seq<Event>, later: seq<Event>)
    requires w.up && key in w.running && Crash !in events
    ensures var t := TakeAll(Take(w, Return(key, r)), events);
      && Take(w, Return(key, r)).results == w.results + [(key, r)]
      && t.up && AnsweredWith(t, key, r)
      && AnsweredWith(TakeAll(Take(t, Save), later), key, r)
  {
    var back := Take(w, Return(key, r));
    StaysRemembered(back, events, key, r);
    var t := TakeAll(back, events);
    StaysDurable(Take(t, Save), later, key, r);
  }

  // An operation that throws is in doubt ever after, and so is one whose process dies before its result comes back.
  lemma NoResultStaysInDoubt(w: World, key: string, later: seq<Event>)
    requires Consistent(w) && w.up && key in w.running && Doubtful(w.saved, key)
    ensures AnsweredInDoubt(TakeAll(Take(w, Throw(key)), later), key)
    ensures AnsweredInDoubt(TakeAll(Take(w, Crash), later), key)
  {
    StaysLost(Take(w, Throw(key)), later, key);
    StaysLost(Take(w, Crash), later, key);
  }

  // What is running is on record as executing, in memory and in the checkpoint.
  ghost predicate RunningOnRecord(w: World) { forall k :: k in w.running ==> Doubtful(w.saved, k) && Doubtful(w.done, k) }

  lemma {:induction false} RunningIsOnRecord(w: World, events: seq<Event>)
    requires RunningOnRecord(w)
    ensures RunningOnRecord(TakeAll(w, events))
    decreases events
  {
    if events != [] { RunningIsOnRecord(Take(w, events[0]), events[1..]); }
  }

  // A process that dies leaves its last checkpoint and waits for nothing.
  lemma OnlyTheCheckpointSurvives(w: World)
    requires w.up
    ensures var t := Take(Take(w, Crash), Resume);
      t == w.(done := w.saved, running := {}) && !Take(w, Crash).up
  {
  }

  // So in every run an operation without a result stays in doubt; one that threw is saved as uncertain.
  lemma InterruptedStaysInDoubt(events: seq<Event>, key: string, later: seq<Event>)
    requires key in TakeAll(FRESH, events).running
    ensures var w := TakeAll(FRESH, events);
      && AnsweredInDoubt(TakeAll(Take(w, Throw(key)), later), key) && AnsweredInDoubt(TakeAll(Take(w, Crash), later), key)
      && Take(Take(w, Throw(key)), Save).saved == w.done[key := Entry(Uncertain, None)]
  {
    FreshIsConsistent();
    RunIsConsistent(FRESH, events);
    RunningIsOnRecord(FRESH, events);
    NoResultStaysInDoubt(TakeAll(FRESH, events), key, later);
  }
}
