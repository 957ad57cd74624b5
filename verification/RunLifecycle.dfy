// The life of one run in the host: its status in memory and in the store, its event log, and the event
// streams that follow it (src/host/run-lifecycle-service.ts:125-144, 281-505, 597-634,
// src/host/event-stream-service.ts:28-63, src/host/persistence/sqlite-store.ts:699-723).
//
// Every write to the store may fail; a failing write changes nothing, and the final status and its
// event are written in one transaction.
module RunLifecycle {
  import opened Optional

  datatype Status = Running | Stopping | Completed | Failed | Stopped | Interrupted

  datatype Event = RunStarted | RunStopping | RunEnded(status: Status) | RunInterrupted | Other(text: string)

  predicate IsTerminal(s: Status) { s == Completed || s == Failed || s == Stopped }

  predicate IsCancellable(s: Status) { s == Running || s == Stopping }

  // `controller` says that an execution was started, `agent` that it has not ended yet.
  datatype Memory = Memory(
    status: Status, events: seq<Event>, cancelled: bool, aborted: bool, controller: bool, agent: bool)

  // `joinedAt` is the length of the stored log when the sink subscribed.
  datatype Sink = Sink(afterSeq: int, joinedAt: nat, written: seq<(nat, Event)>, closed: bool)

  // The sequence number of a stored event is its position in the log, counted from one.
  datatype Host = Host(
    up: bool, closing: bool, status: Status, log: seq<Event>, memory: Option<Memory>, sinks: seq<Sink>)

  datatype Outcome = Resolved | StopRequested | Threw(isAbort: bool)

  // ----- publishing -----------------------------------------------------------------------------------------

  function Publish(sinks: seq<Sink>, n: nat, e: Event): seq<Sink>
    decreases sinks
  {
    if sinks == [] then []
    else
      (if sinks[0].closed then [] else [sinks[0].(written := sinks[0].written + [(n, e)])]) + Publish(sinks[1..], n, e)
  }

  lemma PublishNext(all: seq<Sink>, i: nat, n: nat, e: Event, kept: seq<Sink>)
    requires i < |all|
    ensures kept + Publish(all[i..], n, e) ==
      (if all[i].closed then kept else kept + [all[i].(written := all[i].written + [(n, e)])]) + Publish(all[i + 1..], n, e)
  {
    assert all[i..][1..] == all[i + 1..];
  }

  // The stored events after `from`, with their sequence numbers.
  function Numbered(log: seq<Event>, from: nat): (r: seq<(nat, Event)>)
    ensures |r| == if from <= |log| then |log| - from else 0
    ensures forall i :: 0 <= i < |r| ==> r[i] == (from + i + 1, log[from + i])
    decreases |log| - from
  {
    if from >= |log| then [] else [(from + 1, log[from])] + Numbered(log, from + 1)
  }

  // What a replay has written after looking at `i` stored events.
  function Replayed(log: seq<Event>, i: nat, from: nat): seq<(nat, Event)>
    requires i <= |log|
  {
    Numbered(log[..i], from)
  }

  lemma NothingReplayed(log: seq<Event>, from: nat)
    ensures Replayed(log, 0, from) == []
  {
  }

  lemma ReplayedStep(log: seq<Event>, i: nat, from: nat)
    requires i < |log|
    ensures Replayed(log, i + 1, from) == Replayed(log, i, from) + if i + 1 <= from then [] else [(i + 1, log[i])]
  {
    if from <= i {
      NumberedGrows(log[..i], log[i], from);
      assert log[..i] + [log[i]] == log[..i + 1];
    }
  }

  lemma AllReplayed(log: seq<Event>, from: nat)
    ensures Replayed(log, |log|, from) == Numbered(log, from)
  {
    assert log[..|log|] == log;
  }

  function Max(a: int, b: int): int { if a < b then b else a }

  function Min(a: int, b: int): int { if a < b then a else b }

  function Subscribe(h: Host, afterSeq: int, live: bool): Host {
    if live then h.(sinks := h.sinks + [Sink(afterSeq, |h.log|, Numbered(h.log, Max(0, afterSeq)), false)]) else h
  }

  // ----- recording and finalizing ------------------------------------------------------------------------------

  function Record(h: Host, e: Event, stores: bool): Host {
    if !stores || h.memory.None? then h
    else
      h.(log := h.log + [e], memory := Some(h.memory.value.(events := h.memory.value.events + [e])),
         sinks := Publish(h.sinks, |h.log| + 1, e))
  }

  function Finalize(h: Host, status: Status, stores: bool): Host {
    if h.memory.None? || IsTerminal(h.memory.value.status) || !stores then h
    else
      var e := RunEnded(status);
      h.(status := status, log := h.log + [e],
         memory := Some(h.memory.value.(status := status, events := h.memory.value.events + [e])),
         sinks := Publish(h.sinks, |h.log| + 1, e))
  }

  function MarkStopping(h: Host, updates: bool, stores: bool): Host
    requires h.memory.Some?
  {
    var m := h.memory.value.(status := Stopping);
    var t := Record(h.(memory := Some(m), status := if updates then Stopping else h.status), RunStopping, stores);
    t.(memory := Some(t.memory.value.(aborted := true)))
  }

  function Stop(h: Host, updates: bool, stores: bool): Host {
    if h.memory.None? then h
    else
      var m := h.memory.value.(cancelled := true);
      var t := h.(memory := Some(m));
      if m.status != Running then t else if m.controller then MarkStopping(t, updates, stores) else Finalize(t, Stopped, stores)
  }

  function EndStatus(m: Memory, outcome: Outcome): Status {
    match outcome
    case Resolved => if m.cancelled || m.aborted then Stopped else Completed
    case StopRequested => Stopped
    case Threw(isAbort) => if m.cancelled || (m.aborted && isAbort) then Stopped else Failed
  }

  // The execution ends: whatever the outcome, one attempt to write the final status.
  function EndAgent(h: Host, outcome: Outcome, stores: bool): Host {
    if h.memory.None? || !h.memory.value.agent then h
    else
      var t := Finalize(h, EndStatus(h.memory.value, outcome), stores);
      t.(memory := Some(t.memory.value.(agent := false)))
  }

  function Resume(h: Host, allowed: bool, updates: bool, stores: bool): Host {
    if !allowed || (h.memory.Some? && IsCancellable(h.memory.value.status)) || !updates then h
    else
      Record(h.(status := Running, memory := Some(Memory(Running, h.log, false, false, true, true))), RunStarted, stores)
  }

  // Closing the host: every active execution is aborted, and what does not end in time is finished.
  function Close(h: Host, stores: bool): Host {
    if h.memory.None? then h.(closing := true)
    else
      var m := h.memory.value;
      var t := h.(closing := true,
        memory := Some(if IsCancellable(m.status) && m.controller then m.(cancelled := true, aborted := true) else m));
      if IsCancellable(m.status) then Finalize(t, Stopped, stores) else t
  }

  // A new process: nothing is in memory, and a run that seemed to be executing is marked interrupted,
  // first its row and then its log.
  function Restart(h: Host, updates: bool, stores: bool): Host {
    var t := h.(closing := false, memory := None, sinks := []);
    if !IsCancellable(t.status) then t.(up := true)
    else if !updates then t.(up := false)
    else if !stores then t.(up := false, status := Interrupted)
    else t.(up := true, status := Interrupted, log := t.log + [RunInterrupted])
  }

  function Create(starts: bool, stores: bool): Host {
    Record(Host(true, false, Running, [], Some(Memory(Running, [], false, false, starts, starts)), []), RunStarted, stores)
  }

  function WithoutSink(sinks: seq<Sink>, i: nat): seq<Sink> {
    if i < |sinks| then sinks[..i] + sinks[i + 1..] else sinks
  }

  method Replay(log: seq<Event>, afterSeq: int) returns (written: seq<(nat, Event)>)
    ensures written == Numbered(log, Max(0, afterSeq))
  {
    hide Numbered;
    written := [];
    NothingReplayed(log, Max(0, afterSeq));
    for i := 0 to |log|
      invariant written == Replayed(log, i, Max(0, afterSeq))
    {
      ReplayedStep(log, i, Max(0, afterSeq));
      if i + 1 <= afterSeq { continue; }
      written := written + [(i + 1, log[i])];
    }
    AllReplayed(log, Max(0, afterSeq));
  }

  // ----- the host as it runs ---------------------------------------------------------------------------------------

  class RunHost {
    var up: bool
    var closing: bool
    var storedStatus: Status
    var log: seq<Event>
    var memory: Option<Memory>
    var sinks: seq<Sink>

    function Contents(): Host
      reads this
    {
      Host(up, closing, storedStatus, log, memory, sinks)
    }

    constructor (starts: bool, stores: bool)
      ensures Contents() == Create(starts, stores)
    {
      up, closing, storedStatus, log, sinks := true, false, Running, [], [];
      memory := Some(Memory(Running, [], false, false, starts, starts));
      new;
      RecordEvent(RunStarted, stores);
    }

    method PublishEvent(n: nat, e: Event)
      modifies this`sinks
      ensures sinks == Publish(old(sinks), n, e)
    {
      var all := sinks;
      var kept: seq<Sink> := [];
      for i := 0 to |all|
        invariant kept + Publish(all[i..], n, e) == Publish(all, n, e)
      {
        PublishNext(all, i, n, e, kept);
        if all[i].closed { continue; }
        kept := kept + [all[i].(written := all[i].written + [(n, e)])];
      }
      sinks := kept;
    }

    method RecordEvent(e: Event, stores: bool)
      modifies this
      ensures Contents() == Record(old(Contents()), e, stores)
    {
      if memory.None? || !stores { return; }
      log := log + [e];
      memory := Some(memory.value.(events := memory.value.events + [e]));
      PublishEvent(|log|, e);
    }

    method FinalizeRun(status: Status, stores: bool) returns (ok: bool)
      modifies this
      ensures Contents() == Finalize(old(Contents()), status, stores)
      ensures ok <==> Contents() != old(Contents())
    {
      if memory.None? || IsTerminal(memory.value.status) { return false; }
      if !stores { return false; }
      storedStatus := status;
      log := log + [RunEnded(status)];
      memory := Some(memory.value.(status := status, events := memory.value.events + [RunEnded(status)]));
      PublishEvent(|log|, RunEnded(status));
      return true;
    }

    method StopRun(updates: bool, stores: bool)
      modifies this
      ensures Contents() == Stop(old(Contents()), updates, stores)
    {
      if memory.None? { return; }
      memory := Some(memory.value.(cancelled := true));
      if memory.value.status == Running {
        if memory.value.controller {
          memory := Some(memory.value.(status := Stopping));
          if updates { storedStatus := Stopping; }
          RecordEvent(RunStopping, stores);
          memory := Some(memory.value.(aborted := true));
        } else {
          var _ := FinalizeRun(Stopped, stores);
        }
      }
    }

    method AgentEnds(outcome: Outcome, stores: bool)
      modifies this
      ensures Contents() == EndAgent(old(Contents()), outcome, stores)
    {
      if memory.None? || !memory.value.agent { return; }
      var stopped := memory.value.cancelled || memory.value.aborted;
      match outcome {
        case Resolved =>
          var _ := FinalizeRun(if stopped then Stopped else Completed, stores);
        case StopRequested =>
          var _ := FinalizeRun(Stopped, stores);
        case Threw(isAbort) =>
          var byUser := memory.value.cancelled || (memory.value.aborted && isAbort);
          var _ := FinalizeRun(if byUser then Stopped else Failed, stores);
      }
      memory := Some(memory.value.(agent := false));
    }

    method ResumeRun(allowed: bool, updates: bool, stores: bool) returns (ok: bool)
      modifies this
      ensures Contents() == Resume(old(Contents()), allowed, updates, stores)
    {
      if memory.Some? && IsCancellable(memory.value.status) { return false; }
      if !allowed || !updates { return false; }
      storedStatus := Running;
      memory := Some(Memory(Running, log, false, false, true, true));
      RecordEvent(RunStarted, stores);
      return true;
    }

    method SubscribeSink(afterSeq: int, live: bool) returns (written: seq<(nat, Event)>)
      modifies this`sinks
      ensures Contents() == Subscribe(old(Contents()), afterSeq, live)
      ensures written == Numbered(log, Max(0, afterSeq))
    {
      written := Replay(log, afterSeq);
      if live { sinks := sinks + [Sink(afterSeq, |log|, written, false)]; }
    }

    method CloseHost(stores: bool)
      modifies this
      ensures Contents() == Close(old(Contents()), stores)
    {
      closing := true;
      if memory.None? { return; }
      var active := IsCancellable(memory.value.status);
      if active && memory.value.controller {
        memory := Some(memory.value.(cancelled := true, aborted := true));
      }
      if active { var _ := FinalizeRun(Stopped, stores); }
    }

    method RestartHost(updates: bool, stores: bool)
      modifies this
      ensures Contents() == Restart(old(Contents()), updates, stores)
    {
      closing, memory, sinks := false, None, [];
      if storedStatus != Running && storedStatus != Stopping {
        up := true;
        return;
      }
      if !updates {
        up := false;
        return;
      }
      storedStatus := Interrupted;
      if !stores {
        up := false;
        return;
      }
      log := log + [RunInterrupted];
      up := true;
    }
  }

  // ----- runs ----------------------------------------------------------------------------------------------------------

  // `updates` and `stores` say whether the row update and the log insert succeed.
  datatype Step =
    | Emit(e: Event, stores: bool)
    | AgentEnd(outcome: Outcome, stores: bool)
    | UserStop(updates: bool, stores: bool)
    | UserResume(allowed: bool, updates: bool, stores: bool)
    | HostClose(stores: bool)
    | HostRestart(updates: bool, stores: bool)
    | Join(afterSeq: int, live: bool)
    | Leave(i: nat)
    | Disconnect(i: nat)

  // A step that the host's state does not allow changes nothing: while the host is down only a restart
  // happens, and a closing host takes no more resumes.
  function Take(h: Host, step: Step): Host {
    if !h.up && !step.HostRestart? then h
    else
      match step
      case Emit(e, stores) => if e.Other? then Record(h, e, stores) else h
      case AgentEnd(outcome, stores) => EndAgent(h, outcome, stores)
      case UserStop(updates, stores) => Stop(h, updates, stores)
      case UserResume(allowed, updates, stores) => if h.closing then h else Resume(h, allowed, updates, stores)
      case HostClose(stores) => Close(h, stores)
      case HostRestart(updates, stores) => Restart(h, updates, stores)
      case Join(afterSeq, live) => Subscribe(h, afterSeq, live)
      case Leave(i) => h.(sinks := WithoutSink(h.sinks, i))
      case Disconnect(i) => if i < |h.sinks| then h.(sinks := h.sinks[i := h.sinks[i].(closed := true)]) else h
  }

  // An epoch is the part of the log from one successful start or resume to the next.
  datatype Run = Run(host: Host, epochs: seq<seq<Event>>)

  predicate Resumes(h: Host, step: Step) {
    h.up && !h.closing && step.UserResume? && step.allowed && step.updates
    && !(h.memory.Some? && IsCancellable(h.memory.value.status))
  }

  function Advance(r: Run, step: Step): Run
    requires r.epochs != []
  {
    var t := Take(r.host, step);
    var added := if |r.host.log| <= |t.log| then t.log[|r.host.log|..] else [];
    var n := |r.epochs| - 1;
    Run(t, if Resumes(r.host, step) then r.epochs + [added] else r.epochs[n := r.epochs[n] + added])
  }

  function AdvanceAll(r: Run, steps: seq<Step>): Run
    requires r.epochs != []
    decreases steps
  {
    if steps == [] then r else AdvanceAll(Advance(r, steps[0]), steps[1..])
  }

  function Begin(starts: bool, stores: bool): Run {
    Run(Create(starts, stores), [Create(starts, stores).log])
  }

  function Ends(events: seq<Event>): nat {
    if events == [] then 0 else Ends(events[..|events| - 1]) + if events[|events| - 1].RunEnded? then 1 else 0
  }

  // ----- the invariant --------------------------------------------------------------------------------------------------

  // Memory and store agree on the log, and on the status as soon as one of them is final.
  ghost predicate Agrees(h: Host) {
    && (h.memory.Some? ==>
          && h.up && h.memory.value.events == h.log
          && (IsTerminal(h.memory.value.status) || IsTerminal(h.status) ==> h.memory.value.status == h.status)
          && h.memory.value.status != Interrupted
          && (h.memory.value.agent ==> h.memory.value.controller && (IsTerminal(h.memory.value.status) ==> h.closing)))
    && (h.up && h.memory.None? ==> !IsCancellable(h.status))
  }

  // A live sink has been sent exactly the stored events from where it joined, in order.
  ghost predicate SinkOk(s: Sink, log: seq<Event>) {
    s.joinedAt <= |log| && (!s.closed ==> s.written == Numbered(log, Min(Max(0, s.afterSeq), s.joinedAt)))
  }

  ghost predicate AllOk(sinks: seq<Sink>, log: seq<Event>) {
    forall s :: s in sinks ==> SinkOk(s, log)
  }

  ghost predicate SinksOk(h: Host) { AllOk(h.sinks, h.log) }

  // Every epoch logs at most one end, and the current one exactly when the stored status is final.
  ghost predicate EpochsOk(r: Run) {
    && r.epochs != []
    && (forall i :: 0 <= i < |r.epochs| ==> Ends(r.epochs[i]) <= 1)
    && EpochMatches(r.epochs[|r.epochs| - 1], r.host.status)
    && Joined(r.epochs) == r.host.log
  }

  ghost predicate EpochMatches(epoch: seq<Event>, status: Status) {
    && (Ends(epoch) == 1 <==> IsTerminal(status))
    && forall e :: e in epoch && e.RunEnded? ==> e.status == status
  }

  function Joined(epochs: seq<seq<Event>>): seq<Event> {
    if epochs == [] then [] else Joined(epochs[..|epochs| - 1]) + epochs[|epochs| - 1]
  }

  ghost predicate Inv(r: Run) { Agrees(r.host) && SinksOk(r.host) && EpochsOk(r) }

  lemma {:induction false} PublishKeeps(sinks: seq<Sink>, log: seq<Event>, e: Event)
    requires AllOk(sinks, log)
    ensures AllOk(Publish(sinks, |log| + 1, e), log + [e])
    decreases sinks
  {
    if sinks != [] {
      PublishKeeps(sinks[1..], log, e);
      var s := sinks[0];
      assert s in sinks && SinkOk(s, log);
      if !s.closed {
        NumberedGrows(log, e, Min(Max(0, s.afterSeq), s.joinedAt));
        assert SinkOk(s.(written := s.written + [(|log| + 1, e)]), log + [e]);
      }
    }
  }

  lemma {:induction false} NumberedGrows(log: seq<Event>, e: Event, from: nat)
    requires from <= |log|
    ensures Numbered(log + [e], from) == Numbered(log, from) + [(|log| + 1, e)]
  {
  }

  lemma RecordKeeps(h: Host, e: Event, stores: bool)
    requires Agrees(h) && SinksOk(h)
    ensures Agrees(Record(h, e, stores)) && SinksOk(Record(h, e, stores))
    ensures Record(h, e, stores).log == if stores && h.memory.Some? then h.log + [e] else h.log
    ensures Record(h, e, stores).status == h.status
  {
    PublishKeeps(h.sinks, h.log, e);
  }

  lemma FinalizeKeeps(h: Host, status: Status, stores: bool)
    requires Agrees(h) && SinksOk(h) && IsTerminal(status)
    requires h.memory.Some? && h.memory.value.agent ==> h.closing
    ensures Agrees(Finalize(h, status, stores)) && SinksOk(Finalize(h, status, stores))
  {
    PublishKeeps(h.sinks, h.log, RunEnded(status));
  }

  lemma EndsAppend(events: seq<Event>, e: Event)
    ensures Ends(events + [e]) == Ends(events) + if e.RunEnded? then 1 else 0
  {
    assert (events + [e])[..|events|] == events;
  }

  // What a step other than a resume may add to the log: nothing, one event, or the end of a run that
  // was not final before.
  ghost predicate AddsAtMostOne(h: Host, t: Host) {
    || (t.log == h.log && (IsTerminal(h.status) || IsTerminal(t.status) ==> t.status == h.status))
    || (|t.log| == |h.log| + 1 && t.log[..|h.log|] == h.log && !t.log[|h.log|].RunEnded?
        && (IsTerminal(h.status) || IsTerminal(t.status) ==> t.status == h.status))
    || (!IsTerminal(h.status) && IsTerminal(t.status) && t.log == h.log + [RunEnded(t.status)])
  }

  lemma StopStep(h: Host, updates: bool, stores: bool)
    requires Agrees(h) && SinksOk(h)
    ensures var t := Stop(h, updates, stores); Agrees(t) && SinksOk(t) && AddsAtMostOne(h, t)
  {
    hide SinkOk, Publish;
    if h.memory.Some? {
      var m := h.memory.value.(cancelled := true);
      var t := h.(memory := Some(m));
      if m.status == Running {
        if m.controller {
          var u := t.(memory := Some(m.(status := Stopping)), status := if updates then Stopping else h.status);
          RecordKeeps(u, RunStopping, stores);
        } else {
          FinalizeKeeps(t, Stopped, stores);
        }
      }
    }
  }

  lemma EndAgentStep(h: Host, outcome: Outcome, stores: bool)
    requires Agrees(h) && SinksOk(h)
    ensures var t := EndAgent(h, outcome, stores); Agrees(t) && SinksOk(t) && AddsAtMostOne(h, t)
  {
    hide SinkOk, Publish;
    if h.memory.Some? && h.memory.value.agent {
      var ended := h.(memory := Some(h.memory.value.(agent := false)));
      FinalizeKeeps(ended, EndStatus(h.memory.value, outcome), stores);
      assert EndAgent(h, outcome, stores) == Finalize(ended, EndStatus(h.memory.value, outcome), stores);
    }
  }

  lemma CloseStep(h: Host, stores: bool)
    requires Agrees(h) && SinksOk(h)
    ensures var t := Close(h, stores); Agrees(t) && SinksOk(t) && AddsAtMostOne(h, t)
  {
    hide SinkOk, Publish;
    if h.memory.Some? {
      var m := h.memory.value;
      var t := h.(closing := true,
        memory := Some(if IsCancellable(m.status) && m.controller then m.(cancelled := true, aborted := true) else m));
      if IsCancellable(m.status) { FinalizeKeeps(t, Stopped, stores); }
    }
  }

  lemma SubscribeStep(h: Host, afterSeq: int, live: bool)
    requires Agrees(h) && SinksOk(h) && h.up
    ensures SinksOk(Subscribe(h, afterSeq, live))
  {
    hide Publish;
    var start := Max(0, afterSeq);
    var s := Sink(afterSeq, |h.log|, Numbered(h.log, start), false);
    assert SinkOk(s, h.log) by { JoinsAtEnd(h.log, afterSeq); }
    forall x | x in h.sinks + [s] ensures SinkOk(x, h.log) { assert x in h.sinks || x == s; }
  }

  lemma JoinsAtEnd(log: seq<Event>, afterSeq: int)
    ensures Numbered(log, Max(0, afterSeq)) == Numbered(log, Min(Max(0, afterSeq), |log|))
  {
    var start := Max(0, afterSeq);
    if start > |log| {
      assert Numbered(log, start) == [] && Numbered(log, |log|) == [];
    }
  }

  lemma SinkSteps(h: Host, step: Step)
    requires Agrees(h) && SinksOk(h) && h.up && (step.Join? || step.Leave? || step.Disconnect?)
    ensures var t := Take(h, step); Agrees(t) && SinksOk(t) && AddsAtMostOne(h, t)
  {
    hide Publish, Numbered;
    match step
    case Join(afterSeq, live) => SubscribeStep(h, afterSeq, live);
    case Leave(i) =>
      forall s | s in WithoutSink(h.sinks, i) ensures SinkOk(s, h.log) { assert s in h.sinks; }
    case Disconnect(i) =>
      if i < |h.sinks| {
        var gone := h.sinks[i].(closed := true);
        assert h.sinks[i] in h.sinks;
        forall s | s in h.sinks[i := gone] ensures SinkOk(s, h.log) { assert s in h.sinks || s == gone; }
      }
  }

  lemma OtherSteps(h: Host, step: Step)
    requires Agrees(h) && SinksOk(h) && !Resumes(h, step)
    ensures var t := Take(h, step); Agrees(t) && SinksOk(t) && AddsAtMostOne(h, t)
  {
    hide SinkOk, Publish, Agrees, SinksOk, AddsAtMostOne, Stop, EndAgent, Close, Record, Subscribe;
    NothingChanges(h);
    if h.up || step.HostRestart? {
      match step
      case Emit(e, stores) => if e.Other? { EmitStep(h, e, stores); }
      case AgentEnd(outcome, stores) => EndAgentStep(h, outcome, stores);
      case UserStop(updates, stores) => StopStep(h, updates, stores);
      case UserResume(allowed, updates, stores) =>
      case HostClose(stores) => CloseStep(h, stores);
      case HostRestart(updates, stores) => RestartStep(h, updates, stores);
      case Join(_, _) => SinkSteps(h, step);
      case Leave(_) => SinkSteps(h, step);
      case Disconnect(_) => SinkSteps(h, step);
    }
  }

  lemma NothingChanges(h: Host)
    ensures AddsAtMostOne(h, h)
  {
  }

  lemma EmitStep(h: Host, e: Event, stores: bool)
    requires Agrees(h) && SinksOk(h) && e.Other?
    ensures var t := Record(h, e, stores); Agrees(t) && SinksOk(t) && AddsAtMostOne(h, t)
  {
    hide SinkOk, Publish;
    RecordKeeps(h, e, stores);
  }

  lemma RestartStep(h: Host, updates: bool, stores: bool)
    requires Agrees(h)
    ensures var t := Restart(h, updates, stores); Agrees(t) && SinksOk(t) && AddsAtMostOne(h, t)
  {
  }

  lemma ResumeStep(h: Host, step: Step)
    requires Agrees(h) && SinksOk(h) && Resumes(h, step)
    ensures var t := Take(h, step);
      && Agrees(t) && SinksOk(t) && t.status == Running && t.memory.Some? && t.memory.value.status == Running
      && t.log == if step.stores then h.log + [RunStarted] else h.log
  {
    hide SinkOk, Publish;
    RecordKeeps(h.(status := Running, memory := Some(Memory(Running, h.log, false, false, true, true))), RunStarted, step.stores);
  }

  // ----- epochs -------------------------------------------------------------------------------------------------------

  lemma JoinedLast(epochs: seq<seq<Event>>, added: seq<Event>)
    requires epochs != []
    ensures var n := |epochs| - 1; Joined(epochs[n := epochs[n] + added]) == Joined(epochs) + added
  {
    var n := |epochs| - 1;
    assert epochs[n := epochs[n] + added][..n] == epochs[..n];
    assert Joined(epochs[..n]) + (epochs[n] + added) == Joined(epochs[..n]) + epochs[n] + added;
  }

  lemma JoinedNew(epochs: seq<seq<Event>>, added: seq<Event>)
    ensures Joined(epochs + [added]) == Joined(epochs) + added
  {
    assert (epochs + [added])[..|epochs|] == epochs;
  }

  // The last epoch after a step that is no resume.
  lemma EpochGrows(last: seq<Event>, h: Host, t: Host)
    requires AddsAtMostOne(h, t) && Ends(last) <= 1 && EpochMatches(last, h.status)
    ensures |h.log| <= |t.log| && t.log == h.log + t.log[|h.log|..]
    ensures Ends(last + t.log[|h.log|..]) <= 1 && EpochMatches(last + t.log[|h.log|..], t.status)
  {
    var added := t.log[|h.log|..];
    if added == [] {
      assert last + added == last;
      EndsMeans(last);
    } else {
      assert added == [t.log[|h.log|]];
      EndsAppend(last, added[0]);
      EndsMeans(last);
    }
  }

  lemma {:induction false} EndsMeans(events: seq<Event>)
    ensures Ends(events) > 0 <==> exists e :: e in events && e.RunEnded?
  {
    if events != [] {
      EndsMeans(events[..|events| - 1]);
      assert events == events[..|events| - 1] + [events[|events| - 1]];
    }
  }

  lemma AdvanceKeepsInv(r: Run, step: Step)
    requires Inv(r)
    ensures Inv(Advance(r, step))
  {
    hide SinkOk, Publish, Agrees, SinksOk, Take, AddsAtMostOne, Ends, Joined;
    var t := Take(r.host, step);
    var n := |r.epochs| - 1;
    if Resumes(r.host, step) {
      ResumeStep(r.host, step);
      var added := t.log[|r.host.log|..];
      assert added == if step.stores then [RunStarted] else [];
      JoinedNew(r.epochs, added);
      StartHasNoEnd(added);
      assert r.host.log + added == t.log;
    } else {
      OtherSteps(r.host, step);
      EpochGrows(r.epochs[n], r.host, t);
      JoinedLast(r.epochs, t.log[|r.host.log|..]);
    }
  }

  lemma StartHasNoEnd(added: seq<Event>)
    requires added == [] || added == [RunStarted]
    ensures Ends(added) == 0
  {
    if added != [] { assert added[..0] == []; }
  }

  lemma BeginInv(starts: bool, stores: bool)
    ensures Inv(Begin(starts, stores))
  {
    var r := Begin(starts, stores);
    StartHasNoEnd(r.host.log);
    assert r.epochs[..0] == [] && Joined([]) == [];
    assert [] + r.host.log == r.host.log;
  }

  // Over every sequence of steps, with any writes failing and any restarts: a final status in memory is
  // the stored one; the log in memory is the stored log; every epoch logs at most one end, with the
  // stored status; and every live sink has been sent the stored events from where it joined.
  lemma {:induction false} RunKeepsInv(r: Run, steps: seq<Step>)
    requires Inv(r) && r.epochs != []
    ensures Inv(AdvanceAll(r, steps))
    decreases steps
  {
    hide Inv, Advance;
    if steps != [] {
      AdvanceKeepsInv(r, steps[0]);
      KeepsEpochs(r, steps[0]);
      RunKeepsInv(Advance(r, steps[0]), steps[1..]);
    }
  }

  lemma KeepsEpochs(r: Run, step: Step)
    requires r.epochs != []
    ensures Advance(r, step).epochs != []
  {
  }

  lemma EveryRunKeepsInv(starts: bool, stores: bool, steps: seq<Step>)
    ensures Inv(AdvanceAll(Begin(starts, stores), steps))
  {
    BeginInv(starts, stores);
    RunKeepsInv(Begin(starts, stores), steps);
  }

  // A final status changes only by a resume: in the store, and in memory while the process lives.
  lemma FinalStatusStays(h: Host, step: Step)
    requires Agrees(h) && SinksOk(h) && !Resumes(h, step)
    ensures IsTerminal(h.status) ==> Take(h, step).status == h.status
    ensures h.memory.Some? && IsTerminal(h.memory.value.status) && Take(h, step).memory.Some?
      ==> Take(h, step).memory.value.status == h.memory.value.status
  {
    hide Publish, SinkOk, Subscribe, Record, Stop, EndAgent, Close, Restart;
    OtherSteps(h, step);
    FinalIsShared(h);
    FinalIsShared(Take(h, step));
    if IsTerminal(h.status) { OneOrNone(h, Take(h, step)); }
  }

  lemma FinalIsShared(h: Host)
    requires Agrees(h)
    ensures h.memory.Some? && (IsTerminal(h.memory.value.status) || IsTerminal(h.status)) ==> h.memory.value.status == h.status
  {
  }

  lemma OneOrNone(h: Host, t: Host)
    requires AddsAtMostOne(h, t) && IsTerminal(h.status)
    ensures t.status == h.status
  {
  }

  // A live sink receives exactly the stored events after `afterSeq`, each once and in order, as long as
  // `afterSeq` was no greater than the last sequence number when it joined; otherwise it is sent again
  // what it said it had, as soon as there is anything new.
  lemma SinkReceivesExactly(s: Sink, log: seq<Event>)
    requires SinkOk(s, log) && !s.closed
    ensures s.written == Numbered(log, Max(0, s.afterSeq)) <==> s.afterSeq <= s.joinedAt || |log| == s.joinedAt
  {
    var from := Min(Max(0, s.afterSeq), s.joinedAt);
    if s.afterSeq > s.joinedAt && |log| > s.joinedAt {
      assert Numbered(log, from)[0].0 == s.joinedAt + 1;
      assert |Numbered(log, from)| > |Numbered(log, Max(0, s.afterSeq))|;
    }
  }

  function TakeAll(h: Host, steps: seq<Step>): Host
    decreases steps
  {
    if steps == [] then h else TakeAll(Take(h, steps[0]), steps[1..])
  }

  // What a live sink that asked for the events after `afterSeq` when the log had `joinedAt` has been sent.
  function LiveSink(log: seq<Event>, afterSeq: int, joinedAt: nat): Sink {
    Sink(afterSeq, joinedAt, Numbered(log, Min(Max(0, afterSeq), joinedAt)), false)
  }

  ghost predicate Follows(h: Host, afterSeq: int, joinedAt: nat) {
    joinedAt <= |h.log| && LiveSink(h.log, afterSeq, joinedAt) in h.sinks
  }

  // The step does not take away this very sink.
  predicate Spares(h: Host, afterSeq: int, joinedAt: nat, step: Step) {
    && !step.HostRestart?
    && ((step.Leave? || step.Disconnect?) && step.i < |h.sinks| ==> h.sinks[step.i] != LiveSink(h.log, afterSeq, joinedAt))
  }

  predicate SparesAll(h: Host, afterSeq: int, joinedAt: nat, steps: seq<Step>)
    decreases steps
  {
    steps == [] || (Spares(h, afterSeq, joinedAt, steps[0]) && SparesAll(Take(h, steps[0]), afterSeq, joinedAt, steps[1..]))
  }

  lemma {:induction false} PublishReaches(sinks: seq<Sink>, s: Sink, n: nat, e: Event)
    requires s in sinks && !s.closed
    ensures s.(written := s.written + [(n, e)]) in Publish(sinks, n, e)
    decreases sinks
  {
    if sinks[0] != s {
      assert sinks == [sinks[0]] + sinks[1..];
      PublishReaches(sinks[1..], s, n, e);
    }
  }

  lemma FollowsMore(h: Host, t: Host, e: Event, afterSeq: int, joinedAt: nat)
    requires Follows(h, afterSeq, joinedAt) && t.log == h.log + [e] && t.sinks == Publish(h.sinks, |h.log| + 1, e)
    ensures Follows(t, afterSeq, joinedAt)
  {
    PublishReaches(h.sinks, LiveSink(h.log, afterSeq, joinedAt), |h.log| + 1, e);
    NumberedGrows(h.log, e, Min(Max(0, afterSeq), joinedAt));
  }

  // A step either publishes the one event it logs, or logs nothing.
  ghost predicate Publishes(h: Host, t: Host) {
    || (t.log == h.log && t.sinks == h.sinks)
    || (|t.log| == |h.log| + 1 && t.log == h.log + [t.log[|h.log|]] && t.sinks == Publish(h.sinks, |h.log| + 1, t.log[|h.log|]))
  }

  lemma StepPublishes(h: Host, step: Step)
    requires !step.HostRestart? && !step.Join? && !step.Leave? && !step.Disconnect?
    ensures Publishes(h, Take(h, step))
  {
    hide Publish;
  }

  lemma StepFollows(h: Host, step: Step, afterSeq: int, joinedAt: nat)
    requires Follows(h, afterSeq, joinedAt) && Spares(h, afterSeq, joinedAt, step)
    ensures Follows(Take(h, step), afterSeq, joinedAt)
  {
    hide Publish, Numbered;
    var mine := LiveSink(h.log, afterSeq, joinedAt);
    if step.Join? || step.Leave? || step.Disconnect? {
      hide LiveSink;
      var k :| 0 <= k < |h.sinks| && h.sinks[k] == mine;
      var t := Take(h, step);
      assert t.log == h.log;
      assert mine == if step.Leave? && h.up && step.i < k then t.sinks[k - 1] else t.sinks[k];
    } else {
      hide Take, LiveSink;
      StepPublishes(h, step);
      if Take(h, step).log != h.log { FollowsMore(h, Take(h, step), Take(h, step).log[|h.log|], afterSeq, joinedAt); }
    }
  }

  lemma {:induction false} StepsFollow(h: Host, steps: seq<Step>, afterSeq: int, joinedAt: nat)
    requires Follows(h, afterSeq, joinedAt) && SparesAll(h, afterSeq, joinedAt, steps)
    ensures Follows(TakeAll(h, steps), afterSeq, joinedAt)
    decreases steps
  {
    if steps != [] {
      hide Take, Follows;
      StepFollows(h, steps[0], afterSeq, joinedAt);
      StepsFollow(Take(h, steps[0]), steps[1..], afterSeq, joinedAt);
    }
  }

  // A sink that joins stays connected, and is sent every event that is logged, each once and in order, until it
  // leaves, its connection breaks or the host restarts; a reader that does not follow is no sink.
  lemma LiveSinkFollows(h: Host, afterSeq: int, steps: seq<Step>)
    requires h.up && SparesAll(Take(h, Join(afterSeq, true)), afterSeq, |h.log|, steps)
    ensures var t := TakeAll(Take(h, Join(afterSeq, true)), steps);
      && |h.log| <= |t.log|
      && Sink(afterSeq, |h.log|, Numbered(t.log, Min(Max(0, afterSeq), |h.log|)), false) in t.sinks
    ensures Take(h, Join(afterSeq, false)) == h
  {
    var joined := Take(h, Join(afterSeq, true));
    JoinsAtEnd(h.log, afterSeq);
    assert joined.sinks[|h.sinks|] == LiveSink(h.log, afterSeq, |h.log|);
    StepsFollow(joined, steps, afterSeq, |h.log|);
  }

  lemma {:induction false} PublishDropsClosed(sinks: seq<Sink>, n: nat, e: Event)
    ensures forall s :: s in Publish(sinks, n, e) ==> !s.closed
    decreases sinks
  {
    if sinks != [] { PublishDropsClosed(sinks[1..], n, e); }
  }

  // A sink that leaves is gone; one that breaks is sent nothing more and is dropped with the next event.
  lemma BrokenSinkIsDropped(h: Host, i: nat, step: Step)
    requires h.up && i < |h.sinks|
    ensures Take(h, Leave(i)) == h.(sinks := h.sinks[..i] + h.sinks[i + 1..])
    ensures var t := Take(h, Disconnect(i));
      && t == h.(sinks := h.sinks[i := h.sinks[i].(closed := true)])
      && (!step.HostRestart? && !step.Join? && !step.Leave? && !step.Disconnect? && Take(t, step).log != t.log ==>
            forall s :: s in Take(t, step).sinks ==> !s.closed)
  {
    var t := Take(h, Disconnect(i));
    if !step.HostRestart? && !step.Join? && !step.Leave? && !step.Disconnect? {
      StepPublishes(t, step);
      if Take(t, step).log != t.log { PublishDropsClosed(t.sinks, |t.log| + 1, Take(t, step).log[|t.log|]); }
    }
  }

  // ----- a stop is honoured ---------------------------------------------------------------------------------------

  // The user has stopped the run and it has not ended yet.
  predicate StopPending(h: Host) {
    h.memory.Some? && h.memory.value.cancelled && IsCancellable(h.memory.value.status)
  }

  predicate EndedStopped(h: Host) { h.memory.Some? && h.memory.value.status == Stopped }

  predicate SameProcess(step: Step) { !step.HostRestart? && !step.UserResume? }

  lemma StaysStopped(h: Host, step: Step)
    requires (StopPending(h) || EndedStopped(h)) && SameProcess(step)
    ensures StopPending(Take(h, step)) || EndedStopped(Take(h, step))
  {
    hide Publish, WithoutSink;
    match step
    case Emit(e, stores) =>
    case AgentEnd(outcome, stores) =>
    case UserStop(updates, stores) =>
    case HostClose(stores) =>
    case Join(afterSeq, live) =>
    case Leave(i) =>
    case Disconnect(i) =>
  }

  // A stop of a run that is still active is honoured: as long as the process lives and nobody resumes the
  // run, it either has not ended or has ended as stopped, whatever its execution answers or throws in the
  // meantime, and the end of the execution, when it can be written, is such an end.
  lemma {:induction false} StopIsHonoured(h: Host, updates: bool, stores: bool, steps: seq<Step>)
    requires h.up && h.memory.Some? && IsCancellable(h.memory.value.status)
    requires forall i :: 0 <= i < |steps| ==> SameProcess(steps[i])
    ensures var t := TakeAll(Take(h, UserStop(updates, stores)), steps);
      && (StopPending(t) || EndedStopped(t))
      && forall outcome: Outcome :: t.memory.value.agent ==> EndedStopped(EndAgent(t, outcome, true))
  {
    hide Publish, Take, EndAgent;
    StopTaken(h, updates, stores);
    StopLasts(Take(h, UserStop(updates, stores)), steps);
    var t := TakeAll(Take(h, UserStop(updates, stores)), steps);
    forall outcome: Outcome | t.memory.value.agent ensures EndedStopped(EndAgent(t, outcome, true)) {
      EndOfStopped(t, outcome);
    }
  }

  lemma StopTaken(h: Host, updates: bool, stores: bool)
    requires h.up && h.memory.Some? && IsCancellable(h.memory.value.status)
    ensures var t := Take(h, UserStop(updates, stores)); StopPending(t) || EndedStopped(t)
  {
    hide Publish;
  }

  lemma EndOfStopped(h: Host, outcome: Outcome)
    requires (StopPending(h) || EndedStopped(h)) && h.memory.value.agent
    ensures EndedStopped(EndAgent(h, outcome, true))
  {
    hide Publish;
  }

  lemma {:induction false} StopLasts(h: Host, steps: seq<Step>)
    requires StopPending(h) || EndedStopped(h)
    requires forall i :: 0 <= i < |steps| ==> SameProcess(steps[i])
    ensures StopPending(TakeAll(h, steps)) || EndedStopped(TakeAll(h, steps))
    decreases steps
  {
    if steps != [] {
      hide Take, StopPending, EndedStopped;
      StaysStopped(h, steps[0]);
      StopLasts(Take(h, steps[0]), steps[1..]);
    }
  }
}
