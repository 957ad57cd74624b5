// Requests for a host package, their approval and the installs they share
// (src/host/toolchain-preparation-coordinator.ts:68-338). Synchronous code is one step; a promise
// callback is a step of its own that may run any time after its promise is settled. The checks before a
// request is admitted, the messages and the capability snapshots are not modelled.
module Toolchain {

  datatype Decision = Approved | Denied | Aborted | TimedOut

  datatype Status = Prepared | Failed | WasDenied | WasAborted | WasTimedOut

  // Undecided; decided but not acted on; the preparer running; resolved but still in the merge table;
  // and gone from it.
  datatype Phase = Waiting | Decided(decision: Decision) | Preparing | Settled(status: Status) | Done(status: Status)

  // One unmerged request. `aborted` is its controller's signal.
  datatype Install = Install(runId: string, package: string, phase: Phase, aborted: bool)

  datatype PendingState = IsWaiting | IsPreparing | IsFinishing

  datatype Pending = Pending(state: PendingState, cancelRequested: bool)

  datatype Event =
    | Requested(id: nat)
    | Started(id: nat)
    | Resolved(id: nat, status: Status)
    | MergedResolved(waiter: nat, status: Status)

  // A merged request waits for install `on` until it is answered; `signalled` says that its own signal was
  // given.
  datatype Waiter = Waiter(on: nat, answered: bool, signalled: bool)

  // The id of a request is its place in `installs`; `granted` logs the ids whose approval was accepted.
  datatype State = State(
    installs: seq<Install>, pending: map<nat, Pending>, active: map<string, nat>, waiters: seq<Waiter>,
    events: seq<Event>, granted: set<nat>)

  const EMPTY := State([], map[], map[], [], [], {})

  // ----- the steps -----------------------------------------------------------------------------------------

  function Settle(s: State, id: nat, d: Decision): State {
    if id < |s.installs| && s.installs[id].phase == Waiting then
      s.(installs := s.installs[id := s.installs[id].(phase := Decided(d))])
    else s
  }

  // `decide`: only an open request can be decided, and only its first decision counts.
  function Decide(s: State, id: nat, d: Decision): State {
    if id !in s.pending then s
    else
      var pending :=
        if s.pending[id].state != IsWaiting then s.pending
        else if d == Approved then s.pending[id := s.pending[id].(state := IsPreparing)]
        else s.pending - {id};
      Settle(s.(pending := pending), id, d)
  }

  function Abort(s: State, id: nat): State {
    if id < |s.installs| then s.(installs := s.installs[id := s.installs[id].(aborted := true)]) else s
  }

  function OnSignal(s: State, id: nat): State {
    if id in s.pending && s.pending[id].state == IsPreparing then Abort(s, id) else Decide(s, id, Aborted)
  }

  // A request of its own: it waits for a decision and holds the entry of its package.
  function Opened(s: State, runId: string, package: string): State {
    var id := |s.installs|;
    s.(installs := s.installs + [Install(runId, package, Waiting, false)],
       pending := s.pending[id := Pending(IsWaiting, false)],
       active := s.active[package := id],
       events := s.events + [Requested(id)])
  }

  function Request(s: State, runId: string, package: string, signalAborted: bool): State {
    if package in s.active then s.(waiters := s.waiters + [Waiter(s.active[package], false, signalAborted)])
    else
      var t := Opened(s, runId, package);
      if signalAborted then OnSignal(t, |s.installs|) else t
  }

  predicate Owns(s: State, runId: string, id: nat) {
    id in s.pending && id < |s.installs| && s.installs[id].runId == runId
  }

  function Resolve(s: State, runId: string, id: nat, approved: bool): State {
    if !Owns(s, runId, id) || s.pending[id].state != IsWaiting then s
    else
      var t := s.(pending := s.pending[id := s.pending[id].(state := if approved then IsPreparing else IsFinishing)],
                  granted := if approved then s.granted + {id} else s.granted);
      Decide(t, id, if approved then Approved else Denied)
  }

  function Cancel(s: State, runId: string, id: nat): State {
    if !Owns(s, runId, id) || s.pending[id].cancelRequested || s.pending[id].state == IsFinishing then s
    else
      var p := s.pending[id].(cancelRequested := true);
      if p.state == IsWaiting then Decide(s.(pending := s.pending[id := p.(state := IsFinishing)]), id, Aborted)
      else Abort(s.(pending := s.pending[id := p]), id)
  }

  function Timeout(s: State, id: nat): State {
    if id in s.pending && s.pending[id].state == IsWaiting then Decide(s, id, TimedOut) else s
  }

  function AbortedOne(i: Install, p: Pending): Install {
    if p.state == IsPreparing then i.(aborted := true)
    else if i.phase == Waiting then i.(phase := Decided(Aborted))
    else i
  }

  function AbortAll(s: State): State {
    s.(pending := map[],
       installs := seq(|s.installs|, id requires 0 <= id < |s.installs| =>
         if id in s.pending then AbortedOne(s.installs[id], s.pending[id]) else s.installs[id]))
  }

  function Finish(s: State, id: nat, status: Status): State
    requires id < |s.installs|
  {
    s.(pending := s.pending - {id}, events := s.events + [Resolved(id, status)],
       installs := s.installs[id := s.installs[id].(phase := Settled(status))])
  }

  // The callback of the decision: it starts the preparer, or resolves the request at once.
  function ActOn(s: State, id: nat): State {
    if id >= |s.installs| || !s.installs[id].phase.Decided? then s
    else
      match s.installs[id].phase.decision
      case Approved =>
        s.(installs := s.installs[id := s.installs[id].(phase := Preparing)], events := s.events + [Started(id)])
      case Denied => Finish(s, id, WasDenied)
      case Aborted => Finish(s, id, WasAborted)
      case TimedOut => Finish(s, id, WasTimedOut)
  }

  function PreparerEnds(s: State, id: nat, status: Status): State {
    if id < |s.installs| && s.installs[id].phase == Preparing then Finish(s, id, status) else s
  }

  // The callback that cleans the merge table: it deletes by package, whatever install is there.
  function Delete(s: State, id: nat): State {
    if id >= |s.installs| || !s.installs[id].phase.Settled? then s
    else
      s.(active := s.active - {s.installs[id].package},
         installs := s.installs[id := s.installs[id].(phase := Done(s.installs[id].phase.status))])
  }

  // The signal of a merged request.
  function SignalWaiter(s: State, w: nat): State {
    if w < |s.waiters| then s.(waiters := s.waiters[w := s.waiters[w].(signalled := true)]) else s
  }

  // A merged request is answered with the shared result, or as aborted once its own signal was given.
  function Answer(s: State, w: nat, bySignal: bool): State {
    if w >= |s.waiters| || s.waiters[w].answered || s.waiters[w].on >= |s.installs| then s
    else
      var phase := s.installs[s.waiters[w].on].phase;
      if (if bySignal then s.waiters[w].signalled else phase.Settled? || phase.Done?) then
        s.(waiters := s.waiters[w := s.waiters[w].(answered := true)],
           events := s.events + [MergedResolved(w, if bySignal then WasAborted else phase.status)])
      else s
  }

  datatype Step =
    | Ask(runId: string, package: string, signalAborted: bool)
    | Approve(runId: string, id: nat, approved: bool)
    | UserCancel(runId: string, id: nat)
    | Signal(id: nat)
    | Timer(id: nat)
    | HostClose
    | DecisionCallback(id: nat)
    | PreparerDone(id: nat, status: Status)
    | CleanUp(id: nat)
    | WaiterSignal(w: nat)
    | WaiterWakes(w: nat, bySignal: bool)

  function Take(s: State, step: Step): State {
    match step
    case Ask(runId, package, signalAborted) => Request(s, runId, package, signalAborted)
    case Approve(runId, id, approved) => Resolve(s, runId, id, approved)
    case UserCancel(runId, id) => Cancel(s, runId, id)
    case Signal(id) => OnSignal(s, id)
    case Timer(id) => Timeout(s, id)
    case HostClose => AbortAll(s)
    case DecisionCallback(id) => ActOn(s, id)
    case PreparerDone(id, status) => PreparerEnds(s, id, status)
    case CleanUp(id) => Delete(s, id)
    case WaiterSignal(w) => SignalWaiter(s, w)
    case WaiterWakes(w, bySignal) => Answer(s, w, bySignal)
  }

  function TakeAll(s: State, steps: seq<Step>): State
    decreases steps
  {
    if steps == [] then s else TakeAll(Take(s, steps[0]), steps[1..])
  }

  // ----- the coordinator as it runs -----------------------------------------------------------------------------

  class Coordinator {
    var installs: seq<Install>
    var pending: map<nat, Pending>
    var active: map<string, nat>
    var waiters: seq<Waiter>
    var events: seq<Event>
    ghost var granted: set<nat>

    ghost function Contents(): State
      reads this
    {
      State(installs, pending, active, waiters, events, granted)
    }

    constructor ()
      ensures Contents() == EMPTY
    {
      installs, pending, active, waiters, events, granted := [], map[], map[], [], [], {};
    }

    method DecideRequest(id: nat, d: Decision)
      modifies this
      ensures Contents() == Decide(old(Contents()), id, d)
    {
      if id !in pending { return; }
      if pending[id].state == IsWaiting {
        if d == Approved {
          pending := pending[id := pending[id].(state := IsPreparing)];
        } else {
          pending := pending - {id};
        }
      }
      if id < |installs| && installs[id].phase == Waiting {
        installs := installs[id := installs[id].(phase := Decided(d))];
      }
    }

    method HandleSignal(id: nat)
      modifies this
      ensures Contents() == OnSignal(old(Contents()), id)
    {
      if id in pending && pending[id].state == IsPreparing {
        if id < |installs| { installs := installs[id := installs[id].(aborted := true)]; }
      } else {
        DecideRequest(id, Aborted);
      }
    }

    method RequestPackage(runId: string, package: string, signalAborted: bool)
      modifies this
      ensures Contents() == Request(old(Contents()), runId, package, signalAborted)
    {
      if package in active {
        waiters := waiters + [Waiter(active[package], false, signalAborted)];
        return;
      }
      var id := |installs|;
      installs := installs + [Install(runId, package, Waiting, false)];
      pending := pending[id := Pending(IsWaiting, false)];
      active := active[package := id];
      events := events + [Requested(id)];
      if signalAborted { HandleSignal(id); }
    }

    method ResolveRequest(runId: string, id: nat, approved: bool) returns (ok: bool)
      modifies this
      ensures Contents() == Resolve(old(Contents()), runId, id, approved)
      ensures ok && approved ==> granted == old(granted) + {id}
      ensures !ok ==> Contents() == old(Contents())
    {
      if id !in pending || id >= |installs| || installs[id].runId != runId || pending[id].state != IsWaiting {
        return false;
      }
      pending := pending[id := pending[id].(state := if approved then IsPreparing else IsFinishing)];
      if approved { granted := granted + {id}; }
      DecideRequest(id, if approved then Approved else Denied);
      return true;
    }

    method CancelRequest(runId: string, id: nat) returns (ok: bool)
      modifies this
      ensures Contents() == Cancel(old(Contents()), runId, id)
      ensures !ok ==> Contents() == old(Contents())
    {
      if id !in pending || id >= |installs| || installs[id].runId != runId || pending[id].cancelRequested
         || pending[id].state == IsFinishing {
        return false;
      }
      pending := pending[id := pending[id].(cancelRequested := true)];
      if pending[id].state == IsWaiting {
        pending := pending[id := pending[id].(state := IsFinishing)];
        DecideRequest(id, Aborted);
      } else {
        installs := installs[id := installs[id].(aborted := true)];
      }
      return true;
    }

    method AbortAllRequests()
      modifies this
      ensures Contents() == AbortAll(old(Contents()))
    {
      ghost var was := installs;
      for id := 0 to |installs|
        invariant |installs| == |was|
        invariant forall k :: 0 <= k < |was| ==>
          installs[k] == if k < id && k in pending then AbortedOne(was[k], pending[k]) else was[k]
        invariant pending == old(pending) && active == old(active) && waiters == old(waiters)
        invariant events == old(events) && granted == old(granted)
      {
        if id in pending { installs := installs[id := AbortedOne(installs[id], pending[id])]; }
      }
      pending := map[];
    }

    method FinishRequest(id: nat, status: Status)
      requires id < |installs|
      modifies this
      ensures Contents() == Finish(old(Contents()), id, status)
    {
      pending := pending - {id};
      events := events + [Resolved(id, status)];
      installs := installs[id := installs[id].(phase := Settled(status))];
    }

    method OnDecision(id: nat)
      modifies this
      ensures Contents() == ActOn(old(Contents()), id)
    {
      if id >= |installs| || !installs[id].phase.Decided? { return; }
      match installs[id].phase.decision {
        case Approved =>
          installs := installs[id := installs[id].(phase := Preparing)];
          events := events + [Started(id)];
        case Denied => FinishRequest(id, WasDenied);
        case Aborted => FinishRequest(id, WasAborted);
        case TimedOut => FinishRequest(id, WasTimedOut);
      }
    }
  }

  // ----- the invariant --------------------------------------------------------------------------------------------

  // Every install that is not done holds the entry of its package, so a package has at most one.
  ghost predicate ActiveOk(s: State) {
    && (forall id :: 0 <= id < |s.installs| && !s.installs[id].phase.Done? ==>
          s.installs[id].package in s.active && s.active[s.installs[id].package] == id)
    && (forall p :: p in s.active ==>
          s.active[p] < |s.installs| && s.installs[s.active[p]].package == p && !s.installs[s.active[p]].phase.Done?)
  }

  // What an open request's entry says about its phase.
  predicate EntryFits(i: Install, p: Pending) {
    match p.state
    case IsWaiting => i.phase == Waiting
    case IsPreparing => i.phase == Decided(Approved) || i.phase == Preparing
    case IsFinishing => i.phase.Decided? && i.phase.decision != Approved
  }

  ghost predicate PendingOk(s: State) {
    && (forall id :: id in s.pending ==> id < |s.installs| && EntryFits(s.installs[id], s.pending[id]))
    && (forall id :: 0 <= id < |s.installs| && s.installs[id].phase == Waiting ==> id in s.pending)
  }

  // Only a granted request is ever decided to be installed, or started.
  ghost predicate GrantsOk(s: State) {
    && (forall id :: id in s.granted ==> id < |s.installs|)
    && (forall id :: 0 <= id < |s.installs| && (s.installs[id].phase == Decided(Approved) || s.installs[id].phase == Preparing)
          ==> id in s.granted)
    && (forall k :: 0 <= k < |s.events| && s.events[k].Started? ==> s.events[k].id in s.granted)
  }

  datatype Mark = RequestOf(id: nat) | StartOf(id: nat) | ResolutionOf(id: nat) | AnswerOf(waiter: nat)

  function MarkOf(e: Event): Mark {
    match e
    case Requested(id) => RequestOf(id)
    case Started(id) => StartOf(id)
    case Resolved(id, _) => ResolutionOf(id)
    case MergedResolved(w, _) => AnswerOf(w)
  }

  function Count(events: seq<Event>, m: Mark): nat {
    if events == [] then 0 else Count(events[..|events| - 1], m) + if MarkOf(events[|events| - 1]) == m then 1 else 0
  }

  predicate Finished(p: Phase) { p.Settled? || p.Done? }

  function PhaseMark(p: Phase, m: Mark): nat {
    match m
    case RequestOf(_) => 1
    case StartOf(_) => if p == Preparing || Finished(p) then 1 else 0
    case ResolutionOf(_) => if Finished(p) then 1 else 0
    case AnswerOf(_) => 0
  }

  // How many events of a kind there are to be. A request that was not approved is finished without a start.
  function Expected(s: State, m: Mark): nat {
    match m
    case AnswerOf(w) => if w < |s.waiters| && s.waiters[w].answered then 1 else 0
    case _ => if m.id < |s.installs| then PhaseMark(s.installs[m.id].phase, m) else 0
  }

  ghost predicate CountFits(s: State, m: Mark) {
    if m.StartOf? then Count(s.events, m) <= Expected(s, m) else Count(s.events, m) == Expected(s, m)
  }

  // One requested event for every unmerged request, one resolved event once it is finished, at most one
  // start, one resolved event for every answered waiter, and none of them for what does not exist.
  ghost predicate EventsOk(s: State) {
    forall m: Mark :: CountFits(s, m)
  }

  ghost predicate Inv(s: State) { ActiveOk(s) && PendingOk(s) && GrantsOk(s) && EventsOk(s) }

  lemma EmptyInv()
    ensures Inv(EMPTY)
  {
  }

  lemma CountAppend(events: seq<Event>, e: Event, m: Mark)
    ensures Count(events + [e], m) == Count(events, m) + if MarkOf(e) == m then 1 else 0
  {
    assert (events + [e])[..|events|] == events;
  }

  // A step that changes the phase of one install, and logs the one event that goes with the change.
  lemma PhaseEvents(s: State, t: State, id: nat, e: Event)
    requires EventsOk(s) && id < |s.installs| == |t.installs| && t.events == s.events + [e] && t.waiters == s.waiters
    requires forall k :: 0 <= k < |s.installs| && k != id ==> t.installs[k].phase == s.installs[k].phase
    requires (MarkOf(e) == StartOf(id) && t.installs[id].phase == Preparing && s.installs[id].phase.Decided?)
      || (MarkOf(e) == ResolutionOf(id) && Finished(t.installs[id].phase) && !Finished(s.installs[id].phase))
    ensures EventsOk(t)
  {
    hide Count;
    forall m: Mark ensures CountFits(t, m) {
      assert CountFits(s, m);
      CountAppend(s.events, e, m);
    }
  }

  // A step that logs nothing and finishes or starts nothing.
  lemma QuietEvents(s: State, t: State)
    requires EventsOk(s) && |s.installs| == |t.installs| && t.events == s.events && t.waiters == s.waiters
    requires forall k :: 0 <= k < |s.installs| ==>
      t.installs[k].phase == s.installs[k].phase || SamePhaseMarks(s.installs[k].phase, t.installs[k].phase)
    ensures EventsOk(t)
  {
    hide Count;
    forall m: Mark ensures CountFits(t, m) {
      assert CountFits(s, m);
    }
  }

  predicate SamePhaseMarks(p: Phase, q: Phase) {
    (p == Waiting && q.Decided?) || (p.Settled? && q.Done?)
  }

  lemma DecideKeepsInv(s: State, id: nat, d: Decision)
    requires Inv(s) && (id in s.pending && s.pending[id].state == IsWaiting ==> d != Approved)
    ensures Inv(Decide(s, id, d))
  {
    QuietEvents(s, Decide(s, id, d));
  }

  // An accepted decision of a request whose entry was just moved on by hand.
  lemma HandledKeepsInv(s: State, id: nat, p: Pending, d: Decision)
    requires Inv(s) && id in s.pending && s.pending[id].state == IsWaiting
    requires p.state == if d == Approved then IsPreparing else IsFinishing
    ensures Inv(Decide(s.(pending := s.pending[id := p], granted := if d == Approved then s.granted + {id} else s.granted), id, d))
  {
    var t := Decide(s.(pending := s.pending[id := p], granted := if d == Approved then s.granted + {id} else s.granted), id, d);
    assert s.installs[id].phase == Waiting;
    QuietEvents(s, t);
  }

  lemma AbortKeepsInv(s: State, id: nat)
    requires Inv(s)
    ensures Inv(Abort(s, id))
  {
    QuietEvents(s, Abort(s, id));
  }

  lemma SignalKeepsInv(s: State, id: nat)
    requires Inv(s)
    ensures Inv(OnSignal(s, id))
  {
    hide Inv, Decide, Abort;
    AbortKeepsInv(s, id);
    if !(id in s.pending && s.pending[id].state == IsPreparing) { DecideKeepsInv(s, id, Aborted); }
  }

  lemma OpenedEvents(s: State, runId: string, package: string)
    requires EventsOk(s)
    ensures EventsOk(Opened(s, runId, package))
  {
    hide Count;
    var t := Opened(s, runId, package);
    forall m: Mark ensures CountFits(t, m) {
      assert CountFits(s, m);
      CountAppend(s.events, Requested(|s.installs|), m);
    }
  }

  lemma OpenedKeepsInv(s: State, runId: string, package: string)
    requires Inv(s) && package !in s.active
    ensures Inv(Opened(s, runId, package))
  {
    OpenedEvents(s, runId, package);
    hide EventsOk;
    var t := Opened(s, runId, package);
    assert forall k :: 0 <= k < |s.installs| ==> t.installs[k] == s.installs[k];
    assert ActiveOk(t);
    assert PendingOk(t);
  }

  lemma RequestKeepsInv(s: State, runId: string, package: string, signalAborted: bool)
    requires Inv(s)
    ensures Inv(Request(s, runId, package, signalAborted))
  {
    if package in s.active {
      var t := Request(s, runId, package, signalAborted);
      forall m: Mark ensures CountFits(t, m) { assert CountFits(s, m); }
    } else {
      hide Inv, OnSignal, Opened;
      OpenedKeepsInv(s, runId, package);
      SignalKeepsInv(Opened(s, runId, package), |s.installs|);
    }
  }

  lemma ResolveKeepsInv(s: State, runId: string, id: nat, approved: bool)
    requires Inv(s)
    ensures Inv(Resolve(s, runId, id, approved))
  {
    hide Inv, Decide;
    if Owns(s, runId, id) && s.pending[id].state == IsWaiting {
      HandledKeepsInv(s, id, s.pending[id].(state := if approved then IsPreparing else IsFinishing),
        if approved then Approved else Denied);
    }
  }

  lemma CancelKeepsInv(s: State, runId: string, id: nat)
    requires Inv(s)
    ensures Inv(Cancel(s, runId, id))
  {
    if Owns(s, runId, id) && !s.pending[id].cancelRequested && s.pending[id].state != IsFinishing {
      var p := s.pending[id].(cancelRequested := true);
      if p.state == IsWaiting {
        HandledKeepsInv(s, id, p.(state := IsFinishing), Aborted);
      } else {
        var t := s.(pending := s.pending[id := p]);
        assert Inv(t) by { QuietEvents(s, t); }
        AbortKeepsInv(t, id);
      }
    }
  }

  lemma AbortAllKeepsInv(s: State)
    requires Inv(s)
    ensures Inv(AbortAll(s))
  {
    QuietEvents(s, AbortAll(s));
  }

  lemma FinishKeepsInv(s: State, id: nat, status: Status)
    requires Inv(s) && id < |s.installs| && s.installs[id].phase != Waiting && !Finished(s.installs[id].phase)
    ensures Inv(Finish(s, id, status))
  {
    PhaseEvents(s, Finish(s, id, status), id, Resolved(id, status));
  }

  lemma ActKeepsInv(s: State, id: nat)
    requires Inv(s)
    ensures Inv(ActOn(s, id))
  {
    if id < |s.installs| && s.installs[id].phase.Decided? {
      if s.installs[id].phase.decision == Approved {
        PhaseEvents(s, ActOn(s, id), id, Started(id));
      } else {
        var status := match s.installs[id].phase.decision case Denied => WasDenied case Aborted => WasAborted case _ => WasTimedOut;
        FinishKeepsInv(s, id, status);
      }
    }
  }

  lemma DeleteKeepsInv(s: State, id: nat)
    requires Inv(s)
    ensures Inv(Delete(s, id))
  {
    if id < |s.installs| && s.installs[id].phase.Settled? { QuietEvents(s, Delete(s, id)); }
  }

  lemma AnswerKeepsInv(s: State, w: nat, bySignal: bool)
    requires Inv(s)
    ensures Inv(Answer(s, w, bySignal))
  {
    var t := Answer(s, w, bySignal);
    if t != s {
      forall m: Mark ensures CountFits(t, m) {
        assert CountFits(s, m);
        CountAppend(s.events, t.events[|s.events|], m);
      }
    }
  }

  lemma SignalWaiterKeepsInv(s: State, w: nat)
    requires Inv(s)
    ensures Inv(SignalWaiter(s, w))
  {
    hide Count;
    var t := SignalWaiter(s, w);
    forall m: Mark ensures CountFits(t, m) { assert CountFits(s, m); }
  }

  lemma TakeKeepsInv(s: State, step: Step)
    requires Inv(s)
    ensures Inv(Take(s, step))
  {
    hide Inv, Request, Resolve, Cancel, OnSignal, Timeout, AbortAll, ActOn, PreparerEnds, Delete, SignalWaiter, Answer;
    match step
    case Ask(runId, package, signalAborted) => RequestKeepsInv(s, runId, package, signalAborted);
    case Approve(runId, id, approved) => ResolveKeepsInv(s, runId, id, approved);
    case UserCancel(runId, id) => CancelKeepsInv(s, runId, id);
    case Signal(id) => SignalKeepsInv(s, id);
    case Timer(id) => TimeoutKeepsInv(s, id);
    case HostClose => AbortAllKeepsInv(s);
    case DecisionCallback(id) => ActKeepsInv(s, id);
    case PreparerDone(id, status) => PreparerKeepsInv(s, id, status);
    case CleanUp(id) => DeleteKeepsInv(s, id);
    case WaiterSignal(w) => SignalWaiterKeepsInv(s, w);
    case WaiterWakes(w, bySignal) => AnswerKeepsInv(s, w, bySignal);
  }

  lemma TimeoutKeepsInv(s: State, id: nat)
    requires Inv(s)
    ensures Inv(Timeout(s, id))
  {
    hide Inv, Decide;
    if id in s.pending && s.pending[id].state == IsWaiting { DecideKeepsInv(s, id, TimedOut); }
  }

  lemma PreparerKeepsInv(s: State, id: nat, status: Status)
    requires Inv(s)
    ensures Inv(PreparerEnds(s, id, status))
  {
    hide Inv, Finish;
    if id < |s.installs| && s.installs[id].phase == Preparing { FinishKeepsInv(s, id, status); }
  }

  lemma {:induction false} RunKeepsInv(s: State, steps: seq<Step>)
    requires Inv(s)
    ensures Inv(TakeAll(s, steps))
    decreases steps
  {
    hide Inv, Take;
    if steps != [] {
      TakeKeepsInv(s, steps[0]);
      RunKeepsInv(Take(s, steps[0]), steps[1..]);
    }
  }

  // ----- what holds in every schedule ----------------------------------------------------------------------------

  // For any schedule of requests, answers, cancels, timeouts, aborts and callbacks: two preparers never
  // work on one package at once; a preparer is started only for a request whose own approval was
  // accepted, and at most once; and every unmerged request has logged one requested event and, once it
  // is finished, one resolved event.
  lemma EverySchedule(steps: seq<Step>)
    ensures var s := TakeAll(EMPTY, steps);
      && (forall a, b :: 0 <= a < b < |s.installs| && s.installs[a].phase == Preparing && s.installs[b].phase == Preparing
            ==> s.installs[a].package != s.installs[b].package)
      && (forall k :: 0 <= k < |s.events| && s.events[k].Started? ==> s.events[k].id in s.granted)
      && (forall id :: 0 <= id < |s.installs| ==>
            && Count(s.events, RequestOf(id)) == 1
            && Count(s.events, StartOf(id)) <= 1
            && Count(s.events, ResolutionOf(id)) == if Finished(s.installs[id].phase) then 1 else 0)
  {
    EmptyInv();
    RunKeepsInv(EMPTY, steps);
    var s := TakeAll(EMPTY, steps);
    forall id | 0 <= id < |s.installs|
      ensures Count(s.events, RequestOf(id)) == 1 && Count(s.events, StartOf(id)) <= 1
      ensures Count(s.events, ResolutionOf(id)) == if Finished(s.installs[id].phase) then 1 else 0
    {
      assert CountFits(s, RequestOf(id)) && CountFits(s, StartOf(id)) && CountFits(s, ResolutionOf(id));
    }
  }

  // Cleaning up a finished install removes its own entry and no other, although it deletes by package.
  lemma DeleteRemovesOwnEntry(s: State, id: nat)
    requires Inv(s) && id < |s.installs| && s.installs[id].phase.Settled?
    ensures s.installs[id].package in s.active && s.active[s.installs[id].package] == id
    ensures forall p :: p in s.active && s.active[p] != id ==> p in Delete(s, id).active && Delete(s, id).active[p] == s.active[p]
  {
  }

  // A request that is still open can always be decided: nothing but the steps of its own decision takes
  // away its entry, so it cannot be left waiting with nobody able to answer.
  lemma OpenRequestsStayOpen(steps: seq<Step>, id: nat)
    requires id < |TakeAll(EMPTY, steps).installs| && TakeAll(EMPTY, steps).installs[id].phase == Waiting
    ensures var s := TakeAll(EMPTY, steps);
      && id in s.pending && s.pending[id].state == IsWaiting
      && Resolve(s, s.installs[id].runId, id, true).installs[id].phase == Decided(Approved)
      && Timeout(s, id).installs[id].phase == Decided(TimedOut)
  {
    EmptyInv();
    RunKeepsInv(EMPTY, steps);
  }

  // ----- merged requests share the result -----------------------------------------------------------------------

  // A merged request was answered with the status of the install it was merged into, or as aborted after its
  // own signal.
  ghost predicate AnswerFits(s: State, w: nat, status: Status) {
    && w < |s.waiters| && s.waiters[w].on < |s.installs|
    && var phase := s.installs[s.waiters[w].on].phase;
       (status == WasAborted && s.waiters[w].signalled) || (Finished(phase) && phase.status == status)
  }

  ghost predicate AnswersFit(s: State) {
    forall k :: 0 <= k < |s.events| && s.events[k].MergedResolved? ==> AnswerFits(s, s.events[k].waiter, s.events[k].status)
  }

  // A step keeps what waiters wait for and how installs ended, and logs no answer that does not fit.
  ghost predicate KeepsAnswers(s: State, t: State) {
    && |s.waiters| <= |t.waiters| && (forall w :: 0 <= w < |s.waiters| ==>
          t.waiters[w].on == s.waiters[w].on && (s.waiters[w].signalled ==> t.waiters[w].signalled))
    && |s.installs| <= |t.installs|
    && (forall i :: 0 <= i < |s.installs| && Finished(s.installs[i].phase) ==>
          Finished(t.installs[i].phase) && t.installs[i].phase.status == s.installs[i].phase.status)
    && |s.events| <= |t.events| && t.events[..|s.events|] == s.events
    && (forall k :: |s.events| <= k < |t.events| && t.events[k].MergedResolved? ==>
          AnswerFits(t, t.events[k].waiter, t.events[k].status))
  }

  lemma DecideKeepsAnswers(s: State, id: nat, d: Decision)
    ensures KeepsAnswers(s, Decide(s, id, d)) && Decide(s, id, d).events == s.events
  {
    hide AnswerFits;
  }

  lemma RequestKeepsAnswers(s: State, runId: string, package: string, signalAborted: bool)
    ensures KeepsAnswers(s, Request(s, runId, package, signalAborted))
  {
    hide AnswerFits, Decide;
    if package !in s.active { DecideKeepsAnswers(Opened(s, runId, package), |s.installs|, Aborted); }
  }

  lemma ResolveKeepsAnswers(s: State, runId: string, id: nat, approved: bool)
    ensures KeepsAnswers(s, Resolve(s, runId, id, approved))
  {
    hide Decide;
    if Owns(s, runId, id) && s.pending[id].state == IsWaiting {
      var p := s.pending[id].(state := if approved then IsPreparing else IsFinishing);
      var granted := if approved then s.granted + {id} else s.granted;
      DecideKeepsAnswers(s.(pending := s.pending[id := p], granted := granted), id, if approved then Approved else Denied);
    }
  }

  lemma CancelKeepsAnswers(s: State, runId: string, id: nat)
    ensures KeepsAnswers(s, Cancel(s, runId, id))
  {
    hide Decide;
    if Owns(s, runId, id) && s.pending[id].state == IsWaiting {
      var p := s.pending[id].(cancelRequested := true, state := IsFinishing);
      DecideKeepsAnswers(s.(pending := s.pending[id := p]), id, Aborted);
    }
  }

  lemma CallbacksKeepAnswers(s: State, id: nat, status: Status)
    ensures KeepsAnswers(s, AbortAll(s)) && KeepsAnswers(s, ActOn(s, id))
    ensures KeepsAnswers(s, PreparerEnds(s, id, status)) && KeepsAnswers(s, Delete(s, id))
  {
    hide AnswerFits;
  }

  lemma WaitersKeepAnswers(s: State, w: nat, bySignal: bool)
    ensures KeepsAnswers(s, SignalWaiter(s, w)) && KeepsAnswers(s, Answer(s, w, bySignal))
  {
  }

  lemma SignalKeepsAnswers(s: State, id: nat)
    ensures KeepsAnswers(s, OnSignal(s, id)) && KeepsAnswers(s, Timeout(s, id))
  {
    hide Decide;
    DecideKeepsAnswers(s, id, Aborted);
    DecideKeepsAnswers(s, id, TimedOut);
  }

  lemma TakeKeepsAnswers(s: State, step: Step)
    ensures KeepsAnswers(s, Take(s, step))
  {
    hide KeepsAnswers, Request, Resolve, Cancel, OnSignal, Timeout, AbortAll, ActOn, PreparerEnds, Delete, SignalWaiter, Answer;
    match step
    case Ask(runId, package, signalAborted) => RequestKeepsAnswers(s, runId, package, signalAborted);
    case Approve(runId, id, approved) => ResolveKeepsAnswers(s, runId, id, approved);
    case UserCancel(runId, id) => CancelKeepsAnswers(s, runId, id);
    case Signal(id) => SignalKeepsAnswers(s, id);
    case Timer(id) => SignalKeepsAnswers(s, id);
    case HostClose => CallbacksKeepAnswers(s, 0, Prepared);
    case DecisionCallback(id) => CallbacksKeepAnswers(s, id, Prepared);
    case PreparerDone(id, status) => CallbacksKeepAnswers(s, id, status);
    case CleanUp(id) => CallbacksKeepAnswers(s, id, Prepared);
    case WaiterSignal(w) => WaitersKeepAnswers(s, w, false);
    case WaiterWakes(w, bySignal) => WaitersKeepAnswers(s, w, bySignal);
  }

  lemma AnswersCarryOver(s: State, t: State)
    requires AnswersFit(s) && KeepsAnswers(s, t)
    ensures AnswersFit(t)
  {
    forall k | 0 <= k < |t.events| && t.events[k].MergedResolved?
      ensures AnswerFits(t, t.events[k].waiter, t.events[k].status)
    {
      if k < |s.events| {
        assert t.events[k] == s.events[k];
        assert AnswerFits(s, s.events[k].waiter, s.events[k].status);
      }
    }
  }

  lemma {:induction false} AnswersStayFit(s: State, steps: seq<Step>)
    requires AnswersFit(s)
    ensures AnswersFit(TakeAll(s, steps))
    decreases steps
  {
    if steps != [] {
      hide Take, AnswersFit, KeepsAnswers;
      TakeKeepsAnswers(s, steps[0]);
      AnswersCarryOver(s, Take(s, steps[0]));
      AnswersStayFit(Take(s, steps[0]), steps[1..]);
    }
  }

  // In every schedule a request merged into an install is answered with the very result of that install, or
  // as aborted after its own signal, and stays so: an install never changes the result it ended with.
  lemma MergedShareTheResult(steps: seq<Step>)
    ensures AnswersFit(TakeAll(EMPTY, steps))
  {
    AnswersStayFit(EMPTY, steps);
  }
}
