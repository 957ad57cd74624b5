// Which result a request for a host package is resolved with, told from the schedule
// (src/host/toolchain-preparation-coordinator.ts:105-260).
module ToolchainResults {
  import opened Optional
  import opened Toolchain

  // The decision a step offers to a request.
  function Offers(step: Step, id: nat): Option<Decision> {
    match step
    case Approve(_, i, approved) => if i == id then Some(if approved then Approved else Denied) else None
    case UserCancel(_, i) => if i == id then Some(Aborted) else None
    case Signal(i) => if i == id then Some(Aborted) else None
    case Timer(i) => if i == id then Some(TimedOut) else None
    case HostClose => Some(Aborted)
    case Ask(_, _, signalAborted) => if signalAborted then Some(Aborted) else None
    case _ => None
  }

  // A request is approved, denied or cancelled only on behalf of its own run.
  predicate ByOwner(step: Step, runId: string) {
    (step.Approve? || step.UserCancel? || step.Ask?) ==> step.runId == runId
  }

  predicate IsOpen(s: State, id: nat) { id >= |s.installs| || s.installs[id].phase == Waiting }

  // The step is the decision that counts.
  predicate Decides(s: State, step: Step, id: nat) { IsOpen(s, id) && !IsOpen(Take(s, step), id) }

  function StatusOf(d: Decision): Status
    requires d != Approved
  {
    match d
    case Denied => WasDenied
    case Aborted => WasAborted
    case TimedOut => WasTimedOut
  }

  // How the phase of a request may change with a step.
  predicate Moves(s: State, step: Step, id: nat)
    requires id < |Take(s, step).installs|
  {
    var t := Take(s, step);
    var q := t.installs[id].phase;
    if IsOpen(s, id) then
      q == Waiting || (q.Decided? && Offers(step, id) == Some(q.decision) && ByOwner(step, t.installs[id].runId))
    else
      var p := s.installs[id].phase;
      && t.installs[id].runId == s.installs[id].runId
      && (|| q == p
          || (p == Decided(Approved) && q == Preparing && t.events == s.events + [Started(id)])
          || (p.Decided? && p.decision != Approved && q == Settled(StatusOf(p.decision)))
          || (p == Preparing && q.Settled? && step == PreparerDone(id, q.status))
          || (p.Settled? && q == Done(p.status)))
  }

  lemma RequestMoves(s: State, step: Step, id: nat)
    requires (step.Ask? || step.Approve? || step.UserCancel? || step.Signal? || step.Timer? || step.HostClose?)
    requires id < |Take(s, step).installs|
    ensures Moves(s, step, id) && |s.installs| <= |Take(s, step).installs|
  {
  }

  lemma CallbackMoves(s: State, step: Step, id: nat)
    requires !(step.Ask? || step.Approve? || step.UserCancel? || step.Signal? || step.Timer? || step.HostClose?)
    requires id < |Take(s, step).installs|
    ensures Moves(s, step, id) && |s.installs| == |Take(s, step).installs|
  {
  }

  lemma AllMove(s: State, step: Step)
    ensures var t := Take(s, step);
      |s.installs| <= |t.installs| && forall id :: 0 <= id < |t.installs| ==> Moves(s, step, id)
  {
    var t := Take(s, step);
    NoFewer(s, step);
    hide Take, Moves;
    forall id | 0 <= id < |t.installs| ensures Moves(s, step, id) {
      if step.Ask? || step.Approve? || step.UserCancel? || step.Signal? || step.Timer? || step.HostClose? {
        RequestMoves(s, step, id);
      } else {
        CallbackMoves(s, step, id);
      }
    }
  }

  lemma NoFewer(s: State, step: Step)
    ensures |s.installs| <= |Take(s, step).installs|
  {
  }

  // A result is logged when the request gets it, and never again.
  predicate LogsWhatHappens(s: State, step: Step) {
    var t := Take(s, step);
    || t.events == s.events
    || (t.events != [] && t.events == s.events + [t.events[|t.events| - 1]]
        && var e := t.events[|t.events| - 1];
           e.Resolved? ==> e.id < |s.installs| && e.id < |t.installs| && !Finished(s.installs[e.id].phase)
                           && t.installs[e.id].phase == Settled(e.status))
  }

  lemma LogMoves(s: State, step: Step)
    ensures LogsWhatHappens(s, step)
  {
  }

  // ----- schedules --------------------------------------------------------------------------------------------

  lemma {:induction false} OneMore(s: State, steps: seq<Step>, step: Step)
    ensures TakeAll(s, steps + [step]) == Take(TakeAll(s, steps), step)
    decreases steps
  {
    if steps == [] {
      assert [] + [step] == [step] && [step][1..] == [];
      assert TakeAll(s, [step]) == TakeAll(Take(s, step), []);
    } else {
      assert (steps + [step])[1..] == steps[1..] + [step];
      OneMore(Take(s, steps[0]), steps[1..], step);
    }
  }

  // The step that decided the request; every later decision is ignored.
  function DecidedBy(steps: seq<Step>, id: nat): Option<Step> {
    if steps == [] then None
    else
      var before, step := steps[..|steps| - 1], steps[|steps| - 1];
      if DecidedBy(before, id).Some? then DecidedBy(before, id)
      else if Decides(TakeAll(EMPTY, before), step, id) then Some(step) else None
  }

  lemma DecidedByMore(steps: seq<Step>, step: Step, id: nat)
    ensures DecidedBy(steps + [step], id) ==
      if DecidedBy(steps, id).Some? then DecidedBy(steps, id)
      else if Decides(TakeAll(EMPTY, steps), step, id) then Some(step) else None
  {
    assert (steps + [step])[..|steps|] == steps;
  }

  // The decision was offered to this very request, by its own run.
  predicate Proper(decider: Option<Step>, id: nat, runId: string) {
    decider.Some? && Offers(decider.value, id).Some? && ByOwner(decider.value, runId)
  }

  // A request ends with what it was decided to be, or after an approval with what its preparer reported.
  predicate ResultFits(steps: seq<Step>, id: nat, runId: string, status: Status) {
    var decider := DecidedBy(steps, id);
    && Proper(decider, id, runId)
    && match Offers(decider.value, id).value
       case Denied => status == WasDenied
       case Aborted => status == WasAborted
       case TimedOut => status == WasTimedOut
       case Approved => PreparerDone(id, status) in steps
  }

  predicate PhaseFits(steps: seq<Step>, s: State, id: nat)
    requires id < |s.installs|
  {
    var i, decider := s.installs[id], DecidedBy(steps, id);
    match i.phase
    case Waiting => decider.None?
    case Decided(d) => Proper(decider, id, i.runId) && Offers(decider.value, id) == Some(d)
    case Preparing => Proper(decider, id, i.runId) && Offers(decider.value, id) == Some(Approved) && Started(id) in s.events
    case Settled(status) => ResultFits(steps, id, i.runId, status) && StartedIfApproved(decider, id, s.events)
    case Done(status) => ResultFits(steps, id, i.runId, status) && StartedIfApproved(decider, id, s.events)
  }

  predicate StartedIfApproved(decider: Option<Step>, id: nat, events: seq<Event>) {
    decider.Some? && Offers(decider.value, id) == Some(Approved) ==> Started(id) in events
  }

  ghost predicate EventFits(steps: seq<Step>, s: State, k: nat)
    requires k < |s.events| && s.events[k].Resolved?
  {
    var id := s.events[k].id;
    && id < |s.installs| && Finished(s.installs[id].phase) && s.installs[id].phase.status == s.events[k].status
    && StartedIfApproved(DecidedBy(steps, id), id, s.events[..k])
  }

  ghost predicate History(steps: seq<Step>, s: State) {
    && (forall id :: 0 <= id < |s.installs| ==> PhaseFits(steps, s, id))
    && (forall id :: id >= |s.installs| ==> DecidedBy(steps, id).None?)
    && (forall k :: 0 <= k < |s.events| && s.events[k].Resolved? ==> EventFits(steps, s, k))
  }

  lemma PhaseStep(steps: seq<Step>, s: State, step: Step, id: nat)
    requires s == TakeAll(EMPTY, steps) && id < |Take(s, step).installs| && Moves(s, step, id)
    requires if id < |s.installs| then PhaseFits(steps, s, id) else DecidedBy(steps, id).None?
    requires LogsWhatHappens(s, step)
    ensures PhaseFits(steps + [step], Take(s, step), id)
  {
    hide Take, TakeAll, DecidedBy;
    DecidedByMore(steps, step, id);
    var t := Take(s, step);
    assert forall e :: e in s.events ==> e in t.events;
    assert step in steps + [step];
  }

  lemma EventStep(steps: seq<Step>, s: State, step: Step, k: nat)
    requires s == TakeAll(EMPTY, steps) && History(steps, s) && LogsWhatHappens(s, step)
    requires |s.installs| <= |Take(s, step).installs| && forall id :: 0 <= id < |Take(s, step).installs| ==> Moves(s, step, id)
    requires k < |Take(s, step).events| && Take(s, step).events[k].Resolved?
    ensures EventFits(steps + [step], Take(s, step), k)
  {
    hide Take, TakeAll, DecidedBy;
    var t := Take(s, step);
    var id := t.events[k].id;
    DecidedByMore(steps, step, id);
    if k < |s.events| {
      assert t.events[k] == s.events[k] && t.events[..k] == s.events[..k];
      assert EventFits(steps, s, k);
    } else {
      assert t.events[..k] == s.events;
    }
    assert PhaseFits(steps, s, id) && Moves(s, step, id);
  }

  lemma HistoryStep(steps: seq<Step>, step: Step)
    requires History(steps, TakeAll(EMPTY, steps))
    ensures History(steps + [step], TakeAll(EMPTY, steps + [step]))
  {
    OneMore(EMPTY, steps, step);
    var s := TakeAll(EMPTY, steps);
    AllMove(s, step);
    LogMoves(s, step);
    var t := Take(s, step);
    forall id | 0 <= id < |t.installs| ensures PhaseFits(steps + [step], t, id) {
      hide Take, TakeAll, PhaseFits, DecidedBy, Moves;
      PhaseStep(steps, s, step, id);
    }
    forall k | 0 <= k < |t.events| && t.events[k].Resolved? ensures EventFits(steps + [step], t, k) {
      hide Take, TakeAll, EventFits, DecidedBy, Moves;
      EventStep(steps, s, step, k);
    }
    forall id | id >= |t.installs| ensures DecidedBy(steps + [step], id).None? {
      hide Take, TakeAll, DecidedBy;
      DecidedByMore(steps, step, id);
    }
  }

  lemma {:induction false} HistoryHolds(steps: seq<Step>)
    ensures History(steps, TakeAll(EMPTY, steps))
  {
    if steps != [] {
      hide History;
      var before := steps[..|steps| - 1];
      HistoryHolds(before);
      HistoryStep(before, steps[|steps| - 1]);
      assert steps == before + [steps[|steps| - 1]];
    }
  }

  // In every schedule a request is resolved with what the first decision accepted for it was, denied, aborted
  // or timed out; after an approval with exactly what its preparer ended with, which had been started before.
  lemma ResolvedAsDecided(steps: seq<Step>)
    ensures var events := TakeAll(EMPTY, steps).events;
      forall k :: 0 <= k < |events| && events[k].Resolved? ==>
        var id, status, decider := events[k].id, events[k].status, DecidedBy(steps, events[k].id);
        && decider.Some? && Offers(decider.value, id).Some?
        && match Offers(decider.value, id).value
           case Denied => status == WasDenied
           case Aborted => status == WasAborted
           case TimedOut => status == WasTimedOut
           case Approved => PreparerDone(id, status) in steps && Started(id) in events[..k]
  {
    HistoryHolds(steps);
    hide TakeAll, DecidedBy;
    var s := TakeAll(EMPTY, steps);
    forall k | 0 <= k < |s.events| && s.events[k].Resolved?
      ensures ResultFits(steps, s.events[k].id, s.installs[s.events[k].id].runId, s.events[k].status)
    {
      assert EventFits(steps, s, k) && PhaseFits(steps, s, s.events[k].id);
    }
  }

  // So a request that is resolved as prepared was approved by its own run, and started.
  lemma PreparedWasApproved(steps: seq<Step>, id: nat)
    requires Resolved(id, Prepared) in TakeAll(EMPTY, steps).events
    ensures var s := TakeAll(EMPTY, steps);
      && id < |s.installs| && Approve(s.installs[id].runId, id, true) in steps
      && PreparerDone(id, Prepared) in steps && Started(id) in s.events && id in s.granted
  {
    HistoryHolds(steps);
    EverySchedule(steps);
    DeciderIsAStep(steps, id);
    hide TakeAll, DecidedBy, Count;
    var s := TakeAll(EMPTY, steps);
    var k :| 0 <= k < |s.events| && s.events[k] == Resolved(id, Prepared);
    assert EventFits(steps, s, k) && PhaseFits(steps, s, id);
    var j :| 0 <= j < |s.events| && s.events[j] == Started(id);
  }

  lemma {:induction false} DeciderIsAStep(steps: seq<Step>, id: nat)
    ensures DecidedBy(steps, id).Some? ==> DecidedBy(steps, id).value in steps
  {
    if steps != [] { DeciderIsAStep(steps[..|steps| - 1], id); }
  }

  // ----- open requests take decisions, approved ones take aborts -----------------------------------------------

  predicate InProgress(p: Phase) { p == Decided(Approved) || p == Preparing }

  // An entry that waits was not cancelled; a cancel, or a lost entry, of a request in progress has aborted it.
  predicate Cancels(s: State, id: nat) {
    id < |s.installs| ==>
      var i := s.installs[id];
      && (i.phase == Waiting ==> !i.aborted)
      && (id in s.pending && s.pending[id].cancelRequested ==> s.pending[id].state != IsWaiting && (InProgress(i.phase) ==> i.aborted))
      && (id !in s.pending && InProgress(i.phase) ==> i.aborted)
  }

  // The entry of the request fits its phase.
  predicate Fits(s: State, id: nat) {
    && (id in s.pending ==> id < |s.installs| && EntryFits(s.installs[id], s.pending[id]))
    && (id < |s.installs| && s.installs[id].phase == Waiting ==> id in s.pending)
  }

  lemma AllFit(s: State, id: nat)
    requires PendingOk(s)
    ensures Fits(s, id)
  {
  }

  // The step tells a request in progress to give up.
  predicate Aborts(s: State, step: Step, id: nat) {
    && id < |s.installs| && InProgress(s.installs[id].phase)
    && !step.Ask? && Offers(step, id) == Some(Aborted) && ByOwner(step, s.installs[id].runId)
  }

  predicate IsAborted(s: State, id: nat) { id < |s.installs| && s.installs[id].aborted }

  // A request is told to give up by such a step only, and an offer to an open request is accepted.
  predicate Answers(s: State, step: Step, id: nat) {
    var t := Take(s, step);
    && Cancels(t, id)
    && (IsAborted(t, id) <==> IsAborted(s, id) || Aborts(s, step, id))
    && (id < |s.installs| && s.installs[id].phase == Waiting && !step.Ask? && ByOwner(step, s.installs[id].runId)
        && Offers(step, id).Some? ==>
          id < |t.installs| && t.installs[id].phase == Decided(Offers(step, id).value))
  }

  lemma ApproveAnswers(s: State, runId: string, i: nat, approved: bool, id: nat)
    requires Fits(s, id) && Cancels(s, id)
    ensures Answers(s, Approve(runId, i, approved), id)
  {
  }

  lemma CancelAnswers(s: State, runId: string, i: nat, id: nat)
    requires Fits(s, id) && Cancels(s, id)
    ensures Answers(s, UserCancel(runId, i), id)
  {
  }

  lemma SignalAnswers(s: State, i: nat, id: nat)
    requires Fits(s, id) && Cancels(s, id)
    ensures Answers(s, Signal(i), id) && Answers(s, Timer(i), id)
  {
  }

  lemma AskAnswers(s: State, runId: string, package: string, signalAborted: bool, id: nat)
    requires Fits(s, id) && Cancels(s, id)
    ensures Answers(s, Ask(runId, package, signalAborted), id)
  {
  }

  lemma CloseAnswers(s: State, id: nat)
    requires Fits(s, id) && Cancels(s, id)
    ensures Answers(s, HostClose, id)
  {
  }

  lemma CallbackAnswers(s: State, step: Step, id: nat)
    requires Fits(s, id) && Cancels(s, id)
    requires !(step.Ask? || step.Approve? || step.UserCancel? || step.Signal? || step.Timer? || step.HostClose?)
    ensures Answers(s, step, id)
  {
  }

  lemma StepAnswers(s: State, step: Step, id: nat)
    requires Fits(s, id) && Cancels(s, id)
    ensures Answers(s, step, id)
  {
    hide Fits, Cancels, Answers;
    match step
    case Ask(runId, package, signalAborted) => AskAnswers(s, runId, package, signalAborted, id);
    case Approve(runId, i, approved) => ApproveAnswers(s, runId, i, approved, id);
    case UserCancel(runId, i) => CancelAnswers(s, runId, i, id);
    case Signal(i) => SignalAnswers(s, i, id);
    case Timer(i) => SignalAnswers(s, i, id);
    case HostClose => CloseAnswers(s, id);
    case _ => CallbackAnswers(s, step, id);
  }

  ghost predicate AbortAsked(steps: seq<Step>, id: nat) {
    exists k :: 0 <= k < |steps| && Aborts(TakeAll(EMPTY, steps[..k]), steps[k], id)
  }

  lemma AbortAskedMore(steps: seq<Step>, step: Step, id: nat)
    ensures AbortAsked(steps + [step], id) <==> AbortAsked(steps, id) || Aborts(TakeAll(EMPTY, steps), step, id)
  {
    hide TakeAll, Aborts;
    var more := steps + [step];
    assert more[..|steps|] == steps && more[|steps|] == step;
    assert forall k :: 0 <= k < |steps| ==> more[..k] == steps[..k] && more[k] == steps[k];
  }

  lemma FitsAfter(steps: seq<Step>, id: nat)
    ensures Inv(TakeAll(EMPTY, steps)) && Fits(TakeAll(EMPTY, steps), id)
  {
    EmptyInv();
    RunKeepsInv(EMPTY, steps);
    AllFit(TakeAll(EMPTY, steps), id);
  }

  // In every schedule a preparer is told to give up exactly when, between the approval and the result, its run
  // cancelled the request, its signal was given or the host closed.
  lemma {:induction false} AbortedIffAsked(steps: seq<Step>, id: nat)
    ensures Cancels(TakeAll(EMPTY, steps), id)
    ensures IsAborted(TakeAll(EMPTY, steps), id) <==> AbortAsked(steps, id)
  {
    if steps != [] {
      var before, step := steps[..|steps| - 1], steps[|steps| - 1];
      assert steps == before + [step];
      var s := TakeAll(EMPTY, before);
      AbortedIffAsked(before, id);
      OneMore(EMPTY, before, step);
      AbortAskedMore(before, step, id);
      hide TakeAll, Take, Inv, Cancels, IsAborted, AbortAsked, Aborts;
      FitsAfter(before, id);
      StepAnswers(s, step, id);
    }
  }

  // An open request takes the first decision that is offered to it, whichever it is.
  lemma OpenTakesTheOffer(steps: seq<Step>, step: Step, id: nat)
    requires var s := TakeAll(EMPTY, steps);
      && id < |s.installs| && s.installs[id].phase == Waiting
      && !step.Ask? && Offers(step, id).Some? && ByOwner(step, s.installs[id].runId)
    ensures DecidedBy(steps + [step], id) == Some(step)
    ensures var t := TakeAll(EMPTY, steps + [step]);
      id < |t.installs| && t.installs[id].phase == Decided(Offers(step, id).value)
  {
    var s := TakeAll(EMPTY, steps);
    EmptyInv();
    RunKeepsInv(EMPTY, steps);
    AllFit(s, id);
    AbortedIffAsked(steps, id);
    HistoryHolds(steps);
    assert PhaseFits(steps, s, id);
    hide TakeAll, Take, Inv, DecidedBy, History, AbortAsked;
    StepAnswers(s, step, id);
    OneMore(EMPTY, steps, step);
    DecidedByMore(steps, step, id);
  }

  // ----- which requests are merged ------------------------------------------------------------------------------

  // In every schedule a request joins the install of its package that has not been cleaned up, of which there
  // is at most one; without one it opens an install of its own.
  lemma AskMergesIff(steps: seq<Step>, runId: string, package: string, signalAborted: bool)
    ensures var s, t := TakeAll(EMPTY, steps), TakeAll(EMPTY, steps + [Ask(runId, package, signalAborted)]);
      && (forall id :: 0 <= id < |s.installs| && s.installs[id].package == package && !s.installs[id].phase.Done? ==>
            t == s.(waiters := s.waiters + [Waiter(id, false, signalAborted)]))
      && ((forall id :: 0 <= id < |s.installs| && s.installs[id].package == package ==> s.installs[id].phase.Done?) ==>
            && |t.installs| == |s.installs| + 1 && t.installs[..|s.installs|] == s.installs && t.waiters == s.waiters
            && t.installs[|s.installs|] == Install(runId, package, if signalAborted then Decided(Aborted) else Waiting, false)
            && t.events == s.events + [Requested(|s.installs|)])
  {
    var s := TakeAll(EMPTY, steps);
    EmptyInv();
    RunKeepsInv(EMPTY, steps);
    OneMore(EMPTY, steps, Ask(runId, package, signalAborted));
    assert ActiveOk(s);
    hide TakeAll, EventsOk, PendingOk, GrantsOk;
  }

  // ----- when merged requests are answered ------------------------------------------------------------------------

  // The signal of this merged request is given, when it asks or later.
  predicate SignalsWaiter(s: State, step: Step, w: nat) {
    match step
    case WaiterSignal(v) => v == w < |s.waiters|
    case Ask(_, package, signalAborted) => package in s.active && w == |s.waiters| && signalAborted
    case _ => false
  }

  ghost predicate SignalGiven(steps: seq<Step>, w: nat) {
    exists k :: 0 <= k < |steps| && SignalsWaiter(TakeAll(EMPTY, steps[..k]), steps[k], w)
  }

  lemma SignalGivenMore(steps: seq<Step>, step: Step, w: nat)
    ensures SignalGiven(steps + [step], w) <==> SignalGiven(steps, w) || SignalsWaiter(TakeAll(EMPTY, steps), step, w)
  {
    hide TakeAll, SignalsWaiter;
    var more := steps + [step];
    assert more[..|steps|] == steps && more[|steps|] == step;
    assert forall k :: 0 <= k < |steps| ==> more[..k] == steps[..k] && more[k] == steps[k];
  }

  predicate IsSignalled(s: State, w: nat) { w < |s.waiters| && s.waiters[w].signalled }

  lemma StepSignals(s: State, step: Step, w: nat)
    ensures IsSignalled(Take(s, step), w) <==> IsSignalled(s, w) || SignalsWaiter(s, step, w)
  {
  }

  lemma {:induction false} SignalledIffGiven(steps: seq<Step>, w: nat)
    ensures IsSignalled(TakeAll(EMPTY, steps), w) <==> SignalGiven(steps, w)
  {
    if steps != [] {
      var before, step := steps[..|steps| - 1], steps[|steps| - 1];
      assert steps == before + [step];
      SignalledIffGiven(before, w);
      OneMore(EMPTY, before, step);
      SignalGivenMore(before, step, w);
      hide TakeAll, Take, SignalGiven, SignalsWaiter, IsSignalled;
      StepSignals(TakeAll(EMPTY, before), step, w);
    }
  }

  // In every schedule a merged request that has not been answered is answered with the status of its install
  // exactly once that is finished, and as aborted exactly once its own signal was given.
  lemma WaiterIsAnsweredIff(steps: seq<Step>, w: nat)
    requires w < |TakeAll(EMPTY, steps).waiters| && !TakeAll(EMPTY, steps).waiters[w].answered
    requires TakeAll(EMPTY, steps).waiters[w].on < |TakeAll(EMPTY, steps).installs|
    ensures var s := TakeAll(EMPTY, steps);
      var phase := s.installs[s.waiters[w].on].phase;
      && Take(s, WaiterWakes(w, false)).events == (if Finished(phase) then s.events + [MergedResolved(w, phase.status)] else s.events)
      && Take(s, WaiterWakes(w, true)).events == (if SignalGiven(steps, w) then s.events + [MergedResolved(w, WasAborted)] else s.events)
  {
    SignalledIffGiven(steps, w);
    hide TakeAll, SignalGiven;
  }
}
