// What runs log and how they end, told from the steps alone (src/host/run-lifecycle-service.ts:281-505, 597-634,
// 870-925).
module RunEnds {
  import opened Optional
  import opened RunLifecycle

  // The steps since a start or an accepted resume: whether an execution was started there, and whether the start
  // was written.
  datatype Era = Era(started: bool, stored: bool, steps: seq<Step>)

  function Longer(era: Era, step: Step): Era { era.(steps := era.steps + [step]) }

  function NextEras(h: Host, eras: seq<Era>, step: Step): (r: seq<Era>)
    requires eras != []
    ensures r != []
  {
    var n := |eras| - 1;
    if Resumes(h, step) then eras + [Era(true, step.stores, [])] else eras[n := Longer(eras[n], step)]
  }

  // One era for every epoch of the log.
  function Eras(r: Run, eras: seq<Era>, steps: seq<Step>): seq<Era>
    requires r.epochs != [] && eras != []
    decreases steps
  {
    if steps == [] then eras else Eras(Advance(r, steps[0]), NextEras(r.host, eras, steps[0]), steps[1..])
  }

  // ----- what the steps of an era come to -----------------------------------------------------------------------

  ghost predicate Restarted(era: Era) { exists k :: 0 <= k < |era.steps| && era.steps[k].HostRestart? }

  predicate Marks(step: Step) { step.HostRestart? && step.updates }

  ghost predicate Interrupts(era: Era) { exists k :: 0 <= k < |era.steps| && Marks(era.steps[k]) }

  ghost predicate AgentEnded(era: Era) { exists k :: 0 <= k < |era.steps| && era.steps[k].AgentEnd? }

  predicate AsksToStop(step: Step) { step.UserStop? || step.HostClose? }

  ghost predicate StopAsked(era: Era) { exists k :: 0 <= k < |era.steps| && AsksToStop(era.steps[k]) }

  // How a run ends with this step, if it has not ended before.
  ghost function Ending(era: Era, step: Step): Option<Status> {
    if Restarted(era) then None
    else
      match step
      case HostClose(stores) => if stores then Some(Stopped) else None
      case UserStop(_, stores) => if stores && !era.started then Some(Stopped) else None
      case AgentEnd(outcome, stores) =>
        if !stores || !era.started || AgentEnded(era) then None
        else if StopAsked(era) || outcome == StopRequested then Some(Stopped)
        else Some(if outcome == Resolved then Completed else Failed)
      case _ => None
  }

  function Before(era: Era): Era
    requires era.steps != []
  {
    era.(steps := era.steps[..|era.steps| - 1])
  }

  function Last(era: Era): Step
    requires era.steps != []
  {
    era.steps[|era.steps| - 1]
  }

  ghost function EndOf(era: Era): Option<Status>
    decreases |era.steps|
  {
    if era.steps == [] then None
    else if EndOf(Before(era)).Some? then EndOf(Before(era)) else Ending(Before(era), Last(era))
  }

  // The first stop of a running execution by its user.
  ghost function FirstStop(era: Era): Option<Step>
    decreases |era.steps|
  {
    if era.steps == [] then None
    else if FirstStop(Before(era)).Some? then FirstStop(Before(era))
    else if Last(era).UserStop? && era.started && !Restarted(Before(era)) && EndOf(Before(era)).None? then Some(Last(era)) else None
  }

  // What the step logs.
  ghost function Adds(era: Era, step: Step): seq<Event> {
    if EndOf(era).None? && Ending(era, step).Some? then [RunEnded(Ending(era, step).value)]
    else
      match step
      case Emit(e, stores) => if stores && e.Other? && !Restarted(era) then [e] else []
      case UserStop(_, stores) =>
        if stores && era.started && !Restarted(era) && EndOf(era).None? && FirstStop(era).None? then [RunStopping] else []
      case HostRestart(updates, stores) =>
        if updates && stores && EndOf(era).None? && !Interrupts(era) then [RunInterrupted] else []
      case _ => []
  }

  ghost function LogOf(era: Era): seq<Event>
    decreases |era.steps|
  {
    if era.steps == [] then (if era.stored then [RunStarted] else []) else LogOf(Before(era)) + Adds(Before(era), Last(era))
  }

  // The status in the store.
  ghost function StatusOf(era: Era): Status {
    if EndOf(era).Some? then EndOf(era).value
    else if Interrupts(era) then Interrupted
    else if FirstStop(era).Some? && FirstStop(era).value.UserStop? && FirstStop(era).value.updates then Stopping
    else Running
  }

  // Whether the process came up, the last time it was started.
  ghost predicate UpOf(era: Era)
    decreases |era.steps|
  {
    era.steps == []
    || if Last(era).HostRestart? then
         EndOf(Before(era)).Some? || Interrupts(Before(era)) || (Last(era).updates && Last(era).stores)
       else UpOf(Before(era))
  }

  // Whether the process is closing.
  ghost predicate ClosingOf(era: Era)
    decreases |era.steps|
  {
    era.steps != []
    && !Last(era).HostRestart?
    && (ClosingOf(Before(era)) || (Last(era).HostClose? && UpOf(Before(era))))
  }

  // Whether the user has stopped the run, or the host has closed while it was executing.
  ghost predicate CancelledOf(era: Era)
    decreases |era.steps|
  {
    era.steps != []
    && (CancelledOf(Before(era)) || (!Restarted(Before(era)) && (Last(era).UserStop? || Executes(Before(era), Last(era)))))
  }

  // The step asks a run that is being executed to stop.
  ghost predicate Executes(era: Era, step: Step) {
    AsksToStop(step) && era.started && !Restarted(era) && EndOf(era).None?
  }

  // Whether the execution was told to stop.
  ghost predicate AbortedOf(era: Era)
    decreases |era.steps|
  {
    era.steps != [] && (AbortedOf(Before(era)) || Executes(Before(era), Last(era)))
  }

  lemma BeforeLonger(era: Era, step: Step)
    ensures Before(Longer(era, step)) == era && Last(Longer(era, step)) == step
  {
    assert Longer(era, step).steps[..|era.steps|] == era.steps;
  }

  lemma OneMoreStep(era: Era, step: Step)
    ensures EndOf(Longer(era, step)) == if EndOf(era).Some? then EndOf(era) else Ending(era, step)
    ensures LogOf(Longer(era, step)) == LogOf(era) + Adds(era, step)
    ensures UpOf(Longer(era, step)) <==>
      if step.HostRestart? then EndOf(era).Some? || Interrupts(era) || (step.updates && step.stores) else UpOf(era)
    ensures ClosingOf(Longer(era, step)) <==> !step.HostRestart? && (ClosingOf(era) || (step.HostClose? && UpOf(era)))
    ensures CancelledOf(Longer(era, step)) <==> CancelledOf(era) || (!Restarted(era) && (step.UserStop? || Executes(era, step)))
    ensures AbortedOf(Longer(era, step)) <==> AbortedOf(era) || Executes(era, step)
    ensures FirstStop(Longer(era, step)) ==
      if FirstStop(era).Some? then FirstStop(era)
      else if step.UserStop? && era.started && !Restarted(era) && EndOf(era).None? then Some(step) else None
  {
    BeforeLonger(era, step);
    hide Ending, Adds, Executes, Restarted, Interrupts;
  }

  lemma FlagsLonger(era: Era, step: Step)
    ensures Restarted(Longer(era, step)) <==> Restarted(era) || step.HostRestart?
    ensures Interrupts(Longer(era, step)) <==> Interrupts(era) || Marks(step)
    ensures AgentEnded(Longer(era, step)) <==> AgentEnded(era) || step.AgentEnd?
    ensures StopAsked(Longer(era, step)) <==> StopAsked(era) || AsksToStop(step)
  {
    var steps := Longer(era, step).steps;
    assert steps[|era.steps|] == step;
    assert forall k :: 0 <= k < |era.steps| ==> steps[k] == era.steps[k];
  }

  // ----- the host follows -------------------------------------------------------------------------------------

  // What memory says of the steps since the last start.
  ghost predicate MemoryFits(h: Host, era: Era) {
    if Restarted(era) then h.memory.None?
    else
      && h.memory.Some? && !Interrupts(era)
      && var m := h.memory.value;
      && m.controller == era.started
      && m.agent == (era.started && !AgentEnded(era))
      && (m.cancelled <==> CancelledOf(era)) && (m.aborted <==> AbortedOf(era))
      && (if EndOf(era).Some? then m.status == EndOf(era).value && IsTerminal(m.status)
          else m.status == if FirstStop(era).Some? then Stopping else Running)
  }

  ghost predicate HostFits(h: Host, era: Era) {
    && MemoryFits(h, era) && h.status == StatusOf(era) && h.up == UpOf(era) && h.closing == ClosingOf(era)
    && (!Restarted(era) ==> h.up)
    && (!Restarted(era) && EndOf(era).None? && era.started ==>
          && (CancelledOf(era) <==> StopAsked(era))
          && (AbortedOf(era) <==> StopAsked(era)))
    && (FirstStop(era).Some? ==> era.started && FirstStop(era).value.UserStop? && StopAsked(era))
    && (EndOf(era).Some? ==> IsTerminal(EndOf(era).value))
    && (Interrupts(era) ==> Restarted(era))
  }

  ghost predicate AllTold(r: Run, eras: seq<Era>) {
    && r.epochs != [] && |eras| == |r.epochs|
    && (forall i :: 0 <= i < |eras| ==> r.epochs[i] == LogOf(eras[i]))
    && HostFits(r.host, eras[|eras| - 1])
  }

  ghost predicate FitsAfter(h: Host, era: Era, step: Step) {
    var t := Take(h, step);
    HostFits(t, Longer(era, step)) && t.log == h.log + Adds(era, step)
  }

  lemma AgentEndFits(h: Host, era: Era, step: Step)
    requires HostFits(h, era) && step.AgentEnd?
    ensures FitsAfter(h, era, step)
  {
    hide Publish, Restarted, Interrupts, AgentEnded, StopAsked, EndOf, FirstStop, LogOf, UpOf, ClosingOf, CancelledOf, AbortedOf;
    OneMoreStep(era, step);
    FlagsLonger(era, step);
  }

  lemma StopFits(h: Host, era: Era, step: Step)
    requires HostFits(h, era) && step.UserStop?
    ensures FitsAfter(h, era, step)
  {
    hide Publish, Restarted, Interrupts, AgentEnded, StopAsked, EndOf, FirstStop, LogOf, UpOf, ClosingOf, CancelledOf, AbortedOf;
    OneMoreStep(era, step);
    FlagsLonger(era, step);
  }

  lemma CloseFits(h: Host, era: Era, step: Step)
    requires HostFits(h, era) && (step.HostClose? || step.HostRestart?)
    ensures FitsAfter(h, era, step)
  {
    hide Publish, Restarted, Interrupts, AgentEnded, StopAsked, EndOf, FirstStop, LogOf, UpOf, ClosingOf, CancelledOf, AbortedOf;
    OneMoreStep(era, step);
    FlagsLonger(era, step);
  }

  lemma QuietFits(h: Host, era: Era, step: Step)
    requires HostFits(h, era) && !Resumes(h, step) && !step.AgentEnd? && !AsksToStop(step) && !step.HostRestart?
    ensures FitsAfter(h, era, step)
  {
    hide Publish, WithoutSink, Numbered, Restarted, Interrupts, AgentEnded, StopAsked, EndOf, FirstStop, LogOf, UpOf,
      ClosingOf, CancelledOf, AbortedOf;
    OneMoreStep(era, step);
    FlagsLonger(era, step);
  }

  lemma ResumeFits(h: Host, step: Step)
    requires Resumes(h, step)
    ensures var t, era := Take(h, step), Era(true, step.stores, []); HostFits(t, era) && t.log == h.log + LogOf(era)
  {
    hide Publish;
  }

  lemma StepTells(r: Run, eras: seq<Era>, step: Step)
    requires AllTold(r, eras)
    ensures AllTold(Advance(r, step), NextEras(r.host, eras, step))
  {
    hide Take, LogOf, HostFits, Adds, Longer;
    var n := |eras| - 1;
    var t := Take(r.host, step);
    if Resumes(r.host, step) {
      ResumeFits(r.host, step);
      assert t.log[|r.host.log|..] == LogOf(Era(true, step.stores, []));
    } else {
      if step.AgentEnd? {
        AgentEndFits(r.host, eras[n], step);
      } else if step.UserStop? {
        StopFits(r.host, eras[n], step);
      } else if step.HostClose? || step.HostRestart? {
        CloseFits(r.host, eras[n], step);
      } else {
        QuietFits(r.host, eras[n], step);
      }
      OneMoreStep(eras[n], step);
      assert t.log[|r.host.log|..] == Adds(eras[n], step);
    }
  }

  lemma BeginTells(starts: bool, stores: bool)
    ensures AllTold(Begin(starts, stores), [Era(starts, stores, [])])
  {
  }

  lemma {:induction false} StepsTell(r: Run, eras: seq<Era>, steps: seq<Step>)
    requires AllTold(r, eras)
    ensures AllTold(AdvanceAll(r, steps), Eras(r, eras, steps))
    decreases steps
  {
    if steps != [] {
      StepTells(r, eras, steps[0]);
      hide AllTold, Advance, NextEras;
      KeepsEpochs(r, steps[0]);
      StepsTell(Advance(r, steps[0]), NextEras(r.host, eras, steps[0]), steps[1..]);
    }
  }

  // In every run, with any writes failing and any restarts, every epoch logs exactly what its steps come to,
  // and so do the status in the store and what is in memory.
  lemma LogIsTold(starts: bool, stores: bool, steps: seq<Step>)
    ensures var begun := Begin(starts, stores);
      var r, eras := AdvanceAll(begun, steps), Eras(begun, [Era(starts, stores, [])], steps);
      && |eras| == |r.epochs| > 0
      && (forall i :: 0 <= i < |eras| ==> r.epochs[i] == LogOf(eras[i]))
      && r.host.status == StatusOf(eras[|eras| - 1]) && MemoryFits(r.host, eras[|eras| - 1])
      && r.host.up == UpOf(eras[|eras| - 1]) && r.host.closing == ClosingOf(eras[|eras| - 1])
  {
    hide Create, Eras, AdvanceAll, LogOf, MemoryFits, StatusOf, UpOf, ClosingOf, EndOf, FirstStop, CancelledOf, AbortedOf;
    BeginTells(starts, stores);
    StepsTell(Begin(starts, stores), [Era(starts, stores, [])], steps);
  }

  // ----- completed, failed and stopped -------------------------------------------------------------------------

  predicate Disturbs(step: Step) { step.AgentEnd? || AsksToStop(step) || step.HostRestart? }

  predicate Quiet(steps: seq<Step>) { forall i :: 0 <= i < |steps| ==> !Disturbs(steps[i]) }

  // The execution ended this way and its end was written, before anything had stopped, closed or restarted it.
  ghost predicate EndedWith(era: Era, outcome: Outcome) {
    era.started && exists k :: 0 <= k < |era.steps| && era.steps[k] == AgentEnd(outcome, true) && Quiet(era.steps[..k])
  }

  lemma QuietIs(era: Era)
    ensures Quiet(era.steps) <==> !AgentEnded(era) && !StopAsked(era) && !Restarted(era)
  {
  }

  lemma EndedLonger(era: Era, step: Step, outcome: Outcome)
    ensures EndedWith(Longer(era, step), outcome) <==>
      EndedWith(era, outcome) || (era.started && Quiet(era.steps) && step == AgentEnd(outcome, true))
  {
    var n, steps := |era.steps|, Longer(era, step).steps;
    assert forall k :: 0 <= k <= n ==> steps[..k] == era.steps[..k];
    assert era.steps[..n] == era.steps;
    assert steps[n] == step;
    if EndedWith(era, outcome) {
      var k :| 0 <= k < n && era.steps[k] == AgentEnd(outcome, true) && Quiet(era.steps[..k]);
      assert steps[k] == era.steps[k];
    }
  }

  ghost predicate Threw(era: Era) { EndedWith(era, Outcome.Threw(false)) || EndedWith(era, Outcome.Threw(true)) }

  lemma ThrewLonger(era: Era, step: Step)
    ensures Threw(Longer(era, step)) <==>
      Threw(era) || (era.started && Quiet(era.steps) && step.AgentEnd? && step.outcome.Threw? && step.stores)
  {
    hide EndedWith, Longer;
    EndedLonger(era, step, Outcome.Threw(false));
    EndedLonger(era, step, Outcome.Threw(true));
  }

  // How the execution ended says how the run is decided.
  ghost predicate Decided(era: Era) {
    && (EndOf(era).Some? ==> !Quiet(era.steps))
    && (EndOf(era) == Some(Completed) <==> EndedWith(era, Resolved))
    && (EndOf(era) == Some(Failed) <==> Threw(era))
  }

  lemma DecidedStep(era: Era, step: Step)
    requires Decided(era)
    ensures Decided(Longer(era, step))
  {
    hide EndOf, EndedWith, Threw, Quiet, StopAsked, AgentEnded, Restarted, Longer, LogOf, Adds, FirstStop, UpOf, ClosingOf,
      CancelledOf, AbortedOf, Interrupts, Executes;
    OneMoreStep(era, step);
    QuietIs(era);
    QuietIs(Longer(era, step));
    FlagsLonger(era, step);
    EndedLonger(era, step, Resolved);
    ThrewLonger(era, step);
  }

  lemma {:induction false} DecidedMeans(era: Era)
    ensures Decided(era)
    decreases |era.steps|
  {
    if era.steps != [] {
      var before, step := Before(era), Last(era);
      DecidedMeans(before);
      assert era == Longer(before, step);
      hide Decided;
      DecidedStep(before, step);
    }
  }

  lemma {:induction false} LoggedIffDecided(era: Era, status: Status)
    ensures RunEnded(status) in LogOf(era) <==> EndOf(era) == Some(status)
    decreases |era.steps|
  {
    if era.steps != [] {
      LoggedIffDecided(Before(era), status);
      hide Restarted, Interrupts, StopAsked, AgentEnded, FirstStop, Ending;
      assert forall e :: e in Adds(Before(era), Last(era)) && e.RunEnded? ==> EndOf(Before(era)).None? && EndOf(era) == Some(e.status);
    }
  }

  // So an epoch logs that the run completed exactly when its execution resolved and that was written before
  // anything had stopped, closed or restarted it, and that it failed exactly when its execution threw, likewise.
  lemma HowRunsEnd(starts: bool, stores: bool, steps: seq<Step>)
    ensures var begun := Begin(starts, stores);
      var r, eras := AdvanceAll(begun, steps), Eras(begun, [Era(starts, stores, [])], steps);
      && |eras| == |r.epochs|
      && forall i :: 0 <= i < |eras| ==>
           && (RunEnded(Completed) in r.epochs[i] <==> EndedWith(eras[i], Resolved))
           && (RunEnded(Failed) in r.epochs[i] <==> Threw(eras[i]))
  {
    hide Create, Eras, AdvanceAll, EndOf, EndedWith, Threw, LogOf, MemoryFits, StatusOf, UpOf, ClosingOf;
    LogIsTold(starts, stores, steps);
    var eras := Eras(Begin(starts, stores), [Era(starts, stores, [])], steps);
    forall i | 0 <= i < |eras|
      ensures RunEnded(Completed) in LogOf(eras[i]) <==> EndedWith(eras[i], Resolved)
      ensures RunEnded(Failed) in LogOf(eras[i]) <==> Threw(eras[i])
    {
      DecidedMeans(eras[i]);
      LoggedIffDecided(eras[i], Completed);
      LoggedIffDecided(eras[i], Failed);
    }
  }
}
