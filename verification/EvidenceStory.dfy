// What a stored check says, told from the calls (src/runtime/execution-evidence-store.ts:499-668).
module EvidenceStory {
  import opened EvidenceHistory
  import opened EvidenceInvariant
  import opened EvidenceState
  import opened Optional
  import opened ReadRanges
  import opened ToolFacts
  import opened Untrusted

  // The record holds the reported profile, conclusion, process and first diagnostics.
  ghost predicate Holds(r: CheckRecord, f: RawFacts) {
    && r.profile == (if f.check.Is? then Known(f.check.value.profile) else None)
    && r.conclusion == (if f.check.Is? then Known(f.check.value.conclusion) else None)
    && ProcessOf(f, r.process)
    && FirstItemsOf(if f.check.Is? then f.check.value.diagnostics else Absent, MAX_DIAGNOSTICS, r.diagnostics)
  }

  ghost predicate SameReport(a: CheckRecord, b: CheckRecord) {
    a.profile == b.profile && a.process == b.process && a.diagnostics == b.diagnostics
  }

  // No fingerprint was taken after the execution, or the one the record has.
  predicate InputKept(r: CheckRecord, after: Field<string>) { after.Absent? || Known(after) == r.inputFingerprint }

  ghost predicate LintConcluded(f: RawFacts) {
    f.check.Is? && f.check.value.profile == Is(BiomeLint) && f.check.value.conclusion in [Is(Passed), Is(Failed)]
  }

  // The standing a recognized report gives the record, `changed` when it also reports a new mutation.
  ghost predicate Stands(b: CheckRecord, f: RawFacts, after: Field<string>, changed: bool, r: CheckRecord) {
    var scope := WholeReport(f) && HasText(b.inputFingerprint) && InputKept(b, after);
    && (r.scopeComplete <==> scope && !changed)
    && (r.reusable <==> scope && !changed && LintConcluded(f))
    && r.invalidationReason ==
         if changed then Some(Text("workspace_changed"))
         else if scope && LintConcluded(f) then b.invalidationReason
         else if !InputKept(b, after) then Some(Text("input_changed"))
         else if WholeReport(f) then Some(Text("not_reusable"))
         else Some(Text("report_incomplete"))
  }

  // The record `b` has become `r` by the result of its own check.
  ghost predicate Finished(b: CheckRecord, raw: Field<RawFacts>, after: Field<string>, changed: bool, r: CheckRecord) {
    && SameIdentity(b, r) && r.executionState == Settled && r.source == b.source
    && (if Recognized(raw) then Holds(r, raw.value) && Stands(b, raw.value, after, changed, r)
        else
          && r.conclusion == None && SameReport(b, r) && !r.reusable && !r.scopeComplete
          && r.invalidationReason ==
               Some(if Validate(raw).issues == [] then Text("invalid_facts") else FromIssue(Validate(raw).issues[0])))
  }

  predicate EqualButAccess(a: CheckRecord, b: CheckRecord) { a.(lastAccessSeq := b.lastAccessSeq) == b }

  // The reason given by a call that takes settled checks out of use.
  function ReasonOf(c: Call): Option<Reason> { Some(Text(if c.Invalidate? then c.reason else "workspace_changed")) }

  // What one call leaves of the record under `id`.
  ghost predicate Leaves(s: State, c: Call, id: nat) {
    var before, after := Lookup(s.records, id), Lookup(Apply(s, c).records, id);
    after.Some? ==>
      if before.None? then
        && c.Invoke? && id == s.sequence + 1
        && after.value == CheckRecord(id, id, c.origin, c.specHash, None, c.fingerprint, false, Pending, None, None, None,
                                      Executed, false, None, id, s.iteration)
      else
        var b, r := before.value, after.value;
        if c.Finish? && c.id == id then Finished(b, c.raw, c.after, Invalidates(s, c), r)
        else if c.GiveUp? && c.id == id then
          r == b.(executionState := Uncertain, reusable := false, invalidationReason := Some(Text(c.reason)))
        else if Invalidates(s, c) && b.executionState == Settled then
          r == b.(reusable := false, scopeComplete := false, invalidationReason := ReasonOf(c))
        else EqualButAccess(b, r)
  }

  // ----- one call ---------------------------------------------------------------------------------------------

  lemma LeavesQuiet(s: State, c: Call, id: nat)
    requires (c.Iterate? || c.Read?) && Apply(s, c).records == s.records
    ensures Leaves(s, c, id)
  {
    hide Apply;
  }

  lemma LeavesInvoke(s: State, origin: string, specHash: string, fingerprint: Option<string>, id: nat)
    requires Inv(s)
    ensures Leaves(s, Invoke(origin, specHash, fingerprint), id)
  {
    hide Validate, FindPending, FindUnresolved, MakeRoom, Existing, Lookup, Inv, HasText, Finished;
    var c := Invoke(origin, specHash, fingerprint);
    var t := Apply(s, c);
    CreateKeepsInv(s, origin, specHash, fingerprint);
    var found := Lookup(t.records, id);
    if found.Some? && t != s {
      IssuedInOrderOf(s);
      IssuedInOrderOf(t);
      LookupMeans(t.records, id, found.value);
      RoomIsFromRecords(s);
      if found.value in s.records {
        LookupMeans(s.records, id, found.value);
      } else {
        NewIsUnknown(s, s.sequence + 1);
      }
    }
  }

  lemma LeavesReuse(s: State, specHash: string, fingerprint: Option<string>, id: nat)
    ensures Leaves(s, Reuse(specHash, fingerprint), id)
  {
    hide FindUnresolved, FindMatch, Validate, Finished;
    SamePlace(s.records, Apply(s, Reuse(specHash, fingerprint)).records, id);
  }

  lemma LeavesInvalidate(s: State, reason: string, id: nat)
    ensures Leaves(s, Invalidate(reason), id)
  {
    hide Validate, Finished;
    InvalidKeepsIds(s.records, reason);
    SamePlace(s.records, InvalidateAll(s.records, reason), id);
  }

  lemma LeavesGiveUp(s: State, gone: nat, reason: string, id: nat)
    ensures Leaves(s, GiveUp(gone, reason), id)
  {
    hide Validate, Finished;
    FindRecordById(s.records, gone);
    FindRecordById(s.records, id);
    SamePlace(s.records, Apply(s, GiveUp(gone, reason)).records, id);
  }

  lemma LeavesMutate(s: State, facts: seq<Field<RawMutation>>, id: nat)
    requires Inv(s)
    ensures Leaves(s, Mutate(facts), id)
  {
    hide Validate, AnyNew, RecordMutations, Finished;
    MutationsEffect(s, facts);
    InvalidKeepsIds(s.records, "workspace_changed");
    SamePlace(s.records, InvalidateAll(s.records, "workspace_changed"), id);
  }

  lemma LeavesResume(s: State, id: nat)
    requires Inv(s)
    ensures Leaves(s, Resume, id)
  {
    hide ReadBack, Apply, Finished;
    ResumeKeeps(s);
    IssuedInOrderOf(s);
    IssuedInOrderOf(Apply(s, Resume));
    var found := Lookup(Apply(s, Resume).records, id);
    if found.Some? {
      LookupMeans(Apply(s, Resume).records, id, found.value);
      LookupMeans(s.records, id, found.value);
    }
  }

  lemma SettledValid(b: CheckRecord, raw: Field<RawFacts>, after: Field<string>, n: nat)
    requires Recognized(raw) && Validate(raw).facts.Some?
    ensures Finished(b, raw, after, false, SettleValid(b, Validate(raw), after, n))
  {
    FactsAreThoseReported(raw);
    CompleteIffWhole(raw);
    ReusableIffCompleteLint(raw);
    hide Validate, Recognized, WholeReport, HasText, ProcessOf, FirstItemsOf;
  }

  lemma SettledInvalid(b: CheckRecord, raw: Field<RawFacts>, after: Field<string>)
    requires !Recognized(raw)
    ensures Finished(b, raw, after, false, SettleInvalid(b, Validate(raw)))
  {
    hide Validate, Recognized, Holds, Stands;
  }

  // Settling, before the reported mutations take effect.
  lemma SettledTells(s: State, i: nat, raw: Field<RawFacts>, after: Field<string>)
    requires i < |s.records|
    ensures var v := Validate(raw);
      && (v.valid ==> v.facts.Some?)
      && Finished(s.records[i], raw, after, false, Settle(s, i, v, after).records[i])
  {
    ValidIffRecognized(raw);
    if Recognized(raw) { FactsAreThoseReported(raw); }
    hide Validate, Recognized, Finished, SettleValid, SettleInvalid;
    if Recognized(raw) {
      SettledValid(s.records[i], raw, after, s.sequence + 1);
    } else {
      SettledInvalid(s.records[i], raw, after);
    }
  }

  // A new mutation in the report takes the settled record out of use.
  lemma ChangedAfterwards(b: CheckRecord, raw: Field<RawFacts>, after: Field<string>, settled: CheckRecord)
    requires Finished(b, raw, after, false, settled) && Recognized(raw)
    ensures Finished(b, raw, after, true, InvalidateRecord(settled, "workspace_changed"))
  {
    hide Validate, Recognized, WholeReport, HasText, ProcessOf, FirstItemsOf, LintConcluded;
  }

  lemma UnrecognizedReportsNothing(raw: Field<RawFacts>)
    ensures !Recognized(raw) ==> FactMutations(Validate(raw)) == []
  {
    ValidIffRecognized(raw);
    hide Validate, Recognized;
  }

  // The record under `id` after a result for the record at `i`.
  lemma RecordAfterFinish(s: State, c: Call, i: nat, id: nat)
    requires Inv(s) && c.Finish? && i == FindRecord(s.records, c.id) < |s.records|
    ensures Validate(c.raw).valid ==> Validate(c.raw).facts.Some?
    ensures var k, settled := FindRecord(s.records, id), Settle(s, i, Validate(c.raw), c.after).records[i];
      && Finished(s.records[i], c.raw, c.after, false, settled)
      && Lookup(Apply(s, c).records, id) ==
           if k >= |s.records| then None
           else
             var r := if k == i then settled else s.records[k];
             Some(if AnyNew(s.mutations, FactMutations(Validate(c.raw))) then InvalidateRecord(r, "workspace_changed") else r)
  {
    SettledTells(s, i, c.raw, c.after);
    hide Validate, FindRecord, AnyNew, FactMutations, Apply, Settle, InvalidateAll, InvalidateRecord, Inv;
    FinishedTable(s, c, i);
    var upd := Settle(s, i, Validate(c.raw), c.after).records;
    AtPlace(s, upd, AnyNew(s.mutations, FactMutations(Validate(c.raw))), i, id);
  }

  lemma LeavesOwnResult(s: State, c: Call)
    requires Inv(s) && c.Finish? && Lookup(s.records, c.id).Some?
    ensures Leaves(s, c, c.id)
  {
    var i := FindRecord(s.records, c.id);
    hide Validate, FindRecord, AnyNew, FactMutations, Apply, Finished, Settle, Inv, InvalidateRecord, Recognized, EqualButAccess;
    RecordAfterFinish(s, c, i, c.id);
    UnrecognizedReportsNothing(c.raw);
    NothingIsNew(s.mutations);
    var settled := Settle(s, i, Validate(c.raw), c.after).records[i];
    if Recognized(c.raw) { ChangedAfterwards(s.records[i], c.raw, c.after, settled); }
  }

  lemma OtherPlace(records: seq<CheckRecord>, a: nat, b: nat)
    requires a != b
    ensures FindRecord(records, a) < |records| ==> FindRecord(records, a) != FindRecord(records, b)
  {
    FindRecordById(records, a);
    FindRecordById(records, b);
  }

  lemma LeavesOtherResult(s: State, c: Call, id: nat)
    requires Inv(s) && c.Finish? && Lookup(s.records, c.id).Some? && id != c.id
    ensures Leaves(s, c, id)
  {
    hide Validate, FindRecord, AnyNew, FactMutations, Apply, Finished, Settle, Inv, Recognized;
    OtherPlace(s.records, c.id, id);
    RecordAfterFinish(s, c, FindRecord(s.records, c.id), id);
  }

  lemma LeavesFinish(s: State, c: Call, id: nat)
    requires Inv(s) && c.Finish?
    ensures Leaves(s, c, id)
  {
    if Lookup(s.records, c.id).None? {
      hide Validate, Finished;
    } else {
      hide *;
      if id == c.id { LeavesOwnResult(s, c); } else { LeavesOtherResult(s, c, id); }
    }
  }

  lemma NothingIsNew(ms: seq<MutationFingerprint>)
    ensures !AnyNew(ms, [])
  {
  }

  lemma CallLeaves(s: State, c: Call, id: nat)
    requires Inv(s)
    ensures Leaves(s, c, id)
  {
    hide Leaves;
    match c
    case Iterate(next) => LeavesQuiet(s, c, id);
    case Invoke(origin, specHash, fingerprint) => LeavesInvoke(s, origin, specHash, fingerprint, id);
    case Reuse(specHash, fingerprint) => LeavesReuse(s, specHash, fingerprint, id);
    case Invalidate(reason) => LeavesInvalidate(s, reason, id);
    case Finish(done, raw, after) => LeavesFinish(s, c, id);
    case GiveUp(gone, reason) => LeavesGiveUp(s, gone, reason, id);
    case Read(facts) =>
      RecordReadsKeepInv(s, facts);
      LeavesQuiet(s, c, id);
    case Mutate(facts) => LeavesMutate(s, facts, id);
    case Resume => LeavesResume(s, id);
  }

  // ----- whole histories ----------------------------------------------------------------------------------------

  // A result for the check, one with recognized facts, or either a result or the news that it is lost.
  datatype Kind = Result | Report | Word

  ghost predicate OfKind(kind: Kind, c: Call, id: nat) {
    match kind
    case Result => c.Finish? && c.id == id
    case Report => c.Finish? && c.id == id && Recognized(c.raw)
    case Word => (c.Finish? || c.GiveUp?) && c.id == id
  }

  // The last call of this kind that found the check in the store.
  ghost function LastCall(calls: seq<Call>, id: nat, kind: Kind): Option<Call> {
    if calls == [] then None
    else
      var before, c := calls[..|calls| - 1], calls[|calls| - 1];
      if OfKind(kind, c, id) && Lookup(Run(before).records, id).Some? then Some(c) else LastCall(before, id, kind)
  }

  ghost predicate Says(calls: seq<Call>, id: nat, r: CheckRecord) {
    var result, report, word := LastCall(calls, id, Result), LastCall(calls, id, Report), LastCall(calls, id, Word);
    && r.executionState == (if word.None? then Pending else if word.value.Finish? then Settled else Uncertain)
    && r.conclusion ==
         (if result.Some? && result.value.Finish? && Recognized(result.value.raw) && result.value.raw.value.check.Is?
          then Known(result.value.raw.value.check.value.conclusion) else None)
    && (if report.Some? && report.value.Finish? && Recognized(report.value.raw) then
          var f := report.value.raw.value;
          && r.profile == (if f.check.Is? then Known(f.check.value.profile) else None)
          && ProcessOf(f, r.process)
          && FirstItemsOf(if f.check.Is? then f.check.value.diagnostics else Absent, MAX_DIAGNOSTICS, r.diagnostics)
        else r.profile == None && r.process == None && r.diagnostics == None)
  }

  lemma SaysAfter(calls: seq<Call>, id: nat, r: CheckRecord)
    requires calls != []
    requires var before, c := calls[..|calls| - 1], calls[|calls| - 1];
      && Lookup(Run(before).records, id).Some? && Says(before, id, Lookup(Run(before).records, id).value)
      && Leaves(Run(before), c, id) && Lookup(Apply(Run(before), c).records, id) == Some(r)
    ensures Says(calls, id, r)
  {
    hide Run, Apply, Recognized, ProcessOf, FirstItemsOf, Lookup, Invalidates, Validate, Stands;
  }

  lemma {:induction false} NoneYet(calls: seq<Call>, id: nat, kind: Kind)
    requires id > Run(calls).sequence
    ensures LastCall(calls, id, kind).None?
  {
    if calls != [] {
      var before, c := calls[..|calls| - 1], calls[|calls| - 1];
      RunKeepsInv(before);
      SequenceGrows(Run(before), c);
      NewIsUnknown(Run(before), id);
      hide Apply, Lookup, OfKind, Inv;
      NoneYet(before, id, kind);
    }
  }

  lemma SaysAtFirst(calls: seq<Call>, id: nat, r: CheckRecord)
    requires calls != []
    requires var before, c := calls[..|calls| - 1], calls[|calls| - 1];
      && Lookup(Run(before).records, id).None? && Leaves(Run(before), c, id) && Lookup(Apply(Run(before), c).records, id) == Some(r)
    ensures Says(calls, id, r)
  {
    var before := calls[..|calls| - 1];
    hide Run, Apply, Recognized, ProcessOf, FirstItemsOf, Lookup, Invalidates, Finished;
    NoneYet(before, id, Result);
    NoneYet(before, id, Report);
    NoneYet(before, id, Word);
  }

  // In every history a stored check is settled, uncertain or pending as the last word about it was; its conclusion
  // is the one its last result reported, reusable or not, and none if that result was not recognized; and its
  // profile, process and diagnostics are those of the last result that was.
  lemma {:induction false} WhatARecordSays(calls: seq<Call>, id: nat)
    requires Lookup(Run(calls).records, id).Some?
    ensures Says(calls, id, Lookup(Run(calls).records, id).value)
  {
    SomeCall(calls, id);
    var before, c := calls[..|calls| - 1], calls[|calls| - 1];
    RunKeepsInv(before);
    CallLeaves(Run(before), c, id);
    hide Apply, Lookup, Says, Leaves, Inv;
    if Lookup(Run(before).records, id).Some? {
      WhatARecordSays(before, id);
      SaysAfter(calls, id, Lookup(Run(calls).records, id).value);
    } else {
      SaysAtFirst(calls, id, Lookup(Run(calls).records, id).value);
    }
  }

  // ----- what the calls answer ------------------------------------------------------------------------------------

  // An origin that has a check is answered with that check as it is, and refused for another one; it counts as
  // reused once the check is settled or lost. Any other origin gets a new check or none.
  lemma HandleSays(s: State, origin: string, specHash: string, fingerprint: Option<string>)
    requires Inv(s)
    ensures var (t, h) := GetOrCreate(s, origin, specHash, fingerprint);
      && (forall r :: r in s.records && r.origin == origin ==>
            && t == s
            && h == (if r.specHash != specHash then None
                     else Some(Handle(r.invocationId, r.checkId, r.executionState == Settled || r.executionState == Uncertain, Some(r)))))
      && ((forall r :: r in s.records ==> r.origin != origin) && h.Some? ==>
            && t.records != [] && t.records[|t.records| - 1].origin == origin
            && h == Some(Handle(s.sequence + 1, s.sequence + 1, false, Some(t.records[|t.records| - 1]))))
  {
    hide FindUnresolved, MakeRoom, FindPending, FindRecord, Inv;
    if MakeRoom(s).Some? { RoomIsFromRecords(s); }
    forall r | r in s.records && r.origin == origin
      ensures FindPending(s.pending, origin) < |s.pending| && Mirror(r) == s.pending[FindPending(s.pending, origin)]
      ensures FindRecord(s.records, r.invocationId) < |s.records| && s.records[FindRecord(s.records, r.invocationId)] == r
    {
      OwnEntry(s, r);
    }
    if forall r :: r in s.records ==> r.origin != origin { NoEntry(s, origin); }
  }

  lemma OwnEntry(s: State, r: CheckRecord)
    requires Inv(s) && r in s.records
    ensures var i := FindPending(s.pending, r.origin); i < |s.pending| && s.pending[i] == Mirror(r)
    ensures var i := FindRecord(s.records, r.invocationId); i < |s.records| && s.records[i] == r
  {
    var k :| 0 <= k < |s.records| && s.records[k] == r;
    PendingOfRecord(s.records, s.pending, s.sequence, k);
  }

  lemma NoEntry(s: State, origin: string)
    requires Inv(s) && forall r :: r in s.records ==> r.origin != origin
    ensures FindPending(s.pending, origin) >= |s.pending|
  {
    NoPending(s.records, s.pending, s.sequence, origin);
  }

  lemma PlaceKept(s: State, c: Call, i: nat)
    requires Inv(s) && c.Finish? && i == FindRecord(s.records, c.id) < |s.records|
    ensures var t := Apply(s, c).records; |t| == |s.records| && FindRecord(t, c.id) == i
  {
    hide Validate, AnyNew, FactMutations, Settle, InvalidateAll, Inv, FindRecord, Finished, Apply;
    FinishedTable(s, c, i);
    SettledTells(s, i, c.raw, c.after);
    SettledRecord(s, i, c.raw, c.after);
    AtPlace(s, Settle(s, i, Validate(c.raw), c.after).records, AnyNew(s.mutations, FactMutations(Validate(c.raw))), i, c.id);
  }

  lemma AnswerOf(s: State, id: nat, raw: Field<RawFacts>, after: Field<string>)
    ensures var (t, r) := RecordResult(s, id, raw, after);
      var i := FindRecord(s.records, id);
      if i >= |s.records| then t == s && r == None else r == if i < |t.records| then Some(t.records[i]) else None
  {
    hide Validate, RecordReads, RecordMutations, Settle, FactReads, FactMutations, FindRecord;
  }

  // A result is answered with the record it leaves, and with nothing for an unknown check.
  lemma ResultIsAnswered(s: State, id: nat, raw: Field<RawFacts>, after: Field<string>)
    requires Inv(s)
    ensures var (t, r) := RecordResult(s, id, raw, after);
      r == Lookup(t.records, id) && (r.Some? <==> Lookup(s.records, id).Some?) && (r.None? ==> t == s)
  {
    hide Validate, Inv, FindRecord, RecordResult;
    AnswerOf(s, id, raw, after);
    var i := FindRecord(s.records, id);
    if i < |s.records| { PlaceKept(s, Finish(id, raw, after), i); }
  }

  // The iteration is the whole part of the number that is set; a negative number, or none, is ignored.
  lemma IterationIsFloor(s: State, next: Option<real>)
    ensures var t := SetIteration(s, next);
      && t.(iteration := s.iteration) == s
      && (next.Some? && next.value >= 0.0 ==> t.iteration as real <= next.value < t.iteration as real + 1.0)
      && (next.None? || next.value < 0.0 ==> t == s)
  {
  }

  // A batch counts the mutations that are new at their turn.
  lemma {:induction false} OneMoreMutation(s: State, facts: seq<Field<RawMutation>>, fact: Field<RawMutation>)
    ensures var (t, count) := RecordMutations(s, facts);
      RecordMutations(s, facts + [fact]) == (RecordMutation(t, fact).0, count + if IsNew(t.mutations, fact) then 1 else 0)
    decreases facts
  {
    hide RecordMutation, IsNew;
    if facts == [] {
      assert [] + [fact] == [fact] && [fact][1..] == [];
      MutationEffect(s, fact);
      var t := RecordMutation(s, fact).0;
      assert RecordMutations(t, []) == (t, 0);
    } else {
      assert (facts + [fact])[1..] == facts[1..] + [fact];
      OneMoreMutation(RecordMutation(s, facts[0]).0, facts[1..], fact);
    }
  }

  // The mutation at `i` has become the latest.
  ghost predicate Refreshed(ms: seq<MutationFingerprint>, i: nat, n: int, refreshed: seq<MutationFingerprint>) {
    i < |ms| && refreshed == RemoveAt(ms, i) + [ms[i].(seqNumber := n)]
  }

  // The latest 64 mutations are retained: a new one as it was reported, and a known one is the latest again.
  lemma MutationsRetained(s: State, raw: RawMutation)
    requires Inv(s) && NormalizeMutation(raw).Some?
    ensures var t := RecordMutation(s, Is(raw)).0;
      var m := NormalizeMutation(raw).value.(seqNumber := s.sequence + 1);
      && t.sequence == s.sequence + 1 && t.readPrints == s.readPrints && t.pending == s.pending && t.iteration == s.iteration
      && (!KnownKey(s.mutations, MutationKey(m)) ==> t.mutations == LastOf(s.mutations + [m], MAX_MUTATION_FINGERPRINTS))
      && (KnownKey(s.mutations, MutationKey(m)) ==>
            exists i: nat :: Refreshed(s.mutations, i, s.sequence + 1, t.mutations) && MutationKey(s.mutations[i]) == MutationKey(m))
  {
    var m := NormalizeMutation(raw).value.(seqNumber := s.sequence + 1);
    assert NormalizeMutation(raw.(seqNumber := Is(s.sequence + 1))) == Some(m);
    hide NormalizeMutation, MutationKey, InvalidateAll, RemoveAt, TrimTo, Inv;
    FindMutationByKey(s.mutations, MutationKey(m));
    MutationSorted(s, m);
    var i := FindMutation(s.mutations, MutationKey(m));
    if i < |s.mutations| { assert Refreshed(s.mutations, i, s.sequence + 1, RecordMutation(s, Is(raw)).0.mutations); }
  }

  // ----- the numbers that are drawn -------------------------------------------------------------------------------

  function Objects<T>(facts: seq<Field<T>>): nat
    decreases facts
  {
    if facts == [] then 0 else (if facts[0].Is? then 1 else 0) + Objects(facts[1..])
  }

  lemma {:induction false} ReadsDraw(s: State, facts: seq<Field<RawRead>>)
    ensures RecordReads(s, facts).0.sequence == s.sequence + Objects(facts)
    decreases facts
  {
    hide NormalizeRead, AddRead;
    if facts != [] { ReadsDraw(RecordRead(s, facts[0]).0, facts[1..]); }
  }

  lemma {:induction false} MutationsDraw(s: State, facts: seq<Field<RawMutation>>)
    ensures RecordMutations(s, facts).0.sequence == s.sequence + Objects(facts)
    decreases facts
  {
    hide NormalizeMutation, MutationKey, InvalidateAll;
    if facts != [] { MutationsDraw(RecordMutation(s, facts[0]).0, facts[1..]); }
  }

  lemma {:induction false} AllObjects<T>(facts: seq<Field<T>>)
    requires forall i :: 0 <= i < |facts| ==> facts[i].Is?
    ensures Objects(facts) == |facts|
    decreases facts
  {
    if facts != [] { AllObjects(facts[1..]); }
  }

  // The items of a reported list that are looked at.
  function Counted<T>(items: Field<seq<Field<T>>>, cap: nat): nat {
    if !items.Is? then 0 else if |items.value| <= cap then |items.value| else cap
  }

  // How many numbers a call draws: one for a new check, for one found again and for a recognized result, and one
  // for every read and mutation.
  ghost function Draws(s: State, c: Call): nat {
    match c
    case Invoke(origin, specHash, fingerprint) => if GetOrCreate(s, origin, specHash, fingerprint).0 != s then 1 else 0
    case Reuse(specHash, fingerprint) => if FindReusable(s, specHash, fingerprint).1.Some? then 1 else 0
    case Finish(id, raw, _) =>
      if Lookup(s.records, id).Some? && Recognized(raw) then
        1 + Counted(raw.value.readFacts, MAX_READ_FACTS) + Counted(raw.value.mutations, MAX_MUTATION_FACTS)
      else 0
    case Read(facts) => Objects(facts)
    case Mutate(facts) => Objects(facts)
    case _ => 0
  }

  lemma FactsCounted(raw: Field<RawFacts>)
    requires Recognized(raw)
    ensures Objects(FactReads(Validate(raw))) == Counted(raw.value.readFacts, MAX_READ_FACTS)
    ensures Objects(FactMutations(Validate(raw))) == Counted(raw.value.mutations, MAX_MUTATION_FACTS)
  {
    FactsAreThoseReported(raw);
    AllObjects(FactReads(Validate(raw)));
    AllObjects(FactMutations(Validate(raw)));
    hide Validate, Recognized, Objects;
  }

  lemma FinishDraws(s: State, c: Call)
    requires Inv(s) && c.Finish?
    ensures Apply(s, c).sequence == s.sequence + Draws(s, c)
  {
    var i := FindRecord(s.records, c.id);
    ValidIffRecognized(c.raw);
    if i < |s.records| {
      SettledTells(s, i, c.raw, c.after);
      if Recognized(c.raw) { FactsCounted(c.raw); }
      hide Validate, Recognized, FindRecord, FactReads, FactMutations, RecordReads, RecordMutations, Finished, SettleValid, SettleInvalid, Inv;
      var settled := Settle(s, i, Validate(c.raw), c.after);
      ReadsDraw(settled, FactReads(Validate(c.raw)));
      MutationsDraw(RecordReads(settled, FactReads(Validate(c.raw))).0, FactMutations(Validate(c.raw)));
      if !Recognized(c.raw) { NoFacts(c.raw); }
    }
  }

  lemma NoFacts(raw: Field<RawFacts>)
    ensures !Recognized(raw) ==> Objects(FactReads(Validate(raw))) == 0 == Objects(FactMutations(Validate(raw)))
  {
    ValidIffRecognized(raw);
    hide Validate, Recognized;
  }

  // The sequence numbers, which are also the ids, are drawn one by one.
  lemma NumbersAreDrawn(s: State, c: Call)
    requires Inv(s)
    ensures Apply(s, c).sequence == s.sequence + Draws(s, c)
  {
    match c
    case Invoke(origin, specHash, fingerprint) =>
      hide FindPending, FindUnresolved, MakeRoom, Existing, Inv;
      if MakeRoom(s).Some? { RoomIsFromRecords(s); }
    case Reuse(specHash, fingerprint) => hide FindUnresolved, FindMatch, Inv;
    case Finish(id, raw, after) => FinishDraws(s, c);
    case Read(facts) => ReadsDraw(s, facts);
    case Mutate(facts) => MutationsDraw(s, facts);
    case Resume => ResumeKeeps(s);
    case _ =>
  }
}
