// Which of the stored checks was used last, over whole histories of calls
// (src/runtime/execution-evidence-store.ts:462-478, 543, 570, 627).
module EvidenceAccess {
  import opened EvidenceHistory
  import opened EvidenceInvariant
  import opened EvidenceState
  import opened Optional
  import opened ToolFacts
  import opened Untrusted

  // The call creates the record `id`, finds it for reuse, or settles it with recognized facts.
  ghost predicate Uses(s: State, c: Call, id: nat) {
    match c
    case Invoke(origin, specHash, fingerprint) => Apply(s, c) != s && id == s.sequence + 1
    case Reuse(specHash, fingerprint) =>
      var found := FindReusable(s, specHash, fingerprint).1;
      found.Some? && found.value.invocationId == id
    case Finish(done, raw, _) => done == id && Lookup(s.records, id).Some? && Validate(raw).valid
    case _ => false
  }

  // The number of the last call that used the record, -1 when there was none.
  ghost function LastUse(calls: seq<Call>, id: nat): (k: int)
    ensures -1 <= k < |calls|
  {
    if calls == [] then -1
    else if Uses(Run(calls[..|calls| - 1]), calls[|calls| - 1], id) then |calls| - 1
    else LastUse(calls[..|calls| - 1], id)
  }

  // ----- one call ---------------------------------------------------------------------------------------------

  // A used record gets a new access number; any other keeps the one it had.
  ghost predicate AccessStep(s: State, c: Call, id: nat) {
    var after := Lookup(Apply(s, c).records, id);
    after.Some? ==>
      if Uses(s, c, id) then after.value.lastAccessSeq > s.sequence
      else Lookup(s.records, id).Some? && Lookup(s.records, id).value.lastAccessSeq == after.value.lastAccessSeq
  }

  lemma AccessQuiet(s: State, c: Call, id: nat)
    requires (c.Iterate? || c.Read?) && Apply(s, c).records == s.records
    ensures AccessStep(s, c, id)
  {
    hide Apply;
  }

  lemma AccessInvoke(s: State, origin: string, specHash: string, fingerprint: Option<string>, id: nat)
    requires Inv(s)
    ensures AccessStep(s, Invoke(origin, specHash, fingerprint), id)
  {
    hide Validate, FindPending, FindUnresolved, MakeRoom, Existing, Lookup, Inv, HasText;
    var c := Invoke(origin, specHash, fingerprint);
    var t := Apply(s, c);
    CreateKeepsInv(s, origin, specHash, fingerprint);
    var found := Lookup(t.records, id);
    if found.Some? && t != s {
      IssuedInOrderOf(s);
      IssuedInOrderOf(t);
      LookupMeans(t.records, id, found.value);
      RoomIsFromRecords(s);
      if found.value in s.records {
        LookupMeans(s.records, id, found.value);
        NewIsUnknown(s, s.sequence + 1);
      }
    }
  }

  lemma AccessReuse(s: State, specHash: string, fingerprint: Option<string>, id: nat)
    requires Inv(s)
    ensures AccessStep(s, Reuse(specHash, fingerprint), id)
  {
    hide FindUnresolved, FindMatch, Validate;
    var c := Reuse(specHash, fingerprint);
    SamePlace(s.records, Apply(s, c).records, id);
    FindRecordById(s.records, id);
    IssuedInOrderOf(s);
  }

  lemma InvalidKeepsAccess(records: seq<CheckRecord>, reason: string, id: nat)
    ensures var t := InvalidateAll(records, reason);
      && |t| == |records| && FindRecord(t, id) == FindRecord(records, id)
      && forall k :: 0 <= k < |records| ==> t[k].lastAccessSeq == records[k].lastAccessSeq
  {
    InvalidKeepsIds(records, reason);
    SamePlace(records, InvalidateAll(records, reason), id);
  }

  lemma AccessInvalidate(s: State, reason: string, id: nat)
    ensures AccessStep(s, Invalidate(reason), id)
  {
    hide InvalidateAll, FindRecord, FindReusable;
    InvalidKeepsAccess(s.records, reason, id);
  }

  lemma AccessGiveUp(s: State, gone: nat, reason: string, id: nat)
    ensures AccessStep(s, GiveUp(gone, reason), id)
  {
    FindRecordById(s.records, gone);
    SamePlace(s.records, Apply(s, GiveUp(gone, reason)).records, id);
  }

  lemma AccessMutate(s: State, facts: seq<Field<RawMutation>>, id: nat)
    requires Inv(s)
    ensures AccessStep(s, Mutate(facts), id)
  {
    hide AnyNew, RecordMutations, InvalidateAll, FindRecord, FindReusable, Inv;
    MutationsEffect(s, facts);
    InvalidKeepsAccess(s.records, "workspace_changed", id);
  }

  lemma AccessFinish(s: State, done: nat, raw: Field<RawFacts>, after: Field<string>, id: nat)
    requires Inv(s)
    ensures AccessStep(s, Finish(done, raw, after), id)
  {
    hide Validate, FindRecord, AnyNew, FactMutations, FactReads, Settle, InvalidateAll, Inv, FindReusable;
    hide RecordReads, RecordMutations, HasText;
    var c := Finish(done, raw, after);
    FindRecordById(s.records, done);
    FindRecordById(s.records, id);
    var i := FindRecord(s.records, done);
    if i < |s.records| {
      AccessSettled(s, c, id, i);
    }
  }

  lemma AccessSettled(s: State, c: Call, id: nat, i: nat)
    requires Inv(s) && c.Finish? && i == FindRecord(s.records, c.id) < |s.records|
    ensures AccessStep(s, c, id)
  {
    hide Validate, FindRecord, AnyNew, FactMutations, Settle, InvalidateAll, Inv, FindReusable, Apply, InputChanged, HasText;
    FindRecordById(s.records, c.id);
    FindRecordById(s.records, id);
    FinishedTable(s, c, i);
    SettledRecord(s, i, c.raw, c.after);
    SettledAccess(s, i, Validate(c.raw), c.after);
    var upd := Settle(s, i, Validate(c.raw), c.after).records;
    AtPlace(s, upd, AnyNew(s.mutations, FactMutations(Validate(c.raw))), i, id);
    var k := FindRecord(s.records, id);
    if k < |s.records| {
      assert Lookup(s.records, id) == Some(s.records[k]);
      assert Lookup(Apply(s, c).records, id) == Some(Apply(s, c).records[k]);
      assert Apply(s, c).records[k].lastAccessSeq == upd[k].lastAccessSeq;
      assert k != i ==> upd[k] == s.records[k];
    }
  }

  lemma SettledAccess(s: State, i: nat, v: Validation, after: Field<string>)
    requires i < |s.records| && (v.valid ==> v.facts.Some?)
    ensures Settle(s, i, v, after).records[i].lastAccessSeq == if v.valid then s.sequence + 1 else s.records[i].lastAccessSeq
  {
    hide InputChanged, HasText;
  }

  lemma AccessResume(s: State, id: nat)
    requires Inv(s)
    ensures AccessStep(s, Resume, id)
  {
    hide ReadBack, Apply;
    ResumeKeeps(s);
    ApplyKeepsInv(s, Resume);
    var found := Lookup(Apply(s, Resume).records, id);
    if found.Some? {
      LookupMeans(Apply(s, Resume).records, id, found.value);
      LookupMeans(s.records, id, found.value);
    }
  }

  lemma AccessAny(s: State, c: Call, id: nat)
    requires Inv(s)
    ensures AccessStep(s, c, id)
  {
    hide AccessStep;
    match c
    case Iterate(next) => AccessQuiet(s, c, id);
    case Invoke(origin, specHash, fingerprint) => AccessInvoke(s, origin, specHash, fingerprint, id);
    case Reuse(specHash, fingerprint) => AccessReuse(s, specHash, fingerprint, id);
    case Invalidate(reason) => AccessInvalidate(s, reason, id);
    case Finish(done, raw, after) => AccessFinish(s, done, raw, after, id);
    case GiveUp(gone, reason) => AccessGiveUp(s, gone, reason, id);
    case Read(facts) =>
      RecordReadsKeepInv(s, facts);
      AccessQuiet(s, c, id);
    case Mutate(facts) => AccessMutate(s, facts, id);
    case Resume => AccessResume(s, id);
  }

  // ----- whole histories ----------------------------------------------------------------------------------------

  lemma UsesOne(s: State, c: Call, a: nat, b: nat)
    requires Uses(s, c, a) && Uses(s, c, b)
    ensures a == b
  {
    hide Apply, FindReusable, Validate;
  }

  lemma AccessWithin(s: State, id: nat)
    requires Inv(s) && Lookup(s.records, id).Some?
    ensures Lookup(s.records, id).value.lastAccessSeq <= s.sequence
  {
    assert RecordOk(s.records[FindRecord(s.records, id)], s.sequence);
  }

  // In every history the access numbers tell which of two stored checks was used last.
  lemma {:induction false} AccessOrder(calls: seq<Call>, a: nat, b: nat)
    requires Lookup(Run(calls).records, a).Some? && Lookup(Run(calls).records, b).Some?
    ensures Lookup(Run(calls).records, a).value.lastAccessSeq < Lookup(Run(calls).records, b).value.lastAccessSeq
      <==> LastUse(calls, a) < LastUse(calls, b)
    decreases |calls|
  {
    SomeCall(calls, a);
    hide Apply, Lookup, Uses, Inv;
    var before, last := calls[..|calls| - 1], calls[|calls| - 1];
    var s := Run(before);
    RunKeepsInv(before);
    AccessAny(s, last, a);
    AccessAny(s, last, b);
    if Uses(s, last, a) && Uses(s, last, b) {
      UsesOne(s, last, a, b);
    } else if Uses(s, last, a) {
      AccessWithin(s, b);
    } else if Uses(s, last, b) {
      AccessWithin(s, a);
    } else {
      AccessOrder(before, a, b);
    }
  }

  // So in every history the record that goes was used before every other record that may go.
  lemma EvictedWasUsedFirst(calls: seq<Call>, r: CheckRecord)
    requires var s := Run(calls);
      var v := Victim(s.records, s.iteration);
      v < |s.records| && r in s.records && MayGo(r, s.iteration) && r != s.records[v]
    ensures var s := Run(calls);
      LastUse(calls, s.records[Victim(s.records, s.iteration)].invocationId) < LastUse(calls, r.invocationId)
  {
    hide Run, Victim, Evictable, MayGo, Lookup, LastUse;
    var s := Run(calls);
    RunKeepsInv(calls);
    IssuedInOrderOf(s);
    VictimIsLeastRecentlyUsed(s.records, s.iteration);
    var w := s.records[Victim(s.records, s.iteration)];
    LookupMeans(s.records, w.invocationId, w);
    LookupMeans(s.records, r.invocationId, r);
    AccessOrder(calls, w.invocationId, r.invocationId);
    AccessesDiffer(s, w, r);
  }

  lemma AccessesDiffer(s: State, a: CheckRecord, b: CheckRecord)
    requires Inv(s) && a in s.records && b in s.records && a != b
    ensures a.lastAccessSeq != b.lastAccessSeq
  {
  }
}
