// Whole histories of calls on one evidence store: when a stored conclusion may be used again.
module EvidenceHistory {
  import opened EvidenceInvariant
  import opened EvidenceSnapshot
  import opened EvidenceState
  import opened Optional
  import opened ReadRanges
  import opened ToolFacts
  import opened Untrusted

  // `Resume` is a restart: a fresh store restored from the snapshot of this one.
  datatype Call =
    | Iterate(next: Option<real>)
    | Invoke(origin: string, specHash: string, fingerprint: Option<string>)
    | Reuse(specHash: string, fingerprint: Option<string>)
    | Invalidate(reason: string)
    | Finish(id: nat, raw: Field<RawFacts>, after: Field<string>)
    | GiveUp(id: nat, reason: string)
    | Read(readFacts: seq<Field<RawRead>>)
    | Mutate(mutationFacts: seq<Field<RawMutation>>)
    | Resume

  function Apply(s: State, c: Call): State {
    match c
    case Iterate(next) => SetIteration(s, next)
    case Invoke(origin, specHash, fingerprint) => GetOrCreate(s, origin, specHash, fingerprint).0
    case Reuse(specHash, fingerprint) => FindReusable(s, specHash, fingerprint).0
    case Invalidate(reason) => InvalidateCompleted(s, reason)
    case Finish(id, raw, after) => RecordResult(s, id, raw, after).0
    case GiveUp(id, reason) => RecordUncertain(s, id, reason)
    case Read(facts) => RecordReads(s, facts).0
    case Mutate(facts) => RecordMutations(s, facts).0
    case Resume => Restore(EMPTY, Is(TakeSnapshot(s)))
  }

  function Run(calls: seq<Call>): State {
    if calls == [] then EMPTY else Apply(Run(calls[..|calls| - 1]), calls[|calls| - 1])
  }

  // ----- a restart keeps the invariant --------------------------------------------------------------------

  lemma {:induction false} AcceptedSkips<A, B>(items: seq<Field<A>>, f: A -> Option<B>, v: nat)
    requires v < |items| && (items[v].Is? ==> f(items[v].value).None?)
    ensures Accepted(items, f) == Accepted(RemoveAt(items, v), f)
  {
    if v == 0 {
      assert RemoveAt(items, 0) == items[1..];
    } else {
      AcceptedSkips(items[1..], f, v - 1);
      assert RemoveAt(items, v)[1..] == RemoveAt(items[1..], v - 1);
    }
  }

  lemma WrittenRemoves<A, B>(items: seq<B>, write: B -> A, v: nat)
    requires v < |items|
    ensures WrapAll(MapSeq(RemoveAt(items, v), write)) == RemoveAt(WrapAll(MapSeq(items, write)), v)
  {
  }

  function ReadBack(records: seq<CheckRecord>): seq<CheckRecord> {
    Accepted(WrapAll(MapSeq(records, WriteRecord)), NormalizeRecord)
  }

  function ReadBackPending(pending: seq<PendingInvocation>): seq<PendingInvocation> {
    Accepted(WrapAll(MapSeq(pending, WritePending)), NormalizePending)
  }

  lemma UnnamedSkipped(records: seq<CheckRecord>, pending: seq<PendingInvocation>, n: nat, v: nat)
    requires RecordsInv(records, pending, n) && v < |records| && !Named(records[v])
    ensures ReadBack(records) == ReadBack(RemoveAt(records, v))
    ensures ReadBackPending(pending) == ReadBackPending(RemoveAt(pending, v))
  {
    assert RecordOk(records[v], n);
    RecordReadsBack(records[v], n);
    assert pending[v] == Mirror(records[v]);
    WrittenRemoves(records, WriteRecord, v);
    WrittenRemoves(pending, WritePending, v);
    AcceptedSkips(WrapAll(MapSeq(records, WriteRecord)), NormalizeRecord, v);
    AcceptedSkips(WrapAll(MapSeq(pending, WritePending)), NormalizePending, v);
  }

  lemma NamedReadBack(records: seq<CheckRecord>, pending: seq<PendingInvocation>, n: nat)
    requires RecordsInv(records, pending, n) && AllNamed(records)
    ensures ReadBack(records) == records && ReadBackPending(pending) == pending
    ensures SetAll([], pending) == pending
  {
    hide RecordsInv, Accepted, NormalizePending, NormalizeRecord, MapSeq, WrapAll;
    WrittenRecords(records, pending, n);
    WrittenPending(records, pending, n);
    PendingSetInOrder(records, pending, n);
  }

  // A restart keeps the records that have a name, in order, and their entries.
  lemma {:induction false} RestartKeepsRecords(records: seq<CheckRecord>, pending: seq<PendingInvocation>, n: nat)
    requires RecordsInv(records, pending, n)
    ensures RecordsInv(ReadBack(records), SetAll([], ReadBackPending(pending)), n)
    ensures forall r :: r in ReadBack(records) <==> r in records && Named(r)
    decreases |records|
  {
    if AllNamed(records) {
      NamedReadBack(records, pending, n);
    } else {
      var v :| 0 <= v < |records| && !Named(records[v]);
      UnnamedSkipped(records, pending, n, v);
      RemoveKeepsInv(records, pending, n, v);
      RestartKeepsRecords(RemoveAt(records, v), RemoveAt(pending, v), n);
      MembersOfRemove(records, v);
    }
  }

  lemma MembersOfRemove<T(!new)>(records: seq<T>, v: nat)
    requires v < |records|
    ensures forall r :: r in records <==> r in RemoveAt(records, v) || r == records[v]
  {
    forall r | r in records && r != records[v] ensures r in RemoveAt(records, v) {
      var i :| 0 <= i < |records| && records[i] == r;
      assert RemoveAt(records, v)[if i < v then i else i - 1] == r;
    }
  }

  lemma SizesOf(s: State)
    requires Inv(s)
    ensures |s.records| <= MAX_CHECK_RECORDS && |s.pending| == |s.records|
  {
  }

  lemma ResumeKeeps(s: State)
    requires Inv(s)
    ensures var t := Apply(s, Resume);
      && Inv(t) && t.sequence == s.sequence && t.records == ReadBack(s.records)
      && t.readPrints == s.readPrints && t.mutations == s.mutations
      && forall r :: r in t.records <==> r in s.records && Named(r)
  {
    hide RecordsInv, ReadsInv, MutationsInv, Accepted, SetAll, LastOf;
    assert |s.records| <= MAX_CHECK_RECORDS && |s.pending| == |s.records| by { SizesOf(s); }
    RestartKeepsRecords(s.records, s.pending, s.sequence);
    ReadsComeBack(s);
    MutationsComeBack(s);
  }

  // ----- the invariant holds in every history --------------------------------------------------------------

  lemma ApplyKeepsInv(s: State, c: Call)
    requires Inv(s)
    ensures Inv(Apply(s, c))
  {
    hide RecordsInv, ReadsInv, MutationsInv, GetOrCreate, FindReusable, RecordResult,
      RecordUncertain, RecordReads, RecordMutations, Restore;
    match c
    case Iterate(next) =>
    case Invoke(origin, specHash, fingerprint) => CreateKeepsInv(s, origin, specHash, fingerprint);
    case Reuse(specHash, fingerprint) => ReuseKeepsInv(s, specHash, fingerprint);
    case Invalidate(reason) => InvalidateAllKeeps(s.records, s.pending, s.sequence, reason);
    case Finish(id, raw, after) => RecordResultKeepsInv(s, id, raw, after);
    case GiveUp(id, reason) => UncertainKeepsInv(s, id, reason);
    case Read(facts) => RecordReadsKeepInv(s, facts);
    case Mutate(facts) => RecordMutationsKeepInv(s, facts);
    case Resume => ResumeKeeps(s);
  }

  lemma {:induction false} RunKeepsInv(calls: seq<Call>)
    ensures Inv(Run(calls))
  {
    if calls == [] {
      EmptyInv();
    } else {
      RunKeepsInv(calls[..|calls| - 1]);
      ApplyKeepsInv(Run(calls[..|calls| - 1]), calls[|calls| - 1]);
    }
  }

  // ----- which mutations are new --------------------------------------------------------------------------

  ghost predicate KnownKey(ms: seq<MutationFingerprint>, key: string) {
    exists m :: m in ms && MutationKey(m) == key
  }

  // A well-formed mutation whose (path, before, after) key is not among the retained ones.
  ghost predicate IsNew(ms: seq<MutationFingerprint>, fact: Field<RawMutation>) {
    fact.Is? && NormalizeMutation(fact.value).Some? && !KnownKey(ms, MutationKey(NormalizeMutation(fact.value).value))
  }

  ghost predicate AnyNew(ms: seq<MutationFingerprint>, facts: seq<Field<RawMutation>>) {
    exists i :: 0 <= i < |facts| && IsNew(ms, facts[i])
  }

  lemma StampKeepsKey(m: RawMutation, n: int)
    ensures NormalizeMutation(m.(seqNumber := Is(n))).Some? <==> NormalizeMutation(m).Some?
    ensures NormalizeMutation(m).Some? ==>
      MutationKey(NormalizeMutation(m.(seqNumber := Is(n))).value) == MutationKey(NormalizeMutation(m).value)
  {
  }

  lemma RefreshKeepsKeys(ms: seq<MutationFingerprint>, i: nat, n: int, key: string)
    requires i < |ms|
    ensures KnownKey(RemoveAt(ms, i) + [ms[i].(seqNumber := n)], key) <==> KnownKey(ms, key)
  {
    var last := ms[i].(seqNumber := n);
    assert MutationKey(last) == MutationKey(ms[i]);
    hide MutationKey, RemoveAt;
    MembersOfRemove(ms, i);
    var t := RemoveAt(ms, i) + [last];
    assert forall m :: m in t <==> m in RemoveAt(ms, i) || m == last;
    assert last in t && ms[i] in ms;
  }

  // A new mutation takes every settled record out of use; a known one changes no record.
  lemma MutationEffect(s: State, fact: Field<RawMutation>)
    ensures var (t, added) := RecordMutation(s, fact);
      && added == IsNew(s.mutations, fact)
      && t.records == (if added then InvalidateAll(s.records, "workspace_changed") else s.records)
      && (!added ==> forall key :: KnownKey(t.mutations, key) <==> KnownKey(s.mutations, key))
  {
    hide MutationKey, InvalidateAll, NormalizeMutation;
    if fact.Is? {
      StampKeepsKey(fact.value, s.sequence + 1);
      var m := NormalizeMutation(fact.value.(seqNumber := Is(s.sequence + 1)));
      if m.Some? {
        FindMutationByKey(s.mutations, MutationKey(m.value));
        var i := FindMutation(s.mutations, MutationKey(m.value));
        if i < |s.mutations| {
          forall key ensures KnownKey(RecordMutation(s, fact).0.mutations, key) <==> KnownKey(s.mutations, key) {
            RefreshKeepsKeys(s.mutations, i, s.sequence + 1, key);
          }
        }
      }
    }
  }

  lemma InvalidateTwice(records: seq<CheckRecord>, reason: string)
    ensures InvalidateAll(InvalidateAll(records, reason), reason) == InvalidateAll(records, reason)
  {
    var a := InvalidateAll(records, reason);
    forall i | 0 <= i < |a| ensures InvalidateRecord(a[i], reason) == a[i] {
      assert a[i] == InvalidateRecord(records[i], reason);
    }
    assert InvalidateAll(a, reason) == a;
  }

  // A batch counts a new mutation, and invalidates, exactly when one of its keys is not retained yet.
  lemma {:induction false} MutationsEffect(s: State, facts: seq<Field<RawMutation>>)
    ensures var (t, added) := RecordMutations(s, facts);
      && (added > 0 <==> AnyNew(s.mutations, facts))
      && t.records == (if added > 0 then InvalidateAll(s.records, "workspace_changed") else s.records)
    decreases facts
  {
    hide IsNew, InvalidateAll, RecordMutation, KnownKey;
    if facts != [] {
      MutationEffect(s, facts[0]);
      InvalidateTwice(s.records, "workspace_changed");
      var (t, isNew) := RecordMutation(s, facts[0]);
      MutationsEffect(t, facts[1..]);
      if !isNew {
        forall k | 0 <= k < |facts[1..]| ensures IsNew(t.mutations, facts[1..][k]) <==> IsNew(s.mutations, facts[k + 1]) {
          SameKeysSameNew(s.mutations, t.mutations, facts[k + 1]);
        }
        AnyNewTail(s.mutations, t.mutations, facts);
      }
    }
  }

  lemma AnyNewTail(ms: seq<MutationFingerprint>, ns: seq<MutationFingerprint>, facts: seq<Field<RawMutation>>)
    requires facts != [] && !IsNew(ms, facts[0])
    requires forall k :: 0 <= k < |facts[1..]| ==> (IsNew(ns, facts[1..][k]) <==> IsNew(ms, facts[k + 1]))
    ensures AnyNew(ns, facts[1..]) <==> AnyNew(ms, facts)
  {
    hide IsNew;
    if AnyNew(ms, facts) {
      var i :| 0 <= i < |facts| && IsNew(ms, facts[i]);
      assert IsNew(ns, facts[1..][i - 1]);
    }
    if AnyNew(ns, facts[1..]) {
      var i :| 0 <= i < |facts[1..]| && IsNew(ns, facts[1..][i]);
      assert IsNew(ms, facts[i + 1]);
    }
  }

  lemma SameKeysSameNew(ms: seq<MutationFingerprint>, ns: seq<MutationFingerprint>, fact: Field<RawMutation>)
    requires forall key :: KnownKey(ms, key) <==> KnownKey(ns, key)
    ensures IsNew(ms, fact) <==> IsNew(ns, fact)
  {
  }

  // ----- looking a record up by its id -----------------------------------------------------------------------

  function Lookup(records: seq<CheckRecord>, id: nat): Option<CheckRecord> {
    var i := FindRecord(records, id);
    if i < |records| then Some(records[i]) else None
  }

  lemma LookupMeans(records: seq<CheckRecord>, id: nat, r: CheckRecord)
    requires IssuedInOrder(records)
    ensures Lookup(records, id) == Some(r) <==> r in records && r.invocationId == id
  {
    FindRecordById(records, id);
    if r in records && r.invocationId == id {
      var k :| 0 <= k < |records| && records[k] == r;
      assert FindRecord(records, id) == k;
    }
  }

  // What one call does to the conclusion stored under `id`.
  ghost predicate Settles(s: State, c: Call, id: nat) {
    && c.Finish? && c.id == id
    && Lookup(s.records, id).Some?
    && Validate(c.raw).reusable
    && HasText(Lookup(s.records, id).value.inputFingerprint)
    && !InputChanged(Lookup(s.records, id).value, c.after)
    && !Invalidates(s, c)
  }

  // The call reports a change of the workspace, or is told of one.
  ghost predicate Invalidates(s: State, c: Call) {
    match c
    case Invalidate(_) => true
    case Mutate(facts) => AnyNew(s.mutations, facts)
    case Finish(id, raw, _) => Lookup(s.records, id).Some? && AnyNew(s.mutations, FactMutations(Validate(raw)))
    case _ => false
  }

  ghost predicate Touches(c: Call, id: nat) { (c.Finish? || c.GiveUp?) && c.id == id }

  ghost predicate Harmless(s: State, c: Call, id: nat) { !Touches(c, id) && !Invalidates(s, c) }

  ghost predicate SameStanding(a: CheckRecord, b: CheckRecord) {
    SameIdentity(a, b) && a.reusable == b.reusable && a.conclusion == b.conclusion
  }

  // The record under `id` before (`None` if there was none) and after a call.
  ghost predicate StepOk(s: State, c: Call, id: nat, before: Option<CheckRecord>, r: CheckRecord) {
    if before.None? then c.Invoke? && id == s.sequence + 1 && !r.reusable && r.executionState == Pending
    else
      && SameIdentity(before.value, r)
      && (Harmless(s, c, id) ==> SameStanding(before.value, r))
      && (!Harmless(s, c, id) ==> (r.reusable <==> Settles(s, c, id)))
      && (Settles(s, c, id) ==> r.conclusion == Some(Validate(c.raw).facts.value.check.value.conclusion))
  }

  ghost predicate StepHolds(s: State, c: Call, id: nat) {
    Lookup(Apply(s, c).records, id).Some? ==> StepOk(s, c, id, Lookup(s.records, id), Lookup(Apply(s, c).records, id).value)
  }

  // Two tables that hold the same ids at the same places.
  ghost predicate SameIds(a: seq<CheckRecord>, b: seq<CheckRecord>) {
    |a| == |b| && forall i :: 0 <= i < |a| ==> a[i].invocationId == b[i].invocationId
  }

  lemma SamePlace(a: seq<CheckRecord>, b: seq<CheckRecord>, id: nat)
    requires SameIds(a, b)
    ensures FindRecord(a, id) == FindRecord(b, id)
  {
    FindRecordById(a, id);
    FindRecordById(b, id);
    var i, j := FindRecord(a, id), FindRecord(b, id);
    var p := (r: CheckRecord) => r.invocationId == id;
    assert forall k :: 0 <= k < i ==> !p(a[k]) ==> a[k].invocationId != id;
    assert forall k :: 0 <= k < j ==> !p(b[k]) ==> b[k].invocationId != id;
  }

  lemma StepInvoke(s: State, origin: string, specHash: string, fingerprint: Option<string>, id: nat)
    requires Inv(s)
    ensures StepHolds(s, Invoke(origin, specHash, fingerprint), id)
  {
    hide Validate, FindPending, FindUnresolved, MakeRoom, Existing, Lookup, Inv, HasText, InputChanged;
    var c := Invoke(origin, specHash, fingerprint);
    var t := Apply(s, c);
    CreateKeepsInv(s, origin, specHash, fingerprint);
    var found := Lookup(t.records, id);
    if found.Some? && t != s {
      IssuedInOrderOf(s);
      IssuedInOrderOf(t);
      LookupMeans(t.records, id, found.value);
      RoomIsFromRecords(s);
      if found.value in s.records {
        LookupMeans(s.records, id, found.value);
      } else {
        NewIsUnknown(s, s.sequence + 1);
      }
    }
  }

  lemma IssuedInOrderOf(s: State)
    requires Inv(s)
    ensures IssuedInOrder(s.records)
  {
  }

  lemma NewIsUnknown(s: State, id: nat)
    requires Inv(s) && id > s.sequence
    ensures Lookup(s.records, id).None?
  {
    FindRecordById(s.records, id);
    assert forall k :: 0 <= k < |s.records| ==> RecordOk(s.records[k], s.sequence);
  }

  lemma StepResume(s: State, id: nat)
    requires Inv(s)
    ensures StepHolds(s, Resume, id)
  {
    hide ReadBack, Restore, TakeSnapshot;
    ResumeKeeps(s);
    var found := Lookup(Apply(s, Resume).records, id);
    if found.Some? {
      LookupMeans(Apply(s, Resume).records, id, found.value);
      LookupMeans(s.records, id, found.value);
    }
  }

  lemma StepReuse(s: State, specHash: string, fingerprint: Option<string>, id: nat)
    ensures StepHolds(s, Reuse(specHash, fingerprint), id)
  {
    hide FindUnresolved, FindMatch, Validate;
    SamePlace(s.records, Apply(s, Reuse(specHash, fingerprint)).records, id);
  }

  lemma StepInvalidate(s: State, reason: string, id: nat)
    requires Inv(s)
    ensures StepHolds(s, Invalidate(reason), id)
  {
    hide Validate;
    InvalidateAllKeeps(s.records, s.pending, s.sequence, reason);
    var t := InvalidateAll(s.records, reason);
    SamePlace(s.records, t, id);
    var i := FindRecord(s.records, id);
    if i < |s.records| {
      assert RecordOk(s.records[i], s.sequence);
    }
  }

  lemma StepGiveUp(s: State, gone: nat, reason: string, id: nat)
    ensures StepHolds(s, GiveUp(gone, reason), id)
  {
    hide Validate, HasText, InputChanged, IsReusable;
    FindRecordById(s.records, gone);
    FindRecordById(s.records, id);
    SamePlace(s.records, Apply(s, GiveUp(gone, reason)).records, id);
  }

  lemma MutatedRecord(s: State, facts: seq<Field<RawMutation>>, id: nat, before: CheckRecord, r: CheckRecord)
    requires before.reusable ==> before.executionState == Settled
    requires r == if AnyNew(s.mutations, facts) then InvalidateRecord(before, "workspace_changed") else before
    ensures StepOk(s, Mutate(facts), id, Some(before), r)
  {
    hide AnyNew, Validate, Lookup;
  }

  lemma StepMutate(s: State, facts: seq<Field<RawMutation>>, id: nat)
    requires Inv(s)
    ensures StepHolds(s, Mutate(facts), id)
  {
    hide Validate, AnyNew, InvalidateAll, RecordMutations, IsReusable, HasText, InputChanged, StepOk, InvalidateRecord;
    MutationsEffect(s, facts);
    InvalidateAllKeeps(s.records, s.pending, s.sequence, "workspace_changed");
    assert SameIds(s.records, InvalidateAll(s.records, "workspace_changed")) by { InvalidKeepsIds(s.records, "workspace_changed"); }
    SamePlace(s.records, InvalidateAll(s.records, "workspace_changed"), id);
    var i := FindRecord(s.records, id);
    if i < |s.records| {
      PartsOfInv(s, i);
      MutatedRecord(s, facts, id, s.records[i], RecordMutations(s, facts).0.records[i]);
    }
  }

  lemma InvalidKeepsIds(records: seq<CheckRecord>, reason: string)
    ensures SameIds(records, InvalidateAll(records, reason))
  {
  }

  // What settling does to the settled record: reusable exactly when the facts and the input allow it.
  lemma SettledRecord(s: State, i: nat, raw: Field<RawFacts>, after: Field<string>)
    requires Inv(s) && i < |s.records|
    ensures var v := Validate(raw);
      && (v.valid ==> v.facts.Some?)
      && var r := Settle(s, i, v, after).records[i];
      && SameIdentity(s.records[i], r) && r.executionState == Settled
      && (r.reusable <==> v.reusable && HasText(s.records[i].inputFingerprint) && !InputChanged(s.records[i], after))
      && (r.reusable ==> v.facts.Some? && v.facts.value.check.Some? && r.conclusion == Some(v.facts.value.check.value.conclusion))
      && Settle(s, i, v, after).records == s.records[i := r]
      && Settle(s, i, v, after).mutations == s.mutations
  {
    ValidFactsHold(raw);
    ReusableIffCompleteLint(raw);
    ReusableFacts(raw);
    hide Validate;
  }

  lemma ReusableFacts(raw: Field<RawFacts>)
    ensures Validate(raw).reusable ==>
      && Validate(raw).valid && Validate(raw).facts.Some? && Validate(raw).facts.value.check.Some?
      && Validate(raw).facts.value.check.value.profile == BiomeLint
  {
  }

  // The table after a finished check: the settled record in its place, all of them taken out of use
  // when the facts report a new mutation.
  lemma FinishedTable(s: State, c: Call, i: nat)
    requires Inv(s) && c.Finish? && i == FindRecord(s.records, c.id) < |s.records|
    ensures Validate(c.raw).valid ==> Validate(c.raw).facts.Some?
    ensures var upd := Settle(s, i, Validate(c.raw), c.after).records;
      && |upd| == |s.records|
      && Apply(s, c).records == (
        if AnyNew(s.mutations, FactMutations(Validate(c.raw))) then InvalidateAll(upd, "workspace_changed") else upd)
  {
    hide Validate, AnyNew, InvalidateAll, Settle, RecordReads, RecordMutations, FactReads, FactMutations;
    var v := Validate(c.raw);
    SettledRecord(s, i, c.raw, c.after);
    SettleKeepsInv(s, i, c.raw, c.after);
    var settled := Settle(s, i, v, c.after);
    RecordReadsKeepInv(settled, FactReads(v));
    MutationsEffect(RecordReads(settled, FactReads(v)).0, FactMutations(v));
  }

  lemma AtPlace(s: State, upd: seq<CheckRecord>, isNew: bool, i: nat, id: nat)
    requires |upd| == |s.records| && i < |upd| && SameIdentity(s.records[i], upd[i]) && upd == s.records[i := upd[i]]
    ensures var after := if isNew then InvalidateAll(upd, "workspace_changed") else upd;
      && |after| == |upd|
      && FindRecord(after, id) == FindRecord(s.records, id)
      && forall k :: 0 <= k < |after| ==> after[k] == (if isNew then InvalidateRecord(upd[k], "workspace_changed") else upd[k])
  {
    var after := if isNew then InvalidateAll(upd, "workspace_changed") else upd;
    SamePlace(s.records, after, id);
  }

  lemma StepFinish(s: State, done: nat, raw: Field<RawFacts>, after: Field<string>, id: nat)
    requires Inv(s)
    ensures StepHolds(s, Finish(done, raw, after), id)
  {
    var c := Finish(done, raw, after);
    var i := FindRecord(s.records, done);
    if i < |s.records| {
      StepSettled(s, c, id, i);
    } else {
      hide Validate;
      FindRecordById(s.records, done);
      FindRecordById(s.records, id);
    }
  }

  lemma StepSettled(s: State, c: Call, id: nat, i: nat)
    requires Inv(s) && c.Finish? && i == FindRecord(s.records, c.id) < |s.records|
    ensures StepHolds(s, c, id)
  {
    hide Validate, AnyNew, FactMutations, Apply, InputChanged, StepOk, IsReusable, Settle, InvalidateAll, HasText, Inv;
    FindRecordById(s.records, c.id);
    FindRecordById(s.records, id);
    FinishedTable(s, c, i);
    SettledRecord(s, i, c.raw, c.after);
    var upd := Settle(s, i, Validate(c.raw), c.after).records;
    var isNew := AnyNew(s.mutations, FactMutations(Validate(c.raw)));
    AtPlace(s, upd, isNew, i, id);
    var k := FindRecord(s.records, id);
    if k < |s.records| {
      PartsOfInv(s, k);
      if id == c.id {
        FinishedItself(s, c, i, upd[i], isNew, Apply(s, c).records[k]);
      } else {
        FinishedAnother(s, c, id, isNew, s.records[k], Apply(s, c).records[k]);
      }
    }
  }

  lemma FinishedItself(s: State, c: Call, i: nat, settled: CheckRecord, isNew: bool, r: CheckRecord)
    requires c.Finish? && i < |s.records| && Lookup(s.records, c.id) == Some(s.records[i])
    requires SameIdentity(s.records[i], settled) && settled.executionState == Settled
    requires settled.reusable <==>
      Validate(c.raw).reusable && HasText(s.records[i].inputFingerprint) && !InputChanged(s.records[i], c.after)
    requires settled.reusable ==>
      && Validate(c.raw).facts.Some? && Validate(c.raw).facts.value.check.Some?
      && settled.conclusion == Some(Validate(c.raw).facts.value.check.value.conclusion)
    requires isNew == AnyNew(s.mutations, FactMutations(Validate(c.raw)))
    requires r == if isNew then InvalidateRecord(settled, "workspace_changed") else settled
    ensures StepOk(s, c, c.id, Some(s.records[i]), r)
  {
    hide Validate, AnyNew, FactMutations, Apply, InputChanged, Lookup, HasText;
  }

  lemma FinishedAnother(s: State, c: Call, id: nat, isNew: bool, before: CheckRecord, r: CheckRecord)
    requires c.Finish? && c.id != id && Lookup(s.records, c.id).Some?
    requires isNew == AnyNew(s.mutations, FactMutations(Validate(c.raw)))
    requires before.reusable ==> before.executionState == Settled
    requires r == if isNew then InvalidateRecord(before, "workspace_changed") else before
    ensures StepOk(s, c, id, Some(before), r)
  {
    hide Validate, AnyNew, FactMutations, Apply, InputChanged, Lookup, HasText;
  }

  lemma StepAny(s: State, c: Call, id: nat)
    requires Inv(s)
    ensures StepHolds(s, c, id)
  {
    hide StepHolds;
    match c
    case Iterate(next) => StepQuiet(s, c, id);
    case Invoke(origin, specHash, fingerprint) => StepInvoke(s, origin, specHash, fingerprint, id);
    case Reuse(specHash, fingerprint) => StepReuse(s, specHash, fingerprint, id);
    case Invalidate(reason) => StepInvalidate(s, reason, id);
    case Finish(done, raw, after) => StepFinish(s, done, raw, after, id);
    case GiveUp(gone, reason) => StepGiveUp(s, gone, reason, id);
    case Read(facts) =>
      RecordReadsKeepInv(s, facts);
      StepQuiet(s, c, id);
    case Mutate(facts) => StepMutate(s, facts, id);
    case Resume => StepResume(s, id);
  }

  lemma StepQuiet(s: State, c: Call, id: nat)
    requires (c.Iterate? || c.Read?) && Apply(s, c).records == s.records
    ensures StepHolds(s, c, id)
  {
    hide Apply, Validate;
  }

  // ----- a conclusion is usable exactly as long as it is earned ------------------------------------------------

  // Call number `k` settled the record with a complete lint report of the same input, and no later
  // call settled it again, gave it up, or reported a workspace change.
  ghost predicate Earned(calls: seq<Call>, k: nat, id: nat) {
    && k < |calls| && Settles(Run(calls[..k]), calls[k], id)
    && forall j :: k < j < |calls| ==> Harmless(Run(calls[..j]), calls[j], id)
  }

  lemma EarnedLast(calls: seq<Call>, k: nat, id: nat)
    requires calls != [] && k < |calls| - 1
    ensures Earned(calls, k, id) <==>
      Earned(calls[..|calls| - 1], k, id) && Harmless(Run(calls[..|calls| - 1]), calls[|calls| - 1], id)
  {
    hide Settles, Harmless, Run;
    var before := calls[..|calls| - 1];
    assert forall j :: 0 <= j < |before| ==> before[..j] == calls[..j] && before[j] == calls[j];
  }

  lemma SequenceGrows(s: State, c: Call)
    requires Inv(s)
    ensures s.sequence <= Apply(s, c).sequence
  {
    hide Validate, Inv, MakeRoom, Settle, RecordReads, RecordMutations, FindPending, FindUnresolved;
    match c
    case Invoke(origin, specHash, fingerprint) => if MakeRoom(s).Some? { RoomIsFromRecords(s); }
    case Read(facts) => RecordReadsKeepInv(s, facts);
    case Mutate(facts) => RecordMutationsKeepInv(s, facts);
    case Finish(id, raw, after) =>
      var i := FindRecord(s.records, id);
      if i < |s.records| {
        SettleKeepsInv(s, i, raw, after);
        var settled := Settle(s, i, Validate(raw), after);
        RecordReadsKeepInv(settled, FactReads(Validate(raw)));
        RecordMutationsKeepInv(RecordReads(settled, FactReads(Validate(raw))).0, FactMutations(Validate(raw)));
      }
    case Resume => ResumeKeeps(s);
    case _ =>
  }

  lemma {:induction false} SequenceMonotone(calls: seq<Call>, k: nat)
    requires k <= |calls|
    ensures Run(calls[..k]).sequence <= Run(calls).sequence
    decreases |calls|
  {
    hide Apply;
    if k < |calls| {
      var before := calls[..|calls| - 1];
      SequenceMonotone(before, k);
      assert before[..k] == calls[..k];
      RunKeepsInv(before);
      SequenceGrows(Run(before), calls[|calls| - 1]);
    } else {
      assert calls[..k] == calls;
    }
  }

  function Reported(c: Call): Conclusion {
    if c.Finish? && Validate(c.raw).facts.Some? && Validate(c.raw).facts.value.check.Some?
    then Validate(c.raw).facts.value.check.value.conclusion else Inconclusive
  }

  lemma EarnedStep(calls: seq<Call>, id: nat, k: nat)
    requires calls != []
    ensures var before, last := calls[..|calls| - 1], calls[|calls| - 1];
      Earned(calls, k, id) <==>
        || (k == |calls| - 1 && Settles(Run(before), last, id))
        || (k < |calls| - 1 && Earned(before, k, id) && Harmless(Run(before), last, id))
  {
    hide Settles, Harmless, Run;
    if k < |calls| - 1 { EarnedLast(calls, k, id); }
  }

  // An id that is only issued by the last call was never settled before.
  lemma NeverEarned(calls: seq<Call>, id: nat, k: nat)
    requires calls != [] && calls[|calls| - 1].Invoke? && id == Run(calls[..|calls| - 1]).sequence + 1
    ensures !Earned(calls, k, id)
  {
    hide Run, Apply, Validate, InputChanged, AnyNew, Harmless;
    var before := calls[..|calls| - 1];
    if k < |before| {
      SequenceMonotone(before, k);
      assert before[..k] == calls[..k];
      RunKeepsInv(calls[..k]);
      NewIsUnknown(Run(calls[..k]), id);
    }
  }

  ghost predicate EverEarned(calls: seq<Call>, id: nat) { exists k :: Earned(calls, k, id) }

  lemma EverEarnedStep(calls: seq<Call>, id: nat)
    requires calls != []
    ensures var before, last := calls[..|calls| - 1], calls[|calls| - 1];
      EverEarned(calls, id) <==> Settles(Run(before), last, id) || (EverEarned(before, id) && Harmless(Run(before), last, id))
  {
    hide Settles, Harmless, Run, Earned;
    var before, last := calls[..|calls| - 1], calls[|calls| - 1];
    EarnedStep(calls, id, |calls| - 1);
    if EverEarned(calls, id) {
      var k :| Earned(calls, k, id);
      EarnedStep(calls, id, k);
    }
    if EverEarned(before, id) && Harmless(Run(before), last, id) {
      var k :| Earned(before, k, id);
      EarnedInside(before, k, id);
      EarnedStep(calls, id, k);
    }
  }

  lemma EarnedInside(calls: seq<Call>, k: nat, id: nat)
    requires Earned(calls, k, id)
    ensures k < |calls| && calls[k].Finish? && calls[k].id == id
  {
    hide Run, Apply, Validate;
  }

  // In every history a stored record is reusable exactly when some call earned it.
  lemma {:induction false} ReusableIffEarned(calls: seq<Call>, id: nat)
    requires Lookup(Run(calls).records, id).Some?
    ensures Lookup(Run(calls).records, id).value.reusable <==> EverEarned(calls, id)
    decreases |calls|
  {
    hide Apply, Settles, Harmless, EverEarned, Lookup;
    SomeCall(calls, id);
    var before := calls[..|calls| - 1];
    var last := calls[|calls| - 1];
    RunKeepsInv(before);
    StepAny(Run(before), last, id);
    EverEarnedStep(calls, id);
    SettlesTouches(Run(before), last, id);
    if Lookup(Run(before).records, id).Some? {
      ReusableIffEarned(before, id);
    } else {
      NobodyEarned(calls, id);
    }
  }

  lemma SomeCall(calls: seq<Call>, id: nat)
    requires Lookup(Run(calls).records, id).Some?
    ensures calls != []
  {
  }

  lemma SettlesTouches(s: State, c: Call, id: nat)
    ensures Settles(s, c, id) ==> !Harmless(s, c, id)
  {
  }

  lemma NobodyEarned(calls: seq<Call>, id: nat)
    requires calls != [] && calls[|calls| - 1].Invoke? && id == Run(calls[..|calls| - 1]).sequence + 1
    ensures !EverEarned(calls, id)
  {
    hide Earned, Run;
    forall k ensures !Earned(calls, k, id) { if k >= 0 { NeverEarned(calls, id, k); } }
  }

  // The stored conclusion is the one reported by the call that earned it.
  lemma {:induction false} EarnedConclusion(calls: seq<Call>, id: nat, k: nat)
    requires Lookup(Run(calls).records, id).Some? && Earned(calls, k, id)
    ensures Lookup(Run(calls).records, id).value.conclusion == Some(Reported(calls[k]))
    decreases |calls|
  {
    hide Apply, Harmless, Lookup, Earned;
    EarnedInside(calls, k, id);
    var before := calls[..|calls| - 1];
    var last := calls[|calls| - 1];
    RunKeepsInv(before);
    StepAny(Run(before), last, id);
    EarnedStep(calls, id, k);
    if Lookup(Run(before).records, id).None? {
      NeverEarned(calls, id, k);
    } else if k < |calls| - 1 {
      EarnedConclusion(before, id, k);
    }
  }

  ghost predicate Unresolved(s: State, specHash: string) {
    exists i :: 0 <= i < |s.records| && s.records[i].specHash == specHash && s.records[i].executionState != Settled
  }

  // The record stored under `id` is of this check and input, and call `k` earned it.
  ghost predicate UsableResult(calls: seq<Call>, specHash: string, fingerprint: Option<string>, id: nat) {
    var found := Lookup(Run(calls).records, id);
    found.Some? && found.value.specHash == specHash && found.value.inputFingerprint == fingerprint && EverEarned(calls, id)
  }

  lemma UnresolvedFound(s: State, specHash: string)
    ensures FindUnresolved(s.records, specHash, None) < |s.records| <==> Unresolved(s, specHash)
  {
    var i := FindUnresolved(s.records, specHash, None);
    if i < |s.records| {
      assert s.records[i].specHash == specHash;
    } else {
      NoneUnresolved(s.records, specHash, None);
    }
  }

  predicate Matches(r: CheckRecord, specHash: string, fingerprint: string) {
    r.reusable && r.specHash == specHash && r.inputFingerprint == Some(fingerprint)
  }

  lemma MatchFound(s: State, specHash: string, fingerprint: string)
    requires Inv(s)
    ensures var i := FindMatch(s.records, specHash, fingerprint);
      && (i < |s.records| ==>
            && Matches(s.records[i], specHash, fingerprint)
            && Lookup(s.records, s.records[i].invocationId) == Some(s.records[i]))
      && (i >= |s.records| ==>
            forall r :: r in s.records && r.specHash == specHash && r.inputFingerprint == Some(fingerprint) ==> !r.reusable)
  {
    var p := (r: CheckRecord) => IsReusable(r) && r.specHash == specHash && r.inputFingerprint == Some(fingerprint);
    var i := FindMatch(s.records, specHash, fingerprint);
    if i < |s.records| {
      LookupMeans(s.records, s.records[i].invocationId, s.records[i]);
    } else {
      forall r | r in s.records && r.specHash == specHash && r.inputFingerprint == Some(fingerprint) ensures !r.reusable {
        var k :| 0 <= k < |s.records| && s.records[k] == r;
        assert RecordOk(s.records[k], s.sequence) && !p(s.records[k]);
      }
    }
  }

  // Soundness and completeness of reuse over every history: a conclusion is found for a check and an
  // input exactly when the input is known, no invocation of the check is unresolved and some retained
  // record of that check and input is still earned.
  lemma ReuseIffEarned(calls: seq<Call>, specHash: string, fingerprint: Option<string>)
    ensures FindReusable(Run(calls), specHash, fingerprint).1.Some? <==>
      && HasText(fingerprint) && !Unresolved(Run(calls), specHash)
      && exists id :: UsableResult(calls, specHash, fingerprint, id)
  {
    hide Run, EverEarned, Unresolved, FindUnresolved, FindMatch, Inv;
    var s := Run(calls);
    RunKeepsInv(calls);
    UnresolvedFound(s, specHash);
    if HasText(fingerprint) {
      MatchFound(s, specHash, fingerprint.value);
      var i := FindMatch(s.records, specHash, fingerprint.value);
      if i < |s.records| {
        ReusableIffEarned(calls, s.records[i].invocationId);
        assert UsableResult(calls, specHash, fingerprint, s.records[i].invocationId);
      } else {
        NothingUsable(calls, specHash, fingerprint);
      }
    }
  }

  lemma NothingUsable(calls: seq<Call>, specHash: string, fingerprint: Option<string>)
    requires forall r :: r in Run(calls).records && r.specHash == specHash && r.inputFingerprint == fingerprint ==> !r.reusable
    ensures forall id :: !UsableResult(calls, specHash, fingerprint, id)
  {
    hide Run, EverEarned;
    forall id | 0 <= id ensures !UsableResult(calls, specHash, fingerprint, id) {
      if Lookup(Run(calls).records, id).Some? { ReusableIffEarned(calls, id); }
    }
  }

  // What a found record says: the check and input asked for, and the passed or failed conclusion that
  // the call which earned it reported.
  lemma ReusedConclusion(calls: seq<Call>, specHash: string, fingerprint: Option<string>) returns (k: nat)
    requires FindReusable(Run(calls), specHash, fingerprint).1.Some?
    ensures var r := FindReusable(Run(calls), specHash, fingerprint).1.value;
      && r.specHash == specHash && r.inputFingerprint == fingerprint
      && Earned(calls, k, r.invocationId)
      && r.conclusion == Some(Reported(calls[k])) && r.conclusion in {Some(Passed), Some(Failed)}
  {
    hide Run, Earned, FindUnresolved, FindMatch, Inv, Reported;
    var s := Run(calls);
    RunKeepsInv(calls);
    MatchFound(s, specHash, fingerprint.value);
    var i := FindMatch(s.records, specHash, fingerprint.value);
    var id := s.records[i].invocationId;
    ReusableIffEarned(calls, id);
    k :| Earned(calls, k, id);
    EarnedInside(calls, k, id);
    EarnedConclusion(calls, id, k);
    ReusableConclusion(s, i);
  }

  lemma ReusableConclusion(s: State, i: nat)
    requires Inv(s) && i < |s.records| && s.records[i].reusable
    ensures s.records[i].conclusion in {Some(Passed), Some(Failed)}
  {
    assert RecordOk(s.records[i], s.sequence);
  }

  // ----- what a full table gives up --------------------------------------------------------------------------

  // `v` is the least recently used of the records that may go.
  ghost predicate Evicts(records: seq<CheckRecord>, v: int, iteration: int) {
    0 <= v < |records| && MayGo(records[v], iteration) && LeastRecent(records, v, iteration)
  }

  // A new invocation is refused for want of room exactly when the table is full and every record is
  // unresolved or of the current iteration; otherwise at most the least recently used of the others
  // goes, and every other record stays as it is.
  lemma InvocationEvicts(s: State, origin: string, specHash: string, fingerprint: Option<string>)
    requires Inv(s)
    requires forall r :: r in s.records ==> r.origin != origin && (r.specHash == specHash ==> r.executionState == Settled)
    ensures var (t, handle) := GetOrCreate(s, origin, specHash, fingerprint);
      && (handle.None? <==> |s.records| == MAX_CHECK_RECORDS && NoneEvictable(s.records, s.iteration))
      && (handle.None? ==> t == s)
      && (handle.Some? ==>
            var created := NewRecord(s.sequence + 1, origin, specHash, fingerprint, s.iteration);
            if |s.records| < MAX_CHECK_RECORDS then t.records == s.records + [created]
            else exists v :: Evicts(s.records, v, s.iteration) && t.records == RemoveAt(s.records, v) + [created])
  {
    NoOwner(s, origin, specHash);
    hide FindPending, FindUnresolved, Inv, NoneEvictable, LeastRecent, RemoveAt,
      Victim, DropSettled, NewRecord, Existing, Mirror, Evictable, MayGo, Evicts;
    MakeRoomKeeps(s);
    SizesOf(s);
    VictimIsLeastRecentlyUsed(s.records, s.iteration);
    VictimEvicts(s.records, s.iteration);
  }

  lemma VictimEvicts(records: seq<CheckRecord>, iteration: int)
    ensures Victim(records, iteration) < |records| ==> Evicts(records, Victim(records, iteration), iteration)
  {
    hide Victim, Evictable, MayGo;
    VictimIsLeastRecentlyUsed(records, iteration);
  }

  lemma NoOwner(s: State, origin: string, specHash: string)
    requires Inv(s)
    requires forall r :: r in s.records ==> r.origin != origin && (r.specHash == specHash ==> r.executionState == Settled)
    ensures FindPending(s.pending, origin) >= |s.pending|
    ensures FindUnresolved(s.records, specHash, Some(origin)) >= |s.records|
  {
    forall i | 0 <= i < |s.records| ensures s.records[i].origin != origin
      && (s.records[i].specHash == specHash ==> s.records[i].executionState == Settled) {
      assert s.records[i] in s.records;
    }
    NoPending(s.records, s.pending, s.sequence, origin);
  }

  // ----- a repeated change is not noticed -----------------------------------------------------------------------

  function Change(path: string, before: string, after: string): Field<RawMutation> {
    Is(RawMutation(Is(path), Is(before), Is(after), Absent))
  }

  lemma KeyIsLast(s: State, fact: Field<RawMutation>)
    requires Inv(s) && fact.Is? && NormalizeMutation(fact.value).Some?
    ensures var t := RecordMutation(s, fact).0;
      t.mutations != [] && MutationKey(t.mutations[|t.mutations| - 1]) == MutationKey(NormalizeMutation(fact.value).value)
  {
    StampKeepsKey(fact.value, s.sequence + 1);
    var m := NormalizeMutation(fact.value.(seqNumber := Is(s.sequence + 1))).value;
    hide MutationKey, NormalizeMutation, InvalidateAll;
    var i := FindMutation(s.mutations, MutationKey(m));
    FindMutationByKey(s.mutations, MutationKey(m));
    if i < |s.mutations| {
      RefreshedKey(s.mutations[i], s.sequence + 1);
    } else {
      MutationSorted(s, m);
    }
  }

  lemma RefreshedKey(m: MutationFingerprint, n: int)
    ensures MutationKey(m.(seqNumber := n)) == MutationKey(m)
  {
  }

  lemma MutationSorted(s: State, m: MutationFingerprint)
    requires Inv(s) && m.seqNumber == s.sequence + 1
    ensures TrimTo(s.mutations + [m], MAX_MUTATION_FINGERPRINTS, MutationSeq) == LastOf(s.mutations + [m], MAX_MUTATION_FINGERPRINTS)
    ensures |s.mutations| <= MAX_MUTATION_FINGERPRINTS
  {
    forall k | 0 <= k < |s.mutations| ensures MutationSeq(s.mutations[k]) < MutationSeq(m) {
      assert MutationOk(s.mutations[k], s.sequence);
    }
    TrimSorted(s.mutations + [m], MAX_MUTATION_FINGERPRINTS, MutationSeq);
  }

  // The key recorded last survives one more mutation.
  lemma LastKeySurvives(s: State, fact: Field<RawMutation>)
    requires Inv(s) && s.mutations != []
    ensures KnownKey(RecordMutation(s, fact).0.mutations, MutationKey(s.mutations[|s.mutations| - 1]))
  {
    hide MutationKey, NormalizeMutation, InvalidateAll;
    var last := s.mutations[|s.mutations| - 1];
    MutationEffect(s, fact);
    assert last in s.mutations;
    var t := RecordMutation(s, fact);
    if t.1 {
      var m := NormalizeMutation(fact.value.(seqNumber := Is(s.sequence + 1))).value;
      NormalizedSeq(fact.value, s.sequence + 1);
      MutationSorted(s, m);
      assert last in t.0.mutations by {
        assert t.0.mutations[|t.0.mutations| - 2] == last;
      }
    }
  }

  lemma NormalizedSeq(m: RawMutation, n: int)
    ensures NormalizeMutation(m.(seqNumber := Is(n))).Some? ==> NormalizeMutation(m.(seqNumber := Is(n))).value.seqNumber == n
  {
  }

  // A file that changes from one content to another, back, and again to the other is reported three
  // times, but the third report invalidates nothing: its key is still retained.
  lemma ChangeBackAndForth(s: State, path: string, a: string, b: string)
    requires Inv(s) && path != ""
    ensures var once := RecordMutation(s, Change(path, a, b)).0;
      var back := RecordMutation(once, Change(path, b, a)).0;
      var (again, added) := RecordMutation(back, Change(path, a, b));
      !added && again.records == back.records
  {
    var once := RecordMutation(s, Change(path, a, b)).0;
    var back := RecordMutation(once, Change(path, b, a)).0;
    KeyIsLast(s, Change(path, a, b));
    RecordMutationKeepsInv(s, Change(path, a, b));
    LastKeySurvives(once, Change(path, b, a));
    MutationEffect(back, Change(path, a, b));
  }
}
