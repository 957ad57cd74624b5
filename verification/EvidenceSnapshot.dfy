// Saving and restoring the evidence store (src/runtime/execution-evidence-store.ts:160-337, 359-425, 495-503,
// 726-735).
module EvidenceSnapshot {
  import opened EvidenceInvariant
  import opened EvidenceState
  import opened Optional
  import opened ReadRanges
  import opened ToolFacts
  import opened Untrusted

  const SNAPSHOT_VERSION := 1

  datatype RawRecord = RawRecord(
    checkId: Field<nat>, invocationId: Field<nat>, origin: Field<string>, specHash: Field<string>, profile: Field<Profile>,
    inputFingerprint: Field<string>, scopeComplete: Field<bool>, executionState: Field<ExecutionState>,
    conclusion: Field<Conclusion>, process: Field<RawProcess>, diagnostics: Field<seq<Field<RawDiagnostic>>>,
    source: Field<Source>, reusable: Field<bool>, invalidationReason: Field<Reason>, lastAccessSeq: Field<int>,
    iteration: Field<int>)

  datatype RawPending = RawPending(
    invocationId: Field<nat>, checkId: Field<nat>, origin: Field<string>, specHash: Field<string>,
    inputFingerprint: Field<string>, executionState: Field<ExecutionState>, iteration: Field<int>)

  datatype RawSnapshot = RawSnapshot(
    version: Field<int>, sequence: Field<int>, records: Field<seq<Field<RawRecord>>>,
    readPrints: Field<seq<Field<RawRead>>>, mutations: Field<seq<Field<RawMutation>>>, pending: Field<seq<Field<RawPending>>>)

  // ----- reading a snapshot of unknown shape -----------------------------------------------------------

  function NormalizeProcess(f: Field<RawProcess>): Option<ProcessFact> {
    if !f.Is? then None
    else
      var p := f.value;
      if !(p.exitCode.Null? || p.exitCode.Is?) || !p.timedOut.Is? || !p.logsComplete.Is? then None
      else Some(ProcessFact(Known(p.exitCode), p.timedOut.value, p.logsComplete.value, Known(p.stdoutRef), Known(p.stderrRef)))
  }

  predicate UsableDiagnostic(f: Field<RawDiagnostic>) {
    && f.Is? && NonEmpty(f.value.path) && NonEmpty(f.value.rule) && f.value.severity.Is? && f.value.message.Is?
    && f.value.primarySnippet.Is? && f.value.relatedSnippets.Is? && f.value.fingerprint.Is?
  }

  function NormalizeDiagnostic(f: Field<RawDiagnostic>): RawDiagnostic
    requires UsableDiagnostic(f)
  {
    f.value.(relatedSnippets := Is(WrapAll(KnownOnly(f.value.relatedSnippets.value))))
  }

  function Prefix<T>(s: seq<T>, n: nat): seq<T> { if |s| <= n then s else s[..n] }

  predicate AllUsable(items: seq<Field<RawDiagnostic>>) {
    forall i :: 0 <= i < |items| ==> UsableDiagnostic(items[i])
  }

  function NormalizeDiagnostics(f: Field<seq<Field<RawDiagnostic>>>): Option<seq<RawDiagnostic>> {
    if !f.Is? then None
    else
      var items := Prefix(f.value, MAX_DIAGNOSTICS);
      if !AllUsable(items) then None
      else Some(seq(|items|, i requires 0 <= i < |items| => NormalizeDiagnostic(items[i])))
  }

  function NormalizeRecord(r: RawRecord): Option<CheckRecord> {
    if !r.checkId.Is? || !r.invocationId.Is? || !NonEmpty(r.origin) || !NonEmpty(r.specHash) || !r.executionState.Is?
       || !r.source.Is? || !(r.conclusion.Null? || r.conclusion.Is?)
       || (!r.diagnostics.Null? && NormalizeDiagnostics(r.diagnostics).None?)
    then None
    else
      Some(CheckRecord(
        r.checkId.value, r.invocationId.value, r.origin.value, r.specHash.value, Known(r.profile), Known(r.inputFingerprint),
        r.scopeComplete == Is(true), r.executionState.value, Known(r.conclusion), NormalizeProcess(r.process),
        if r.diagnostics.Null? then None else NormalizeDiagnostics(r.diagnostics), r.source.value,
        r.reusable == Is(true) && r.profile == Is(BiomeLint) && NonEmpty(r.inputFingerprint) && r.scopeComplete == Is(true),
        Known(r.invalidationReason), NumberOr0(r.lastAccessSeq), NumberOr0(r.iteration)))
  }

  function NormalizePending(p: RawPending): Option<PendingInvocation> {
    if !p.invocationId.Is? || !p.checkId.Is? || !NonEmpty(p.origin) || !NonEmpty(p.specHash) || !p.executionState.Is? then None
    else
      Some(PendingInvocation(p.invocationId.value, p.checkId.value, p.origin.value, p.specHash.value,
                             Known(p.inputFingerprint), p.executionState.value, NumberOr0(p.iteration)))
  }

  // The items that are objects and that `f` accepts.
  function Accepted<A, B>(items: seq<Field<A>>, f: A -> Option<B>): seq<B> {
    if items == [] then []
    else
      (if items[0].Is? && f(items[0].value).Some? then [f(items[0].value).value] else []) + Accepted(items[1..], f)
  }

  function ListOf<A>(f: Field<seq<A>>): seq<A> { if f.Is? then f.value else [] }

  function SetEntry(pending: seq<PendingInvocation>, e: PendingInvocation): seq<PendingInvocation> {
    var i := FindPending(pending, e.origin);
    if i < |pending| then pending[i := e] else pending + [e]
  }

  function SetAll(pending: seq<PendingInvocation>, es: seq<PendingInvocation>): seq<PendingInvocation>
    decreases es
  {
    if es == [] then pending else SetAll(SetEntry(pending, es[0]), es[1..])
  }

  function Restore(s: State, raw: Field<RawSnapshot>): State {
    if !raw.Is? || raw.value.version != Is(SNAPSHOT_VERSION) then EMPTY.(iteration := s.iteration)
    else
      var r := raw.value;
      State(if r.sequence.Is? && r.sequence.value >= 0 then r.sequence.value else 0, s.iteration,
            Accepted(ListOf(r.records), NormalizeRecord), Accepted(ListOf(r.readPrints), NormalizeRead),
            Accepted(ListOf(r.mutations), NormalizeMutation), SetAll([], Accepted(ListOf(r.pending), NormalizePending)))
  }

  // ----- writing a snapshot ---------------------------------------------------------------------------------

  function WriteProcess(p: ProcessFact): RawProcess {
    RawProcess(WrapNull(p.exitCode), Is(p.timedOut), Is(p.logsComplete), Wrap(p.stdoutRef), Wrap(p.stderrRef))
  }

  function WriteRecord(r: CheckRecord): RawRecord {
    RawRecord(
      Is(r.checkId), Is(r.invocationId), Is(r.origin), Is(r.specHash), Wrap(r.profile), WrapNull(r.inputFingerprint),
      Is(r.scopeComplete), Is(r.executionState), WrapNull(r.conclusion),
      if r.process.Some? then Is(WriteProcess(r.process.value)) else Null,
      if r.diagnostics.Some? then Is(WrapAll(r.diagnostics.value)) else Null, Is(r.source), Is(r.reusable),
      Wrap(r.invalidationReason), Is(r.lastAccessSeq), Is(r.iteration))
  }

  function WriteRange(r: Range): Field<RawRange> { Is(RawRange(Is(r.startLine), Is(r.endLine))) }

  function WriteRead(r: ReadFingerprint): RawRead {
    RawRead(Wrap(r.kind), Is(r.path), Is(r.versionKind), Is(r.version), Wrap(r.queryHash),
            if r.returnedRanges.Some? then Is(MapSeq(r.returnedRanges.value, WriteRange)) else Absent,
            Is(r.returnedHash), Is(r.complete), Is(r.seqNumber))
  }

  function WriteMutation(m: MutationFingerprint): RawMutation {
    RawMutation(Is(m.path), WrapNull(m.beforeHash), WrapNull(m.afterHash), Is(m.seqNumber))
  }

  function WritePending(p: PendingInvocation): RawPending {
    RawPending(Is(p.invocationId), Is(p.checkId), Is(p.origin), Is(p.specHash), WrapNull(p.inputFingerprint),
               Is(p.executionState), Is(p.iteration))
  }

  function TakeSnapshot(s: State): RawSnapshot {
    RawSnapshot(
      Is(SNAPSHOT_VERSION), Is(s.sequence), Is(WrapAll(MapSeq(Prefix(s.records, MAX_CHECK_RECORDS), WriteRecord))),
      Is(WrapAll(MapSeq(LastOf(s.readPrints, MAX_READ_FINGERPRINTS), WriteRead))),
      Is(WrapAll(MapSeq(LastOf(s.mutations, MAX_MUTATION_FINGERPRINTS), WriteMutation))),
      Is(WrapAll(MapSeq(Prefix(s.pending, MAX_CHECK_RECORDS), WritePending))))
  }

  // ----- a snapshot that proves nothing restores nothing --------------------------------------------------

  // What a raw record must itself say for the restored one to be reusable.
  ghost predicate ClaimsReusable(r: RawRecord) {
    && r.reusable == Is(true) && r.profile == Is(BiomeLint) && NonEmpty(r.inputFingerprint) && r.scopeComplete == Is(true)
    && r.executionState == Is(Settled) && r.source == Is(Executed) && r.conclusion.Is?
  }

  lemma {:induction false} AcceptedComesFrom<A, B(!new)>(items: seq<Field<A>>, f: A -> Option<B>, b: B)
    returns (i: nat)
    requires b in Accepted(items, f)
    ensures i < |items| && items[i].Is? && f(items[i].value) == Some(b)
  {
    if items[0].Is? && f(items[0].value) == Some(b) {
      i := 0;
    } else {
      var k := AcceptedComesFrom(items[1..], f, b);
      i := k + 1;
    }
  }

  // Whatever is restored, a record that may be reused was stored with every one of the claims, and
  // its conclusion is the stored one.
  lemma RestoreInventsNoConclusion(s: State, raw: Field<RawSnapshot>, r: CheckRecord) returns (i: nat)
    requires r in Restore(s, raw).records
    ensures raw.Is? && raw.value.records.Is? && i < |raw.value.records.value| && raw.value.records.value[i].Is?
    ensures var stored := raw.value.records.value[i].value;
      && (r.conclusion.Some? ==> stored.conclusion == Is(r.conclusion.value))
      && (IsReusable(r) ==> ClaimsReusable(stored))
  {
    i := AcceptedComesFrom(ListOf(raw.value.records), NormalizeRecord, r);
  }

  // A diagnostic is restored as it was stored, without the snippets that are no text.
  ghost predicate SameDiagnostic(stored: RawDiagnostic, d: RawDiagnostic) {
    && d.path == stored.path && d.rule == stored.rule && d.severity == stored.severity && d.message == stored.message
    && d.primarySnippet == stored.primarySnippet && d.fingerprint == stored.fingerprint
    && stored.relatedSnippets.Is? && d.relatedSnippets == Is(WrapAll(KnownOnly(stored.relatedSnippets.value)))
  }

  ghost predicate RestoredDiagnostics(stored: Field<seq<Field<RawDiagnostic>>>, ds: Option<seq<RawDiagnostic>>) {
    if stored.Is? then
      && ds.Some? && |ds.value| == (if |stored.value| <= MAX_DIAGNOSTICS then |stored.value| else MAX_DIAGNOSTICS)
      && forall i :: 0 <= i < |ds.value| ==> stored.value[i].Is? && SameDiagnostic(stored.value[i].value, ds.value[i])
    else ds.None?
  }

  // A stored record is restored exactly when its names, states and lists have the right shape, with what it says;
  // it may be reused only with all of the claims.
  lemma RecordIsRestoredIff(raw: RawRecord)
    ensures var r := NormalizeRecord(raw);
      && (r.Some? <==>
            && raw.checkId.Is? && raw.invocationId.Is? && raw.executionState.Is? && raw.source.Is?
            && raw.origin.Is? && raw.origin.value != "" && raw.specHash.Is? && raw.specHash.value != ""
            && (raw.conclusion.Is? || raw.conclusion.Null?)
            && (raw.diagnostics.Null?
                || (raw.diagnostics.Is?
                    && forall i :: 0 <= i < |raw.diagnostics.value| && i < MAX_DIAGNOSTICS ==> UsableDiagnostic(raw.diagnostics.value[i]))))
      && (r.Some? ==>
            && raw.checkId == Is(r.value.checkId) && raw.invocationId == Is(r.value.invocationId)
            && raw.origin == Is(r.value.origin) && raw.specHash == Is(r.value.specHash)
            && raw.executionState == Is(r.value.executionState) && raw.source == Is(r.value.source)
            && r.value.profile == Known(raw.profile) && r.value.inputFingerprint == Known(raw.inputFingerprint)
            && r.value.conclusion == Known(raw.conclusion) && r.value.invalidationReason == Known(raw.invalidationReason)
            && (r.value.scopeComplete <==> raw.scopeComplete == Is(true))
            && (r.value.reusable <==> raw.reusable == Is(true) && raw.scopeComplete == Is(true) && raw.profile == Is(BiomeLint)
                                      && raw.inputFingerprint.Is? && raw.inputFingerprint.value != "")
            && r.value.lastAccessSeq == (if raw.lastAccessSeq.Is? then raw.lastAccessSeq.value else 0)
            && r.value.iteration == (if raw.iteration.Is? then raw.iteration.value else 0)
            && RestoredDiagnostics(raw.diagnostics, r.value.diagnostics))
  {
    hide UsableDiagnostic, SameDiagnostic;
    if raw.diagnostics.Is? { DiagnosticsRestored(raw.diagnostics.value); }
  }

  lemma DiagnosticsRestored(items: seq<Field<RawDiagnostic>>)
    ensures NormalizeDiagnostics(Is(items)).Some? <==>
      forall i :: 0 <= i < |items| && i < MAX_DIAGNOSTICS ==> UsableDiagnostic(items[i])
    ensures NormalizeDiagnostics(Is(items)).Some? ==> RestoredDiagnostics(Is(items), NormalizeDiagnostics(Is(items)))
  {
    var kept := Prefix(items, MAX_DIAGNOSTICS);
    assert forall i :: 0 <= i < |kept| ==> kept[i] == items[i];
  }

  // The rest of a snapshot: the sequence number when it is one, nothing of another version, and the iteration
  // of the store.
  lemma RestoreSays(s: State, raw: Field<RawSnapshot>)
    ensures var t := Restore(s, raw);
      && t.iteration == s.iteration
      && (if raw.Is? && raw.value.version == Is(1) then
            t.sequence == if raw.value.sequence.Is? && raw.value.sequence.value >= 0 then raw.value.sequence.value else 0
          else t.sequence == 0 && t.records == [] && t.readPrints == [] && t.mutations == [] && t.pending == [])
  {
    hide Accepted, SetAll, NormalizeRecord, NormalizeRead, NormalizeMutation, NormalizePending;
  }

  // ----- restoring one's own snapshot -----------------------------------------------------------------------

  ghost predicate Readable<A, B>(items: seq<B>, write: B -> A, f: A -> Option<B>) {
    forall i :: 0 <= i < |items| ==> f(write(items[i])) == Some(items[i])
  }

  lemma {:induction false} AcceptedOfWritten<A, B>(items: seq<B>, write: B -> A, f: A -> Option<B>)
    requires Readable(items, write, f)
    ensures Accepted(WrapAll(MapSeq(items, write)), f) == items
  {
    if items != [] {
      var w := WrapAll(MapSeq(items, write));
      assert f(write(items[0])) == Some(items[0]);
      AcceptedOfWritten(items[1..], write, f);
      assert w[1..] == WrapAll(MapSeq(items[1..], write));
      assert items == [items[0]] + items[1..];
    }
  }

  predicate Named(r: CheckRecord) { r.origin != "" && r.specHash != "" }

  lemma {:induction false} WrapOfKnown<T>(items: seq<Field<T>>)
    requires AllKnown(items)
    ensures WrapAll(KnownOnly(items)) == items
  {
    if items != [] {
      WrapOfKnown(items[1..]);
      assert items == [items[0]] + items[1..];
      assert WrapAll(KnownOnly(items)) == [items[0]] + WrapAll(KnownOnly(items[1..]));
    }
  }

  lemma DiagnosticReadsBack(d: RawDiagnostic)
    requires ValidDiagnostic(d)
    ensures UsableDiagnostic(Is(d)) && NormalizeDiagnostic(Is(d)) == d
  {
    WrapOfKnown(d.relatedSnippets.value);
  }

  lemma DiagnosticsReadBack(ds: seq<RawDiagnostic>)
    requires DiagnosticsOk(Some(ds))
    ensures NormalizeDiagnostics(Is(WrapAll(ds))) == Some(ds)
  {
    var w := WrapAll(ds);
    forall i | 0 <= i < |ds| ensures UsableDiagnostic(w[i]) && NormalizeDiagnostic(w[i]) == ds[i] {
      assert DiagnosticOk(ds[i]);
      DiagnosticReadsBack(ds[i]);
    }
    assert AllUsable(w);
    assert NormalizeDiagnostics(Is(w)).value == ds;
  }

  lemma RecordReadsBack(r: CheckRecord, n: nat)
    requires RecordOk(r, n)
    ensures NormalizeRecord(WriteRecord(r)) == if Named(r) then Some(r) else None
  {
    hide DiagnosticsOk, NormalizeDiagnostics;
    if r.diagnostics.Some? { DiagnosticsReadBack(r.diagnostics.value); }
    assert NormalizeProcess(WriteRecord(r).process) == r.process;
  }

  lemma {:induction false} RangesReadBack(rs: seq<Range>)
    requires forall i :: 0 <= i < |rs| ==> ToRange(WriteRange(rs[i])) == Is(rs[i])
    ensures ToRanges(MapSeq(rs, WriteRange)) == rs
  {
    var w := MapSeq(MapSeq(rs, WriteRange), ToRange);
    assert w == WrapAll(rs);
    KnownOfWrapped(rs);
  }

  lemma ReadReadsBack(r: ReadFingerprint, n: nat)
    requires ReadOk(r, n)
    ensures NormalizeRead(WriteRead(r)) == Some(r)
  {
    if r.returnedRanges.Some? {
      var rs := r.returnedRanges.value;
      forall i | 0 <= i < |rs| ensures ToRange(WriteRange(rs[i])) == Is(rs[i]) {
        assert Proper(rs[i]);
      }
      RangesReadBack(rs);
      MergedIsFixed(rs);
    }
  }

  lemma MutationReadsBack(m: MutationFingerprint, n: nat)
    requires MutationOk(m, n)
    ensures NormalizeMutation(WriteMutation(m)) == Some(m)
  {
  }

  lemma PendingReadsBack(r: CheckRecord)
    requires Named(r)
    ensures NormalizePending(WritePending(Mirror(r))) == Some(Mirror(r))
  {
  }

  // Setting entries with new keys one after the other lists them in that order.
  lemma {:induction false} SetAllAppends(pending: seq<PendingInvocation>, es: seq<PendingInvocation>)
    requires forall i, j :: 0 <= i < j < |pending + es| ==> (pending + es)[i].origin != (pending + es)[j].origin
    ensures SetAll(pending, es) == pending + es
    decreases es
  {
    if es == [] {
      assert pending + es == pending;
    } else {
      var i := FindPending(pending, es[0].origin);
      assert forall k :: 0 <= k < |pending| ==> pending[k] == (pending + es)[k];
      assert es[0] == (pending + es)[|pending|];
      assert i >= |pending|;
      assert pending + [es[0]] + es[1..] == pending + es;
      SetAllAppends(pending + [es[0]], es[1..]);
    }
  }

  ghost predicate AllNamed(records: seq<CheckRecord>) {
    forall i :: 0 <= i < |records| ==> Named(records[i])
  }

  lemma PendingSetInOrder(records: seq<CheckRecord>, pending: seq<PendingInvocation>, n: nat)
    requires RecordsInv(records, pending, n)
    ensures SetAll([], pending) == pending
  {
    hide RecordOk, SetAll;
    assert [] + pending == pending;
    forall i, j | 0 <= i < j < |pending| ensures pending[i].origin != pending[j].origin {
      assert pending[i] == Mirror(records[i]) && pending[j] == Mirror(records[j]);
    }
    SetAllAppends([], pending);
  }

  lemma WrittenRecords(records: seq<CheckRecord>, pending: seq<PendingInvocation>, n: nat)
    requires RecordsInv(records, pending, n) && AllNamed(records)
    ensures Accepted(WrapAll(MapSeq(records, WriteRecord)), NormalizeRecord) == records
  {
    hide RecordOk, Accepted, NormalizeRecord, Named, MapSeq, WrapAll, WriteRecord;
    forall i | 0 <= i < |records| ensures NormalizeRecord(WriteRecord(records[i])) == Some(records[i]) {
      assert RecordOk(records[i], n) && Named(records[i]);
      RecordReadsBack(records[i], n);
    }
    AcceptedOfWritten(records, WriteRecord, NormalizeRecord);
  }

  lemma WrittenPending(records: seq<CheckRecord>, pending: seq<PendingInvocation>, n: nat)
    requires RecordsInv(records, pending, n) && AllNamed(records)
    ensures Accepted(WrapAll(MapSeq(pending, WritePending)), NormalizePending) == pending
  {
    hide RecordOk, Accepted, NormalizePending, Named, MapSeq, WrapAll, WritePending;
    forall i | 0 <= i < |pending| ensures NormalizePending(WritePending(pending[i])) == Some(pending[i]) {
      assert pending[i] == Mirror(records[i]) && Named(records[i]);
      PendingReadsBack(records[i]);
    }
    AcceptedOfWritten(pending, WritePending, NormalizePending);
  }

  lemma RecordsComeBack(s: State)
    requires Inv(s) && AllNamed(s.records)
    ensures Accepted(WrapAll(MapSeq(Prefix(s.records, MAX_CHECK_RECORDS), WriteRecord)), NormalizeRecord) == s.records
  {
    hide Accepted, NormalizeRecord, MapSeq, WrapAll;
    WrittenRecords(s.records, s.pending, s.sequence);
  }

  lemma PendingComesBack(s: State)
    requires Inv(s) && AllNamed(s.records)
    ensures SetAll([], Accepted(WrapAll(MapSeq(Prefix(s.pending, MAX_CHECK_RECORDS), WritePending)), NormalizePending)) == s.pending
  {
    hide Accepted, NormalizePending, MapSeq, WrapAll, SetAll;
    WrittenPending(s.records, s.pending, s.sequence);
    PendingSetInOrder(s.records, s.pending, s.sequence);
  }

  lemma ReadsComeBack(s: State)
    requires Inv(s)
    ensures Accepted(WrapAll(MapSeq(LastOf(s.readPrints, MAX_READ_FINGERPRINTS), WriteRead)), NormalizeRead) == s.readPrints
  {
    forall i | 0 <= i < |s.readPrints| ensures NormalizeRead(WriteRead(s.readPrints[i])) == Some(s.readPrints[i]) {
      ReadReadsBack(s.readPrints[i], s.sequence);
    }
    AcceptedOfWritten(s.readPrints, WriteRead, NormalizeRead);
  }

  lemma MutationsComeBack(s: State)
    requires Inv(s)
    ensures Accepted(WrapAll(MapSeq(LastOf(s.mutations, MAX_MUTATION_FINGERPRINTS), WriteMutation)), NormalizeMutation) == s.mutations
  {
    forall i | 0 <= i < |s.mutations| ensures NormalizeMutation(WriteMutation(s.mutations[i])) == Some(s.mutations[i]) {
      MutationReadsBack(s.mutations[i], s.sequence);
    }
    AcceptedOfWritten(s.mutations, WriteMutation, NormalizeMutation);
  }

  lemma OnlyNamedAreRestored(items: seq<Field<RawRecord>>)
    ensures AllNamed(Accepted(items, NormalizeRecord))
  {
    forall i | 0 <= i < |Accepted(items, NormalizeRecord)| ensures Named(Accepted(items, NormalizeRecord)[i]) {
      var k := AcceptedComesFrom(items, NormalizeRecord, Accepted(items, NormalizeRecord)[i]);
    }
  }

  // A store restored from the snapshot of another is in the same state, apart from the iteration
  // (which `setIteration` sets again), exactly when no record has an empty origin or check digest.
  lemma RestoreOwnSnapshot(s: State, into: State)
    requires Inv(s)
    ensures Restore(into, Is(TakeSnapshot(s))) == s.(iteration := into.iteration) <==> AllNamed(s.records)
  {
    var t := Restore(into, Is(TakeSnapshot(s)));
    if AllNamed(s.records) {
      hide Inv, WrapAll, MapSeq, Accepted, SetAll, LastOf, Prefix;
      RecordsComeBack(s);
      PendingComesBack(s);
      ReadsComeBack(s);
      MutationsComeBack(s);
    }
    OnlyNamedAreRestored(WrapAll(MapSeq(Prefix(s.records, MAX_CHECK_RECORDS), WriteRecord)));
  }

  // So every later call is answered as the store that was saved would have answered it.
  lemma RestoredAnswersTheSame(s: State, into: State)
    requires Inv(s) && AllNamed(s.records)
    ensures SetIteration(Restore(into, Is(TakeSnapshot(s))), Some(s.iteration as real)) == s
  {
    RestoreOwnSnapshot(s, into);
    assert (s.iteration as real).Floor == s.iteration;
  }
}
