// The state of the execution evidence store and what each call does to it
// (src/runtime/execution-evidence-store.ts:32-110, 428-778).
//
// An invocation id `inv-<n>` and a check id `chk-<n>` are modelled by their number n. Times and log
// references of a record are not modelled.
module EvidenceState {
  import opened Optional
  import opened ReadRanges
  import opened StableSort
  import opened ToolFacts
  import opened Untrusted

  const MAX_CHECK_RECORDS := 32
  const MAX_READ_FINGERPRINTS := 256
  const MAX_MUTATION_FINGERPRINTS := 64

  datatype ExecutionState = Pending | Running | Settled | Uncertain
  datatype Source = Executed | Reused
  datatype Reason = Text(text: string) | FromIssue(issue: Issue)

  datatype CheckRecord = CheckRecord(
    checkId: nat, invocationId: nat, origin: string, specHash: string, profile: Option<Profile>,
    inputFingerprint: Option<string>, scopeComplete: bool, executionState: ExecutionState,
    conclusion: Option<Conclusion>, process: Option<ProcessFact>, diagnostics: Option<seq<RawDiagnostic>>,
    source: Source, reusable: bool, invalidationReason: Option<Reason>, lastAccessSeq: int, iteration: int)

  datatype ReadFingerprint = ReadFingerprint(
    kind: Option<ReadKind>, path: string, versionKind: VersionKind, version: string, queryHash: Option<string>,
    returnedHash: string, complete: bool, returnedRanges: Option<seq<Range>>, seqNumber: int)

  datatype MutationFingerprint = MutationFingerprint(
    path: string, beforeHash: Option<string>, afterHash: Option<string>, seqNumber: int)

  datatype PendingInvocation = PendingInvocation(
    invocationId: nat, checkId: nat, origin: string, specHash: string, inputFingerprint: Option<string>,
    executionState: ExecutionState, iteration: int)

  // `pending` is a JavaScript `Map` keyed by origin: its entries in insertion order.
  datatype State = State(
    sequence: nat, iteration: int, records: seq<CheckRecord>, readPrints: seq<ReadFingerprint>,
    mutations: seq<MutationFingerprint>, pending: seq<PendingInvocation>)

  datatype Handle = Handle(invocationId: nat, checkId: nat, reused: bool, record: Option<CheckRecord>)

  const EMPTY := State(0, 0, [], [], [], [])

  // ----- finding and replacing ----------------------------------------------------------------------

  // `Array.prototype.findIndex`, with the length for "not found".
  function FirstIndex<T>(s: seq<T>, p: T -> bool): (r: nat)
    ensures r <= |s| && (r < |s| ==> p(s[r])) && forall i :: 0 <= i < r ==> !p(s[i])
  {
    if s == [] then 0 else if p(s[0]) then 0 else 1 + FirstIndex(s[1..], p)
  }

  function Filter<T(!new)>(s: seq<T>, p: T -> bool): (r: seq<T>)
    ensures forall x :: x in r <==> x in s && p(x)
  {
    if s == [] then []
    else if p(s[0]) then [s[0]] + Filter(s[1..], p)
    else Filter(s[1..], p)
  }

  function RemoveAt<T>(s: seq<T>, i: nat): (r: seq<T>)
    requires i < |s|
    ensures |r| == |s| - 1 && forall k :: 0 <= k < |r| ==> r[k] == if k < i then s[k] else s[k + 1]
  {
    s[..i] + s[i + 1..]
  }

  function MapSeq<A, B>(s: seq<A>, f: A -> B): (r: seq<B>)
    ensures |r| == |s| && forall i :: 0 <= i < |r| ==> r[i] == f(s[i])
  {
    seq(|s|, i requires 0 <= i < |s| => f(s[i]))
  }

  function FindRecord(records: seq<CheckRecord>, id: nat): nat {
    FirstIndex(records, (r: CheckRecord) => r.invocationId == id)
  }

  function FindPending(pending: seq<PendingInvocation>, origin: string): nat {
    FirstIndex(pending, (e: PendingInvocation) => e.origin == origin)
  }

  function FindPendingId(pending: seq<PendingInvocation>, id: nat): nat {
    FirstIndex(pending, (e: PendingInvocation) => e.invocationId == id)
  }

  function FindUnresolved(records: seq<CheckRecord>, specHash: string, exceptOrigin: Option<string>): nat {
    FirstIndex(records, (r: CheckRecord) =>
      r.specHash == specHash && exceptOrigin != Some(r.origin) && r.executionState != Settled)
  }

  predicate IsReusable(r: CheckRecord) {
    && r.executionState == Settled && r.source == Executed && r.reusable && r.profile == Some(BiomeLint)
    && r.scopeComplete && HasText(r.inputFingerprint) && r.conclusion.Some?
  }

  predicate HasText(o: Option<string>) { o.Some? && o.value != "" }

  function FindMatch(records: seq<CheckRecord>, specHash: string, fingerprint: string): nat {
    FirstIndex(records, (r: CheckRecord) =>
      IsReusable(r) && r.specHash == specHash && r.inputFingerprint == Some(fingerprint))
  }

  // Sets the state of the pending entry at `i`, when there is one.
  function Mark(pending: seq<PendingInvocation>, i: nat, state: ExecutionState): seq<PendingInvocation> {
    if i < |pending| then pending[i := pending[i].(executionState := state)] else pending
  }

  // ----- room for one more record -----------------------------------------------------------------------

  function LastAccess(r: CheckRecord): int { r.lastAccessSeq }

  predicate Evictable(r: CheckRecord, iteration: int) { r.executionState == Settled && r.iteration < iteration }

  function Candidates(records: seq<CheckRecord>, iteration: int): seq<CheckRecord> {
    SortBy(Filter(records, (r: CheckRecord) => Evictable(r, iteration)), LastAccess)
  }

  // Where the evicted record is; the length when none may go.
  function Victim(records: seq<CheckRecord>, iteration: int): nat {
    var candidates := Candidates(records, iteration);
    if candidates == [] then |records| else FirstIndex(records, (r: CheckRecord) => r == candidates[0])
  }

  function DropSettled(pending: seq<PendingInvocation>, origin: string): seq<PendingInvocation> {
    var i := FindPending(pending, origin);
    if i < |pending| && pending[i].executionState == Settled then RemoveAt(pending, i) else pending
  }

  function MakeRoom(s: State): Option<State> {
    if |s.records| < MAX_CHECK_RECORDS then Some(s)
    else
      var v := Victim(s.records, s.iteration);
      if v >= |s.records| then None
      else Some(s.(records := RemoveAt(s.records, v), pending := DropSettled(s.pending, s.records[v].origin)))
  }

  // ----- invocations ---------------------------------------------------------------------------------------

  function NewRecord(n: nat, origin: string, specHash: string, fingerprint: Option<string>, iteration: int): CheckRecord {
    CheckRecord(n, n, origin, specHash, None, fingerprint, false, Pending, None, None, None, Executed, false, None, n, iteration)
  }

  function Mirror(r: CheckRecord): PendingInvocation {
    PendingInvocation(r.invocationId, r.checkId, r.origin, r.specHash, r.inputFingerprint, r.executionState, r.iteration)
  }

  function Create(s: State, origin: string, specHash: string, fingerprint: Option<string>): State {
    var n := s.sequence + 1;
    var r := NewRecord(n, origin, specHash, fingerprint, s.iteration);
    s.(sequence := n, records := s.records + [r], pending := s.pending + [Mirror(r)])
  }

  function Existing(s: State, e: PendingInvocation): Handle {
    var i := FindRecord(s.records, e.invocationId);
    Handle(e.invocationId, e.checkId, e.executionState == Settled || e.executionState == Uncertain,
           if i < |s.records| then Some(s.records[i]) else None)
  }

  function GetOrCreate(s: State, origin: string, specHash: string, fingerprint: Option<string>): (State, Option<Handle>) {
    var i := FindPending(s.pending, origin);
    if i < |s.pending| then
      (s, if s.pending[i].specHash == specHash then Some(Existing(s, s.pending[i])) else None)
    else if FindUnresolved(s.records, specHash, Some(origin)) < |s.records| then (s, None)
    else
      var room := MakeRoom(s);
      if room.None? then (s, None)
      else
        var t := Create(room.value, origin, specHash, fingerprint);
        (t, Some(Handle(t.sequence, t.sequence, false, Some(t.records[|t.records| - 1]))))
  }

  function FindReusable(s: State, specHash: string, fingerprint: Option<string>): (State, Option<CheckRecord>) {
    if !HasText(fingerprint) || FindUnresolved(s.records, specHash, None) < |s.records| then (s, None)
    else
      var i := FindMatch(s.records, specHash, fingerprint.value);
      if i >= |s.records| then (s, None)
      else
        var r := s.records[i].(lastAccessSeq := s.sequence + 1);
        (s.(sequence := s.sequence + 1, records := s.records[i := r]), Some(r))
  }

  // ----- invalidation, reads and mutations --------------------------------------------------------------------

  function InvalidateRecord(r: CheckRecord, reason: string): CheckRecord {
    if r.executionState != Settled then r
    else r.(reusable := false, scopeComplete := false, invalidationReason := Some(Text(reason)))
  }

  function InvalidateAll(records: seq<CheckRecord>, reason: string): seq<CheckRecord> {
    MapSeq(records, (r: CheckRecord) => InvalidateRecord(r, reason))
  }

  function InvalidateCompleted(s: State, reason: string): State {
    s.(records := InvalidateAll(s.records, reason))
  }

  // `while (s.length > cap) { s.sort(byKey); s.shift(); }`
  function TrimTo<T>(s: seq<T>, cap: nat, key: T -> int): seq<T>
    decreases |s|
  {
    if |s| <= cap then s
    else
      SortBySorts(s, key);
      TrimTo(SortBy(s, key)[1..], cap, key)
  }

  function ReadSeq(r: ReadFingerprint): int { r.seqNumber }

  function MutationSeq(m: MutationFingerprint): int { m.seqNumber }

  function ToRange(r: Field<RawRange>): Field<Range> {
    if ValidRange(r) then Is(Range(r.value.startLine.value, r.value.endLine.value)) else Other
  }

  function ToRanges(items: seq<Field<RawRange>>): seq<Range> {
    KnownOnly(MapSeq(items, ToRange))
  }

  function NumberOr0(f: Field<int>): int { if f.Is? then f.value else 0 }

  function NormalizeRead(r: RawRead): Option<ReadFingerprint> {
    if !NonEmpty(r.path) || !r.versionKind.Is? || !r.version.Is? || !r.returnedHash.Is? || !r.complete.Is? then None
    else
      Some(ReadFingerprint(
        Known(r.kind), r.path.value, r.versionKind.value, r.version.value, Known(r.queryHash), r.returnedHash.value,
        r.complete.value, if r.returnedRanges.Is? then Some(MergeRanges(ToRanges(r.returnedRanges.value))) else None,
        NumberOr0(r.seqNumber)))
  }

  function NormalizeMutation(m: RawMutation): Option<MutationFingerprint> {
    if !NonEmpty(m.path) || !StringOrNull(m.beforeHash) || !StringOrNull(m.afterHash) then None
    else Some(MutationFingerprint(m.path.value, Known(m.beforeHash), Known(m.afterHash), NumberOr0(m.seqNumber)))
  }

  function OrEmpty(o: Option<string>): string { if o.Some? then o.value else "" }

  function VersionKindText(k: VersionKind): string { if k == Content then "content" else "stat" }

  function ReadKey(r: ReadFingerprint): string {
    r.path + "\0" + VersionKindText(r.versionKind) + "\0" + r.version + "\0" + OrEmpty(r.queryHash) + "\0"
    + r.returnedHash + "\0" + (if r.complete then "1" else "0")
  }

  function MutationKey(m: MutationFingerprint): string {
    m.path + "\0" + OrEmpty(m.beforeHash) + "\0" + OrEmpty(m.afterHash)
  }

  predicate SameVersion(a: ReadFingerprint, b: ReadFingerprint) {
    a.kind == b.kind && a.path == b.path && a.versionKind == b.versionKind && a.version == b.version
  }

  function RangesOf(r: ReadFingerprint): seq<Range> { if r.returnedRanges.Some? then r.returnedRanges.value else [] }

  function AllRanges(rs: seq<ReadFingerprint>): seq<Range> {
    if rs == [] then [] else RangesOf(rs[0]) + AllRanges(rs[1..])
  }

  // The merged ranges already known for the version `r` was read from.
  function Covered(rs: seq<ReadFingerprint>, r: ReadFingerprint): seq<Range> {
    MergeRanges(AllRanges(Filter(rs, (x: ReadFingerprint) => SameVersion(x, r))))
  }

  predicate InsideSome(q: Range, covered: seq<Range>) { exists i :: 0 <= i < |covered| && Inside(q, covered[i]) }

  predicate HasNovelRange(ranges: seq<Range>, covered: seq<Range>) {
    exists i :: 0 <= i < |ranges| && !InsideSome(ranges[i], covered)
  }

  predicate IsRangeRead(r: ReadFingerprint) { r.kind == Some(File) && RangesOf(r) != [] }

  // Replaces everything known of the version by one fingerprint with the merged ranges.
  function MergeRead(rs: seq<ReadFingerprint>, r: ReadFingerprint): seq<ReadFingerprint> {
    Filter(rs, (x: ReadFingerprint) => !SameVersion(x, r))
    + [r.(returnedRanges := Some(MergeRanges(Covered(rs, r) + RangesOf(r))))]
  }

  function FindRead(rs: seq<ReadFingerprint>, key: string): nat {
    FirstIndex(rs, (x: ReadFingerprint) => ReadKey(x) == key)
  }

  function FindMutation(ms: seq<MutationFingerprint>, key: string): nat {
    FirstIndex(ms, (x: MutationFingerprint) => MutationKey(x) == key)
  }

  // What one accepted fingerprint does to the kept ones, and whether it counts as new.
  function AddRead(rs: seq<ReadFingerprint>, r: ReadFingerprint): (seq<ReadFingerprint>, bool) {
    if IsRangeRead(r) then
      (TrimTo(MergeRead(rs, r), MAX_READ_FINGERPRINTS, ReadSeq), HasNovelRange(RangesOf(r), Covered(rs, r)))
    else
      var i := FindRead(rs, ReadKey(r));
      if i < |rs| then (RemoveAt(rs, i) + [rs[i].(seqNumber := r.seqNumber)], false)
      else (TrimTo(rs + [r], MAX_READ_FINGERPRINTS, ReadSeq), true)
  }

  function RecordRead(s: State, fact: Field<RawRead>): (State, bool) {
    if !fact.Is? then (s, false)
    else
      var n := s.sequence + 1;
      var r := NormalizeRead(fact.value.(seqNumber := Is(n)));
      if r.None? then (s.(sequence := n), false)
      else
        var (rs, isNew) := AddRead(s.readPrints, r.value);
        (s.(sequence := n, readPrints := rs), isNew)
  }

  function RecordReads(s: State, facts: seq<Field<RawRead>>): (State, nat)
    decreases facts
  {
    if facts == [] then (s, 0)
    else
      var (t, isNew) := RecordRead(s, facts[0]);
      var (u, more) := RecordReads(t, facts[1..]);
      (u, (if isNew then 1 else 0) + more)
  }

  function RecordMutation(s: State, fact: Field<RawMutation>): (State, bool) {
    if !fact.Is? then (s, false)
    else
      var n := s.sequence + 1;
      var m := NormalizeMutation(fact.value.(seqNumber := Is(n)));
      if m.None? then (s.(sequence := n), false)
      else
        var ms := s.mutations;
        var i := FindMutation(ms, MutationKey(m.value));
        if i < |ms| then (s.(sequence := n, mutations := RemoveAt(ms, i) + [ms[i].(seqNumber := n)]), false)
        else
          (s.(sequence := n, mutations := TrimTo(ms + [m.value], MAX_MUTATION_FINGERPRINTS, MutationSeq),
              records := InvalidateAll(s.records, "workspace_changed")), true)
  }

  function RecordMutations(s: State, facts: seq<Field<RawMutation>>): (State, nat)
    decreases facts
  {
    if facts == [] then (s, 0)
    else
      var (t, isNew) := RecordMutation(s, facts[0]);
      var (u, more) := RecordMutations(t, facts[1..]);
      (u, (if isNew then 1 else 0) + more)
  }

  // ----- results --------------------------------------------------------------------------------------------------

  function FirstReason(issues: seq<Issue>, otherwise: string): Option<Reason> {
    Some(if issues == [] then Text(otherwise) else FromIssue(issues[0]))
  }

  function SettleInvalid(r: CheckRecord, v: Validation): CheckRecord {
    r.(executionState := Settled, conclusion := None, reusable := false, scopeComplete := false,
       invalidationReason := FirstReason(v.issues, "invalid_facts"))
  }

  // `after` is the fingerprint taken after the execution; `Absent` when none was taken.
  predicate InputChanged(r: CheckRecord, after: Field<string>) {
    !after.Absent? && Known(after) != r.inputFingerprint
  }

  function SettleValid(r: CheckRecord, v: Validation, after: Field<string>, n: nat): CheckRecord
    requires v.facts.Some?
  {
    var check := v.facts.value.check;
    var changed := InputChanged(r, after);
    var scope := v.reportComplete && HasText(r.inputFingerprint) && !changed;
    var reusable := check.Some? && check.value.profile == BiomeLint && scope && v.reusable;
    r.(profile := if check.Some? then Some(check.value.profile) else None,
       process := v.facts.value.process,
       conclusion := if check.Some? then Some(check.value.conclusion) else None,
       diagnostics := if check.Some? then check.value.diagnostics else None,
       scopeComplete := scope,
       executionState := Settled,
       reusable := reusable,
       lastAccessSeq := n,
       invalidationReason :=
         if reusable then r.invalidationReason
         else if changed then Some(Text("input_changed"))
         else if v.reportComplete then FirstReason(v.issues, "not_reusable")
         else Some(Text("report_incomplete")))
  }

  // The record at `i` settled with the validated facts, before their reads and mutations are recorded.
  function Settle(s: State, i: nat, v: Validation, after: Field<string>): State
    requires i < |s.records| && (v.valid ==> v.facts.Some?)
  {
    var pending := Mark(s.pending, FindPending(s.pending, s.records[i].origin), Settled);
    if !v.valid then
      s.(records := s.records[i := SettleInvalid(s.records[i], v)], pending := pending)
    else
      var n := s.sequence + 1;
      s.(sequence := n, records := s.records[i := SettleValid(s.records[i], v, after, n)], pending := pending)
  }

  function FactReads(v: Validation): seq<Field<RawRead>> {
    if v.valid && v.facts.Some? && v.facts.value.readFacts.Some? then WrapAll(v.facts.value.readFacts.value) else []
  }

  function FactMutations(v: Validation): seq<Field<RawMutation>> {
    if v.valid && v.facts.Some? && v.facts.value.mutations.Some? then WrapAll(v.facts.value.mutations.value) else []
  }

  function RecordResult(s: State, id: nat, raw: Field<RawFacts>, after: Field<string>): (State, Option<CheckRecord>) {
    var i := FindRecord(s.records, id);
    if i >= |s.records| then (s, None)
    else
      var v := Validate(raw);
      var settled := Settle(s, i, v, after);
      var t := RecordMutations(RecordReads(settled, FactReads(v)).0, FactMutations(v)).0;
      (t, if i < |t.records| then Some(t.records[i]) else None)
  }

  function RecordUncertain(s: State, id: nat, reason: string): State {
    var i := FindRecord(s.records, id);
    var records :=
      if i < |s.records| then
        s.records[i := s.records[i].(executionState := Uncertain, reusable := false, invalidationReason := Some(Text(reason)))]
      else s.records;
    s.(records := records, pending := Mark(s.pending, FindPendingId(s.pending, id), Uncertain))
  }

  function SetIteration(s: State, next: Option<real>): State {
    if next.Some? && next.value >= 0.0 then s.(iteration := next.value.Floor) else s
  }
}
