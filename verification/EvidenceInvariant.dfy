// What every call on the evidence store keeps.
module EvidenceInvariant {
  import opened EvidenceState
  import opened Optional
  import opened ReadRanges
  import opened StableSort
  import opened ToolFacts
  import opened Untrusted

  // ----- the invariant ----------------------------------------------------------------------------------

  // `pending` holds exactly one entry per record, in the same order and in the same state.
  ghost predicate Mirrored(records: seq<CheckRecord>, pending: seq<PendingInvocation>) {
    |pending| == |records| && forall i :: 0 <= i < |records| ==> pending[i] == Mirror(records[i])
  }

  ghost predicate DistinctOrigins(records: seq<CheckRecord>) {
    forall i, j :: 0 <= i < j < |records| ==> records[i].origin != records[j].origin
  }

  // Ids were issued in the order of the records.
  ghost predicate IssuedInOrder(records: seq<CheckRecord>) {
    forall i, j :: 0 <= i < j < |records| ==> records[i].invocationId < records[j].invocationId
  }

  ghost predicate DistinctAccesses(records: seq<CheckRecord>) {
    forall i, j :: 0 <= i < j < |records| ==> records[i].lastAccessSeq != records[j].lastAccessSeq
  }

  // Two invocations of the same check are never pending at once.
  ghost predicate OnePendingPerSpec(records: seq<CheckRecord>) {
    forall i, j :: 0 <= i < j < |records| && records[i].executionState == Pending && records[j].executionState == Pending
      ==> records[i].specHash != records[j].specHash
  }

  predicate DiagnosticOk(d: RawDiagnostic) { ValidDiagnostic(d) }

  ghost predicate DiagnosticsOk(o: Option<seq<RawDiagnostic>>) {
    o.Some? ==> |o.value| <= MAX_DIAGNOSTICS && forall i :: 0 <= i < |o.value| ==> DiagnosticOk(o.value[i])
  }

  // A reusable record is settled, executed, complete and has concluded passed or failed.
  ghost predicate RecordOk(r: CheckRecord, sequence: nat) {
    && 0 < r.invocationId == r.checkId <= sequence && r.lastAccessSeq <= sequence
    && r.source == Executed && r.executionState != Running
    && (r.reusable ==> IsReusable(r) && r.conclusion in {Some(Passed), Some(Failed)})
    && DiagnosticsOk(r.diagnostics)
  }

  ghost predicate RecordsOk(records: seq<CheckRecord>, sequence: nat) {
    forall i :: 0 <= i < |records| ==> RecordOk(records[i], sequence)
  }

  ghost predicate RecordsInv(records: seq<CheckRecord>, pending: seq<PendingInvocation>, sequence: nat) {
    && |records| <= MAX_CHECK_RECORDS && Mirrored(records, pending) && DistinctOrigins(records)
    && IssuedInOrder(records) && DistinctAccesses(records) && OnePendingPerSpec(records) && RecordsOk(records, sequence)
  }

  // Every line number is a safe integer.
  ghost predicate SafeRanges(rs: seq<Range>) {
    forall i :: 0 <= i < |rs| ==> rs[i].endLine <= MAX_SAFE_INTEGER
  }

  ghost predicate MergedRanges(rs: seq<Range>) {
    Separated(rs) && |rs| <= MAX_RANGES && SafeRanges(rs)
  }

  ghost predicate ReadOk(r: ReadFingerprint, sequence: nat) {
    && r.path != "" && r.seqNumber <= sequence
    && (r.returnedRanges.Some? ==> MergedRanges(r.returnedRanges.value))
  }

  // At most one fingerprint holds the lines read from one version of a file.
  ghost predicate OnePerVersion(rs: seq<ReadFingerprint>) {
    forall i, j :: 0 <= i < j < |rs| && IsRangeRead(rs[i]) && IsRangeRead(rs[j]) ==> !SameVersion(rs[i], rs[j])
  }

  ghost predicate ReadsInv(rs: seq<ReadFingerprint>, sequence: nat) {
    && |rs| <= MAX_READ_FINGERPRINTS && StrictlySorted(rs, ReadSeq) && OnePerVersion(rs)
    && forall i :: 0 <= i < |rs| ==> ReadOk(rs[i], sequence)
  }

  ghost predicate DistinctKeys(ms: seq<MutationFingerprint>) {
    forall i, j :: 0 <= i < j < |ms| ==> MutationKey(ms[i]) != MutationKey(ms[j])
  }

  ghost predicate MutationOk(m: MutationFingerprint, sequence: nat) { m.path != "" && m.seqNumber <= sequence }

  ghost predicate MutationsInv(ms: seq<MutationFingerprint>, sequence: nat) {
    && |ms| <= MAX_MUTATION_FINGERPRINTS && StrictlySorted(ms, MutationSeq) && DistinctKeys(ms)
    && forall i :: 0 <= i < |ms| ==> MutationOk(ms[i], sequence)
  }

  ghost predicate Inv(s: State) {
    && 0 <= s.iteration
    && RecordsInv(s.records, s.pending, s.sequence) && ReadsInv(s.readPrints, s.sequence)
    && MutationsInv(s.mutations, s.sequence)
  }

  // ----- sequences -----------------------------------------------------------------------------------------

  lemma {:induction false} FilterSorted<T(!new)>(s: seq<T>, p: T -> bool, key: T -> int)
    requires StrictlySorted(s, key)
    ensures StrictlySorted(Filter(s, p), key)
  {
    if s != [] {
      FilterSorted(s[1..], p, key);
      var rest := Filter(s[1..], p);
      forall j | 0 <= j < |rest| ensures key(s[0]) < key(rest[j]) {
        assert rest[j] in s[1..];
      }
    }
  }

  lemma {:induction false} FilterShorter<T(!new)>(s: seq<T>, p: T -> bool)
    ensures |Filter(s, p)| <= |s|
  {
    if s != [] { FilterShorter(s[1..], p); }
  }

  lemma TrimSorted<T>(s: seq<T>, cap: nat, key: T -> int)
    requires StrictlySorted(s, key) && |s| <= cap + 1
    ensures TrimTo(s, cap, key) == LastOf(s, cap)
  {
    if |s| > cap {
      SortedIsFixed(s, key);
    }
  }

  // ----- records --------------------------------------------------------------------------------------------

  lemma MoreSequence(records: seq<CheckRecord>, pending: seq<PendingInvocation>, n: nat, m: nat)
    requires RecordsInv(records, pending, n) && n <= m
    ensures RecordsInv(records, pending, m)
  {
    assert forall i :: 0 <= i < |records| && RecordOk(records[i], n) ==> RecordOk(records[i], m);
  }

  lemma MoreSequenceForReads(rs: seq<ReadFingerprint>, n: nat, m: nat)
    requires ReadsInv(rs, n) && n <= m
    ensures ReadsInv(rs, m)
  {
    assert forall i :: 0 <= i < |rs| && ReadOk(rs[i], n) ==> ReadOk(rs[i], m);
  }

  lemma MoreSequenceForMutations(ms: seq<MutationFingerprint>, n: nat, m: nat)
    requires MutationsInv(ms, n) && n <= m
    ensures MutationsInv(ms, m)
  {
    assert forall i :: 0 <= i < |ms| && MutationOk(ms[i], n) ==> MutationOk(ms[i], m);
  }

  // The identity of a record never changes, and a record that is pending stays the one it was.
  predicate SameIdentity(a: CheckRecord, b: CheckRecord) {
    && a.invocationId == b.invocationId && a.checkId == b.checkId && a.origin == b.origin && a.specHash == b.specHash
    && a.inputFingerprint == b.inputFingerprint && a.iteration == b.iteration
  }

  lemma ReplaceKeepsInv(records: seq<CheckRecord>, pending: seq<PendingInvocation>, i: nat, r: CheckRecord, n: nat, m: nat)
    requires RecordsInv(records, pending, n) && n <= m && i < |records|
    requires SameIdentity(records[i], r) && RecordOk(r, m)
    requires r.executionState != Pending || records[i].executionState == Pending
    requires r.lastAccessSeq == records[i].lastAccessSeq || (n < m && r.lastAccessSeq == m)
    ensures RecordsInv(records[i := r], pending[i := Mirror(r)], m)
  {
    MoreSequence(records, pending, n, m);
    var rs := records[i := r];
    forall k, l | 0 <= k < l < |rs| ensures rs[k].lastAccessSeq != rs[l].lastAccessSeq {
      assert RecordOk(records[k], n) && RecordOk(records[l], n);
    }
  }

  lemma FindRecordById(records: seq<CheckRecord>, id: nat)
    ensures var i := FindRecord(records, id);
      && (i < |records| ==> records[i].invocationId == id)
      && (i >= |records| ==> forall k :: 0 <= k < |records| ==> records[k].invocationId != id)
  {
    var i := FindRecord(records, id);
    var p := (r: CheckRecord) => r.invocationId == id;
    assert forall k :: 0 <= k < i ==> !p(records[k]) ==> records[k].invocationId != id;
  }

  // Looking up an entry of `pending` finds the entry of the record with that origin.
  lemma PendingOfRecord(records: seq<CheckRecord>, pending: seq<PendingInvocation>, n: nat, i: nat)
    requires RecordsInv(records, pending, n) && i < |records|
    ensures FindPending(pending, records[i].origin) == i
    ensures FindPendingId(pending, records[i].invocationId) == i
    ensures FindRecord(records, records[i].invocationId) == i
  {
    var origin, id := records[i].origin, records[i].invocationId;
    assert pending[i] == Mirror(records[i]);
    var a := FindPending(pending, origin);
    var b := FindPendingId(pending, id);
    var c := FindRecord(records, id);
    assert a <= i && b <= i && c <= i;
    assert pending[a] == Mirror(records[a]) && pending[b] == Mirror(records[b]);
  }

  lemma NoPending(records: seq<CheckRecord>, pending: seq<PendingInvocation>, n: nat, origin: string)
    requires RecordsInv(records, pending, n)
    ensures FindPending(pending, origin) >= |pending| <==> forall i :: 0 <= i < |records| ==> records[i].origin != origin
  {
    var a := FindPending(pending, origin);
    if a < |pending| {
      assert pending[a] == Mirror(records[a]);
    } else {
      var p := (e: PendingInvocation) => e.origin == origin;
      forall i | 0 <= i < |records| ensures records[i].origin != origin {
        assert pending[i] == Mirror(records[i]);
        assert !p(pending[i]);
      }
    }
  }

  lemma NoPendingId(records: seq<CheckRecord>, pending: seq<PendingInvocation>, n: nat, id: nat)
    requires RecordsInv(records, pending, n) && FindRecord(records, id) >= |records|
    ensures FindPendingId(pending, id) >= |pending|
  {
    FindRecordById(records, id);
    assert forall i :: 0 <= i < |pending| ==> pending[i].invocationId == records[i].invocationId;
  }

  lemma RemoveKeepsInv(records: seq<CheckRecord>, pending: seq<PendingInvocation>, n: nat, v: nat)
    requires RecordsInv(records, pending, n) && v < |records|
    ensures RecordsInv(RemoveAt(records, v), RemoveAt(pending, v), n)
  {
    hide RecordOk;
    var t := RemoveAt(records, v);
    assert forall k :: 0 <= k < |t| ==> t[k] == records[if k < v then k else k + 1];
    hide RemoveAt;
    assert DistinctOrigins(t) && IssuedInOrder(t);
    assert DistinctAccesses(t);
    assert OnePendingPerSpec(t);
  }

  // ----- eviction ---------------------------------------------------------------------------------------------

  // Settled, and of an earlier iteration than the current one.
  ghost predicate MayGo(r: CheckRecord, iteration: int) { r.executionState == Settled && r.iteration < iteration }

  ghost predicate LeastRecent(records: seq<CheckRecord>, v: nat, iteration: int)
    requires v < |records|
  {
    forall i :: 0 <= i < |records| && i != v && MayGo(records[i], iteration)
      ==> records[v].lastAccessSeq <= records[i].lastAccessSeq
  }

  ghost predicate NoneEvictable(records: seq<CheckRecord>, iteration: int) {
    forall i :: 0 <= i < |records| ==> !MayGo(records[i], iteration)
  }

  // The evicted record is settled, older than the current iteration, and the least recently used of those.
  lemma VictimIsLeastRecentlyUsed(records: seq<CheckRecord>, iteration: int)
    ensures var v := Victim(records, iteration);
      && v <= |records|
      && (v == |records| <==> NoneEvictable(records, iteration))
      && (v < |records| ==> MayGo(records[v], iteration) && LeastRecent(records, v, iteration))
  {
    var p := (r: CheckRecord) => Evictable(r, iteration);
    var kept := Filter(records, p);
    var candidates := Candidates(records, iteration);
    assert candidates == SortBy(kept, LastAccess);
    SortBySorts(kept, LastAccess);
    if kept == [] {
      forall i | 0 <= i < |records| ensures !Evictable(records[i], iteration) {
        assert records[i] in records;
        assert !p(records[i]);
      }
    } else {
      var k := FirstOfSort(kept, LastAccess);
      assert kept[k] in kept;
      var x := candidates[0];
      assert x in records && p(x);
      var q := (r: CheckRecord) => r == x;
      var j :| 0 <= j < |records| && records[j] == x;
      assert q(records[j]);
      forall i | 0 <= i < |records| && Evictable(records[i], iteration) ensures x.lastAccessSeq <= records[i].lastAccessSeq {
        assert p(records[i]);
        assert records[i] in kept;
        var l :| 0 <= l < |kept| && kept[l] == records[i];
        assert LastAccess(kept[k]) <= LastAccess(kept[l]);
      }
    }
  }

  lemma DropSettledMirror(records: seq<CheckRecord>, pending: seq<PendingInvocation>, n: nat, v: nat)
    requires RecordsInv(records, pending, n) && v < |records| && records[v].executionState == Settled
    ensures DropSettled(pending, records[v].origin) == RemoveAt(pending, v)
  {
    PendingOfRecord(records, pending, n, v);
    assert pending[v] == Mirror(records[v]);
  }

  lemma MakeRoomKeeps(s: State)
    requires Inv(s)
    ensures var room := MakeRoom(s);
      && (room.None? <==> |s.records| == MAX_CHECK_RECORDS && NoneEvictable(s.records, s.iteration))
      && (room.Some? ==> Inv(room.value) && |room.value.records| < MAX_CHECK_RECORDS && room.value.sequence == s.sequence)
  {
    VictimIsLeastRecentlyUsed(s.records, s.iteration);
    var v := Victim(s.records, s.iteration);
    if |s.records| == MAX_CHECK_RECORDS && v < |s.records| {
      DropSettledMirror(s.records, s.pending, s.sequence, v);
      RemoveKeepsInv(s.records, s.pending, s.sequence, v);
    }
  }

  lemma AppendKeepsInv(records: seq<CheckRecord>, pending: seq<PendingInvocation>, n: nat, r: CheckRecord)
    requires RecordsInv(records, pending, n) && |records| < MAX_CHECK_RECORDS
    requires r.invocationId == r.checkId == n + 1 && r.lastAccessSeq == n + 1 && RecordOk(r, n + 1)
    requires forall i :: 0 <= i < |records| ==> records[i].origin != r.origin
    requires forall i :: 0 <= i < |records| && records[i].specHash == r.specHash ==> records[i].executionState == Settled
    ensures RecordsInv(records + [r], pending + [Mirror(r)], n + 1)
  {
    MoreSequence(records, pending, n, n + 1);
    forall i | 0 <= i < |records| ensures records[i].invocationId <= n && records[i].lastAccessSeq <= n {
      assert RecordOk(records[i], n);
    }
  }

  lemma NoneUnresolved(records: seq<CheckRecord>, specHash: string, except: Option<string>)
    requires FindUnresolved(records, specHash, except) >= |records|
    ensures forall i :: 0 <= i < |records| && records[i].specHash == specHash && except != Some(records[i].origin) ==>
      records[i].executionState == Settled
  {
    var p := (r: CheckRecord) => r.specHash == specHash && except != Some(r.origin) && r.executionState != Settled;
    forall i | 0 <= i < |records| && records[i].specHash == specHash && except != Some(records[i].origin)
      ensures records[i].executionState == Settled
    {
      assert !p(records[i]);
    }
  }

  // ----- each call keeps the invariant -------------------------------------------------------------------------

  lemma EmptyInv()
    ensures Inv(EMPTY)
  {
  }

  // An invocation is refused when the origin is taken by another check, when the same check is
  // unresolved under another origin, or when nothing may be evicted from a full table.
  lemma CreateKeepsInv(s: State, origin: string, specHash: string, fingerprint: Option<string>)
    requires Inv(s)
    ensures Inv(GetOrCreate(s, origin, specHash, fingerprint).0)
  {
    hide FindPending, FindUnresolved, MakeRoom, RecordsInv, ReadsInv, MutationsInv, Existing;
    if FindPending(s.pending, origin) >= |s.pending| && FindUnresolved(s.records, specHash, Some(origin)) >= |s.records| {
      var room := MakeRoom(s);
      if room.Some? {
        RoomForNew(s, origin, specHash);
        var r := NewRecord(s.sequence + 1, origin, specHash, fingerprint, s.iteration);
        AppendKeepsInv(room.value.records, room.value.pending, s.sequence, r);
        MoreSequenceForReads(s.readPrints, s.sequence, s.sequence + 1);
        MoreSequenceForMutations(s.mutations, s.sequence, s.sequence + 1);
      }
    }
  }

  lemma RoomForNew(s: State, origin: string, specHash: string)
    requires Inv(s) && MakeRoom(s).Some?
    requires FindPending(s.pending, origin) >= |s.pending|
    requires FindUnresolved(s.records, specHash, Some(origin)) >= |s.records|
    ensures var t := MakeRoom(s).value;
      && RecordsInv(t.records, t.pending, s.sequence) && |t.records| < MAX_CHECK_RECORDS
      && t.(records := [], pending := []) == s.(records := [], pending := [])
      && (forall i :: 0 <= i < |t.records| ==> t.records[i].origin != origin)
      && (forall i :: 0 <= i < |t.records| && t.records[i].specHash == specHash ==> t.records[i].executionState == Settled)
  {
    hide FindPending, FindUnresolved, MakeRoom, RecordsInv, ReadsInv, MutationsInv;
    MakeRoomKeeps(s);
    NoPending(s.records, s.pending, s.sequence, origin);
    NoneUnresolved(s.records, specHash, Some(origin));
    RoomIsFromRecords(s);
    var t := MakeRoom(s).value;
    forall i | 0 <= i < |t.records|
      ensures t.records[i].origin != origin
      ensures t.records[i].specHash == specHash ==> t.records[i].executionState == Settled
    {
      assert t.records[i] in s.records;
    }
  }

  lemma RoomIsFromRecords(s: State)
    requires MakeRoom(s).Some?
    ensures forall r :: r in MakeRoom(s).value.records ==> r in s.records
    ensures MakeRoom(s).value.(records := [], pending := []) == s.(records := [], pending := [])
  {
    var t := MakeRoom(s).value;
    if |s.records| >= MAX_CHECK_RECORDS {
      var v := Victim(s.records, s.iteration);
      forall r | r in t.records ensures r in s.records {
        var i :| 0 <= i < |t.records| && t.records[i] == r;
        assert r == if i < v then s.records[i] else s.records[i + 1];
      }
    }
  }

  lemma ReuseKeepsInv(s: State, specHash: string, fingerprint: Option<string>)
    requires Inv(s)
    ensures Inv(FindReusable(s, specHash, fingerprint).0)
  {
    var (t, found) := FindReusable(s, specHash, fingerprint);
    if found.Some? {
      var i := FindMatch(s.records, specHash, fingerprint.value);
      assert RecordOk(s.records[i], s.sequence);
      ReplaceKeepsInv(s.records, s.pending, i, found.value, s.sequence, s.sequence + 1);
      assert s.pending[i := Mirror(found.value)] == s.pending;
      MoreSequenceForReads(s.readPrints, s.sequence, s.sequence + 1);
      MoreSequenceForMutations(s.mutations, s.sequence, s.sequence + 1);
    }
  }

  lemma InvalidateAllKeeps(records: seq<CheckRecord>, pending: seq<PendingInvocation>, n: nat, reason: string)
    requires RecordsInv(records, pending, n)
    ensures RecordsInv(InvalidateAll(records, reason), pending, n)
    ensures |InvalidateAll(records, reason)| == |records|
    ensures forall i :: 0 <= i < |records| ==> InvalidateAll(records, reason)[i] == InvalidateRecord(records[i], reason)
  {
    var t := InvalidateAll(records, reason);
    forall i | 0 <= i < |records| ensures t[i] == InvalidateRecord(records[i], reason) && RecordOk(t[i], n) && pending[i] == Mirror(t[i]) {
      assert RecordOk(records[i], n);
    }
  }

  lemma UncertainKeepsInv(s: State, id: nat, reason: string)
    requires Inv(s)
    ensures Inv(RecordUncertain(s, id, reason))
  {
    var i := FindRecord(s.records, id);
    FindRecordById(s.records, id);
    if i < |s.records| {
      PendingOfRecord(s.records, s.pending, s.sequence, i);
      assert RecordOk(s.records[i], s.sequence);
      var r := s.records[i].(executionState := Uncertain, reusable := false, invalidationReason := Some(Text(reason)));
      ReplaceKeepsInv(s.records, s.pending, i, r, s.sequence, s.sequence);
      assert s.pending[i].(executionState := Uncertain) == Mirror(r);
    } else {
      NoPendingId(s.records, s.pending, s.sequence, id);
    }
  }

  // ----- reads -------------------------------------------------------------------------------------------------------

  // Merging keeps line numbers safe.
  lemma MergeIsSafe(rs: seq<Range>)
    requires AllProper(rs) && SafeRanges(rs)
    ensures MergedRanges(MergeRanges(rs))
  {
    MergeCoversUnion(rs);
    var m := MergeRanges(rs);
    forall i | 0 <= i < |m| ensures m[i].endLine <= MAX_SAFE_INTEGER {
      assert Proper(m[i]) && InRange(m[i], m[i].endLine);
      assert HasLine(m, m[i].endLine);
      assert HasLine(rs, m[i].endLine);
    }
  }

  lemma RangesAreProper(items: seq<Field<RawRange>>)
    ensures AllProper(ToRanges(items)) && SafeRanges(ToRanges(items))
  {
    KnownAreProper(MapSeq(items, ToRange));
  }

  lemma {:induction false} KnownAreProper(fs: seq<Field<Range>>)
    requires forall i :: 0 <= i < |fs| && fs[i].Is? ==> Proper(fs[i].value) && fs[i].value.endLine <= MAX_SAFE_INTEGER
    ensures AllProper(KnownOnly(fs)) && SafeRanges(KnownOnly(fs))
  {
    if fs != [] { KnownAreProper(fs[1..]); }
  }

  lemma NormalizedReadOk(r: RawRead, n: nat)
    requires r.seqNumber.Is? && r.seqNumber.value <= n
    ensures NormalizeRead(r).Some? ==> ReadOk(NormalizeRead(r).value, n)
  {
    if r.returnedRanges.Is? {
      RangesAreProper(r.returnedRanges.value);
      MergeIsSafe(ToRanges(r.returnedRanges.value));
    }
  }

  lemma {:induction false} AllRangesProper(rs: seq<ReadFingerprint>)
    requires forall i :: 0 <= i < |rs| ==> AllProper(RangesOf(rs[i])) && SafeRanges(RangesOf(rs[i]))
    ensures AllProper(AllRanges(rs)) && SafeRanges(AllRanges(rs))
  {
    if rs != [] { AllRangesProper(rs[1..]); }
  }

  lemma CoveredOk(rs: seq<ReadFingerprint>, r: ReadFingerprint, n: nat)
    requires ReadsInv(rs, n)
    ensures MergedRanges(Covered(rs, r))
  {
    var p := (x: ReadFingerprint) => SameVersion(x, r);
    var same := Filter(rs, p);
    forall i | 0 <= i < |same| ensures AllProper(RangesOf(same[i])) && SafeRanges(RangesOf(same[i])) {
      assert same[i] in rs;
      var k :| 0 <= k < |rs| && rs[k] == same[i];
      assert ReadOk(rs[k], n);
    }
    AllRangesProper(same);
    MergeIsSafe(AllRanges(same));
  }

  lemma SortedAppend(rs: seq<ReadFingerprint>, r: ReadFingerprint)
    requires StrictlySorted(rs, ReadSeq)
    requires forall x :: x in rs ==> x.seqNumber < r.seqNumber
    ensures StrictlySorted(rs + [r], ReadSeq)
  {
    forall i | 0 <= i < |rs| ensures ReadSeq(rs[i]) < ReadSeq(r) {
      assert rs[i] in rs;
    }
  }

  lemma LastKeepsReadsInv(rs: seq<ReadFingerprint>, n: nat)
    requires |rs| <= MAX_READ_FINGERPRINTS + 1 && StrictlySorted(rs, ReadSeq) && OnePerVersion(rs)
    requires forall i :: 0 <= i < |rs| ==> ReadOk(rs[i], n)
    ensures TrimTo(rs, MAX_READ_FINGERPRINTS, ReadSeq) == LastOf(rs, MAX_READ_FINGERPRINTS)
    ensures ReadsInv(LastOf(rs, MAX_READ_FINGERPRINTS), n)
  {
    TrimSorted(rs, MAX_READ_FINGERPRINTS, ReadSeq);
  }

  lemma {:induction false} FilterOnePerVersion(rs: seq<ReadFingerprint>, p: ReadFingerprint -> bool)
    requires OnePerVersion(rs)
    ensures OnePerVersion(Filter(rs, p))
  {
    if rs != [] {
      FilterOnePerVersion(rs[1..], p);
      var rest := Filter(rs[1..], p);
      forall j | 0 <= j < |rest| && IsRangeRead(rs[0]) && IsRangeRead(rest[j]) ensures !SameVersion(rs[0], rest[j]) {
        assert rest[j] in rs[1..];
        var k :| 0 <= k < |rs[1..]| && rs[1..][k] == rest[j];
        assert rs[k + 1] == rest[j];
      }
    }
  }

  lemma MergeReadKeeps(rs: seq<ReadFingerprint>, r: ReadFingerprint, n: nat)
    requires ReadsInv(rs, n) && ReadOk(r, n + 1) && r.seqNumber == n + 1 && IsRangeRead(r)
    ensures var m := MergeRead(rs, r);
      && |m| <= MAX_READ_FINGERPRINTS + 1 && StrictlySorted(m, ReadSeq) && OnePerVersion(m)
      && forall i :: 0 <= i < |m| ==> ReadOk(m[i], n + 1)
  {
    var p := (x: ReadFingerprint) => !SameVersion(x, r);
    var others := Filter(rs, p);
    var merged := MergeRanges(Covered(rs, r) + RangesOf(r));
    var last := r.(returnedRanges := Some(merged));
    CoveredOk(rs, r, n);
    MergeIsSafe(Covered(rs, r) + RangesOf(r));
    FilterSorted(rs, p, ReadSeq);
    FilterShorter(rs, p);
    FilterOnePerVersion(rs, p);
    forall x | x in others ensures ReadOk(x, n + 1) && x.seqNumber < last.seqNumber && !SameVersion(x, last) {
      assert x in rs && p(x);
      var k :| 0 <= k < |rs| && rs[k] == x;
      assert ReadOk(rs[k], n);
    }
    SortedAppend(others, last);
  }

  lemma RefreshReadKeeps(rs: seq<ReadFingerprint>, i: nat, n: nat)
    requires ReadsInv(rs, n) && i < |rs|
    ensures ReadsInv(RemoveAt(rs, i) + [rs[i].(seqNumber := n + 1)], n + 1)
  {
    MoreSequenceForReads(rs, n, n + 1);
    var last := rs[i].(seqNumber := n + 1);
    var t := RemoveAt(rs, i) + [last];
    forall k | 0 <= k < |rs| ensures ReadSeq(rs[k]) <= n {
      assert ReadOk(rs[k], n);
    }
    forall k | 0 <= k < |t| ensures ReadOk(t[k], n + 1) {
      assert t[k] == last || t[k] == rs[k] || t[k] == rs[k + 1];
    }
    assert OnePerVersion(t);
  }

  lemma AddReadKeeps(rs: seq<ReadFingerprint>, r: ReadFingerprint, n: nat)
    requires ReadsInv(rs, n) && ReadOk(r, n + 1) && r.seqNumber == n + 1
    ensures ReadsInv(AddRead(rs, r).0, n + 1)
  {
    if IsRangeRead(r) {
      MergeReadKeeps(rs, r, n);
      LastKeepsReadsInv(MergeRead(rs, r), n + 1);
    } else {
      var i := FindRead(rs, ReadKey(r));
      if i < |rs| {
        RefreshReadKeeps(rs, i, n);
      } else {
        MoreSequenceForReads(rs, n, n + 1);
        forall x | x in rs ensures x.seqNumber < r.seqNumber {
          var k :| 0 <= k < |rs| && rs[k] == x;
          assert ReadOk(rs[k], n);
        }
        SortedAppend(rs, r);
        LastKeepsReadsInv(rs + [r], n + 1);
      }
    }
  }

  lemma RecordReadKeepsInv(s: State, fact: Field<RawRead>)
    requires Inv(s)
    ensures var t := RecordRead(s, fact).0;
      Inv(t) && t.records == s.records && t.pending == s.pending && t.mutations == s.mutations && s.sequence <= t.sequence
  {
    if fact.Is? {
      var n := s.sequence + 1;
      MoreSequence(s.records, s.pending, s.sequence, n);
      MoreSequenceForReads(s.readPrints, s.sequence, n);
      MoreSequenceForMutations(s.mutations, s.sequence, n);
      NormalizedReadOk(fact.value.(seqNumber := Is(n)), n);
      var r := NormalizeRead(fact.value.(seqNumber := Is(n)));
      if r.Some? { AddReadKeeps(s.readPrints, r.value, s.sequence); }
    }
  }

  lemma {:induction false} RecordReadsKeepInv(s: State, facts: seq<Field<RawRead>>)
    requires Inv(s)
    ensures var t := RecordReads(s, facts).0;
      Inv(t) && t.records == s.records && t.pending == s.pending && t.mutations == s.mutations && s.sequence <= t.sequence
    decreases facts
  {
    if facts != [] {
      RecordReadKeepsInv(s, facts[0]);
      RecordReadsKeepInv(RecordRead(s, facts[0]).0, facts[1..]);
    }
  }

  // ----- mutations ------------------------------------------------------------------------------------------------------

  lemma RefreshMutationKeeps(ms: seq<MutationFingerprint>, i: nat, n: nat)
    requires MutationsInv(ms, n) && i < |ms|
    ensures MutationsInv(RemoveAt(ms, i) + [ms[i].(seqNumber := n + 1)], n + 1)
  {
    MoreSequenceForMutations(ms, n, n + 1);
    var last := ms[i].(seqNumber := n + 1);
    var t := RemoveAt(ms, i) + [last];
    forall k | 0 <= k < |ms| ensures MutationSeq(ms[k]) <= n {
      assert MutationOk(ms[k], n);
    }
    assert MutationKey(last) == MutationKey(ms[i]);
    forall k | 0 <= k < |t| ensures MutationOk(t[k], n + 1) {
      assert t[k] == last || t[k] == ms[k] || t[k] == ms[k + 1];
    }
  }

  lemma FindMutationByKey(ms: seq<MutationFingerprint>, key: string)
    ensures var i := FindMutation(ms, key);
      && (i < |ms| ==> MutationKey(ms[i]) == key)
      && (i >= |ms| <==> forall k :: 0 <= k < |ms| ==> MutationKey(ms[k]) != key)
  {
    var p := (x: MutationFingerprint) => MutationKey(x) == key;
    var i := FindMutation(ms, key);
    assert forall k :: 0 <= k < i ==> !p(ms[k]) ==> MutationKey(ms[k]) != key;
  }

  lemma AppendMutation(ms: seq<MutationFingerprint>, m: MutationFingerprint, n: nat)
    requires MutationsInv(ms, n) && MutationOk(m, n + 1) && m.seqNumber == n + 1
    requires forall k :: 0 <= k < |ms| ==> MutationKey(ms[k]) != MutationKey(m)
    ensures StrictlySorted(ms + [m], MutationSeq) && DistinctKeys(ms + [m])
    ensures forall k :: 0 <= k < |ms + [m]| ==> MutationOk((ms + [m])[k], n + 1)
  {
    hide MutationKey;
    MoreSequenceForMutations(ms, n, n + 1);
    var t := ms + [m];
    forall k | 0 <= k < |ms| ensures MutationSeq(ms[k]) < MutationSeq(m) {
      assert MutationOk(ms[k], n);
    }
    assert forall k :: 0 <= k < |t| ==> t[k] == if k < |ms| then ms[k] else m;
  }

  lemma LastKeepsMutationsInv(ms: seq<MutationFingerprint>, n: nat)
    requires |ms| <= MAX_MUTATION_FINGERPRINTS + 1 && StrictlySorted(ms, MutationSeq) && DistinctKeys(ms)
    requires forall k :: 0 <= k < |ms| ==> MutationOk(ms[k], n)
    ensures TrimTo(ms, MAX_MUTATION_FINGERPRINTS, MutationSeq) == LastOf(ms, MAX_MUTATION_FINGERPRINTS)
    ensures MutationsInv(LastOf(ms, MAX_MUTATION_FINGERPRINTS), n)
  {
    hide MutationKey;
    TrimSorted(ms, MAX_MUTATION_FINGERPRINTS, MutationSeq);
  }

  lemma NewMutationKeeps(ms: seq<MutationFingerprint>, m: MutationFingerprint, n: nat)
    requires MutationsInv(ms, n) && MutationOk(m, n + 1) && m.seqNumber == n + 1
    requires FindMutation(ms, MutationKey(m)) >= |ms|
    ensures TrimTo(ms + [m], MAX_MUTATION_FINGERPRINTS, MutationSeq) == LastOf(ms + [m], MAX_MUTATION_FINGERPRINTS)
    ensures MutationsInv(LastOf(ms + [m], MAX_MUTATION_FINGERPRINTS), n + 1)
  {
    hide MutationKey, FindMutation, TrimTo, LastOf;
    FindMutationByKey(ms, MutationKey(m));
    AppendMutation(ms, m, n);
    LastKeepsMutationsInv(ms + [m], n + 1);
  }

  lemma RecordMutationKeepsInv(s: State, fact: Field<RawMutation>)
    requires Inv(s)
    ensures var t := RecordMutation(s, fact).0;
      Inv(t) && |t.records| == |s.records| && s.sequence <= t.sequence
  {
    hide RecordsInv, ReadsInv, MutationsInv, FindMutation, MutationKey, TrimTo, LastOf, InvalidateAll;
    if fact.Is? {
      var n := s.sequence + 1;
      MoreSequence(s.records, s.pending, s.sequence, n);
      MoreSequenceForReads(s.readPrints, s.sequence, n);
      MoreSequenceForMutations(s.mutations, s.sequence, n);
      var m := NormalizeMutation(fact.value.(seqNumber := Is(n)));
      if m.Some? {
        var i := FindMutation(s.mutations, MutationKey(m.value));
        if i < |s.mutations| {
          RefreshMutationKeeps(s.mutations, i, s.sequence);
        } else {
          NewMutationKeeps(s.mutations, m.value, s.sequence);
          InvalidateAllKeeps(s.records, s.pending, n, "workspace_changed");
        }
      }
    }
  }

  lemma {:induction false} RecordMutationsKeepInv(s: State, facts: seq<Field<RawMutation>>)
    requires Inv(s)
    ensures var t := RecordMutations(s, facts).0; Inv(t) && |t.records| == |s.records| && s.sequence <= t.sequence
    decreases facts
  {
    if facts != [] {
      RecordMutationKeepsInv(s, facts[0]);
      RecordMutationsKeepInv(RecordMutation(s, facts[0]).0, facts[1..]);
    }
  }

  // ----- results ----------------------------------------------------------------------------------------------------------

  lemma ValidFactsHold(raw: Field<RawFacts>)
    ensures var v := Validate(raw);
      && (v.valid ==> v.facts.Some?)
      && (v.valid && v.facts.value.check.Some? ==> DiagnosticsOk(v.facts.value.check.value.diagnostics))
      && (v.valid && v.reusable ==> v.facts.value.check.Some? && v.facts.value.check.value.conclusion in {Passed, Failed})
  {
    ValidIffRecognized(raw);
    if Validate(raw).valid && raw.value.check.Is? && raw.value.check.value.diagnostics.Is? {
      var items := raw.value.check.value.diagnostics.value;
      var kept := KeptOf(items, MAX_DIAGNOSTICS, ValidDiagnostic);
      forall i | 0 <= i < |kept.items| ensures DiagnosticOk(kept.items[i]) {
        assert Good(items[i], ValidDiagnostic);
      }
    }
  }

  lemma PartsOfInv(s: State, i: nat)
    requires Inv(s) && i < |s.records|
    ensures FindPending(s.pending, s.records[i].origin) == i < |s.pending|
    ensures RecordOk(s.records[i], s.sequence) && s.pending[i] == Mirror(s.records[i])
    ensures s.records[i].reusable ==> s.records[i].executionState == Settled
  {
    PendingOfRecord(s.records, s.pending, s.sequence, i);
  }

  lemma SettleKeepsInv(s: State, i: nat, raw: Field<RawFacts>, after: Field<string>)
    requires Inv(s) && i < |s.records|
    ensures Validate(raw).valid ==> Validate(raw).facts.Some?
    ensures var t := Settle(s, i, Validate(raw), after); Inv(t) && |t.records| == |s.records| && s.sequence <= t.sequence
  {
    hide Validate, RecordsInv, ReadsInv, MutationsInv, FindPending;
    var v := Validate(raw);
    ValidFactsHold(raw);
    PartsOfInv(s, i);
    if !v.valid {
      var r := SettleInvalid(s.records[i], v);
      ReplaceKeepsInv(s.records, s.pending, i, r, s.sequence, s.sequence);
      assert Mirror(r) == s.pending[i].(executionState := Settled);
    } else {
      var n := s.sequence + 1;
      var r := SettleValid(s.records[i], v, after, n);
      ReplaceKeepsInv(s.records, s.pending, i, r, s.sequence, n);
      assert Mirror(r) == s.pending[i].(executionState := Settled);
      MoreSequenceForReads(s.readPrints, s.sequence, n);
      MoreSequenceForMutations(s.mutations, s.sequence, n);
    }
  }

  lemma RecordResultKeepsInv(s: State, id: nat, raw: Field<RawFacts>, after: Field<string>)
    requires Inv(s)
    ensures Inv(RecordResult(s, id, raw, after).0)
  {
    hide Inv, Validate, Settle, RecordReads, RecordMutations, FactReads, FactMutations;
    var i := FindRecord(s.records, id);
    if i < |s.records| {
      var v := Validate(raw);
      SettleKeepsInv(s, i, raw, after);
      var settled := Settle(s, i, v, after);
      RecordReadsKeepInv(settled, FactReads(v));
      RecordMutationsKeepInv(RecordReads(settled, FactReads(v)).0, FactMutations(v));
    }
  }
}
