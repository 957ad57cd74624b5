// The execution evidence store of one run (src/runtime/execution-evidence-store.ts:444-778).
module EvidenceStore {
  import opened EvidenceInvariant
  import opened EvidenceSnapshot
  import opened EvidenceState
  import opened Optional
  import opened ReadRanges
  import opened StableSort
  import opened ToolFacts
  import opened Untrusted

  class ExecutionEvidenceStore {
    var sequence: nat
    var iteration: int
    var records: seq<CheckRecord>
    var readPrints: seq<ReadFingerprint>
    var mutations: seq<MutationFingerprint>
    var pending: seq<PendingInvocation>

    function Contents(): State
      reads this
    {
      State(sequence, iteration, records, readPrints, mutations, pending)
    }

    ghost predicate Valid()
      reads this
    {
      Inv(Contents())
    }

    constructor ()
      ensures Valid() && Contents() == EMPTY
    {
      sequence, iteration := 0, 0;
      records, readPrints, mutations, pending := [], [], [], [];
      new;
      EmptyInv();
    }

    method RestoreFrom(snapshot: Field<RawSnapshot>)
      modifies this
      ensures Contents() == Restore(old(Contents()), snapshot)
    {
      sequence, records, readPrints, mutations, pending := 0, [], [], [], [];
      if !snapshot.Is? || snapshot.value.version != Is(SNAPSHOT_VERSION) {
        return;
      }
      var raw := snapshot.value;
      if raw.sequence.Is? && raw.sequence.value >= 0 {
        sequence := raw.sequence.value;
      }
      records := Accepted(ListOf(raw.records), NormalizeRecord);
      readPrints := Accepted(ListOf(raw.readPrints), NormalizeRead);
      mutations := Accepted(ListOf(raw.mutations), NormalizeMutation);
      var entries := Accepted(ListOf(raw.pending), NormalizePending);
      for i := 0 to |entries|
        invariant Contents().(pending := []) == Restore(old(Contents()), snapshot).(pending := [])
        invariant SetAll(pending, entries[i..]) == SetAll([], entries)
      {
        assert entries[i..][1..] == entries[i + 1..];
        pending := SetEntry(pending, entries[i]);
      }
    }

    method Iterate(next: Option<real>)
      modifies this`iteration
      ensures Contents() == SetIteration(old(Contents()), next)
      ensures old(Valid()) ==> Valid()
    {
      if next.Some? && next.value >= 0.0 {
        iteration := next.value.Floor;
      }
    }

    // Makes room for one more record; answers whether there is any.
    method MakeRoomForOne() returns (ok: bool)
      modifies this`records, this`pending
      ensures ok == MakeRoom(old(Contents())).Some?
      ensures Contents() == if ok then MakeRoom(old(Contents())).value else old(Contents())
    {
      if |records| < MAX_CHECK_RECORDS { return true; }
      var victim := Victim(records, iteration);
      if victim >= |records| { return false; }
      var origin := records[victim].origin;
      records := RemoveAt(records, victim);
      var entry := FindPending(pending, origin);
      if entry < |pending| && pending[entry].executionState == Settled {
        pending := RemoveAt(pending, entry);
      }
      return true;
    }

    method GetOrCreateInvocation(origin: string, specHash: string, fingerprint: Option<string>) returns (handle: Option<Handle>)
      modifies this
      ensures (Contents(), handle) == GetOrCreate(old(Contents()), origin, specHash, fingerprint)
      ensures old(Valid()) ==> Valid()
    {
      CreateKeeps(Contents(), origin, specHash, fingerprint);
      var existing := FindPending(pending, origin);
      if existing < |pending| {
        if pending[existing].specHash != specHash { return None; }
        return Some(Existing(Contents(), pending[existing]));
      }
      if FindUnresolved(records, specHash, Some(origin)) < |records| { return None; }
      var room := MakeRoomForOne();
      if !room { return None; }
      sequence := sequence + 1;
      var record := NewRecord(sequence, origin, specHash, fingerprint, iteration);
      records := records + [record];
      pending := pending + [PendingInvocation(sequence, sequence, origin, specHash, fingerprint, Pending, iteration)];
      return Some(Handle(sequence, sequence, false, Some(record)));
    }

    method FindReusableResult(specHash: string, fingerprint: Option<string>) returns (found: Option<CheckRecord>)
      modifies this
      ensures (Contents(), found) == FindReusable(old(Contents()), specHash, fingerprint)
      ensures old(Valid()) ==> Valid()
    {
      ReuseKeeps(Contents(), specHash, fingerprint);
      if !HasText(fingerprint) || FindUnresolved(records, specHash, None) < |records| { return None; }
      var i := FindMatch(records, specHash, fingerprint.value);
      if i >= |records| { return None; }
      sequence := sequence + 1;
      records := records[i := records[i].(lastAccessSeq := sequence)];
      return Some(records[i]);
    }

    method InvalidateCompletedChecks(reason: string)
      modifies this`records
      ensures Contents() == InvalidateCompleted(old(Contents()), reason)
      ensures old(Valid()) ==> Valid()
    {
      InvalidateKeeps(Contents(), reason);
      ghost var was := records;
      for i := 0 to |records|
        invariant |records| == |was|
        invariant forall k :: 0 <= k < |was| ==> records[k] == if k < i then InvalidateRecord(was[k], reason) else was[k]
      {
        if records[i].executionState != Settled { continue; }
        records := records[i := records[i].(reusable := false, scopeComplete := false, invalidationReason := Some(Text(reason)))];
      }
      assert records == InvalidateAll(was, reason);
    }

    method TrimReads()
      modifies this`readPrints
      ensures readPrints == TrimTo(old(readPrints), MAX_READ_FINGERPRINTS, ReadSeq)
    {
      while |readPrints| > MAX_READ_FINGERPRINTS
        invariant TrimTo(readPrints, MAX_READ_FINGERPRINTS, ReadSeq) == TrimTo(old(readPrints), MAX_READ_FINGERPRINTS, ReadSeq)
        decreases |readPrints|
      {
        SortBySorts(readPrints, ReadSeq);
        readPrints := SortBy(readPrints, ReadSeq)[1..];
      }
    }

    method TrimMutations()
      modifies this`mutations
      ensures mutations == TrimTo(old(mutations), MAX_MUTATION_FINGERPRINTS, MutationSeq)
    {
      while |mutations| > MAX_MUTATION_FINGERPRINTS
        invariant TrimTo(mutations, MAX_MUTATION_FINGERPRINTS, MutationSeq)
          == TrimTo(old(mutations), MAX_MUTATION_FINGERPRINTS, MutationSeq)
        decreases |mutations|
      {
        SortBySorts(mutations, MutationSeq);
        mutations := SortBy(mutations, MutationSeq)[1..];
      }
    }

    // One turn of the loop over read facts; answers whether the fact is new.
    method RecordOneRead(fact: Field<RawRead>) returns (isNew: bool)
      modifies this`sequence, this`readPrints
      ensures (Contents(), isNew) == RecordRead(old(Contents()), fact)
    {
      hide NormalizeRead, IsRangeRead, Covered, HasNovelRange, MergeRead, TrimTo, FindRead, ReadKey, RangesOf;
      if !fact.Is? { return false; }
      sequence := sequence + 1;
      var normalized := NormalizeRead(fact.value.(seqNumber := Is(sequence)));
      if normalized.None? { return false; }
      var fp := normalized.value;
      if IsRangeRead(fp) {
        var covered := Covered(readPrints, fp);
        isNew := HasNovelRange(RangesOf(fp), covered);
        readPrints := MergeRead(readPrints, fp);
        TrimReads();
        return;
      }
      var existing := FindRead(readPrints, ReadKey(fp));
      if existing < |readPrints| {
        var moved := readPrints[existing].(seqNumber := fp.seqNumber);
        readPrints := RemoveAt(readPrints, existing);
        readPrints := readPrints + [moved];
        return false;
      }
      readPrints := readPrints + [fp];
      TrimReads();
      return true;
    }

    method RecordReadFacts(facts: seq<Field<RawRead>>) returns (added: nat)
      modifies this`sequence, this`readPrints
      ensures (Contents(), added) == RecordReads(old(Contents()), facts)
      ensures old(Valid()) ==> Valid()
    {
      ReadsKeep(Contents(), facts);
      added := 0;
      for i := 0 to |facts|
        invariant RecordReads(old(Contents()), facts) ==
          (RecordReads(Contents(), facts[i..]).0, added + RecordReads(Contents(), facts[i..]).1)
      {
        assert facts[i..][1..] == facts[i + 1..];
        var isNew := RecordOneRead(facts[i]);
        if isNew { added := added + 1; }
      }
    }

    method RecordOneMutation(fact: Field<RawMutation>) returns (isNew: bool)
      modifies this`sequence, this`mutations, this`records
      ensures (Contents(), isNew) == RecordMutation(old(Contents()), fact)
    {
      if !fact.Is? { return false; }
      sequence := sequence + 1;
      var normalized := NormalizeMutation(fact.value.(seqNumber := Is(sequence)));
      if normalized.None? { return false; }
      var existing := FindMutation(mutations, MutationKey(normalized.value));
      if existing < |mutations| {
        var moved := mutations[existing].(seqNumber := sequence);
        mutations := RemoveAt(mutations, existing);
        mutations := mutations + [moved];
        return false;
      }
      mutations := mutations + [normalized.value];
      InvalidateCompletedChecks("workspace_changed");
      TrimMutations();
      return true;
    }

    method RecordMutationFacts(facts: seq<Field<RawMutation>>) returns (added: nat)
      modifies this`sequence, this`mutations, this`records
      ensures (Contents(), added) == RecordMutations(old(Contents()), facts)
      ensures old(Valid()) ==> Valid()
    {
      MutationsKeep(Contents(), facts);
      added := 0;
      for i := 0 to |facts|
        invariant RecordMutations(old(Contents()), facts) ==
          (RecordMutations(Contents(), facts[i..]).0, added + RecordMutations(Contents(), facts[i..]).1)
      {
        assert facts[i..][1..] == facts[i + 1..];
        var isNew := RecordOneMutation(facts[i]);
        if isNew { added := added + 1; }
      }
    }

    method RecordCheckResult(id: nat, rawFacts: Field<RawFacts>, after: Field<string>) returns (r: Option<CheckRecord>)
      modifies this
      ensures (Contents(), r) == RecordResult(old(Contents()), id, rawFacts, after)
      ensures old(Valid()) ==> Valid()
    {
      hide Validate, Inv, RecordReads, RecordMutations, SettleValid, SettleInvalid, FactReads, FactMutations, FindPending, Mark;
      ResultKeeps(Contents(), id, rawFacts, after);
      var i := FindRecord(records, id);
      if i >= |records| { return None; }
      var validation := ValidateToolFacts(rawFacts);
      var entry := FindPending(pending, records[i].origin);
      ghost var was := Contents();
      ValidHasFacts(rawFacts);
      if !validation.valid {
        records := records[i := SettleInvalid(records[i], validation)];
        pending := Mark(pending, entry, Settled);
        NothingToRecord(Contents(), validation);
        return Some(records[i]);
      }
      sequence := sequence + 1;
      records := records[i := SettleValid(records[i], validation, after, sequence)];
      pending := Mark(pending, entry, Settled);
      assert Contents() == Settle(was, i, validation, after);
      var _ := RecordReadFacts(FactReads(validation));
      var _ := RecordMutationFacts(FactMutations(validation));
      r := if i < |records| then Some(records[i]) else None;
    }

    method RecordUncertainExit(id: nat, reason: string)
      modifies this
      ensures Contents() == RecordUncertain(old(Contents()), id, reason)
      ensures old(Valid()) ==> Valid()
    {
      UncertainKeeps(Contents(), id, reason);
      var i := FindRecord(records, id);
      if i < |records| {
        records := records[i := records[i].(executionState := Uncertain, reusable := false, invalidationReason := Some(Text(reason)))];
      }
      pending := Mark(pending, FindPendingId(pending, id), Uncertain);
    }

    function Snapshot(): RawSnapshot
      reads this
    {
      TakeSnapshot(Contents())
    }
  }

  lemma ValidHasFacts(raw: Field<RawFacts>)
    ensures Validate(raw).valid ==> Validate(raw).facts.Some?
  {
  }

  lemma NothingToRecord(s: State, v: Validation)
    requires !v.valid
    ensures RecordMutations(RecordReads(s, FactReads(v)).0, FactMutations(v)).0 == s
  {
  }

  // The preservation lemmas, in the form the methods use.
  lemma CreateKeeps(s: State, origin: string, specHash: string, fingerprint: Option<string>)
    ensures Inv(s) ==> Inv(GetOrCreate(s, origin, specHash, fingerprint).0)
  {
    if Inv(s) { CreateKeepsInv(s, origin, specHash, fingerprint); }
  }

  lemma ReuseKeeps(s: State, specHash: string, fingerprint: Option<string>)
    ensures Inv(s) ==> Inv(FindReusable(s, specHash, fingerprint).0)
  {
    if Inv(s) { ReuseKeepsInv(s, specHash, fingerprint); }
  }

  lemma InvalidateKeeps(s: State, reason: string)
    ensures Inv(s) ==> Inv(InvalidateCompleted(s, reason))
  {
    if Inv(s) { InvalidateAllKeeps(s.records, s.pending, s.sequence, reason); }
  }

  lemma ReadsKeep(s: State, facts: seq<Field<RawRead>>)
    ensures Inv(s) ==> Inv(RecordReads(s, facts).0)
  {
    if Inv(s) { RecordReadsKeepInv(s, facts); }
  }

  lemma MutationsKeep(s: State, facts: seq<Field<RawMutation>>)
    ensures Inv(s) ==> Inv(RecordMutations(s, facts).0)
  {
    if Inv(s) { RecordMutationsKeepInv(s, facts); }
  }

  lemma ResultKeeps(s: State, id: nat, raw: Field<RawFacts>, after: Field<string>)
    ensures Inv(s) ==> Inv(RecordResult(s, id, raw, after).0)
  {
    if Inv(s) { RecordResultKeepsInv(s, id, raw, after); }
  }

  lemma UncertainKeeps(s: State, id: nat, reason: string)
    ensures Inv(s) ==> Inv(RecordUncertain(s, id, reason))
  {
    if Inv(s) { UncertainKeepsInv(s, id, reason); }
  }
}
