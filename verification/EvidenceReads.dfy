// When a file read counts as new evidence, and what is known of a file version afterwards
// (src/runtime/execution-evidence-store.ts:661-700).
module EvidenceReads {
  import opened EvidenceInvariant
  import opened EvidenceState
  import opened Optional
  import opened ReadRanges
  import opened StableSort
  import opened ToolFacts
  import opened Untrusted

  // Some retained fingerprint says that `line` of the version that `r` was read from has been read.
  ghost predicate Retained(rs: seq<ReadFingerprint>, r: ReadFingerprint, line: int) {
    exists x :: x in rs && SameVersion(x, r) && HasLine(RangesOf(x), line)
  }

  ghost predicate AllOfVersion(rs: seq<ReadFingerprint>, r: ReadFingerprint) {
    forall i :: 0 <= i < |rs| ==> SameVersion(rs[i], r)
  }

  lemma {:induction false} OneHoldsRanges(rs: seq<ReadFingerprint>, r: ReadFingerprint, n: nat)
    requires OnePerVersion(rs) && AllOfVersion(rs, r) && IsRangeRead(r)
    requires forall i :: 0 <= i < |rs| ==> ReadOk(rs[i], n)
    ensures MergedRanges(AllRanges(rs))
    ensures AllRanges(rs) == [] || exists x :: x in rs && AllRanges(rs) == RangesOf(x)
  {
    if rs != [] {
      OneHoldsRanges(rs[1..], r, n);
      assert ReadOk(rs[0], n);
      if RangesOf(rs[0]) != [] {
        assert IsRangeRead(rs[0]);
        forall i | 0 <= i < |rs[1..]| ensures RangesOf(rs[1..][i]) == [] {
          assert SameVersion(rs[i + 1], r);
          assert !IsRangeRead(rs[i + 1]);
        }
        NoRanges(rs[1..]);
        assert rs[0] in rs && AllRanges(rs) == RangesOf(rs[0]);
      } else {
        assert AllRanges(rs) == AllRanges(rs[1..]);
        assert forall x :: x in rs[1..] ==> x in rs;
      }
    }
  }

  lemma {:induction false} NoRanges(rs: seq<ReadFingerprint>)
    requires forall i :: 0 <= i < |rs| ==> RangesOf(rs[i]) == []
    ensures AllRanges(rs) == []
  {
    if rs != [] { NoRanges(rs[1..]); }
  }

  lemma {:induction false} LinesOfAll(rs: seq<ReadFingerprint>, line: int)
    ensures HasLine(AllRanges(rs), line) <==> exists x :: x in rs && HasLine(RangesOf(x), line)
  {
    if rs != [] {
      LinesOfAll(rs[1..], line);
      LinesOfSum(RangesOf(rs[0]), AllRanges(rs[1..]), line);
      assert rs == [rs[0]] + rs[1..];
    }
  }

  lemma LinesOfSum(a: seq<Range>, b: seq<Range>, line: int)
    ensures HasLine(a + b, line) <==> HasLine(a, line) || HasLine(b, line)
  {
    if HasLine(a, line) {
      var i :| 0 <= i < |a| && InRange(a[i], line);
      assert InRange((a + b)[i], line);
    }
    if HasLine(b, line) {
      var i :| 0 <= i < |b| && InRange(b[i], line);
      assert InRange((a + b)[|a| + i], line);
    }
    if HasLine(a + b, line) {
      var i :| 0 <= i < |a + b| && InRange((a + b)[i], line);
      assert if i < |a| then InRange(a[i], line) else InRange(b[i - |a|], line);
    }
  }

  // What is covered before a read are exactly the retained lines: the cap never bites here.
  lemma CoveredIsRetained(rs: seq<ReadFingerprint>, r: ReadFingerprint, n: nat, line: int)
    requires ReadsInv(rs, n) && IsRangeRead(r)
    ensures HasLine(Covered(rs, r), line) <==> Retained(rs, r, line)
  {
    var p := (x: ReadFingerprint) => SameVersion(x, r);
    var same := Filter(rs, p);
    FilterOnePerVersion(rs, p);
    forall i | 0 <= i < |same| ensures SameVersion(same[i], r) && ReadOk(same[i], n) {
      assert same[i] in rs && p(same[i]);
      var k :| 0 <= k < |rs| && rs[k] == same[i];
      assert ReadOk(rs[k], n);
    }
    OneHoldsRanges(same, r, n);
    MergedIsFixed(AllRanges(same));
    assert Covered(rs, r) == AllRanges(same);
    LinesOfAll(same, line);
    assert forall x :: x in same <==> x in rs && p(x);
    if Retained(rs, r, line) {
      var x :| x in rs && SameVersion(x, r) && HasLine(RangesOf(x), line);
      assert p(x);
    }
  }

  ghost predicate ReadsNewLine(rs: seq<ReadFingerprint>, r: ReadFingerprint) {
    exists line :: HasLine(RangesOf(r), line) && !Retained(rs, r, line)
  }

  // A read of lines is new evidence exactly when it returns a line not yet retained for that version.
  lemma NovelIffNewLine(rs: seq<ReadFingerprint>, r: ReadFingerprint, n: nat)
    requires ReadsInv(rs, n) && ReadOk(r, n + 1) && IsRangeRead(r)
    ensures AddRead(rs, r).1 <==> ReadsNewLine(rs, r)
  {
    var ranges, covered := RangesOf(r), Covered(rs, r);
    CoveredOk(rs, r, n);
    if HasNovelRange(ranges, covered) {
      var i :| 0 <= i < |ranges| && !InsideSome(ranges[i], covered);
      assert ranges[i] in ranges && Proper(ranges[i]);
      CoveredByOne(covered, ranges[i]);
      var line :| InRange(ranges[i], line) && !HasLine(covered, line);
      CoveredIsRetained(rs, r, n, line);
      assert HasLine(ranges, line);
    }
    if ReadsNewLine(rs, r) {
      var line :| HasLine(ranges, line) && !Retained(rs, r, line);
      CoveredIsRetained(rs, r, n, line);
      var i :| 0 <= i < |ranges| && InRange(ranges[i], line);
      assert ranges[i] in ranges && Proper(ranges[i]);
      CoveredByOne(covered, ranges[i]);
      assert !InsideSome(ranges[i], covered);
    }
  }

  // After a read of lines exactly the lines known before and the ones just read are retained for that
  // version, except that beyond 64 ranges the lowest ones are forgotten.
  lemma RetainedAfterRead(rs: seq<ReadFingerprint>, r: ReadFingerprint, n: nat, line: int)
    requires ReadsInv(rs, n) && ReadOk(r, n + 1) && r.seqNumber == n + 1 && IsRangeRead(r)
    ensures var merged := MergeRanges(Covered(rs, r) + RangesOf(r));
      && (Retained(AddRead(rs, r).0, r, line) ==> Retained(rs, r, line) || HasLine(RangesOf(r), line))
      && (|merged| < MAX_RANGES || line >= merged[0].startLine ==>
            (Retained(AddRead(rs, r).0, r, line) <==> Retained(rs, r, line) || HasLine(RangesOf(r), line)))
  {
    var merged := MergeRanges(Covered(rs, r) + RangesOf(r));
    var last := r.(returnedRanges := Some(merged));
    CoveredOk(rs, r, n);
    AllProperSum(Covered(rs, r), RangesOf(r));
    MergeCoversUnion(Covered(rs, r) + RangesOf(r));
    LinesOfSum(Covered(rs, r), RangesOf(r), line);
    CoveredIsRetained(rs, r, n, line);
    MergeReadKeeps(rs, r, n);
    LastKeepsReadsInv(MergeRead(rs, r), n + 1);
    OnlyMerged(rs, r, last, line);
  }

  lemma AllProperSum(a: seq<Range>, b: seq<Range>)
    requires AllProper(a) && AllProper(b)
    ensures AllProper(a + b)
  {
  }

  lemma OnlyMerged(rs: seq<ReadFingerprint>, r: ReadFingerprint, last: ReadFingerprint, line: int)
    requires last == r.(returnedRanges := Some(MergeRanges(Covered(rs, r) + RangesOf(r))))
    requires |MergeRead(rs, r)| <= MAX_READ_FINGERPRINTS + 1
    ensures Retained(LastOf(MergeRead(rs, r), MAX_READ_FINGERPRINTS), r, line) <==> HasLine(RangesOf(last), line)
  {
    var p := (x: ReadFingerprint) => !SameVersion(x, r);
    var others := Filter(rs, p);
    var m := MergeRead(rs, r);
    assert m == others + [last];
    var kept := LastOf(m, MAX_READ_FINGERPRINTS);
    assert kept[|kept| - 1] == last && last in kept;
    forall x | x in kept && SameVersion(x, r) ensures x == last {
      assert x in m;
      assert x in others ==> p(x);
    }
  }

  // What is known of other versions stays, unless a full table drops the oldest fingerprint.
  lemma OtherVersionsStay(rs: seq<ReadFingerprint>, r: ReadFingerprint, n: nat, x: ReadFingerprint)
    requires ReadsInv(rs, n) && ReadOk(r, n + 1) && r.seqNumber == n + 1 && IsRangeRead(r) && !SameVersion(x, r)
    ensures var m := MergeRead(rs, r);
      && (x in m <==> x in rs)
      && AddRead(rs, r).0 == LastOf(m, MAX_READ_FINGERPRINTS)
      && (|m| <= MAX_READ_FINGERPRINTS ==> (x in AddRead(rs, r).0 <==> x in rs))
  {
    var p := (y: ReadFingerprint) => !SameVersion(y, r);
    var others := Filter(rs, p);
    var m := MergeRead(rs, r);
    var merged := r.(returnedRanges := Some(MergeRanges(Covered(rs, r) + RangesOf(r))));
    assert m == others + [merged];
    assert SameVersion(merged, r) && (x in others <==> x in rs && p(x));
    assert x in m <==> x in others;
    MergeReadKeeps(rs, r, n);
    LastKeepsReadsInv(m, n + 1);
  }

  // ----- reads without lines ------------------------------------------------------------------------------------

  ghost predicate KnownRead(rs: seq<ReadFingerprint>, r: ReadFingerprint) {
    exists i :: 0 <= i < |rs| && ReadKey(rs[i]) == ReadKey(r)
  }

  lemma FindReadByKey(rs: seq<ReadFingerprint>, key: string)
    ensures var i := FindRead(rs, key);
      && (i < |rs| ==> ReadKey(rs[i]) == key)
      && (i >= |rs| <==> forall k :: 0 <= k < |rs| ==> ReadKey(rs[k]) != key)
  {
    var p := (x: ReadFingerprint) => ReadKey(x) == key;
    var i := FindRead(rs, key);
    assert forall k :: 0 <= k < i ==> !p(rs[k]) ==> ReadKey(rs[k]) != key;
  }

  // Any other read is new exactly when no retained one has its key. A new one is kept as the latest, and a
  // known one becomes the latest.
  lemma OtherReadIsNewIff(rs: seq<ReadFingerprint>, r: ReadFingerprint, n: nat)
    requires ReadsInv(rs, n) && ReadOk(r, n + 1) && r.seqNumber == n + 1 && !IsRangeRead(r)
    ensures var (t, isNew) := AddRead(rs, r);
      && (isNew <==> !KnownRead(rs, r))
      && (isNew ==> t == LastOf(rs + [r], MAX_READ_FINGERPRINTS))
      && (!isNew ==> exists i :: 0 <= i < |rs| && ReadKey(rs[i]) == ReadKey(r) && t == RemoveAt(rs, i) + [rs[i].(seqNumber := n + 1)])
  {
    hide ReadKey, RemoveAt, IsRangeRead;
    FindReadByKey(rs, ReadKey(r));
    if FindRead(rs, ReadKey(r)) >= |rs| { AppendedIsKept(rs, r, n); }
  }

  lemma AppendedIsKept(rs: seq<ReadFingerprint>, r: ReadFingerprint, n: nat)
    requires ReadsInv(rs, n) && r.seqNumber == n + 1
    ensures TrimTo(rs + [r], MAX_READ_FINGERPRINTS, ReadSeq) == LastOf(rs + [r], MAX_READ_FINGERPRINTS)
  {
    forall k | 0 <= k < |rs| ensures ReadSeq(rs[k]) < ReadSeq(r) { assert ReadOk(rs[k], n); }
    TrimSorted(rs + [r], MAX_READ_FINGERPRINTS, ReadSeq);
  }

  predicate NulFree(s: string) { '\0' !in s }

  predicate FirstNulAt(s: string, k: nat) { k < |s| && s[k] == '\0' && forall i :: 0 <= i < k ==> s[i] != '\0' }

  lemma SplitAtNul(a: string, b: string, x: string, y: string)
    requires NulFree(a) && NulFree(b) && a + ("\0" + x) == b + ("\0" + y)
    ensures a == b && x == y
  {
    var s := a + ("\0" + x);
    assert FirstNulAt(s, |a|) && FirstNulAt(s, |b|);
    assert a == s[..|a|] && b == s[..|b|];
    assert x == s[|a| + 1..] && y == s[|b| + 1..];
  }

  predicate Printable(r: ReadFingerprint) {
    NulFree(r.path) && NulFree(r.version) && NulFree(OrEmpty(r.queryHash)) && NulFree(r.returnedHash)
  }

  function KeyTail(r: ReadFingerprint): string {
    var end := "\0" + (if r.complete then "1" else "0");
    VersionKindText(r.versionKind) + ("\0" + (r.version + ("\0" + (OrEmpty(r.queryHash) + ("\0" + (r.returnedHash + end))))))
  }

  lemma KeyOf(r: ReadFingerprint)
    ensures ReadKey(r) == r.path + ("\0" + KeyTail(r))
  {
  }

  // The key of a read tells all it is made of, when no part holds a NUL; a missing query counts as an empty one.
  lemma ReadKeyIdentifies(a: ReadFingerprint, b: ReadFingerprint)
    requires Printable(a) && Printable(b)
    ensures ReadKey(a) == ReadKey(b) <==>
      && a.path == b.path && a.versionKind == b.versionKind && a.version == b.version
      && (if a.queryHash.Some? then a.queryHash.value else "") == (if b.queryHash.Some? then b.queryHash.value else "")
      && a.returnedHash == b.returnedHash && a.complete == b.complete
  {
    KeyOf(a);
    KeyOf(b);
    if ReadKey(a) == ReadKey(b) {
      SplitAtNul(a.path, b.path, KeyTail(a), KeyTail(b));
      TailIdentifies(a, b);
    }
  }

  lemma TailIdentifies(a: ReadFingerprint, b: ReadFingerprint)
    requires Printable(a) && Printable(b) && KeyTail(a) == KeyTail(b)
    ensures a.versionKind == b.versionKind && a.version == b.version
    ensures OrEmpty(a.queryHash) == OrEmpty(b.queryHash) && a.returnedHash == b.returnedHash && a.complete == b.complete
  {
    var c, d := if a.complete then "1" else "0", if b.complete then "1" else "0";
    var a3, b3 := a.returnedHash + ("\0" + c), b.returnedHash + ("\0" + d);
    var a2, b2 := OrEmpty(a.queryHash) + ("\0" + a3), OrEmpty(b.queryHash) + ("\0" + b3);
    var a1, b1 := a.version + ("\0" + a2), b.version + ("\0" + b2);
    SplitAtNul(VersionKindText(a.versionKind), VersionKindText(b.versionKind), a1, b1);
    SplitAtNul(a.version, b.version, a2, b2);
    SplitAtNul(OrEmpty(a.queryHash), OrEmpty(b.queryHash), a3, b3);
    SplitAtNul(a.returnedHash, b.returnedHash, c, d);
    assert "content"[0] == 'c' && "stat"[0] == 's';
    assert c[0] == d[0];
  }

  // ----- whole batches --------------------------------------------------------------------------------------------

  // A read of a file that returned some of its lines.
  predicate ReadsLines(r: ReadFingerprint) { r.kind == Some(File) && r.returnedRanges.Some? && r.returnedRanges.value != [] }

  // The fact reads something that is not retained.
  ghost predicate IsNewRead(s: State, fact: Field<RawRead>) {
    fact.Is?
    && var r := NormalizeRead(fact.value.(seqNumber := Is(s.sequence + 1)));
       r.Some? && if ReadsLines(r.value) then ReadsNewLine(s.readPrints, r.value) else !KnownRead(s.readPrints, r.value)
  }

  lemma NormalizedIsOk(raw: RawRead, n: nat)
    ensures var r := NormalizeRead(raw.(seqNumber := Is(n)));
      r.Some? ==> ReadOk(r.value, n) && r.value.seqNumber == n
  {
    NormalizedReadOk(raw.(seqNumber := Is(n)), n);
    hide ReadOk, ToRanges, MergeRanges;
  }

  lemma LinesOrNot(r: ReadFingerprint)
    ensures ReadsLines(r) <==> IsRangeRead(r)
  {
  }

  lemma ReadIsNewIff(s: State, fact: Field<RawRead>)
    requires Inv(s)
    ensures RecordRead(s, fact).1 <==> IsNewRead(s, fact)
  {
    hide NormalizeRead, AddRead, ReadsNewLine, KnownRead, IsRangeRead, ReadOk;
    if fact.Is? {
      NormalizedIsOk(fact.value, s.sequence + 1);
      var r := NormalizeRead(fact.value.(seqNumber := Is(s.sequence + 1)));
      if r.Some? {
        LinesOrNot(r.value);
        if IsRangeRead(r.value) {
          NovelIffNewLine(s.readPrints, r.value, s.sequence);
        } else {
          OtherReadIsNewIff(s.readPrints, r.value, s.sequence);
        }
      }
    }
  }

  // What is known of a version after a read of some of its lines: those known before and those just read, except
  // that beyond 64 ranges the lowest are forgotten.
  ghost predicate LearnsLines(before: seq<ReadFingerprint>, r: ReadFingerprint, after: seq<ReadFingerprint>, line: int) {
    var merged := MergeRanges(Covered(before, r) + RangesOf(r));
    && (Retained(after, r, line) ==> Retained(before, r, line) || HasLine(RangesOf(r), line))
    && (|merged| < MAX_RANGES || line >= merged[0].startLine ==>
          (Retained(after, r, line) <==> Retained(before, r, line) || HasLine(RangesOf(r), line)))
  }

  // A known read becomes the latest, any other is kept as the latest, at most 256 of them.
  ghost predicate LearnsRead(before: seq<ReadFingerprint>, r: ReadFingerprint, after: seq<ReadFingerprint>) {
    if KnownRead(before, r) then
      exists i :: 0 <= i < |before| && ReadKey(before[i]) == ReadKey(r)
        && after == RemoveAt(before, i) + [before[i].(seqNumber := r.seqNumber)]
    else after == LastOf(before + [r], 256)
  }

  // What recording a read leaves: nothing but a number for one that is not accepted, and otherwise what it reports.
  lemma ReadLeaves(s: State, fact: Field<RawRead>, line: int)
    requires Inv(s)
    ensures var t := RecordRead(s, fact).0;
      && t == s.(sequence := t.sequence, readPrints := t.readPrints)
      && (fact.Is? ==>
            var r := NormalizeRead(fact.value.(seqNumber := Is(s.sequence + 1)));
            && t.readPrints == (if r.Some? then AddRead(s.readPrints, r.value).0 else s.readPrints)
            && (r.Some? && ReadsLines(r.value) ==> LearnsLines(s.readPrints, r.value, t.readPrints, line))
            && (r.Some? && !ReadsLines(r.value) ==> LearnsRead(s.readPrints, r.value, t.readPrints)))
      && (!fact.Is? ==> t == s)
  {
    hide NormalizeRead, AddRead, KnownRead, IsRangeRead, ReadOk, Retained, Covered, RangesOf, MergeRanges, LastOf, ReadKey, RemoveAt;
    if fact.Is? {
      NormalizedIsOk(fact.value, s.sequence + 1);
      var r := NormalizeRead(fact.value.(seqNumber := Is(s.sequence + 1)));
      if r.Some? {
        LinesOrNot(r.value);
        if IsRangeRead(r.value) {
          RetainedAfterRead(s.readPrints, r.value, s.sequence, line);
        } else {
          OtherReadIsNewIff(s.readPrints, r.value, s.sequence);
        }
      }
    }
  }

  // A batch counts the facts that are new at their turn.
  lemma {:induction false} OneMoreRead(s: State, facts: seq<Field<RawRead>>, fact: Field<RawRead>)
    requires Inv(s)
    ensures var (t, count) := RecordReads(s, facts);
      RecordReads(s, facts + [fact]) == (RecordRead(t, fact).0, count + if IsNewRead(t, fact) then 1 else 0)
    decreases facts
  {
    hide RecordRead, IsNewRead, Inv;
    if facts == [] {
      assert [] + [fact] == [fact] && [fact][1..] == [];
      ReadIsNewIff(s, fact);
      var t := RecordRead(s, fact).0;
      assert RecordReads(t, []) == (t, 0);
    } else {
      assert (facts + [fact])[1..] == facts[1..] + [fact];
      RecordReadKeepsInv(s, facts[0]);
      OneMoreRead(RecordRead(s, facts[0]).0, facts[1..], fact);
    }
  }

  // ----- what is kept of a fact ---------------------------------------------------------------------------------

  // The fact reports this line: one of its well-formed ranges has it.
  ghost predicate ReportsLine(raw: RawRead, line: int) {
    raw.returnedRanges.Is?
    && exists i :: 0 <= i < |raw.returnedRanges.value| && ValidRange(raw.returnedRanges.value[i])
                   && raw.returnedRanges.value[i].value.startLine.value <= line <= raw.returnedRanges.value[i].value.endLine.value
  }

  lemma {:induction false} LinesOfKnown(fs: seq<Field<Range>>, line: int)
    ensures HasLine(KnownOnly(fs), line) <==> exists i :: 0 <= i < |fs| && fs[i].Is? && InRange(fs[i].value, line)
  {
    if fs != [] {
      LinesOfKnown(fs[1..], line);
      if fs[0].Is? { LinesOfSum([fs[0].value], KnownOnly(fs[1..]), line); }
    }
  }

  // A fact that names a file and a version is kept as it was reported, its lines merged into ranges.
  lemma KeptAsReported(raw: RawRead, line: int)
    ensures var r := NormalizeRead(raw);
      && (r.Some? <==> NonEmpty(raw.path) && raw.versionKind.Is? && raw.version.Is? && raw.returnedHash.Is? && raw.complete.Is?)
      && (r.Some? ==>
            && raw.path == Is(r.value.path) && raw.versionKind == Is(r.value.versionKind) && raw.version == Is(r.value.version)
            && raw.returnedHash == Is(r.value.returnedHash) && raw.complete == Is(r.value.complete)
            && r.value.kind == Known(raw.kind) && r.value.queryHash == Known(raw.queryHash)
            && r.value.seqNumber == (if raw.seqNumber.Is? then raw.seqNumber.value else 0)
            && (r.value.returnedRanges.Some? <==> raw.returnedRanges.Is?)
            && (HasLine(RangesOf(r.value), line) ==> ReportsLine(raw, line))
            && (|RangesOf(r.value)| < MAX_RANGES && ReportsLine(raw, line) ==> HasLine(RangesOf(r.value), line)))
  {
    if raw.returnedRanges.Is? {
      var items := raw.returnedRanges.value;
      RangesAreProper(items);
      MergeCoversUnion(ToRanges(items));
      LinesOfKnown(MapSeq(items, ToRange), line);
      hide MergeRanges, KnownOnly;
      assert HasLine(ToRanges(items), line) <==> ReportsLine(raw, line);
    }
  }

  // A mutation that names a file is kept as it was reported.
  lemma MutationKeptAsReported(raw: RawMutation)
    ensures var m := NormalizeMutation(raw);
      && (m.Some? <==> NonEmpty(raw.path) && (raw.beforeHash.Is? || raw.beforeHash.Null?) && (raw.afterHash.Is? || raw.afterHash.Null?))
      && (m.Some? ==>
            && raw.path == Is(m.value.path)
            && m.value.beforeHash == Known(raw.beforeHash) && m.value.afterHash == Known(raw.afterHash)
            && m.value.seqNumber == (if raw.seqNumber.Is? then raw.seqNumber.value else 0))
  {
  }

  predicate PrintableChange(m: MutationFingerprint) {
    NulFree(m.path) && NulFree(OrEmpty(m.beforeHash)) && NulFree(OrEmpty(m.afterHash))
  }

  lemma ChangeKeyOf(m: MutationFingerprint)
    ensures MutationKey(m) == m.path + ("\0" + (OrEmpty(m.beforeHash) + ("\0" + OrEmpty(m.afterHash))))
  {
  }

  // The key of a mutation tells its file and both contents, when none of them holds a NUL; a missing one
  // counts as empty.
  lemma MutationKeyIdentifies(a: MutationFingerprint, b: MutationFingerprint)
    requires PrintableChange(a) && PrintableChange(b)
    ensures MutationKey(a) == MutationKey(b) <==>
      && a.path == b.path
      && (if a.beforeHash.Some? then a.beforeHash.value else "") == (if b.beforeHash.Some? then b.beforeHash.value else "")
      && (if a.afterHash.Some? then a.afterHash.value else "") == (if b.afterHash.Some? then b.afterHash.value else "")
  {
    ChangeKeyOf(a);
    ChangeKeyOf(b);
    if MutationKey(a) == MutationKey(b) {
      var x, y := OrEmpty(a.beforeHash) + ("\0" + OrEmpty(a.afterHash)), OrEmpty(b.beforeHash) + ("\0" + OrEmpty(b.afterHash));
      SplitAtNul(a.path, b.path, x, y);
      SplitAtNul(OrEmpty(a.beforeHash), OrEmpty(b.beforeHash), OrEmpty(a.afterHash), OrEmpty(b.afterHash));
    }
  }
}
