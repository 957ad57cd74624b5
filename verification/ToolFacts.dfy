// Validation of the facts a tool reports about one execution (src/execution-evidence.ts:185-494).
module ToolFacts {
  import opened Optional
  import opened ReadRanges
  import opened Untrusted

  const FACTS_VERSION := 1
  const MAX_DIAGNOSTICS := 128
  const MAX_MUTATION_FACTS := 32
  const MAX_READ_FACTS := 16
  const MAX_FINGERPRINT_LENGTH := 128
  const MAX_SAFE_INTEGER := 9007199254740991

  datatype Severity = SevereError | Warning | Info
  datatype Profile = Process | BiomeLint
  datatype Conclusion = Passed | Failed | Inconclusive
  datatype ReadKind = File | Grep | Ls
  datatype VersionKind = Content | Stat

  datatype RawDiagnostic = RawDiagnostic(
    path: Field<string>, rule: Field<string>, severity: Field<Severity>, message: Field<string>,
    primarySnippet: Field<string>, relatedSnippets: Field<seq<Field<string>>>, fingerprint: Field<string>)

  datatype RawProcess = RawProcess(
    exitCode: Field<int>, timedOut: Field<bool>, logsComplete: Field<bool>,
    stdoutRef: Field<string>, stderrRef: Field<string>)

  datatype RawCheck = RawCheck(
    profile: Field<Profile>, conclusion: Field<Conclusion>,
    diagnostics: Field<seq<Field<RawDiagnostic>>>, reportComplete: Field<bool>)

  datatype RawRange = RawRange(startLine: Field<int>, endLine: Field<int>)

  datatype RawRead = RawRead(
    kind: Field<ReadKind>, path: Field<string>, versionKind: Field<VersionKind>, version: Field<string>,
    queryHash: Field<string>, returnedRanges: Field<seq<Field<RawRange>>>, returnedHash: Field<string>,
    complete: Field<bool>, seqNumber: Field<int>)

  datatype RawMutation = RawMutation(
    path: Field<string>, beforeHash: Field<string>, afterHash: Field<string>, seqNumber: Field<int>)

  datatype RawFacts = RawFacts(
    version: Field<int>, process: Field<RawProcess>, check: Field<RawCheck>,
    readFacts: Field<seq<Field<RawRead>>>, mutations: Field<seq<Field<RawMutation>>>)

  datatype ProcessFact = ProcessFact(
    exitCode: Option<int>, timedOut: bool, logsComplete: bool, stdoutRef: Option<string>, stderrRef: Option<string>)

  datatype CheckFact = CheckFact(
    profile: Profile, conclusion: Conclusion, diagnostics: Option<seq<RawDiagnostic>>, reportComplete: bool)

  datatype Facts = Facts(
    process: Option<ProcessFact>, check: Option<CheckFact>,
    readFacts: Option<seq<RawRead>>, mutations: Option<seq<RawMutation>>)

  datatype Issue =
    | FactsAbsent | FactsNotAnObject | UnsupportedVersion
    | ProcessMalformed | CheckMalformed | DiagnosticMalformed(index: nat) | DiagnosticsExceeded
    | ReadsNotAnArray | ReadMalformed(index: nat) | ReadsExceeded
    | MutationsNotAnArray | MutationMalformed(index: nat) | MutationsExceeded
    | EmptyEnvelope

  datatype Validation = Validation(
    valid: bool, facts: Option<Facts>, issues: seq<Issue>, reportComplete: bool, comparable: bool,
    reusable: bool, conclusion: Option<Conclusion>, mayClaimPassed: bool)

  // ----- paths and fingerprints ----------------------------------------------------------------

  predicate IsSeparator(c: char) { c == '/' || c == '\\' }

  predicate IsLetter(c: char) { 'a' <= c <= 'z' || 'A' <= c <= 'Z' }

  predicate IsDigit(c: char) { '0' <= c <= '9' }

  function Segments(path: string): (r: seq<string>)
    ensures r != []
  {
    if path == "" then [""]
    else
      var rest := Segments(path[1..]);
      if IsSeparator(path[0]) then [""] + rest else [[path[0]] + rest[0]] + rest[1..]
  }

  predicate PlainSegment(s: string) { s != "" && s != "." && s != ".." }

  predicate PlainSegments(segments: seq<string>) {
    forall i :: 0 <= i < |segments| ==> PlainSegment(segments[i])
  }

  predicate IsWorkspaceRelativePath(path: string) {
    && path != ""
    && '\0' !in path
    && !IsSeparator(path[0])
    && !(|path| >= 2 && IsLetter(path[0]) && path[1] == ':')
    && PlainSegments(Segments(path))
  }

  predicate AllDigits(s: string) { forall i :: 0 <= i < |s| ==> IsDigit(s[i]) }

  // The suffix `:<digits>` of `/:\d+(?::\d+)?$/`; the optional second group only lengthens it.
  predicate HasLineMarker(s: string) {
    exists i :: 0 <= i < |s| - 1 && s[i] == ':' && AllDigits(s[i + 1..])
  }

  predicate IsStableFingerprint(s: string) {
    && s != "" && |s| <= MAX_FINGERPRINT_LENGTH
    && (forall i :: 0 <= i < |s| ==> !IsSeparator(s[i]) && !IsWhitespace(s[i]))
    && !HasLineMarker(s)
  }

  predicate RelativePath(f: Field<string>) { f.Is? && IsWorkspaceRelativePath(f.value) }

  predicate OptionalRelativePath(f: Field<string>) { f.Absent? || RelativePath(f) }

  // Resolving a path below a directory: `.` and empty segments stay, `..` climbs.
  function Resolve(dir: seq<string>, segments: seq<string>): seq<string>
    decreases segments
  {
    if segments == [] then dir
    else if segments[0] == "" || segments[0] == "." then Resolve(dir, segments[1..])
    else if segments[0] == ".." then Resolve(if dir == [] then [] else dir[..|dir| - 1], segments[1..])
    else Resolve(dir + [segments[0]], segments[1..])
  }

  // An accepted path names an entry strictly below every directory it is resolved from.
  lemma {:induction false} PlainSegmentsDescend(dir: seq<string>, segments: seq<string>)
    requires PlainSegments(segments)
    ensures Resolve(dir, segments) == dir + segments
    decreases segments
  {
    if segments != [] {
      assert PlainSegment(segments[0]);
      assert PlainSegments(segments[1..]) by {
        forall i | 0 <= i < |segments[1..]| ensures PlainSegment(segments[1..][i]) {
          assert PlainSegment(segments[i + 1]);
        }
      }
      PlainSegmentsDescend(dir + [segments[0]], segments[1..]);
      assert dir + [segments[0]] + segments[1..] == dir + segments;
    }
  }

  lemma AcceptedPathDescends(dir: seq<string>, path: string)
    requires IsWorkspaceRelativePath(path)
    ensures dir < Resolve(dir, Segments(path))
  {
    PlainSegmentsDescend(dir, Segments(path));
  }

  // The stretch from `i` to `j` is a whole segment of the path.
  predicate SegmentAt(path: string, i: nat, j: nat) {
    && i <= j <= |path|
    && (i == 0 || path[i - 1] in "/\\") && (j == |path| || path[j] in "/\\")
    && forall k :: i <= k < j ==> path[k] !in "/\\"
  }

  lemma {:induction false} SegmentIsAt(path: string, n: nat) returns (i: nat, j: nat)
    requires n < |Segments(path)|
    ensures SegmentAt(path, i, j) && path[i..j] == Segments(path)[n] && (n == 0 <==> i == 0)
  {
    if path == "" || (IsSeparator(path[0]) && n == 0) {
      i, j := 0, 0;
    } else {
      var k, l := SegmentIsAt(path[1..], if IsSeparator(path[0]) then n - 1 else n);
      i, j := if n == 0 then 0 else k + 1, l + 1;
      if n == 0 {
        assert path[0..l + 1] == [path[0]] + path[1..][0..l];
      } else {
        assert path[k + 1..l + 1] == path[1..][k..l];
      }
    }
  }

  lemma {:induction false} SegmentIsListed(path: string, i: nat, j: nat) returns (n: nat)
    requires SegmentAt(path, i, j)
    ensures n < |Segments(path)| && Segments(path)[n] == path[i..j] && (n == 0 <==> i == 0)
  {
    if path == "" || (IsSeparator(path[0]) && i == 0) {
      n := 0;
    } else if i == 0 {
      n := SegmentIsListed(path[1..], 0, j - 1);
      assert path[0..j] == [path[0]] + path[1..][0..j - 1];
    } else {
      n := SegmentIsListed(path[1..], i - 1, j - 1);
      assert path[i..j] == path[1..][i - 1..j - 1];
      if IsSeparator(path[0]) { n := n + 1; }
    }
  }

  // A path is accepted exactly when it is not empty, holds no NUL, does not start with a slash, a backslash or a
  // drive, and none of its segments between slashes or backslashes is empty, `.` or `..`.
  lemma PathIsAcceptedIff(path: string)
    ensures IsWorkspaceRelativePath(path) <==>
      && path != "" && '\0' !in path && path[0] != '/' && path[0] != '\\'
      && !(|path| >= 2 && path[1] == ':' && ('a' <= path[0] <= 'z' || 'A' <= path[0] <= 'Z'))
      && forall i: nat, j: nat :: SegmentAt(path, i, j) ==> path[i..j] != "" && path[i..j] != "." && path[i..j] != ".."
  {
    var segments := Segments(path);
    if PlainSegments(segments) {
      forall i: nat, j: nat | SegmentAt(path, i, j) ensures PlainSegment(path[i..j]) {
        var n := SegmentIsListed(path, i, j);
        assert PlainSegment(segments[n]);
      }
    }
    if forall i: nat, j: nat :: SegmentAt(path, i, j) ==> PlainSegment(path[i..j]) {
      forall n | 0 <= n < |segments| ensures PlainSegment(segments[n]) {
        var i, j := SegmentIsAt(path, n);
      }
    }
  }

  // A backslash is taken for a separator, and what is between backslashes for a path.
  lemma BackslashIsAccepted()
    ensures IsWorkspaceRelativePath("a\\b")
  {
    var path := "a\\b";
    forall i: nat, j: nat | SegmentAt(path, i, j) ensures path[i..j] in {"a", "b"} {
      assert |path| == 3 && path[0] == 'a' && path[1] == '\\' && path[2] == 'b';
      assert i == 0 || i == 2;
      assert i == 0 ==> j == 1 && path[0..1] == "a";
      assert i == 2 ==> j == 3 && path[2..3] == "b";
    }
    PathIsAcceptedIff(path);
  }

  ghost predicate Digits(s: string) { s != "" && forall i :: 0 <= i < |s| ==> '0' <= s[i] <= '9' }

  // A line marker is a colon and digits at the end, with or without another colon and digits before.
  lemma LineMarkerIff(s: string)
    ensures HasLineMarker(s) <==>
      || (exists a, d :: Digits(d) && s == a + ":" + d)
      || (exists a, d, e :: Digits(d) && Digits(e) && s == a + ":" + d + ":" + e)
  {
    if HasLineMarker(s) {
      var i :| 0 <= i < |s| - 1 && s[i] == ':' && AllDigits(s[i + 1..]);
      assert Digits(s[i + 1..]) && s == s[..i] + ":" + s[i + 1..];
    }
    forall a, d | Digits(d) && s == a + ":" + d ensures HasLineMarker(s) {
      assert s[|a|] == ':' && s[|a| + 1..] == d;
    }
    forall a, d, e | Digits(d) && Digits(e) && s == a + ":" + d + ":" + e ensures HasLineMarker(s) {
      var n := |a| + 1 + |d|;
      assert s[n] == ':' && s[n + 1..] == e;
    }
  }

  // A fingerprint is one to 128 characters without separators, blanks or a line marker at the end.
  lemma FingerprintIsAcceptedIff(s: string)
    ensures IsStableFingerprint(s) <==>
      && 1 <= |s| <= 128 && '/' !in s && '\\' !in s
      && (forall c :: c in s ==> !IsWhitespace(c))
      && !(exists a, d :: Digits(d) && s == a + ":" + d)
      && !(exists a, d, e :: Digits(d) && Digits(e) && s == a + ":" + d + ":" + e)
  {
    LineMarkerIff(s);
    hide HasLineMarker, IsWhitespace;
  }

  // ----- the parts of a fact -----------------------------------------------------------------------

  predicate ValidDiagnostic(d: RawDiagnostic) {
    && RelativePath(d.path)
    && NonEmpty(d.rule)
    && d.severity.Is?
    && d.message.Is? && d.primarySnippet.Is?
    && d.relatedSnippets.Is? && AllKnown(d.relatedSnippets.value)
    && d.fingerprint.Is? && IsStableFingerprint(d.fingerprint.value)
  }

  predicate SafeInteger(f: Field<int>) { f.Is? && -MAX_SAFE_INTEGER <= f.value <= MAX_SAFE_INTEGER }

  predicate ValidRange(r: Field<RawRange>) {
    && r.Is? && SafeInteger(r.value.startLine) && SafeInteger(r.value.endLine)
    && 0 < r.value.startLine.value <= r.value.endLine.value
  }

  predicate ValidRead(r: RawRead) {
    && r.kind.Is? && RelativePath(r.path) && r.versionKind.Is?
    && NonEmpty(r.version) && NonEmpty(r.returnedHash)
    && (r.queryHash.Absent? || r.queryHash.Is?)
    && r.returnedRanges.Is? && (forall i :: 0 <= i < |r.returnedRanges.value| ==> ValidRange(r.returnedRanges.value[i]))
    && r.complete.Is?
  }

  predicate ValidMutation(m: RawMutation) {
    RelativePath(m.path) && StringOrNull(m.beforeHash) && StringOrNull(m.afterHash)
  }

  predicate ValidProcess(p: RawProcess) {
    && (p.exitCode.Null? || (p.exitCode.Is? && p.exitCode.value >= 0))
    && p.timedOut.Is? && p.logsComplete.Is?
    && OptionalRelativePath(p.stdoutRef) && OptionalRelativePath(p.stderrRef)
  }

  predicate ValidCheckHead(c: RawCheck) {
    && c.profile.Is? && c.conclusion.Is? && c.reportComplete.Is?
    && (c.diagnostics.Null? || c.diagnostics.Is?)
  }

  // A path below the workspace: it is not empty, holds no NUL, does not start at a root or a drive, and none of its
  // segments is empty, `.` or `..`.
  ghost predicate IsPathBelow(f: Field<string>) {
    && f.Is? && f.value != "" && '\0' !in f.value && f.value[0] != '/' && f.value[0] != '\\'
    && !(|f.value| >= 2 && f.value[1] == ':' && ('a' <= f.value[0] <= 'z' || 'A' <= f.value[0] <= 'Z'))
    && forall i: nat, j: nat :: SegmentAt(f.value, i, j) ==> f.value[i..j] != "" && f.value[i..j] != "." && f.value[i..j] != ".."
  }

  // A token: one to 128 characters without separators, blanks or a line marker at the end.
  ghost predicate IsToken(f: Field<string>) {
    && f.Is? && 1 <= |f.value| <= 128 && '/' !in f.value && '\\' !in f.value
    && (forall c :: c in f.value ==> !IsWhitespace(c))
    && !(exists a, d :: Digits(d) && f.value == a + ":" + d)
    && !(exists a, d, e :: Digits(d) && Digits(e) && f.value == a + ":" + d + ":" + e)
  }

  ghost predicate IsLines(f: Field<RawRange>) {
    && f.Is? && f.value.startLine.Is? && f.value.endLine.Is?
    && 1 <= f.value.startLine.value <= f.value.endLine.value <= 9007199254740991
  }

  lemma PathBelowIff(f: Field<string>)
    ensures RelativePath(f) <==> IsPathBelow(f)
  {
    if f.Is? { PathIsAcceptedIff(f.value); }
  }

  // What each part must hold to be accepted.
  lemma PartsAreAcceptedIff(c: RawCheck, d: RawDiagnostic, r: RawRead, m: RawMutation, p: RawProcess)
    ensures ValidCheckHead(c) <==>
      c.profile.Is? && c.conclusion.Is? && c.reportComplete.Is? && (c.diagnostics.Is? || c.diagnostics == Null)
    ensures ValidDiagnostic(d) <==>
      && IsPathBelow(d.path) && d.rule.Is? && d.rule.value != "" && d.severity.Is? && d.message.Is? && d.primarySnippet.Is?
      && d.relatedSnippets.Is? && (forall s :: s in d.relatedSnippets.value ==> s.Is?) && IsToken(d.fingerprint)
    ensures ValidRead(r) <==>
      && r.kind.Is? && IsPathBelow(r.path) && r.versionKind.Is? && r.version.Is? && r.version.value != ""
      && r.returnedHash.Is? && r.returnedHash.value != "" && !r.queryHash.Null? && !r.queryHash.Other?
      && r.returnedRanges.Is? && (forall s :: s in r.returnedRanges.value ==> IsLines(s)) && r.complete.Is?
    ensures ValidMutation(m) <==>
      && IsPathBelow(m.path) && (m.beforeHash.Is? || m.beforeHash.Null?) && (m.afterHash.Is? || m.afterHash.Null?)
    ensures ValidProcess(p) <==>
      && (p.exitCode == Null || (p.exitCode.Is? && p.exitCode.value >= 0)) && p.timedOut.Is? && p.logsComplete.Is?
      && (p.stdoutRef == Absent || IsPathBelow(p.stdoutRef)) && (p.stderrRef == Absent || IsPathBelow(p.stderrRef))
  {
    PathBelowIff(d.path);
    PathBelowIff(r.path);
    PathBelowIff(m.path);
    PathBelowIff(p.stdoutRef);
    PathBelowIff(p.stderrRef);
    if d.fingerprint.Is? { FingerprintIsAcceptedIff(d.fingerprint.value); }
    hide RelativePath, IsPathBelow, IsStableFingerprint, IsWhitespace;
    if r.returnedRanges.Is? { RangesAreLines(r.returnedRanges.value); }
  }

  lemma RangesAreLines(ranges: seq<Field<RawRange>>)
    ensures (forall i :: 0 <= i < |ranges| ==> ValidRange(ranges[i])) <==> forall s :: s in ranges ==> IsLines(s)
  {
    forall s: Field<RawRange> ensures ValidRange(s) <==> IsLines(s) { }
    hide ValidRange, IsLines;
    if forall s :: s in ranges ==> IsLines(s) {
      forall i | 0 <= i < |ranges| ensures ValidRange(ranges[i]) { assert ranges[i] in ranges; }
    }
  }

  function ToProcess(p: RawProcess): ProcessFact
    requires ValidProcess(p)
  {
    ProcessFact(Known(p.exitCode), p.timedOut.value, p.logsComplete.value, Known(p.stdoutRef), Known(p.stderrRef))
  }

  // ----- lists with a capacity ------------------------------------------------------------------------

  datatype Kept<T> = Rejected(index: nat) | Whole(items: seq<T>) | Cut(items: seq<T>)

  predicate Good<T>(item: Field<T>, ok: T -> bool) { item.Is? && ok(item.value) }

  predicate AllGood<T>(items: seq<Field<T>>, n: nat, ok: T -> bool)
    requires n <= |items|
  {
    forall i :: 0 <= i < n ==> Good(items[i], ok)
  }

  // How many items are looked at: one past the capacity is still checked, the others never are.
  function Examined(n: nat, cap: nat): nat { if n <= cap then n else cap + 1 }

  // What keeping at most `cap` checked items must answer.
  ghost predicate KeepsUpTo<T>(items: seq<Field<T>>, cap: nat, ok: T -> bool, r: Kept<T>) {
    var n := Examined(|items|, cap);
    match r
    case Rejected(i) => i < n && AllGood(items, i, ok) && !Good(items[i], ok)
    case Whole(kept) => |items| <= cap && AllGood(items, n, ok) && kept == Values(items)
    case Cut(kept) => |items| > cap && AllGood(items, n, ok) && kept == Values(items[..cap])
  }

  function KeepUpTo<T>(items: seq<Field<T>>, cap: nat, ok: T -> bool, kept: seq<T>): Kept<T>
    requires |kept| <= |items|
    decreases |items| - |kept|
  {
    var i := |kept|;
    if i == |items| then Whole(kept)
    else if !Good(items[i], ok) then Rejected(i)
    else if i < cap then KeepUpTo(items, cap, ok, kept + [items[i].value])
    else Cut(kept)
  }

  lemma {:induction false} KeepUpToKeeps<T>(items: seq<Field<T>>, cap: nat, ok: T -> bool, kept: seq<T>)
    requires |kept| <= |items| && |kept| <= cap
    requires AllGood(items, |kept|, ok) && kept == Values(items[..|kept|])
    ensures KeepsUpTo(items, cap, ok, KeepUpTo(items, cap, ok, kept))
    decreases |items| - |kept|
  {
    var i := |kept|;
    if i == |items| {
      assert items[..i] == items;
    } else if Good(items[i], ok) && i < cap {
      assert kept + [items[i].value] == Values(items[..i + 1]);
      KeepUpToKeeps(items, cap, ok, kept + [items[i].value]);
    }
  }

  method KeepItems<T>(items: seq<Field<T>>, cap: nat, ok: T -> bool) returns (r: Kept<T>)
    ensures r == KeepUpTo(items, cap, ok, [])
    ensures KeepsUpTo(items, cap, ok, r)
  {
    KeepUpToKeeps(items, cap, ok, []);
    var kept := [];
    for index := 0 to |items|
      invariant |kept| == index && KeepUpTo(items, cap, ok, kept) == KeepUpTo(items, cap, ok, [])
    {
      if !(items[index].Is? && ok(items[index].value)) {
        return Rejected(index);
      }
      if index >= cap {
        return Cut(kept);
      }
      kept := kept + [items[index].value];
    }
    return Whole(kept);
  }

  // ----- the envelope -----------------------------------------------------------------------------------

  function KeptOf<T>(items: seq<Field<T>>, cap: nat, ok: T -> bool): (r: Kept<T>)
    ensures KeepsUpTo(items, cap, ok, r)
  {
    KeepUpToKeeps(items, cap, ok, []);
    KeepUpTo(items, cap, ok, [])
  }

  function Diagnostics(f: RawFacts): Option<Kept<RawDiagnostic>> {
    if f.check.Is? && f.check.value.diagnostics.Is? then
      Some(KeptOf(f.check.value.diagnostics.value, MAX_DIAGNOSTICS, ValidDiagnostic))
    else None
  }

  function Reads(f: RawFacts): Option<Kept<RawRead>> {
    if f.readFacts.Is? then Some(KeptOf(f.readFacts.value, MAX_READ_FACTS, ValidRead)) else None
  }

  function Mutations(f: RawFacts): Option<Kept<RawMutation>> {
    if f.mutations.Is? then Some(KeptOf(f.mutations.value, MAX_MUTATION_FACTS, ValidMutation)) else None
  }

  predicate Present<T>(f: Field<T>) { f.Absent? || f.Is? }

  function CheckFailure(f: RawFacts): Option<Issue> {
    if !(f.check.Absent? || (f.check.Is? && ValidCheckHead(f.check.value))) then Some(CheckMalformed)
    else if Diagnostics(f).Some? && Diagnostics(f).value.Rejected? then Some(DiagnosticMalformed(Diagnostics(f).value.index))
    else None
  }

  // The first part that is refused, in the order the parts are looked at.
  function Failure(f: RawFacts): Option<Issue> {
    if !(f.process.Absent? || (f.process.Is? && ValidProcess(f.process.value))) then Some(ProcessMalformed)
    else if CheckFailure(f).Some? then CheckFailure(f)
    else if !Present(f.readFacts) then Some(ReadsNotAnArray)
    else if Reads(f).Some? && Reads(f).value.Rejected? then Some(ReadMalformed(Reads(f).value.index))
    else if !Present(f.mutations) then Some(MutationsNotAnArray)
    else if Mutations(f).Some? && Mutations(f).value.Rejected? then Some(MutationMalformed(Mutations(f).value.index))
    else None
  }

  // An item of reads or mutations that is no object stops the validation without an issue of its own.
  predicate NotAnObject<T>(list: Field<seq<Field<T>>>, index: nat) {
    list.Is? && index < |list.value| && !list.value[index].Is?
  }

  predicate IsSilent(f: RawFacts, issue: Issue) {
    || (issue.ReadMalformed? && NotAnObject(f.readFacts, issue.index))
    || (issue.MutationMalformed? && NotAnObject(f.mutations, issue.index))
  }

  // The issue that a refusal adds.
  function IssueOf(f: RawFacts, issue: Issue): seq<Issue> { if IsSilent(f, issue) then [] else [issue] }

  function CutIssue<T>(kept: Option<Kept<T>>, issue: Issue): seq<Issue> {
    if kept.Some? && kept.value.Cut? then [issue] else []
  }

  // The overflows noted before an issue stops the validation, or all of them.
  function Overflows(f: RawFacts, upTo: Option<Issue>): seq<Issue> {
    match upTo
    case Some(ProcessMalformed) => []
    case Some(CheckMalformed) => []
    case Some(DiagnosticMalformed(_)) => []
    case Some(ReadsNotAnArray) => CutIssue(Diagnostics(f), DiagnosticsExceeded)
    case Some(ReadMalformed(_)) => CutIssue(Diagnostics(f), DiagnosticsExceeded)
    case Some(_) => CutIssue(Diagnostics(f), DiagnosticsExceeded) + CutIssue(Reads(f), ReadsExceeded)
    case None =>
      CutIssue(Diagnostics(f), DiagnosticsExceeded) + CutIssue(Reads(f), ReadsExceeded)
      + CutIssue(Mutations(f), MutationsExceeded)
  }

  function Items<T>(kept: Option<Kept<T>>): Option<seq<T>>
    requires kept.Some? ==> !kept.value.Rejected?
  {
    if kept.Some? then Some(kept.value.items) else None
  }

  predicate NotCut<T>(kept: Option<Kept<T>>) { kept.Some? ==> !kept.value.Cut? }

  predicate LogsComplete(f: RawFacts) { f.process.Is? ==> f.process.value.logsComplete == Is(true) }

  function ToCheck(f: RawFacts): Option<CheckFact>
    requires CheckFailure(f).None?
  {
    if f.check.Is? then
      var c := f.check.value;
      Some(CheckFact(c.profile.value, c.conclusion.value, Items(Diagnostics(f)),
                     c.reportComplete.value && LogsComplete(f) && NotCut(Diagnostics(f))))
    else None
  }

  function ToFacts(f: RawFacts): Facts
    requires Failure(f).None?
  {
    Facts(if f.process.Is? then Some(ToProcess(f.process.value)) else None, ToCheck(f), Items(Reads(f)), Items(Mutations(f)))
  }

  predicate NothingMissing(f: RawFacts) {
    && LogsComplete(f)
    && (f.check.Is? ==> f.check.value.reportComplete == Is(true))
    && NotCut(Diagnostics(f)) && NotCut(Reads(f)) && NotCut(Mutations(f))
  }

  function Invalid(issues: seq<Issue>): Validation {
    Validation(false, None, issues, false, false, false, None, false)
  }

  function Finish(facts: Facts, issues: seq<Issue>, complete: bool): Validation {
    var empty := facts.check.None? && facts.process.None?;
    var reportComplete := complete && !empty;
    var logsComplete := facts.process.Some? ==> facts.process.value.logsComplete;
    var comparable := reportComplete && logsComplete && facts.check.Some?;
    var conclusion := if facts.check.Some? then Some(facts.check.value.conclusion) else None;
    Validation(
      true, Some(facts), if empty then issues + [EmptyEnvelope] else issues, reportComplete, comparable,
      comparable && facts.check.value.profile == BiomeLint && facts.check.value.conclusion != Inconclusive,
      conclusion, comparable && conclusion == Some(Passed))
  }

  function Validate(raw: Field<RawFacts>): Validation {
    if raw.Absent? || raw.Null? then Invalid([FactsAbsent])
    else if raw.Other? then Invalid([FactsNotAnObject])
    else if raw.value.version != Is(FACTS_VERSION) then Invalid([UnsupportedVersion])
    else if Failure(raw.value).Some? then
      Invalid(Overflows(raw.value, Failure(raw.value)) + IssueOf(raw.value, Failure(raw.value).value))
    else Finish(ToFacts(raw.value), Overflows(raw.value, None), NothingMissing(raw.value))
  }

  // The part of the validation that looks at `check`.
  method ValidateCheck(f: RawFacts, logsComplete: bool)
    returns (failure: Option<Issue>, check: Option<CheckFact>, exceeded: bool)
    requires logsComplete == LogsComplete(f)
    ensures failure == CheckFailure(f)
    ensures failure.None? ==> check == ToCheck(f) && exceeded == !NotCut(Diagnostics(f))
  {
    hide KeepsUpTo, KeepUpTo, Values, ValidDiagnostic;
    check, exceeded := None, false;
    if f.check.Absent? { return None, None, false; }
    if !f.check.Is? || !ValidCheckHead(f.check.value) { return Some(CheckMalformed), None, false; }
    var c := f.check.value;
    var diagnostics: Option<seq<RawDiagnostic>> := None;
    if c.diagnostics.Is? {
      var kept := KeepItems(c.diagnostics.value, MAX_DIAGNOSTICS, ValidDiagnostic);
      if kept.Rejected? { return Some(DiagnosticMalformed(kept.index)), None, false; }
      exceeded := kept.Cut?;
      diagnostics := Some(kept.items);
    }
    failure := None;
    check := Some(CheckFact(c.profile.value, c.conclusion.value, diagnostics, c.reportComplete.value && logsComplete && !exceeded));
  }

  // The part that looks at `reads`, and the issues it adds.
  method ValidateReads(f: RawFacts) returns (refused: bool, issues: seq<Issue>, items: Option<seq<RawRead>>)
    ensures refused <==> !Present(f.readFacts) || (Reads(f).Some? && Reads(f).value.Rejected?)
    ensures refused && !Present(f.readFacts) ==> issues == IssueOf(f, ReadsNotAnArray) == [ReadsNotAnArray]
    ensures refused && Present(f.readFacts) ==> issues == IssueOf(f, ReadMalformed(Reads(f).value.index))
    ensures !refused ==> items == Items(Reads(f)) && issues == CutIssue(Reads(f), ReadsExceeded)
  {
    hide KeepUpTo, Values, ValidRead;
    if f.readFacts.Absent? { return false, [], None; }
    if !f.readFacts.Is? { return true, [ReadsNotAnArray], None; }
    var kept := KeepItems(f.readFacts.value, MAX_READ_FACTS, ValidRead);
    if kept.Rejected? {
      if !f.readFacts.value[kept.index].Is? { return true, [], None; }
      return true, [ReadMalformed(kept.index)], None;
    }
    return false, if kept.Cut? then [ReadsExceeded] else [], Some(kept.items);
  }

  method ValidateMutations(f: RawFacts) returns (refused: bool, issues: seq<Issue>, items: Option<seq<RawMutation>>)
    ensures refused <==> !Present(f.mutations) || (Mutations(f).Some? && Mutations(f).value.Rejected?)
    ensures refused && !Present(f.mutations) ==> issues == IssueOf(f, MutationsNotAnArray) == [MutationsNotAnArray]
    ensures refused && Present(f.mutations) ==> issues == IssueOf(f, MutationMalformed(Mutations(f).value.index))
    ensures !refused ==> items == Items(Mutations(f)) && issues == CutIssue(Mutations(f), MutationsExceeded)
  {
    hide KeepUpTo, Values, ValidMutation;
    if f.mutations.Absent? { return false, [], None; }
    if !f.mutations.Is? { return true, [MutationsNotAnArray], None; }
    var kept := KeepItems(f.mutations.value, MAX_MUTATION_FACTS, ValidMutation);
    if kept.Rejected? {
      if !f.mutations.value[kept.index].Is? { return true, [], None; }
      return true, [MutationMalformed(kept.index)], None;
    }
    return false, if kept.Cut? then [MutationsExceeded] else [], Some(kept.items);
  }

  method ValidateToolFacts(raw: Field<RawFacts>) returns (v: Validation)
    ensures v == Validate(raw)
  {
    hide KeepsUpTo, KeepUpTo, Values, ValidRead, ValidMutation, Finish, CheckFailure, ToCheck,
      ToProcess, Diagnostics, OptionalRelativePath, RelativePath, NonEmpty, ValidCheckHead, AllKnown, KeptOf, IsSilent;
    if raw.Absent? || raw.Null? { return Invalid([FactsAbsent]); }
    if raw.Other? { return Invalid([FactsNotAnObject]); }
    var f := raw.value;
    if f.version != Is(FACTS_VERSION) { return Invalid([UnsupportedVersion]); }
    var process: Option<ProcessFact> := None;
    var complete := true;
    if !f.process.Absent? {
      if !f.process.Is? || !ValidProcess(f.process.value) {
        NeverSilent(f, ProcessMalformed);
        return Invalid([ProcessMalformed]);
      }
      process := Some(ToProcess(f.process.value));
      complete := f.process.value.logsComplete.value;
    }
    var failure, check, exceeded := ValidateCheck(f, complete);
    if failure.Some? {
      CheckFailureKind(f);
      NeverSilent(f, failure.value);
      return Invalid([failure.value]);
    }
    var issues: seq<Issue> := if exceeded then [DiagnosticsExceeded] else [];
    complete := complete && !exceeded && (f.check.Is? ==> f.check.value.reportComplete == Is(true));
    var readsRefused, readIssues, readFacts := ValidateReads(f);
    issues := issues + readIssues;
    if readsRefused { return Invalid(issues); }
    var mutationsRefused, mutationIssues, mutations := ValidateMutations(f);
    issues := issues + mutationIssues;
    if mutationsRefused { return Invalid(issues); }
    complete := complete && NotCut(Reads(f)) && NotCut(Mutations(f));
    assert issues == Overflows(f, None);
    assert Facts(process, check, readFacts, mutations) == ToFacts(f);
    v := Finish(Facts(process, check, readFacts, mutations), issues, complete);
  }

  lemma CheckFailureKind(f: RawFacts)
    ensures CheckFailure(f).Some? ==> CheckFailure(f).value.CheckMalformed? || CheckFailure(f).value.DiagnosticMalformed?
  {
  }

  lemma NeverSilent(f: RawFacts, issue: Issue)
    requires !issue.ReadMalformed? && !issue.MutationMalformed?
    ensures IssueOf(f, issue) == [issue]
  {
  }

  // ----- what a validation means ------------------------------------------------------------------------

  // A list of which every item that is looked at is acceptable.
  ghost predicate AcceptableList<T>(items: seq<Field<T>>, cap: nat, ok: T -> bool) {
    AllGood(items, Examined(|items|, cap), ok)
  }

  ghost predicate WithinCap<T>(items: seq<Field<T>>, cap: nat) { |items| <= cap }

  ghost predicate ProcessOk(f: RawFacts) { f.process.Absent? || (f.process.Is? && ValidProcess(f.process.value)) }

  ghost predicate CheckHeadOk(f: RawFacts) { f.check.Absent? || (f.check.Is? && ValidCheckHead(f.check.value)) }

  ghost predicate CheckOk(f: RawFacts) {
    && CheckHeadOk(f)
    && (f.check.Is? && f.check.value.diagnostics.Is? ==>
          AcceptableList(f.check.value.diagnostics.value, MAX_DIAGNOSTICS, ValidDiagnostic))
  }

  ghost predicate ReadsOk(f: RawFacts) {
    f.readFacts.Absent? || (f.readFacts.Is? && AcceptableList(f.readFacts.value, MAX_READ_FACTS, ValidRead))
  }

  ghost predicate MutationsOk(f: RawFacts) {
    f.mutations.Absent? || (f.mutations.Is? && AcceptableList(f.mutations.value, MAX_MUTATION_FACTS, ValidMutation))
  }

  // The facts are recognized: right version and every part that is present is well formed.
  ghost predicate Recognized(raw: Field<RawFacts>) {
    && raw.Is?
    && raw.value.version == Is(FACTS_VERSION)
    && ProcessOk(raw.value) && CheckOk(raw.value) && ReadsOk(raw.value) && MutationsOk(raw.value)
  }

  // A check or a process is reported, nothing is called incomplete and no list is too long.
  ghost predicate WholeReport(f: RawFacts) {
    && (f.check.Is? || f.process.Is?)
    && (f.process.Is? ==> f.process.value.logsComplete == Is(true))
    && (f.check.Is? ==> f.check.value.reportComplete == Is(true))
    && (f.check.Is? && f.check.value.diagnostics.Is? ==> WithinCap(f.check.value.diagnostics.value, MAX_DIAGNOSTICS))
    && (f.readFacts.Is? ==> WithinCap(f.readFacts.value, MAX_READ_FACTS))
    && (f.mutations.Is? ==> WithinCap(f.mutations.value, MAX_MUTATION_FACTS))
  }

  ghost predicate CompleteCheck(f: RawFacts) { f.check.Is? && WholeReport(f) }

  lemma ValidIffRecognized(raw: Field<RawFacts>)
    ensures Validate(raw).valid <==> Recognized(raw)
    ensures var v := Validate(raw);
      !v.valid ==> v.facts.None? && v.conclusion.None? && !v.reportComplete && !v.comparable && !v.reusable && !v.mayClaimPassed
  {
  }

  // The list holds the first items, all of them up to the capacity.
  ghost predicate FirstItems<T>(items: seq<Field<T>>, cap: nat, kept: seq<T>) {
    |kept| == (if |items| <= cap then |items| else cap) && forall i :: 0 <= i < |kept| ==> items[i] == Is(kept[i])
  }

  ghost predicate FirstItemsOf<T>(items: Field<seq<Field<T>>>, cap: nat, kept: Option<seq<T>>) {
    if items.Is? then kept.Some? && FirstItems(items.value, cap, kept.value) else kept.None?
  }

  lemma KeptAreFirst<T>(items: seq<Field<T>>, cap: nat, ok: T -> bool)
    requires !KeptOf(items, cap, ok).Rejected?
    ensures FirstItems(items, cap, KeptOf(items, cap, ok).items)
    ensures KeptOf(items, cap, ok).Cut? <==> |items| > cap
  {
    hide KeepUpTo;
  }

  // The process is the one reported.
  ghost predicate ProcessOf(f: RawFacts, process: Option<ProcessFact>) {
    if f.process.Is? then
      var p := f.process.value;
      process.Some? && process.value.exitCode == Known(p.exitCode)
      && p.timedOut == Is(process.value.timedOut) && p.logsComplete == Is(process.value.logsComplete)
      && process.value.stdoutRef == Known(p.stdoutRef) && process.value.stderrRef == Known(p.stderrRef)
    else process.None?
  }

  // What recognized facts hold is what was reported, but for the items past the capacities.
  lemma FactsAreThoseReported(raw: Field<RawFacts>)
    requires Recognized(raw)
    ensures var v, f := Validate(raw), raw.value;
      && v.valid && v.facts.Some?
      && ProcessOf(f, v.facts.value.process)
      && (v.facts.value.check.Some? <==> f.check.Is?)
      && (f.check.Is? ==>
            var c := v.facts.value.check.value;
            && f.check.value.profile == Is(c.profile) && f.check.value.conclusion == Is(c.conclusion)
            && FirstItemsOf(f.check.value.diagnostics, MAX_DIAGNOSTICS, c.diagnostics))
      && FirstItemsOf(f.readFacts, MAX_READ_FACTS, v.facts.value.readFacts)
      && FirstItemsOf(f.mutations, MAX_MUTATION_FACTS, v.facts.value.mutations)
      && v.conclusion == (if f.check.Is? then Known(f.check.value.conclusion) else None)
  {
    var f := raw.value;
    ValidIffRecognized(raw);
    hide KeepsUpTo, KeepUpTo, ValidDiagnostic, ValidRead, ValidMutation, FirstItems;
    if f.check.Is? && f.check.value.diagnostics.Is? {
      KeptAreFirst(f.check.value.diagnostics.value, MAX_DIAGNOSTICS, ValidDiagnostic);
    }
    if f.readFacts.Is? { KeptAreFirst(f.readFacts.value, MAX_READ_FACTS, ValidRead); }
    if f.mutations.Is? { KeptAreFirst(f.mutations.value, MAX_MUTATION_FACTS, ValidMutation); }
  }

  lemma CompleteIffWhole(raw: Field<RawFacts>)
    requires Recognized(raw)
    ensures Validate(raw).reportComplete <==> WholeReport(raw.value)
    ensures Validate(raw).comparable <==> WholeReport(raw.value) && raw.value.check.Is?
    ensures WholeReport(raw.value) ==> Validate(raw).issues == []
  {
    var f := raw.value;
    ValidIffRecognized(raw);
    hide KeepsUpTo, KeepUpTo, ValidDiagnostic, ValidRead, ValidMutation;
    if f.check.Is? && f.check.value.diagnostics.Is? {
      KeptAreFirst(f.check.value.diagnostics.value, MAX_DIAGNOSTICS, ValidDiagnostic);
    }
    if f.readFacts.Is? { KeptAreFirst(f.readFacts.value, MAX_READ_FACTS, ValidRead); }
    if f.mutations.Is? { KeptAreFirst(f.mutations.value, MAX_MUTATION_FACTS, ValidMutation); }
  }

  // The complaint is so.
  ghost predicate Justified(raw: Field<RawFacts>, issue: Issue) {
    match issue
    case FactsAbsent => raw.Absent? || raw.Null?
    case FactsNotAnObject => raw.Other?
    case UnsupportedVersion => raw.Is? && raw.value.version != Is(FACTS_VERSION)
    case _ => raw.Is? && JustifiedIn(raw.value, issue)
  }

  ghost predicate JustifiedIn(f: RawFacts, issue: Issue) {
    match issue
    case ProcessMalformed => !f.process.Absent? && !(f.process.Is? && ValidProcess(f.process.value))
    case CheckMalformed => !f.check.Absent? && !(f.check.Is? && ValidCheckHead(f.check.value))
    case DiagnosticMalformed(i) =>
      f.check.Is? && f.check.value.diagnostics.Is? && FirstBad(f.check.value.diagnostics.value, MAX_DIAGNOSTICS, ValidDiagnostic, i)
    case DiagnosticsExceeded => f.check.Is? && f.check.value.diagnostics.Is? && |f.check.value.diagnostics.value| > MAX_DIAGNOSTICS
    case ReadsNotAnArray => f.readFacts.Null? || f.readFacts.Other?
    case ReadMalformed(i) => f.readFacts.Is? && FirstBad(f.readFacts.value, MAX_READ_FACTS, ValidRead, i) && f.readFacts.value[i].Is?
    case ReadsExceeded => f.readFacts.Is? && |f.readFacts.value| > MAX_READ_FACTS
    case MutationsNotAnArray => f.mutations.Null? || f.mutations.Other?
    case MutationMalformed(i) =>
      f.mutations.Is? && FirstBad(f.mutations.value, MAX_MUTATION_FACTS, ValidMutation, i) && f.mutations.value[i].Is?
    case MutationsExceeded => f.mutations.Is? && |f.mutations.value| > MAX_MUTATION_FACTS
    case EmptyEnvelope => !f.check.Is? && !f.process.Is?
    case _ => false
  }

  // The first item that is not acceptable, among those looked at.
  ghost predicate FirstBad<T>(items: seq<Field<T>>, cap: nat, ok: T -> bool, i: nat) {
    i < |items| && i <= cap && AllGood(items, i, ok) && !Good(items[i], ok)
  }

  lemma FailureIsJustified(f: RawFacts)
    ensures Failure(f).Some? && !IsSilent(f, Failure(f).value) ==> JustifiedIn(f, Failure(f).value)
  {
    hide KeepUpTo, ValidDiagnostic, ValidRead, ValidMutation, ValidProcess, ValidCheckHead;
  }

  lemma OverflowsAreJustified(f: RawFacts, upTo: Option<Issue>)
    ensures forall i :: 0 <= i < |Overflows(f, upTo)| ==> JustifiedIn(f, Overflows(f, upTo)[i])
  {
    hide KeepUpTo, ValidDiagnostic, ValidRead, ValidMutation, ValidProcess, ValidCheckHead, AllGood, Good, FirstBad;
  }

  // Every issue that is collected is justified.
  lemma IssuesAreJustified(raw: Field<RawFacts>)
    ensures forall i :: 0 <= i < |Validate(raw).issues| ==> Justified(raw, Validate(raw).issues[i])
  {
    if raw.Is? {
      FailureIsJustified(raw.value);
      OverflowsAreJustified(raw.value, Failure(raw.value));
      hide Failure, Overflows, IsSilent, NothingMissing, LogsComplete, JustifiedIn, ToFacts;
      if Failure(raw.value).None? { EmptyIsJustified(raw.value); }
    }
  }

  lemma EmptyIsJustified(f: RawFacts)
    requires Failure(f).None?
    ensures ToFacts(f).check.None? && ToFacts(f).process.None? ==> JustifiedIn(f, EmptyEnvelope)
  {
    hide KeepUpTo;
  }

  // The parts that are looked at before this issue can arise are in order.
  ghost predicate IsReached(f: RawFacts, issue: Issue) {
    match issue
    case CheckMalformed => ProcessOk(f)
    case DiagnosticMalformed(_) => ProcessOk(f) && CheckHeadOk(f)
    case DiagnosticsExceeded | ReadsNotAnArray | ReadMalformed(_) => ProcessOk(f) && CheckOk(f)
    case ReadsExceeded | MutationsNotAnArray | MutationMalformed(_) => ProcessOk(f) && CheckOk(f) && ReadsOk(f)
    case MutationsExceeded | EmptyEnvelope => ProcessOk(f) && CheckOk(f) && ReadsOk(f) && MutationsOk(f)
    case _ => true
  }

  lemma CheckFailureIs(f: RawFacts)
    ensures CheckFailure(f).None? <==> CheckOk(f)
    ensures CheckFailure(f) == Some(CheckMalformed) <==> !CheckHeadOk(f)
    ensures CheckFailure(f).Some? && CheckHeadOk(f) ==>
      && CheckFailure(f).value.DiagnosticMalformed?
      && f.check.Is? && f.check.value.diagnostics.Is?
      && FirstBad(f.check.value.diagnostics.value, MAX_DIAGNOSTICS, ValidDiagnostic, CheckFailure(f).value.index)
  {
    hide KeepUpTo, ValidDiagnostic, ValidCheckHead;
  }

  lemma ListFailureIs<T>(items: seq<Field<T>>, cap: nat, ok: T -> bool)
    ensures var r := KeptOf(items, cap, ok);
      if AcceptableList(items, cap, ok) then !r.Rejected? && (r.Cut? <==> |items| > cap) && forall i :: !FirstBad(items, cap, ok, i)
      else r.Rejected? && forall i :: FirstBad(items, cap, ok, i) <==> i == r.index
  {
    hide KeepUpTo, Good;
  }

  // The issue of a list that is cut.
  lemma CutIssueIs<T>(items: Field<seq<Field<T>>>, cap: nat, ok: T -> bool, kept: Option<Kept<T>>, issue: Issue)
    requires kept == if items.Is? then Some(KeptOf(items.value, cap, ok)) else None
    requires items.Is? ==> AcceptableList(items.value, cap, ok)
    ensures CutIssue(kept, issue) == if items.Is? && |items.value| > cap then [issue] else []
  {
    hide KeptOf, AcceptableList;
    if items.Is? { ListFailureIs(items.value, cap, ok); }
  }

  function DiagnosticsOf(f: RawFacts): Field<seq<Field<RawDiagnostic>>> {
    if f.check.Is? then f.check.value.diagnostics else Absent
  }

  ghost predicate NamedIff(f: RawFacts, issue: Issue) { issue in Validate(Is(f)).issues <==> JustifiedIn(f, issue) && IsReached(f, issue) }

  lemma NamedForProcess(f: RawFacts, issue: Issue)
    requires f.version == Is(FACTS_VERSION) && (!ProcessOk(f) || !CheckOk(f))
    ensures NamedIff(f, issue)
  {
    CheckFailureIs(f);
    hide KeptOf, AcceptableList, ValidDiagnostic, ValidRead, ValidMutation, ValidProcess, ValidCheckHead, CheckFailure, CheckOk;
    if ProcessOk(f) && CheckHeadOk(f) {
      var items := f.check.value.diagnostics.value;
      assert Failure(f) == CheckFailure(f) && Validate(Is(f)).issues == [CheckFailure(f).value];
      forall i | FirstBad(items, MAX_DIAGNOSTICS, ValidDiagnostic, i) ensures i == CheckFailure(f).value.index {
        OneFirstBad(items, MAX_DIAGNOSTICS, ValidDiagnostic, i, CheckFailure(f).value.index);
      }
    } else if ProcessOk(f) {
      assert Failure(f) == CheckFailure(f) && Validate(Is(f)).issues == [CheckMalformed];
    } else {
      assert Failure(f) == Some(ProcessMalformed) && Validate(Is(f)).issues == [ProcessMalformed];
    }
  }

  lemma OneFirstBad<T>(items: seq<Field<T>>, cap: nat, ok: T -> bool, i: nat, j: nat)
    requires FirstBad(items, cap, ok, i) && FirstBad(items, cap, ok, j)
    ensures i == j
  {
    hide Good;
  }

  function IfSo(so: bool, issue: Issue): seq<Issue> { if so then [issue] else [] }

  function Longer<T>(items: Field<seq<Field<T>>>, cap: nat): bool { items.Is? && |items.value| > cap }

  lemma AmongThree(issue: Issue, a: bool, p: Issue, b: bool, q: Issue, rest: seq<Issue>)
    ensures issue in IfSo(a, p) + IfSo(b, q) + rest <==> (a && issue == p) || (b && issue == q) || issue in rest
  {
  }

  // The issues up to the reads.
  lemma ReadsRefuse(f: RawFacts)
    requires f.version == Is(FACTS_VERSION) && ProcessOk(f) && CheckOk(f) && !ReadsOk(f)
    ensures var failure := if f.readFacts.Is? then ReadMalformed(Reads(f).value.index) else ReadsNotAnArray;
      Validate(Is(f)).issues == IfSo(Longer(DiagnosticsOf(f), MAX_DIAGNOSTICS), DiagnosticsExceeded) + [] + IssueOf(f, failure)
  {
    CheckFailureIs(f);
    CutIssueIs(DiagnosticsOf(f), MAX_DIAGNOSTICS, ValidDiagnostic, Diagnostics(f), DiagnosticsExceeded);
    if f.readFacts.Is? { ListFailureIs(f.readFacts.value, MAX_READ_FACTS, ValidRead); }
    hide KeptOf, AcceptableList, FirstBad, ValidDiagnostic, ValidRead, ValidMutation, ValidProcess, ValidCheckHead, CheckFailure, CutIssue,
      IssueOf;
    var failure := if f.readFacts.Is? then ReadMalformed(Reads(f).value.index) else ReadsNotAnArray;
    assert Failure(f) == Some(failure);
  }

  lemma ReadsJustify(f: RawFacts, issue: Issue)
    requires ProcessOk(f) && CheckOk(f) && !ReadsOk(f)
    ensures var failure := if f.readFacts.Is? then ReadMalformed(Reads(f).value.index) else ReadsNotAnArray;
      JustifiedIn(f, issue) && IsReached(f, issue) <==>
        (issue == DiagnosticsExceeded && Longer(DiagnosticsOf(f), MAX_DIAGNOSTICS)) || issue in IssueOf(f, failure)
  {
    if f.readFacts.Is? { ListFailureIs(f.readFacts.value, MAX_READ_FACTS, ValidRead); }
    hide KeptOf, AcceptableList, FirstBad, ValidDiagnostic, ValidRead, ValidMutation, ValidProcess, ValidCheckHead, CheckOk,
      ProcessOk, CheckHeadOk, MutationsOk;
  }

  lemma NamedForReads(f: RawFacts, issue: Issue)
    requires f.version == Is(FACTS_VERSION) && ProcessOk(f) && CheckOk(f) && !ReadsOk(f)
    ensures NamedIff(f, issue)
  {
    ReadsRefuse(f);
    ReadsJustify(f, issue);
    var failure := if f.readFacts.Is? then ReadMalformed(Reads(f).value.index) else ReadsNotAnArray;
    hide Validate, JustifiedIn, IsReached, DiagnosticsOf, Longer, ProcessOk, CheckOk, ReadsOk, Reads, IssueOf;
    AmongThree(issue, Longer(DiagnosticsOf(f), MAX_DIAGNOSTICS), DiagnosticsExceeded, false, issue, IssueOf(f, failure));
  }

  lemma MutationsRefuse(f: RawFacts)
    requires f.version == Is(FACTS_VERSION) && ProcessOk(f) && CheckOk(f) && ReadsOk(f) && !MutationsOk(f)
    ensures var failure := if f.mutations.Is? then MutationMalformed(Mutations(f).value.index) else MutationsNotAnArray;
      Validate(Is(f)).issues ==
        IfSo(Longer(DiagnosticsOf(f), MAX_DIAGNOSTICS), DiagnosticsExceeded) + IfSo(Longer(f.readFacts, MAX_READ_FACTS), ReadsExceeded)
        + IssueOf(f, failure)
  {
    CheckFailureIs(f);
    CutIssueIs(DiagnosticsOf(f), MAX_DIAGNOSTICS, ValidDiagnostic, Diagnostics(f), DiagnosticsExceeded);
    CutIssueIs(f.readFacts, MAX_READ_FACTS, ValidRead, Reads(f), ReadsExceeded);
    if f.readFacts.Is? { ListFailureIs(f.readFacts.value, MAX_READ_FACTS, ValidRead); }
    if f.mutations.Is? { ListFailureIs(f.mutations.value, MAX_MUTATION_FACTS, ValidMutation); }
    hide KeptOf, AcceptableList, FirstBad, ValidDiagnostic, ValidRead, ValidMutation, ValidProcess, ValidCheckHead, CheckFailure, CutIssue,
      IssueOf;
    var failure := if f.mutations.Is? then MutationMalformed(Mutations(f).value.index) else MutationsNotAnArray;
    assert Failure(f) == Some(failure);
  }

  lemma MutationsJustify(f: RawFacts, issue: Issue)
    requires ProcessOk(f) && CheckOk(f) && ReadsOk(f) && !MutationsOk(f)
    ensures var failure := if f.mutations.Is? then MutationMalformed(Mutations(f).value.index) else MutationsNotAnArray;
      JustifiedIn(f, issue) && IsReached(f, issue) <==>
        || (issue == DiagnosticsExceeded && Longer(DiagnosticsOf(f), MAX_DIAGNOSTICS))
        || (issue == ReadsExceeded && Longer(f.readFacts, MAX_READ_FACTS))
        || issue in IssueOf(f, failure)
  {
    NothingRefused(f);
    if f.mutations.Is? { ListFailureIs(f.mutations.value, MAX_MUTATION_FACTS, ValidMutation); }
    hide KeptOf, AcceptableList, FirstBad, ValidDiagnostic, ValidRead, ValidMutation, ValidProcess, ValidCheckHead, CheckOk,
      ProcessOk, CheckHeadOk, ReadsOk;
  }

  lemma NamedForMutations(f: RawFacts, issue: Issue)
    requires f.version == Is(FACTS_VERSION) && ProcessOk(f) && CheckOk(f) && ReadsOk(f) && !MutationsOk(f)
    ensures NamedIff(f, issue)
  {
    MutationsRefuse(f);
    MutationsJustify(f, issue);
    var failure := if f.mutations.Is? then MutationMalformed(Mutations(f).value.index) else MutationsNotAnArray;
    hide Validate, JustifiedIn, IsReached, DiagnosticsOf, Longer, ProcessOk, CheckOk, ReadsOk, MutationsOk, Mutations, IssueOf;
    AmongThree(issue, Longer(DiagnosticsOf(f), MAX_DIAGNOSTICS), DiagnosticsExceeded, Longer(f.readFacts, MAX_READ_FACTS), ReadsExceeded,
      IssueOf(f, failure));
  }

  // The parts that are in order give no issue but for their length.
  lemma NothingRefused(f: RawFacts)
    requires ReadsOk(f)
    ensures !JustifiedIn(f, ReadsNotAnArray) && forall i :: !JustifiedIn(f, ReadMalformed(i))
  {
    NoFirstBad(f.readFacts, MAX_READ_FACTS, ValidRead);
    hide FirstBad, AcceptableList;
  }

  lemma NothingAccepted(f: RawFacts)
    requires f.version == Is(FACTS_VERSION) && ProcessOk(f) && CheckOk(f) && ReadsOk(f) && MutationsOk(f)
    ensures Failure(f).None?
    ensures Overflows(f, None) == IfSo(Longer(DiagnosticsOf(f), MAX_DIAGNOSTICS), DiagnosticsExceeded)
      + IfSo(Longer(f.readFacts, MAX_READ_FACTS), ReadsExceeded) + IfSo(Longer(f.mutations, MAX_MUTATION_FACTS), MutationsExceeded)
  {
    CheckFailureIs(f);
    CutIssueIs(DiagnosticsOf(f), MAX_DIAGNOSTICS, ValidDiagnostic, Diagnostics(f), DiagnosticsExceeded);
    CutIssueIs(f.readFacts, MAX_READ_FACTS, ValidRead, Reads(f), ReadsExceeded);
    CutIssueIs(f.mutations, MAX_MUTATION_FACTS, ValidMutation, Mutations(f), MutationsExceeded);
    NoFirstBad(f.readFacts, MAX_READ_FACTS, ValidRead);
    NoFirstBad(f.mutations, MAX_MUTATION_FACTS, ValidMutation);
    hide KeptOf, AcceptableList, FirstBad, ValidDiagnostic, ValidRead, ValidMutation, ValidProcess, ValidCheckHead, CheckFailure, CutIssue;
  }

  lemma EmptyIsNoted(f: RawFacts)
    requires f.version == Is(FACTS_VERSION) && Failure(f).None?
    ensures Validate(Is(f)).issues == Overflows(f, None) + IfSo(!f.check.Is? && !f.process.Is?, EmptyEnvelope)
  {
    hide Failure, Overflows, NothingMissing, LogsComplete;
  }

  predicate IsOverflow(f: RawFacts, issue: Issue) {
    || (issue == DiagnosticsExceeded && Longer(DiagnosticsOf(f), MAX_DIAGNOSTICS))
    || (issue == ReadsExceeded && Longer(f.readFacts, MAX_READ_FACTS))
    || (issue == MutationsExceeded && Longer(f.mutations, MAX_MUTATION_FACTS))
    || (issue == EmptyEnvelope && !f.check.Is? && !f.process.Is?)
  }

  lemma OverflowsAreNoted(f: RawFacts, issue: Issue)
    requires f.version == Is(FACTS_VERSION) && ProcessOk(f) && CheckOk(f) && ReadsOk(f) && MutationsOk(f)
    ensures issue in Validate(Is(f)).issues <==> IsOverflow(f, issue)
  {
    NothingAccepted(f);
    EmptyIsNoted(f);
    var cut := IfSo(Longer(f.mutations, MAX_MUTATION_FACTS), MutationsExceeded);
    hide Validate, ProcessOk, CheckOk, ReadsOk, MutationsOk, Overflows, Failure, DiagnosticsOf, Longer;
    AmongThree(issue, Longer(DiagnosticsOf(f), MAX_DIAGNOSTICS), DiagnosticsExceeded, Longer(f.readFacts, MAX_READ_FACTS), ReadsExceeded, cut);
  }

  lemma OnlyOverflowsAreJustified(f: RawFacts, issue: Issue)
    requires ProcessOk(f) && CheckOk(f) && ReadsOk(f) && MutationsOk(f)
    ensures JustifiedIn(f, issue) <==> IsOverflow(f, issue)
  {
    NothingRefused(f);
    NoFirstBad(DiagnosticsOf(f), MAX_DIAGNOSTICS, ValidDiagnostic);
    NoFirstBad(f.mutations, MAX_MUTATION_FACTS, ValidMutation);
    hide KeptOf, AcceptableList, FirstBad, ValidDiagnostic, ValidRead, ValidMutation, ValidProcess, ValidCheckHead, ReadsOk;
  }

  lemma NamedForCuts(f: RawFacts, issue: Issue)
    requires f.version == Is(FACTS_VERSION) && ProcessOk(f) && CheckOk(f) && ReadsOk(f) && MutationsOk(f)
    ensures NamedIff(f, issue)
  {
    OverflowsAreNoted(f, issue);
    OnlyOverflowsAreJustified(f, issue);
    assert IsReached(f, issue);
    hide Validate, JustifiedIn, IsOverflow;
  }

  lemma NoFirstBad<T>(items: Field<seq<Field<T>>>, cap: nat, ok: T -> bool)
    requires items.Is? ==> AcceptableList(items.value, cap, ok)
    ensures items.Is? ==> !KeptOf(items.value, cap, ok).Rejected? && forall i: nat :: !FirstBad(items.value, cap, ok, i)
  {
    if items.Is? { ListFailureIs(items.value, cap, ok); }
  }

  // An issue is named exactly when it is justified and what is looked at before it is in order.
  lemma IssuesAreThoseReached(f: RawFacts, issue: Issue)
    requires f.version == Is(FACTS_VERSION)
    ensures issue in Validate(Is(f)).issues <==> JustifiedIn(f, issue) && IsReached(f, issue)
  {
    if !ProcessOk(f) || !CheckOk(f) {
      NamedForProcess(f, issue);
    } else if !ReadsOk(f) {
      NamedForReads(f, issue);
    } else if !MutationsOk(f) {
      NamedForMutations(f, issue);
    } else {
      NamedForCuts(f, issue);
    }
    hide JustifiedIn, IsReached, Validate;
  }

  // A conclusion may be reused exactly when a lint passed or failed in a complete report.
  lemma ReusableIffCompleteLint(raw: Field<RawFacts>)
    ensures Validate(raw).reusable <==>
      && Recognized(raw) && CompleteCheck(raw.value)
      && raw.value.check.value.profile == Is(BiomeLint)
      && raw.value.check.value.conclusion in [Is(Passed), Is(Failed)]
    ensures Validate(raw).mayClaimPassed <==>
      Recognized(raw) && CompleteCheck(raw.value) && raw.value.check.value.conclusion == Is(Passed)
    ensures Validate(raw).reusable ==> Validate(raw).reportComplete
  {
    ValidIffRecognized(raw);
  }

  // At most three issues are ever collected, so the cap of eight never cuts the list.
  lemma AtMostThreeIssues(raw: Field<RawFacts>)
    ensures |Validate(raw).issues| <= 3
  {
    hide ValidProcess, ValidCheckHead, KeepsUpTo, KeepUpTo, Finish;
    if raw.Is? && Failure(raw.value).None? { FinishIssues(raw.value); }
  }

  lemma FinishIssues(f: RawFacts)
    requires Failure(f).None?
    ensures |Finish(ToFacts(f), Overflows(f, None), NothingMissing(f)).issues| <= 3
  {
    hide KeepsUpTo, KeepUpTo;
  }

  const DIAGNOSTIC := RawDiagnostic(Is("a"), Is("r"), Is(Info), Is(""), Is(""), Is([]), Is("f"))
  const READ := RawRead(Is(File), Is("a"), Is(Content), Is("v"), Absent, Is([]), Is("h"), Is(true), Absent)

  lemma WellFormedItems()
    ensures ValidDiagnostic(DIAGNOSTIC) && ValidRead(READ)
  {
    assert Segments("a")[0] == "a" && |Segments("a")| == 1 by { assert "a"[1..] == ""; }
    assert IsWorkspaceRelativePath("a");
    assert !HasLineMarker("f");
  }

  // Three are reached: by one diagnostic and one read too many, and mutations that are no list.
  lemma ThreeIssuesReached(diagnostics: seq<Field<RawDiagnostic>>, items: seq<Field<RawRead>>)
    requires |diagnostics| == MAX_DIAGNOSTICS + 1 && forall i :: 0 <= i < |diagnostics| ==> diagnostics[i] == Is(DIAGNOSTIC)
    requires |items| == MAX_READ_FACTS + 1 && forall i :: 0 <= i < |items| ==> items[i] == Is(READ)
    ensures Validate(Is(RawFacts(
      Is(FACTS_VERSION), Absent, Is(RawCheck(Is(BiomeLint), Is(Passed), Is(diagnostics), Is(true))), Is(items), Other))).issues
      == [DiagnosticsExceeded, ReadsExceeded, MutationsNotAnArray]
  {
    WellFormedItems();
    hide ValidDiagnostic, ValidRead, KeepUpTo;
    CutWhenTooMany(diagnostics, MAX_DIAGNOSTICS, ValidDiagnostic);
    CutWhenTooMany(items, MAX_READ_FACTS, ValidRead);
  }

  lemma CutWhenTooMany<T>(items: seq<Field<T>>, cap: nat, ok: T -> bool)
    requires |items| == cap + 1 && AllGood(items, |items|, ok)
    ensures KeptOf(items, cap, ok).Cut?
  {
    hide KeepUpTo;
  }

  // Invalid facts name no issue exactly when the first thing at fault is an item of reads or mutations that
  // is no object, and no list before it was cut.
  lemma NamelessIffNotAnObject(raw: Field<RawFacts>)
    ensures !Validate(raw).valid && Validate(raw).issues == [] <==>
      && raw.Is? && raw.value.version == Is(FACTS_VERSION)
      && Failure(raw.value).Some? && IsSilent(raw.value, Failure(raw.value).value)
      && Overflows(raw.value, Failure(raw.value)) == []
  {
    hide Failure, Overflows, IsSilent;
  }

  // The smallest such input: one item that is no object, and nothing else.
  lemma NullItemIsNameless()
    ensures Validate(Is(RawFacts(Is(FACTS_VERSION), Absent, Absent, Is([Null]), Absent))) == Invalid([])
    ensures Validate(Is(RawFacts(Is(FACTS_VERSION), Absent, Absent, Absent, Is([Null])))) == Invalid([])
  {
    hide ValidRead, ValidMutation;
  }
}
