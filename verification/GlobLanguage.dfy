/** What a glob says, feature by feature, in terms of the texts it matches; and which error a pattern gets. */
module GlobLanguage {
  import opened GlobPattern

  // ---------------------------------------------------------------------------------------
  // Errors
  // ---------------------------------------------------------------------------------------

  /** A brace is opened at `k` and no brace closes it before another one is opened. */
  ghost predicate Bad(p: string, k: nat) {
    k < |p| && p[k] == '{' && forall j :: k < j < |p| && p[j] == '}' ==> exists m :: k < m < j && p[m] == '{'
  }

  lemma BadIffNotGood(p: string, k: nat)
    requires k < |p| && p[k] == '{'
    ensures Bad(p, k) <==> !GoodGroup(p, k)
  {
    var c := Close(p, k);
    if !GoodGroup(p, k) {
      forall j | k < j < |p| && p[j] == '}' ensures exists m :: k < m < j && p[m] == '{' {
        var m :| k < m < c && p[m] == '{';
        assert m < j;
      }
    }
  }

  lemma NoneSkipped(p: string, k: nat, j: nat)
    requires k < |p| && !Bad(p, k) && k < j < NextStep(p, k)
    ensures !Bad(p, j)
  {
    if p[k] == '{' { BadIffNotGood(p, k); }
  }

  /** The braces that `s` opens, less those it closes. */
  function Depth(s: string): int {
    if s == "" then 0 else (if s[0] == '{' then 1 else if s[0] == '}' then -1 else 0) + Depth(s[1..])
  }

  lemma DepthCons(p: string, j: nat, m: nat)
    requires j < m <= |p|
    ensures Depth(p[j..m]) == (if p[j] == '{' then 1 else if p[j] == '}' then -1 else 0) + Depth(p[j + 1..m])
  {
    assert p[j..m][1..] == p[j + 1..m];
  }

  /** All braces are closed first where the depth falls to zero. */
  lemma {:induction false} ClosesAtZero(p: string, j: nat, depth: nat)
    requires j <= |p| && depth > 0
    ensures var r := MatchingClose(p, j, depth);
            && (forall m :: j <= m <= r ==> depth + Depth(p[j..m]) > 0)
            && (r < |p| ==> depth + Depth(p[j..r + 1]) == 0)
    decreases |p| - j
  {
    var r := MatchingClose(p, j, depth);
    assert p[j..j] == "";
    if j < |p| {
      var d := depth + if p[j] == '{' then 1 else if p[j] == '}' then -1 else 0;
      forall m | j < m <= |p| ensures depth + Depth(p[j..m]) == d + Depth(p[j + 1..m]) { DepthCons(p, j, m); }
      if d > 0 {
        ClosesAtZero(p, j + 1, d);
      } else {
        assert p[j + 1..j + 1] == "";
      }
    }
  }

  /** All braces that are opened from `k` on stay open at some depth to the end. */
  ghost predicate NeverCloses(p: string, k: nat)
    requires k <= |p|
  {
    forall m :: k < m <= |p| ==> Depth(p[k..m]) > 0
  }

  lemma UnterminatedIff(p: string, k: nat)
    requires k < |p| && p[k] == '{'
    ensures MatchingClose(p, k + 1, 1) == |p| <==> NeverCloses(p, k)
  {
    var r := MatchingClose(p, k + 1, 1);
    ClosesAtZero(p, k + 1, 1);
    forall m | k < m <= |p| ensures Depth(p[k..m]) == 1 + Depth(p[k + 1..m]) { DepthCons(p, k, m); }
    if r < |p| {
      assert Depth(p[k..r + 1]) == 0;
    } else {
      forall m | k < m <= |p| ensures Depth(p[k..m]) > 0 { assert Depth(p[k..m]) == 1 + Depth(p[k + 1..m]); }
    }
  }

  /** From `k` on, the first bad brace decides. */
  ghost predicate DecidesFrom(p: string, k: nat, first: nat) {
    k <= first && Bad(p, first) && forall j: nat :: k <= j < first ==> !Bad(p, j)
  }

  lemma {:induction false} ErrorFrom(p: string, k: nat)
    requires k <= |p|
    ensures WellBraced(p, k, false) <==> forall j: nat :: k <= j ==> !Bad(p, j)
    ensures !WellBraced(p, k, false) ==>
              exists first: nat :: DecidesFrom(p, k, first)
                && BraceError(p, k) == (if NeverCloses(p, first) then Unterminated else Nested)
    decreases |p| - k
  {
    if k < |p| {
      WellBracedStep(p, k);
      if p[k] == '{' { BadIffNotGood(p, k); }
      if Bad(p, k) {
        UnterminatedIff(p, k);
        assert DecidesFrom(p, k, k);
      } else {
        var next := NextStep(p, k);
        forall j: nat | k <= j < next ensures !Bad(p, j) { if j > k { NoneSkipped(p, k, j); } }
        ErrorFrom(p, next);
        if !WellBraced(p, next, false) {
          var first: nat :| DecidesFrom(p, next, first)
            && BraceError(p, next) == (if NeverCloses(p, first) then Unterminated else Nested);
          assert DecidesFrom(p, k, first);
        }
      }
    }
  }

  /** A pattern compiles exactly when every brace opened is closed before another one is opened. Otherwise the first
      brace of which this is not so is called unterminated when the braces never balance from there on, and nested
      when they do. */
  lemma CompilesOrSaysWhy(pattern: string)
    ensures var p := Normalize(pattern);
            && (Compile(pattern).Compiled? <==> forall k: nat :: !Bad(p, k))
            && (!Compile(pattern).Compiled? ==>
                  exists first: nat :: DecidesFrom(p, 0, first)
                    && Compile(pattern) == (if NeverCloses(p, first) then Unterminated else Nested))
  {
    var p := Normalize(pattern);
    ErrorFrom(p, 0);
  }

  /** A pattern and a path lose one leading `./`, if they have it, and have slashes for their backslashes. */
  lemma NormalFormIs(s: string)
    ensures var from := if |s| >= 2 && s[0] == '.' && (s[1] == '/' || s[1] == '\\') then 2 else 0;
            && |Normalize(s)| == |s| - from
            && forall i :: from <= i < |s| ==> Normalize(s)[i - from] == if s[i] == '\\' then '/' else s[i]
  {
    var t := Slashes(s);
    assert "./" <= t <==> |t| >= 2 && t[0] == '.' && t[1] == '/';
  }

  // ---------------------------------------------------------------------------------------
  // Features
  // ---------------------------------------------------------------------------------------

  predicate Plain(s: string) {
    forall m :: 0 <= m < |s| ==> s[m] !in "*?{"
  }

  lemma {:induction false} PlainFrom(p: string, k: nat, n: nat, s: string, i: nat)
    requires k <= n <= |p| && i <= |s| && Plain(p[k..n])
    ensures GlobMatch(p, k, s, i) <==>
              i + (n - k) <= |s| && s[i..i + (n - k)] == p[k..n] && GlobMatch(p, n, s, i + (n - k))
    decreases n - k
  {
    if k < n {
      assert p[k..n][0] == p[k] && p[k + 1..n] == p[k..n][1..];
      if i < |s| {
        PlainFrom(p, k + 1, n, s, i + 1);
        if i + (n - k) <= |s| {
          assert s[i..i + (n - k)] == [s[i]] + s[i + 1..i + (n - k)] && p[k..n] == [p[k]] + p[k + 1..n];
        }
      }
    } else {
      assert s[i..i] == p[k..k];
    }
  }

  /** The text before a feature is compared as it stands, and so is the text behind it. */
  lemma Framed(a: string, mid: string, b: string, s: string)
    requires Plain(a) && Plain(b)
    ensures var p := a + mid + b;
            && (GlobMatch(p, 0, s, 0) <==> a <= s && GlobMatch(p, |a|, s, |a|))
            && forall i: nat :: i <= |s| ==> (GlobMatch(p, |a| + |mid|, s, i) <==> s[i..] == b)
  {
    hide GlobMatch, Plain;
    Assoc(a, mid, b);
    BehindIsLiteral(a + mid, b, s);
    BeforeIsLiteral(a, mid + b, s);
  }

  lemma BeforeIsLiteral(a: string, rest: string, s: string)
    requires Plain(a)
    ensures GlobMatch(a + rest, 0, s, 0) <==> a <= s && GlobMatch(a + rest, |a|, s, |a|)
  {
    var p := a + rest;
    assert p[0..|a|] == a;
    PlainFrom(p, 0, |a|, s, 0);
    hide GlobMatch;
    if |a| <= |s| { assert s[0..0 + (|a| - 0)] == s[..|a|]; }
  }

  lemma BehindIsLiteral(front: string, b: string, s: string)
    requires Plain(b)
    ensures forall i: nat :: i <= |s| ==> (GlobMatch(front + b, |front|, s, i) <==> s[i..] == b)
  {
    var p := front + b;
    assert p[|front|..] == b;
    forall m | |front| <= m < |p| ensures p[m] !in "*?{" { assert p[m] == b[m - |front|]; }
    hide GlobMatch;
    forall i: nat | i <= |s| ensures GlobMatch(p, |front|, s, i) <==> s[i..] == b {
      OrdinaryCharactersAreLiteral(p, |front|, s, i);
    }
  }

  lemma Cut(a: string, b: string, s: string, i: nat)
    requires |a| <= i <= |s| && a <= s && s[i..] == b
    ensures s == a + s[|a|..i] + b
  {
  }

  lemma Parts(a: string, m: string, b: string, s: string)
    requires s == a + m + b
    ensures |a| + |m| <= |s| && a <= s && s[|a|..|a| + |m|] == m && s[|a| + |m|..] == b
  {
  }

  /** `*` stands for any characters of one segment. */
  lemma StarMatches(a: string, b: string, s: string)
    requires Plain(a) && Plain(b)
    ensures GlobMatch(a + "*" + b, 0, s, 0) <==> exists m: string :: s == a + m + b && '/' !in m
  {
    var p := a + "*" + b;
    Framed(a, "*", b, s);
    assert p[|a|] == '*' && (b != "" ==> p[|a| + 1] == b[0]);
    hide GlobMatch;
    if GlobMatch(p, 0, s, 0) {
      var i: nat := StarEnds(p, |a|, s, |a|);
      Cut(a, b, s, i);
    }
    if m: string :| s == a + m + b && '/' !in m {
      Parts(a, m, b, s);
      StarFits(p, |a|, s, |a|, |a| + |m|);
    }
  }

  lemma StarEnds(p: string, k: nat, s: string, i: nat) returns (m: nat)
    requires k < |p| && i <= |s| && p[k] == '*' && !DeepAt(p, k) && GlobMatch(p, k, s, i)
    ensures i <= m <= |s| && '/' !in s[i..m] && GlobMatch(p, k + 1, s, m)
  {
    m :| i <= m <= |s| && NoSlash(s, i, m) && GlobMatch(p, k + 1, s, m);
  }

  lemma StarFits(p: string, k: nat, s: string, i: nat, m: nat)
    requires k < |p| && i <= m <= |s| && p[k] == '*' && !DeepAt(p, k)
    requires '/' !in s[i..m] && GlobMatch(p, k + 1, s, m)
    ensures GlobMatch(p, k, s, i)
  {
    forall j | i <= j < m ensures s[j] != '/' { assert s[j] == s[i..m][j - i]; }
    assert NoSlash(s, i, m);
  }

  /** `?` stands for one character of a segment. */
  lemma QuestionMatches(a: string, b: string, s: string)
    requires Plain(a) && Plain(b)
    ensures GlobMatch(a + "?" + b, 0, s, 0) <==> exists c: char :: s == a + [c] + b && c != '/'
  {
    var p := a + "?" + b;
    Framed(a, "?", b, s);
    assert p[|a|] == '?';
    if GlobMatch(p, 0, s, 0) {
      Cut(a, b, s, |a| + 1);
      assert s[|a|..|a| + 1] == [s[|a|]];
    }
    if c: char :| s == a + [c] + b && c != '/' {
      Parts(a, [c], b, s);
      assert s[|a|] == c;
    }
  }

  predicate InOneLine(m: string) {
    forall j :: 0 <= j < |m| ==> m[j] !in "\n\r\U{2028}\U{2029}"
  }

  /** `**` that no slash follows stands for any characters of one line, slashes included. */
  lemma DeepMatches(a: string, b: string, s: string)
    requires Plain(a) && Plain(b) && (b != "" ==> b[0] != '/')
    ensures GlobMatch(a + "**" + b, 0, s, 0) <==>
              exists m: string :: s == a + m + b && InOneLine(m)
  {
    var p := a + "**" + b;
    Framed(a, "**", b, s);
    assert p[|a|] == p[|a| + 1] == '*' && (b != "" ==> p[|a| + 2] == b[0]);
    hide GlobMatch, InOneLine, Plain;
    if GlobMatch(p, 0, s, 0) {
      var i: nat := DeepEnds(p, |a|, s, |a|);
      Cut(a, b, s, i);
    }
    if m: string :| s == a + m + b && InOneLine(m) {
      Parts(a, m, b, s);
      DeepFits(p, |a|, s, |a|, |a| + |m|);
    }
  }

  lemma DeepEnds(p: string, k: nat, s: string, i: nat) returns (m: nat)
    requires k < |p| && i <= |s| && DeepAt(p, k) && !DeepDirAt(p, k) && GlobMatch(p, k, s, i)
    ensures i <= m <= |s| && GlobMatch(p, k + 2, s, m)
    ensures InOneLine(s[i..m])
  {
    m :| i <= m <= |s| && OneLine(s, i, m) && GlobMatch(p, k + 2, s, m);
    assert forall j :: 0 <= j < m - i ==> s[i..m][j] == s[i + j];
  }

  lemma DeepFits(p: string, k: nat, s: string, i: nat, m: nat)
    requires k < |p| && i <= m <= |s| && DeepAt(p, k) && !DeepDirAt(p, k) && GlobMatch(p, k + 2, s, m)
    requires InOneLine(s[i..m])
    ensures GlobMatch(p, k, s, i)
  {
    forall j | i <= j < m ensures !LineTerminator(s[j]) { assert s[j] == s[i..m][j - i]; }
    assert OneLine(s, i, m);
  }

  /** Each segment with its slash. */
  function Path(segments: seq<string>): string {
    if segments == [] then "" else segments[0] + "/" + Path(segments[1..])
  }

  ghost predicate AreSegments(segments: seq<string>) {
    forall j :: 0 <= j < |segments| ==> segments[j] != "" && '/' !in segments[j]
  }

  lemma {:induction false} DirsToSegments(s: string, i: nat, j: nat) returns (segments: seq<string>)
    requires i <= j <= |s| && Dirs(s, i, j)
    ensures AreSegments(segments) && s[i..j] == Path(segments)
    decreases j - i
  {
    if i == j { return []; }
    var e: nat :| i < e < j && NoSlash(s, i, e) && s[e] == '/' && Dirs(s, e + 1, j);
    var rest := DirsToSegments(s, e + 1, j);
    segments := [s[i..e]] + rest;
    assert segments[1..] == rest && s[i..j] == s[i..e] + "/" + s[e + 1..j];
  }

  lemma {:induction false} SegmentsToDirs(s: string, i: nat, j: nat, segments: seq<string>)
    requires i <= j <= |s| && AreSegments(segments) && s[i..j] == Path(segments)
    ensures Dirs(s, i, j)
    decreases |segments|
  {
    if segments != [] {
      var first, rest := segments[0], Path(segments[1..]);
      var e := i + |first|;
      assert s[i..j] == first + "/" + rest;
      Parts(first, "/", rest, s[i..j]);
      assert s[i..e] == first && s[e] == s[i..j][|first|] == '/' && s[e + 1..j] == rest;
      forall k | i <= k < e ensures s[k] != '/' { assert s[k] == first[k - i]; }
      SegmentsToDirs(s, e + 1, j, segments[1..]);
      assert NoSlash(s, i, e);
    }
  }

  /** With a slash behind it, `**` stands for any number of whole segments, each with its slash. */
  lemma DeepDirMatches(a: string, b: string, s: string)
    requires Plain(a) && Plain(b)
    ensures GlobMatch(a + "**/" + b, 0, s, 0) <==>
              exists segments: seq<string> :: s == a + Path(segments) + b && AreSegments(segments)
  {
    var p := a + "**/" + b;
    Framed(a, "**/", b, s);
    assert p[|a|] == p[|a| + 1] == '*' && p[|a| + 2] == '/';
    if GlobMatch(p, 0, s, 0) {
      var i: nat :| |a| <= i <= |s| && Dirs(s, |a|, i) && GlobMatch(p, |a| + 3, s, i);
      Cut(a, b, s, i);
      var segments := DirsToSegments(s, |a|, i);
    }
    if segments: seq<string> :| s == a + Path(segments) + b && AreSegments(segments) {
      Parts(a, Path(segments), b, s);
      SegmentsToDirs(s, |a|, |a| + |Path(segments)|, segments);
    }
  }

  /** The alternatives with commas between them. */
  function Listed(alternatives: seq<string>): string
    requires alternatives != []
  {
    if |alternatives| == 1 then alternatives[0] else alternatives[0] + "," + Listed(alternatives[1..])
  }

  ghost predicate ArePlain(alternatives: seq<string>) {
    forall j :: 0 <= j < |alternatives| ==>
      Plain(alternatives[j]) && ',' !in alternatives[j] && '}' !in alternatives[j]
  }

  lemma {:induction false} PlainPart(p: string, a: nat, e: nat, s: string, i: nat, j: nat)
    requires a <= e <= |p| && i <= j <= |s| && Plain(p[a..e])
    ensures PartMatch(p, a, e, s, i, j) <==> s[i..j] == p[a..e]
    decreases e - a
  {
    if a < e {
      assert p[a..e][0] == p[a] && p[a + 1..e] == p[a..e][1..];
      if i < j {
        PlainPart(p, a + 1, e, s, i + 1, j);
        assert s[i..j] == [s[i]] + s[i + 1..j] && p[a..e] == [p[a]] + p[a + 1..e];
      }
    }
  }

  lemma CommaAt(p: string, a: nat, e: nat, first: string)
    requires a + |first| <= e <= |p| && p[a..a + |first|] == first && ',' !in first
    requires a + |first| < e ==> p[a + |first|] == ','
    ensures Next(p, ',', a, e) == a + |first|
  {
    forall m | a <= m < a + |first| ensures p[m] != ',' { assert p[m] == first[m - a]; }
  }

  lemma {:induction false} PartsOfList(p: string, a: nat, e: nat, alternatives: seq<string>, s: string, i: nat, j: nat)
    requires a <= e <= |p| && i <= j <= |s|
    requires alternatives != [] && ArePlain(alternatives) && p[a..e] == Listed(alternatives)
    ensures AnyPartMatch(p, a, e, s, i, j) <==> s[i..j] in alternatives
    decreases |alternatives|
  {
    var first := alternatives[0];
    if |alternatives| == 1 {
      CommaAt(p, a, e, first);
      PlainPart(p, a, e, s, i, j);
    } else {
      var rest := alternatives[1..];
      var c := a + |first|;
      FirstOfList(p, a, e, first, Listed(rest));
      CommaAt(p, a, e, first);
      PlainPart(p, a, c, s, i, j);
      PartsOfList(p, c + 1, e, rest, s, i, j);
      hide PartMatch, Plain, Listed;
      assert alternatives == [first] + rest;
    }
  }

  lemma FirstOfList(p: string, a: nat, e: nat, first: string, rest: string)
    requires a <= e <= |p| && p[a..e] == first + "," + rest
    ensures a + |first| < e && p[a..a + |first|] == first && p[a + |first|] == ',' && p[a + |first| + 1..e] == rest
  {
    Parts(first, ",", rest, p[a..e]);
    assert p[a + |first|] == p[a..e][|first|];
  }

  lemma {:induction false} NoneClosesInList(alternatives: seq<string>)
    requires alternatives != [] && ArePlain(alternatives)
    ensures '}' !in Listed(alternatives)
    decreases |alternatives|
  {
    if |alternatives| > 1 { NoneClosesInList(alternatives[1..]); }
  }

  lemma ClosesBehindList(p: string, a: string, list: string, b: string)
    requires p == a + ("{" + list + "}") + b && '}' !in list
    ensures p[|a|] == '{' && Close(p, |a|) == |a| + 1 + |list| && p[|a| + 1..|a| + 1 + |list|] == list
  {
    assert p[|a| + 1..|a| + 1 + |list|] == list && p[|a| + 1 + |list|] == '}';
    forall m | |a| < m < |a| + 1 + |list| ensures p[m] != '}' { assert p[m] == list[m - |a| - 1]; }
  }

  /** A brace group stands for any one of its alternatives. */
  lemma GroupMatches(a: string, alternatives: seq<string>, b: string, s: string)
    requires Plain(a) && Plain(b) && alternatives != [] && ArePlain(alternatives)
    ensures GlobMatch(a + ("{" + Listed(alternatives) + "}") + b, 0, s, 0) <==>
              exists m :: m in alternatives && s == a + m + b
  {
    var list := Listed(alternatives);
    var p := a + ("{" + list + "}") + b;
    Framed(a, "{" + list + "}", b, s);
    NoneClosesInList(alternatives);
    ClosesBehindList(p, a, list, b);
    var close := Close(p, |a|);
    forall i: nat | |a| <= i <= |s| ensures GroupMatch(p, |a|, s, |a|, i) <==> s[|a|..i] in alternatives {
      PartsOfList(p, |a| + 1, close, alternatives, s, |a|, i);
    }
    hide GroupMatch;
    if GlobMatch(p, 0, s, 0) {
      var i: nat :| |a| <= i <= |s| && GroupMatch(p, |a|, s, |a|, i) && GlobMatch(p, close + 1, s, i);
      Cut(a, b, s, i);
    }
    if m :| m in alternatives && s == a + m + b {
      Parts(a, m, b, s);
      assert GroupMatch(p, |a|, s, |a|, |a| + |m|) && GlobMatch(p, close + 1, s, |a| + |m|);
    }
  }
}
