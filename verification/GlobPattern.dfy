/** Globs compiled to regular expressions.

    The compiler turns a glob into regex source text.  To say that the text means what the glob
    means, this module gives each side its own meaning: `GlobMatch` reads the glob directly, while
    `Parse` reads the emitted text back with the ECMAScript grammar (for the fragment that occurs)
    and `Matches` gives the resulting expression its language. */
module GlobPattern {

  // ---------------------------------------------------------------------------------------
  // Regular expressions: syntax, language and parser
  // ---------------------------------------------------------------------------------------

  datatype Re =
    | Empty
    | Begin
    | End
    | Lit(c: char)
    | Dot
    | NotSlash
    | Cat(first: Re, second: Re)
    | Alt(left: Re, right: Re)
    | Star(body: Re)
    | Plus(body: Re)

  /** The characters `.` does not match. */
  predicate LineTerminator(c: char) {
    c == '\n' || c == '\r' || c == '\U{2028}' || c == '\U{2029}'
  }

  /** `re` matches the part of `s` from `i` to `j`. */
  ghost predicate Matches(re: Re, s: string, i: nat, j: nat)
    requires i <= j <= |s|
    decreases re, j - i
  {
    match re
    case Empty => i == j
    case Begin => i == j == 0
    case End => i == j == |s|
    case Lit(c) => j == i + 1 && s[i] == c
    case Dot => j == i + 1 && !LineTerminator(s[i])
    case NotSlash => j == i + 1 && s[i] != '/'
    case Cat(a, b) => exists m: nat :: i <= m <= j && Matches(a, s, i, m) && Matches(b, s, m, j)
    case Alt(a, b) => Matches(a, s, i, j) || Matches(b, s, i, j)
    case Star(a) => i == j || exists m: nat :: i < m <= j && Matches(a, s, i, m) && Matches(re, s, m, j)
    case Plus(a) => Matches(a, s, i, j) || exists m: nat :: i < m <= j && Matches(a, s, i, m) && Matches(re, s, m, j)
  }

  /** `RegExp.prototype.test`: the expression matches some part of the subject. */
  ghost predicate Test(re: Re, s: string) {
    exists i: nat, j: nat :: i <= j <= |s| && Matches(re, s, i, j)
  }

  datatype Parsed = Reject | Parsed(re: Re, rest: string)

  /** The characters that an identity escape may name. */
  predicate SyntaxChar(c: char) {
    c in "^$\\.*+?()[]{}|/"
  }

  predicate Quantifier(c: char) {
    c in "*+?{"
  }

  predicate NoQuantifier(s: string) {
    s == "" || !Quantifier(s[0])
  }

  /** Disjunction :: Alternative | Alternative `|` Disjunction */
  function ParseAlt(s: string): (r: Parsed)
    ensures r.Parsed? ==> |r.rest| <= |s|
    decreases |s|, 3
  {
    var a := ParseSeq(s);
    if a.Reject? then Reject
    else if a.rest != "" && a.rest[0] == '|' then
      var b := ParseAlt(a.rest[1..]);
      if b.Reject? then Reject else Parsed(Alt(a.re, b.re), b.rest)
    else a
  }

  /** Alternative :: empty | Term Alternative */
  function ParseSeq(s: string): (r: Parsed)
    ensures r.Parsed? ==> |r.rest| <= |s|
    decreases |s|, 2
  {
    if s == "" || s[0] == '|' || s[0] == ')' then Parsed(Empty, s)
    else
      var t := ParseTerm(s);
      if t.Reject? then Reject
      else
        var r := ParseSeq(t.rest);
        if r.Reject? then Reject else Parsed(Cat(t.re, r.re), r.rest)
  }

  /** Term :: Atom | Atom `*` | Atom `+`.  Other quantifiers and lazy ones do not occur. */
  function ParseTerm(s: string): (r: Parsed)
    requires s != ""
    ensures r.Parsed? ==> |r.rest| < |s|
    decreases |s|, 1
  {
    var a := ParseAtom(s);
    if a.Reject? || NoQuantifier(a.rest) then a
    else if !NoQuantifier(a.rest[1..]) then Reject
    else if a.rest[0] == '*' then Parsed(Star(a.re), a.rest[1..])
    else if a.rest[0] == '+' then Parsed(Plus(a.re), a.rest[1..])
    else Reject
  }

  function ParseAtom(s: string): (r: Parsed)
    requires s != ""
    ensures r.Parsed? ==> |r.rest| < |s|
    decreases |s|, 0
  {
    match s[0]
    case '^' => Parsed(Begin, s[1..])
    case '$' => Parsed(End, s[1..])
    case '.' => Parsed(Dot, s[1..])
    case '\\' => if 2 <= |s| && SyntaxChar(s[1]) then Parsed(Lit(s[1]), s[2..]) else Reject
    case '[' => if 4 <= |s| && s[..4] == "[^/]" then Parsed(NotSlash, s[4..]) else Reject
    case '(' =>
      if 3 <= |s| && s[..3] == "(?:" then
        var d := ParseAlt(s[3..]);
        if d.Parsed? && d.rest != "" && d.rest[0] == ')' then Parsed(d.re, d.rest[1..]) else Reject
      else Reject
    case ')' => Reject
    case '|' => Reject
    case '*' => Reject
    case '+' => Reject
    case '?' => Reject
    case '{' => Reject
    case c => Parsed(Lit(c), s[1..])
  }

  /** The expression a pattern text stands for, if it lies in the fragment. */
  function Parse(s: string): Parsed {
    var d := ParseAlt(s);
    if d.Parsed? && d.rest == "" then d else Reject
  }

  // ---------------------------------------------------------------------------------------
  // Globs: direct meaning
  // ---------------------------------------------------------------------------------------

  ghost predicate NoSlash(s: string, i: nat, j: nat) {
    i <= j <= |s| && forall k :: i <= k < j ==> s[k] != '/'
  }

  ghost predicate OneLine(s: string, i: nat, j: nat) {
    i <= j <= |s| && forall k :: i <= k < j ==> !LineTerminator(s[k])
  }

  /** `s` from `i` to `j` is a run of complete directory segments, each nonempty and ended by `/`. */
  ghost predicate Dirs(s: string, i: nat, j: nat)
    requires i <= j <= |s|
    decreases j - i
  {
    i == j || exists e: nat :: i < e < j && NoSlash(s, i, e) && s[e] == '/' && Dirs(s, e + 1, j)
  }

  /** The index of the first `c` in `p` from `k` on, up to `end`. */
  function Next(p: string, c: char, k: nat, end: nat): (r: nat)
    requires k <= end <= |p|
    ensures k <= r <= end
    ensures r < end ==> p[r] == c
    ensures forall m :: k <= m < r ==> p[m] != c
    decreases end - k
  {
    if k == end || p[k] == c then k else Next(p, c, k + 1, end)
  }

  /** The index of the brace that closes a group opened at `k`, or |p|. */
  function Close(p: string, k: nat): (r: nat)
    requires k < |p|
    ensures k < r <= |p| && (r < |p| ==> p[r] == '}')
    ensures forall m :: k < m < r ==> p[m] != '}'
  {
    Next(p, '}', k + 1, |p|)
  }

  /** The part of `p` from `a` to `e`, one alternative of a brace group, matches `s` from `i` to `j`. */
  ghost predicate PartMatch(p: string, a: nat, e: nat, s: string, i: nat, j: nat)
    requires a <= e <= |p| && i <= j <= |s|
    decreases e - a
  {
    if a == e then i == j
    else if p[a] == '*' then exists m: nat :: i <= m <= j && NoSlash(s, i, m) && PartMatch(p, a + 1, e, s, m, j)
    else i < j && (if p[a] == '?' then s[i] != '/' else s[i] == p[a]) && PartMatch(p, a + 1, e, s, i + 1, j)
  }

  /** Some comma-separated alternative of `p` from `a` to `e` matches `s` from `i` to `j`. */
  ghost predicate AnyPartMatch(p: string, a: nat, e: nat, s: string, i: nat, j: nat)
    requires a <= e <= |p| && i <= j <= |s|
    decreases e - a
  {
    var c := Next(p, ',', a, e);
    PartMatch(p, a, c, s, i, j) || (c < e && AnyPartMatch(p, c + 1, e, s, i, j))
  }

  /** The brace group opened at `k` is closed and one of its alternatives matches. */
  ghost predicate GroupMatch(p: string, k: nat, s: string, i: nat, j: nat)
    requires k < |p| && i <= j <= |s|
  {
    Close(p, k) < |p| && AnyPartMatch(p, k + 1, Close(p, k), s, i, j)
  }

  /** The rest of the glob `p` from `k` on matches the rest of `s` from `i` on. */
  ghost predicate GlobMatch(p: string, k: nat, s: string, i: nat)
    requires k <= |p| && i <= |s|
    decreases |p| - k
  {
    if k == |p| then i == |s|
    else if DeepDirAt(p, k) then exists m: nat :: i <= m <= |s| && Dirs(s, i, m) && GlobMatch(p, k + 3, s, m)
    else if DeepAt(p, k) then exists m: nat :: i <= m <= |s| && OneLine(s, i, m) && GlobMatch(p, k + 2, s, m)
    else if p[k] == '*' then exists m: nat :: i <= m <= |s| && NoSlash(s, i, m) && GlobMatch(p, k + 1, s, m)
    else if p[k] == '?' then i < |s| && s[i] != '/' && GlobMatch(p, k + 1, s, i + 1)
    else if p[k] == '{' then
      exists m: nat :: i <= m <= |s| && GroupMatch(p, k, s, i, m) && GlobMatch(p, Close(p, k) + 1, s, m)
    else i < |s| && s[i] == p[k] && GlobMatch(p, k + 1, s, i + 1)
  }

  predicate DeepAt(p: string, k: nat) {
    k + 1 < |p| && p[k] == '*' && p[k + 1] == '*'
  }

  predicate DeepDirAt(p: string, k: nat) {
    DeepAt(p, k) && k + 2 < |p| && p[k + 2] == '/'
  }

  /** Every brace group that is opened is closed before another one is opened. */
  predicate WellBraced(p: string, k: nat, inside: bool)
    requires k <= |p|
    decreases |p| - k
  {
    if k == |p| then !inside
    else if p[k] == '{' then !inside && WellBraced(p, k + 1, true)
    else if p[k] == '}' then WellBraced(p, k + 1, false)
    else WellBraced(p, k + 1, inside)
  }

  // ---------------------------------------------------------------------------------------
  // The compiler as a function
  // ---------------------------------------------------------------------------------------

  /** The characters the compiler escapes. */
  predicate Special(c: char) {
    c in ".+^$()|[]\\"
  }

  function LitSource(c: char): string {
    if Special(c) then ['\\', c] else [c]
  }

  function PartCharSource(c: char): string {
    if c == '*' then "[^/]*" else if c == '?' then "[^/]" else LitSource(c)
  }

  /** The source of one alternative followed by `tail`. */
  function PartSource(p: string, a: nat, e: nat, tail: string): string
    requires a <= e <= |p|
    decreases e - a
  {
    if a == e then tail else PartCharSource(p[a]) + PartSource(p, a + 1, e, tail)
  }

  /** The sources of all alternatives, joined by `|` and followed by `tail`. */
  function AltsSource(p: string, a: nat, e: nat, tail: string): string
    requires a <= e <= |p|
    decreases e - a
  {
    var c := Next(p, ',', a, e);
    PartSource(p, a, c, if c < e then "|" + AltsSource(p, c + 1, e, tail) else tail)
  }

  /** The source of the glob from `k` on followed by `tail`. */
  function Source(p: string, k: nat, tail: string): string
    requires k <= |p|
    decreases |p| - k
  {
    if k == |p| then tail
    else if DeepDirAt(p, k) then "(?:[^/]+/)*" + Source(p, k + 3, tail)
    else if DeepAt(p, k) then ".*" + Source(p, k + 2, tail)
    else if p[k] == '*' then "[^/]*" + Source(p, k + 1, tail)
    else if p[k] == '?' then "[^/]" + Source(p, k + 1, tail)
    else if p[k] == '{' then
      var close := Close(p, k);
      if close == |p| then tail
      else "(?:" + AltsSource(p, k + 1, close, ")" + Source(p, close + 1, tail))
    else LitSource(p[k]) + Source(p, k + 1, tail)
  }

  // ---------------------------------------------------------------------------------------
  // The expression that is read back
  // ---------------------------------------------------------------------------------------

  function PartCharRe(c: char): Re {
    if c == '*' then Star(NotSlash) else if c == '?' then NotSlash else Lit(c)
  }

  function PartRe(p: string, a: nat, e: nat): Re
    requires a <= e <= |p|
    decreases e - a
  {
    if a == e then Empty else Cat(PartCharRe(p[a]), PartRe(p, a + 1, e))
  }

  function AltsRe(p: string, a: nat, e: nat): Re
    requires a <= e <= |p|
    decreases e - a
  {
    var c := Next(p, ',', a, e);
    if c < e then Alt(PartRe(p, a, c), AltsRe(p, c + 1, e)) else PartRe(p, a, c)
  }

  /** One directory segment and its slash. */
  const DIR := Cat(Plus(NotSlash), Cat(Lit('/'), Empty))

  const DIRS := Star(DIR)

  function GlobRe(p: string, k: nat, tail: Re): Re
    requires k <= |p|
    decreases |p| - k
  {
    if k == |p| then tail
    else if DeepDirAt(p, k) then Cat(DIRS, GlobRe(p, k + 3, tail))
    else if DeepAt(p, k) then Cat(Star(Dot), GlobRe(p, k + 2, tail))
    else if p[k] == '*' then Cat(Star(NotSlash), GlobRe(p, k + 1, tail))
    else if p[k] == '?' then Cat(NotSlash, GlobRe(p, k + 1, tail))
    else if p[k] == '{' then
      var close := Close(p, k);
      if close == |p| then tail
      else Cat(AltsRe(p, k + 1, close), GlobRe(p, close + 1, tail))
    else Cat(Lit(p[k]), GlobRe(p, k + 1, tail))
  }

  // ---------------------------------------------------------------------------------------
  // Reading the emitted text back
  // ---------------------------------------------------------------------------------------

  lemma ParseLit(c: char, rest: string)
    requires c != '*' && c != '?' && c != '{' && NoQuantifier(rest)
    ensures ParseTerm(LitSource(c) + rest) == Parsed(Lit(c), rest)
  {
    var s := LitSource(c) + rest;
    if Special(c) {
      assert s[0] == '\\' && s[1] == c && s[2..] == rest;
    } else {
      assert s[0] == c && s[1..] == rest;
    }
  }

  lemma ParseNotSlash(rest: string)
    ensures ParseAtom("[^/]" + rest) == Parsed(NotSlash, rest)
  {
    var s := "[^/]" + rest;
    assert s[..4] == "[^/]" && s[4..] == rest && s[0] == '[';
  }

  lemma ParseNotSlashOnce(rest: string)
    requires NoQuantifier(rest)
    ensures ParseTerm("[^/]" + rest) == Parsed(NotSlash, rest)
  {
    ParseNotSlash(rest);
  }

  lemma ParseNotSlashStar(rest: string)
    requires NoQuantifier(rest)
    ensures ParseTerm("[^/]*" + rest) == Parsed(Star(NotSlash), rest)
  {
    var tail := "*" + rest;
    assert "[^/]*" + rest == "[^/]" + tail;
    ParseNotSlash(tail);
    assert tail[0] == '*' && tail[1..] == rest;
  }

  lemma ParseDotStar(rest: string)
    requires NoQuantifier(rest)
    ensures ParseTerm(".*" + rest) == Parsed(Star(Dot), rest)
  {
    var s := ".*" + rest;
    assert s[0] == '.' && s[1..] == "*" + rest;
    assert ("*" + rest)[1..] == rest;
  }

  lemma ParseGroup(body: string, inner: Parsed, rest: string)
    requires ParseAlt(body) == inner && inner.Parsed? && inner.rest == ")" + rest
    ensures ParseAtom("(?:" + body) == Parsed(inner.re, rest)
  {
    var s := "(?:" + body;
    assert s[0] == '(' && s[..3] == "(?:" && s[3..] == body;
    assert (")" + rest)[0] == ')' && (")" + rest)[1..] == rest;
  }

  lemma ParseDirsBody(rest: string)
    ensures ParseAlt("[^/]+/)" + rest) == Parsed(Cat(Plus(NotSlash), Cat(Lit('/'), Empty)), ")" + rest)
  {
    var tail := ")" + rest;
    var slash := "/" + tail;
    var plus := "+" + slash;
    assert "[^/]+/)" + rest == "[^/]" + plus;
    ParseNotSlash(plus);
    assert plus[0] == '+' && plus[1..] == slash;
    assert ParseTerm("[^/]" + plus) == Parsed(Plus(NotSlash), slash);
    assert LitSource('/') + tail == slash;
    ParseLit('/', tail);
    assert ParseSeq(tail) == Parsed(Empty, tail);
    assert ParseSeq(slash) == Parsed(Cat(Lit('/'), Empty), tail);
  }

  lemma ParseDirs(rest: string)
    requires NoQuantifier(rest)
    ensures ParseTerm("(?:[^/]+/)*" + rest) == Parsed(DIRS, rest)
  {
    var tail := "*" + rest;
    ParseDirsBody(tail);
    var body := "[^/]+/)" + tail;
    ParseGroup(body, ParseAlt(body), tail);
    assert "(?:[^/]+/)*" + rest == "(?:" + body;
    assert tail[0] == '*' && tail[1..] == rest;
  }

  lemma ParsePartChar(c: char, rest: string)
    requires c != '{' && NoQuantifier(rest)
    ensures ParseTerm(PartCharSource(c) + rest) == Parsed(PartCharRe(c), rest)
  {
    if c == '*' {
      ParseNotSlashStar(rest);
    } else if c == '?' {
      ParseNotSlashOnce(rest);
    } else {
      ParseLit(c, rest);
    }
  }

  /** A text that starts a new term: the parser neither stops nor repeats the previous term here. */
  predicate StartsTerm(s: string) {
    s != "" && s[0] != '|' && s[0] != ')' && !Quantifier(s[0])
  }

  lemma PartCharStarts(c: char, rest: string)
    requires c != '{'
    ensures StartsTerm(PartCharSource(c) + rest)
  {
    assert (PartCharSource(c) + rest)[0] == PartCharSource(c)[0];
  }

  lemma ParseStep(s: string, t: Parsed, r: Parsed)
    requires StartsTerm(s) && ParseTerm(s) == t && t.Parsed? && ParseSeq(t.rest) == r && r.Parsed?
    ensures ParseSeq(s) == Parsed(Cat(t.re, r.re), r.rest)
  {
  }

  predicate BraceFree(p: string, a: nat, e: nat) {
    a <= e <= |p| && forall k :: a <= k < e ==> p[k] != '{'
  }

  lemma {:induction false} ParsePart(p: string, a: nat, e: nat, tail: string)
    requires BraceFree(p, a, e) && tail != "" && (tail[0] == '|' || tail[0] == ')')
    ensures NoQuantifier(PartSource(p, a, e, tail))
    ensures ParseSeq(PartSource(p, a, e, tail)) == Parsed(PartRe(p, a, e), tail)
    decreases e - a
  {
    hide ParseTerm, PartCharSource;
    if a < e {
      var rest := PartSource(p, a + 1, e, tail);
      ParsePart(p, a + 1, e, tail);
      ParsePartChar(p[a], rest);
      PartCharStarts(p[a], rest);
      ParseStep(PartCharSource(p[a]) + rest, Parsed(PartCharRe(p[a]), rest), Parsed(PartRe(p, a + 1, e), tail));
    }
  }

  lemma {:induction false} ParseAlts(p: string, a: nat, e: nat, tail: string)
    requires BraceFree(p, a, e) && tail != "" && tail[0] == ')'
    ensures ParseAlt(AltsSource(p, a, e, tail)) == Parsed(AltsRe(p, a, e), tail)
    decreases e - a
  {
    hide ParseSeq, PartSource;
    var c := Next(p, ',', a, e);
    if c < e {
      var rest := AltsSource(p, c + 1, e, tail);
      ParseAlts(p, c + 1, e, tail);
      assert ("|" + rest)[0] == '|' && ("|" + rest)[1..] == rest;
      ParsePart(p, a, c, "|" + rest);
    } else {
      ParsePart(p, a, c, tail);
    }
  }

  /** Inside a group, being well braced means: the next brace closes the group. */
  lemma {:induction false} WellBracedInside(p: string, k: nat)
    requires k <= |p|
    ensures var c := Next(p, '}', k, |p|);
            WellBraced(p, k, true) <==> c < |p| && BraceFree(p, k, c) && WellBraced(p, c + 1, false)
    decreases |p| - k
  {
    if k < |p| && p[k] != '}' {
      WellBracedInside(p, k + 1);
      var c := Next(p, '}', k + 1, |p|);
      assert BraceFree(p, k, c) <==> p[k] != '{' && BraceFree(p, k + 1, c);
    }
  }

  lemma SourceStarts(p: string, k: nat, tail: string)
    requires k < |p| && WellBraced(p, k, false)
    ensures StartsTerm(Source(p, k, tail))
  {
    if p[k] == '{' {
      WellBracedInside(p, k + 1);
    }
  }

  lemma SourceNoQuantifier(p: string, k: nat, tail: string)
    requires k <= |p| && WellBraced(p, k, false) && NoQuantifier(tail)
    ensures NoQuantifier(Source(p, k, tail))
  {
    if k < |p| {
      SourceStarts(p, k, tail);
    }
  }

  lemma ParseBraceGroup(p: string, k: nat, close: nat, rest: string)
    requires k < |p| && p[k] == '{' && close == Close(p, k) < |p| && BraceFree(p, k + 1, close)
    requires NoQuantifier(rest)
    ensures ParseTerm("(?:" + AltsSource(p, k + 1, close, ")" + rest)) == Parsed(AltsRe(p, k + 1, close), rest)
  {
    hide ParseAlt, AltsSource, AltsRe;
    var body := AltsSource(p, k + 1, close, ")" + rest);
    ParseAlts(p, k + 1, close, ")" + rest);
    ParseGroup(body, Parsed(AltsRe(p, k + 1, close), ")" + rest), rest);
  }

  /** One step of the glob: the piece emitted for it is read back as one term. */
  lemma ParseGlobStep(p: string, k: nat, tail: string, next: nat, re: Re)
    requires k < |p| && WellBraced(p, k, false) && next == NextStep(p, k) <= |p| && re == StepRe(p, k)
    requires NoQuantifier(Source(p, next, tail))
    ensures ParseTerm(Source(p, k, tail)) == Parsed(re, Source(p, next, tail))
  {
    hide ParseTerm;
    var rest := Source(p, next, tail);
    if DeepDirAt(p, k) {
      ParseDirs(rest);
    } else if DeepAt(p, k) {
      ParseDotStar(rest);
    } else if p[k] == '*' {
      ParseNotSlashStar(rest);
    } else if p[k] == '?' {
      ParseNotSlashOnce(rest);
    } else if p[k] == '{' {
      WellBracedInside(p, k + 1);
      ParseBraceGroup(p, k, Close(p, k), rest);
    } else {
      ParseLit(p[k], rest);
    }
  }

  /** Where the compiler continues after the step it takes at `k`. */
  function NextStep(p: string, k: nat): (n: nat)
    requires k < |p|
    ensures k < n <= |p| || (n == |p| + 1 && p[k] == '{' && Close(p, k) == |p|)
  {
    if DeepDirAt(p, k) then k + 3
    else if DeepAt(p, k) then k + 2
    else if p[k] == '{' then Close(p, k) + 1
    else k + 1
  }

  function StepRe(p: string, k: nat): Re
    requires k < |p|
  {
    if DeepDirAt(p, k) then DIRS
    else if DeepAt(p, k) then Star(Dot)
    else if p[k] == '*' then Star(NotSlash)
    else if p[k] == '?' then NotSlash
    else if p[k] == '{' then AltsRe(p, k + 1, Close(p, k))
    else Lit(p[k])
  }

  lemma WellBracedStep(p: string, k: nat)
    requires k < |p|
    ensures WellBraced(p, k, false) <==>
            (p[k] == '{' ==> Close(p, k) < |p| && BraceFree(p, k + 1, Close(p, k)))
            && NextStep(p, k) <= |p| && WellBraced(p, NextStep(p, k), false)
  {
    if p[k] == '{' {
      WellBracedInside(p, k + 1);
    } else if DeepAt(p, k) {
      assert WellBraced(p, k, false) == WellBraced(p, k + 1, false) == WellBraced(p, k + 2, false);
      assert DeepDirAt(p, k) ==> WellBraced(p, k + 2, false) == WellBraced(p, k + 3, false);
    }
  }

  lemma {:induction false} ParseGlob(p: string, k: nat, tail: string, end: Parsed)
    requires k <= |p| && WellBraced(p, k, false)
    requires NoQuantifier(tail) && ParseSeq(tail) == end && end.Parsed?
    ensures ParseSeq(Source(p, k, tail)) == Parsed(GlobRe(p, k, end.re), end.rest)
    decreases |p| - k
  {
    if k < |p| {
      var next := NextStep(p, k);
      WellBracedStep(p, k);
      ParseGlob(p, next, tail, end);
      SourceNoQuantifier(p, next, tail);
      ParseGlobStep(p, k, tail, next, StepRe(p, k));
      SourceStarts(p, k, tail);
      ParseStep(Source(p, k, tail), Parsed(StepRe(p, k), Source(p, next, tail)),
                Parsed(GlobRe(p, next, end.re), end.rest));
    }
  }

  /** The anchored source that is handed to the regular expression engine. */
  function Anchored(source: string): string {
    "^" + source + "$"
  }

  const AT_END := Cat(End, Empty)

  lemma Assoc(a: string, b: string, c: string)
    ensures (a + b) + c == a + (b + c)
  {
  }

  /** The text the compiler adds for a step that is not a brace group. */
  function SimplePiece(p: string, i: nat): string
    requires i < |p| && p[i] != '{'
  {
    if DeepDirAt(p, i) then "(?:[^/]+/)*"
    else if DeepAt(p, i) then ".*"
    else if p[i] == '*' then "[^/]*"
    else if p[i] == '?' then "[^/]"
    else LitSource(p[i])
  }

  lemma SimplePieceOfSource(p: string, i: nat, tail: string)
    requires i < |p| && p[i] != '{'
    ensures Source(p, i, tail) == SimplePiece(p, i) + Source(p, NextStep(p, i), tail)
  {
  }

  lemma GroupOfSource(p: string, k: nat, tail: string)
    requires k < |p| && p[k] == '{' && Close(p, k) < |p|
    ensures Source(p, k, tail) == "(?:" + AltsSource(p, k + 1, Close(p, k), ")" + Source(p, Close(p, k) + 1, tail))
  {
  }

  lemma {:induction false} SourceTail(p: string, k: nat, tail: string)
    requires k <= |p| && WellBraced(p, k, false)
    ensures Source(p, k, "") + tail == Source(p, k, tail)
    decreases |p| - k
  {
    if k == |p| {
      EmptyPrefix(tail);
    } else {
      hide Source, AltsSource, SimplePiece;
      WellBracedStep(p, k);
      var next := NextStep(p, k);
      SourceTail(p, next, tail);
      if p[k] == '{' {
        GroupOfSource(p, k, "");
        GroupOfSource(p, k, tail);
        var rest := ")" + Source(p, next, "");
        AltsTail(p, k + 1, Close(p, k), rest, tail);
        Assoc(")", Source(p, next, ""), tail);
        Assoc("(?:", AltsSource(p, k + 1, Close(p, k), rest), tail);
      } else {
        SimplePieceOfSource(p, k, "");
        SimplePieceOfSource(p, k, tail);
        Assoc(SimplePiece(p, k), Source(p, next, ""), tail);
      }
    }
  }

  lemma {:induction false} AltsTail(p: string, a: nat, e: nat, x: string, tail: string)
    requires a <= e <= |p|
    ensures AltsSource(p, a, e, x) + tail == AltsSource(p, a, e, x + tail)
    decreases e - a
  {
    var c := Next(p, ',', a, e);
    if c < e {
      AltsTail(p, c + 1, e, x, tail);
      PartTail(p, a, c, "|" + AltsSource(p, c + 1, e, x), tail);
      Assoc("|", AltsSource(p, c + 1, e, x), tail);
    } else {
      PartTail(p, a, c, x, tail);
    }
  }

  lemma {:induction false} PartTail(p: string, a: nat, e: nat, x: string, tail: string)
    requires a <= e <= |p|
    ensures PartSource(p, a, e, x) + tail == PartSource(p, a, e, x + tail)
    decreases e - a
  {
    if a < e {
      PartTail(p, a + 1, e, x, tail);
    }
  }

  lemma ParseAnchored(p: string)
    requires WellBraced(p, 0, false)
    ensures Parse(Anchored(Source(p, 0, ""))) == Parsed(Cat(Begin, GlobRe(p, 0, AT_END)), "")
  {
    var s := Source(p, 0, "$");
    SourceTail(p, 0, "$");
    var whole := Anchored(Source(p, 0, ""));
    assert whole == "^" + s;
    assert "$"[1..] == "";
    assert ParseSeq("$") == Parsed(AT_END, "");
    ParseGlob(p, 0, "$", ParseSeq("$"));
    SourceNoQuantifier(p, 0, "$");
    assert whole[0] == '^' && whole[1..] == s;
    assert ParseTerm(whole) == Parsed(Begin, s);
    ParseStep(whole, Parsed(Begin, s), ParseSeq(s));
  }

  // ---------------------------------------------------------------------------------------
  // The language of what is read back
  // ---------------------------------------------------------------------------------------

  lemma {:induction false} StarNotSlashMeaning(s: string, i: nat, j: nat)
    requires i <= j <= |s|
    ensures Matches(Star(NotSlash), s, i, j) <==> NoSlash(s, i, j)
    decreases j - i
  {
    if i < j {
      StarNotSlashMeaning(s, i + 1, j);
      assert Matches(NotSlash, s, i, i + 1) <==> s[i] != '/';
      assert NoSlash(s, i, j) <==> s[i] != '/' && NoSlash(s, i + 1, j);
    }
  }

  lemma {:induction false} StarDotMeaning(s: string, i: nat, j: nat)
    requires i <= j <= |s|
    ensures Matches(Star(Dot), s, i, j) <==> OneLine(s, i, j)
    decreases j - i
  {
    if i < j {
      StarDotMeaning(s, i + 1, j);
      assert Matches(Dot, s, i, i + 1) <==> !LineTerminator(s[i]);
      assert OneLine(s, i, j) <==> !LineTerminator(s[i]) && OneLine(s, i + 1, j);
    }
  }

  lemma {:induction false} PlusNotSlashMeaning(s: string, i: nat, j: nat)
    requires i <= j <= |s|
    ensures Matches(Plus(NotSlash), s, i, j) <==> i < j && NoSlash(s, i, j)
    decreases j - i
  {
    if i < j {
      PlusNotSlashMeaning(s, i + 1, j);
      assert Matches(NotSlash, s, i, i + 1) <==> s[i] != '/';
      assert NoSlash(s, i, j) <==> s[i] != '/' && NoSlash(s, i + 1, j);
    }
  }

  ghost predicate OneDir(s: string, i: nat, j: nat) {
    i + 1 < j <= |s| && NoSlash(s, i, j - 1) && s[j - 1] == '/'
  }

  lemma StarSplit(body: Re, s: string, i: nat, j: nat) returns (m: nat)
    requires i < j <= |s| && Matches(Star(body), s, i, j)
    ensures i < m <= j && Matches(body, s, i, m) && Matches(Star(body), s, m, j)
  {
    m :| i < m <= j && Matches(body, s, i, m) && Matches(Star(body), s, m, j);
  }

  lemma SlashMeaning(s: string, i: nat, j: nat)
    requires i <= j <= |s|
    ensures Matches(Cat(Lit('/'), Empty), s, i, j) <==> j == i + 1 && s[i] == '/'
  {
    if j == i + 1 && s[i] == '/' {
      assert Matches(Lit('/'), s, i, j) && Matches(Empty, s, j, j);
    }
  }

  lemma OneDirMeaning(s: string, i: nat, j: nat)
    requires i <= j <= |s|
    ensures Matches(DIR, s, i, j) <==> OneDir(s, i, j)
  {
    forall m: nat | i <= m <= j ensures Matches(Plus(NotSlash), s, i, m) <==> i < m && NoSlash(s, i, m)
                                ensures Matches(DIR.second, s, m, j) <==> j == m + 1 && s[m] == '/' {
      PlusNotSlashMeaning(s, i, m);
      SlashMeaning(s, m, j);
    }
    if OneDir(s, i, j) {
      var m := j - 1;
      assert Matches(Plus(NotSlash), s, i, m) && Matches(DIR.second, s, m, j);
    }
  }

  lemma {:induction false} DirsMeaning(s: string, i: nat, j: nat)
    requires i <= j <= |s|
    ensures Matches(DIRS, s, i, j) <==> Dirs(s, i, j)
    decreases j - i
  {
    forall m: nat | i < m <= j ensures Matches(DIR, s, i, m) <==> OneDir(s, i, m)
                               ensures Matches(DIRS, s, m, j) <==> Dirs(s, m, j) {
      OneDirMeaning(s, i, m);
      DirsMeaning(s, m, j);
    }
    if Matches(DIRS, s, i, j) && i < j {
      var m := StarSplit(DIR, s, i, j);
      assert NoSlash(s, i, m - 1) && s[m - 1] == '/' && Dirs(s, m - 1 + 1, j);
    }
    if Dirs(s, i, j) && i < j {
      var e: nat :| i < e < j && NoSlash(s, i, e) && s[e] == '/' && Dirs(s, e + 1, j);
      assert OneDir(s, i, e + 1);
      assert Matches(DIR, s, i, e + 1) && Matches(DIRS, s, e + 1, j);
    }
  }

  lemma PartCharMeaning(c: char, s: string, i: nat, m: nat)
    requires i <= m <= |s|
    ensures Matches(PartCharRe(c), s, i, m) <==>
            if c == '*' then NoSlash(s, i, m)
            else m == i + 1 && (if c == '?' then s[i] != '/' else s[i] == c)
  {
    if c == '*' {
      StarNotSlashMeaning(s, i, m);
    }
  }

  lemma {:induction false} PartMeaning(p: string, a: nat, e: nat, s: string, i: nat, j: nat)
    requires a <= e <= |p| && i <= j <= |s|
    ensures Matches(PartRe(p, a, e), s, i, j) <==> PartMatch(p, a, e, s, i, j)
    decreases e - a
  {
    hide PartCharRe;
    if a < e {
      forall m: nat | i <= m <= j
        ensures Matches(PartRe(p, a + 1, e), s, m, j) <==> PartMatch(p, a + 1, e, s, m, j)
        ensures Matches(PartCharRe(p[a]), s, i, m) <==>
                if p[a] == '*' then NoSlash(s, i, m)
                else m == i + 1 && (if p[a] == '?' then s[i] != '/' else s[i] == p[a])
      {
        PartMeaning(p, a + 1, e, s, m, j);
        PartCharMeaning(p[a], s, i, m);
      }
      if PartMatch(p, a, e, s, i, j) && p[a] != '*' {
        assert Matches(PartCharRe(p[a]), s, i, i + 1) && Matches(PartRe(p, a + 1, e), s, i + 1, j);
      }
    }
  }

  lemma {:induction false} AltsMeaning(p: string, a: nat, e: nat, s: string, i: nat, j: nat)
    requires a <= e <= |p| && i <= j <= |s|
    ensures Matches(AltsRe(p, a, e), s, i, j) <==> AnyPartMatch(p, a, e, s, i, j)
    decreases e - a
  {
    var c := Next(p, ',', a, e);
    PartMeaning(p, a, c, s, i, j);
    if c < e {
      AltsMeaning(p, c + 1, e, s, i, j);
    }
  }

  /** What one step of the glob matches. */
  ghost predicate StepMatch(p: string, k: nat, s: string, i: nat, m: nat)
    requires k < |p| && i <= m <= |s|
  {
    if DeepDirAt(p, k) then Dirs(s, i, m)
    else if DeepAt(p, k) then OneLine(s, i, m)
    else if p[k] == '*' then NoSlash(s, i, m)
    else if p[k] == '?' then m == i + 1 && s[i] != '/'
    else if p[k] == '{' then GroupMatch(p, k, s, i, m)
    else m == i + 1 && s[i] == p[k]
  }

  lemma GlobMatchStep(p: string, k: nat, s: string, i: nat)
    requires k < |p| && i <= |s| && NextStep(p, k) <= |p|
    ensures GlobMatch(p, k, s, i) <==>
            exists m: nat :: i <= m <= |s| && StepMatch(p, k, s, i, m) && GlobMatch(p, NextStep(p, k), s, m)
  {
    hide Dirs, OneLine, NoSlash, GroupMatch;
    var next := NextStep(p, k);
    if GlobMatch(p, k, s, i) {
      if DeepDirAt(p, k) {
        var m: nat :| i <= m <= |s| && Dirs(s, i, m) && GlobMatch(p, k + 3, s, m);
        assert StepMatch(p, k, s, i, m) && GlobMatch(p, next, s, m);
      } else if DeepAt(p, k) {
        var m: nat :| i <= m <= |s| && OneLine(s, i, m) && GlobMatch(p, k + 2, s, m);
        assert StepMatch(p, k, s, i, m) && GlobMatch(p, next, s, m);
      } else if p[k] == '*' {
        var m: nat :| i <= m <= |s| && NoSlash(s, i, m) && GlobMatch(p, k + 1, s, m);
        assert StepMatch(p, k, s, i, m) && GlobMatch(p, next, s, m);
      } else if p[k] == '{' {
        var m: nat :| i <= m <= |s| && GroupMatch(p, k, s, i, m) && GlobMatch(p, Close(p, k) + 1, s, m);
        assert StepMatch(p, k, s, i, m) && GlobMatch(p, next, s, m);
      } else {
        assert StepMatch(p, k, s, i, i + 1) && GlobMatch(p, next, s, i + 1);
      }
    }
  }

  lemma StepMeaning(p: string, k: nat, s: string, i: nat, m: nat)
    requires k < |p| && i <= m <= |s| && NextStep(p, k) <= |p|
    ensures Matches(StepRe(p, k), s, i, m) <==> StepMatch(p, k, s, i, m)
  {
    if DeepDirAt(p, k) {
      DirsMeaning(s, i, m);
    } else if DeepAt(p, k) {
      StarDotMeaning(s, i, m);
    } else if p[k] == '*' {
      StarNotSlashMeaning(s, i, m);
    } else if p[k] == '{' {
      AltsMeaning(p, k + 1, Close(p, k), s, i, m);
    }
  }

  lemma AtEndMeaning(s: string, i: nat, j: nat)
    requires i <= j <= |s|
    ensures Matches(AT_END, s, i, j) <==> i == j == |s|
  {
    if i == j == |s| {
      assert Matches(End, s, i, i) && Matches(Empty, s, i, j);
    }
  }

  lemma {:induction false} GlobMeaning(p: string, k: nat, s: string, i: nat, j: nat)
    requires k <= |p| && i <= j <= |s| && WellBraced(p, k, false)
    ensures Matches(GlobRe(p, k, AT_END), s, i, j) <==> j == |s| && GlobMatch(p, k, s, i)
    decreases |p| - k
  {
    hide StepRe, StepMatch;
    if k == |p| {
      AtEndMeaning(s, i, j);
    } else {
      WellBracedStep(p, k);
      GlobMatchStep(p, k, s, i);
      var next := NextStep(p, k);
      GlobReStep(p, k);
      forall m: nat | i <= m <= j
        ensures Matches(StepRe(p, k), s, i, m) <==> StepMatch(p, k, s, i, m)
        ensures Matches(GlobRe(p, next, AT_END), s, m, j) <==> j == |s| && GlobMatch(p, next, s, m)
      {
        StepMeaning(p, k, s, i, m);
        GlobMeaning(p, next, s, m, j);
      }
    }
  }

  lemma GlobReStep(p: string, k: nat)
    requires k < |p| && NextStep(p, k) <= |p|
    ensures GlobRe(p, k, AT_END) == Cat(StepRe(p, k), GlobRe(p, NextStep(p, k), AT_END))
  {
  }

  /** Main result: the emitted source, anchored and read back as a regular expression, accepts
      exactly the strings the glob matches.  In particular no character of the glob is read as an
      operator it does not stand for. */
  lemma CompiledMeansGlob(p: string, s: string)
    requires WellBraced(p, 0, false)
    ensures var r := Parse(Anchored(Source(p, 0, "")));
            r.Parsed? && (Test(r.re, s) <==> GlobMatch(p, 0, s, 0))
  {
    hide Source, GlobRe, GlobMatch;
    ParseAnchored(p);
    var body := GlobRe(p, 0, AT_END);
    var re := Cat(Begin, body);
    forall i: nat, j: nat | i <= j <= |s| ensures Matches(re, s, i, j) <==> i == 0 && j == |s| && GlobMatch(p, 0, s, 0) {
      GlobMeaning(p, 0, s, 0, j);
      if i == 0 && j == |s| && GlobMatch(p, 0, s, 0) {
        assert Matches(Begin, s, 0, 0) && Matches(body, s, 0, j);
      }
    }
    if GlobMatch(p, 0, s, 0) {
      assert Matches(re, s, 0, |s|);
    }
  }

  // ---------------------------------------------------------------------------------------
  // The compiler as it runs
  // ---------------------------------------------------------------------------------------

  datatype Outcome = Compiled(source: string) | Unterminated | Nested

  /** Backslashes become slashes, then one leading `./` is dropped. */
  function Normalize(s: string): string {
    var slashes := Slashes(s);
    if "./" <= slashes then slashes[2..] else slashes
  }

  function Slashes(s: string): (r: string)
    ensures |r| == |s|
    ensures forall i :: 0 <= i < |s| ==> r[i] == if s[i] == '\\' then '/' else s[i]
  {
    seq(|s|, i requires 0 <= i < |s| => if s[i] == '\\' then '/' else s[i])
  }

  /** The index of the brace at which the nesting depth, `depth` at `j`, falls to zero, or |p|. */
  function MatchingClose(p: string, j: nat, depth: nat): (r: nat)
    requires j <= |p|
    ensures j <= r <= |p|
    decreases |p| - j
  {
    if j == |p| then j
    else if p[j] == '{' then MatchingClose(p, j + 1, depth + 1)
    else if p[j] == '}' then if depth <= 1 then j else MatchingClose(p, j + 1, depth - 1)
    else MatchingClose(p, j + 1, depth)
  }

  predicate GoodGroup(p: string, k: nat)
    requires k < |p|
  {
    Close(p, k) < |p| && BraceFree(p, k + 1, Close(p, k))
  }

  /** The error for the first group that is not well closed. */
  function BraceError(p: string, k: nat): Outcome
    requires k <= |p| && !WellBraced(p, k, false)
    decreases |p| - k
  {
    WellBracedStep(p, k);
    if p[k] == '{' && !GoodGroup(p, k) then
      if MatchingClose(p, k + 1, 1) == |p| then Unterminated else Nested
    else BraceError(p, NextStep(p, k))
  }

  function Compile(pattern: string): Outcome {
    var p := Normalize(pattern);
    if WellBraced(p, 0, false) then Compiled(Source(p, 0, "")) else BraceError(p, 0)
  }

  method CompileSegment(p: string, a: nat, e: nat) returns (out: string)
    requires a <= e <= |p|
    ensures out == PartSource(p, a, e, "")
  {
    out := "";
    for k := a to e
      invariant PartSource(p, a, e, "") == out + PartSource(p, k, e, "")
    {
      Assoc(out, PartCharSource(p[k]), PartSource(p, k + 1, e, ""));
      out := out + PartCharSource(p[k]);
    }
    assert out + "" == out;
  }

  /** Splits the group body at commas, compiles the alternatives and joins them with `|`. */
  method CompileAlternatives(p: string, start: nat, e: nat) returns (out: string)
    requires start <= e <= |p|
    ensures out == AltsSource(p, start, e, "")
  {
    hide PartSource;
    out := "";
    var a := start;
    while true
      invariant start <= a <= e
      invariant AltsSource(p, start, e, "") == out + AltsSource(p, a, e, "")
      decreases e - a
    {
      var c := Next(p, ',', a, e);
      var part := CompileSegment(p, a, c);
      if c == e {
        out := out + part;
        return;
      }
      var rest := "|" + AltsSource(p, c + 1, e, "");
      PartTail(p, a, c, "", rest);
      assert "" + rest == rest;
      Assoc(out, part, rest);
      Assoc(out + part, "|", AltsSource(p, c + 1, e, ""));
      out := out + part + "|";
      a := c + 1;
    }
  }

  /** No closing brace comes before `f`. */
  predicate OpenUntil(p: string, start: nat, f: nat) {
    start <= f <= |p| && forall m :: start <= m < f ==> p[m] != '}'
  }

  /** The text the compiler adds for the group opened at `k`. */
  function GroupText(p: string, k: nat): string
    requires k < |p|
  {
    "(?:" + AltsSource(p, k + 1, Close(p, k), "") + ")"
  }

  /** Finds where the group opened at `i` ends and compiles it, or says what is wrong with it. */
  method ReadBraceGroup(p: string, i: nat) returns (r: Outcome, next: nat)
    requires i < |p| && p[i] == '{'
    ensures GoodGroup(p, i) ==>
              next == Close(p, i) + 1 && r == Compiled(GroupText(p, i))
    ensures !GoodGroup(p, i) ==> r == if MatchingClose(p, i + 1, 1) == |p| then Unterminated else Nested
  {
    var start := i + 1;
    var depth: nat := 1;
    var j := start;
    ghost var f := start;
    while j < |p| && depth > 0
      invariant start <= j <= |p| && start <= f <= j
      invariant depth > 0
      invariant OpenUntil(p, start, f) && BraceFree(p, start, f)
      invariant f < j ==> p[f] == '{'
      invariant f == j ==> depth == 1
      invariant MatchingClose(p, start, 1) == MatchingClose(p, j, depth)
    {
      if p[j] == '{' {
        depth := depth + 1;
      } else if p[j] == '}' {
        depth := depth - 1;
      }
      if depth == 0 {
        break;
      }
      if f == j && p[j] != '{' {
        f := j + 1;
      }
      j := j + 1;
    }
    if depth != 0 {
      return Unterminated, j;
    }
    next := j + 1;
    var open := Next(p, '{', start, j);
    if open < j {
      return Nested, next;
    }
    assert Close(p, i) == j;
    var body := CompileAlternatives(p, start, j);
    r := Compiled("(?:" + body + ")");
  }

  /** The compiler's step for everything but brace groups: what it adds and how far it moves on. */
  method EmitSimple(p: string, i: nat) returns (piece: string, next: nat)
    requires i < |p| && p[i] != '{'
    ensures piece == SimplePiece(p, i) && next == NextStep(p, i)
  {
    if p[i] == '*' {
      var isDouble := i + 1 < |p| && p[i + 1] == '*';
      if isDouble {
        var followedBySlash := i + 2 < |p| && p[i + 2] == '/';
        if followedBySlash {
          return "(?:[^/]+/)*", i + 3;
        }
        return ".*", i + 2;
      }
      return "[^/]*", i + 1;
    }
    if p[i] == '?' {
      return "[^/]", i + 1;
    }
    piece := if Special(p[i]) then ['\\', p[i]] else [p[i]];
    next := i + 1;
  }

  method CompileGlob(pattern: string) returns (r: Outcome)
    ensures r == Compile(pattern)
    ensures r.Compiled? <==> WellBraced(Normalize(pattern), 0, false)
  {
    var p := Normalize(pattern);
    var source := "";
    var i := 0;
    while i < |p|
      invariant i <= |p| && CompiledUpTo(p, source, i)
      decreases |p| - i
    {
      hide Source, BraceError, MatchingClose, GroupText, SimplePiece, WellBraced, CompiledUpTo;
      var piece, next;
      if p[i] == '{' {
        var group;
        group, next := ReadBraceGroup(p, i);
        if !group.Compiled? {
          BraceErrorHere(p, source, i);
          return group;
        }
        piece := group.source;
      } else {
        piece, next := EmitSimple(p, i);
      }
      StepCompiled(p, source, i, piece);
      source := source + piece;
      i := next;
    }
    r := Compiled(source);
    assert source + "" == source;
  }

  /** The loop invariant of the compiler: `source` is what it has to emit for the glob up to `i`. */
  predicate CompiledUpTo(p: string, source: string, i: nat)
    requires i <= |p|
  {
    if WellBraced(p, 0, false) then WellBraced(p, i, false) && Source(p, 0, "") == source + Source(p, i, "")
    else !WellBraced(p, i, false) && BraceError(p, 0) == BraceError(p, i)
  }

  lemma StepCompiled(p: string, source: string, i: nat, piece: string)
    requires i < |p| && CompiledUpTo(p, source, i)
    requires p[i] == '{' ==> GoodGroup(p, i)
    requires piece == if p[i] == '{' then GroupText(p, i) else SimplePiece(p, i)
    ensures NextStep(p, i) <= |p| && CompiledUpTo(p, source + piece, NextStep(p, i))
  {
    hide Source, BraceError, GroupText, SimplePiece, WellBraced;
    WellBracedStep(p, i);
    if WellBraced(p, i, false) {
      if p[i] == '{' {
        GroupPiece(p, i);
      } else {
        SimplePieceOfSource(p, i, "");
      }
      Extend(Source(p, 0, ""), source, Source(p, i, ""), piece, Source(p, NextStep(p, i), ""));
    } else {
      BraceErrorLater(p, i);
    }
  }

  lemma Extend(whole: string, done: string, left: string, piece: string, rest: string)
    requires whole == done + left && left == piece + rest
    ensures whole == (done + piece) + rest
  {
  }

  lemma BraceErrorHere(p: string, source: string, i: nat)
    requires i < |p| && p[i] == '{' && !GoodGroup(p, i) && CompiledUpTo(p, source, i)
    ensures !WellBraced(p, 0, false)
    ensures BraceError(p, 0) == if MatchingClose(p, i + 1, 1) == |p| then Unterminated else Nested
  {
    WellBracedStep(p, i);
  }

  lemma BraceErrorLater(p: string, i: nat)
    requires i < |p| && !WellBraced(p, i, false) && (p[i] == '{' ==> GoodGroup(p, i))
    ensures NextStep(p, i) <= |p| && !WellBraced(p, NextStep(p, i), false)
    ensures BraceError(p, i) == BraceError(p, NextStep(p, i))
  {
    WellBracedStep(p, i);
  }

  lemma GroupPiece(p: string, i: nat)
    requires i < |p| && p[i] == '{' && Close(p, i) < |p|
    ensures Source(p, i, "") == GroupText(p, i) + Source(p, Close(p, i) + 1, "")
  {
    hide AltsSource;
    var close := Close(p, i);
    var rest := Source(p, close + 1, "");
    var body := AltsSource(p, i + 1, close, "");
    AltsTail(p, i + 1, close, "", ")" + rest);
    EmptyPrefix(")" + rest);
    FourParts("(?:", body, ")", rest);
  }

  lemma EmptyPrefix(s: string)
    ensures "" + s == s
  {
  }

  lemma FourParts(a: string, b: string, c: string, d: string)
    ensures a + b + c + d == a + (b + (c + d))
  {
  }

  // ---------------------------------------------------------------------------------------
  // Matching a path
  // ---------------------------------------------------------------------------------------

  /** The compiled expression accepts the path; false when the pattern does not compile. */
  ghost predicate Accepts(pattern: string, path: string) {
    var r := Compile(pattern);
    r.Compiled? && Parse(Anchored(r.source)).Parsed? && Test(Parse(Anchored(r.source)).re, Normalize(path))
  }

  /** A pattern that compiles accepts exactly the paths its normal form matches. */
  lemma AcceptsIffGlobMatches(pattern: string, path: string)
    ensures Accepts(pattern, path) <==>
            WellBraced(Normalize(pattern), 0, false) && GlobMatch(Normalize(pattern), 0, Normalize(path), 0)
  {
    hide Source, Parse, Test, GlobMatch, Normalize;
    var p := Normalize(pattern);
    if WellBraced(p, 0, false) {
      CompiledMeansGlob(p, Normalize(path));
    } else {
      BraceErrorIsError(p, 0);
    }
  }

  lemma {:induction false} BraceErrorIsError(p: string, k: nat)
    requires k <= |p| && !WellBraced(p, k, false)
    ensures !BraceError(p, k).Compiled?
    decreases |p| - k
  {
    WellBracedStep(p, k);
    if !(p[k] == '{' && !GoodGroup(p, k)) {
      BraceErrorIsError(p, NextStep(p, k));
    }
  }

  /** Every character without a glob meaning of its own stands for itself. */
  lemma {:induction false} OrdinaryCharactersAreLiteral(p: string, k: nat, s: string, i: nat)
    requires k <= |p| && i <= |s|
    requires forall m :: k <= m < |p| ==> p[m] !in "*?{"
    ensures GlobMatch(p, k, s, i) <==> p[k..] == s[i..]
    decreases |p| - k
  {
    if k < |p| && i < |s| {
      OrdinaryCharactersAreLiteral(p, k + 1, s, i + 1);
      assert p[k..] == [p[k]] + p[k + 1..] && s[i..] == [s[i]] + s[i + 1..];
    } else if k < |p| {
      assert |p[k..]| > 0 && |s[i..]| == 0;
    }
  }

  /** The escape promised for `\x` does not exist: the backslash becomes a slash, so the pattern
      never accepts the path that consists of the escaped character. */
  lemma BackslashIsNotAnEscape(x: char)
    ensures !Accepts(['\\', x], [x])
  {
    var p, s := Normalize(['\\', x]), Normalize([x]);
    assert Slashes(['\\', x])[0] == '/' && |Slashes([x])| == 1;
    assert p[0] == '/' && |p| == 2 && |s| == 1;
    AcceptsIffGlobMatches(['\\', x], [x]);
  }
}
