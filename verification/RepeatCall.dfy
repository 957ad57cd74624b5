/** The observer of repeated tool calls: the identity of a call and the length of the run of equal
    calls, with one reminder for every level that is reached. */
module RepeatCall {
  import opened CanonicalJson
  import opened Optional

  // ---------------------------------------------------------------------------------------
  // Call identity
  // ---------------------------------------------------------------------------------------

  /** The text a call is identified by.  The code stores a digest of it, taken here as injective. */
  function RepeatCallKey(tool: string, args: Json): string {
    tool + ("::" + Print(args))
  }

  /** Where a reader of JSON text stands: outside strings, right after a colon outside strings,
      inside a string, after a backslash inside a string, or at something no text contains. */
  datatype Scan = Out | Colon | In | Esc | Bad {
    function Next(c: char): Scan {
      match this
      case Out => if c == '\"' then In else if c == '\\' then Bad else if c == ':' then Colon else Out
      case Colon => if c == '\"' then In else if c == '\\' || c == ':' then Bad else Out
      case In => if c == '\"' then Out else if c == '\\' then Esc else In
      case Esc => In
      case Bad => Bad
    }

    predicate Outside() {
      Out? || Colon?
    }
  }

  function Run(st: Scan, s: string): Scan
    decreases |s|
  {
    if s == "" then st else Run(st.Next(s[0]), s[1..])
  }

  lemma {:induction false} RunAppend(st: Scan, a: string, b: string)
    ensures Run(st, a + b) == Run(Run(st, a), b)
    decreases |a|
  {
    if a == "" {
      assert a + b == b;
    } else {
      RunAppend(st.Next(a[0]), a[1..], b);
      assert (a + b)[1..] == a[1..] + b && (a + b)[0] == a[0];
    }
  }

  lemma RunOne(st: Scan, c: char, rest: string)
    ensures Run(st, [c] + rest) == Run(st.Next(c), rest)
  {
    assert ([c] + rest)[1..] == rest;
  }

  lemma RunEscape(c: char)
    ensures Run(In, EscapeChar(c)) == In
  {
    hide HexDigit;
    var e := EscapeChar(c);
    if |e| == 1 {
      assert Run(In, e) == Run(In.Next(e[0]), e[1..]);
    } else if |e| == 2 {
      assert Run(In, e) == Run(Esc, e[1..]) == Run(In, e[1..][1..]);
    } else {
      HexIsPlain(c as int / 16);
      HexIsPlain(c as int % 16);
      var f := e[1..][1..];
      assert Run(In, e) == Run(Esc, e[1..]) == Run(In, f);
      assert f == ['0', '0', HexDigit(c as int / 16), HexDigit(c as int % 16)];
      var g := f[1..][1..];
      assert Run(In, f) == Run(In, f[1..]) == Run(In, g);
      assert Run(In, g) == Run(In, g[1..]) == Run(In, g[1..][1..]);
    }
  }

  lemma HexIsPlain(n: int)
    requires 0 <= n < 16
    ensures HexDigit(n) != '\"' && HexDigit(n) != '\\'
  {
    assert HexDigit(n) == "0123456789abcdef"[n];
  }

  lemma {:induction false} RunEscaped(s: string, tail: string)
    ensures Run(In, EscapedThen(s, tail)) == Run(In, tail)
  {
    hide EscapeChar, Run;
    if s != "" {
      RunAppend(In, EscapeChar(s[0]), EscapedThen(s[1..], tail));
      RunEscape(s[0]);
      RunEscaped(s[1..], tail);
    }
  }

  lemma RunQuoted(st: Scan, s: string, tail: string)
    requires st.Outside()
    ensures Run(st, QuotedThen(s, tail)) == Run(Out, tail)
  {
    hide EscapedThen, Run;
    RunOne(st, '\"', EscapedThen(s, "\"" + tail));
    RunEscaped(s, "\"" + tail);
    RunOne(In, '\"', tail);
  }

  lemma {:induction false} RunNumber(st: Scan, n: string, tail: string)
    requires st.Outside() && n != "" && forall i :: 0 <= i < |n| ==> NumberChar(n[i])
    ensures Run(st, n + tail) == Run(Out, tail)
    decreases |n|
  {
    assert (n + tail)[0] == n[0] && (n + tail)[1..] == n[1..] + tail;
    if |n| == 1 {
      assert n[1..] + tail == tail;
    } else {
      RunNumber(Out, n[1..], tail);
    }
  }

  lemma {:induction false} RunLetters(st: Scan, n: string, tail: string)
    requires st.Outside() && n != "" && forall i :: 0 <= i < |n| ==> 'a' <= n[i] <= 'z'
    ensures Run(st, n + tail) == Run(Out, tail)
    decreases |n|
  {
    assert (n + tail)[0] == n[0] && (n + tail)[1..] == n[1..] + tail;
    if |n| == 1 {
      assert n[1..] + tail == tail;
    } else {
      RunLetters(Out, n[1..], tail);
    }
  }

  /** A whole text, read from outside, ends outside and contains neither a backslash nor two
      colons in a row outside its strings. */
  lemma {:induction false} RunText(st: Scan, v: Json, tail: string)
    requires st.Outside()
    ensures Run(st, TextThen(v, tail)) == Run(Out, tail)
    decreases v, 2
  {
    hide Run, EscapedThen, QuotedThen, ItemsThen, FieldsThen;
    match v
    case Null => RunLetters(st, "null", tail);
    case NotFinite => RunLetters(st, "null", tail);
    case Bool(b) => RunLetters(st, if b then "true" else "false", tail);
    case Num(n) => RunNumber(st, n, tail);
    case Str(s) => RunQuoted(st, s, tail);
    case Arr(items) =>
      RunOne(st, '[', ItemsThen(v, 0, tail));
      RunItems(v, 0, tail);
    case Obj(fields) =>
      RunOne(st, '{', FieldsThen(v, 0, tail));
      RunFields(v, 0, tail);
  }

  lemma {:induction false} RunItems(v: Json, k: nat, tail: string)
    requires v.Arr? && k <= |v.items|
    ensures Run(Out, ItemsThen(v, k, tail)) == Run(Out, tail)
    decreases v, 1, |v.items| - k
  {
    hide Run, TextThen;
    if k == |v.items| {
      RunOne(Out, ']', tail);
    } else {
      var rest := TextThen(v.items[k], ItemsThen(v, k + 1, tail));
      RunItems(v, k + 1, tail);
      RunText(Out, v.items[k], ItemsThen(v, k + 1, tail));
      RunSeparator(k, rest);
    }
  }

  lemma RunSeparator(k: nat, rest: string)
    ensures Run(Out, (if k > 0 then "," else "") + rest) == Run(Out, rest)
  {
    if k > 0 {
      RunOne(Out, ',', rest);
    } else {
      assert "" + rest == rest;
    }
  }

  lemma {:induction false} RunFields(v: Json, k: nat, tail: string)
    requires v.Obj? && k <= |v.fields|
    ensures Run(Out, FieldsThen(v, k, tail)) == Run(Out, tail)
    decreases v, 1, |v.fields| - k
  {
    hide Run, TextThen, QuotedThen;
    if k == |v.fields| {
      RunOne(Out, '}', tail);
    } else {
      var f := v.fields[k];
      var value := TextThen(f.value, FieldsThen(v, k + 1, tail));
      RunFields(v, k + 1, tail);
      RunText(Colon, f.value, FieldsThen(v, k + 1, tail));
      RunOne(Out, ':', value);
      RunQuoted(Out, f.key, ":" + value);
      RunSeparator(k, QuotedThen(f.key, ":" + value));
    }
  }

  /** Two readers that start on different sides of a quotation mark. */
  predicate Opposite(p: Scan, q: Scan) {
    (p.Outside() && q.In?) || (p.In? && q.Outside()) || p.Bad? || q.Bad?
  }

  lemma {:induction false} OppositeStays(p: Scan, q: Scan, s: string)
    requires Opposite(p, q)
    ensures Opposite(Run(p, s), Run(q, s))
    decreases |s|
  {
    if s != "" {
      OppositeStays(p.Next(s[0]), q.Next(s[0]), s[1..]);
    }
  }

  lemma RunPrint(v: Json)
    ensures Run(Out, Print(v)) == Out && Print(v) != "" && Print(v)[0] != ':'
  {
    hide Print, TextThen, Canon;
    PrintIsText(v, "");
    assert Print(v) + "" == Print(v);
    TextStarts(Canon(v), "");
    RunText(Out, Canon(v), "");
    KindIsNotColon(Canon(v));
  }

  lemma KindIsNotColon(v: Json)
    ensures Kind(v) != ':'
  {
  }

  lemma TwoColons(st: Scan)
    ensures Run(st, "::") == if st.In? || st.Esc? then In else Bad
  {
    assert Run(st, "::") == Run(st.Next(':'), "::"[1..]);
    assert "::"[1..] == ":";
    assert Run(st.Next(':'), ":") == Run(st.Next(':').Next(':'), ":"[1..]);
  }

  lemma {:induction false} BadStays(s: string)
    ensures Run(Bad, s) == Bad
    decreases |s|
  {
    if s != "" {
      BadStays(s[1..]);
    }
  }

  /** No text of a value ends with two colons and the text of another value. */
  lemma NoTextAfterColons(v: Json, w: Json, z: string)
    ensures Print(v) != z + ("::" + Print(w))
  {
    hide Run, Print;
    if Print(v) == z + ("::" + Print(w)) {
      RunPrint(v);
      RunPrint(w);
      var st := Run(Out, z);
      RunAppend(Out, z, "::" + Print(w));
      RunAppend(st, "::", Print(w));
      TwoColons(st);
      BadStays(Print(w));
      OppositeStays(In, Out, Print(w));
    }
  }

  lemma ThreeColons(p: string, q: string, z: string)
    requires p != "" && p[0] != ':' && |z| == 1
    ensures "::" + p != z + ("::" + q)
  {
    assert ("::" + p)[2] == p[0];
    assert (z + ("::" + q))[2] == ':';
  }

  lemma LongerToolName(tool: string, args: Json, tool': string, args': Json)
    requires |tool| < |tool'|
    ensures RepeatCallKey(tool, args) != RepeatCallKey(tool', args')
  {
    hide Print;
    if RepeatCallKey(tool, args) == RepeatCallKey(tool', args') {
      var key := RepeatCallKey(tool, args);
      var a, b := "::" + Print(args), "::" + Print(args');
      var z := tool'[|tool|..];
      assert a == key[|tool|..] == z + b;
      RunPrint(args);
      if |z| == 1 {
        ThreeColons(Print(args), Print(args'), z);
      } else {
        assert Print(args) == a[2..] == z[2..] + b;
        NoTextAfterColons(args, args', z[2..]);
      }
    }
  }

  /** Two calls have the same identity exactly when they are calls of the same tool with arguments
      that differ in the order of object fields only, whatever the names of the tools are. */
  lemma KeyIdentifiesCall(tool: string, args: Json, tool': string, args': Json)
    requires Valid(args) && Valid(args')
    ensures RepeatCallKey(tool, args) == RepeatCallKey(tool', args')
            <==> tool == tool' && Same(Plain(args), Plain(args'))
  {
    hide Print;
    PrintIsCanonical(args, args');
    if RepeatCallKey(tool, args) == RepeatCallKey(tool', args') {
      if |tool| < |tool'| {
        LongerToolName(tool, args, tool', args');
      } else if |tool| > |tool'| {
        LongerToolName(tool', args', tool, args);
      } else {
        var key, key' := RepeatCallKey(tool, args), RepeatCallKey(tool', args');
        assert tool == key[..|tool|] == key'[..|tool'|] == tool';
        assert Print(args) == key[|tool| + 2..] == key'[|tool'| + 2..] == Print(args');
      }
    }
  }

  // ---------------------------------------------------------------------------------------
  // The streak counter
  // ---------------------------------------------------------------------------------------

  datatype Disposition = Executed | Denied | Failed | Replayed | Uncertain | Invalid | InvalidResult

  /** One observed call; `attempts` is `None` when it is missing or not a safe natural number. */
  datatype Observation = Observation(tool: string, args: Json, disposition: Disposition, attempts: Option<nat>)

  datatype Policy = Policy(warnAt: int, escalateAt: int, blockAt: int)

  type Level = n: nat | n <= 3

  datatype State = State(key: string, count: nat, level: Level, lastDisposition: Disposition, lastAttempts: nat)

  datatype Reminder = Reminder(tool: string, count: nat, level: Level, attempts: nat)

  const MAX_SAFE_INTEGER := 0x1f_ffff_ffff_ffff

  function LevelFor(count: nat, policy: Policy): Level {
    if count >= policy.blockAt then 3
    else if count >= policy.escalateAt then 2
    else if count >= policy.warnAt then 1
    else 0
  }

  function Min(a: nat, b: nat): nat {
    if a <= b then a else b
  }

  function KeyOf(o: Observation): string {
    RepeatCallKey(o.tool, o.args)
  }

  function AdvanceRepeatCall(state: Option<State>, o: Observation, policy: Policy): (State, Option<Reminder>) {
    var key := KeyOf(o);
    var attempts := if o.attempts.Some? then o.attempts.value else 0;
    if state.None? || state.value.key != key then (State(key, 1, 0, o.disposition, attempts), None)
    else
      var st := state.value;
      var count := Min(MAX_SAFE_INTEGER, st.count + 1);
      var level := LevelFor(count, policy);
      var next := State(key, count, if level > st.level then level else st.level, o.disposition, attempts);
      if level > st.level then (next, Some(Reminder(o.tool, count, next.level, attempts))) else (next, None)
  }

  /** The state after all calls of a history. */
  function After(calls: seq<Observation>, policy: Policy): Option<State> {
    if calls == [] then None
    else Some(AdvanceRepeatCall(After(calls[..|calls| - 1], policy), calls[|calls| - 1], policy).0)
  }

  /** The reminder given at the last call of a history. */
  function ReminderAt(calls: seq<Observation>, policy: Policy): Option<Reminder>
    requires calls != []
  {
    AdvanceRepeatCall(After(calls[..|calls| - 1], policy), calls[|calls| - 1], policy).1
  }

  /** Two observed calls are the same call. */
  ghost predicate SameCall(a: Observation, b: Observation) {
    a.tool == b.tool && Same(Plain(a.args), Plain(b.args))
  }

  ghost predicate ValidCalls(calls: seq<Observation>) {
    forall i :: 0 <= i < |calls| ==> Valid(calls[i].args)
  }

  /** The last `n` calls are the same call, and the one before, if any, is another call. */
  ghost predicate IsStreak(calls: seq<Observation>, n: nat) {
    && 1 <= n <= |calls|
    && (forall i :: |calls| - n <= i < |calls| ==> SameCall(calls[i], calls[|calls| - 1]))
    && (n < |calls| ==> !SameCall(calls[|calls| - n - 1], calls[|calls| - 1]))
  }

  lemma KeysIdentify(a: Observation, b: Observation)
    requires Valid(a.args) && Valid(b.args)
    ensures KeyOf(a) == KeyOf(b) <==> SameCall(a, b)
  {
    KeyIdentifiesCall(a.tool, a.args, b.tool, b.args);
  }

  /** The level a streak of `n` calls has reached: the first call of a streak never counts. */
  function StreakLevel(n: nat, policy: Policy): Level {
    if n <= 1 then 0 else LevelFor(n, policy)
  }

  /** The level of a streak is the strength of the strongest threshold it has reached. */
  lemma LevelIsStrongestReached(n: nat, policy: Policy)
    ensures var level := StreakLevel(n, policy);
            && (level == 3 <==> n >= 2 && n >= policy.blockAt)
            && (level >= 2 <==> n >= 2 && (n >= policy.escalateAt || n >= policy.blockAt))
            && (level >= 1 <==> n >= 2 && (n >= policy.warnAt || n >= policy.escalateAt || n >= policy.blockAt))
  {
  }

  ghost function AttemptsOf(o: Observation): nat {
    match o.attempts
    case Some(n) => n
    case None => 0
  }

  lemma LevelsGrow(m: nat, n: nat, policy: Policy)
    requires m <= n
    ensures LevelFor(m, policy) <= LevelFor(n, policy) && StreakLevel(m, policy) <= StreakLevel(n, policy)
  {
  }

  /** The length of the longest suffix of calls with the key of the last call. */
  function Streak(calls: seq<Observation>): (n: nat)
    requires calls != []
    ensures 1 <= n <= |calls|
  {
    var init := calls[..|calls| - 1];
    if init != [] && KeyOf(init[|init| - 1]) == KeyOf(calls[|calls| - 1]) then Streak(init) + 1 else 1
  }

  lemma {:induction false} StreakIsLongestSuffix(calls: seq<Observation>)
    requires calls != [] && ValidCalls(calls)
    ensures IsStreak(calls, Streak(calls))
  {
    hide KeyOf, Same;
    var init, last := calls[..|calls| - 1], calls[|calls| - 1];
    KeysIdentify(last, last);
    if init != [] {
      var prev := init[|init| - 1];
      assert Valid(calls[|calls| - 2].args);
      KeysIdentify(prev, last);
      if KeyOf(prev) == KeyOf(last) {
        StreakIsLongestSuffix(init);
        forall i | 0 <= i < |init| ensures SameCall(init[i], prev) <==> SameCall(calls[i], last) {
          assert Valid(calls[i].args);
          KeysIdentify(init[i], prev);
          KeysIdentify(calls[i], last);
        }
      }
    }
  }

  lemma {:induction false} AfterIsStreak(calls: seq<Observation>, policy: Policy)
    requires calls != [] && |calls| <= MAX_SAFE_INTEGER
    ensures var st := After(calls, policy);
            && st.Some? && st.value.key == KeyOf(calls[|calls| - 1])
            && st.value.count == Streak(calls)
            && st.value.level == StreakLevel(Streak(calls), policy)
            && st.value.lastDisposition == calls[|calls| - 1].disposition
            && st.value.lastAttempts == AttemptsOf(calls[|calls| - 1])
  {
    hide KeyOf;
    var init := calls[..|calls| - 1];
    if init != [] {
      AfterIsStreak(init, policy);
      LevelsGrow(Streak(init), Streak(init) + 1, policy);
    }
  }

  /** Main result: after any calls the count is the length of the longest suffix of identical calls,
      and the level is the one that many identical calls have reached. */
  lemma CountIsLongestIdenticalSuffix(calls: seq<Observation>, policy: Policy)
    requires calls != [] && ValidCalls(calls) && |calls| <= MAX_SAFE_INTEGER
    ensures After(calls, policy).Some?
    ensures IsStreak(calls, After(calls, policy).value.count)
    ensures After(calls, policy).value.level == StreakLevel(After(calls, policy).value.count, policy)
    ensures After(calls, policy).value.lastDisposition == calls[|calls| - 1].disposition
    ensures After(calls, policy).value.lastAttempts == AttemptsOf(calls[|calls| - 1])
  {
    hide KeyOf;
    AfterIsStreak(calls, policy);
    StreakIsLongestSuffix(calls);
  }

  /** A reminder is given exactly when the streak has just reached a higher level, and says so. */
  lemma ReminderIffLevelRises(calls: seq<Observation>, policy: Policy)
    requires calls != [] && |calls| <= MAX_SAFE_INTEGER
    ensures var n := Streak(calls);
            var r := ReminderAt(calls, policy);
            && (r.Some? <==> StreakLevel(n, policy) > StreakLevel(n - 1, policy))
            && (r.Some? ==> r.value.count == n && r.value.level == StreakLevel(n, policy)
                            && r.value.tool == calls[|calls| - 1].tool
                            && r.value.attempts == AttemptsOf(calls[|calls| - 1]))
  {
    hide KeyOf;
    var init := calls[..|calls| - 1];
    if init != [] {
      AfterIsStreak(init, policy);
      LevelsGrow(Streak(init), Streak(init) + 1, policy);
    }
  }

  /** Within one streak the levels of the reminders strictly increase, so there are at most three. */
  lemma RemindersOfStreakRise(calls: seq<Observation>, policy: Policy, i: nat, j: nat)
    requires 0 < i < j <= |calls| <= MAX_SAFE_INTEGER
    requires Streak(calls[..j]) == Streak(calls[..i]) + (j - i)
    requires ReminderAt(calls[..i], policy).Some? && ReminderAt(calls[..j], policy).Some?
    ensures 1 <= ReminderAt(calls[..i], policy).value.level < ReminderAt(calls[..j], policy).value.level <= 3
  {
    hide ReminderAt, Streak;
    ReminderIffLevelRises(calls[..i], policy);
    ReminderIffLevelRises(calls[..j], policy);
    LevelsGrow(Streak(calls[..i]), Streak(calls[..j]) - 1, policy);
  }
}
