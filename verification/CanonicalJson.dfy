/** The canonical text of a JSON value, in which the order of object fields does not matter.

    `Print` sorts the fields of every object on the way; two values print the same text exactly
    when they are the same up to field order (`PrintIsCanonical`). */
module CanonicalJson {

  // ---------------------------------------------------------------------------------------
  // Values
  // ---------------------------------------------------------------------------------------

  predicate NumberChar(c: char) {
    '0' <= c <= '9' || c in "-+.e"
  }

  predicate IsNumberText(s: string) {
    s != "" && (s[0] == '-' || '0' <= s[0] <= '9') && forall i :: 0 <= i < |s| ==> NumberChar(s[i])
  }

  /** A finite number, identified by its shortest decimal text. */
  type Number = s: string | IsNumberText(s) witness "0"

  datatype Json =
    | Null
    | Bool(b: bool)
    | Num(n: Number)
    | NotFinite // an overflowing literal such as 1e999
    | Str(s: string)
    | Arr(items: seq<Json>)
    | Obj(fields: seq<Field>)

  datatype Field = Field(key: string, value: Json)

  ghost predicate DistinctKeys(fs: seq<Field>) {
    forall i, j :: 0 <= i < j < |fs| ==> fs[i].key != fs[j].key
  }

  /** At every depth the keys of an object are distinct. */
  ghost predicate Valid(v: Json) {
    match v
    case Arr(items) => forall i :: 0 <= i < |items| ==> Valid(items[i])
    case Obj(fields) => DistinctKeys(fields) && forall i :: 0 <= i < |fields| ==> Valid(fields[i].value)
    case _ => true
  }

  /** The value with `null` in place of numbers that are not finite, as JSON texts have it. */
  function Plain(v: Json): Json {
    match v
    case NotFinite => Null
    case Arr(items) => Arr(seq(|items|, i requires 0 <= i < |items| => Plain(items[i])))
    case Obj(fields) => Obj(seq(|fields|, i requires 0 <= i < |fields| => Field(fields[i].key, Plain(fields[i].value))))
    case _ => v
  }

  /** `a` and `b` differ in the order of object fields only. */
  ghost predicate Same(a: Json, b: Json)
    decreases a
  {
    match a
    case Arr(x) => b.Arr? && |x| == |b.items| && forall i :: 0 <= i < |x| ==> Same(x[i], b.items[i])
    case Obj(x) => b.Obj? && |x| == |b.fields| && forall i :: 0 <= i < |x| ==> FieldIn(x[i], b.fields)
    case _ => a == b
  }

  ghost predicate FieldIn(f: Field, fs: seq<Field>)
    decreases f
  {
    exists j :: 0 <= j < |fs| && f.key == fs[j].key && Same(f.value, fs[j].value)
  }

  // ---------------------------------------------------------------------------------------
  // Key order: UTF-16 code units
  // ---------------------------------------------------------------------------------------

  function Units(c: char): (r: seq<int>)
    ensures |r| == 1 || |r| == 2
  {
    var n := c as int;
    if n < 0x10000 then [n] else [0xd800 + (n - 0x10000) / 0x400, 0xdc00 + (n - 0x10000) % 0x400]
  }

  /** A character up to U+FFFF is its own unit, any other is a high and a low surrogate (RFC 2781 section 2.1). */
  lemma UnitsAreUtf16(c: char)
    ensures var n, u := c as int, Units(c);
            if n < 0x10000 then u == [n]
            else && |u| == 2 && 0xd800 <= u[0] < 0xdc00 <= u[1] < 0xe000
                 && n == 0x10000 + (u[0] - 0xd800) * 0x400 + (u[1] - 0xdc00)
  {
  }

  function AllUnits(s: string): seq<int> {
    if s == "" then [] else Units(s[0]) + AllUnits(s[1..])
  }

  predicate LexLess(a: seq<int>, b: seq<int>) {
    if b == [] then false
    else if a == [] then true
    else a[0] < b[0] || (a[0] == b[0] && LexLess(a[1..], b[1..]))
  }

  /** String comparison by code units. */
  predicate Less(a: string, b: string) {
    LexLess(AllUnits(a), AllUnits(b))
  }

  lemma {:induction false} LexTransitive(a: seq<int>, b: seq<int>, c: seq<int>)
    requires LexLess(a, b) && LexLess(b, c)
    ensures LexLess(a, c)
  {
    if a != [] && a[0] == b[0] == c[0] {
      LexTransitive(a[1..], b[1..], c[1..]);
    }
  }

  lemma {:induction false} LexTotal(a: seq<int>, b: seq<int>)
    ensures LexLess(a, b) || LexLess(b, a) || a == b
    ensures !(LexLess(a, b) && LexLess(b, a)) && !LexLess(a, a)
  {
    if a != [] {
      LexTotal(a[1..], a[1..]);
    }
    if a != [] && b != [] {
      LexTotal(a[1..], b[1..]);
      assert a == [a[0]] + a[1..] && b == [b[0]] + b[1..];
    }
  }

  lemma UnitsDecode(c: char, d: char, x: seq<int>, y: seq<int>)
    requires Units(c) + x == Units(d) + y
    ensures c == d && x == y
  {
    var l, r := Units(c) + x, Units(d) + y;
    assert l[0] == Units(c)[0] && r[0] == Units(d)[0];
    if c as int >= 0x10000 && d as int >= 0x10000 {
      assert l[1] == Units(c)[1] && r[1] == Units(d)[1];
    }
    assert l[|Units(c)|..] == x && r[|Units(d)|..] == y;
  }

  lemma {:induction false} UnitsInjective(a: string, b: string)
    requires AllUnits(a) == AllUnits(b)
    ensures a == b
  {
    if a != "" && b != "" {
      UnitsDecode(a[0], b[0], AllUnits(a[1..]), AllUnits(b[1..]));
      UnitsInjective(a[1..], b[1..]);
      assert a == [a[0]] + a[1..] && b == [b[0]] + b[1..];
    }
  }

  lemma LessTotal(a: string, b: string)
    ensures Less(a, b) || Less(b, a) || a == b
    ensures !(Less(a, b) && Less(b, a)) && !Less(a, a)
  {
    LexTotal(AllUnits(a), AllUnits(b));
    if AllUnits(a) == AllUnits(b) {
      UnitsInjective(a, b);
    }
  }

  // ---------------------------------------------------------------------------------------
  // Sorting fields
  // ---------------------------------------------------------------------------------------

  ghost predicate Sorted(fs: seq<Field>) {
    forall i, j :: 0 <= i < j < |fs| ==> !Less(fs[j].key, fs[i].key)
  }

  /** `f` goes in front of the first field with a larger key. */
  function Insert(f: Field, fs: seq<Field>): (r: seq<Field>)
    ensures multiset(r) == multiset(fs) + multiset{f}
  {
    if fs == [] then [f]
    else if Less(f.key, fs[0].key) then [f] + fs
    else
      assert fs == [fs[0]] + fs[1..];
      [fs[0]] + Insert(f, fs[1..])
  }

  function Sort(fs: seq<Field>): (r: seq<Field>)
    ensures multiset(r) == multiset(fs)
  {
    if fs == [] then []
    else
      assert fs == fs[..|fs| - 1] + [fs[|fs| - 1]];
      Insert(fs[|fs| - 1], Sort(fs[..|fs| - 1]))
  }

  lemma SameElements(a: seq<Field>, b: seq<Field>)
    requires multiset(a) == multiset(b)
    ensures |a| == |b| && forall f :: f in a <==> f in b
  {
    assert forall f :: f in a <==> f in multiset(a);
    assert forall f :: f in b <==> f in multiset(b);
    assert |multiset(a)| == |a| && |multiset(b)| == |b|;
  }

  // ---------------------------------------------------------------------------------------
  // Printing
  // ---------------------------------------------------------------------------------------

  function HexDigit(n: int): char
    requires 0 <= n < 16
  {
    "0123456789abcdef"[n]
  }

  function EscapeChar(c: char): (r: string)
    ensures |r| == 1 || |r| == 2 || |r| == 6
  {
    var n := c as int;
    if c == '\"' then "\\\""
    else if c == '\\' then "\\\\"
    else if n == 8 then "\\b"
    else if n == 9 then "\\t"
    else if n == 10 then "\\n"
    else if n == 12 then "\\f"
    else if n == 13 then "\\r"
    else if n < 32 then ['\\', 'u', '0', '0', HexDigit(n / 16), HexDigit(n % 16)]
    else [c]
  }

  /** The escaped characters of `s` followed by `tail`. */
  function EscapedThen(s: string, tail: string): string {
    if s == "" then tail else EscapeChar(s[0]) + EscapedThen(s[1..], tail)
  }

  /** A JSON string literal followed by `tail`. */
  function QuotedThen(s: string, tail: string): string {
    "\"" + EscapedThen(s, "\"" + tail)
  }

  function Quote(s: string): string {
    QuotedThen(s, "")
  }

  /** The parts from `k` on, with commas in between. */
  function JoinFrom(parts: seq<string>, k: nat): string
    requires k <= |parts|
    decreases |parts| - k
  {
    if k == |parts| then "" else (if k > 0 then "," else "") + parts[k] + JoinFrom(parts, k + 1)
  }

  function Join(parts: seq<string>): string {
    JoinFrom(parts, 0)
  }

  lemma InSort(fs: seq<Field>, i: nat)
    requires i < |Sort(fs)|
    ensures |Sort(fs)| == |fs| && Sort(fs)[i] in fs
  {
    SameElements(Sort(fs), fs);
  }

  /** The canonical text: fields are printed in key order. */
  function Print(v: Json): string
    decreases v
  {
    match v
    case Null => "null"
    case NotFinite => "null"
    case Bool(b) => if b then "true" else "false"
    case Num(n) => n
    case Str(s) => Quote(s)
    case Arr(items) => "[" + Join(seq(|items|, i requires 0 <= i < |items| => Print(items[i]))) + "]"
    case Obj(fields) =>
      var sorted := Sort(fields);
      "{" + Join(seq(|sorted|, i requires 0 <= i < |sorted| =>
        (InSort(fields, i); Quote(sorted[i].key) + ":" + Print(sorted[i].value)))) + "}"
  }

  // ---------------------------------------------------------------------------------------
  // The text of a value whose fields are in order already
  // ---------------------------------------------------------------------------------------

  function Canon(v: Json): Json
    decreases v
  {
    match v
    case NotFinite => Null
    case Arr(items) => Arr(seq(|items|, i requires 0 <= i < |items| => Canon(items[i])))
    case Obj(fields) =>
      var sorted := Sort(fields);
      Obj(seq(|sorted|, i requires 0 <= i < |sorted| =>
        (InSort(fields, i); Field(sorted[i].key, Canon(sorted[i].value)))))
    case _ => v
  }

  /** The text of `v`, fields in the given order, followed by `tail`. */
  function TextThen(v: Json, tail: string): string
    decreases v, 2
  {
    match v
    case Null => "null" + tail
    case NotFinite => "null" + tail
    case Bool(b) => (if b then "true" else "false") + tail
    case Num(n) => n + tail
    case Str(s) => QuotedThen(s, tail)
    case Arr(items) => "[" + ItemsThen(v, 0, tail)
    case Obj(fields) => "{" + FieldsThen(v, 0, tail)
  }

  function ItemsThen(v: Json, k: nat, tail: string): string
    requires v.Arr? && k <= |v.items|
    decreases v, 1, |v.items| - k
  {
    if k == |v.items| then "]" + tail
    else (if k > 0 then "," else "") + TextThen(v.items[k], ItemsThen(v, k + 1, tail))
  }

  function FieldsThen(v: Json, k: nat, tail: string): string
    requires v.Obj? && k <= |v.fields|
    decreases v, 1, |v.fields| - k
  {
    if k == |v.fields| then "}" + tail
    else (if k > 0 then "," else "")
         + QuotedThen(v.fields[k].key, ":" + TextThen(v.fields[k].value, FieldsThen(v, k + 1, tail)))
  }

  // ---------------------------------------------------------------------------------------
  // Printing is the text of the canonical value
  // ---------------------------------------------------------------------------------------

  lemma Assoc(a: string, b: string, c: string)
    ensures (a + b) + c == a + (b + c)
  {
  }

  lemma {:induction false} EscapedTail(s: string, x: string, tail: string)
    ensures EscapedThen(s, x) + tail == EscapedThen(s, x + tail)
  {
    if s != "" {
      EscapedTail(s[1..], x, tail);
      Assoc(EscapeChar(s[0]), EscapedThen(s[1..], x), tail);
    }
  }

  lemma QuoteThen(s: string, tail: string)
    ensures Quote(s) + tail == QuotedThen(s, tail)
  {
    hide EscapedThen;
    EscapedTail(s, "\"" + "", tail);
    Assoc("\"", "", tail);
    assert "" + tail == tail;
    Assoc("\"", EscapedThen(s, "\"" + ""), tail);
  }

  function PrintedItems(v: Json): seq<string>
    requires v.Arr?
  {
    seq(|v.items|, i requires 0 <= i < |v.items| => Print(v.items[i]))
  }

  function PrintedFields(v: Json): seq<string>
    requires v.Obj?
  {
    var sorted := Sort(v.fields);
    seq(|sorted|, i requires 0 <= i < |sorted| =>
      (InSort(v.fields, i); Quote(sorted[i].key) + ":" + Print(sorted[i].value)))
  }

  lemma Bracketed(open: string, body: string, close: string, tail: string)
    ensures open + body + close + tail == open + (body + (close + tail))
  {
    Assoc(open + body, close, tail);
    Assoc(open, body, close + tail);
  }

  lemma {:induction false} PrintIsText(v: Json, tail: string)
    ensures Print(v) + tail == TextThen(Canon(v), tail)
    decreases v, 2
  {
    if v.Arr? {
      hide JoinFrom, ItemsThen;
      JoinIsItems(v, PrintedItems(v), 0, tail);
      Bracketed("[", Join(PrintedItems(v)), "]", tail);
      assert Print(v) == "[" + Join(PrintedItems(v)) + "]";
    } else if v.Obj? {
      hide JoinFrom, FieldsThen, Quote;
      SameElements(Sort(v.fields), v.fields);
      JoinIsFields(v, PrintedFields(v), 0, tail);
      Bracketed("{", Join(PrintedFields(v)), "}", tail);
      assert Print(v) == "{" + Join(PrintedFields(v)) + "}";
    } else if v.Str? {
      QuoteThen(v.s, tail);
    }
  }

  lemma {:induction false} JoinIsItems(v: Json, parts: seq<string>, k: nat, tail: string)
    requires v.Arr? && k <= |v.items| == |parts|
    requires forall i :: 0 <= i < |parts| ==> parts[i] == Print(v.items[i])
    ensures JoinFrom(parts, k) + ("]" + tail) == ItemsThen(Canon(v), k, tail)
    decreases v, 1, |v.items| - k
  {
    hide Print, TextThen;
    var c := Canon(v);
    if k < |parts| {
      JoinIsItems(v, parts, k + 1, tail);
      PrintIsText(v.items[k], ItemsThen(c, k + 1, tail));
      assert c.items[k] == Canon(v.items[k]);
      JoinStep(parts, k, "]" + tail, ItemsThen(c, k + 1, tail));
    } else {
      assert "" + ("]" + tail) == "]" + tail;
    }
  }

  lemma JoinStep(parts: seq<string>, k: nat, end: string, rest: string)
    requires k < |parts| && JoinFrom(parts, k + 1) + end == rest
    ensures JoinFrom(parts, k) + end == (if k > 0 then "," else "") + (parts[k] + rest)
  {
    var sep := if k > 0 then "," else "";
    Assoc(sep + parts[k], JoinFrom(parts, k + 1), end);
    Assoc(sep, parts[k], rest);
  }

  lemma {:induction false} JoinIsFields(v: Json, parts: seq<string>, k: nat, tail: string)
    requires v.Obj? && k <= |Sort(v.fields)| == |parts| == |v.fields|
    requires forall i :: 0 <= i < |parts| ==>
               parts[i] == Quote(Sort(v.fields)[i].key) + ":" + Print(Sort(v.fields)[i].value)
    ensures JoinFrom(parts, k) + ("}" + tail) == FieldsThen(Canon(v), k, tail)
    decreases v, 1, |v.fields| - k
  {
    hide Print, TextThen, Quote, QuotedThen;
    var c := Canon(v);
    if k < |parts| {
      var f := Sort(v.fields)[k];
      InSort(v.fields, k);
      JoinIsFields(v, parts, k + 1, tail);
      var rest := FieldsThen(c, k + 1, tail);
      PrintIsText(f.value, rest);
      assert c.fields[k] == Field(f.key, Canon(f.value));
      JoinStep(parts, k, "}" + tail, rest);
      Assoc(Quote(f.key) + ":", Print(f.value), rest);
      Assoc(Quote(f.key), ":", Print(f.value) + rest);
      QuoteThen(f.key, ":" + (Print(f.value) + rest));
    } else {
      assert "" + ("}" + tail) == "}" + tail;
    }
  }

  // ---------------------------------------------------------------------------------------
  // The text determines the value
  // ---------------------------------------------------------------------------------------

  /** What can come after a value: nothing, or the punctuation that ends it. */
  predicate Delimited(s: string) {
    s == "" || s[0] in ",]}"
  }

  predicate NoEscape(c: char) {
    c as int >= 32 && c != '\"' && c != '\\'
  }

  lemma HexDigitInjective(m: int, n: int)
    requires 0 <= m < 16 && 0 <= n < 16 && HexDigit(m) == HexDigit(n)
    ensures m == n
  {
    assert HexDigit(m) == "0123456789abcdef"[m] && HexDigit(n) == "0123456789abcdef"[n];
  }

  lemma EscapeCharDecodes(c: char, d: char, x: string, y: string)
    requires EscapeChar(c) + x == EscapeChar(d) + y
    ensures c == d && x == y
  {
    var l, r := EscapeChar(c) + x, EscapeChar(d) + y;
    assert l[0] == EscapeChar(c)[0] && r[0] == EscapeChar(d)[0];
    if NoEscape(c) || NoEscape(d) {
      assert c == d;
    } else {
      assert l[1] == EscapeChar(c)[1] && r[1] == EscapeChar(d)[1];
      if |EscapeChar(c)| == 6 && |EscapeChar(d)| == 6 {
        assert l[4] == EscapeChar(c)[4] && r[4] == EscapeChar(d)[4];
        assert l[5] == EscapeChar(c)[5] && r[5] == EscapeChar(d)[5];
        HexDigitInjective(c as int / 16, d as int / 16);
        HexDigitInjective(c as int % 16, d as int % 16);
      }
    }
    assert l[|EscapeChar(c)|..] == x && r[|EscapeChar(d)|..] == y;
  }

  lemma EscapeStarts(c: char, x: string)
    ensures (EscapeChar(c) + x)[0] != '\"'
  {
  }

  lemma {:induction false} EscapedDecodes(s: string, t: string, x: string, y: string)
    requires EscapedThen(s, "\"" + x) == EscapedThen(t, "\"" + y)
    ensures s == t && x == y
  {
    hide EscapeChar;
    if s != "" && t != "" {
      EscapeCharDecodes(s[0], t[0], EscapedThen(s[1..], "\"" + x), EscapedThen(t[1..], "\"" + y));
      EscapedDecodes(s[1..], t[1..], x, y);
      assert s == [s[0]] + s[1..] && t == [t[0]] + t[1..];
    } else if s != "" {
      EscapeStarts(s[0], EscapedThen(s[1..], "\"" + x));
    } else if t != "" {
      EscapeStarts(t[0], EscapedThen(t[1..], "\"" + y));
    } else {
      assert ("\"" + x)[1..] == x && ("\"" + y)[1..] == y;
    }
  }

  lemma QuotedDecodes(s: string, t: string, x: string, y: string)
    requires QuotedThen(s, x) == QuotedThen(t, y)
    ensures s == t && x == y
  {
    hide EscapedThen;
    assert QuotedThen(s, x)[1..] == EscapedThen(s, "\"" + x);
    assert QuotedThen(t, y)[1..] == EscapedThen(t, "\"" + y);
    EscapedDecodes(s, t, x, y);
  }

  lemma DigitFollows(m: Number, n: Number, x: string, y: string)
    requires m + x == n + y && |m| < |n|
    ensures x != "" && NumberChar(x[0])
  {
    assert (m + x)[|m|] == (n + y)[|m|] == n[|m|];
    assert (m + x)[|m|] == x[0];
  }

  lemma NumberEnds(m: Number, n: Number, x: string, y: string)
    requires m + x == n + y && Delimited(x) && |m| <= |n|
    ensures m == n && x == y
  {
    if |m| < |n| {
      DigitFollows(m, n, x, y);
    }
    assert (m + x)[..|m|] == m && (n + y)[..|n|] == n;
    assert (m + x)[|m|..] == x && (n + y)[|n|..] == y;
  }

  /** The first character tells what kind of value follows. */
  function Kind(v: Json): char {
    match v
    case Null => 'n'
    case NotFinite => 'n'
    case Bool(b) => if b then 't' else 'f'
    case Num(n) => '0'
    case Str(s) => '\"'
    case Arr(items) => '['
    case Obj(fields) => '{'
  }

  function KindOfChar(c: char): char {
    if c == '-' || '0' <= c <= '9' then '0' else c
  }

  lemma TextStarts(v: Json, tail: string)
    ensures TextThen(v, tail) != "" && KindOfChar(TextThen(v, tail)[0]) == Kind(v)
  {
    hide EscapedThen, ItemsThen, FieldsThen;
  }

  ghost predicate AllFinite(v: Json) {
    match v
    case NotFinite => false
    case Arr(items) => forall i :: 0 <= i < |items| ==> AllFinite(items[i])
    case Obj(fields) => forall i :: 0 <= i < |fields| ==> AllFinite(fields[i].value)
    case _ => true
  }

  lemma SamePrefix(p: string, x: string, y: string)
    requires p + x == p + y
    ensures x == y
  {
    assert (p + x)[|p|..] == x && (p + y)[|p|..] == y;
  }

  lemma {:induction false} TextDecodes(a: Json, b: Json, x: string, y: string)
    requires TextThen(a, x) == TextThen(b, y) && Delimited(x) && Delimited(y) && AllFinite(a) && AllFinite(b)
    ensures a == b && x == y
    decreases a, 2
  {
    hide AllFinite, EscapedThen, QuotedThen, ItemsThen, FieldsThen;
    TextStarts(a, x);
    TextStarts(b, y);
    if a.Arr? {
      SamePrefix("[", ItemsThen(a, 0, x), ItemsThen(b, 0, y));
      ItemsDecode(a, b, 0, x, y);
      assert a.items[0..] == a.items && b.items[0..] == b.items;
    } else if a.Obj? {
      SamePrefix("{", FieldsThen(a, 0, x), FieldsThen(b, 0, y));
      FieldsDecode(a, b, 0, x, y);
      assert a.fields[0..] == a.fields && b.fields[0..] == b.fields;
    } else if a.Str? {
      QuotedDecodes(a.s, b.s, x, y);
    } else if a.Num? {
      if |a.n| <= |b.n| {
        NumberEnds(a.n, b.n, x, y);
      } else {
        NumberEnds(b.n, a.n, y, x);
      }
    } else {
      AtomDecodes(a, b, x, y);
    }
  }

  lemma AtomDecodes(a: Json, b: Json, x: string, y: string)
    requires a.Null? || a.Bool? || a.NotFinite?
    requires TextThen(a, x) == TextThen(b, y) && Kind(a) == Kind(b) && AllFinite(a) && AllFinite(b)
    ensures a == b && x == y
  {
    var p := if a.Null? then "null" else if a.b then "true" else "false";
    SamePrefix(p, x, y);
  }

  lemma ItemsStart(v: Json, k: nat, tail: string)
    requires v.Arr? && k <= |v.items|
    ensures ItemsThen(v, k, tail) != ""
    ensures k == |v.items| ==> ItemsThen(v, k, tail)[0] == ']'
    ensures 0 < k < |v.items| ==> ItemsThen(v, k, tail)[0] == ','
    ensures k == 0 < |v.items| ==> ItemsThen(v, k, tail)[0] != ']'
  {
    hide TextThen;
    if k == 0 < |v.items| {
      TextStarts(v.items[0], ItemsThen(v, 1, tail));
      assert "" + TextThen(v.items[0], ItemsThen(v, 1, tail)) == TextThen(v.items[0], ItemsThen(v, 1, tail));
    }
  }

  lemma {:induction false} ItemsDecode(a: Json, b: Json, k: nat, x: string, y: string)
    requires a.Arr? && b.Arr? && k <= |a.items| && k <= |b.items| && AllFinite(a) && AllFinite(b)
    requires ItemsThen(a, k, x) == ItemsThen(b, k, y)
    ensures a.items[k..] == b.items[k..] && x == y
    decreases a, 1, |a.items| - k
  {
    hide TextThen;
    ItemsStart(a, k, x);
    ItemsStart(b, k, y);
    if k == |a.items| {
      SamePrefix("]", x, y);
    } else {
      var ra, rb := ItemsThen(a, k + 1, x), ItemsThen(b, k + 1, y);
      SamePrefix(if k > 0 then "," else "", TextThen(a.items[k], ra), TextThen(b.items[k], rb));
      ItemsStart(a, k + 1, x);
      ItemsStart(b, k + 1, y);
      TextDecodes(a.items[k], b.items[k], ra, rb);
      ItemsDecode(a, b, k + 1, x, y);
      assert a.items[k..] == [a.items[k]] + a.items[k + 1..];
      assert b.items[k..] == [b.items[k]] + b.items[k + 1..];
    }
  }

  lemma FieldsStart(v: Json, k: nat, tail: string)
    requires v.Obj? && k <= |v.fields|
    ensures FieldsThen(v, k, tail) != ""
    ensures k == |v.fields| ==> FieldsThen(v, k, tail)[0] == '}'
    ensures 0 < k < |v.fields| ==> FieldsThen(v, k, tail)[0] == ','
    ensures k == 0 < |v.fields| ==> FieldsThen(v, k, tail)[0] == '\"'
  {
    hide TextThen, EscapedThen;
  }

  lemma {:induction false} FieldsDecode(a: Json, b: Json, k: nat, x: string, y: string)
    requires a.Obj? && b.Obj? && k <= |a.fields| && k <= |b.fields| && AllFinite(a) && AllFinite(b)
    requires FieldsThen(a, k, x) == FieldsThen(b, k, y)
    ensures a.fields[k..] == b.fields[k..] && x == y
    decreases a, 1, |a.fields| - k
  {
    hide TextThen, QuotedThen;
    FieldsStart(a, k, x);
    FieldsStart(b, k, y);
    if k == |a.fields| {
      SamePrefix("}", x, y);
    } else {
      var f, g := a.fields[k], b.fields[k];
      var ra, rb := FieldsThen(a, k + 1, x), FieldsThen(b, k + 1, y);
      var ta, tb := TextThen(f.value, ra), TextThen(g.value, rb);
      SamePrefix(if k > 0 then "," else "", QuotedThen(f.key, ":" + ta), QuotedThen(g.key, ":" + tb));
      QuotedDecodes(f.key, g.key, ":" + ta, ":" + tb);
      SamePrefix(":", ta, tb);
      FieldsStart(a, k + 1, x);
      FieldsStart(b, k + 1, y);
      TextDecodes(f.value, g.value, ra, rb);
      FieldsDecode(a, b, k + 1, x, y);
      assert a.fields[k..] == [f] + a.fields[k + 1..];
      assert b.fields[k..] == [g] + b.fields[k + 1..];
    }
  }

  lemma {:induction false} CanonIsFinite(v: Json)
    ensures AllFinite(Canon(v))
    decreases v
  {
    match v
    case Arr(items) =>
      forall i | 0 <= i < |items| ensures AllFinite(Canon(items[i])) {
        CanonIsFinite(items[i]);
      }
    case Obj(fields) =>
      var sorted := Sort(fields);
      forall i | 0 <= i < |sorted| ensures AllFinite(Canon(v).fields[i].value) {
        InSort(fields, i);
        CanonIsFinite(sorted[i].value);
      }
    case _ =>
  }

  /** Equal texts are texts of equal canonical values. */
  lemma PrintDecodes(a: Json, b: Json)
    ensures Print(a) == Print(b) <==> Canon(a) == Canon(b)
  {
    hide *;
    PrintIsText(a, "");
    PrintIsText(b, "");
    assert Print(a) + "" == Print(a) && Print(b) + "" == Print(b);
    if Print(a) == Print(b) {
      CanonIsFinite(a);
      CanonIsFinite(b);
      NothingDelimits();
      TextDecodes(Canon(a), Canon(b), "", "");
    }
  }

  lemma NothingDelimits()
    ensures Delimited("")
  {
  }

  // ---------------------------------------------------------------------------------------
  // Canonical values and field order
  // ---------------------------------------------------------------------------------------

  function KeySet(fs: seq<Field>): set<string> {
    set i | 0 <= i < |fs| :: fs[i].key
  }

  lemma KeySetInit(fs: seq<Field>)
    requires fs != [] && DistinctKeys(fs)
    ensures KeySet(fs) == KeySet(fs[..|fs| - 1]) + {fs[|fs| - 1].key}
    ensures fs[|fs| - 1].key !in KeySet(fs[..|fs| - 1])
  {
    var init := fs[..|fs| - 1];
    forall k | k in KeySet(init) ensures k in KeySet(fs) {
      var i :| 0 <= i < |init| && init[i].key == k;
      assert fs[i].key == k;
    }
    assert fs[|fs| - 1].key in KeySet(fs);
  }

  lemma {:induction false} KeySetSize(fs: seq<Field>)
    requires DistinctKeys(fs)
    ensures |KeySet(fs)| == |fs|
  {
    if fs != [] {
      hide KeySet;
      KeySetInit(fs);
      KeySetSize(fs[..|fs| - 1]);
    }
  }

  lemma KeySetTail(fs: seq<Field>)
    requires fs != [] && DistinctKeys(fs)
    ensures KeySet(fs[1..]) == KeySet(fs) - {fs[0].key}
  {
    forall k | k in KeySet(fs) - {fs[0].key} ensures k in KeySet(fs[1..]) {
      var i :| 0 <= i < |fs| && fs[i].key == k;
      assert fs[1..][i - 1].key == k;
    }
    forall k | k in KeySet(fs[1..]) ensures k in KeySet(fs) && k != fs[0].key {
      var i :| 0 <= i < |fs[1..]| && fs[1..][i].key == k;
      assert fs[i + 1].key == k;
    }
  }

  lemma FirstIsLeast(p: seq<Field>, k: string)
    requires p != [] && Sorted(p) && k in KeySet(p)
    ensures !Less(k, p[0].key)
  {
    LessTotal(k, k);
    var i :| 0 <= i < |p| && p[i].key == k;
  }

  /** Sorted fields with the same distinct keys have them in the same places. */
  lemma {:induction false} SortedKeysAgree(p: seq<Field>, q: seq<Field>)
    requires Sorted(p) && Sorted(q) && DistinctKeys(p) && DistinctKeys(q) && KeySet(p) == KeySet(q)
    ensures |p| == |q| && forall i :: 0 <= i < |p| ==> p[i].key == q[i].key
  {
    hide KeySet, Less;
    KeySetSize(p);
    KeySetSize(q);
    if p != [] {
      HasFirstKey(p);
      HasFirstKey(q);
      FirstIsLeast(p, q[0].key);
      FirstIsLeast(q, p[0].key);
      LessTotal(p[0].key, q[0].key);
      KeySetTail(p);
      KeySetTail(q);
      SortedKeysAgree(p[1..], q[1..]);
      forall i | 0 <= i < |p| ensures p[i].key == q[i].key {
        if i > 0 {
          assert p[1..][i - 1].key == q[1..][i - 1].key;
        }
      }
    }
  }

  lemma HasFirstKey(p: seq<Field>)
    requires p != []
    ensures p[0].key in KeySet(p)
  {
  }

  lemma {:induction false} InsertSorts(f: Field, fs: seq<Field>)
    requires Sorted(fs)
    ensures Sorted(Insert(f, fs))
  {
    hide Less;
    if fs != [] {
      if Less(f.key, fs[0].key) {
        var r := [f] + fs;
        forall j | 0 < j < |r| ensures !Less(r[j].key, f.key) {
          LessTotal(f.key, fs[0].key);
          LessTotal(r[j].key, f.key);
          NotLessTransitive(f.key, fs[0].key, r[j].key);
        }
      } else {
        InsertSorts(f, fs[1..]);
        var tail := Insert(f, fs[1..]);
        SameElements(tail, fs[1..] + [f]);
        forall j | 0 <= j < |tail| ensures !Less(tail[j].key, fs[0].key) {
          assert tail[j] in tail;
          assert tail[j] in fs[1..] + [f];
        }
      }
    }
  }

  lemma NotLessTransitive(a: string, b: string, c: string)
    requires !Less(b, a) && !Less(c, b)
    ensures !Less(c, a)
  {
    LessTotal(a, b);
    LessTotal(b, c);
    if Less(c, a) {
      if a != b {
        LexTransitive(AllUnits(c), AllUnits(a), AllUnits(b));
      }
    }
  }

  lemma {:induction false} SortSorts(fs: seq<Field>)
    ensures Sorted(Sort(fs))
  {
    if fs != [] {
      SortSorts(fs[..|fs| - 1]);
      InsertSorts(fs[|fs| - 1], Sort(fs[..|fs| - 1]));
    }
  }

  /** Sorting keeps the set of keys and their distinctness. */
  lemma SortKeepsKeys(fs: seq<Field>)
    requires DistinctKeys(fs)
    ensures KeySet(Sort(fs)) == KeySet(fs) && DistinctKeys(Sort(fs)) && |Sort(fs)| == |fs|
  {
    var s := Sort(fs);
    SameElements(s, fs);
    forall k | k in KeySet(s) ensures k in KeySet(fs) {
      var i :| 0 <= i < |s| && s[i].key == k;
      assert s[i] in s;
    }
    forall k | k in KeySet(fs) ensures k in KeySet(s) {
      var i :| 0 <= i < |fs| && fs[i].key == k;
      assert fs[i] in fs;
    }
    forall i, j | 0 <= i < j < |s| ensures s[i].key != s[j].key {
      DistinctSort(fs, s, i, j);
    }
  }

  lemma DistinctSort(fs: seq<Field>, s: seq<Field>, i: nat, j: nat)
    requires DistinctKeys(fs) && multiset(s) == multiset(fs) && i < j < |s|
    ensures s[i].key != s[j].key
  {
    SameElements(s, fs);
    assert s[i] in fs && s[j] in fs;
    if s[i].key == s[j].key {
      var m :| 0 <= m < |fs| && fs[m] == s[i];
      var n :| 0 <= n < |fs| && fs[n] == s[j];
      assert m == n;
      TwiceInSeq(s, i, j);
      OnceInSeq(fs, m);
    }
  }

  lemma TwiceInSeq(s: seq<Field>, i: nat, j: nat)
    requires i < j < |s| && s[i] == s[j]
    ensures multiset(s)[s[i]] >= 2
  {
    assert s == s[..i] + [s[i]] + s[i + 1..j] + [s[j]] + s[j + 1..];
  }

  lemma OnceInSeq(fs: seq<Field>, m: nat)
    requires DistinctKeys(fs) && m < |fs|
    ensures multiset(fs)[fs[m]] <= 1
  {
    assert fs == fs[..m] + [fs[m]] + fs[m + 1..];
    assert fs[m] !in fs[..m] && fs[m] !in fs[m + 1..];
  }

  lemma SameKeysFromSame(x: seq<Field>, y: seq<Field>)
    requires |x| == |y| && DistinctKeys(x) && DistinctKeys(y)
    requires forall i :: 0 <= i < |x| ==> exists j :: 0 <= j < |y| && x[i].key == y[j].key
    ensures KeySet(x) == KeySet(y)
  {
    KeySetSize(x);
    KeySetSize(y);
    assert KeySet(x) <= KeySet(y);
    SubsetOfSameSize(KeySet(x), KeySet(y));
  }

  lemma SubsetOfSameSize(a: set<string>, b: set<string>)
    requires a <= b && |a| == |b|
    ensures a == b
  {
    assert |b - a| == |b| - |a|;
  }

  /** The canonical fields of `v` are its sorted fields with canonical values. */
  lemma CanonFields(v: Json, i: nat)
    requires v.Obj? && i < |v.fields|
    ensures |Sort(v.fields)| == |Canon(v).fields| == |v.fields|
    ensures Canon(v).fields[i] == Field(Sort(v.fields)[i].key, Canon(Sort(v.fields)[i].value))
  {
    SameElements(Sort(v.fields), v.fields);
  }

  /** The place of field `i` among the sorted fields. */
  lemma PlaceInSort(fs: seq<Field>, i: nat) returns (p: nat)
    requires i < |fs|
    ensures p < |Sort(fs)| && Sort(fs)[p] == fs[i]
  {
    SameElements(Sort(fs), fs);
    assert fs[i] in fs;
    p :| 0 <= p < |Sort(fs)| && Sort(fs)[p] == fs[i];
  }

  lemma PlaceFromSort(fs: seq<Field>, p: nat) returns (i: nat)
    requires p < |Sort(fs)|
    ensures i < |fs| && Sort(fs)[p] == fs[i]
  {
    InSort(fs, p);
    i :| 0 <= i < |fs| && fs[i] == Sort(fs)[p];
  }

  lemma {:induction false} SameImpliesCanon(a: Json, b: Json)
    requires Valid(a) && Valid(b) && Same(Plain(a), Plain(b))
    ensures Canon(a) == Canon(b)
    decreases a
  {
    if a.Arr? {
      forall i | 0 <= i < |a.items| ensures Canon(a.items[i]) == Canon(b.items[i]) {
        assert Same(Plain(a).items[i], Plain(b).items[i]);
        SameImpliesCanon(a.items[i], b.items[i]);
      }
      assert Canon(a).items == Canon(b).items;
    } else if a.Obj? {
      SameKeysOfObjects(a, b);
      forall p | 0 <= p < |a.fields|
        ensures Sort(a.fields)[p].key == Sort(b.fields)[p].key
        ensures Canon(Sort(a.fields)[p].value) == Canon(Sort(b.fields)[p].value)
      {
        var i, j := SameFieldAt(a, b, p);
        SameImpliesCanon(a.fields[i].value, b.fields[j].value);
      }
      SameCanonFields(a, b);
    }
  }

  lemma SameCanonFields(a: Json, b: Json)
    requires a.Obj? && b.Obj? && |a.fields| == |b.fields| == |Sort(a.fields)| == |Sort(b.fields)|
    requires forall p :: 0 <= p < |a.fields| ==> Sort(a.fields)[p].key == Sort(b.fields)[p].key
    requires forall p :: 0 <= p < |a.fields| ==> Canon(Sort(a.fields)[p].value) == Canon(Sort(b.fields)[p].value)
    ensures Canon(a) == Canon(b)
  {
    hide Sort, Canon;
    CanonSize(a);
    CanonSize(b);
    forall p | 0 <= p < |a.fields| ensures Canon(a).fields[p] == Canon(b).fields[p] {
      CanonFields(a, p);
      CanonFields(b, p);
    }
    assert Canon(a).fields == Canon(b).fields;
  }

  lemma CanonSize(v: Json)
    requires v.Obj?
    ensures Canon(v).Obj? && |Canon(v).fields| == |v.fields| == |Sort(v.fields)|
  {
    SameElements(Sort(v.fields), v.fields);
  }

  lemma SameKeysOfObjects(a: Json, b: Json)
    requires Valid(a) && Valid(b) && a.Obj? && Same(Plain(a), Plain(b))
    ensures b.Obj? && |a.fields| == |b.fields| && KeySet(a.fields) == KeySet(b.fields)
    ensures |Sort(a.fields)| == |Sort(b.fields)| == |a.fields|
    ensures forall p :: 0 <= p < |a.fields| ==> Sort(a.fields)[p].key == Sort(b.fields)[p].key
  {
    var x, y := a.fields, b.fields;
    forall i | 0 <= i < |x| ensures exists j :: 0 <= j < |y| && x[i].key == y[j].key {
      assert Plain(a).fields[i].key == x[i].key && FieldIn(Plain(a).fields[i], Plain(b).fields);
      var j :| 0 <= j < |y| && Plain(a).fields[i].key == Plain(b).fields[j].key;
      assert y[j].key == x[i].key;
    }
    SameKeysFromSame(x, y);
    SortKeepsKeys(x);
    SortKeepsKeys(y);
    SortSorts(x);
    SortSorts(y);
    SortedKeysAgree(Sort(x), Sort(y));
  }

  /** The fields that are sorted to place `p` in two equal objects have equal values. */
  lemma SameFieldAt(a: Json, b: Json, p: nat) returns (i: nat, j: nat)
    requires Valid(a) && Valid(b) && a.Obj? && b.Obj? && Same(Plain(a), Plain(b)) && |a.fields| == |b.fields|
    requires p < |Sort(a.fields)| == |Sort(b.fields)| && Sort(a.fields)[p].key == Sort(b.fields)[p].key
    ensures i < |a.fields| && j < |b.fields|
    ensures Sort(a.fields)[p] == a.fields[i] && Sort(b.fields)[p] == b.fields[j]
    ensures Same(Plain(a.fields[i].value), Plain(b.fields[j].value))
  {
    i := PlaceFromSort(a.fields, p);
    j := PlaceFromSort(b.fields, p);
    assert Plain(a).fields[i] == Field(a.fields[i].key, Plain(a.fields[i].value));
    assert FieldIn(Plain(a).fields[i], Plain(b).fields);
    var m :| 0 <= m < |b.fields| && Plain(a).fields[i].key == Plain(b).fields[m].key
             && Same(Plain(a).fields[i].value, Plain(b).fields[m].value);
    assert Plain(b).fields[m] == Field(b.fields[m].key, Plain(b.fields[m].value));
    assert m == j;
  }

  lemma {:induction false} CanonImpliesSame(a: Json, b: Json)
    requires Valid(a) && Valid(b) && Canon(a) == Canon(b)
    ensures Same(Plain(a), Plain(b))
    decreases a
  {
    if a.Arr? {
      forall i | 0 <= i < |a.items| ensures Same(Plain(a).items[i], Plain(b).items[i]) {
        assert Canon(a).items[i] == Canon(b).items[i];
        CanonImpliesSame(a.items[i], b.items[i]);
      }
    } else if a.Obj? {
      hide Same, Plain;
      CanonSize(a);
      CanonSize(b);
      forall i | 0 <= i < |a.fields| ensures MatchedIn(a.fields[i], b.fields) {
        var j := CounterpartField(a, b, i);
        CanonImpliesSame(a.fields[i].value, b.fields[j].value);
      }
      MatchedIsSame(a, b);
    }
  }

  ghost predicate MatchedIn(f: Field, fs: seq<Field>) {
    exists j :: 0 <= j < |fs| && f.key == fs[j].key && Same(Plain(f.value), Plain(fs[j].value))
  }

  lemma PlainField(v: Json, j: nat)
    requires v.Obj? && j < |v.fields|
    ensures Plain(v).Obj? && |Plain(v).fields| == |v.fields|
    ensures Plain(v).fields[j] == Field(v.fields[j].key, Plain(v.fields[j].value))
  {
  }

  lemma MatchedFieldIn(f: Field, v: Json)
    requires v.Obj? && MatchedIn(f, v.fields)
    ensures Plain(v).Obj? && FieldIn(Field(f.key, Plain(f.value)), Plain(v).fields)
  {
    hide Same, Plain;
    var j :| 0 <= j < |v.fields| && f.key == v.fields[j].key && Same(Plain(f.value), Plain(v.fields[j].value));
    PlainField(v, j);
  }

  lemma PlainSize(v: Json)
    requires v.Obj?
    ensures Plain(v).Obj? && |Plain(v).fields| == |v.fields| && Plain(v) == Obj(Plain(v).fields)
  {
  }

  lemma MatchedIsSame(a: Json, b: Json)
    requires a.Obj? && b.Obj? && |a.fields| == |b.fields|
    requires forall i :: 0 <= i < |a.fields| ==> MatchedIn(a.fields[i], b.fields)
    ensures Same(Plain(a), Plain(b))
  {
    hide Plain, FieldIn, MatchedIn;
    PlainSize(a);
    PlainSize(b);
    forall i | 0 <= i < |a.fields| ensures FieldIn(Plain(a).fields[i], Plain(b).fields) {
      MatchedFieldIn(a.fields[i], b);
      PlainField(a, i);
    }
  }

  lemma CounterpartField(a: Json, b: Json, i: nat) returns (j: nat)
    requires a.Obj? && b.Obj? && Canon(a) == Canon(b) && i < |a.fields| == |b.fields|
    ensures j < |b.fields| && a.fields[i].key == b.fields[j].key
    ensures Canon(a.fields[i].value) == Canon(b.fields[j].value) && b.fields[j] in b.fields
  {
    hide Sort, Canon;
    var p := PlaceInSort(a.fields, i);
    CanonSize(a);
    CanonSize(b);
    CanonFields(a, p);
    CanonFields(b, p);
    j := PlaceFromSort(b.fields, p);
  }

  /** Main result: two values print the same text exactly when they are the same up to field order,
      where a number that is not finite counts as null. */
  lemma PrintIsCanonical(a: Json, b: Json)
    requires Valid(a) && Valid(b)
    ensures Print(a) == Print(b) <==> Same(Plain(a), Plain(b))
  {
    hide *;
    PrintDecodes(a, b);
    if Canon(a) == Canon(b) {
      CanonImpliesSame(a, b);
    }
    if Same(Plain(a), Plain(b)) {
      SameImpliesCanon(a, b);
    }
  }

  /** Without numbers that are not finite nothing is lost on the way. */
  lemma {:induction false} PlainOfFinite(v: Json)
    requires AllFinite(v)
    ensures Plain(v) == v
    decreases v
  {
    match v
    case Arr(items) =>
      forall i | 0 <= i < |items| ensures Plain(items[i]) == items[i] {
        PlainOfFinite(items[i]);
      }
      assert Plain(v).items == items;
    case Obj(fields) =>
      forall i | 0 <= i < |fields| ensures Plain(v).fields[i] == fields[i] {
        PlainOfFinite(fields[i].value);
      }
      assert Plain(v).fields == fields;
    case _ =>
  }

  /** The condition is needed: an overflowing number and null are different values with one text. */
  lemma NotFinitePrintsAsNull()
    ensures Print(NotFinite) == Print(Null) && !Same(NotFinite, Null)
  {
  }
}
