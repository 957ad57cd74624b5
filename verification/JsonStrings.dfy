/** A reader of JSON string literals, as RFC 8259 section 7 has them, and what it reads from a printed string. */
module JsonStrings {
  import opened CanonicalJson
  import opened Optional

  function HexValue(c: char): int {
    if '0' <= c <= '9' then c as int - '0' as int
    else if 'a' <= c <= 'f' then c as int - 'a' as int + 10
    else if 'A' <= c <= 'F' then c as int - 'A' as int + 10
    else -1
  }

  predicate FourHex(s: string) {
    |s| >= 4 && HexValue(s[0]) >= 0 && HexValue(s[1]) >= 0 && HexValue(s[2]) >= 0 && HexValue(s[3]) >= 0
  }

  /** The character that an escape stands for, and the length of the escape; pairs of `\u` escapes are not read. */
  function ReadEscape(s: string): (r: Option<(char, nat)>)
    requires s != "" && s[0] == '\\'
    ensures r.Some? ==> 2 <= r.value.1 <= |s|
  {
    if |s| < 2 then None
    else if s[1] in "\"\\/" then Some((s[1], 2))
    else if s[1] == 'b' then Some((8 as char, 2))
    else if s[1] == 'f' then Some((12 as char, 2))
    else if s[1] == 'n' then Some((10 as char, 2))
    else if s[1] == 'r' then Some((13 as char, 2))
    else if s[1] == 't' then Some((9 as char, 2))
    else if s[1] == 'u' && FourHex(s[2..]) then
      var n := HexValue(s[2]) * 4096 + HexValue(s[3]) * 256 + HexValue(s[4]) * 16 + HexValue(s[5]);
      if n < 0xd800 || 0xe000 <= n < 0x10000 then Some((n as char, 6)) else None
    else None
  }

  /** What a string literal stands for whose opening quote has been read, and the text behind it. */
  function ReadString(s: string): Option<(string, string)>
    decreases |s|
  {
    if s == "" || s[0] as int < 32 then None
    else if s[0] == '\"' then Some(("", s[1..]))
    else if s[0] == '\\' then
      var e := ReadEscape(s);
      if e.None? then None else AddChar(e.value.0, ReadString(s[e.value.1..]))
    else AddChar(s[0], ReadString(s[1..]))
  }

  function AddChar(c: char, r: Option<(string, string)>): Option<(string, string)> {
    if r.None? then None else Some(([c] + r.value.0, r.value.1))
  }

  lemma HexIsRead(n: int)
    requires 0 <= n < 16
    ensures HexValue(HexDigit(n)) == n
  {
  }

  lemma EscapeIsRead(c: char, rest: string)
    ensures var s := EscapeChar(c) + rest;
            && s[|EscapeChar(c)|..] == rest
            && (if s[0] == '\\' then ReadEscape(s) == Some((c, |EscapeChar(c)|))
                else s[0] == c && c != '\"' && c as int >= 32 && |EscapeChar(c)| == 1)
  {
    var e, n := EscapeChar(c), c as int;
    var s := e + rest;
    assert forall i :: 0 <= i < |e| ==> s[i] == e[i];
    if |e| == 6 {
      HexIsRead(n / 16);
      HexIsRead(n % 16);
      HexIsRead(0);
      assert s[2..][0] == s[2] && s[2..][1] == s[3] && s[2..][2] == s[4] && s[2..][3] == s[5];
    }
  }

  lemma {:induction false} EscapedIsRead(s: string, tail: string)
    ensures ReadString(EscapedThen(s, "\"" + tail)) == Some((s, tail))
  {
    hide ReadEscape, EscapeChar;
    if s == "" {
      assert ("\"" + tail)[1..] == tail;
    } else {
      EscapeIsRead(s[0], EscapedThen(s[1..], "\"" + tail));
      EscapedIsRead(s[1..], tail);
      assert [s[0]] + s[1..] == s;
    }
  }

  /** A printed string is a literal that stands for that string. */
  lemma QuotedIsRead(s: string, tail: string)
    ensures QuotedThen(s, tail) != "" && QuotedThen(s, tail)[0] == '\"'
    ensures ReadString(QuotedThen(s, tail)[1..]) == Some((s, tail))
  {
    EscapedIsRead(s, tail);
    assert QuotedThen(s, tail)[1..] == EscapedThen(s, "\"" + tail);
  }
}
