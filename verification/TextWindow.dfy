// Reading a window of lines from a file that arrives in chunks (src/tools/read-text-window.ts:6-65).
module TextWindow {
  import opened Optional
  import opened OutputBudget
  import opened Utf8

  const NEWLINE: byte := 10

  // ----- lines of bytes ---------------------------------------------------------------------------------------

  // Splitting at every newline byte: one more part than there are newlines.
  function Split(b: seq<byte>): (r: seq<seq<byte>>)
    ensures r != []
  {
    if b == [] then [[]]
    else
      var before, last := Split(b[..|b| - 1]), b[|b| - 1];
      if last == NEWLINE then before + [[]]
      else Extend(before, [last])
  }

  function Prefix<T>(s: seq<T>, k: nat): seq<T> { if k <= |s| then s[..k] else s }

  // The part of a line that is kept, and whether that cuts it.
  datatype Line = Line(kept: seq<byte>, cut: bool)

  function CutLine(line: seq<byte>, maxBytes: nat): Line { Line(Prefix(line, maxBytes), |line| > maxBytes) }

  predicate InWindow(number: int, start: int, limit: int) { start <= number < start + limit }

  // The lines of the window, and the numbers of those that are cut; lines are numbered from one.
  function Window(lines: seq<seq<byte>>, start: int, limit: int, maxBytes: nat): seq<Line> {
    if lines == [] then []
    else
      Window(lines[..|lines| - 1], start, limit, maxBytes)
      + (if InWindow(|lines|, start, limit) then [CutLine(lines[|lines| - 1], maxBytes)] else [])
  }

  function CutNumbers(lines: seq<seq<byte>>, start: int, limit: int, maxBytes: nat): seq<int> {
    if lines == [] then []
    else
      CutNumbers(lines[..|lines| - 1], start, limit, maxBytes)
      + (if InWindow(|lines|, start, limit) && |lines[|lines| - 1]| > maxBytes then [|lines|] else [])
  }

  lemma {:induction false} WindowAt(lines: seq<seq<byte>>, start: int, limit: int, maxBytes: nat, k: nat)
    requires 1 <= start && k < |Window(lines, start, limit, maxBytes)|
    ensures start - 1 + k < |lines| && Window(lines, start, limit, maxBytes)[k] == CutLine(lines[start - 1 + k], maxBytes)
    ensures |Window(lines, start, limit, maxBytes)| <= limit
  {
    WindowSize(lines, start, limit, maxBytes);
    var front := lines[..|lines| - 1];
    WindowSize(front, start, limit, maxBytes);
    if k < |Window(front, start, limit, maxBytes)| { WindowAt(front, start, limit, maxBytes, k); }
  }

  // A window holds as many of the lines from its start as there are, up to its limit.
  lemma {:induction false} WindowSize(lines: seq<seq<byte>>, start: int, limit: int, maxBytes: nat)
    requires 1 <= start
    ensures |Window(lines, start, limit, maxBytes)| ==
      if limit <= 0 || |lines| < start then 0 else if |lines| < start + limit then |lines| - start + 1 else limit
  {
    if lines != [] { WindowSize(lines[..|lines| - 1], start, limit, maxBytes); }
  }

  // Line `n`, counted from one, is in the window and does not fit.
  predicate IsLong(lines: seq<seq<byte>>, start: int, limit: int, maxBytes: nat, n: int) {
    1 <= n <= |lines| && start <= n < start + limit && |lines[n - 1]| > maxBytes
  }

  // The numbers reported are, in rising order, those of the lines in the window that do not fit.
  lemma {:induction false} NumbersAreOfLongLines(lines: seq<seq<byte>>, start: int, limit: int, maxBytes: nat)
    ensures var ns := CutNumbers(lines, start, limit, maxBytes);
      && (forall n :: n in ns <==> IsLong(lines, start, limit, maxBytes, n))
      && (forall i, j :: 0 <= i < j < |ns| ==> ns[i] < ns[j])
  {
    if lines != [] {
      var front := lines[..|lines| - 1];
      var before := CutNumbers(front, start, limit, maxBytes);
      NumbersAreOfLongLines(front, start, limit, maxBytes);
      forall n ensures n != |lines| ==> (IsLong(lines, start, limit, maxBytes, n) <==> IsLong(front, start, limit, maxBytes, n)) { }
      assert forall i :: 0 <= i < |before| ==> before[i] in before;
    }
  }

  // More bytes for the last line.
  function Extend(lines: seq<seq<byte>>, segment: seq<byte>): (r: seq<seq<byte>>)
    requires lines != []
    ensures |r| == |lines| && r[..|r| - 1] == lines[..|lines| - 1] && r[|r| - 1] == lines[|lines| - 1] + segment
  {
    lines[..|lines| - 1] + [lines[|lines| - 1] + segment]
  }

  // ----- one segment without a newline ------------------------------------------------------------------------

  lemma SplitStep(b: seq<byte>, x: byte)
    requires x != NEWLINE
    ensures Split(b + [x]) == Extend(Split(b), [x])
  {
    hide Extend;
    assert (b + [x])[..|b|] == b;
  }

  lemma ExtendNothing(lines: seq<seq<byte>>)
    requires lines != []
    ensures Extend(lines, []) == lines
  {
    var n := |lines| - 1;
    assert lines[n] + [] == lines[n];
    assert lines == lines[..n] + [lines[n]];
  }

  lemma {:induction false} SplitSegment(b: seq<byte>, segment: seq<byte>)
    requires NEWLINE !in segment
    ensures Split(b + segment) == Extend(Split(b), segment)
  {
    hide Extend, Split;
    if segment == [] {
      assert b + segment == b;
      ExtendNothing(Split(b));
    } else {
      var front, last := segment[..|segment| - 1], segment[|segment| - 1];
      SplitSegment(b, front);
      SplitStep(b + front, last);
      ExtendTwice(Split(b), front, last);
      assert segment == front + [last];
      assert b + front + [last] == b + segment;
    }
  }

  lemma ExtendTwice(lines: seq<seq<byte>>, front: seq<byte>, last: byte)
    requires lines != []
    ensures Extend(Extend(lines, front), [last]) == Extend(lines, front + [last])
  {
    var n := |lines| - 1;
    assert lines[n] + front + [last] == lines[n] + (front + [last]);
  }

  lemma SplitNewline(b: seq<byte>)
    ensures Split(b + [NEWLINE]) == Split(b) + [[]]
  {
    assert (b + [NEWLINE])[..|b|] == b;
  }

  // ----- the reader ---------------------------------------------------------------------------------------------

  // What the reader holds: the finished lines of the window, and the kept beginning of the unfinished one.
  datatype Held = Held(done: seq<Line>, numbers: seq<int>, lineNumber: int, kept: seq<byte>, cut: bool)

  // This is what it has to hold after bytes whose lines are `lines`.
  ghost predicate Holds(lines: seq<seq<byte>>, start: int, limit: int, maxBytes: nat, h: Held) {
    && lines != [] && h.lineNumber == |lines|
    && h.done == Window(lines[..|lines| - 1], start, limit, maxBytes)
    && h.numbers == CutNumbers(lines[..|lines| - 1], start, limit, maxBytes)
    && Line(h.kept, h.cut) == if InWindow(|lines|, start, limit) then CutLine(lines[|lines| - 1], maxBytes) else Line([], false)
  }

  function Room(segment: seq<byte>, maxBytes: nat, kept: nat): (r: int)
    ensures r <= |segment|
  {
    if |segment| < maxBytes - kept then |segment| else maxBytes - kept
  }

  // A segment of the current line: the bytes that still fit are kept, and the line is cut if not all do.
  function KeepSegment(h: Held, segment: seq<byte>, start: int, limit: int, maxBytes: nat): Held {
    if !InWindow(h.lineNumber, start, limit) || |h.kept| > maxBytes then h
    else
      var size := Room(segment, maxBytes, |h.kept|);
      h.(kept := h.kept + segment[..size], cut := h.cut || size < |segment|)
  }

  lemma KeepStep(bytes: seq<byte>, segment: seq<byte>, start: int, limit: int, maxBytes: nat, h: Held)
    requires NEWLINE !in segment && Holds(Split(bytes), start, limit, maxBytes, h)
    ensures InWindow(h.lineNumber, start, limit) ==> |h.kept| <= maxBytes && 0 <= Room(segment, maxBytes, |h.kept|)
    ensures Holds(Split(bytes + segment), start, limit, maxBytes, KeepSegment(h, segment, start, limit, maxBytes))
  {
    SplitSegment(bytes, segment);
    CutExtends(Split(bytes)[|Split(bytes)| - 1], segment, maxBytes);
    hide Split, Window, CutNumbers, CutLine, Room;
  }

  lemma CutExtends(line: seq<byte>, segment: seq<byte>, maxBytes: nat)
    ensures var l := CutLine(line, maxBytes);
      var size := Room(segment, maxBytes, |l.kept|);
      && |l.kept| <= maxBytes && 0 <= size
      && CutLine(line + segment, maxBytes) == Line(l.kept + segment[..size], l.cut || size < |segment|)
  {
    if |line| <= maxBytes {
      assert Prefix(line + segment, maxBytes) == line + Prefix(segment, maxBytes - |line|);
    } else {
      assert (line + segment)[..maxBytes] == line[..maxBytes];
      assert line[..maxBytes] + segment[..0] == line[..maxBytes];
    }
  }

  class WindowReader {
    const start: int
    const limit: int
    const maxBytes: nat
    var done: seq<Line>
    var numbers: seq<int>
    var lineNumber: int
    var kept: seq<byte>
    var cut: bool
    ghost var bytes: seq<byte>

    function Contents(): Held
      reads this
    {
      Held(done, numbers, lineNumber, kept, cut)
    }

    // The state is the one that belongs to the bytes read so far, however they were cut into chunks.
    ghost predicate Valid()
      reads this
    {
      Holds(Split(bytes), start, limit, maxBytes, Contents())
    }

    constructor (start: int, limit: int, maxBytes: nat)
      ensures Valid() && bytes == []
      ensures this.start == start && this.limit == limit && this.maxBytes == maxBytes
    {
      this.start, this.limit, this.maxBytes := start, limit, maxBytes;
      done, numbers, lineNumber, kept, cut, bytes := [], [], 1, [], false, [];
    }

    method Keep(segment: seq<byte>)
      requires Valid() && NEWLINE !in segment
      modifies this
      ensures Valid() && bytes == old(bytes) + segment
    {
      KeepStep(bytes, segment, start, limit, maxBytes, Contents());
      hide Holds, Split, Room;
      bytes := bytes + segment;
      KeepBytes(segment);
    }

    method KeepBytes(segment: seq<byte>)
      requires InWindow(lineNumber, start, limit) ==> |kept| <= maxBytes && 0 <= Room(segment, maxBytes, |kept|)
      modifies this`kept, this`cut
      ensures Contents() == KeepSegment(old(Contents()), segment, start, limit, maxBytes)
    {
      hide Room;
      if lineNumber < start || lineNumber >= start + limit { return; }
      var size := Room(segment, maxBytes, |kept|);
      kept := kept + segment[..size];
      if size < |segment| { cut := true; }
    }

    method FinishLine()
      requires Valid()
      modifies this`done, this`numbers, this`kept, this`cut
      ensures done == Window(Split(bytes), start, limit, maxBytes)
      ensures numbers == CutNumbers(Split(bytes), start, limit, maxBytes)
      ensures kept == [] && !cut
    {
      if lineNumber >= start && lineNumber < start + limit {
        done := done + [Line(kept, cut)];
        if cut { numbers := numbers + [lineNumber]; }
      }
      kept := [];
      cut := false;
    }

    method Newline()
      requires Valid()
      modifies this
      ensures Valid() && bytes == old(bytes) + [NEWLINE]
    {
      FinishLine();
      SplitNewline(bytes);
      assert (Split(bytes) + [[]])[..|Split(bytes)|] == Split(bytes);
      bytes := bytes + [NEWLINE];
      lineNumber := lineNumber + 1;
    }

    method TakeChunk(chunk: seq<byte>)
      requires Valid()
      modifies this
      ensures Valid() && bytes == old(bytes) + chunk
    {
      hide Holds, Split;
      var position := 0;
      assert chunk[..0] == [] && bytes + [] == bytes;
      while true
        invariant 0 <= position <= |chunk|
        invariant Valid() && bytes == old(bytes) + chunk[..position]
        decreases |chunk| - position
      {
        var newline := IndexOf(chunk, NEWLINE, position);
        if newline < 0 {
          Keep(chunk[position..]);
          assert old(bytes) + chunk[..position] + chunk[position..] == old(bytes) + chunk;
          break;
        }
        Keep(chunk[position..newline]);
        Newline();
        assert old(bytes) + chunk[..position] + chunk[position..newline] + [NEWLINE] == old(bytes) + chunk[..newline + 1];
        position := newline + 1;
      }
    }
  }

  // `Buffer.prototype.indexOf`
  method IndexOf(b: seq<byte>, x: byte, from: nat) returns (r: int)
    requires from <= |b|
    ensures -1 <= r < |b| && (r >= 0 ==> from <= r && b[r] == x && x !in b[from..r])
    ensures r < 0 ==> x !in b[from..]
  {
    for i := from to |b|
      invariant x !in b[from..i]
    {
      if b[i] == x { return i; }
    }
    return -1;
  }

  function Flat(chunks: seq<seq<byte>>): seq<byte> {
    if chunks == [] then [] else Flat(chunks[..|chunks| - 1]) + chunks[|chunks| - 1]
  }

  predicate StartsWithBom(b: seq<byte>) { |b| >= 3 && b[0] == 0xef && b[1] == 0xbb && b[2] == 0xbf }

  datatype Result = Result(lines: seq<Line>, totalLines: int, hadBom: bool, truncatedLines: seq<int>)

  // The whole file at once.
  function ReadAll(b: seq<byte>, start: int, limit: int, maxBytes: nat): Result {
    Result(Window(Split(b), start, limit, maxBytes), |Split(b)|, StartsWithBom(b), CutNumbers(Split(b), start, limit, maxBytes))
  }

  // The file as it arrives: the mark is looked for in the first chunk alone.
  function ReadChunks(chunks: seq<seq<byte>>, start: int, limit: int, maxBytes: nat): Result {
    ReadAll(Flat(chunks), start, limit, maxBytes).(hadBom := chunks != [] && StartsWithBom(chunks[0]))
  }

  // The text of one line, when it is well formed.
  function LineText(l: Line): Option<string> { if l.cut then Some(DecodeSome(l.kept)) else Decode(l.kept) }

  // As it is returned: a byte order mark is dropped from the first line of the file.
  function Shown(l: Line, number: int, hadBom: bool): Option<string> {
    var text := LineText(l);
    if number == 1 && hadBom && text.Some? && text.value != "" then Some(text.value[1..]) else text
  }

  function Texts(r: Result, start: int): (texts: seq<Option<string>>)
    ensures |texts| == |r.lines| && forall k :: 0 <= k < |texts| ==> texts[k] == Shown(r.lines[k], start + k, r.hadBom)
  {
    seq(|r.lines|, k requires 0 <= k < |r.lines| => Shown(r.lines[k], start + k, r.hadBom))
  }

  method ReadTextWindow(chunks: seq<seq<byte>>, start: int, limit: int, maxBytes: nat)
    returns (r: Result, texts: seq<Option<string>>)
    ensures r == ReadChunks(chunks, start, limit, maxBytes) && texts == Texts(r, start)
  {
    var reader := new WindowReader(start, limit, maxBytes);
    var hadBom := false;
    for i := 0 to |chunks|
      invariant reader.Valid() && fresh(reader) && reader.bytes == Flat(chunks[..i])
      invariant reader.start == start && reader.limit == limit && reader.maxBytes == maxBytes
      invariant hadBom == (i > 0 && StartsWithBom(chunks[0]))
    {
      if i == 0 { hadBom := StartsWithBom(chunks[0]); }
      assert chunks[..i + 1][..i] == chunks[..i];
      reader.TakeChunk(chunks[i]);
    }
    assert chunks[..|chunks|] == chunks;
    reader.FinishLine();
    r := Result(reader.done, reader.lineNumber, hadBom, reader.numbers);
    texts := DecodeLines(r, start);
  }

  method DecodeLines(r: Result, start: int) returns (texts: seq<Option<string>>)
    ensures texts == Texts(r, start)
  {
    hide Shown;
    texts := [];
    for k := 0 to |r.lines|
      invariant |texts| == k && forall j :: 0 <= j < k ==> texts[j] == Shown(r.lines[j], start + j, r.hadBom)
    {
      texts := texts + [Shown(r.lines[k], start + k, r.hadBom)];
    }
  }

  // For every way of cutting a file into chunks the answer is that for the whole file, exactly when the
  // first chunk is long enough to hold a byte order mark or the file does not start with one.
  lemma ChunksDoNotMatterIff(chunks: seq<seq<byte>>, start: int, limit: int, maxBytes: nat)
    ensures ReadChunks(chunks, start, limit, maxBytes) == ReadAll(Flat(chunks), start, limit, maxBytes) <==>
      chunks == [] || |chunks[0]| >= 3 || !StartsWithBom(Flat(chunks))
    ensures ReadChunks(chunks, start, limit, maxBytes).(hadBom := false)
      == ReadAll(Flat(chunks), start, limit, maxBytes).(hadBom := false)
  {
    if chunks != [] { FlatStarts(chunks); }
  }

  // A mark that comes in two chunks is missed.
  lemma SplitMarkIsMissed(start: int, limit: int, maxBytes: nat)
    ensures !ReadChunks([[0xef], [0xbb, 0xbf]], start, limit, maxBytes).hadBom
    ensures ReadAll(Flat([[0xef], [0xbb, 0xbf]]), start, limit, maxBytes).hadBom
  {
    var chunks: seq<seq<byte>> := [[0xef], [0xbb, 0xbf]];
    assert chunks[..1] == [[0xef]] && [[0xef]][..0] == [];
    assert Flat(chunks[..1]) == [0xef];
    assert Flat(chunks) == [0xef, 0xbb, 0xbf];
  }

  lemma {:induction false} FlatStarts(chunks: seq<seq<byte>>)
    requires chunks != []
    ensures chunks[0] <= Flat(chunks)
  {
    if |chunks| > 1 {
      FlatStarts(chunks[..|chunks| - 1]);
    } else {
      assert chunks[..0] == [] && Flat(chunks) == [] + chunks[0];
    }
  }

  // ----- lines of text ----------------------------------------------------------------------------------------------

  function ExtendText(lines: seq<string>, c: char): (r: seq<string>)
    requires lines != []
    ensures |r| == |lines|
  {
    lines[..|lines| - 1] + [lines[|lines| - 1] + [c]]
  }

  function SplitText(s: string): (r: seq<string>)
    ensures r != []
  {
    if s == "" then [""]
    else
      var before, last := SplitText(s[..|s| - 1]), s[|s| - 1];
      if last == '\n' then before + [""]
      else ExtendText(before, last)
  }

  function EncodeAll(lines: seq<string>): (r: seq<seq<byte>>)
    ensures |r| == |lines| && forall i :: 0 <= i < |r| ==> r[i] == Encode(lines[i])
  {
    seq(|lines|, i requires 0 <= i < |lines| => Encode(lines[i]))
  }

  lemma NewlineBytes(c: char)
    ensures NEWLINE in EncodeChar(c) <==> c == '\n'
    ensures EncodeChar('\n') == [NEWLINE]
  {
    assert forall i :: 0 <= i < |EncodeChar(c)| ==> EncodeChar(c)[i] == NEWLINE ==> c == '\n';
    if c == '\n' { assert EncodeChar(c)[0] == NEWLINE; }
  }

  lemma EncodeSnoc(front: string, c: char)
    ensures Encode(front + [c]) == Encode(front) + EncodeChar(c)
  {
    EncodeAppend(front, [c]);
    assert Encode([c]) == EncodeChar(c) + Encode([]);
  }

  lemma TextStep(front: string, c: char)
    ensures SplitText(front + [c]) == if c == '\n' then SplitText(front) + [""] else ExtendText(SplitText(front), c)
  {
    assert (front + [c])[..|front|] == front;
  }

  lemma EncodeExtended(lines: seq<string>, c: char)
    requires lines != []
    ensures EncodeAll(ExtendText(lines, c)) == Extend(EncodeAll(lines), EncodeChar(c))
    ensures EncodeAll(lines + [""]) == EncodeAll(lines) + [[]]
  {
    hide EncodeChar;
    var n := |lines| - 1;
    EncodeSnoc(lines[n], c);
    var r := Extend(EncodeAll(lines), EncodeChar(c));
    assert forall i :: 0 <= i < n ==> r[i] == r[..n][i] == EncodeAll(lines)[i];
  }

  // In UTF-8 a newline byte is always a newline character: splitting the bytes splits the text.
  lemma {:induction false} SplitOfText(s: string)
    ensures Split(Encode(s)) == EncodeAll(SplitText(s))
  {
    hide Encode, Split, SplitText, EncodeAll;
    if s == "" {
      SplitOfEmpty();
    } else {
      var front, c := s[..|s| - 1], s[|s| - 1];
      SplitOfText(front);
      SplitOfSnoc(front, c);
      assert front + [c] == s;
    }
  }

  lemma SplitOfEmpty()
    ensures Split(Encode("")) == EncodeAll(SplitText(""))
  {
    assert EncodeAll(SplitText("")) == [[]];
  }

  lemma SplitOfSnoc(front: string, c: char)
    requires Split(Encode(front)) == EncodeAll(SplitText(front))
    ensures Split(Encode(front + [c])) == EncodeAll(SplitText(front + [c]))
  {
    hide EncodeChar, Encode, Split, SplitText, Extend, ExtendText, EncodeAll;
    EncodeSnoc(front, c);
    NewlineBytes(c);
    TextStep(front, c);
    EncodeExtended(SplitText(front), c);
    if c == '\n' {
      SplitNewline(Encode(front));
    } else {
      SplitSegment(Encode(front), EncodeChar(c));
    }
  }

  // The characters that are complete, as the decoder writes them before it is ended.
  function DecodeSome(b: seq<byte>): string
    decreases |b|
  {
    if b == [] || DecodeFirst(b).None? then ""
    else [DecodeFirst(b).value.0] + DecodeSome(b[DecodeFirst(b).value.1..])
  }

  lemma ProperPrefixFails(c: char, j: nat)
    requires 0 < j < |EncodeChar(c)|
    ensures DecodeFirst(EncodeChar(c)[..j]).None?
  {
  }

  lemma DecodeSomeStep(c: char, b: seq<byte>)
    ensures DecodeSome(EncodeChar(c) + b) == [c] + DecodeSome(b)
  {
    hide EncodeChar, DecodeFirst;
    DecodeFirstOfChar(c, b);
    assert (EncodeChar(c) + b)[|EncodeChar(c)|..] == b;
  }

  lemma Assoc(a: seq<byte>, b: seq<byte>, c: seq<byte>)
    ensures a + b + c == a + (b + c)
  {
  }

  lemma {:induction false} DecodeSomeOf(t: string, rest: seq<byte>)
    ensures DecodeSome(Encode(t) + rest) == t + DecodeSome(rest)
  {
    hide EncodeChar, DecodeFirst, DecodeSome;
    if t == "" {
      assert Encode(t) + rest == rest;
    } else {
      DecodeSomeOf(t[1..], rest);
      DecodeSomeStep(t[0], Encode(t[1..]) + rest);
      Assoc(EncodeChar(t[0]), Encode(t[1..]), rest);
      assert [t[0]] + (t[1..] + DecodeSome(rest)) == t + DecodeSome(rest);
    }
  }

  // A cut line reads as its longest prefix of whole characters.
  lemma CutText(t: string, maxBytes: nat)
    ensures DecodeSome(Prefix(Encode(t), maxBytes)) == Head(t, maxBytes)
  {
    hide EncodeChar, DecodeFirst, Decode;
    var k := FitPrefix(t, maxBytes, |t|);
    WholeOffset(t);
    if |Encode(t)| <= maxBytes {
      DecodeSomeOf(t, []);
      assert Encode(t) + [] == Encode(t);
      assert k == |t|;
    } else {
      EncodeSplit(t, k);
      var rest := Encode(t)[..maxBytes][Offset(t, k)..];
      assert Encode(t)[..maxBytes] == Encode(t[..k]) + rest;
      DecodeSomeOf(t[..k], rest);
      PartialFails(t, k, maxBytes);
    }
  }

  lemma PartialFails(t: string, k: nat, m: nat)
    requires k < |t| && Offset(t, k) <= m < Offset(t, k + 1) && m <= |Encode(t)|
    ensures DecodeSome(Encode(t)[..m][Offset(t, k)..]) == ""
  {
    hide EncodeChar, DecodeFirst, Decode;
    EncodeSplit(t, k);
    OffsetStep(t, k);
    var c, j := t[k], m - Offset(t, k);
    assert Encode(t[k..]) == EncodeChar(c) + Encode(t[k..][1..]);
    assert Encode(t)[..m][Offset(t, k)..] == Encode(t[k..])[..j] == EncodeChar(c)[..j];
    if j > 0 { ProperPrefixFails(c, j); }
  }

  lemma BomOfText(s: string)
    ensures StartsWithBom(Encode(s)) <==> s != "" && s[0] == '\U{feff}'
  {
    if s != "" {
      DecodeFirstOfChar(s[0], Encode(s[1..]));
      if s[0] == '\U{feff}' {
        assert EncodeChar(s[0]) == [0xef, 0xbb, 0xbf];
      }
    }
  }

  const MARK := '\U{feff}'

  predicate IsMarked(s: string) { s != "" && s[0] == MARK }

  function Unmarked(s: string): string { if IsMarked(s) then s[1..] else s }

  // Line `number` of the text without its mark. The mark takes three of the bytes that line one may have.
  function TextLine(s: string, number: int, maxBytes: nat): string
    requires 1 <= number <= |SplitText(Unmarked(s))|
  {
    Head(SplitText(Unmarked(s))[number - 1], if number == 1 && IsMarked(s) then maxBytes - 3 else maxBytes)
  }

  // The mark belongs to the first line and to nothing else.
  lemma {:induction false} SplitOfMarked(s: string)
    requires s != "" && s[0] != '\n'
    ensures |SplitText(s)| == |SplitText(s[1..])|
    ensures SplitText(s)[0] == [s[0]] + SplitText(s[1..])[0]
    ensures forall i :: 1 <= i < |SplitText(s)| ==> SplitText(s)[i] == SplitText(s[1..])[i]
  {
    hide SplitText, ExtendText;
    if |s| == 1 {
      SplitOneCharacter(s[0]);
      assert s[1..] == "" && s == [s[0]];
    } else {
      var front, c := s[..|s| - 1], s[|s| - 1];
      SplitOfMarked(front);
      assert front[1..] + [c] == s[1..] && front + [c] == s;
      MarkedStep(front, c);
    }
  }

  lemma SplitOneCharacter(c: char)
    requires c != '\n'
    ensures SplitText([c]) == [[c]] && SplitText("") == [""]
  {
    TextStep("", c);
    assert "" + [c] == [c];
  }

  lemma MarkedStep(front: string, c: char)
    requires front != "" && |SplitText(front)| == |SplitText(front[1..])|
    requires SplitText(front)[0] == [front[0]] + SplitText(front[1..])[0]
    requires forall i :: 1 <= i < |SplitText(front)| ==> SplitText(front)[i] == SplitText(front[1..])[i]
    ensures var a, b := SplitText(front + [c]), SplitText(front[1..] + [c]);
      && |a| == |b| && a[0] == [front[0]] + b[0]
      && forall i :: 1 <= i < |a| ==> a[i] == b[i]
  {
    hide SplitText;
    TextStep(front, c);
    TextStep(front[1..], c);
    assert [front[0]] + SplitText(front[1..])[0] + [c] == [front[0]] + (SplitText(front[1..])[0] + [c]);
  }

  // A line that starts with the mark is cut to the mark and what the other bytes hold.
  lemma HeadOfMarked(t: string, maxBytes: int)
    ensures var h := Head([MARK] + t, maxBytes);
      (if h == "" then "" else h[1..]) == Head(t, maxBytes - 3)
  {
    hide EncodeChar, Encode, Head, Bytes;
    var s := [MARK] + t;
    var h, g := Head(s, maxBytes), Head(t, maxBytes - 3);
    HeadAndTailAreLongest(s, maxBytes, 0);
    HeadAndTailAreLongest(t, maxBytes - 3, 0);
    if h != "" {
      MarkedPrefix(t, h);
      MarkBytes(h[1..]);
    }
    if maxBytes >= 3 {
      MarkBytes(g);
      MarkedPrefix(t, [MARK] + g);
      HeadAndTailAreLongest(s, maxBytes, |g| + 1);
      HeadAndTailAreLongest(t, maxBytes - 3, |h| - 1);
      assert h[1..] == t[..|h| - 1] == g;
    } else {
      BytesOfEmpty(g);
    }
  }

  lemma MarkedPrefix(t: string, h: string)
    requires h != "" && h <= [MARK] + t
    ensures |h| <= |t| + 1 && h == ([MARK] + t)[..|h|] && h == [MARK] + h[1..] && h[1..] == t[..|h| - 1]
  {
  }

  lemma MarkBytes(t: string)
    ensures Bytes([MARK] + t) == 3 + Bytes(t)
  {
    EncodeAppend([MARK], t);
    assert Encode([MARK]) == EncodeChar(MARK) + Encode([]);
    assert EncodeChar(MARK) == [0xef, 0xbb, 0xbf];
  }

  lemma BytesOfEmpty(g: string)
    ensures Bytes(g) == 0 <==> g == ""
  {
    if g != "" { hide Encode; EncodeAppend(g[..1], g[1..]); OneCharacter(g[0]); assert g == g[..1] + g[1..]; }
  }

  lemma OneCharacter(c: char)
    ensures |Encode([c])| > 0
  {
    assert Encode([c]) == EncodeChar(c) + Encode([]);
  }

  // Reading a text: what is returned for line `start + k` is that line of the text without its mark, cut to
  // the longest prefix of whole characters within the byte limit, and marked as cut exactly when it is longer.
  lemma ReadsText(s: string, start: int, limit: int, maxBytes: nat, k: nat)
    requires 1 <= start && k < |ReadAll(Encode(s), start, limit, maxBytes).lines|
    ensures var r := ReadAll(Encode(s), start, limit, maxBytes);
      && r.totalLines == |SplitText(s)| == |SplitText(Unmarked(s))| && start + k <= |SplitText(s)|
      && Shown(r.lines[k], start + k, r.hadBom) == Some(TextLine(s, start + k, maxBytes))
      && (r.lines[k].cut <==> Bytes(SplitText(s)[start - 1 + k]) > maxBytes)
      && (r.hadBom <==> IsMarked(s))
  {
    hide EncodeChar, DecodeFirst, Decode, StartsWithBom, Head, Encode, Split, SplitText, Window, CutLine, LineText, DecodeSome;
    SplitOfText(s);
    BomOfText(s);
    WindowAt(Split(Encode(s)), start, limit, maxBytes, k);
    LineReads(SplitText(s)[start - 1 + k], maxBytes);
    if IsMarked(s) {
      SplitOfMarked(s);
      HeadOfMarked(SplitText(Unmarked(s))[0], maxBytes);
    }
  }

  lemma LineReads(line: string, maxBytes: nat)
    ensures var l := CutLine(Encode(line), maxBytes);
      LineText(l) == Some(Head(line, maxBytes)) && (l.cut <==> Bytes(line) > maxBytes)
  {
    hide Encode, Head;
    assert Encode(line)[..|Encode(line)|] == Encode(line);
    CutText(line, maxBytes);
    DecodeEncode(line);
    HeadAndTailAreLongest(line, maxBytes, 0);
  }
}
