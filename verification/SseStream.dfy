// Normalizing a streamed chat response (src/llm/llm-sse.ts:34-146). Bytes are decoded before and encoded
// after what is modelled here; reading the JSON of a line is a parameter.
module SseStream {
  import opened Optional
  import TextWindow

  // ----- lines across chunks ------------------------------------------------------------------------------------

  function StripReturn(line: string): string {
    if line != "" && line[|line| - 1] == '\r' then line[..|line| - 1] else line
  }

  function StripAll(lines: seq<string>): (r: seq<string>)
    ensures |r| == |lines|
  {
    if lines == [] then [] else StripAll(lines[..|lines| - 1]) + [StripReturn(lines[|lines| - 1])]
  }

  function Init(lines: seq<string>): seq<string>
    requires lines != []
  {
    lines[..|lines| - 1]
  }

  function Last(lines: seq<string>): string
    requires lines != []
  {
    lines[|lines| - 1]
  }

  // The lines of a whole response: ended by a newline with or without a carriage return, and what is left
  // at the end if it is not empty.
  function Lines(text: string): seq<string> {
    var parts := TextWindow.SplitText(text);
    StripAll(Init(parts)) + if Last(parts) == "" then [] else [Last(parts)]
  }

  lemma {:induction false} StripJoins(a: seq<string>, b: seq<string>)
    ensures StripAll(a + b) == StripAll(a) + StripAll(b)
  {
    if b == [] {
      assert a + b == a;
    } else {
      StripJoins(a, b[..|b| - 1]);
      assert (a + b)[..|a + b| - 1] == a + b[..|b| - 1];
    }
  }

  // More text is split from the unfinished line on.
  lemma {:induction false} SplitMore(a: string, b: string)
    ensures TextWindow.SplitText(a + b)
      == Init(TextWindow.SplitText(a)) + TextWindow.SplitText(Last(TextWindow.SplitText(a)) + b)
  {
    hide TextWindow.SplitText, Init, Last;
    if b == "" {
      SplitNoMore(a);
      assert a + b == a;
    } else {
      var front, c := b[..|b| - 1], b[|b| - 1];
      SplitMore(a, front);
      SplitOneMore(a, front, c);
      assert front + [c] == b;
    }
  }

  lemma SplitNoMore(a: string)
    ensures TextWindow.SplitText(a)
      == Init(TextWindow.SplitText(a)) + TextWindow.SplitText(Last(TextWindow.SplitText(a)) + "")
  {
    assert Last(TextWindow.SplitText(a)) + "" == Last(TextWindow.SplitText(a));
    LastIsOneLine(a);
  }

  lemma SplitOneMore(a: string, front: string, c: char)
    requires TextWindow.SplitText(a + front)
      == Init(TextWindow.SplitText(a)) + TextWindow.SplitText(Last(TextWindow.SplitText(a)) + front)
    ensures TextWindow.SplitText(a + (front + [c]))
      == Init(TextWindow.SplitText(a)) + TextWindow.SplitText(Last(TextWindow.SplitText(a)) + (front + [c]))
  {
    hide TextWindow.SplitText, TextWindow.ExtendText, Init, Last;
    var s := TextWindow.SplitText(a);
    assert a + (front + [c]) == a + front + [c];
    assert Last(s) + (front + [c]) == Last(s) + front + [c];
    TextWindow.TextStep(a + front, c);
    TextWindow.TextStep(Last(s) + front, c);
    ExtendJoined(Init(s), TextWindow.SplitText(Last(s) + front), c);
  }

  lemma ExtendJoined(a: seq<string>, b: seq<string>, c: char)
    requires b != []
    ensures TextWindow.ExtendText(a + b, c) == a + TextWindow.ExtendText(b, c)
    ensures a + b + [""] == a + (b + [""])
  {
  }

  // The unfinished line holds no newline: splitting it gives itself.
  lemma {:induction false} LastIsOneLine(a: string)
    ensures TextWindow.SplitText(Last(TextWindow.SplitText(a))) == [Last(TextWindow.SplitText(a))]
    ensures Init(TextWindow.SplitText(a)) + [Last(TextWindow.SplitText(a))] == TextWindow.SplitText(a)
  {
    if a != "" {
      var front, c := a[..|a| - 1], a[|a| - 1];
      LastIsOneLine(front);
      assert a == front + [c];
      TextWindow.TextStep(front, c);
      if c != '\n' { TextWindow.TextStep(Last(TextWindow.SplitText(front)), c); }
    }
  }

  function Flat(chunks: seq<string>): string {
    if chunks == [] then "" else Flat(chunks[..|chunks| - 1]) + chunks[|chunks| - 1]
  }

  method StripEach(parts: seq<string>) returns (lines: seq<string>)
    ensures lines == StripAll(parts)
  {
    lines := [];
    for k := 0 to |parts|
      invariant lines == StripAll(parts[..k])
    {
      assert parts[..k + 1][..k] == parts[..k];
      lines := lines + [StripReturn(parts[k])];
    }
    assert parts[..|parts|] == parts;
  }

  // However a response is cut into chunks, the lines handed on are those of the whole text.
  method LinesOfChunks(chunks: seq<string>) returns (lines: seq<string>)
    ensures lines == Lines(Flat(chunks))
  {
    lines := [];
    var buffer := "";
    for i := 0 to |chunks|
      invariant Received(Flat(chunks[..i]), lines, buffer)
    {
      assert chunks[..i + 1][..i] == chunks[..i];
      ReceiveStep(Flat(chunks[..i]), lines, buffer, chunks[i]);
      var parts := TextWindow.SplitText(buffer + chunks[i]);
      buffer := parts[|parts| - 1];
      var stripped := StripEach(parts[..|parts| - 1]);
      lines := lines + stripped;
    }
    assert chunks[..|chunks|] == chunks;
    if buffer != "" { lines := lines + [buffer]; }
  }

  // All finished lines have been handed on, and the unfinished one is held back.
  ghost predicate Received(text: string, lines: seq<string>, buffer: string) {
    var parts := TextWindow.SplitText(text);
    lines == StripAll(Init(parts)) && buffer == Last(parts)
  }

  lemma ReceiveStep(text: string, lines: seq<string>, buffer: string, chunk: string)
    requires Received(text, lines, buffer)
    ensures var parts := TextWindow.SplitText(buffer + chunk);
      Received(text + chunk, lines + StripAll(Init(parts)), Last(parts))
  {
    SplitMore(text, chunk);
    var s, t := TextWindow.SplitText(text), TextWindow.SplitText(buffer + chunk);
    assert Init(Init(s) + t) == Init(s) + Init(t);
    StripJoins(Init(s), Init(t));
  }

  lemma {:induction false} FlatJoins(a: seq<string>, b: seq<string>)
    ensures Flat(a + b) == Flat(a) + Flat(b)
    ensures |a| == 1 ==> Flat(a) == a[0]
  {
    if |a| == 1 { assert a[..0] == [] && "" + a[0] == a[0]; }
    if b == [] {
      assert a + b == a;
    } else {
      FlatJoins(a, b[..|b| - 1]);
      assert (a + b)[..|a + b| - 1] == a + b[..|b| - 1];
      assert Flat(a) + (Flat(b[..|b| - 1]) + b[|b| - 1]) == Flat(a) + Flat(b[..|b| - 1]) + b[|b| - 1];
    }
  }

  // Lines and their ends put together.
  function Glued(lines: seq<string>, ends: seq<string>): string
    requires |lines| == |ends|
  {
    if lines == [] then ""
    else Glued(lines[..|lines| - 1], ends[..|ends| - 1]) + lines[|lines| - 1] + ends[|ends| - 1]
  }

  predicate NoNewline(line: string) { '\n' !in line }

  predicate EndsInReturn(line: string) { line != "" && line[|line| - 1] == '\r' }

  // The text is these lines with these ends, and an unfinished line.
  ghost predicate Consists(text: string, lines: seq<string>, ends: seq<string>, tail: string) {
    && |lines| == |ends| && text == Glued(lines, ends) + tail && NoNewline(tail)
    && forall k :: 0 <= k < |lines| ==>
         NoNewline(lines[k]) && (ends[k] == "\r\n" || (ends[k] == "\n" && !EndsInReturn(lines[k])))
  }

  lemma GluedOneMore(lines: seq<string>, ends: seq<string>, line: string, end: string)
    requires |lines| == |ends|
    ensures Glued(lines + [line], ends + [end]) == Glued(lines, ends) + line + end
  {
    assert (lines + [line])[..|lines|] == lines && (ends + [end])[..|ends|] == ends;
  }

  lemma OneMoreCharacter(text: string, lines: seq<string>, ends: seq<string>, tail: string, c: char)
    requires Consists(text, lines, ends, tail)
    ensures c != '\n' ==> Consists(text + [c], lines, ends, tail + [c])
    ensures c == '\n' ==>
      Consists(text + [c], lines + [StripReturn(tail)], ends + [if EndsInReturn(tail) then "\r\n" else "\n"], "")
  {
    if c == '\n' {
      var end := if EndsInReturn(tail) then "\r\n" else "\n";
      GluedOneMore(lines, ends, StripReturn(tail), end);
      assert StripReturn(tail) + end == tail + [c];
      assert Glued(lines, ends) + StripReturn(tail) + end == Glued(lines, ends) + (tail + [c]);
    } else {
      assert Glued(lines, ends) + (tail + [c]) == Glued(lines, ends) + tail + [c];
    }
  }

  lemma StripOneMore(parts: seq<string>, part: string)
    ensures StripAll(parts + [part]) == StripAll(parts) + [StripReturn(part)]
  {
    assert (parts + [part])[..|parts|] == parts;
  }

  ghost predicate SplitFits(text: string, ends: seq<string>) {
    var parts := TextWindow.SplitText(text);
    Consists(text, StripAll(Init(parts)), ends, Last(parts))
  }

  lemma InitOfExtended(parts: seq<string>, c: char)
    requires parts != []
    ensures Init(TextWindow.ExtendText(parts, c)) == Init(parts) && Last(TextWindow.ExtendText(parts, c)) == Last(parts) + [c]
    ensures Init(parts + [""]) == parts == Init(parts) + [Last(parts)] && Last(parts + [""]) == ""
  {
  }

  lemma OneMoreFits(front: string, c: char, before: seq<string>)
    requires SplitFits(front, before)
    ensures var last := Last(TextWindow.SplitText(front));
      SplitFits(front + [c], if c == '\n' then before + [if EndsInReturn(last) then "\r\n" else "\n"] else before)
  {
    hide TextWindow.SplitText, TextWindow.ExtendText, StripAll, Consists, StripReturn, Init, Last, EndsInReturn;
    var parts := TextWindow.SplitText(front);
    TextWindow.TextStep(front, c);
    InitOfExtended(parts, c);
    OneMoreCharacter(front, StripAll(Init(parts)), before, Last(parts), c);
    StripOneMore(Init(parts), Last(parts));
  }

  lemma {:induction false} SplitConsists(text: string) returns (ends: seq<string>)
    ensures SplitFits(text, ends)
  {
    if text == "" {
      ends := [];
    } else {
      hide SplitFits;
      var front, c := text[..|text| - 1], text[|text| - 1];
      var before := SplitConsists(front);
      assert text == front + [c];
      OneMoreFits(front, c, before);
      ends := if c == '\n' then before + [if EndsInReturn(Last(TextWindow.SplitText(front))) then "\r\n" else "\n"] else before;
    }
  }

  // The lines handed on and their ends, a newline with a carriage return before it or without, make up the text;
  // no line holds a newline, and only what is left at the end, if anything, has no end.
  lemma LinesMakeUpTheText(text: string) returns (lines: seq<string>, ends: seq<string>, tail: string)
    ensures Lines(text) == lines + (if tail == "" then [] else [tail])
    ensures Consists(text, lines, ends, tail)
  {
    ends := SplitConsists(text);
    lines, tail := StripAll(Init(TextWindow.SplitText(text))), Last(TextWindow.SplitText(text));
  }

  // ----- one line -------------------------------------------------------------------------------------------------

  // A piece of a tool call; a missing field is `None`, an empty one is `Some("")`.
  datatype Part = Part(index: int, id: Option<string>, name: Option<string>, arguments: Option<string>)

  // What a line holds: no data at all; data that is no chat chunk; a chunk without a choice or its delta; a
  // delta without tool calls; one with.
  datatype Parsed = NoData | NoChunk | NoDelta | NoCalls | Calls(parts: seq<Part>)

  // What is sent on: the line as it came (with one line end or two), the chunk rewritten, the collected
  // names, or the pieces of the calls.
  datatype Sent = Raw(line: string, ends: nat) | Rewritten(line: string) | Names(names: map<int, string>) | Forwarded(parts: seq<Part>)

  // `names`, `ids` and `args` are kept by call index; `argsById` is what the diagnostics know.
  datatype State = State(names: map<int, string>, ids: map<int, string>, args: map<int, string>, argsById: map<string, string>)

  const START := State(map[], map[], map[], map[])

  function Get<K>(m: map<K, string>, k: K): string { if k in m then m[k] else "" }

  // Empty strings are no identity: they are not sent on and never replace what is known.
  function Cleaned(p: Part): Part {
    p.(id := if p.id == Some("") then None else p.id, name := if p.name == Some("") then None else p.name)
  }

  // A name may come in pieces or be repeated whole.
  function JoinName(previous: string, name: string): string {
    if previous != "" && !(previous <= name) then previous + name else name
  }

  function Take(s: State, raw: Part): State {
    var p := Cleaned(raw);
    var ids := if p.id.Some? then s.ids[p.index := p.id.value] else s.ids;
    var names := if p.name.Some? then s.names[p.index := JoinName(Get(s.names, p.index), p.name.value)] else s.names;
    if p.arguments.None? then s.(ids := ids, names := names)
    else
      var full := Get(s.args, p.index) + p.arguments.value;
      var t := s.(ids := ids, names := names, args := s.args[p.index := full]);
      if p.index !in ids then t
      else
        t.(argsById := t.argsById[ids[p.index] := full])
  }

  function TakeParts(s: State, parts: seq<Part>): State {
    if parts == [] then s else Take(TakeParts(s, parts[..|parts| - 1]), parts[|parts| - 1])
  }

  function CleanParts(parts: seq<Part>): (r: seq<Part>)
    ensures |r| == |parts| && forall i :: 0 <= i < |r| ==> r[i] == Cleaned(parts[i])
  {
    seq(|parts|, i requires 0 <= i < |parts| => Cleaned(parts[i]))
  }

  // The names collected so far go out with the first delta that has no tool calls.
  function Transform(s: State, line: string, parsed: Parsed): (State, Sent) {
    match parsed
    case NoData => (s, Raw(line, 1))
    case NoChunk => (s, Raw(line, 2))
    case NoDelta => (s, Rewritten(line))
    case NoCalls => if s.names == map[] then (s, Rewritten(line)) else (s.(names := map[]), Names(s.names))
    case Calls(parts) => (TakeParts(s, parts), Forwarded(CleanParts(parts)))
  }

  // ----- a whole response --------------------------------------------------------------------------------------------

  function Run(lines: seq<string>, parse: string -> Parsed): (State, seq<Sent>) {
    if lines == [] then (START, [])
    else
      var (s, sent) := Run(lines[..|lines| - 1], parse);
      var line := lines[|lines| - 1];
      var (t, out) := Transform(s, line, parse(line));
      (t, sent + [out])
  }

  // The pieces of all tool calls, in the order they came.
  function AllParts(lines: seq<string>, parse: string -> Parsed): seq<Part> {
    if lines == [] then []
    else
      var p := parse(lines[|lines| - 1]);
      AllParts(lines[..|lines| - 1], parse) + if p.Calls? then p.parts else []
  }

  function PartsSent(sent: seq<Sent>): seq<Part> {
    if sent == [] then []
    else PartsSent(sent[..|sent| - 1]) + if sent[|sent| - 1].Forwarded? then sent[|sent| - 1].parts else []
  }

  method NormalizeResponse(chunks: seq<string>, parse: string -> Parsed) returns (s: State, sent: seq<Sent>)
    ensures (s, sent) == Run(Lines(Flat(chunks)), parse)
  {
    var lines := LinesOfChunks(chunks);
    s, sent := START, [];
    for i := 0 to |lines|
      invariant (s, sent) == Run(lines[..i], parse)
    {
      assert lines[..i + 1][..i] == lines[..i];
      var (t, out) := Transform(s, lines[i], parse(lines[i]));
      s := t;
      sent := sent + [out];
    }
    assert lines[..|lines|] == lines;
  }

  // All the argument text sent for one call.
  function ArgumentsOf(parts: seq<Part>, index: int): string {
    if parts == [] then ""
    else
      var p := parts[|parts| - 1];
      ArgumentsOf(parts[..|parts| - 1], index) + if p.index == index && p.arguments.Some? then p.arguments.value else ""
  }

  // The last id that is no empty string.
  function LastId(parts: seq<Part>, index: int): Option<string> {
    if parts == [] then None
    else
      var p := Cleaned(parts[|parts| - 1]);
      if p.index == index && p.id.Some? then p.id else LastId(parts[..|parts| - 1], index)
  }

  ghost predicate Accumulated(s: State, parts: seq<Part>) {
    && (forall i :: Get(s.args, i) == ArgumentsOf(parts, i))
    && (forall i :: LastId(parts, i) == if i in s.ids then Some(s.ids[i]) else None)
  }

  lemma ArgumentsSnoc(parts: seq<Part>, p: Part, i: int)
    ensures ArgumentsOf(parts + [p], i) == ArgumentsOf(parts, i) + if p.index == i && p.arguments.Some? then p.arguments.value else ""
    ensures LastId(parts + [p], i) == if p.index == i && Cleaned(p).id.Some? then Cleaned(p).id else LastId(parts, i)
  {
    assert (parts + [p])[..|parts|] == parts;
  }

  lemma TakeOneAccumulates(s: State, before: seq<Part>, p: Part)
    requires Accumulated(s, before)
    ensures Accumulated(Take(s, p), before + [p])
  {
    hide ArgumentsOf, LastId, JoinName;
    var t := Take(s, p);
    forall i ensures Get(t.args, i) == ArgumentsOf(before + [p], i)
      && LastId(before + [p], i) == if i in t.ids then Some(t.ids[i]) else None {
      ArgumentsSnoc(before, p, i);
      assert Get(s.args, i) == ArgumentsOf(before, i);
      assert ArgumentsOf(before, i) + "" == ArgumentsOf(before, i);
      assert LastId(before, i) == if i in s.ids then Some(s.ids[i]) else None;
    }
  }

  lemma {:induction false} TakeAccumulates(s: State, before: seq<Part>, parts: seq<Part>)
    requires Accumulated(s, before)
    ensures Accumulated(TakeParts(s, parts), before + parts)
  {
    hide Accumulated, Take;
    if parts == [] {
      assert before + parts == before;
    } else {
      var front, p := parts[..|parts| - 1], parts[|parts| - 1];
      TakeAccumulates(s, before, front);
      TakeOneAccumulates(TakeParts(s, front), before + front, p);
      assert before + front + [p] == before + parts;
    }
  }

  // Whatever the chunks: the arguments kept for a call are all its pieces in order, its id is the last
  // that is not empty, and the pieces sent on are the ones that came, without their empty ids and names.
  lemma {:induction false} CallsAreCollected(lines: seq<string>, parse: string -> Parsed)
    ensures var (s, sent) := Run(lines, parse);
      Accumulated(s, AllParts(lines, parse)) && PartsSent(sent) == CleanParts(AllParts(lines, parse)) && |sent| == |lines|
  {
    if lines != [] {
      var front, line := lines[..|lines| - 1], lines[|lines| - 1];
      CallsAreCollected(front, parse);
      var (s, sent) := Run(front, parse);
      var (t, out) := Transform(s, line, parse(line));
      assert (sent + [out])[..|sent|] == sent;
      if parse(line).Calls? {
        TakeAccumulates(s, AllParts(front, parse), parse(line).parts);
      } else {
        assert AllParts(lines, parse) == AllParts(front, parse);
      }
    }
  }

  // ----- names and what is sent ---------------------------------------------------------------------------------------

  // The pieces since the last delta without tool calls.
  function Since(lines: seq<string>, parse: string -> Parsed): seq<Part> {
    if lines == [] then []
    else
      var front := Since(lines[..|lines| - 1], parse);
      match parse(lines[|lines| - 1])
      case NoCalls => []
      case Calls(parts) => front + parts
      case _ => front
  }

  // The name of a call: each piece extends the name, or is the name so far and more.
  function NameOf(parts: seq<Part>, index: int): Option<string> {
    if parts == [] then None
    else
      var before, p := NameOf(parts[..|parts| - 1], index), parts[|parts| - 1];
      if p.index != index || p.name.None? || p.name.value == "" then before
      else if before.Some? && !(before.value <= p.name.value) then Some(before.value + p.name.value)
      else p.name
  }

  ghost predicate NamesKnown(names: map<int, string>, parts: seq<Part>) {
    forall i :: NameOf(parts, i) == if i in names then Some(names[i]) else None
  }

  lemma TakeOneName(s: State, before: seq<Part>, p: Part)
    requires NamesKnown(s.names, before)
    ensures NamesKnown(Take(s, p).names, before + [p])
  {
    assert (before + [p])[..|before|] == before;
    var names := Take(s, p).names;
    forall i ensures NameOf(before + [p], i) == if i in names then Some(names[i]) else None {
      assert NameOf(before, i) == if i in s.names then Some(s.names[i]) else None;
    }
  }

  lemma {:induction false} TakeNames(s: State, before: seq<Part>, parts: seq<Part>)
    requires NamesKnown(s.names, before)
    ensures NamesKnown(TakeParts(s, parts).names, before + parts)
  {
    hide NamesKnown, Take;
    if parts == [] {
      assert before + parts == before;
    } else {
      var front, p := parts[..|parts| - 1], parts[|parts| - 1];
      TakeNames(s, before, front);
      TakeOneName(TakeParts(s, front), before + front, p);
      assert before + front + [p] == before + parts;
    }
  }

  lemma {:induction false} NamesAreCollected(lines: seq<string>, parse: string -> Parsed)
    ensures NamesKnown(Run(lines, parse).0.names, Since(lines, parse))
  {
    if lines != [] {
      var front, line := lines[..|lines| - 1], lines[|lines| - 1];
      NamesAreCollected(front, parse);
      var s := Run(front, parse).0;
      if parse(line).Calls? { TakeNames(s, Since(front, parse), parse(line).parts); }
    }
  }

  // What a line is sent on as, after these lines.
  ghost predicate SentFor(before: seq<string>, line: string, parse: string -> Parsed, out: Sent) {
    match parse(line)
    case NoData => out == Raw(line, 1)
    case NoChunk => out == Raw(line, 2)
    case NoDelta => out == Rewritten(line)
    case NoCalls =>
      if exists i :: NameOf(Since(before, parse), i).Some? then out.Names? && NamesKnown(out.names, Since(before, parse))
      else out == Rewritten(line)
    case Calls(parts) => out == Forwarded(CleanParts(parts))
  }

  // Every line is sent on in its turn: as it came with one line end or two, rewritten, or as the pieces of its
  // calls; and the first delta without calls after some names carries exactly these names.
  lemma {:induction false} EveryLineIsSent(lines: seq<string>, parse: string -> Parsed, k: nat)
    requires k < |lines|
    ensures var sent := Run(lines, parse).1;
      |sent| == |lines| && SentFor(lines[..k], lines[k], parse, sent[k])
  {
    var front, line := lines[..|lines| - 1], lines[|lines| - 1];
    RunLength(front, parse);
    if k < |front| {
      EveryLineIsSent(front, parse, k);
      assert front[..k] == lines[..k];
    } else {
      NamesAreCollected(front, parse);
      var s := Run(front, parse).0;
      if parse(line).NoCalls? {
        if exists i :: NameOf(Since(front, parse), i).Some? {
          var i :| NameOf(Since(front, parse), i).Some?;
          assert i in s.names;
        } else {
          forall i ensures i !in s.names { assert NameOf(Since(front, parse), i).None?; }
          assert s.names == map[];
        }
      }
    }
  }

  lemma {:induction false} RunLength(lines: seq<string>, parse: string -> Parsed)
    ensures |Run(lines, parse).1| == |lines|
  {
    if lines != [] { RunLength(lines[..|lines| - 1], parse); }
  }

  // Only empty ids and names are left out of a piece.
  lemma CleaningLeavesOutEmpty(p: Part)
    ensures var c := Cleaned(p);
      && c.index == p.index && c.arguments == p.arguments
      && c.id == (if p.id.Some? && p.id.value == "" then None else p.id)
      && c.name == (if p.name.Some? && p.name.value == "" then None else p.name)
  {
  }

  // Leaving out empty ids and names loses no argument text.
  lemma {:induction false} CleaningKeepsArguments(parts: seq<Part>, index: int)
    ensures ArgumentsOf(CleanParts(parts), index) == ArgumentsOf(parts, index)
  {
    if parts != [] {
      CleaningKeepsArguments(parts[..|parts| - 1], index);
      assert CleanParts(parts)[..|parts| - 1] == CleanParts(parts[..|parts| - 1]);
    }
  }

  // ----- the diagnostics ------------------------------------------------------------------------------------------------

  // No two calls share an id, and a call keeps its id.
  ghost predicate ProperIds(parts: seq<Part>) {
    forall k, l :: 0 <= k < |parts| && 0 <= l < |parts| && HasId(parts[k]) && HasId(parts[l]) ==> SameCall(parts[k], parts[l])
  }

  predicate SameCall(p: Part, q: Part) { p.index == q.index <==> p.id == q.id }

  predicate HasId(p: Part) { p.id.Some? && p.id.value != "" }

  // Where the last piece with arguments for a call is, -1 when there is none.
  function LastArguments(parts: seq<Part>, index: int): (k: int)
    ensures -1 <= k < |parts|
  {
    if parts == [] then -1
    else if parts[|parts| - 1].index == index && parts[|parts| - 1].arguments.Some? then |parts| - 1
    else LastArguments(parts[..|parts| - 1], index)
  }

  // The id of a call has come at the latest with its last arguments.
  predicate IdInTime(parts: seq<Part>, index: int) {
    LastArguments(parts, index) >= 0 && LastId(parts[..LastArguments(parts, index) + 1], index).Some?
  }

  // Under `id` the diagnostics know the complete arguments of the call.
  ghost predicate KnowsAll(s: State, parts: seq<Part>, index: int, id: string) {
    id in s.argsById && s.argsById[id] == ArgumentsOf(parts, index)
  }

  ghost predicate OwnedInTime(parts: seq<Part>, id: string) {
    exists i :: IdInTime(parts, i) && LastId(parts, i) == Some(id)
  }

  // Every call whose id came in time is known completely, and nothing else is known.
  ghost predicate KnowsExactly(s: State, parts: seq<Part>) {
    && (forall i :: IdInTime(parts, i) ==> LastId(parts, i).Some? && KnowsAll(s, parts, i, LastId(parts, i).value))
    && (forall id :: id in s.argsById ==> OwnedInTime(parts, id))
  }

  lemma {:induction false} LastIdIsThere(parts: seq<Part>, index: int)
    ensures LastId(parts, index).Some?
      ==> exists k :: 0 <= k < |parts| && HasId(parts[k]) && parts[k].index == index && parts[k].id == LastId(parts, index)
  {
    if parts != [] { LastIdIsThere(parts[..|parts| - 1], index); }
  }

  // With proper ids, equal last ids are those of one call.
  lemma OneOwner(parts: seq<Part>, i: int, j: int)
    requires ProperIds(parts) && LastId(parts, i).Some? && LastId(parts, i) == LastId(parts, j)
    ensures i == j
  {
    LastIdIsThere(parts, i);
    LastIdIsThere(parts, j);
  }

  // A call that has an id keeps it.
  lemma IdStays(front: seq<Part>, p: Part, i: int)
    requires ProperIds(front + [p]) && LastId(front, i).Some?
    ensures LastId(front + [p], i) == LastId(front, i)
  {
    ArgumentsSnoc(front, p, i);
    LastIdIsThere(front, i);
    var all := front + [p];
    assert all[|front|] == p && forall k :: 0 <= k < |front| ==> all[k] == front[k];
  }

  // An id that has come is still there later.
  lemma {:induction false} IdRemains(parts: seq<Part>, k: nat, i: int)
    requires k <= |parts| && LastId(parts[..k], i).Some?
    ensures LastId(parts, i).Some?
  {
    if k == |parts| {
      assert parts[..k] == parts;
    } else {
      assert parts[..|parts| - 1][..k] == parts[..k];
      IdRemains(parts[..|parts| - 1], k, i);
    }
  }

  lemma InTimeStep(front: seq<Part>, p: Part, i: int)
    ensures var all := front + [p];
      IdInTime(all, i) <==> if p.index == i && p.arguments.Some? then LastId(all, i).Some? else IdInTime(front, i)
  {
    hide LastId;
    var all := front + [p];
    assert all[..|front|] == front && all[..|front| + 1] == all;
    var k := LastArguments(front, i);
    assert all[..k + 1] == front[..k + 1];
  }

  lemma PrefixIsProper(front: seq<Part>, p: Part)
    requires ProperIds(front + [p])
    ensures ProperIds(front)
  {
    var all := front + [p];
    assert forall k :: 0 <= k < |front| ==> front[k] == all[k];
  }

  lemma InTimeHasId(parts: seq<Part>, i: int)
    requires IdInTime(parts, i)
    ensures LastId(parts, i).Some?
  {
    IdRemains(parts, LastArguments(parts, i) + 1, i);
  }

  lemma KnownCall(front: seq<Part>, p: Part, s: State, i: int)
    requires ProperIds(front + [p]) && Accumulated(s, front) && KnowsExactly(s, front)
    requires Accumulated(Take(s, p), front + [p]) && IdInTime(front + [p], i)
    ensures LastId(front + [p], i).Some? && KnowsAll(Take(s, p), front + [p], i, LastId(front + [p], i).value)
  {
    hide IdInTime, LastId, ArgumentsOf, ProperIds, JoinName;
    var all, t := front + [p], Take(s, p);
    InTimeStep(front, p, i);
    InTimeHasId(all, i);
    assert LastId(all, i) == if i in t.ids then Some(t.ids[i]) else None;
    assert Get(t.args, i) == ArgumentsOf(all, i);
    if p.index != i || p.arguments.None? {
      ArgumentsSnoc(front, p, i);
      InTimeHasId(front, i);
      IdStays(front, p, i);
      assert ArgumentsOf(front, i) + "" == ArgumentsOf(front, i);
      if p.arguments.Some? && p.index in t.ids && t.ids[p.index] == LastId(all, i).value {
        assert LastId(all, p.index) == if p.index in t.ids then Some(t.ids[p.index]) else None;
        OneOwner(all, i, p.index);
      }
    }
  }

  lemma KnownOwner(front: seq<Part>, p: Part, s: State, id: string)
    requires ProperIds(front + [p]) && Accumulated(s, front) && KnowsExactly(s, front)
    requires Accumulated(Take(s, p), front + [p]) && id in Take(s, p).argsById
    ensures OwnedInTime(front + [p], id)
  {
    hide IdInTime, LastId, ArgumentsOf, ProperIds, JoinName;
    var all, t := front + [p], Take(s, p);
    assert LastId(all, p.index) == if p.index in t.ids then Some(t.ids[p.index]) else None;
    InTimeStep(front, p, p.index);
    if id in s.argsById {
      var i :| IdInTime(front, i) && LastId(front, i) == Some(id);
      InTimeStep(front, p, i);
      IdStays(front, p, i);
    } else {
      assert LastId(all, p.index) == Some(id);
    }
  }

  lemma {:induction false} DiagnosticsKnowExactly(parts: seq<Part>)
    requires ProperIds(parts)
    ensures Accumulated(TakeParts(START, parts), parts) && KnowsExactly(TakeParts(START, parts), parts)
  {
    if parts != [] {
      hide ProperIds, Accumulated, KnowsExactly, Take, IdInTime, LastId, KnowsAll, OwnedInTime;
      var front, p := parts[..|parts| - 1], parts[|parts| - 1];
      assert parts == front + [p];
      PrefixIsProper(front, p);
      DiagnosticsKnowExactly(front);
      var s := TakeParts(START, front);
      TakeOneAccumulates(s, front, p);
      forall i | IdInTime(parts, i)
        ensures LastId(parts, i).Some? && KnowsAll(Take(s, p), parts, i, LastId(parts, i).value)
      {
        KnownCall(front, p, s, i);
      }
      forall id | id in Take(s, p).argsById ensures OwnedInTime(parts, id) {
        KnownOwner(front, p, s, id);
      }
      KnowsBoth(Take(s, p), parts);
    }
  }

  lemma KnowsBoth(s: State, parts: seq<Part>)
    requires forall i :: IdInTime(parts, i) ==> LastId(parts, i).Some? && KnowsAll(s, parts, i, LastId(parts, i).value)
    requires forall id :: id in s.argsById ==> OwnedInTime(parts, id)
    ensures KnowsExactly(s, parts)
  {
  }

  // When ids are neither shared nor changed, a call with an id and arguments is known completely under its
  // id exactly when the id had come by its last arguments; otherwise nothing is known under that id,
  // although all its arguments are kept under its index.
  lemma ArgumentsKnownById(parts: seq<Part>, index: int)
    requires ProperIds(parts) && LastId(parts, index).Some? && LastArguments(parts, index) >= 0
    ensures var s, id := TakeParts(START, parts), LastId(parts, index).value;
      && index in s.ids && s.ids[index] == id && Get(s.args, index) == ArgumentsOf(parts, index)
      && (KnowsAll(s, parts, index, id) <==> IdInTime(parts, index))
      && (id in s.argsById <==> IdInTime(parts, index))
  {
    hide TakeParts, LastArguments, ArgumentsOf, LastId, ProperIds, IdInTime;
    DiagnosticsKnowExactly(parts);
    var s, id := TakeParts(START, parts), LastId(parts, index).value;
    assert LastId(parts, index) == if index in s.ids then Some(s.ids[index]) else None;
    if id in s.argsById {
      assert OwnedInTime(parts, id);
      var i :| IdInTime(parts, i) && LastId(parts, i) == Some(id);
      OneOwner(parts, i, index);
    }
  }

  // The smallest loss: an id that only comes after the arguments.
  lemma LateIdLosesArguments(index: int, id: string, arguments: string)
    requires id != ""
    ensures var s := TakeParts(START, [Part(index, None, None, Some(arguments)), Part(index, Some(id), None, None)]);
      Get(s.args, index) == arguments && index in s.ids && s.ids[index] == id && id !in s.argsById
  {
    var a, b := Part(index, None, None, Some(arguments)), Part(index, Some(id), None, None);
    assert [a, b][..1] == [a] && [a][..0] == [];
    assert TakeParts(START, [a]) == Take(START, a);
  }
}
