// Coalescing of streamed text before it is logged (src/host/run-lifecycle-service.ts:773-800, 882-913).
module DeltaQueue {
  import opened Optional

  // A piece of streamed text belongs to a stream: its kind and message id.
  datatype Stream = Stream(kind: string, messageId: string)

  datatype Input = Delta(stream: Stream, text: string) | Trace(event: string) | Timer | Finish

  datatype Logged = Text(stream: Stream, text: string) | Traced(event: string)

  // What a log says, piece by piece: one character of a stream, or one event.
  datatype Piece = Char(stream: Stream, c: char) | Whole(event: string)

  function Chars(stream: Stream, text: string): (r: seq<Piece>)
    ensures |r| == |text|
  {
    seq(|text|, i requires 0 <= i < |text| => Char(stream, text[i]))
  }

  function Said(log: seq<Logged>): seq<Piece> {
    if log == [] then []
    else
      Said(log[..|log| - 1])
      + match log[|log| - 1]
        case Text(stream, text) => Chars(stream, text)
        case Traced(event) => [Whole(event)]
  }

  function MeantBy(input: Input): seq<Piece> {
    match input
    case Delta(stream, text) => Chars(stream, text)
    case Trace(event) => [Whole(event)]
    case _ => []
  }

  // What was put in, in order.
  function Meant(inputs: seq<Input>): seq<Piece> {
    if inputs == [] then []
    else
      Meant(inputs[..|inputs| - 1])
      + MeantBy(inputs[|inputs| - 1])
  }

  function Held(pending: Option<(Stream, string)>): seq<Piece> {
    if pending.Some? then Chars(pending.value.0, pending.value.1) else []
  }

  // The queue on values: what one input does to the log and to what is held back.
  datatype State = State(log: seq<Logged>, pending: Option<(Stream, string)>)

  function Flushed(s: State): State {
    if s.pending.Some? then State(s.log + [Text(s.pending.value.0, s.pending.value.1)], None) else s
  }

  function Put(s: State, input: Input): State {
    match input
    case Delta(stream, text) =>
      if s.pending.Some? && s.pending.value.0 == stream then s.(pending := Some((stream, s.pending.value.1 + text)))
      else Flushed(s).(pending := Some((stream, text)))
    case Trace(event) => State(Flushed(s).log + [Traced(event)], None)
    case Timer => Flushed(s)
    case Finish => Flushed(s)
  }

  function PutAll(s: State, inputs: seq<Input>): State {
    if inputs == [] then s else Put(PutAll(s, inputs[..|inputs| - 1]), inputs[|inputs| - 1])
  }

  class Queue {
    var pending: Option<(Stream, string)>
    var timerSet: bool
    var log: seq<Logged>

    function Contents(): State
      reads this
    {
      State(log, pending)
    }

    // Text is held back only while a timer will flush it.
    ghost predicate Valid()
      reads this
    {
      pending.Some? ==> timerSet
    }

    constructor ()
      ensures Valid() && Contents() == State([], None)
    {
      pending, timerSet, log := None, false, [];
    }

    method FlushDelta()
      modifies this
      ensures Valid() && Contents() == Flushed(old(Contents())) && !timerSet
    {
      timerSet := false;
      if pending.None? { return; }
      log := log + [Text(pending.value.0, pending.value.1)];
      pending := None;
    }

    method QueueDelta(stream: Stream, text: string)
      modifies this
      ensures Valid() && Contents() == Put(old(Contents()), Delta(stream, text))
    {
      if pending.Some? && pending.value.0 == stream {
        pending := Some((stream, pending.value.1 + text));
      } else {
        FlushDelta();
        pending := Some((stream, text));
      }
      if !timerSet { timerSet := true; }
    }

    method OnTrace(event: string)
      modifies this
      ensures Valid() && Contents() == Put(old(Contents()), Trace(event))
    {
      FlushDelta();
      log := log + [Traced(event)];
    }
  }

  lemma CharsAppend(stream: Stream, a: string, b: string)
    ensures Chars(stream, a + b) == Chars(stream, a) + Chars(stream, b)
  {
  }

  lemma FlushSays(s: State)
    ensures Said(Flushed(s).log) == Said(s.log) + Held(s.pending) && Flushed(s).pending == None && s.log <= Flushed(s).log
  {
    assert Flushed(s).log[..|s.log|] == s.log;
    if s.pending.Some? { assert Flushed(s).log[..|Flushed(s).log| - 1] == s.log; }
  }

  lemma PutSays(s: State, input: Input)
    ensures Said(Put(s, input).log) + Held(Put(s, input).pending) == Said(s.log) + Held(s.pending) + MeantBy(input)
    ensures s.log <= Put(s, input).log && (!input.Delta? ==> Put(s, input).pending == None)
  {
    FlushSays(s);
    var t := Put(s, input);
    match input
    case Delta(stream, text) =>
      if s.pending.Some? && s.pending.value.0 == stream { CharsAppend(stream, s.pending.value.1, text); }
    case Trace(event) =>
      assert t.log[..|t.log| - 1] == Flushed(s).log;
      assert Said(t.log) + [] == Said(t.log);
    case _ =>
      assert Said(t.log) + [] + [] == Said(t.log);
  }

  // Whatever the chunks and whenever the timer fires: every character of every stream and every event
  // is logged once and in the order it came, except for what is still held back; and nothing is held
  // back after a trace event, the timer or the end.
  lemma {:induction false} NothingIsLost(inputs: seq<Input>)
    ensures var s := PutAll(State([], None), inputs);
      && Said(s.log) + Held(s.pending) == Meant(inputs)
      && (inputs != [] && !inputs[|inputs| - 1].Delta? ==> s.pending == None && Said(s.log) == Meant(inputs))
  {
    if inputs != [] {
      var before, last := inputs[..|inputs| - 1], inputs[|inputs| - 1];
      NothingIsLost(before);
      PutSays(PutAll(State([], None), before), last);
      var s := PutAll(State([], None), inputs);
      assert Said(s.log) + [] == Said(s.log);
    }
  }

  // What the queue has logged and still holds back, after some inputs.
  function Told(inputs: seq<Input>): seq<Piece> {
    var s := PutAll(State([], None), inputs);
    Said(s.log) + Held(s.pending)
  }

  // Cutting a delta in two, or letting the timer fire in between, does not change what the queue has logged
  // and holds back, taken together.
  lemma CutsDoNotMatter(inputs: seq<Input>, stream: Stream, a: string, b: string)
    ensures Told(inputs + [Delta(stream, a), Timer, Delta(stream, b)]) == Told(inputs + [Delta(stream, a + b)])
    ensures Told(inputs + [Delta(stream, a), Delta(stream, b)]) == Told(inputs + [Delta(stream, a + b)])
  {
    hide PutAll, Said, Held, Meant, Chars;
    NothingIsLost(inputs + [Delta(stream, a), Timer, Delta(stream, b)]);
    NothingIsLost(inputs + [Delta(stream, a), Delta(stream, b)]);
    NothingIsLost(inputs + [Delta(stream, a + b)]);
    CutMeaning(inputs, stream, a, b, [Timer]);
    CutMeaning(inputs, stream, a, b, []);
    assert inputs + [Delta(stream, a)] + [Timer] + [Delta(stream, b)] == inputs + [Delta(stream, a), Timer, Delta(stream, b)];
    assert inputs + [Delta(stream, a)] + [] + [Delta(stream, b)] == inputs + [Delta(stream, a), Delta(stream, b)];
  }

  lemma CutMeaning(inputs: seq<Input>, stream: Stream, a: string, b: string, between: seq<Input>)
    requires between == [] || between == [Timer]
    ensures Meant(inputs + [Delta(stream, a)] + between + [Delta(stream, b)]) == Meant(inputs + [Delta(stream, a + b)])
  {
    hide Meant, Chars;
    CharsAppend(stream, a, b);
    var first := inputs + [Delta(stream, a)];
    MeantAppend(inputs, Delta(stream, a + b));
    MeantAppend(inputs, Delta(stream, a));
    if between == [] { assert first + between == first; } else { MeantAppend(first, Timer); }
    assert Meant(first) + [] == Meant(first);
    MeantAppend(first + between, Delta(stream, b));
    assert Meant(inputs) + Chars(stream, a) + Chars(stream, b) == Meant(inputs) + (Chars(stream, a) + Chars(stream, b));
  }

  lemma MeantAppend(inputs: seq<Input>, input: Input)
    ensures Meant(inputs + [input]) == Meant(inputs) + MeantBy(input)
  {
    assert (inputs + [input])[..|inputs|] == inputs;
  }
}
