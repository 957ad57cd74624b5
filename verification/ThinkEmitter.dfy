/** The streaming cutter for inline thinking blocks.

    Model text arrives in arbitrary pieces.  Text between `<think>` and `</think>` goes to the
    reasoning channel, the rest to the answer channel, and a tag may be split over any number of
    pieces.  The reference meaning of a text is `Cut`, which looks at one position at a time and
    knows nothing about pieces, buffers or searching. */
module ThinkEmitter {

  datatype Channel = Answer | Reasoning

  /** One call of the emit callback. */
  datatype Delta = Delta(channel: Channel, text: string)

  /** One character of output with the channel it went to. */
  datatype Out = Out(channel: Channel, c: char)

  /** The opening and closing tag; the proofs work for any pair of nonempty tags. */
  datatype Tags = Tags(open: string, close: string) {
    predicate Valid() {
      open != "" && close != ""
    }

    function Tag(inside: bool): string {
      if inside then close else open
    }
  }

  const THINK := Tags("<think>", "</think>")

  function ChannelOf(inside: bool): Channel {
    if inside then Reasoning else Answer
  }

  // ---------------------------------------------------------------------------------------
  // Reference meaning
  // ---------------------------------------------------------------------------------------

  /** `t` occurs in `s` at index `i`. */
  predicate OccursAt(s: string, t: string, i: nat) {
    i + |t| <= |s| && s[i..i + |t|] == t
  }

  /** The meaning of a whole text: a tag at the front switches the channel and vanishes, any other
      character is output on the current channel. */
  function Cut(tags: Tags, s: string, inside: bool): seq<Out>
    requires tags.Valid()
    decreases |s|
  {
    if s == "" then []
    else if OccursAt(s, tags.Tag(inside), 0) then Cut(tags, s[|tags.Tag(inside)|..], !inside)
    else [Out(ChannelOf(inside), s[0])] + Cut(tags, s[1..], inside)
  }

  function OnChannel(channel: Channel, s: string): (r: seq<Out>)
    ensures |r| == |s|
  {
    seq(|s|, i requires 0 <= i < |s| => Out(channel, s[i]))
  }

  /** All characters output by a sequence of callback calls. */
  function Flatten(deltas: seq<Delta>): seq<Out> {
    if deltas == [] then []
    else
      var last := deltas[|deltas| - 1];
      Flatten(deltas[..|deltas| - 1]) + OnChannel(last.channel, last.text)
  }

  // ---------------------------------------------------------------------------------------
  // What one push does
  // ---------------------------------------------------------------------------------------

  datatype State = State(pending: string, inside: bool, out: seq<Delta>)

  const START := State("", false, [])

  /** The suffix of `p` of length `k` starts `tag`. */
  predicate SuffixStarts(p: string, tag: string, k: nat) {
    k <= |p| && k <= |tag| && p[|p| - k..] == tag[..k]
  }

  /** The first index from `i` on where `t` occurs, or -1. */
  function IndexFrom(s: string, t: string, i: nat): (r: int)
    requires i <= |s|
    ensures r == -1 || (i <= r && OccursAt(s, t, r))
    ensures forall j: nat :: i <= j && (r == -1 || j < r) ==> !OccursAt(s, t, j)
    decreases |s| - i
  {
    if OccursAt(s, t, i) then i
    else if i == |s| then -1
    else IndexFrom(s, t, i + 1)
  }

  /** The length of the longest suffix of `p`, of length at most `size`, that starts `tag`. */
  function Held(p: string, tag: string, size: nat): (r: nat)
    requires size <= |p| && size <= |tag|
    ensures r <= size && SuffixStarts(p, tag, r)
    ensures forall k: nat :: r < k <= size ==> !SuffixStarts(p, tag, k)
  {
    if size == 0 then 0
    else if SuffixStarts(p, tag, size) then size
    else Held(p, tag, size - 1)
  }

  function Min(a: int, b: int): int {
    if a <= b then a else b
  }

  function Retained(p: string, tag: string, final: bool): (r: nat)
    requires tag != ""
    ensures r <= |p| && r < |tag|
  {
    if final then 0 else Held(p, tag, Min(|p|, |tag| - 1))
  }

  function Emitted(out: seq<Delta>, inside: bool, text: string): seq<Delta> {
    if text == "" then out else out + [Delta(ChannelOf(inside), text)]
  }

  /** A tag was found at `index`: what precedes it is output and the channel switches. */
  function PastTag(tags: Tags, st: State, index: nat): State
    requires index + |tags.Tag(st.inside)| <= |st.pending|
  {
    State(st.pending[index + |tags.Tag(st.inside)|..], !st.inside, Emitted(st.out, st.inside, st.pending[..index]))
  }

  /** No tag was found: everything but the last `kept` characters is output. */
  function Released(st: State, kept: nat): State
    requires kept <= |st.pending|
  {
    var cut := |st.pending| - kept;
    State(st.pending[cut..], st.inside, Emitted(st.out, st.inside, st.pending[..cut]))
  }

  /** Empties the buffer as far as the text seen so far allows. */
  function Drain(tags: Tags, st: State, final: bool): State
    requires tags.Valid()
    decreases |st.pending|
  {
    if st.pending == "" then st
    else
      var index := IndexFrom(st.pending, tags.Tag(st.inside), 0);
      if index >= 0 then Drain(tags, PastTag(tags, st, index), final)
      else Released(st, Retained(st.pending, tags.Tag(st.inside), final))
  }

  function Pushed(tags: Tags, st: State, input: string, final: bool): State
    requires tags.Valid()
  {
    Drain(tags, st.(pending := st.pending + input), final)
  }

  class InlineThinkEmitter {
    const tags: Tags
    var pending: string
    var inside: bool
    /** The calls made to the emit callback so far. */
    var out: seq<Delta>

    function Current(): State
      reads this
    {
      State(pending, inside, out)
    }

    constructor ()
      ensures tags == THINK && Current() == START
    {
      tags := THINK;
      pending, inside, out := "", false, [];
    }

    /** Calls the emit callback unless the text is empty. */
    method Emit(text: string)
      modifies this`out
      ensures out == Emitted(old(out), inside, text)
    {
      if text != "" {
        out := out + [Delta(ChannelOf(inside), text)];
      }
    }

    /** The scan for the longest suffix that could still become a tag, longest first. */
    method LongestHeld(tag: string) returns (retained: nat)
      requires tag != ""
      ensures retained == Retained(pending, tag, false)
    {
      var size := Min(|pending|, |tag| - 1);
      while size > 0
        invariant 0 <= size <= |pending| && size < |tag|
        invariant Retained(pending, tag, false) == Held(pending, tag, size)
      {
        if SuffixStarts(pending, tag, size) {
          return size;
        }
        size := size - 1;
      }
      retained := 0;
    }

    /** Outputs the text before the tag at `index`, drops the tag and switches the channel. */
    method PassTag(index: nat)
      requires index + |tags.Tag(inside)| <= |pending|
      modifies this
      ensures Current() == PastTag(tags, old(Current()), index)
    {
      Emit(pending[..index]);
      pending := pending[index + |tags.Tag(inside)|..];
      inside := !inside;
    }

    /** Outputs everything but the last `kept` characters. */
    method Release(kept: nat)
      requires kept <= |pending|
      modifies this
      ensures Current() == Released(old(Current()), kept)
    {
      Emit(pending[..|pending| - kept]);
      pending := pending[|pending| - kept..];
    }

    method Push(input: string, final: bool)
      requires tags.Valid()
      modifies this
      ensures Current() == Pushed(tags, old(Current()), input, final)
    {
      pending := pending + input;
      ghost var st := Current();
      ghost var goal := Drain(tags, st, final);
      while pending != ""
        invariant Current() == st && Drain(tags, st, final) == goal
        decreases |pending|
      {
        var index := IndexFrom(pending, tags.Tag(inside), 0);
        if index >= 0 {
          DrainAtTag(tags, st, index, final);
          PassTag(index);
          st := PastTag(tags, st, index);
          continue;
        }
        DrainWithoutTag(tags, st, final);
        var retained := 0;
        if !final {
          retained := LongestHeld(tags.Tag(inside));
        }
        Release(retained);
        // Nothing is left, or what is left waits for more text.
        return;
      }
    }
  }

  lemma DrainAtTag(tags: Tags, st: State, index: nat, final: bool)
    requires tags.Valid() && st.pending != "" && IndexFrom(st.pending, tags.Tag(st.inside), 0) == index
    ensures Drain(tags, st, final) == Drain(tags, PastTag(tags, st, index), final)
  {
  }

  lemma DrainWithoutTag(tags: Tags, st: State, final: bool)
    requires tags.Valid() && st.pending != "" && IndexFrom(st.pending, tags.Tag(st.inside), 0) == -1
    ensures Drain(tags, st, final) == Released(st, Retained(st.pending, tags.Tag(st.inside), final))
  {
  }

  // ---------------------------------------------------------------------------------------
  // One drain preserves the meaning
  // ---------------------------------------------------------------------------------------

  lemma FlattenEmitted(out: seq<Delta>, inside: bool, text: string)
    ensures Flatten(Emitted(out, inside, text)) == Flatten(out) + OnChannel(ChannelOf(inside), text)
  {
    if text != "" {
      assert Emitted(out, inside, text)[..|out|] == out;
    } else {
      assert Flatten(out) + OnChannel(ChannelOf(inside), text) == Flatten(out);
    }
  }

  lemma EmitThenRest(out: seq<Delta>, inside: bool, text: string, rest: seq<Out>)
    ensures Flatten(Emitted(out, inside, text)) + rest == Flatten(out) + (OnChannel(ChannelOf(inside), text) + rest)
  {
    FlattenEmitted(out, inside, text);
  }

  /** The output so far together with the meaning of the buffer followed by `rest`. */
  function Meaning(tags: Tags, st: State, rest: string): seq<Out>
    requires tags.Valid()
  {
    Flatten(st.out) + Cut(tags, st.pending + rest, st.inside)
  }

  predicate FreeBefore(s: string, tag: string, k: nat) {
    forall j: nat :: j < k ==> !OccursAt(s, tag, j)
  }

  lemma OccursInTail(s: string, tag: string, j: nat)
    requires s != "" && OccursAt(s[1..], tag, j)
    ensures OccursAt(s, tag, j + 1)
  {
    assert s[1..][j..j + |tag|] == s[j + 1..j + 1 + |tag|];
  }

  lemma OnChannelCons(channel: Channel, s: string)
    requires s != ""
    ensures OnChannel(channel, s) == [Out(channel, s[0])] + OnChannel(channel, s[1..])
  {
  }

  /** Text in front of the first tag is output as it stands. */
  lemma {:induction false} CutBeforeTag(tags: Tags, s: string, inside: bool, k: nat)
    requires tags.Valid() && k <= |s| && FreeBefore(s, tags.Tag(inside), k)
    ensures Cut(tags, s, inside) == OnChannel(ChannelOf(inside), s[..k]) + Cut(tags, s[k..], inside)
  {
    if k == 0 {
      assert s[0..] == s;
      assert OnChannel(ChannelOf(inside), s[..0]) == [];
    } else {
      var tag := tags.Tag(inside);
      forall j: nat | j < k - 1 ensures !OccursAt(s[1..], tag, j) {
        if OccursAt(s[1..], tag, j) {
          OccursInTail(s, tag, j);
        }
      }
      CutBeforeTag(tags, s[1..], inside, k - 1);
      assert s[1..][k - 1..] == s[k..] && s[1..][..k - 1] == s[..k][1..];
      OnChannelCons(ChannelOf(inside), s[..k]);
    }
  }

  lemma OccursInPrefix(p: string, rest: string, tag: string, j: nat)
    requires OccursAt(p + rest, tag, j) && j + |tag| <= |p|
    ensures OccursAt(p, tag, j)
  {
    assert (p + rest)[j..j + |tag|] == p[j..j + |tag|];
  }

  lemma OccursAcross(p: string, rest: string, tag: string, j: nat)
    requires OccursAt(p + rest, tag, j) && j <= |p| < j + |tag|
    ensures SuffixStarts(p, tag, |p| - j)
  {
    assert tag[..|p| - j] == (p + rest)[j..j + |tag|][..|p| - j] == p[j..];
  }

  /** A tag that does not occur in the buffer cannot begin in the part that is released, whatever
      comes next. */
  lemma ReleasedPartIsFreeOfTags(p: string, rest: string, tag: string)
    requires tag != "" && IndexFrom(p, tag, 0) == -1
    ensures FreeBefore(p + rest, tag, |p| - Retained(p, tag, false))
  {
    forall j: nat | j < |p| - Retained(p, tag, false) ensures !OccursAt(p + rest, tag, j) {
      if OccursAt(p + rest, tag, j) {
        if j + |tag| <= |p| {
          OccursInPrefix(p, rest, tag, j);
        } else {
          OccursAcross(p, rest, tag, j);
        }
      }
    }
  }

  /** A text that starts with the tag means what follows the tag, on the other channel. */
  lemma CutAtTag(tags: Tags, s: string, inside: bool, index: nat, after: string)
    requires tags.Valid() && index <= |s| && FreeBefore(s, tags.Tag(inside), index)
    requires OccursAt(s, tags.Tag(inside), index) && s[index + |tags.Tag(inside)|..] == after
    ensures Cut(tags, s, inside) == OnChannel(ChannelOf(inside), s[..index]) + Cut(tags, after, !inside)
  {
    CutBeforeTag(tags, s, inside, index);
    var tag := tags.Tag(inside);
    assert s[index..][0..0 + |tag|] == s[index..index + |tag|];
    assert s[index..][|tag|..] == s[index + |tag|..];
  }

  /** Outside a block everything up to the opening tag is answer, inside one everything up to the
      closing tag is reasoning.  The tag itself is never output, and a tag that does not come leaves
      the rest of the text on its channel. */
  lemma TagsSwitch(tags: Tags, s: string)
    requires tags.Valid()
    ensures var i := IndexFrom(s, tags.open, 0);
            Cut(tags, s, false) == if i < 0 then OnChannel(Answer, s)
                                   else OnChannel(Answer, s[..i]) + Cut(tags, s[i + |tags.open|..], true)
    ensures var i := IndexFrom(s, tags.close, 0);
            Cut(tags, s, true) == if i < 0 then OnChannel(Reasoning, s)
                                  else OnChannel(Reasoning, s[..i]) + Cut(tags, s[i + |tags.close|..], false)
  {
    hide Cut;
    CutAtFirstTag(tags, s, false);
    CutAtFirstTag(tags, s, true);
  }

  lemma CutAtFirstTag(tags: Tags, s: string, inside: bool)
    requires tags.Valid()
    ensures var tag := tags.Tag(inside);
            var i := IndexFrom(s, tag, 0);
            Cut(tags, s, inside) == if i < 0 then OnChannel(ChannelOf(inside), s)
                                    else OnChannel(ChannelOf(inside), s[..i]) + Cut(tags, s[i + |tag|..], !inside)
  {
    var tag := tags.Tag(inside);
    var i := IndexFrom(s, tag, 0);
    if i >= 0 {
      hide Cut;
      CutAtTag(tags, s, inside, i, s[i + |tag|..]);
    } else {
      CutWithoutTag(tags, s, inside);
    }
  }

  lemma CutWithoutTag(tags: Tags, s: string, inside: bool)
    requires tags.Valid() && FreeBefore(s, tags.Tag(inside), |s|)
    ensures Cut(tags, s, inside) == OnChannel(ChannelOf(inside), s)
  {
    CutBeforeTag(tags, s, inside, |s|);
    hide FreeBefore, ChannelOf;
    assert s[..|s|] == s && Cut(tags, s[|s|..], inside) == [];
  }

  lemma FreeBeforeExtends(p: string, rest: string, tag: string, index: nat)
    requires OccursAt(p, tag, index) && FreeBefore(p, tag, index)
    ensures FreeBefore(p + rest, tag, index) && OccursAt(p + rest, tag, index)
  {
    assert (p + rest)[index..index + |tag|] == p[index..index + |tag|];
    forall j: nat | j < index ensures !OccursAt(p + rest, tag, j) {
      if OccursAt(p + rest, tag, j) {
        OccursInPrefix(p, rest, tag, j);
      }
    }
  }

  lemma CutPastTag(tags: Tags, p: string, inside: bool, index: nat, rest: string)
    requires tags.Valid() && OccursAt(p, tags.Tag(inside), index) && FreeBefore(p, tags.Tag(inside), index)
    ensures Cut(tags, p + rest, inside)
         == OnChannel(ChannelOf(inside), p[..index]) + Cut(tags, p[index + |tags.Tag(inside)|..] + rest, !inside)
  {
    var tag := tags.Tag(inside);
    FreeBeforeExtends(p, rest, tag, index);
    var after := p[index + |tag|..] + rest;
    assert (p + rest)[index + |tag|..] == after && (p + rest)[..index] == p[..index];
    CutAtTag(tags, p + rest, inside, index, after);
  }

  lemma CutReleased(tags: Tags, p: string, inside: bool, cut: nat, rest: string)
    requires tags.Valid() && cut <= |p| && FreeBefore(p + rest, tags.Tag(inside), cut)
    ensures Cut(tags, p + rest, inside) == OnChannel(ChannelOf(inside), p[..cut]) + Cut(tags, p[cut..] + rest, inside)
  {
    CutBeforeTag(tags, p + rest, inside, cut);
    assert (p + rest)[cut..] == p[cut..] + rest && (p + rest)[..cut] == p[..cut];
  }

  lemma PastTagKeepsMeaning(tags: Tags, st: State, index: nat, rest: string)
    requires tags.Valid() && st.pending != "" && IndexFrom(st.pending, tags.Tag(st.inside), 0) == index
    ensures Meaning(tags, PastTag(tags, st, index), rest) == Meaning(tags, st, rest)
  {
    hide Cut, Flatten;
    CutPastTag(tags, st.pending, st.inside, index, rest);
    var d := PastTag(tags, st, index);
    EmitThenRest(st.out, st.inside, st.pending[..index], Cut(tags, d.pending + rest, d.inside));
  }

  lemma ReleaseKeepsMeaning(tags: Tags, st: State, rest: string)
    requires tags.Valid() && IndexFrom(st.pending, tags.Tag(st.inside), 0) == -1
    ensures Meaning(tags, Released(st, Retained(st.pending, tags.Tag(st.inside), false)), rest) == Meaning(tags, st, rest)
  {
    hide Cut, Flatten;
    var kept := Retained(st.pending, tags.Tag(st.inside), false);
    var cut := |st.pending| - kept;
    ReleasedPartIsFreeOfTags(st.pending, rest, tags.Tag(st.inside));
    CutReleased(tags, st.pending, st.inside, cut, rest);
    var d := Released(st, kept);
    EmitThenRest(st.out, st.inside, st.pending[..cut], Cut(tags, d.pending + rest, d.inside));
  }

  lemma FinalReleaseOutputsAll(tags: Tags, st: State)
    requires tags.Valid() && IndexFrom(st.pending, tags.Tag(st.inside), 0) == -1
    ensures var d := Released(st, 0);
            d.pending == "" && Flatten(d.out) == Flatten(st.out) + Cut(tags, st.pending, st.inside)
  {
    var p := st.pending;
    CutBeforeTag(tags, p, st.inside, |p|);
    FlattenEmitted(st.out, st.inside, p[..|p|]);
    assert Cut(tags, p[|p|..], st.inside) == [];
  }

  /** Draining changes neither the text already output nor the meaning of what is still to come. */
  lemma {:induction false} DrainKeepsMeaning(tags: Tags, st: State, rest: string)
    requires tags.Valid()
    ensures Meaning(tags, Drain(tags, st, false), rest) == Meaning(tags, st, rest)
    decreases |st.pending|
  {
    if st.pending != "" {
      var index := IndexFrom(st.pending, tags.Tag(st.inside), 0);
      if index >= 0 {
        PastTagKeepsMeaning(tags, st, index, rest);
        DrainKeepsMeaning(tags, PastTag(tags, st, index), rest);
      } else {
        ReleaseKeepsMeaning(tags, st, rest);
      }
    }
  }

  /** The final flush outputs everything that is left. */
  lemma {:induction false} FinalDrainEmptiesBuffer(tags: Tags, st: State)
    requires tags.Valid()
    ensures var d := Drain(tags, st, true);
            d.pending == "" && Flatten(d.out) == Flatten(st.out) + Cut(tags, st.pending, st.inside)
    decreases |st.pending|
  {
    if st.pending != "" {
      var index := IndexFrom(st.pending, tags.Tag(st.inside), 0);
      if index >= 0 {
        PastTagKeepsMeaning(tags, st, index, "");
        var next := PastTag(tags, st, index);
        assert next.pending + "" == next.pending && st.pending + "" == st.pending;
        FinalDrainEmptiesBuffer(tags, next);
      } else {
        FinalReleaseOutputsAll(tags, st);
      }
    }
  }

  // ---------------------------------------------------------------------------------------
  // Whole streams
  // ---------------------------------------------------------------------------------------

  function Concat(chunks: seq<string>): string {
    if chunks == [] then "" else Concat(chunks[..|chunks| - 1]) + chunks[|chunks| - 1]
  }

  /** The state after pushing every piece with `final = false`. */
  function Fed(tags: Tags, chunks: seq<string>): State
    requires tags.Valid()
  {
    if chunks == [] then START
    else Pushed(tags, Fed(tags, chunks[..|chunks| - 1]), chunks[|chunks| - 1], false)
  }

  lemma AppendAssoc(a: string, b: string, c: string)
    ensures (a + b) + c == a + (b + c)
  {
  }

  lemma PushKeepsMeaning(tags: Tags, st: State, input: string, rest: string)
    requires tags.Valid()
    ensures Meaning(tags, Pushed(tags, st, input, false), rest) == Meaning(tags, st, input + rest)
  {
    var grown := st.(pending := st.pending + input);
    DrainKeepsMeaning(tags, grown, rest);
    AppendAssoc(st.pending, input, rest);
  }

  lemma {:induction false} FedKeepsMeaning(tags: Tags, chunks: seq<string>, rest: string)
    requires tags.Valid()
    ensures Meaning(tags, Fed(tags, chunks), rest) == Cut(tags, Concat(chunks) + rest, false)
  {
    if chunks == [] {
      assert Flatten([]) + Cut(tags, "" + rest, false) == Cut(tags, "" + rest, false);
    } else {
      var init, last := chunks[..|chunks| - 1], chunks[|chunks| - 1];
      FedKeepsMeaning(tags, init, last + rest);
      PushKeepsMeaning(tags, Fed(tags, init), last, rest);
      AppendAssoc(Concat(init), last, rest);
    }
  }

  /** Main result: however a text is cut into pieces, pushing the pieces and flushing outputs
      exactly the characters, in order and on the channels, that the whole text means. */
  lemma StreamingEqualsBatch(tags: Tags, chunks: seq<string>)
    requires tags.Valid()
    ensures Flatten(Pushed(tags, Fed(tags, chunks), "", true).out) == Cut(tags, Concat(chunks), false)
    ensures Pushed(tags, Fed(tags, chunks), "", true).pending == ""
  {
    FedKeepsMeaning(tags, chunks, "");
    var d := Fed(tags, chunks);
    assert d.pending + "" == d.pending && Concat(chunks) + "" == Concat(chunks);
    FinalDrainEmptiesBuffer(tags, d.(pending := d.pending + ""));
  }

  /** After a drain the buffer is a proper prefix of the tag that is looked for. */
  lemma {:induction false} DrainWithholdsTagPrefix(tags: Tags, st: State)
    requires tags.Valid()
    ensures var d := Drain(tags, st, false); d.pending < tags.Tag(d.inside)
    decreases |st.pending|
  {
    if st.pending != "" {
      var index := IndexFrom(st.pending, tags.Tag(st.inside), 0);
      if index >= 0 {
        DrainWithholdsTagPrefix(tags, PastTag(tags, st, index));
      } else {
        var kept := Retained(st.pending, tags.Tag(st.inside), false);
        assert SuffixStarts(st.pending, tags.Tag(st.inside), kept);
      }
    }
  }

  lemma CutOfTagPrefix(tags: Tags, t: string, inside: bool)
    requires tags.Valid() && t < tags.Tag(inside)
    ensures Cut(tags, t, inside) == OnChannel(ChannelOf(inside), t)
  {
    CutBeforeTag(tags, t, inside, |t|);
    assert t[..|t|] == t && t[|t|..] == "";
  }

  lemma CutOfTag(tags: Tags, inside: bool)
    requires tags.Valid()
    ensures Cut(tags, tags.Tag(inside), inside) == []
  {
    var tag := tags.Tag(inside);
    assert tag[0..0 + |tag|] == tag && tag[|tag|..] == "";
  }

  /** The buffer after any pushes is a proper prefix of the tag that is looked for. */
  lemma FedWithholdsTagPrefix(tags: Tags, chunks: seq<string>)
    requires tags.Valid()
    ensures var d := Fed(tags, chunks); d.pending < tags.Tag(d.inside)
  {
    if chunks != [] {
      var before := Fed(tags, chunks[..|chunks| - 1]);
      DrainWithholdsTagPrefix(tags, before.(pending := before.pending + chunks[|chunks| - 1]));
    }
  }

  /** Withholding is necessary: of the text withheld after any pushes not one character may be
      released, because one continuation of the stream makes all of it disappear while ending the
      stream here makes all of it text.  At most |tag| - 1 characters are withheld. */
  lemma WithheldTextIsUndecided(tags: Tags, chunks: seq<string>) returns (more: string)
    requires tags.Valid()
    ensures |Fed(tags, chunks).pending| < |tags.Tag(Fed(tags, chunks).inside)|
    ensures var d := Fed(tags, chunks);
            Cut(tags, Concat(chunks), false) == Flatten(d.out) + OnChannel(ChannelOf(d.inside), d.pending)
    ensures Cut(tags, Concat(chunks) + more, false) == Flatten(Fed(tags, chunks).out)
  {
    hide Cut, Flatten, Concat, Fed;
    var d := Fed(tags, chunks);
    var tag := tags.Tag(d.inside);
    FedWithholdsTagPrefix(tags, chunks);
    FedKeepsMeaning(tags, chunks, "");
    assert d.pending + "" == d.pending && Concat(chunks) + "" == Concat(chunks);
    CutOfTagPrefix(tags, d.pending, d.inside);
    more := tag[|d.pending|..];
    assert d.pending + more == tag;
    FedKeepsMeaning(tags, chunks, more);
    CutOfTag(tags, d.inside);
    assert Flatten(d.out) + [] == Flatten(d.out);
  }
}
