// The model view of a transcript and its compaction (src/harness/context-harness.ts:899-938, 1015-1027,
// 1178-1268). The system prompt, the token estimate of a message, the tokens of the tool schemas, the
// thresholds and the summaries are parameters; attachments are not modelled.
module Compaction {
  import opened ContextTrim
  import ToolProjection
  import opened Transcript

  type Prompt = m: Message | m.role == System witness Message(System, "", [], "", "")

  // What a call works with; every one of these may differ from call to call. `toolTokens` is the estimate of
  // the list of tools, which is not nothing even for an empty list.
  datatype Settings = Settings(
    systemPrompt: Prompt, cost: Message -> nat, hasTools: bool, toolTokens: nat, maxInputTokens: nat, trigger: int,
    policy: ToolProjection.Policy)

  // What the summarizer came back with: `text` is trimmed and cut to its token limit.
  datatype Outcome = Threw | Answered(text: string, tokens: nat)

  function Max(a: int, b: int): int { if a < b then b else a }

  function Min(a: int, b: int): int { if a < b then a else b }

  // ----- the view ---------------------------------------------------------------------------------------------

  // How many messages after the system message are left to the summary.
  function ClampedCount(t: seq<Message>, count: nat): (c: nat)
    ensures c <= count
    ensures FirstIndexOf(t, System) < 0 ==> c == 0
    ensures FirstIndexOf(t, System) >= 0 ==> FirstIndexOf(t, System) + 1 + c <= |t|
  {
    var s := FirstIndexOf(t, System);
    if s < 0 then 0 else Min(count, Max(0, LastIndexOf(t, User) - s - 1))
  }

  function View(t: seq<Message>, count: nat, prompt: Message): seq<Message> {
    var s := FirstIndexOf(t, System);
    if s < 0 then [prompt] + t else t[..s] + [prompt] + t[s + 1 + ClampedCount(t, count)..]
  }

  function Projected(view: seq<Message>, z: Settings): (r: seq<Message>)
    ensures |r| == |view|
  {
    if Tokens(view, z.cost) + (if z.hasTools then z.toolTokens else 0) > z.trigger then ToolProjection.Project(view, z.policy)
    else view
  }

  function Budget(z: Settings, target: int): int {
    Max(0, Min(z.maxInputTokens, Max(0, target)) - z.toolTokens)
  }

  // `Array.prototype.slice` for ascending bounds: clipped at the end.
  function Slice(ms: seq<Message>, from: nat, to: nat): seq<Message>
    requires from <= to
  {
    if from > |ms| then [] else if to > |ms| then ms[from..] else ms[from..to]
  }

  // The messages handed to the summarizer, as many as trimming removed.
  function Segment(view: seq<Message>, removed: nat): seq<Message> {
    var start := FirstIndexOf(view, System) + 1;
    Slice(view, start, start + removed)
  }

  datatype Compacted = Compacted(count: nat, summary: string, segment: seq<Message>, committed: bool)

  // One compaction: the new count and summary, and the segment it summarized if it took effect.
  function Compact(t: seq<Message>, count: nat, summary: string, target: int, outcome: Outcome, z: Settings): Compacted {
    var c := ClampedCount(t, count);
    var view := Projected(View(t, count, z.systemPrompt), z);
    var removed := |view| - |Trim(view, Budget(z, target), z.cost, false)|;
    if removed <= 0 then Compacted(c, summary, [], false)
    else
      var segment := Segment(view, removed);
      if outcome.Threw? || outcome.text == "" || outcome.tokens >= Tokens(segment, z.cost) then
        Compacted(c, summary, [], false)
      else Compacted(c + removed, outcome.text, segment, true)
  }

  class ContextHarness {
    var summarizedMessageCount: nat
    var conversationSummary: string

    constructor ()
      ensures summarizedMessageCount == 0 && conversationSummary == ""
    {
      summarizedMessageCount := 0;
      conversationSummary := "";
    }

    method BuildModelView(transcript: seq<Message>, systemPrompt: Message) returns (view: seq<Message>)
      modifies this`summarizedMessageCount
      ensures view == View(transcript, old(summarizedMessageCount), systemPrompt)
      ensures summarizedMessageCount == ClampedCount(transcript, old(summarizedMessageCount))
    {
      view := transcript;
      var systemIndex := FirstIndexOf(view, System);
      if systemIndex >= 0 {
        var maxSummarizable := Max(0, LastIndexOf(view, User) - systemIndex - 1);
        summarizedMessageCount := Min(summarizedMessageCount, maxSummarizable);
        view := view[..systemIndex] + [systemPrompt] + view[systemIndex + 1 + summarizedMessageCount..];
      } else {
        summarizedMessageCount := 0;
        view := [systemPrompt] + view;
      }
    }

    method ProjectToolResults(view: seq<Message>, z: Settings) returns (r: seq<Message>)
      ensures r == Projected(view, z)
    {
      var unprojected := Tokens(view, z.cost) + if z.hasTools then z.toolTokens else 0;
      if unprojected > z.trigger {
        var p := ToolProjection.ProjectStaleToolOutputs(view, z.policy);
        return p.messages;
      }
      return view;
    }

    method CompactConversation(transcript: seq<Message>, target: int, outcome: Outcome, z: Settings)
      returns (segment: seq<Message>, committed: bool)
      modifies this
      ensures Compacted(summarizedMessageCount, conversationSummary, segment, committed)
        == Compact(transcript, old(summarizedMessageCount), old(conversationSummary), target, outcome, z)
    {
      hide View, Projected, Trim, Tokens, ClampedCount, Budget, Slice, FirstIndexOf;
      var plain := BuildModelView(transcript, z.systemPrompt);
      var view := ProjectToolResults(plain, z);
      var trimmed := TrimMessages(view, Budget(z, target), z.cost, false);
      var removedCount := |view| - |trimmed|;
      if removedCount <= 0 { return [], false; }
      var viewStart := FirstIndexOf(view, System) + 1;
      var removed := Slice(view, viewStart, viewStart + removedCount);
      if outcome.Threw? || outcome.text == "" { return [], false; }
      if outcome.tokens >= Tokens(removed, z.cost) { return [], false; }
      conversationSummary := outcome.text;
      summarizedMessageCount := summarizedMessageCount + removedCount;
      return removed, true;
    }
  }

  // ----- runs ---------------------------------------------------------------------------------------------------

  datatype Step = Append(messages: seq<Message>) | Compress(target: int, outcome: Outcome, settings: Settings)

  // `segments` logs what was handed to the summarizer by every compaction that took effect.
  datatype Run = Run(transcript: seq<Message>, count: nat, summary: string, segments: seq<seq<Message>>)

  function Take(r: Run, step: Step): Run {
    match step
    case Append(ms) => r.(transcript := r.transcript + ms)
    case Compress(target, outcome, z) =>
      var c := Compact(r.transcript, r.count, r.summary, target, outcome, z);
      r.(count := c.count, summary := c.summary, segments := if c.committed then r.segments + [c.segment] else r.segments)
  }

  function TakeAll(r: Run, steps: seq<Step>): Run
    decreases steps
  {
    if steps == [] then r else TakeAll(Take(r, steps[0]), steps[1..])
  }

  // Equal but for the bodies of tool results.
  ghost predicate EqualUpToBodies(a: seq<Message>, b: seq<Message>) {
    |a| == |b| && forall i :: 0 <= i < |a| ==> a[i] == b[i].(content := a[i].content) && (a[i] != b[i] ==> b[i].role == Tool)
  }

  // The system message comes first, and there is a user message.
  predicate WellStarted(t: seq<Message>) { FirstIndexOf(t, System) == 0 && LastIndexOf(t, User) > 0 }

  // What has been summarized is the stretch after the system message that the count says, and ends
  // before the last user message.
  ghost predicate Aligned(r: Run) {
    && WellStarted(r.transcript)
    && 1 + r.count <= LastIndexOf(r.transcript, User)
    && EqualUpToBodies(Flatten(r.segments), r.transcript[1..1 + r.count])
  }

  lemma ProjectedEqual(view: seq<Message>, z: Settings)
    ensures EqualUpToBodies(Projected(view, z), view)
  {
    ToolProjection.ProjectTwice(view, z.policy);
  }

  lemma {:induction false} SameRolesSameIndex(a: seq<Message>, b: seq<Message>, role: Role)
    requires |a| == |b| && forall i :: 0 <= i < |a| ==> a[i].role == b[i].role
    ensures FirstIndexOf(a, role) == FirstIndexOf(b, role) && LastIndexOf(a, role) == LastIndexOf(b, role)
  {
    var i, j := FirstIndexOf(a, role), FirstIndexOf(b, role);
    assert i >= 0 ==> b[i].role == role;
    assert j >= 0 ==> a[j].role == role;
    var k, l := LastIndexOf(a, role), LastIndexOf(b, role);
    assert k >= 0 ==> b[k].role == role;
    assert l >= 0 ==> a[l].role == role;
  }

  lemma LastIs(ms: seq<Message>, role: Role, k: nat)
    requires k < |ms| && ms[k].role == role && forall j :: k < j < |ms| ==> ms[j].role != role
    ensures LastIndexOf(ms, role) == k
  {
  }

  lemma FirstIs(ms: seq<Message>, role: Role, k: nat)
    requires k < |ms| && ms[k].role == role && forall j :: 0 <= j < k ==> ms[j].role != role
    ensures FirstIndexOf(ms, role) == k
  {
  }

  // The view of an aligned run: the prompt, then everything not yet summarized.
  lemma ViewOfAligned(r: Run, prompt: Prompt)
    requires Aligned(r)
    ensures var view := View(r.transcript, r.count, prompt);
      && ClampedCount(r.transcript, r.count) == r.count
      && view == [prompt] + r.transcript[1 + r.count..]
      && FirstIndexOf(view, System) == 0
      && LastIndexOf(view, User) == LastIndexOf(r.transcript, User) - r.count
  {
    var t, u := r.transcript, LastIndexOf(r.transcript, User);
    var view := View(t, r.count, prompt);
    assert t[..0] + [prompt] == [prompt];
    FirstIs(view, System, 0);
    forall j | 1 <= j < |view| ensures view[j] == t[j + r.count] {}
    LastIs(view, User, u - r.count);
  }

  lemma {:induction false} FlattenAppend(a: seq<seq<Message>>, x: seq<Message>)
    ensures Flatten(a + [x]) == Flatten(a) + x
  {
    if a == [] {
      assert [] + [x] == [x] && [x][1..] == [];
      assert Flatten([x]) == x + Flatten([]);
    } else {
      FlattenAppend(a[1..], x);
      assert (a + [x])[1..] == a[1..] + [x];
      assert a[0] + (Flatten(a[1..]) + x) == a[0] + Flatten(a[1..]) + x;
    }
  }

  // The view a compaction works on, and how much trimming takes off it.
  function CompactedView(r: Run, z: Settings): seq<Message> {
    Projected(View(r.transcript, r.count, z.systemPrompt), z)
  }

  function RemovedCount(r: Run, target: int, z: Settings): int {
    |CompactedView(r, z)| - |Trim(CompactedView(r, z), Budget(z, target), z.cost, false)|
  }

  lemma CompactedViewOfAligned(r: Run, z: Settings)
    requires Aligned(r)
    ensures var view := CompactedView(r, z);
      && EqualUpToBodies(view, [z.systemPrompt] + r.transcript[1 + r.count..])
      && FirstIndexOf(view, System) == 0
      && LastIndexOf(view, User) == LastIndexOf(r.transcript, User) - r.count
  {
    hide Projected, View, Tokens, Aligned;
    assert 1 + r.count <= |r.transcript| by { RoomInTranscript(r); }
    var plain := View(r.transcript, r.count, z.systemPrompt);
    ViewOfAligned(r, z.systemPrompt);
    ProjectedEqual(plain, z);
    SameRolesSameIndex(CompactedView(r, z), plain, System);
    SameRolesSameIndex(CompactedView(r, z), plain, User);
  }

  lemma RoomInTranscript(r: Run)
    requires Aligned(r)
    ensures 1 + r.count <= LastIndexOf(r.transcript, User) < |r.transcript|
  {
  }

  // What a compaction of an aligned run removes: some leading messages of the view, ending before the
  // last user message, and exactly those go to the summarizer.
  lemma RemovedIsNext(r: Run, target: int, z: Settings)
    requires Aligned(r)
    ensures var removed := RemovedCount(r, target, z);
      && 0 <= removed && 1 + r.count + removed <= LastIndexOf(r.transcript, User)
      && EqualUpToBodies(Segment(CompactedView(r, z), removed), r.transcript[1 + r.count..1 + r.count + removed])
  {
    hide CompactedView, Trim, Tokens, Aligned, EqualUpToBodies, Segment, Budget;
    RoomInTranscript(r);
    CompactedViewOfAligned(r, z);
    RemovedBeforeUser(CompactedView(r, z), Budget(z, target), z.cost);
    SegmentOfView(r.transcript, r.count, z.systemPrompt, CompactedView(r, z), RemovedCount(r, target, z));
  }

  lemma RemovedBeforeUser(view: seq<Message>, budget: int, cost: Message -> nat)
    requires FirstIndexOf(view, System) == 0 && LastIndexOf(view, User) > 0
    ensures var removed := |view| - |Trim(view, budget, cost, false)|;
      0 <= removed && 1 + removed <= LastIndexOf(view, User)
  {
    if Tokens(view, cost) > budget {
      var p := TrimIsLeast(view, budget, cost, false);
      FromLength(view, p);
    } else {
      hide Tokens;
    }
  }

  lemma SegmentOfView(t: seq<Message>, count: nat, prompt: Message, view: seq<Message>, removed: nat)
    requires 1 + count + removed <= |t| && EqualUpToBodies(view, [prompt] + t[1 + count..]) && FirstIndexOf(view, System) == 0
    ensures EqualUpToBodies(Segment(view, removed), t[1 + count..1 + count + removed])
  {
    hide FirstIndexOf, EqualUpToBodies;
    var plain := [prompt] + t[1 + count..];
    assert |view| == |plain| by { EqualSizes(view, plain); }
    assert Segment(view, removed) == view[1..1 + removed];
    EqualSlices(view, plain, 1, 1 + removed);
    assert plain[1..1 + removed] == t[1 + count..1 + count + removed];
  }

  lemma EqualSizes(a: seq<Message>, b: seq<Message>)
    requires EqualUpToBodies(a, b)
    ensures |a| == |b|
  {
  }

  lemma EqualSlices(a: seq<Message>, b: seq<Message>, i: nat, j: nat)
    requires EqualUpToBodies(a, b) && i <= j <= |a| == |b|
    ensures EqualUpToBodies(a[i..j], b[i..j])
  {
  }

  lemma JoinEqual(a: seq<Message>, b: seq<Message>, x: seq<Message>, y: seq<Message>)
    requires EqualUpToBodies(a, x) && EqualUpToBodies(b, y)
    ensures EqualUpToBodies(a + b, x + y)
  {
    forall i | 0 <= i < |a + b|
      ensures (a + b)[i] == (x + y)[i].(content := (a + b)[i].content) && ((a + b)[i] != (x + y)[i] ==> (x + y)[i].role == Tool)
    {
      assert i < |a| ==> (a + b)[i] == a[i] && (x + y)[i] == x[i];
      assert i >= |a| ==> (a + b)[i] == b[i - |a|] && (x + y)[i] == y[i - |a|];
    }
  }

  lemma AppendKeepsAligned(r: Run, ms: seq<Message>)
    requires Aligned(r)
    ensures Aligned(r.(transcript := r.transcript + ms))
  {
    var t := r.transcript + ms;
    var u := LastIndexOf(r.transcript, User);
    FirstIs(t, System, 0);
    assert t[u].role == User;
    assert LastIndexOf(t, User) >= u;
    assert t[1..1 + r.count] == r.transcript[1..1 + r.count];
  }

  lemma CompactFacts(r: Run, target: int, outcome: Outcome, z: Settings)
    ensures var c := Compact(r.transcript, r.count, r.summary, target, outcome, z);
      if c.committed then
        RemovedCount(r, target, z) > 0 && c.segment == Segment(CompactedView(r, z), RemovedCount(r, target, z))
        && c.count == ClampedCount(r.transcript, r.count) + RemovedCount(r, target, z)
      else c.count == ClampedCount(r.transcript, r.count)
  {
    hide View, Projected, Trim, Tokens, ClampedCount, Budget, Segment;
  }

  lemma SegmentExtends(r: Run, segment: seq<Message>, count: nat)
    requires Aligned(r) && r.count <= count && 1 + count <= LastIndexOf(r.transcript, User)
    requires EqualUpToBodies(segment, r.transcript[1 + r.count..1 + count])
    ensures EqualUpToBodies(Flatten(r.segments + [segment]), r.transcript[1..1 + count])
  {
    hide EqualUpToBodies, Flatten;
    var t := r.transcript;
    FlattenAppend(r.segments, segment);
    JoinEqual(Flatten(r.segments), segment, t[1..1 + r.count], t[1 + r.count..1 + count]);
    assert t[1..1 + r.count] + t[1 + r.count..1 + count] == t[1..1 + count];
  }

  // The segment that is summarized starts where the last one ended, whatever the summarizer answers.
  lemma CompressKeepsAligned(r: Run, target: int, outcome: Outcome, z: Settings)
    requires Aligned(r)
    ensures Aligned(Take(r, Compress(target, outcome, z)))
  {
    hide Compact, RemovedCount, CompactedView, View, Segment, EqualUpToBodies,
      WellStarted, Flatten, FirstIndexOf, LastIndexOf, ClampedCount;
    ViewOfAligned(r, z.systemPrompt);
    RemovedIsNext(r, target, z);
    CompactFacts(r, target, outcome, z);
    var c := Compact(r.transcript, r.count, r.summary, target, outcome, z);
    if c.committed { SegmentExtends(r, c.segment, c.count); }
  }

  lemma TakeKeepsAligned(r: Run, step: Step)
    requires Aligned(r)
    ensures Aligned(Take(r, step))
  {
    hide Aligned;
    match step
    case Append(ms) =>
      AppendKeepsAligned(r, ms);
      hide *;
      TakeAppend(r, ms);
    case Compress(target, outcome, z) => CompressKeepsAligned(r, target, outcome, z);
  }

  lemma TakeAppend(r: Run, ms: seq<Message>)
    ensures Take(r, Append(ms)) == r.(transcript := r.transcript + ms)
  {
    hide Compact;
  }

  lemma {:induction false} StepsKeepAligned(r: Run, steps: seq<Step>)
    requires Aligned(r)
    ensures Aligned(TakeAll(r, steps))
    decreases steps
  {
    hide Take, Aligned;
    if steps != [] {
      TakeKeepsAligned(r, steps[0]);
      StepsKeepAligned(Take(r, steps[0]), steps[1..]);
    }
  }

  lemma FreshRunIsAligned(t: seq<Message>)
    requires WellStarted(t)
    ensures Aligned(Run(t, 0, "", []))
  {
    hide FirstIndexOf, LastIndexOf;
  }

  // Over any run of appends and compactions, successful or not, with any settings in each: the summarized
  // segments follow each other without gap or overlap and make up exactly the messages that the count says,
  // up to shortened tool results; none of them is at or after the last user message; and the view is the
  // system prompt of the moment followed by exactly the rest.
  lemma RunStaysAligned(t: seq<Message>, steps: seq<Step>, prompt: Prompt)
    requires WellStarted(t)
    ensures var e := TakeAll(Run(t, 0, "", []), steps);
      && Aligned(e) && View(e.transcript, e.count, prompt) == [prompt] + e.transcript[1 + e.count..]
  {
    hide Take, TakeAll, View, Aligned, WellStarted, Flatten, FirstIndexOf, LastIndexOf, EqualUpToBodies;
    var begun := Run(t, 0, "", []);
    FreshRunIsAligned(t);
    StepsKeepAligned(begun, steps);
    ViewOfAligned(TakeAll(begun, steps), prompt);
  }

  // A compaction that does not take effect leaves the view as it was.
  lemma FailedCompactionChangesNothing(r: Run, target: int, outcome: Outcome, z: Settings)
    requires !Compact(r.transcript, r.count, r.summary, target, outcome, z).committed
    ensures var e := Take(r, Compress(target, outcome, z));
      && e.summary == r.summary && e.segments == r.segments && e.transcript == r.transcript
      && View(e.transcript, e.count, z.systemPrompt) == View(r.transcript, r.count, z.systemPrompt)
  {
    hide Projected, Trim, Tokens;
  }

  // ----- what a compaction does ---------------------------------------------------------------------------------

  // Trimming removes something, and the answer is not empty and cheaper than the messages removed.
  predicate TakesEffect(r: Run, target: int, outcome: Outcome, z: Settings) {
    && RemovedCount(r, target, z) > 0
    && outcome.Answered? && outcome.text != ""
    && outcome.tokens < Tokens(Segment(CompactedView(r, z), RemovedCount(r, target, z)), z.cost)
  }

  // A compaction takes effect exactly then: the answer becomes the summary, the messages removed are handed
  // over and counted. Otherwise nothing but a count that is too large changes.
  lemma EffectIff(r: Run, target: int, outcome: Outcome, z: Settings)
    ensures var e, c := Take(r, Compress(target, outcome, z)), Compact(r.transcript, r.count, r.summary, target, outcome, z);
      && (c.committed <==> TakesEffect(r, target, outcome, z))
      && e.transcript == r.transcript
      && if TakesEffect(r, target, outcome, z) then
           && e.summary == outcome.text
           && e.count == ClampedCount(r.transcript, r.count) + RemovedCount(r, target, z)
           && e.segments == r.segments + [Segment(CompactedView(r, z), RemovedCount(r, target, z))]
         else e.summary == r.summary && e.count == ClampedCount(r.transcript, r.count) && e.segments == r.segments
  {
    hide View, Projected, Trim, Tokens, ClampedCount, Budget, Segment;
  }

  // What a compaction may keep: the smaller of the target and the limit of the model, with the tools.
  predicate Fits(tokens: nat, target: int, z: Settings) {
    var room := if target < 0 then 0 else if target < z.maxInputTokens then target else z.maxInputTokens;
    tokens == 0 || tokens + z.toolTokens <= room
  }

  lemma BudgetIsRoom(tokens: nat, target: int, z: Settings)
    ensures tokens <= Budget(z, target) <==> Fits(tokens, target, z)
  {
  }

  // It works on the view as it is unless that is over the trigger, and then on the projected one.
  lemma ProjectedIffOver(r: Run, z: Settings)
    ensures var view := View(r.transcript, r.count, z.systemPrompt);
      var size := Tokens(view, z.cost) + if z.hasTools then z.toolTokens else 0;
      CompactedView(r, z) == if size <= z.trigger then view else ToolProjection.Project(view, z.policy)
  {
    hide View, Tokens;
  }

  // A compaction of an aligned run removes nothing when the view fits. Otherwise it removes whole turns from the
  // oldest on, the fewest after which the rest fits, or all but the current one.
  lemma RemovesLeast(r: Run, target: int, z: Settings)
    requires Aligned(r)
    ensures var view := CompactedView(r, z);
      if Fits(Tokens(view, z.cost), target, z) then RemovedCount(r, target, z) == 0
      else exists p :: 1 <= p <= CurrentStart(view) && RemovedCount(r, target, z) == p - 1 && LeastCut(view, p, target, z)
  {
    hide CompactedView, Tokens, Trim, Budget, Fits, FirstIndexOf, LastIndexOf, LeastCut;
    RoomInTranscript(r);
    CompactedViewOfAligned(r, z);
    var view := CompactedView(r, z);
    BudgetIsRoom(Tokens(view, z.cost), target, z);
    if Fits(Tokens(view, z.cost), target, z) {
      TrimmedWithin(view, Budget(z, target), z.cost);
    } else {
      var p := CutOf(view, target, z);
    }
  }

  lemma TrimmedWithin(view: seq<Message>, budget: int, cost: Message -> nat)
    requires Tokens(view, cost) <= budget
    ensures Trim(view, budget, cost, false) == view
  {
  }

  // From `p` on the view fits, or only the current turn is left; from any earlier turn on it does not.
  ghost predicate LeastCut(view: seq<Message>, p: nat, target: int, z: Settings)
    requires p <= |view|
  {
    && TurnStart(view, p)
    && (Fits(Tokens(From(view, p), z.cost), target, z) || p == CurrentStart(view))
    && forall q :: 1 <= q < p && TurnStart(view, q) ==> !Fits(Tokens(From(view, q), z.cost), target, z)
  }

  lemma CutOf(view: seq<Message>, target: int, z: Settings) returns (p: nat)
    requires FirstIndexOf(view, System) == 0 && !Fits(Tokens(view, z.cost), target, z)
    ensures 1 <= p <= CurrentStart(view) && LeastCut(view, p, target, z)
    ensures |view| - |Trim(view, Budget(z, target), z.cost, false)| == p - 1
  {
    hide Tokens, Trim, Budget, Fits, LastIndexOf, From;
    BudgetIsRoom(Tokens(view, z.cost), target, z);
    p := TrimIsLeast(view, Budget(z, target), z.cost, false);
    FromLength(view, p);
    BudgetIsRoom(Tokens(From(view, p), z.cost), target, z);
    forall q | 1 <= q < p && TurnStart(view, q) ensures !Fits(Tokens(From(view, q), z.cost), target, z) {
      BudgetIsRoom(Tokens(From(view, q), z.cost), target, z);
    }
  }

  // The answer of a step, if it is a compaction that takes effect.
  function Answer(r: Run, step: Step): seq<string> {
    if step.Compress? && TakesEffect(r, step.target, step.outcome, step.settings) then [step.outcome.text] else []
  }

  // The answers that took effect, in order.
  function Answers(r: Run, steps: seq<Step>): seq<string>
    decreases steps
  {
    if steps == [] then [] else Answer(r, steps[0]) + Answers(Take(r, steps[0]), steps[1..])
  }

  function LastOr(texts: seq<string>, otherwise: string): string {
    if texts == [] then otherwise else texts[|texts| - 1]
  }

  lemma StepSummary(r: Run, step: Step)
    ensures var e := Take(r, step);
      e.summary == LastOr(Answer(r, step), r.summary) && |e.segments| == |r.segments| + |Answer(r, step)|
  {
    hide TakesEffect, Compact;
    if step.Compress? { EffectIff(r, step.target, step.outcome, step.settings); }
  }

  // After any run the summary is the text of the last compaction that took effect, or the old one when there
  // was none, and every one that did has handed over one segment.
  lemma {:induction false} SummaryIsTheLast(r: Run, steps: seq<Step>)
    ensures var e := TakeAll(r, steps);
      e.summary == LastOr(Answers(r, steps), r.summary) && |e.segments| == |r.segments| + |Answers(r, steps)|
    decreases steps
  {
    if steps != [] {
      hide Answer, Take;
      StepSummary(r, steps[0]);
      SummaryIsTheLast(Take(r, steps[0]), steps[1..]);
    }
  }

  function Appended(steps: seq<Step>): seq<Message>
    decreases steps
  {
    if steps == [] then [] else (if steps[0].Append? then steps[0].messages else []) + Appended(steps[1..])
  }

  // The transcript itself is only ever appended to.
  lemma {:induction false} TranscriptIsAppended(r: Run, steps: seq<Step>)
    ensures TakeAll(r, steps).transcript == r.transcript + Appended(steps)
    decreases steps
  {
    if steps != [] {
      hide Compact;
      TranscriptIsAppended(Take(r, steps[0]), steps[1..]);
    }
  }

  // ----- where the alignment needs its conditions ---------------------------------------------------------------

  lemma LaterIndices(ms: seq<Message>)
    requires 0 < FirstIndexOf(ms, System) < LastIndexOf(ms, User)
    ensures var s := FirstIndexOf(ms, System);
      FirstIndexOf(ms[s..], System) == 0 && LastIndexOf(ms[s..], User) == LastIndexOf(ms, User) - s
  {
    var s, u := FirstIndexOf(ms, System), LastIndexOf(ms, User);
    FirstIs(ms[s..], System, 0);
    LastIs(ms[s..], User, u - s);
  }

  lemma SplitAt(ms: seq<Message>, s: nat, u: nat)
    requires FirstIndexOf(ms, System) == s < u == LastIndexOf(ms, User)
    ensures Split(ms) == Parts([ms[s]], Turns(ms[s + 1..u]), ms[u..])
  {
    hide Turns, FirstIndexOf, LastIndexOf;
  }

  lemma LaterSystem(ms: seq<Message>)
    requires 0 < FirstIndexOf(ms, System) < LastIndexOf(ms, User)
    ensures Split(ms) == Split(ms[FirstIndexOf(ms, System)..])
  {
    hide Turns, FirstIndexOf, LastIndexOf, Split;
    LaterIndices(ms);
    var s, u := FirstIndexOf(ms, System), LastIndexOf(ms, User);
    SplitAt(ms, s, u);
    SplitAt(ms[s..], 0, u - s);
    LaterSlices(ms, s, u);
  }

  lemma LaterSlices(ms: seq<Message>, s: nat, u: nat)
    requires s < u <= |ms|
    ensures ms[s..][1..u - s] == ms[s + 1..u] && ms[s..][u - s..] == ms[u..]
  {
  }

  lemma TrimIsAssembled(ms: seq<Message>, budget: int, cost: Message -> nat)
    requires Tokens(ms, cost) > budget
    ensures Trim(ms, budget, cost, false) == Assemble(Split(ms), LeastTurns(Split(ms), 0, budget, cost), 0)
  {
    hide Split, Tokens, Assemble, LeastTurns;
  }

  lemma TrimWithLeading(view: seq<Message>, budget: int, cost: Message -> nat) returns (q: nat)
    requires 0 < FirstIndexOf(view, System) < LastIndexOf(view, User)
    requires Tokens(view, cost) > budget
    ensures var s := FirstIndexOf(view, System);
      1 <= q && s + q <= LastIndexOf(view, User) && Trim(view, budget, cost, false) == [view[s]] + view[s + q..]
  {
    hide Split, Tokens, Assemble, FirstIndexOf, LastIndexOf, TurnStart, TooMuchBefore, LeastTurns, Trim, TokensAt;
    LaterIndices(view);
    LaterSystem(view);
    var s := FirstIndexOf(view, System);
    TrimIsAssembled(view, budget, cost);
    q := TurnsDroppedAreLeast(view[s..], budget, cost);
    assert view[s..][q..] == view[s + q..];
    assert view[s..][..1] == [view[s]];
  }

  // When messages precede the system message, trimming drops them too and they are counted as
  // summarized: the segment runs that many messages too far.
  lemma LeadingMessagesShiftTheSegment(view: seq<Message>, budget: int, cost: Message -> nat)
    requires 0 < FirstIndexOf(view, System) < LastIndexOf(view, User)
    requires Tokens(view, cost) > budget
    ensures var s := FirstIndexOf(view, System);
      var removed := |view| - |Trim(view, budget, cost, false)|;
      && s <= removed && 1 + removed <= LastIndexOf(view, User)
      && Trim(view, budget, cost, false) == [view[s]] + view[1 + removed..]
      && Segment(view, removed) != view[s + 1..1 + removed]
  {
    hide Trim, Tokens, FirstIndexOf, LastIndexOf;
    var q := TrimWithLeading(view, budget, cost);
    var s := FirstIndexOf(view, System);
    var removed := |view| - |Trim(view, budget, cost, false)|;
    assert removed == s + q - 1;
    assert |Segment(view, removed)| > |view[s + 1..1 + removed]|;
  }

  lemma ClampedTo(t: seq<Message>, count: nat)
    requires ClampedCount(t, count) != count
    ensures var s, u := FirstIndexOf(t, System), LastIndexOf(t, User);
      && (s >= 0 && u <= s ==> ClampedCount(t, count) == 0)
      && (0 <= s < u ==> s + 1 + ClampedCount(t, count) == u <= s + 1 + count)
  {
    hide FirstIndexOf, LastIndexOf;
  }

  // What is in view when the count does not survive.
  function ViewAfterClamp(t: seq<Message>, prompt: Prompt): seq<Message> {
    var s, u := FirstIndexOf(t, System), LastIndexOf(t, User);
    if s < 0 then [prompt] + t else t[..s] + [prompt] + t[if u <= s then s + 1 else u..]
  }

  // The count survives the next view exactly when the transcript has a system message with that many
  // messages between it and the last user message. Otherwise exactly the counted messages from the last user
  // message on come back into view, or all of them when that message does not follow the system message.
  lemma CountSurvivesIff(t: seq<Message>, count: nat, prompt: Prompt)
    requires count > 0
    ensures ClampedCount(t, count) == count <==>
      FirstIndexOf(t, System) >= 0 && FirstIndexOf(t, System) + count < LastIndexOf(t, User)
    ensures ClampedCount(t, count) != count ==> View(t, count, prompt) == ViewAfterClamp(t, prompt)
  {
    hide FirstIndexOf, LastIndexOf, ClampedCount, View, ViewAfterClamp;
    ClampSurvives(t, count);
    if ClampedCount(t, count) != count { ClampedView(t, count, prompt); }
  }

  lemma ClampedView(t: seq<Message>, count: nat, prompt: Prompt)
    requires ClampedCount(t, count) != count
    ensures View(t, count, prompt) == ViewAfterClamp(t, prompt)
  {
    hide FirstIndexOf, LastIndexOf, ClampedCount;
    ClampedTo(t, count);
  }

  lemma ClampSurvives(t: seq<Message>, count: nat)
    requires count > 0
    ensures ClampedCount(t, count) == count <==>
      FirstIndexOf(t, System) >= 0 && FirstIndexOf(t, System) + count < LastIndexOf(t, User)
  {
    hide FirstIndexOf, LastIndexOf;
  }
}
