// Messages of a conversation, as far as the context code looks at them.
module Transcript {
  datatype Role = System | User | Assistant | Tool

  // `calls` are the ids of an assistant's tool calls, `toolCallId` the call a tool result answers;
  // `rest` stands for every other field of a message.
  datatype Message = Message(role: Role, content: string, calls: seq<string>, toolCallId: string, rest: string)

  function Count(ms: seq<Message>, role: Role): nat {
    if ms == [] then 0 else Count(ms[..|ms| - 1], role) + if ms[|ms| - 1].role == role then 1 else 0
  }

  lemma {:induction false} CountAppend(a: seq<Message>, b: seq<Message>, role: Role)
    ensures Count(a + b, role) == Count(a, role) + Count(b, role)
  {
    if b == [] {
      assert a + b == a;
    } else {
      CountAppend(a, b[..|b| - 1], role);
      assert (a + b)[..|a + b| - 1] == a + b[..|b| - 1];
    }
  }

  lemma CountPrefix(ms: seq<Message>, i: nat, j: nat, role: Role)
    requires i <= j <= |ms|
    ensures Count(ms[..i], role) <= Count(ms[..j], role)
  {
    CountAppend(ms[..i], ms[i..j], role);
    assert ms[..i] + ms[i..j] == ms[..j];
  }

  // The index of the last message with this role, -1 when there is none.
  function LastIndexOf(ms: seq<Message>, role: Role): (r: int)
    ensures -1 <= r < |ms|
    ensures r >= 0 ==> ms[r].role == role
    ensures forall k :: r < k < |ms| ==> ms[k].role != role
  {
    if ms == [] then -1
    else if ms[|ms| - 1].role == role then |ms| - 1
    else LastIndexOf(ms[..|ms| - 1], role)
  }

  // The index of the first message with this role, -1 when there is none.
  function FirstIndexOf(ms: seq<Message>, role: Role): (r: int)
    ensures -1 <= r < |ms|
    ensures r >= 0 ==> ms[r].role == role
    ensures forall k :: 0 <= k < (if r < 0 then |ms| else r) ==> ms[k].role != role
  {
    if ms == [] then -1
    else if ms[0].role == role then 0
    else
      var k := FirstIndexOf(ms[1..], role);
      if k < 0 then -1 else k + 1
  }
}
