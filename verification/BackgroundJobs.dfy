// Background jobs of one session (src/sandbox/background-jobs.ts:73-317): who may run, what of their
// output is kept and read, and which completions are announced. Job `job-<n>` is the n-th of the table.
module BackgroundJobs {
  import opened Optional

  const MAX_JOBS := 4
  const MAX_NOTIFICATIONS := 64

  datatype Status = Running | Succeeded | Failed | Killed

  // A job that has ended is `announced` a little later, by a callback of its own. `stream` logs everything
  // the executor has pushed.
  datatype Job = Job(
    status: Status, announced: bool, buffer: string, overflow: bool, killRequested: bool, aborted: bool, stream: string)

  function NewJob(parentAborted: bool): Job { Job(Running, false, "", false, false, parentAborted, "") }

  datatype Notification = Notification(jobId: nat, status: Status)

  datatype Output = Output(text: string, nextOffset: nat, truncated: bool)

  // `all` are the records of every job ever started, `ids` the number each was given; `table` lists the
  // ones the session still knows. Disposing of a session empties the table and starts counting anew,
  // while executors that are still at work keep their records.
  datatype Registry = Registry(all: seq<Job>, ids: seq<nat>, table: seq<nat>, queue: seq<Notification>)

  const EMPTY := Registry([], [], [], [])

  // ----- what each call does ------------------------------------------------------------------------------------

  function CountRunning(all: seq<Job>, table: seq<nat>): nat {
    if table == [] then 0
    else
      var r := table[|table| - 1];
      CountRunning(all, table[..|table| - 1]) + if r < |all| && all[r].status == Running then 1 else 0
  }

  function Start(g: Registry, parentAborted: bool): Registry {
    if CountRunning(g.all, g.table) >= MAX_JOBS then g
    else
      g.(all := g.all + [NewJob(parentAborted)], ids := g.ids + [|g.table| + 1],
         table := g.table + [|g.all|])
  }

  // A chunk is kept whole or not at all, and after the first that does not fit none is kept.
  function Push(j: Job, chunk: string, cap: nat): Job {
    var k := j.(stream := j.stream + chunk);
    if j.overflow || chunk == "" then k
    else if |j.buffer| + |chunk| > cap then k.(overflow := true)
    else k.(buffer := j.buffer + chunk)
  }

  function Enqueue(queue: seq<Notification>, n: Notification): seq<Notification> {
    if |queue| >= MAX_NOTIFICATIONS then queue else queue + [n]
  }

  // The executor ends: by itself (`exited`), or with an error.
  function EndStatus(j: Job, exited: bool, success: bool): Status {
    if exited then (if success then Succeeded else Failed) else if j.killRequested || j.aborted then Killed else Failed
  }

  function Settle(g: Registry, r: nat, exited: bool, success: bool): Registry {
    if r >= |g.all| || g.all[r].status != Running then g
    else g.(all := g.all[r := g.all[r].(status := EndStatus(g.all[r], exited, success))])
  }

  // The callback after that: the end is announced under the number the job was given.
  function Announce(g: Registry, r: nat): Registry {
    if r >= |g.all| || r >= |g.ids| || g.all[r].status == Running || g.all[r].announced then g
    else
      g.(all := g.all[r := g.all[r].(announced := true)],
         queue := Enqueue(g.queue, Notification(g.ids[r], g.all[r].status)))
  }

  function Record(g: Registry, id: nat): Option<nat> {
    if 1 <= id <= |g.table| && g.table[id - 1] < |g.all| then Some(g.table[id - 1]) else None
  }

  function ReadFrom(j: Job, offset: int): Output {
    var from := if offset < 0 then 0 else if offset > |j.buffer| then |j.buffer| else offset;
    Output(j.buffer[from..], |j.buffer|, j.overflow)
  }

  function KillJob(j: Job): Job { if j.status == Running then j.(killRequested := true, aborted := true) else j }

  function Kill(g: Registry, id: nat): Registry {
    match Record(g, id)
    case None => g
    case Some(r) => g.(all := g.all[r := KillJob(g.all[r])])
  }

  // The signal of the run that started the job, listened to until the end is announced.
  function AbortByParent(g: Registry, r: nat): Registry {
    if r < |g.all| && !g.all[r].announced then g.(all := g.all[r := g.all[r].(aborted := true)]) else g
  }

  function Dispose(g: Registry): Registry {
    g.(all := seq(|g.all|, r requires 0 <= r < |g.all| => if r in g.table then KillJob(g.all[r]) else g.all[r]),
       table := [], queue := [])
  }

  datatype Call =
    | Launch(parentAborted: bool) | Chunk(r: nat, text: string) | End(r: nat, exited: bool, success: bool)
    | Finally(r: nat) | UserKill(id: nat) | ParentAbort(r: nat) | Drain | Discard

  function Apply(g: Registry, c: Call, cap: nat): Registry {
    match c
    case Launch(parentAborted) => Start(g, parentAborted)
    case Chunk(r, text) => if r < |g.all| then g.(all := g.all[r := Push(g.all[r], text, cap)]) else g
    case End(r, exited, success) => Settle(g, r, exited, success)
    case Finally(r) => Announce(g, r)
    case UserKill(id) => Kill(g, id)
    case ParentAbort(r) => AbortByParent(g, r)
    case Drain => g.(queue := [])
    case Discard => Dispose(g)
  }

  function ApplyAll(g: Registry, calls: seq<Call>, cap: nat): Registry
    decreases calls
  {
    if calls == [] then g else ApplyAll(Apply(g, calls[0], cap), calls[1..], cap)
  }

  // ----- the registry as it runs ----------------------------------------------------------------------------------

  class JobRegistry {
    const cap: nat
    var all: seq<Job>
    var ids: seq<nat>
    var table: seq<nat>
    var queue: seq<Notification>

    function Contents(): Registry
      reads this
    {
      Registry(all, ids, table, queue)
    }

    constructor (cap: nat)
      ensures Contents() == EMPTY && this.cap == cap
    {
      this.cap := cap;
      all, ids, table, queue := [], [], [], [];
    }

    method StartJob(parentAborted: bool) returns (jobId: Option<nat>)
      modifies this
      ensures Contents() == Start(old(Contents()), parentAborted)
      ensures jobId.None? <==> CountRunning(old(all), old(table)) >= MAX_JOBS
      ensures jobId.Some? ==> Record(Contents(), jobId.value) == Some(|old(all)|)
    {
      var running := 0;
      for i := 0 to |table|
        invariant running == CountRunning(all, table[..i])
      {
        assert table[..i + 1][..i] == table[..i];
        if table[i] < |all| && all[table[i]].status == Running { running := running + 1; }
      }
      assert table[..|table|] == table;
      if running >= MAX_JOBS { return None; }
      all := all + [NewJob(parentAborted)];
      ids := ids + [|table| + 1];
      table := table + [|all| - 1];
      return Some(|table|);
    }

    method OnOutput(r: nat, chunk: string)
      requires r < |all|
      modifies this`all
      ensures Contents() == Apply(old(Contents()), Chunk(r, chunk), cap)
    {
      var j := all[r];
      all := all[r := j.(stream := j.stream + chunk)];
      if j.overflow || |chunk| == 0 { return; }
      if |j.buffer| + |chunk| > cap {
        all := all[r := all[r].(overflow := true)];
        return;
      }
      all := all[r := all[r].(buffer := j.buffer + chunk)];
    }

    method OnExit(r: nat, exited: bool, success: bool)
      requires r < |all| && all[r].status == Running
      modifies this`all
      ensures Contents() == Apply(old(Contents()), End(r, exited, success), cap)
    {
      if exited {
        all := all[r := all[r].(status := if success then Succeeded else Failed)];
      } else {
        all := all[r := all[r].(status := if all[r].killRequested || all[r].aborted then Killed else Failed)];
      }
    }

    method OnFinally(r: nat)
      requires r < |all| && r < |ids| && all[r].status != Running && !all[r].announced
      modifies this`all, this`queue
      ensures Contents() == Apply(old(Contents()), Finally(r), cap)
    {
      all := all[r := all[r].(announced := true)];
      if |queue| >= MAX_NOTIFICATIONS { return; }
      queue := queue + [Notification(ids[r], all[r].status)];
    }

    method KillJobById(id: nat) returns (ok: bool)
      modifies this`all
      ensures Contents() == Apply(old(Contents()), UserKill(id), cap)
      ensures ok <==> Record(old(Contents()), id).Some?
    {
      if id < 1 || id > |table| || table[id - 1] >= |all| { return false; }
      var r := table[id - 1];
      if all[r].status == Running {
        all := all[r := all[r].(killRequested := true)];
        all := all[r := all[r].(aborted := true)];
      }
      return true;
    }

    method OnParentAbort(r: nat)
      requires r < |all| && !all[r].announced
      modifies this`all
      ensures Contents() == Apply(old(Contents()), ParentAbort(r), cap)
    {
      all := all[r := all[r].(aborted := true)];
    }

    method ReadOutput(id: nat, offset: int) returns (o: Option<Output>)
      ensures o == match Record(Contents(), id) case Some(r) => Some(ReadFrom(all[r], offset)) case None => None
    {
      if 1 <= id <= |table| && table[id - 1] < |all| {
        var buffer := all[table[id - 1]].buffer;
        var from := if offset < |buffer| then offset else |buffer|;
        if from < 0 { from := 0; }
        return Some(Output(buffer[from..], |buffer|, all[table[id - 1]].overflow));
      }
      return None;
    }

    method DrainNotifications() returns (drained: seq<Notification>)
      modifies this`queue
      ensures drained == old(queue) && Contents() == Apply(old(Contents()), Drain, cap)
    {
      drained := queue;
      queue := [];
    }

    method DisposeSession()
      modifies this
      ensures Contents() == Dispose(old(Contents()))
    {
      ghost var was := all;
      for i := 0 to |table|
        invariant table == old(table) && ids == old(ids) && i <= |table| && |all| == |was|
        invariant forall r :: 0 <= r < |was| ==> all[r] == if r in table[..i] then KillJob(was[r]) else was[r]
      {
        assert table[..i + 1] == table[..i] + [table[i]];
        var r := table[i];
        if r < |all| && all[r].status == Running {
          all := all[r := all[r].(killRequested := true, aborted := true)];
        }
      }
      assert table[..|table|] == table;
      table := [];
      queue := [];
    }
  }

  // ----- what is kept of the output ---------------------------------------------------------------------------------

  // The buffer is the beginning of the stream, all of it until a chunk did not fit, and within the cap.
  ghost predicate JobOk(j: Job, cap: nat) {
    && j.buffer <= j.stream && |j.buffer| <= cap
    && (!j.overflow ==> j.buffer == j.stream)
    && (j.overflow ==> |j.stream| > cap)
  }

  ghost predicate TableOk(g: Registry) {
    && |g.ids| == |g.all|
    && (forall i :: 0 <= i < |g.table| ==> g.table[i] < |g.all| && g.ids[g.table[i]] == i + 1)
    && (forall i, j :: 0 <= i < j < |g.table| ==> g.table[i] < g.table[j])
  }

  ghost predicate Inv(g: Registry, cap: nat) {
    && TableOk(g)
    && (forall r :: 0 <= r < |g.all| ==> JobOk(g.all[r], cap))
    && CountRunning(g.all, g.table) <= MAX_JOBS
    && |g.queue| <= MAX_NOTIFICATIONS
  }

  // The places in the table whose job is running.
  ghost function RunningPlaces(all: seq<Job>, table: seq<nat>): set<nat> {
    set i: nat | i < |table| && table[i] < |all| && all[table[i]].status == Running
  }

  // What is counted are the running jobs the session knows.
  lemma {:induction false} CountsTheRunning(all: seq<Job>, table: seq<nat>)
    ensures CountRunning(all, table) == |RunningPlaces(all, table)|
  {
    if table == [] {
      assert RunningPlaces(all, table) == {};
    } else {
      var n := |table| - 1;
      CountsTheRunning(all, table[..n]);
      assert RunningPlaces(all, table[..n]) == RunningPlaces(all, table) - {n};
    }
  }

  // A launch is accepted exactly when fewer than four of the known jobs are running, and then the job runs under
  // the next number, with nothing kept of its output.
  lemma LaunchedIffRoom(g: Registry, parentAborted: bool)
    ensures var t := Start(g, parentAborted);
      if |RunningPlaces(g.all, g.table)| < 4 then
        && t.all == g.all + [Job(Running, false, "", false, false, parentAborted, "")] && t.queue == g.queue
        && t.ids == g.ids + [|g.table| + 1] && Record(t, |g.table| + 1) == Some(|g.all|)
      else t == g
  {
    CountsTheRunning(g.all, g.table);
    hide CountRunning, RunningPlaces;
  }

  lemma PushKeeps(j: Job, chunk: string, cap: nat)
    requires JobOk(j, cap)
    ensures JobOk(Push(j, chunk, cap), cap)
    ensures j.buffer <= Push(j, chunk, cap).buffer
  {
  }

  lemma {:induction false} NoMoreRunning(a: seq<Job>, b: seq<Job>, table: seq<nat>)
    requires |a| <= |b| && forall r :: 0 <= r < |a| && b[r].status == Running ==> a[r].status == Running
    requires forall i :: 0 <= i < |table| ==> table[i] < |a|
    ensures CountRunning(b, table) <= CountRunning(a, table)
  {
    if table != [] { NoMoreRunning(a, b, table[..|table| - 1]); }
  }

  lemma CountOneMore(all: seq<Job>, table: seq<nat>, r: nat)
    ensures CountRunning(all, table + [r]) == CountRunning(all, table) + if r < |all| && all[r].status == Running then 1 else 0
  {
    assert (table + [r])[..|table|] == table;
  }

  lemma StartKeeps(g: Registry, parentAborted: bool, cap: nat)
    requires Inv(g, cap)
    ensures Inv(Start(g, parentAborted), cap)
  {
    hide CountRunning;
    var t := Start(g, parentAborted);
    if t != g {
      NoMoreRunning(g.all, t.all, g.table);
      CountOneMore(t.all, g.table, |g.all|);
    }
  }

  lemma UpdateKeeps(g: Registry, r: nat, j: Job, queue: seq<Notification>, cap: nat)
    requires Inv(g, cap) && r < |g.all| && JobOk(j, cap) && |queue| <= MAX_NOTIFICATIONS
    requires j.status == Running ==> g.all[r].status == Running
    ensures Inv(g.(all := g.all[r := j], queue := queue), cap)
  {
    hide JobOk;
    NoMoreRunning(g.all, g.all[r := j], g.table);
  }

  lemma ApplyKeeps(g: Registry, c: Call, cap: nat)
    requires Inv(g, cap)
    ensures Inv(Apply(g, c, cap), cap)
  {
    hide CountRunning;
    match c
    case Launch(parentAborted) => StartKeeps(g, parentAborted, cap);
    case Chunk(r, text) =>
      if r < |g.all| {
        PushKeeps(g.all[r], text, cap);
        UpdateKeeps(g, r, Push(g.all[r], text, cap), g.queue, cap);
      }
    case End(r, exited, success) =>
      if r < |g.all| && g.all[r].status == Running {
        UpdateKeeps(g, r, g.all[r].(status := EndStatus(g.all[r], exited, success)), g.queue, cap);
      }
    case Finally(r) =>
      if r < |g.all| && g.all[r].status != Running && !g.all[r].announced {
        UpdateKeeps(g, r, g.all[r].(announced := true), Enqueue(g.queue, Notification(g.ids[r], g.all[r].status)), cap);
      }
    case UserKill(id) =>
      if Record(g, id).Some? { UpdateKeeps(g, Record(g, id).value, KillJob(g.all[Record(g, id).value]), g.queue, cap); }
    case ParentAbort(r) =>
      if r < |g.all| { UpdateKeeps(g, r, g.all[r].(aborted := true), g.queue, cap); }
    case Drain =>
    case Discard => DisposeKeeps(g, cap);
  }

  lemma DisposeKeeps(g: Registry, cap: nat)
    requires Inv(g, cap)
    ensures Inv(Dispose(g), cap)
  {
  }

  lemma {:induction false} CallsKeep(g: Registry, calls: seq<Call>, cap: nat)
    requires Inv(g, cap)
    ensures Inv(ApplyAll(g, calls, cap), cap)
    decreases calls
  {
    hide Inv, Apply;
    if calls != [] {
      ApplyKeeps(g, calls[0], cap);
      CallsKeep(Apply(g, calls[0], cap), calls[1..], cap);
    }
  }

  // In every history: at most four known jobs run, every buffer is the beginning of its stream (all of it
  // unless marked truncated), and at most 64 completions are waiting.
  lemma EveryHistory(calls: seq<Call>, cap: nat)
    ensures Inv(ApplyAll(EMPTY, calls, cap), cap)
  {
    CallsKeep(EMPTY, calls, cap);
  }

  // ----- reading by offset -------------------------------------------------------------------------------------------

  lemma BufferGrows(g: Registry, c: Call, cap: nat, r: nat)
    requires r < |g.all|
    ensures r < |Apply(g, c, cap).all| && g.all[r].buffer <= Apply(g, c, cap).all[r].buffer
  {
  }

  lemma {:induction false} BufferGrowsAlong(g: Registry, calls: seq<Call>, cap: nat, r: nat)
    requires r < |g.all|
    ensures r < |ApplyAll(g, calls, cap).all| && g.all[r].buffer <= ApplyAll(g, calls, cap).all[r].buffer
    decreases calls
  {
    if calls != [] {
      BufferGrows(g, calls[0], cap, r);
      BufferGrowsAlong(Apply(g, calls[0], cap), calls[1..], cap, r);
    }
  }

  // Polling: before each read some calls happen, and each read starts where the last one ended.
  datatype Polled = Polled(g: Registry, offset: nat, seen: string)

  function PollAll(p: Polled, r: nat, rounds: seq<seq<Call>>, cap: nat): Polled
    decreases rounds
  {
    if rounds == [] then p
    else
      var g := ApplyAll(p.g, rounds[0], cap);
      var o := if r < |g.all| then ReadFrom(g.all[r], p.offset) else Output("", p.offset, false);
      PollAll(Polled(g, o.nextOffset, p.seen + o.text), r, rounds[1..], cap)
  }

  // However often and whenever a job is polled, the pieces put together are its buffer: nothing is lost
  // and nothing is read twice.
  lemma {:induction false} PollingLosesNothing(p: Polled, r: nat, rounds: seq<seq<Call>>, cap: nat)
    requires r < |p.g.all| && p.seen <= p.g.all[r].buffer && p.offset == |p.seen|
    ensures var q := PollAll(p, r, rounds, cap);
      r < |q.g.all| && q.offset == |q.seen| && q.seen <= q.g.all[r].buffer && (rounds != [] ==> q.seen == q.g.all[r].buffer)
    decreases rounds
  {
    if rounds != [] {
      var g := ApplyAll(p.g, rounds[0], cap);
      BufferGrowsAlong(p.g, rounds[0], cap, r);
      var o := ReadFrom(g.all[r], p.offset);
      assert p.seen + o.text == g.all[r].buffer;
      PollingLosesNothing(Polled(g, o.nextOffset, p.seen + o.text), r, rounds[1..], cap);
    }
  }

  // ----- announcements -----------------------------------------------------------------------------------------------

  // What an announcement says is so: the job of that number has ended with that status.
  ghost predicate IsTrue(g: Registry, n: Notification) {
    && 1 <= n.jobId <= |g.table| && g.table[n.jobId - 1] < |g.all|
    && g.all[g.table[n.jobId - 1]].status == n.status && n.status != Running
  }

  ghost predicate QueueTrue(g: Registry) { forall n :: n in g.queue ==> IsTrue(g, n) }

  // A job still to be announced will be announced truly: if it runs, it has its number in the table; if it
  // has ended, what is going to be said of that number is so.
  ghost predicate Honest(g: Registry, r: nat)
    requires r < |g.all| && r < |g.ids|
  {
    if g.all[r].announced then true
    else if g.all[r].status == Running then 1 <= g.ids[r] <= |g.table| && g.table[g.ids[r] - 1] == r
    else IsTrue(g, Notification(g.ids[r], g.all[r].status))
  }

  ghost predicate AllHonest(g: Registry) {
    |g.ids| == |g.all| && forall r :: 0 <= r < |g.all| ==> Honest(g, r)
  }

  predicate NoDisposal(calls: seq<Call>) { forall i :: 0 <= i < |calls| ==> !calls[i].Discard? }

  // Whatever happens short of a disposal, all waiting announcements are and stay true.
  ghost predicate AlwaysTrue(g: Registry, cap: nat) {
    forall calls: seq<Call> :: NoDisposal(calls) ==> QueueTrue(ApplyAll(g, calls, cap))
  }

  // A job that has ended stays as it is.
  ghost predicate EndsStay(g: Registry, t: Registry) {
    && |g.all| <= |t.all| && g.table <= t.table
    && forall r :: 0 <= r < |g.all| && g.all[r].status != Running ==> t.all[r].status == g.all[r].status
  }

  lemma StaysTrue(g: Registry, t: Registry, n: Notification)
    requires EndsStay(g, t) && IsTrue(g, n)
    ensures IsTrue(t, n)
  {
  }

  lemma CallsKeepEnds(g: Registry, c: Call, cap: nat)
    requires !c.Discard?
    ensures EndsStay(g, Apply(g, c, cap))
  {
  }

  lemma HonestyStays(g: Registry, c: Call, cap: nat)
    requires AllHonest(g) && !c.Discard?
    ensures AllHonest(Apply(g, c, cap))
  {
    hide CountRunning, Enqueue;
    CallsKeepEnds(g, c, cap);
    var t := Apply(g, c, cap);
    forall r | 0 <= r < |t.all| ensures Honest(t, r) {
      if r < |g.all| {
        assert Honest(g, r);
        if !g.all[r].announced && g.all[r].status != Running { StaysTrue(g, t, Notification(g.ids[r], g.all[r].status)); }
      }
    }
  }

  lemma QueueStaysTrue(g: Registry, c: Call, cap: nat)
    requires QueueTrue(g) && AllHonest(g) && !c.Discard?
    ensures QueueTrue(Apply(g, c, cap))
  {
    hide CountRunning, Push, EndStatus;
    CallsKeepEnds(g, c, cap);
    var t := Apply(g, c, cap);
    forall n | n in t.queue ensures IsTrue(t, n) {
      if n in g.queue {
        StaysTrue(g, t, n);
      } else {
        assert c.Finally? && n == Notification(g.ids[c.r], g.all[c.r].status) && Honest(g, c.r);
        StaysTrue(g, t, n);
      }
    }
  }

  lemma {:induction false} HonestRun(g: Registry, calls: seq<Call>, cap: nat)
    requires QueueTrue(g) && AllHonest(g) && NoDisposal(calls)
    ensures QueueTrue(ApplyAll(g, calls, cap)) && AllHonest(ApplyAll(g, calls, cap))
    decreases calls
  {
    if calls != [] {
      hide Apply, QueueTrue, AllHonest;
      HonestyStays(g, calls[0], cap);
      QueueStaysTrue(g, calls[0], cap);
      HonestRun(Apply(g, calls[0], cap), calls[1..], cap);
    }
  }

  // How a job that is not honest gets announced falsely: it ends, in the other way if the job that has its
  // number now ended in the first, room is made in the queue, and the callback announces it.
  function Exposing(g: Registry, r: nat, success: bool): seq<Call> { [Drain, End(r, true, success), Finally(r)] }

  lemma ExposedQueue(g: Registry, r: nat, success: bool, cap: nat)
    requires r < |g.all| && r < |g.ids| && !g.all[r].announced
    ensures var status := if g.all[r].status == Running then EndStatus(g.all[r], true, success) else g.all[r].status;
      var t := ApplyAll(g, Exposing(g, r, success), cap);
      && t.queue == [Notification(g.ids[r], status)] && t.table == g.table && |t.all| == |g.all|
      && (forall k :: 0 <= k < |g.all| && k != r ==> t.all[k] == g.all[k]) && t.all[r].status == status
  {
    var calls := Exposing(g, r, success);
    var a := Apply(g, Drain, cap);
    var b := Apply(a, End(r, true, success), cap);
    assert calls[1..][0] == calls[1] && calls[1..][1..][0] == calls[2] && calls[1..][1..][1..] == [];
    assert ApplyAll(g, calls, cap) == ApplyAll(a, calls[1..], cap) == ApplyAll(b, calls[1..][1..], cap)
      == ApplyAll(Apply(b, Finally(r), cap), [], cap);
  }

  lemma DishonestIsExposed(g: Registry, r: nat, cap: nat) returns (calls: seq<Call>)
    requires r < |g.all| == |g.ids| && !Honest(g, r)
    ensures NoDisposal(calls) && !QueueTrue(ApplyAll(g, calls, cap))
  {
    var id := g.ids[r];
    var heldByOther := 1 <= id <= |g.table| && g.table[id - 1] < |g.all|;
    var success := !(heldByOther && g.all[g.table[id - 1]].status == Succeeded);
    calls := Exposing(g, r, success);
    ExposedQueue(g, r, success, cap);
    var t := ApplyAll(g, calls, cap);
    assert t.queue[0] in t.queue && !IsTrue(t, t.queue[0]);
  }

  // The exact condition for truth: short of a disposal, all announcements are and stay true exactly when the
  // waiting ones are and every job still to be announced is honest.
  lemma AnnouncementsAreTrueIff(g: Registry, cap: nat)
    requires |g.ids| == |g.all|
    ensures AlwaysTrue(g, cap) <==> QueueTrue(g) && AllHonest(g)
  {
    if AlwaysTrue(g, cap) {
      assert ApplyAll(g, [], cap) == g && NoDisposal([]);
      forall r | 0 <= r < |g.all| ensures Honest(g, r) {
        if !Honest(g, r) {
          var calls := DishonestIsExposed(g, r, cap);
          assert false;
        }
      }
    }
    if QueueTrue(g) && AllHonest(g) {
      forall calls: seq<Call> | NoDisposal(calls) ensures QueueTrue(ApplyAll(g, calls, cap)) {
        HonestRun(g, calls, cap);
      }
    }
  }

  predicate AllAnnounced(g: Registry) { forall r :: 0 <= r < |g.all| ==> g.all[r].announced }

  // A disposal is harmless exactly when no job is running or about to be announced.
  lemma DisposalIsHarmlessIff(g: Registry, cap: nat)
    requires |g.ids| == |g.all|
    ensures AlwaysTrue(Dispose(g), cap) <==> AllAnnounced(g)
  {
    AnnouncementsAreTrueIff(Dispose(g), cap);
    var t := Dispose(g);
    assert forall r :: 0 <= r < |g.all| ==> t.all[r].announced == g.all[r].announced;
    assert forall r :: 0 <= r < |g.all| ==> (Honest(t, r) <==> t.all[r].announced);
  }

  // Every disposal of the history finds no job running or about to be announced.
  predicate QuietDisposals(g: Registry, calls: seq<Call>, cap: nat)
    decreases calls
  {
    calls == [] || ((calls[0].Discard? ==> AllAnnounced(g)) && QuietDisposals(Apply(g, calls[0], cap), calls[1..], cap))
  }

  lemma {:induction false} QuietRun(g: Registry, calls: seq<Call>, cap: nat)
    requires QueueTrue(g) && AllHonest(g) && QuietDisposals(g, calls, cap)
    ensures QueueTrue(ApplyAll(g, calls, cap)) && AllHonest(ApplyAll(g, calls, cap))
    decreases calls
  {
    if calls != [] {
      if calls[0].Discard? {
        QuietDisposalKeeps(g);
      } else {
        HonestyStays(g, calls[0], cap);
        QueueStaysTrue(g, calls[0], cap);
      }
      hide Apply, QueueTrue, AllHonest;
      QuietRun(Apply(g, calls[0], cap), calls[1..], cap);
    }
  }

  lemma QuietDisposalKeeps(g: Registry)
    requires |g.ids| == |g.all| && AllAnnounced(g)
    ensures QueueTrue(Dispose(g)) && AllHonest(Dispose(g))
  {
    assert forall r :: 0 <= r < |g.all| ==> Dispose(g).all[r].announced == g.all[r].announced;
  }

  // In every history with quiet disposals every waiting announcement is true.
  lemma AnnouncementsAreTrue(calls: seq<Call>, cap: nat)
    requires QuietDisposals(EMPTY, calls, cap)
    ensures QueueTrue(ApplyAll(EMPTY, calls, cap))
  {
    QuietRun(EMPTY, calls, cap);
  }

  // Otherwise numbers are given out again while their jobs are at work, and the late end of a disposed job
  // is announced as the end of a new job that is still running.
  lemma LateEndIsMisattributed(cap: nat)
    ensures var g := ApplyAll(EMPTY, [Launch(false), Discard, Launch(false), End(0, false, false), Finally(0)], cap);
      g.queue == [Notification(1, Killed)] && Record(g, 1) == Some(1) && g.all[1].status == Running
  {
    var calls := [Launch(false), Discard, Launch(false), End(0, false, false), Finally(0)];
    var b := Apply(Apply(EMPTY, calls[0], cap), calls[1], cap);
    var d := Apply(Apply(b, calls[2], cap), calls[3], cap);
    DisposedAtOnce(cap);
    EndsAfterReplacement(b, cap);
    assert calls[1..][0] == calls[1] && calls[1..][1..][0] == calls[2] && calls[1..][1..][1..][0] == calls[3];
    assert calls[1..][1..][1..][1..] == [calls[4]];
    hide Apply;
    assert ApplyAll(EMPTY, calls, cap) == ApplyAll(b, calls[1..][1..], cap) == ApplyAll(d, [calls[4]], cap)
      == Apply(d, calls[4], cap);
  }

  lemma DisposedAtOnce(cap: nat)
    ensures Apply(Apply(EMPTY, Launch(false), cap), Discard, cap) == Registry([KillJob(NewJob(false))], [1], [], [])
  {
    assert Apply(EMPTY, Launch(false), cap) == Registry([NewJob(false)], [1], [0], []);
  }

  lemma EndsAfterReplacement(b: Registry, cap: nat)
    requires b == Registry([KillJob(NewJob(false))], [1], [], [])
    ensures var d := Apply(Apply(b, Launch(false), cap), End(0, false, false), cap);
      var e := Apply(d, Finally(0), cap);
      && e.queue == [Notification(1, Killed)] && Record(e, 1) == Some(1) && e.all[1].status == Running
  {
    var gone := KillJob(NewJob(false));
    var c := Apply(b, Launch(false), cap);
    assert c == Registry([gone, NewJob(false)], [1, 1], [1], []);
    hide Start, CountRunning, Push, Dispose;
    var d := Apply(c, End(0, false, false), cap);
    assert d == Registry([gone.(status := Killed), NewJob(false)], [1, 1], [1], []);
  }
}
