// How background jobs end, what is kept of their output and what is announced, told from the calls
// (src/sandbox/background-jobs.ts:73-317).
module JobHistory {
  import opened BackgroundJobs
  import opened Optional

  function After(calls: seq<Call>, cap: nat): Registry { ApplyAll(EMPTY, calls, cap) }

  lemma {:induction false} ApplyOneMore(g: Registry, calls: seq<Call>, c: Call, cap: nat)
    ensures ApplyAll(g, calls + [c], cap) == Apply(ApplyAll(g, calls, cap), c, cap)
    decreases calls
  {
    if calls == [] {
      assert [] + [c] == [c] && [c][1..] == [];
      assert ApplyAll(g, [c], cap) == ApplyAll(Apply(g, c, cap), [], cap);
    } else {
      assert (calls + [c])[1..] == calls[1..] + [c];
      ApplyOneMore(Apply(g, calls[0], cap), calls[1..], c, cap);
    }
  }

  // ----- how a job ends -------------------------------------------------------------------------------------------

  // The call tells the job to stop: it is killed by its number, its session is disposed of, or its parent is
  // aborted, after it was launched or before.
  predicate TellsToStop(g: Registry, c: Call, r: nat) {
    match c
    case Launch(parentAborted) => r == |g.all| && parentAborted && CountRunning(g.all, g.table) < MAX_JOBS
    case UserKill(id) => Record(g, id) == Some(r)
    case Discard => r in g.table
    case ParentAbort(i) => i == r < |g.all|
    case _ => false
  }

  // Told to stop before it ended.
  predicate Told(calls: seq<Call>, r: nat, cap: nat) {
    calls != []
    && var before, c := calls[..|calls| - 1], calls[|calls| - 1];
       Told(before, r, cap) || (TellsToStop(After(before, cap), c, r) && Ended(before, r, cap).None?)
  }

  // The end of the job, the first there was after its launch.
  function Ended(calls: seq<Call>, r: nat, cap: nat): Option<Call> {
    if calls == [] then None
    else
      var before, c := calls[..|calls| - 1], calls[|calls| - 1];
      if Ended(before, r, cap).Some? then Ended(before, r, cap)
      else if c.End? && c.r == r < |After(before, cap).all| then Some(c) else None
  }

  lemma OneMoreCall(calls: seq<Call>, c: Call, r: nat, cap: nat)
    ensures After(calls + [c], cap) == Apply(After(calls, cap), c, cap)
    ensures Told(calls + [c], r, cap) <==>
      Told(calls, r, cap) || (TellsToStop(After(calls, cap), c, r) && Ended(calls, r, cap).None?)
    ensures Ended(calls + [c], r, cap) ==
      if Ended(calls, r, cap).Some? then Ended(calls, r, cap)
      else if c.End? && c.r == r < |After(calls, cap).all| then Some(c) else None
  {
    ApplyOneMore(EMPTY, calls, c, cap);
    assert (calls + [c])[..|calls|] == calls;
  }

  // What the record of a job says of its end.
  predicate EndFits(j: Job, end: Option<Call>, told: bool) {
    match end
    case None => j.status == Running && !j.announced && (j.aborted <==> told) && (j.killRequested ==> told)
    case Some(End(_, exited, success)) =>
      j.status == if exited && success then Succeeded else if !exited && told then Killed else Failed
    case Some(_) => false
  }

  predicate JobFits(calls: seq<Call>, r: nat, cap: nat) {
    if r < |After(calls, cap).all| then EndFits(After(calls, cap).all[r], Ended(calls, r, cap), Told(calls, r, cap))
    else Ended(calls, r, cap).None? && !Told(calls, r, cap)
  }

  lemma JobStep(calls: seq<Call>, c: Call, r: nat, cap: nat)
    requires JobFits(calls, r, cap) && TableOk(After(calls, cap))
    ensures JobFits(calls + [c], r, cap)
  {
    hide After, Told, Ended, CountRunning;
    OneMoreCall(calls, c, r, cap);
  }

  lemma {:induction false} JobsFit(calls: seq<Call>, r: nat, cap: nat)
    ensures JobFits(calls, r, cap)
  {
    if calls != [] {
      var before, c := calls[..|calls| - 1], calls[|calls| - 1];
      assert calls == before + [c];
      hide JobFits;
      JobsFit(before, r, cap);
      EveryHistory(before, cap);
      JobStep(before, c, r, cap);
    } else {
      assert After([], cap) == EMPTY;
    }
  }

  // In every history a job runs until its first end. Then it has succeeded exactly when it exited with success,
  // it was killed exactly when it ended with an error after it had been told to stop, and it failed otherwise. While
  // it runs, the signal its executor listens to is aborted exactly when it was told to stop.
  lemma HowJobsEnd(calls: seq<Call>, r: nat, cap: nat)
    requires r < |After(calls, cap).all|
    ensures var status, end := After(calls, cap).all[r].status, Ended(calls, r, cap);
      && (end.Some? ==> end.value.End?)
      && (status == Running <==> end.None?)
      && (status == Succeeded <==> end.Some? && end.value.exited && end.value.success)
      && (status == Killed <==> end.Some? && !end.value.exited && Told(calls, r, cap))
      && (status == Failed <==> end.Some? && if end.value.exited then !end.value.success else !Told(calls, r, cap))
      && (status == Running ==> (After(calls, cap).all[r].aborted <==> Told(calls, r, cap)))
  {
    hide After, Ended, Told;
    JobsFit(calls, r, cap);
  }

  // ----- what is kept of the output -------------------------------------------------------------------------------

  // What the executor has pushed for this job.
  function Chunks(calls: seq<Call>, r: nat, cap: nat): seq<string> {
    if calls == [] then []
    else
      var before, c := calls[..|calls| - 1], calls[|calls| - 1];
      Chunks(before, r, cap) + if c.Chunk? && c.r == r < |After(before, cap).all| then [c.text] else []
  }

  function Text(chunks: seq<string>): string {
    if chunks == [] then "" else Text(chunks[..|chunks| - 1]) + chunks[|chunks| - 1]
  }

  lemma TextOneMore(chunks: seq<string>, chunk: string)
    ensures Text(chunks + [chunk]) == Text(chunks) + chunk
  {
    assert (chunks + [chunk])[..|chunks|] == chunks;
  }

  // The first `n` chunks are kept, as many as fit.
  predicate KeepsFirst(chunks: seq<string>, n: nat, buffer: string, cap: nat) {
    && n <= |chunks| && buffer == Text(chunks[..n]) && |buffer| <= cap
    && (n < |chunks| ==> |Text(chunks[..n + 1])| > cap)
  }

  ghost predicate BufferFits(chunks: seq<string>, j: Job, cap: nat) {
    && j.stream == Text(chunks)
    && (if j.overflow then |j.stream| > cap && exists n: nat :: n < |chunks| && KeepsFirst(chunks, n, j.buffer, cap)
        else |j.stream| <= cap && KeepsFirst(chunks, |chunks|, j.buffer, cap))
  }

  lemma PushFits(chunks: seq<string>, j: Job, chunk: string, cap: nat)
    requires BufferFits(chunks, j, cap)
    ensures BufferFits(chunks + [chunk], Push(j, chunk, cap), cap)
  {
    var more := chunks + [chunk];
    TextOneMore(chunks, chunk);
    assert more[..|chunks|] == chunks && more[..|more|] == more && chunks[..|chunks|] == chunks;
    hide Text;
    if j.overflow {
      var n: nat :| n < |chunks| && KeepsFirst(chunks, n, j.buffer, cap);
      assert more[..n] == chunks[..n] && more[..n + 1] == chunks[..n + 1];
      assert KeepsFirst(more, n, j.buffer, cap);
    } else if chunk != "" && |j.buffer| + |chunk| > cap {
      assert KeepsFirst(more, |chunks|, j.buffer, cap);
    }
  }

  lemma ChunksOneMore(calls: seq<Call>, c: Call, r: nat, cap: nat)
    ensures Chunks(calls + [c], r, cap) ==
      if c.Chunk? && c.r == r < |After(calls, cap).all| then Chunks(calls, r, cap) + [c.text] else Chunks(calls, r, cap)
  {
    assert (calls + [c])[..|calls|] == calls;
  }

  ghost predicate OutputFits(calls: seq<Call>, r: nat, cap: nat) {
    if r < |After(calls, cap).all| then BufferFits(Chunks(calls, r, cap), After(calls, cap).all[r], cap) else Chunks(calls, r, cap) == []
  }

  lemma NewJobFits(parentAborted: bool, cap: nat)
    ensures BufferFits([], NewJob(parentAborted), cap)
  {
  }

  predicate SameOutput(a: Job, b: Job) { a.buffer == b.buffer && a.overflow == b.overflow && a.stream == b.stream }

  lemma OthersKeepOutput(g: Registry, c: Call, r: nat, cap: nat)
    ensures var t := Apply(g, c, cap);
      && |g.all| <= |t.all|
      && (r < |g.all| ==> if c.Chunk? && c.r == r then t.all[r] == Push(g.all[r], c.text, cap) else SameOutput(t.all[r], g.all[r]))
      && (|g.all| <= r < |t.all| ==> !c.Chunk? && SameOutput(t.all[r], NewJob(false)))
  {
    hide CountRunning, Push;
  }

  lemma OutputStep(calls: seq<Call>, c: Call, r: nat, cap: nat)
    requires OutputFits(calls, r, cap)
    ensures OutputFits(calls + [c], r, cap)
  {
    hide After, Apply, Chunks, Text, KeepsFirst, Push;
    ApplyOneMoreAfter(calls, c, cap);
    ChunksOneMore(calls, c, r, cap);
    var g := After(calls, cap);
    OthersKeepOutput(g, c, r, cap);
    if r < |g.all| {
      if c.Chunk? && c.r == r { PushFits(Chunks(calls, r, cap), g.all[r], c.text, cap); }
    } else {
      NewJobFits(false, cap);
    }
  }

  lemma ApplyOneMoreAfter(calls: seq<Call>, c: Call, cap: nat)
    ensures After(calls + [c], cap) == Apply(After(calls, cap), c, cap)
  {
    ApplyOneMore(EMPTY, calls, c, cap);
  }

  lemma {:induction false} OutputsFit(calls: seq<Call>, r: nat, cap: nat)
    ensures OutputFits(calls, r, cap)
  {
    if calls != [] {
      var before, c := calls[..|calls| - 1], calls[|calls| - 1];
      assert calls == before + [c];
      hide OutputFits;
      OutputsFit(before, r, cap);
      OutputStep(before, c, r, cap);
    } else {
      assert After([], cap) == EMPTY;
    }
  }

  // In every history the buffer of a job is the longest run of whole first chunks that fits, and it is marked
  // as truncated exactly when all the output together does not.
  lemma WholeChunksAreKept(calls: seq<Call>, r: nat, cap: nat) returns (n: nat)
    requires r < |After(calls, cap).all|
    ensures var chunks, j := Chunks(calls, r, cap), After(calls, cap).all[r];
      && n <= |chunks| && j.buffer == Text(chunks[..n]) && |j.buffer| <= cap
      && (n < |chunks| ==> |Text(chunks[..n + 1])| > cap)
      && (j.overflow <==> |Text(chunks)| > cap)
  {
    hide After, Chunks, Text;
    OutputsFit(calls, r, cap);
    var chunks, buffer := Chunks(calls, r, cap), After(calls, cap).all[r].buffer;
    assert chunks[..|chunks|] == chunks;
    n :| KeepsFirst(chunks, n, buffer, cap);
    assert KeepsFirst(chunks, n, buffer, cap);
  }

  // ----- what is announced ----------------------------------------------------------------------------------------

  // The call announces the end of this job.
  predicate Announces(g: Registry, c: Call, r: nat) {
    c.Finally? && c.r == r < |g.all| && r < |g.ids| && g.all[r].status != Running && !g.all[r].announced
  }

  // The jobs whose end has been announced, in order.
  function Announced(calls: seq<Call>, cap: nat): seq<nat> {
    if calls == [] then []
    else
      var before, c := calls[..|calls| - 1], calls[|calls| - 1];
      if c.Finally? && Announces(After(before, cap), c, c.r) then Announced(before, cap) + [c.r] else Announced(before, cap)
  }

  // What the caller has been given.
  function Drained(calls: seq<Call>, cap: nat): seq<Notification> {
    if calls == [] then []
    else
      var before, c := calls[..|calls| - 1], calls[|calls| - 1];
      if c.Drain? then Drained(before, cap) + After(before, cap).queue else Drained(before, cap)
  }

  // How many announcements found the queue full, or were in it when the session was disposed of.
  function Lost(calls: seq<Call>, cap: nat): nat {
    if calls == [] then 0
    else
      var before, c := calls[..|calls| - 1], calls[|calls| - 1];
      var g := After(before, cap);
      Lost(before, cap)
      + if c.Discard? then |g.queue|
        else if c.Finally? && Announces(g, c, c.r) && |g.queue| == MAX_NOTIFICATIONS then 1 else 0
  }

  // What there is to say of the announced jobs.
  function Notices(g: Registry, rs: seq<nat>): seq<Notification> {
    if rs == [] then []
    else
      var r := rs[|rs| - 1];
      Notices(g, rs[..|rs| - 1]) + if r < |g.all| && r < |g.ids| then [Notification(g.ids[r], g.all[r].status)] else []
  }

  lemma NoticesOneMore(g: Registry, rs: seq<nat>, r: nat)
    requires r < |g.all| && r < |g.ids|
    ensures Notices(g, rs + [r]) == Notices(g, rs) + [Notification(g.ids[r], g.all[r].status)]
  {
    assert (rs + [r])[..|rs|] == rs;
  }

  lemma {:induction false} NoticesStay(g: Registry, t: Registry, rs: seq<nat>)
    requires |g.ids| <= |t.ids| && |g.all| <= |t.all| && t.ids[..|g.ids|] == g.ids
    requires forall k :: 0 <= k < |rs| ==> rs[k] < |g.all| && rs[k] < |g.ids| && t.all[rs[k]].status == g.all[rs[k]].status
    ensures Notices(t, rs) == Notices(g, rs)
  {
    if rs != [] { NoticesStay(g, t, rs[..|rs| - 1]); }
  }

  lemma CallOneMore(calls: seq<Call>, c: Call, cap: nat)
    ensures var g := After(calls, cap);
      && After(calls + [c], cap) == Apply(g, c, cap)
      && Announced(calls + [c], cap) ==
           (if c.Finally? && Announces(g, c, c.r) then Announced(calls, cap) + [c.r] else Announced(calls, cap))
      && Drained(calls + [c], cap) == (if c.Drain? then Drained(calls, cap) + g.queue else Drained(calls, cap))
      && Lost(calls + [c], cap) == Lost(calls, cap)
           + (if c.Discard? then |g.queue|
              else if c.Finally? && Announces(g, c, c.r) && |g.queue| == MAX_NOTIFICATIONS then 1 else 0)
  {
    ApplyOneMore(EMPTY, calls, c, cap);
    assert (calls + [c])[..|calls|] == calls;
  }

  // Every job is announced once, and all announcements but the lost ones are given out or waiting, in order.
  ghost predicate Accounts(g: Registry, rs: seq<nat>, drained: seq<Notification>, lost: nat) {
    && (forall r: nat :: r in rs <==> r < |g.all| && g.all[r].announced)
    && (forall i, j :: 0 <= i < j < |rs| ==> rs[i] != rs[j])
    && (forall r :: 0 <= r < |g.all| && g.all[r].announced ==> g.all[r].status != Running)
    && |Notices(g, rs)| == |rs| == |drained| + |g.queue| + lost
    && (lost == 0 ==> drained + g.queue == Notices(g, rs))
  }

  lemma AnnouncedAgain(g: Registry, r: nat, rs: seq<nat>, drained: seq<Notification>, lost: nat, cap: nat)
    requires Inv(g, cap) && Accounts(g, rs, drained, lost) && Announces(g, Finally(r), r)
    ensures var t := Apply(g, Finally(r), cap);
      Accounts(t, rs + [r], drained, lost + if |g.queue| == MAX_NOTIFICATIONS then 1 else 0)
  {
    hide Notices, CountRunning, JobOk;
    var t := Apply(g, Finally(r), cap);
    assert forall k :: 0 <= k < |rs| ==> rs[k] in rs;
    NoticesStay(g, t, rs);
    NoticesOneMore(t, rs, r);
    assert |g.queue| < MAX_NOTIFICATIONS ==> drained + t.queue == (drained + g.queue) + [Notification(g.ids[r], g.all[r].status)];
  }

  lemma NothingAnnounced(g: Registry, c: Call, rs: seq<nat>, drained: seq<Notification>, lost: nat, cap: nat)
    requires Inv(g, cap) && Accounts(g, rs, drained, lost) && !(c.Finally? && Announces(g, c, c.r))
    ensures Accounts(Apply(g, c, cap), rs, if c.Drain? then drained + g.queue else drained, lost + if c.Discard? then |g.queue| else 0)
  {
    hide Notices, CountRunning, JobOk;
    var t := Apply(g, c, cap);
    assert forall k :: 0 <= k < |rs| ==> rs[k] in rs;
    NoticesStay(g, t, rs);
    assert drained + g.queue + [] == drained + g.queue;
  }

  lemma {:induction false} AccountsHold(calls: seq<Call>, cap: nat)
    ensures Accounts(After(calls, cap), Announced(calls, cap), Drained(calls, cap), Lost(calls, cap))
  {
    if calls != [] {
      var before, c := calls[..|calls| - 1], calls[|calls| - 1];
      assert calls == before + [c];
      AccountsHold(before, cap);
      hide After, Apply, Announced, Drained, Lost, Accounts, Inv, Announces;
      InvHolds(before, cap);
      CallOneMore(before, c, cap);
      var g, rs, drained, lost := After(before, cap), Announced(before, cap), Drained(before, cap), Lost(before, cap);
      if c.Finally? && Announces(g, c, c.r) {
        AnnouncedAgain(g, c.r, rs, drained, lost, cap);
      } else {
        NothingAnnounced(g, c, rs, drained, lost, cap);
      }
    } else {
      assert After([], cap) == EMPTY;
    }
  }

  lemma InvHolds(calls: seq<Call>, cap: nat)
    ensures Inv(After(calls, cap), cap)
  {
    EveryHistory(calls, cap);
  }

  // In every history every job that was announced was announced once, after its end, under the number it was
  // given and with the status it has; and what has been given out and what waits are exactly these
  // announcements in order, as long as none found the queue full or was waiting at a disposal.
  lemma AnnouncedOnceInOrder(calls: seq<Call>, cap: nat)
    ensures var g, rs := After(calls, cap), Announced(calls, cap);
      && (forall r: nat :: r in rs <==> r < |g.all| && g.all[r].announced)
      && (forall i, j :: 0 <= i < j < |rs| ==> rs[i] != rs[j])
      && |Drained(calls, cap)| + |g.queue| + Lost(calls, cap) == |rs|
      && (Drained(calls, cap) + g.queue == Notices(g, rs) <==> Lost(calls, cap) == 0)
  {
    hide After, Announced, Drained, Lost, Notices;
    AccountsHold(calls, cap);
  }
}
