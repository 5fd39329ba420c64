/** libuv's thread pool (src/threadpool.c): workers, the slow-work queue, cancellation
    and completion, as interleaved critical sections. Start-up, exit and wake-ups are
    not part of this model. */
module Threadpool {

  type JobId = nat

  /** w->work: the function, NULL once it has run, or uv__cancelled. */
  datatype WorkPtr = Function | Null | Cancelled

  const UV_ECANCELED: int := -125

  /** uv__work. `linked` is !QUEUE_EMPTY(&w->wq); `ran` counts the runs of the work
      function, `calls` lists the statuses done was called with. */
  datatype Job = Job(slow: bool, loop: nat, work: WorkPtr, linked: bool, ran: nat, calls: seq<int>)

  /** An entry of wq: a job, or run_slow_work_message. */
  datatype Item = RunSlow | Work(job: JobId)

  /** A worker between its critical sections. */
  datatype Worker = Idle | Taken(job: JobId, slow: bool) | Ran(job: JobId, slow: bool) | Returning(slow: bool)

  /** A loop: its queue of finished work, the batch uv__work_done is going through, and
      the job uv__work_cancel has unlinked but not yet passed on. */
  datatype Loop = Loop(wq: seq<JobId>, batch: seq<JobId>, cancelling: seq<JobId>)

  datatype Place = InWq | InPending | At(worker: nat) | Cancelling(loop: nat) | InLoop(loop: nat) | Done

  ghost predicate Distinct<T(!new)>(q: seq<T>) {
    forall i, j :: 0 <= i < j < |q| ==> q[i] != q[j]
  }

  predicate IsSlow(w: Worker) {
    !w.Idle? && w.slow
  }

  function SlowCount(ws: seq<Worker>): nat {
    if ws == [] then 0 else SlowCount(ws[..|ws| - 1]) + if IsSlow(ws[|ws| - 1]) then 1 else 0
  }

  predicate Holds(w: Worker, j: JobId) {
    (w.Taken? || w.Ran?) && w.job == j
  }

  /** What a job looks like in each place. */
  predicate JobOk(job: Job, place: Place) {
    match place
    case InWq => !job.slow && job.work.Function? && job.linked && job.ran == 0 && job.calls == []
    case InPending => job.slow && job.work.Function? && job.linked && job.ran == 0 && job.calls == []
    case At(_) => job.work.Function? && !job.linked && job.calls == []
    case Cancelling(l) => l == job.loop && !job.work.Null? && job.linked && job.ran == 0 && job.calls == []
    case InLoop(l) => l == job.loop && job.linked && job.calls == []
      && ((job.work.Null? && job.ran == 1) || (job.work.Cancelled? && job.ran == 0))
    case Done => job.ran <= 1 && job.calls == [if job.ran == 0 then UV_ECANCELED else 0]
  }

  /** The queue lists, once each, the jobs in the given place. */
  ghost predicate Lists(q: seq<JobId>, places: map<JobId, Place>, p: Place) {
    Distinct(q) && forall j :: j in q <==> j in places && places[j] == p
  }

  ghost predicate WqLists(q: seq<Item>, places: map<JobId, Place>) {
    Distinct(q) && forall j :: Work(j) in q <==> j in places && places[j] == InWq
  }

  ghost predicate WorkerOk(w: Worker, i: nat, jobs: map<JobId, Job>, places: map<JobId, Place>) {
    (w.Taken? || w.Ran?) ==>
      && w.job in jobs && w.job in places && places[w.job] == At(i)
      && jobs[w.job].ran == (if w.Ran? then 1 else 0) && jobs[w.job].slow == w.slow
  }

  ghost predicate LoopOk(lp: Loop, l: nat, places: map<JobId, Place>) {
    Lists(lp.wq + lp.batch, places, InLoop(l)) && Lists(lp.cancelling, places, Cancelling(l)) && |lp.cancelling| <= 1
  }

  // ---- moving a job from place to place ----

  function Without<T(==, !new)>(q: seq<T>, x: T): seq<T> {
    if q == [] then [] else Without(q[..|q| - 1], x) + if q[|q| - 1] == x then [] else [q[|q| - 1]]
  }

  lemma {:induction false} WithoutFacts<T(!new)>(q: seq<T>, x: T)
    requires Distinct(q)
    ensures Distinct(Without(q, x)) && (forall y :: y in Without(q, x) <==> y in q && y != x)
    ensures x !in q ==> Without(q, x) == q
  {
    if q != [] {
      var init, last := q[..|q| - 1], q[|q| - 1];
      WithoutFacts(init, x);
      assert q == init + [last];
      assert forall i :: 0 <= i < |init| ==> init[i] == q[i];
      assert last !in init;
    }
  }

  lemma DistinctSnoc<T(!new)>(q: seq<T>, x: T)
    requires Distinct(q) && x !in q
    ensures Distinct(q + [x])
  {
  }

  /** Queues of other places do not notice the move. */
  lemma ListsElsewhere(q: seq<JobId>, places: map<JobId, Place>, p: Place, j: JobId, to: Place)
    requires Lists(q, places, p) && p != to && (j in places ==> places[j] != p)
    ensures Lists(q, places[j := to], p)
  {
  }

  lemma ListsGain(q: seq<JobId>, places: map<JobId, Place>, p: Place, j: JobId)
    requires Lists(q, places, p) && (j in places ==> places[j] != p)
    ensures Lists(q + [j], places[j := p], p)
  {
    DistinctSnoc(q, j);
  }

  lemma ListsLose(q: seq<JobId>, places: map<JobId, Place>, p: Place, j: JobId, to: Place, q': seq<JobId>)
    requires Lists(q, places, p) && p != to
    requires Distinct(q') && forall y :: y in q' <==> y in q && y != j
    ensures Lists(q', places[j := to], p)
  {
  }

  ghost predicate LoopsOk(loops: seq<Loop>, places: map<JobId, Place>) {
    forall l :: 0 <= l < |loops| ==> LoopOk(loops[l], l, places)
  }

  /** A move between places that belong to no loop. */
  lemma LoopsElsewhere(loops: seq<Loop>, places: map<JobId, Place>, j: JobId, to: Place)
    requires LoopsOk(loops, places) && !to.InLoop? && !to.Cancelling?
    requires j in places ==> !places[j].InLoop? && !places[j].Cancelling?
    ensures LoopsOk(loops, places[j := to])
  {
    forall l | 0 <= l < |loops| ensures LoopOk(loops[l], l, places[j := to]) {
      assert LoopOk(loops[l], l, places);
      ListsElsewhere(loops[l].wq + loops[l].batch, places, InLoop(l), j, to);
      ListsElsewhere(loops[l].cancelling, places, Cancelling(l), j, to);
    }
  }

  lemma {:induction false} CountUpdate(ws: seq<Worker>, i: nat, w: Worker)
    requires i < |ws|
    ensures SlowCount(ws[i := w]) == SlowCount(ws) - (if IsSlow(ws[i]) then 1 else 0) + if IsSlow(w) then 1 else 0
  {
    var init := ws[..|ws| - 1];
    if i < |init| {
      assert ws[i := w][..|ws| - 1] == init[i := w];
      CountUpdate(init, i, w);
    } else {
      assert ws[i := w][..|ws| - 1] == init;
    }
  }

  // ---- the invariant ----

  ghost predicate JobsOk(jobs: map<JobId, Job>, places: map<JobId, Place>, nloops: nat, ws: seq<Worker>) {
    && places.Keys == jobs.Keys
    && (forall j :: j in jobs ==> JobOk(jobs[j], places[j]) && jobs[j].loop < nloops)
    && (forall j :: j in places && places[j].At? ==> places[j].worker < |ws| && Holds(ws[places[j].worker], j))
  }

  ghost predicate QueuesOk(wq: seq<Item>, pending: seq<JobId>, places: map<JobId, Place>) {
    && WqLists(wq, places)
    && Lists(pending, places, InPending)
    && (pending != [] ==> RunSlow in wq)
  }

  ghost predicate WorkersOk(ws: seq<Worker>, jobs: map<JobId, Job>, places: map<JobId, Place>) {
    forall i :: 0 <= i < |ws| ==> WorkerOk(ws[i], i, jobs, places)
  }

  /** The head of wq is a job, and it is taken. */
  lemma QueuesTake(wq: seq<Item>, pending: seq<JobId>, places: map<JobId, Place>, j: JobId, i: nat)
    requires QueuesOk(wq, pending, places) && wq != [] && wq[0] == Work(j)
    ensures QueuesOk(wq[1..], pending, places[j := At(i)]) && j in places && places[j] == InWq
  {
    ExtraGone(wq, 0, wq[1..]);
    assert Work(j) in wq;
    ListsElsewhere(pending, places, InPending, j, At(i));
  }

  /** With the message off wq, the first pending job is taken and the message put back
      if there are more. */
  lemma QueuesTakeSlow(wq: seq<Item>, pending: seq<JobId>, places: map<JobId, Place>, i: nat)
    requires WqLists(wq, places) && Lists(pending, places, InPending) && RunSlow !in wq && pending != []
    ensures QueuesOk(wq + if |pending| > 1 then [RunSlow] else [], pending[1..], places[pending[0] := At(i)])
    ensures pending[0] in places && places[pending[0]] == InPending
  {
    ExtraGone(pending, 0, pending[1..]);
    DistinctSnoc(wq, RunSlow);
    assert pending[0] in pending;
    ListsLose(pending, places, InPending, pending[0], At(i), pending[1..]);
  }

  /** The message comes off the head of wq. */
  lemma QueuesMessage(wq: seq<Item>, pending: seq<JobId>, places: map<JobId, Place>)
    requires QueuesOk(wq, pending, places) && wq != [] && wq[0] == RunSlow
    ensures WqLists(wq[1..], places) && RunSlow !in wq[1..]
    ensures QueuesOk(wq[1..] + [RunSlow], pending, places)
  {
    ExtraGone(wq, 0, wq[1..]);
    DistinctSnoc(wq[1..], RunSlow);
  }

  lemma QueuesSubmit(wq: seq<Item>, pending: seq<JobId>, places: map<JobId, Place>, j: JobId)
    requires QueuesOk(wq, pending, places) && j !in places
    ensures QueuesOk(wq + [Work(j)], pending, places[j := InWq])
    ensures RunSlow in wq ==> QueuesOk(wq, pending + [j], places[j := InPending])
    ensures RunSlow !in wq ==> QueuesOk(wq + [RunSlow], pending + [j], places[j := InPending])
  {
    DistinctSnoc(wq, Work(j));
    ListsElsewhere(pending, places, InPending, j, InWq);
    ListsGain(pending, places, InPending, j);
    if RunSlow !in wq { DistinctSnoc(wq, RunSlow); }
  }

  /** A job is new, or moves on, and nobody else's worker changes. */
  lemma JobMoves(jobs: map<JobId, Job>, places: map<JobId, Place>, nloops: nat, ws: seq<Worker>,
                 j: JobId, job: Job, to: Place, ws': seq<Worker>)
    requires JobsOk(jobs, places, nloops, ws) && JobOk(job, to) && job.loop < nloops && |ws'| == |ws|
    requires forall i, k :: 0 <= i < |ws| && k != j && Holds(ws[i], k) ==> Holds(ws'[i], k)
    requires to.At? ==> to.worker < |ws| && Holds(ws'[to.worker], j)
    ensures JobsOk(jobs[j := job], places[j := to], nloops, ws')
  {
  }

  lemma WorkersStay(ws: seq<Worker>, jobs: map<JobId, Job>, places: map<JobId, Place>, j: JobId, job: Job, to: Place)
    requires WorkersOk(ws, jobs, places) && (j in places ==> !places[j].At?) && !to.At?
    ensures WorkersOk(ws, jobs[j := job], places[j := to])
  {
    var jobs', places' := jobs[j := job], places[j := to];
    forall i | 0 <= i < |ws| ensures WorkerOk(ws[i], i, jobs', places') {
      assert WorkerOk(ws[i], i, jobs, places);
    }
  }

  /** Worker i, so far idle, takes job j, or goes from one phase of it to the next. */
  lemma WorkerTurns(ws: seq<Worker>, jobs: map<JobId, Job>, places: map<JobId, Place>, i: nat, w: Worker, j: JobId, job: Job)
    requires WorkersOk(ws, jobs, places) && i < |ws| && (w.Taken? || w.Ran?) && w.job == j
    requires j in places && (places[j].At? ==> places[j] == At(i))
    requires job.ran == (if w.Ran? then 1 else 0) && job.slow == w.slow
    ensures WorkersOk(ws[i := w], jobs[j := job], places[j := At(i)])
  {
    var ws', jobs', places' := ws[i := w], jobs[j := job], places[j := At(i)];
    forall k | 0 <= k < |ws'| ensures WorkerOk(ws'[k], k, jobs', places') {
      assert WorkerOk(ws[k], k, jobs, places);
    }
  }

  /** Worker i lets go of job j. */
  lemma WorkerLets(ws: seq<Worker>, jobs: map<JobId, Job>, places: map<JobId, Place>, i: nat, w: Worker, j: JobId, job: Job, to: Place)
    requires WorkersOk(ws, jobs, places) && i < |ws| && !w.Taken? && !w.Ran?
    requires j in places && places[j] == At(i) && !to.At?
    ensures WorkersOk(ws[i := w], jobs[j := job], places[j := to])
  {
    var ws', jobs', places' := ws[i := w], jobs[j := job], places[j := to];
    forall k | 0 <= k < |ws'| ensures WorkerOk(ws'[k], k, jobs', places') {
      assert WorkerOk(ws[k], k, jobs, places);
    }
  }

  ghost predicate Consistent(jobs: map<JobId, Job>, places: map<JobId, Place>, loops: seq<Loop>, ws: seq<Worker>) {
    JobsOk(jobs, places, |loops|, ws) && LoopsOk(loops, places) && WorkersOk(ws, jobs, places)
  }

  /** An idle worker takes job j off a queue. */
  lemma TakenUp(jobs: map<JobId, Job>, places: map<JobId, Place>, loops: seq<Loop>, ws: seq<Worker>, i: nat, j: JobId, slow: bool)
    requires Consistent(jobs, places, loops, ws) && i < |ws| && ws[i].Idle?
    requires j in places && if slow then places[j].InPending? else places[j].InWq?
    ensures j in jobs && Consistent(jobs[j := jobs[j].(linked := false)], places[j := At(i)], loops, ws[i := Taken(j, slow)])
    ensures SlowCount(ws[i := Taken(j, slow)]) == SlowCount(ws) + if slow then 1 else 0
  {
    var job, w := jobs[j].(linked := false), Taken(j, slow);
    LoopsElsewhere(loops, places, j, At(i));
    WorkerTurns(ws, jobs, places, i, w, j, job);
    JobMoves(jobs, places, |loops|, ws, j, job, At(i), ws[i := w]);
    CountUpdate(ws, i, w);
  }

  /** The work function has run. */
  lemma Executed(jobs: map<JobId, Job>, places: map<JobId, Place>, loops: seq<Loop>, ws: seq<Worker>, i: nat)
    requires Consistent(jobs, places, loops, ws) && i < |ws| && ws[i].Taken?
    ensures var j := ws[i].job;
            j in jobs && Consistent(jobs[j := jobs[j].(ran := jobs[j].ran + 1)], places, loops, ws[i := Ran(j, ws[i].slow)])
            && SlowCount(ws[i := Ran(j, ws[i].slow)]) == SlowCount(ws)
  {
    assert WorkerOk(ws[i], i, jobs, places);
    var j := ws[i].job;
    var job, w := jobs[j].(ran := jobs[j].ran + 1), Ran(j, ws[i].slow);
    assert places[j := At(i)] == places;
    WorkerTurns(ws, jobs, places, i, w, j, job);
    JobMoves(jobs, places, |loops|, ws, j, job, At(i), ws[i := w]);
    CountUpdate(ws, i, w);
  }

  /** Job j joins the finished work of loop l. */
  lemma LoopsGain(loops: seq<Loop>, places: map<JobId, Place>, j: JobId, l: nat)
    requires LoopsOk(loops, places) && l < |loops|
    requires j in places ==> !places[j].InLoop? && !places[j].Cancelling?
    ensures LoopsOk(loops[l := loops[l].(wq := loops[l].wq + [j])], places[j := InLoop(l)])
  {
    var loops', places' := loops[l := loops[l].(wq := loops[l].wq + [j])], places[j := InLoop(l)];
    forall k | 0 <= k < |loops'| ensures LoopOk(loops'[k], k, places') {
      assert LoopOk(loops[k], k, places);
      ListsElsewhere(loops[k].cancelling, places, Cancelling(k), j, InLoop(l));
      if k == l {
        ListsInsert(loops[k].wq, loops[k].batch, places, InLoop(l), j);
      } else {
        ListsElsewhere(loops[k].wq + loops[k].batch, places, InLoop(k), j, InLoop(l));
      }
    }
  }

  lemma ListsInsert(a: seq<JobId>, b: seq<JobId>, places: map<JobId, Place>, p: Place, j: JobId)
    requires Lists(a + b, places, p) && (j in places ==> places[j] != p)
    ensures Lists((a + [j]) + b, places[j := p], p)
  {
    ExtraNew((a + [j]) + b, |a|, a + b);
  }

  /** Cancellation takes job j off whichever queue of its loop it is on. */
  lemma LoopsCancel(loops: seq<Loop>, places: map<JobId, Place>, j: JobId, l: nat, lp: Loop)
    requires LoopsOk(loops, places) && l < |loops| && j in places && !places[j].Cancelling?
    requires (places[j].InLoop? ==> places[j] == InLoop(l)) && loops[l].cancelling == []
    requires lp == Loop(Without(loops[l].wq, j), Without(loops[l].batch, j), [j])
    ensures LoopsOk(loops[l := lp], places[j := Cancelling(l)])
  {
    var loops', places' := loops[l := lp], places[j := Cancelling(l)];
    forall k | 0 <= k < |loops'| ensures LoopOk(loops'[k], k, places') {
      assert LoopOk(loops[k], k, places);
      if k == l {
        ListsGain([], places, Cancelling(l), j);
        assert [] + [j] == [j];
        WithoutConcat(loops[l].wq, loops[l].batch, j);
        WithoutFacts(loops[l].wq + loops[l].batch, j);
        ListsLose(loops[l].wq + loops[l].batch, places, InLoop(l), j, Cancelling(l), lp.wq + lp.batch);
      } else {
        ListsElsewhere(loops[k].wq + loops[k].batch, places, InLoop(k), j, Cancelling(l));
        ListsElsewhere(loops[k].cancelling, places, Cancelling(k), j, Cancelling(l));
      }
    }
  }

  lemma {:induction false} WithoutConcat<T(!new)>(a: seq<T>, b: seq<T>, x: T)
    ensures Without(a + b, x) == Without(a, x) + Without(b, x)
    decreases |b|
  {
    if b == [] {
      assert a + b == a;
    } else {
      assert (a + b)[..|a + b| - 1] == a + b[..|b| - 1];
      WithoutConcat(a, b[..|b| - 1], x);
    }
  }

  /** The second half of a cancellation: the job joins its loop's finished work. */
  lemma LoopsCancelled(loops: seq<Loop>, places: map<JobId, Place>, j: JobId, l: nat)
    requires LoopsOk(loops, places) && l < |loops| && loops[l].cancelling == [j]
    ensures LoopsOk(loops[l := loops[l].(wq := loops[l].wq + [j], cancelling := [])], places[j := InLoop(l)])
    ensures j in places && places[j] == Cancelling(l)
  {
    var loops', places' := loops[l := loops[l].(wq := loops[l].wq + [j], cancelling := [])], places[j := InLoop(l)];
    assert LoopOk(loops[l], l, places) && j in loops[l].cancelling;
    forall k | 0 <= k < |loops'| ensures LoopOk(loops'[k], k, places') {
      assert LoopOk(loops[k], k, places);
      if k == l {
        ListsInsert(loops[k].wq, loops[k].batch, places, InLoop(l), j);
        ListsLose(loops[k].cancelling, places, Cancelling(l), j, InLoop(l), []);
      } else {
        ListsElsewhere(loops[k].wq + loops[k].batch, places, InLoop(k), j, InLoop(l));
        ListsElsewhere(loops[k].cancelling, places, Cancelling(k), j, InLoop(l));
      }
    }
  }

  /** The loop takes its whole queue as the batch to go through. */
  lemma LoopsMoved(loops: seq<Loop>, places: map<JobId, Place>, l: nat)
    requires LoopsOk(loops, places) && l < |loops| && loops[l].batch == []
    ensures LoopsOk(loops[l := loops[l].(wq := [], batch := loops[l].wq)], places)
  {
    var loops' := loops[l := loops[l].(wq := [], batch := loops[l].wq)];
    forall k | 0 <= k < |loops'| ensures LoopOk(loops'[k], k, places) {
      assert LoopOk(loops[k], k, places);
      assert loops[l].wq + [] == [] + loops[l].wq;
    }
  }

  /** The first job of the batch is done with. */
  lemma LoopsDone(loops: seq<Loop>, places: map<JobId, Place>, l: nat)
    requires LoopsOk(loops, places) && l < |loops| && loops[l].batch != []
    ensures var j := loops[l].batch[0];
            j in places && places[j] == InLoop(l)
            && LoopsOk(loops[l := loops[l].(batch := loops[l].batch[1..])], places[j := Done])
  {
    var lp, j := loops[l], loops[l].batch[0];
    assert LoopOk(lp, l, places) && (lp.wq + lp.batch)[|lp.wq|] == j;
    assert j in lp.wq + lp.batch;
    var loops', places' := loops[l := lp.(batch := lp.batch[1..])], places[j := Done];
    forall k | 0 <= k < |loops'| ensures LoopOk(loops'[k], k, places') {
      assert LoopOk(loops[k], k, places);
      ListsElsewhere(loops[k].cancelling, places, Cancelling(k), j, Done);
      if k == l {
        ExtraGone(lp.wq + lp.batch, |lp.wq|, lp.wq + lp.batch[1..]);
        ListsLose(lp.wq + lp.batch, places, InLoop(l), j, Done, lp.wq + lp.batch[1..]);
      } else {
        ListsElsewhere(loops[k].wq + loops[k].batch, places, InLoop(k), j, Done);
      }
    }
  }

  /** The sequences differ by the one element at place n of the longer. */
  ghost predicate Extra<T(!new)>(q: seq<T>, n: nat, q': seq<T>) {
    && n < |q| == |q'| + 1
    && forall k :: 0 <= k < |q'| ==> q'[k] == q[if k < n then k else k + 1]
  }

  lemma ExtraGone<T(!new)>(q: seq<T>, n: nat, q': seq<T>)
    requires Extra(q, n, q') && Distinct(q)
    ensures Distinct(q') && forall y :: y in q' <==> y in q && y != q[n]
  {
    forall i, j | 0 <= i < j < |q'| ensures q'[i] != q'[j] {
      assert q[if i < n then i else i + 1] != q[if j < n then j else j + 1];
    }
    forall y ensures y in q' <==> y in q && y != q[n] {
      if y in q' {
        var k :| 0 <= k < |q'| && q'[k] == y;
        assert q[if k < n then k else k + 1] == y;
      }
      if y in q && y != q[n] {
        var k :| 0 <= k < |q| && q[k] == y;
        assert q'[if k < n then k else k - 1] == y;
      }
    }
  }

  lemma ExtraNew<T(!new)>(q: seq<T>, n: nat, q': seq<T>)
    requires Extra(q, n, q') && Distinct(q') && q[n] !in q'
    ensures Distinct(q) && forall y :: y in q <==> y in q' || y == q[n]
  {
    forall i, j | 0 <= i < j < |q| ensures q[i] != q[j] {
      assert i != n ==> q[i] == q'[if i < n then i else i - 1];
      assert j != n ==> q[j] == q'[if j < n then j else j - 1];
    }
    forall y ensures y in q <==> y in q' || y == q[n] {
      if y in q' {
        var k :| 0 <= k < |q'| && q'[k] == y;
        assert q[if k < n then k else k + 1] == y;
      }
      if y in q && y != q[n] {
        var k :| 0 <= k < |q| && q[k] == y;
        assert q'[if k < n then k else k - 1] == y;
      }
    }
  }

  /** The worker hands its finished job to the job's loop. */
  lemma Published(jobs: map<JobId, Job>, places: map<JobId, Place>, loops: seq<Loop>, ws: seq<Worker>, i: nat)
    requires Consistent(jobs, places, loops, ws) && i < |ws| && ws[i].Ran?
    ensures var j := ws[i].job;
            j in jobs && jobs[j].loop < |loops| && j in places && places[j] == At(i)
            && var l := jobs[j].loop;
               Consistent(jobs[j := jobs[j].(work := Null, linked := true)], places[j := InLoop(l)],
                          loops[l := loops[l].(wq := loops[l].wq + [j])], ws[i := Returning(ws[i].slow)])
               && SlowCount(ws[i := Returning(ws[i].slow)]) == SlowCount(ws)
  {
    assert WorkerOk(ws[i], i, jobs, places);
    var j := ws[i].job;
    var job, w, l := jobs[j].(work := Null, linked := true), Returning(ws[i].slow), jobs[j].loop;
    WorkerLets(ws, jobs, places, i, w, j, job, InLoop(l));
    OnlyOneHolds(ws, jobs, places, i, j);
    JobMoves(jobs, places, |loops|, ws, j, job, InLoop(l), ws[i := w]);
    LoopsGain(loops, places, j, l);
    CountUpdate(ws, i, w);
  }

  lemma OnlyOneHolds(ws: seq<Worker>, jobs: map<JobId, Job>, places: map<JobId, Place>, i: nat, j: JobId)
    requires WorkersOk(ws, jobs, places) && j in places && places[j] == At(i)
    ensures forall k :: 0 <= k < |ws| && Holds(ws[k], j) ==> k == i
  {
    forall k | 0 <= k < |ws| && Holds(ws[k], j) ensures k == i { assert WorkerOk(ws[k], k, jobs, places); }
  }

  /** A worker with no job changes phase. */
  lemma Reposed(jobs: map<JobId, Job>, places: map<JobId, Place>, loops: seq<Loop>, ws: seq<Worker>, i: nat)
    requires Consistent(jobs, places, loops, ws) && i < |ws| && ws[i].Returning?
    ensures Consistent(jobs, places, loops, ws[i := Idle])
    ensures SlowCount(ws[i := Idle]) == SlowCount(ws) - if ws[i].slow then 1 else 0
  {
    var ws' := ws[i := Idle];
    forall k | 0 <= k < |ws'| ensures WorkerOk(ws'[k], k, jobs, places) { assert WorkerOk(ws[k], k, jobs, places); }
    CountUpdate(ws, i, Idle);
  }

  /** What the test of uv__work_cancel tells, by the place of the job. */
  lemma CancelCases(jobs: map<JobId, Job>, places: map<JobId, Place>, loops: seq<Loop>, ws: seq<Worker>, j: JobId)
    requires Consistent(jobs, places, loops, ws) && j in jobs && jobs[j].calls == []
    requires loops[jobs[j].loop].cancelling == []
    ensures !places[j].Cancelling? && places[j] != Done && (places[j].InLoop? ==> places[j] == InLoop(jobs[j].loop))
    ensures jobs[j].linked && !jobs[j].work.Null? <==> jobs[j].ran == 0 && forall i :: 0 <= i < |ws| ==> !Holds(ws[i], j)
    ensures jobs[j].linked && !jobs[j].work.Null? ==> jobs[j].ran == 0 && !places[j].At?
  {
    var l := jobs[j].loop;
    assert LoopOk(loops[l], l, places) && JobOk(jobs[j], places[j]);
    forall i | 0 <= i < |ws| && Holds(ws[i], j) ensures places[j] == At(i) { assert WorkerOk(ws[i], i, jobs, places); }
  }

  lemma QueuesCancel(wq: seq<Item>, pending: seq<JobId>, places: map<JobId, Place>, j: JobId, l: nat)
    requires QueuesOk(wq, pending, places) && j in places
    ensures QueuesOk(Without(wq, Work(j)), Without(pending, j), places[j := Cancelling(l)])
  {
    WithoutFacts(wq, Work(j));
    WithoutFacts(pending, j);
    ListsLose(pending, places, InPending, j, Cancelling(l), Without(pending, j));
  }

  lemma CancelMoves(jobs: map<JobId, Job>, places: map<JobId, Place>, loops: seq<Loop>, ws: seq<Worker>, j: JobId, lp: Loop)
    requires Consistent(jobs, places, loops, ws) && j in jobs && jobs[j].calls == [] && jobs[j].linked && !jobs[j].work.Null?
    requires var l := jobs[j].loop; loops[l].cancelling == [] && lp == Loop(Without(loops[l].wq, j), Without(loops[l].batch, j), [j])
    ensures Consistent(jobs, places[j := Cancelling(jobs[j].loop)], loops[jobs[j].loop := lp], ws)
  {
    var l := jobs[j].loop;
    CancelCases(jobs, places, loops, ws, j);
    assert jobs[j := jobs[j]] == jobs;
    LoopsCancel(loops, places, j, l, lp);
    JobMoves(jobs, places, |loops|, ws, j, jobs[j], Cancelling(l), ws);
    WorkersStay(ws, jobs, places, j, jobs[j], Cancelling(l));
  }

  lemma CancelEnds(jobs: map<JobId, Job>, places: map<JobId, Place>, loops: seq<Loop>, ws: seq<Worker>, l: nat, j: JobId)
    requires Consistent(jobs, places, loops, ws) && l < |loops| && loops[l].cancelling != [] && j == loops[l].cancelling[0]
    ensures j in jobs && j in places && places[j] == Cancelling(l)
    ensures Consistent(jobs[j := jobs[j].(work := Cancelled)], places[j := InLoop(l)],
                       loops[l := loops[l].(wq := loops[l].wq + [j], cancelling := [])], ws)
  {
    assert LoopOk(loops[l], l, places);
    assert loops[l].cancelling == [j];
    LoopsCancelled(loops, places, j, l);
    var job := jobs[j].(work := Cancelled);
    JobMoves(jobs, places, |loops|, ws, j, job, InLoop(l), ws);
    WorkersStay(ws, jobs, places, j, job, InLoop(l));
  }

  lemma DoneEnds(jobs: map<JobId, Job>, places: map<JobId, Place>, loops: seq<Loop>, ws: seq<Worker>, l: nat)
    requires Consistent(jobs, places, loops, ws) && l < |loops| && loops[l].batch != []
    ensures var j := loops[l].batch[0];
            j in jobs && j in places && places[j] == InLoop(l) && jobs[j].calls == []
            && var err := if jobs[j].work.Cancelled? then UV_ECANCELED else 0;
               err == (if jobs[j].ran == 0 then UV_ECANCELED else 0)
               && Consistent(jobs[j := jobs[j].(calls := [err])], places[j := Done],
                             loops[l := loops[l].(batch := loops[l].batch[1..])], ws)
  {
    var j := loops[l].batch[0];
    LoopsDone(loops, places, l);
    var job := jobs[j].(calls := [if jobs[j].work.Cancelled? then UV_ECANCELED else 0]);
    JobMoves(jobs, places, |loops|, ws, j, job, Done, ws);
    WorkersStay(ws, jobs, places, j, job, Done);
  }

  // ---- the steps, on the state as a value ----

  /** Everything the locks protect; `places` says where each job is. */
  datatype State = State(wq: seq<Item>, pending: seq<JobId>, slowRunning: nat, workers: seq<Worker>,
                         loops: seq<Loop>, jobs: map<JobId, Job>, places: map<JobId, Place>)

  /** slow_work_thread_threshold */
  function Threshold(ws: seq<Worker>): nat {
    (|ws| + 1) / 2
  }

  ghost predicate Ok(s: State) {
    && Consistent(s.jobs, s.places, s.loops, s.workers)
    && QueuesOk(s.wq, s.pending, s.places)
    && s.slowRunning == SlowCount(s.workers) <= Threshold(s.workers)
  }

  /** One critical section of some thread, or the run of a work function. */
  datatype Step =
    | Submits(job: JobId, slow: bool, loop: nat)
    | Takes(worker: nat) | Executes(worker: nat) | Publishes(worker: nat) | Relocks(worker: nat)
    | Cancels(job: JobId) | FinishesCancel(loop: nat)
    | MovesBatch(loop: nat) | CallsDone(loop: nat)

  /** Whether a step can be taken now. */
  predicate Possible(jobs: map<JobId, Job>, workers: seq<Worker>, loops: seq<Loop>, step: Step) {
    match step
    case Submits(j, slow, loop) => j !in jobs && loop < |loops|
    case Takes(i) => i < |workers| && workers[i].Idle?
    case Executes(i) => i < |workers| && workers[i].Taken?
    case Publishes(i) => i < |workers| && workers[i].Ran?
    case Relocks(i) => i < |workers| && workers[i].Returning?
    case Cancels(j) => j in jobs && jobs[j].calls == [] && jobs[j].loop < |loops| && loops[jobs[j].loop].cancelling == []
    case FinishesCancel(l) => l < |loops| && loops[l].cancelling != []
    case MovesBatch(l) => l < |loops| && loops[l].batch == []
    case CallsDone(l) => l < |loops| && loops[l].batch != []
  }

  predicate Enabled(s: State, step: Step) {
    Possible(s.jobs, s.workers, s.loops, step)
  }

  /** uv__work_submit and post. */
  ghost function AfterSubmit(s: State, j: JobId, slow: bool, loop: nat): State {
    s.(jobs := s.jobs[j := Job(slow, loop, Function, true, 0, [])],
       places := s.places[j := if slow then InPending else InWq],
       pending := if slow then s.pending + [j] else s.pending,
       wq := if !slow then s.wq + [Work(j)] else if RunSlow in s.wq then s.wq else s.wq + [RunSlow])
  }

  lemma SubmitOk(s: State, j: JobId, slow: bool, loop: nat)
    requires Ok(s) && Enabled(s, Submits(j, slow, loop))
    ensures Ok(AfterSubmit(s, j, slow, loop))
  {
    var job, to := Job(slow, loop, Function, true, 0, []), if slow then InPending else InWq;
    assert j !in s.places;
    LoopsElsewhere(s.loops, s.places, j, to);
    JobMoves(s.jobs, s.places, |s.loops|, s.workers, j, job, to, s.workers);
    WorkersStay(s.workers, s.jobs, s.places, j, job, to);
    QueuesSubmit(s.wq, s.pending, s.places, j);
  }

  /** No work, or only slow work with the cap reached. */
  predicate MustWait(wq: seq<Item>, slowRunning: nat, ws: seq<Worker>) {
    wq == [] || (wq == [RunSlow] && slowRunning >= Threshold(ws))
  }

  ghost function TakenOff(s: State, i: nat, j: JobId, slow: bool, wq: seq<Item>, pending: seq<JobId>): State
    requires i < |s.workers| && j in s.jobs
  {
    s.(wq := wq, pending := pending, slowRunning := s.slowRunning + (if slow then 1 else 0),
       workers := s.workers[i := Taken(j, slow)],
       jobs := s.jobs[j := s.jobs[j].(linked := false)], places := s.places[j := At(i)])
  }

  lemma HeadIsJob(s: State)
    requires Ok(s) && s.wq != [] && s.wq[0].Work?
    ensures var j := s.wq[0].job; j in s.jobs && j in s.places && s.places[j] == InWq
  {
    assert Work(s.wq[0].job) in s.wq;
  }

  lemma PendingIsJob(s: State)
    requires Ok(s) && s.pending != []
    ensures var j := s.pending[0]; j in s.jobs && j in s.places && s.places[j] == InPending
  {
    assert s.pending[0] in s.pending;
  }

  /** The worker's loop, from locking the mutex to taking a job or going round again. */
  ghost function AfterTake(s: State, i: nat): State
    requires Ok(s) && i < |s.workers|
  {
    if MustWait(s.wq, s.slowRunning, s.workers) then s
    else match s.wq[0]
      case Work(j) =>
        HeadIsJob(s);
        TakenOff(s, i, j, false, s.wq[1..], s.pending)
      case RunSlow =>
        if s.slowRunning >= Threshold(s.workers) then s.(wq := s.wq[1..] + [RunSlow])
        else if s.pending == [] then s.(wq := s.wq[1..])
        else
          PendingIsJob(s);
          TakenOff(s, i, s.pending[0], true, s.wq[1..] + (if |s.pending| > 1 then [RunSlow] else []), s.pending[1..])
  }

  lemma TakeOk(s: State, i: nat)
    requires Ok(s) && Enabled(s, Takes(i))
    ensures Ok(AfterTake(s, i))
  {
    if !MustWait(s.wq, s.slowRunning, s.workers) {
      match s.wq[0]
      case Work(j) =>
        QueuesTake(s.wq, s.pending, s.places, j, i);
        TakenUp(s.jobs, s.places, s.loops, s.workers, i, j, false);
      case RunSlow =>
        QueuesMessage(s.wq, s.pending, s.places);
        if s.slowRunning < Threshold(s.workers) && s.pending != [] {
          PendingIsJob(s);
          QueuesTakeSlow(s.wq[1..], s.pending, s.places, i);
          TakenUp(s.jobs, s.places, s.loops, s.workers, i, s.pending[0], true);
        }
    }
  }

  /** w->work(w), outside every lock. */
  ghost function AfterExecute(s: State, i: nat): State
    requires i < |s.workers| && s.workers[i].Taken? && s.workers[i].job in s.jobs
  {
    var w := s.workers[i];
    s.(jobs := s.jobs[w.job := s.jobs[w.job].(ran := s.jobs[w.job].ran + 1)], workers := s.workers[i := Ran(w.job, w.slow)])
  }

  /** Under the loop's lock: the job is marked done and queued for the loop. */
  ghost function AfterPublish(s: State, i: nat): State
    requires i < |s.workers| && s.workers[i].Ran? && s.workers[i].job in s.jobs
    requires s.jobs[s.workers[i].job].loop < |s.loops|
  {
    var w := s.workers[i];
    var l := s.jobs[w.job].loop;
    s.(jobs := s.jobs[w.job := s.jobs[w.job].(work := Null, linked := true)],
       loops := s.loops[l := s.loops[l].(wq := s.loops[l].wq + [w.job])],
       workers := s.workers[i := Returning(w.slow)], places := s.places[w.job := InLoop(l)])
  }

  lemma HasJob(s: State, i: nat)
    requires Ok(s) && i < |s.workers| && (s.workers[i].Taken? || s.workers[i].Ran?)
    ensures var j := s.workers[i].job;
            j in s.jobs && s.jobs[j].loop < |s.loops| && j in s.places && s.places[j] == At(i) && s.jobs[j].slow == s.workers[i].slow
  {
    assert WorkerOk(s.workers[i], i, s.jobs, s.places);
  }

  /** Back under the mutex: a slow worker leaves the count. */
  ghost function AfterRelock(s: State, i: nat): State
    requires i < |s.workers| && s.workers[i].Returning? && (s.workers[i].slow ==> s.slowRunning > 0)
  {
    s.(workers := s.workers[i := Idle], slowRunning := s.slowRunning - if s.workers[i].slow then 1 else 0)
  }

  lemma SlowIsCounted(s: State, i: nat)
    requires Ok(s) && i < |s.workers| && IsSlow(s.workers[i])
    ensures s.slowRunning > 0
  {
    CountSome(s.workers, i);
  }

  /** The first half of uv__work_cancel, under both locks, by the loop's own thread on a
      request still active. */
  ghost function AfterCancel(s: State, j: JobId): State
    requires Enabled(s, Cancels(j))
  {
    if s.jobs[j].linked && !s.jobs[j].work.Null? then
      var l := s.jobs[j].loop;
      var lp := s.loops[l];
      s.(wq := Without(s.wq, Work(j)), pending := Without(s.pending, j),
         loops := s.loops[l := Loop(Without(lp.wq, j), Without(lp.batch, j), [j])],
         places := s.places[j := Cancelling(l)])
    else s
  }

  lemma CancelOk(s: State, j: JobId)
    requires Ok(s) && Enabled(s, Cancels(j))
    ensures Ok(AfterCancel(s, j))
  {
    if s.jobs[j].linked && !s.jobs[j].work.Null? {
      var l := s.jobs[j].loop;
      var lp := Loop(Without(s.loops[l].wq, j), Without(s.loops[l].batch, j), [j]);
      QueuesCancel(s.wq, s.pending, s.places, j, l);
      CancelMoves(s.jobs, s.places, s.loops, s.workers, j, lp);
    }
  }

  /** The second half: the job is marked cancelled and queued for its loop. */
  ghost function AfterFinish(s: State, l: nat): State
    requires Enabled(s, FinishesCancel(l)) && s.loops[l].cancelling[0] in s.jobs
  {
    var j := s.loops[l].cancelling[0];
    s.(jobs := s.jobs[j := s.jobs[j].(work := WorkPtr.Cancelled)],
       loops := s.loops[l := s.loops[l].(wq := s.loops[l].wq + [j], cancelling := [])],
       places := s.places[j := InLoop(l)])
  }

  /** uv__work_done takes the loop's queue as its batch. */
  ghost function AfterMove(s: State, l: nat): State
    requires l < |s.loops|
  {
    s.(loops := s.loops[l := s.loops[l].(wq := [], batch := s.loops[l].wq)])
  }

  /** uv__work_done calls the done callback of the next job of its batch. */
  ghost function AfterDone(s: State, l: nat): State
    requires Enabled(s, CallsDone(l)) && s.loops[l].batch[0] in s.jobs
  {
    var j := s.loops[l].batch[0];
    var err := if s.jobs[j].work.Cancelled? then UV_ECANCELED else 0;
    s.(jobs := s.jobs[j := s.jobs[j].(calls := s.jobs[j].calls + [err])],
       loops := s.loops[l := s.loops[l].(batch := s.loops[l].batch[1..])],
       places := s.places[j := Done])
  }

  lemma FinishHasJob(s: State, l: nat)
    requires Ok(s) && Enabled(s, FinishesCancel(l))
    ensures s.loops[l].cancelling[0] in s.jobs
  {
    CancelEnds(s.jobs, s.places, s.loops, s.workers, l, s.loops[l].cancelling[0]);
  }

  lemma DoneHasJob(s: State, l: nat)
    requires Ok(s) && Enabled(s, CallsDone(l))
    ensures var j := s.loops[l].batch[0];
            j in s.jobs && s.jobs[j].calls == [] && (s.jobs[j].work.Cancelled? <==> s.jobs[j].ran == 0)
  {
    DoneEnds(s.jobs, s.places, s.loops, s.workers, l);
  }

  ghost function Next(s: State, step: Step): State
    requires Ok(s) && Enabled(s, step)
  {
    match step
    case Submits(j, slow, loop) => AfterSubmit(s, j, slow, loop)
    case Takes(i) => AfterTake(s, i)
    case Executes(i) => HasJob(s, i); AfterExecute(s, i)
    case Publishes(i) => HasJob(s, i); AfterPublish(s, i)
    case Relocks(i) => if s.workers[i].slow then SlowIsCounted(s, i); AfterRelock(s, i) else AfterRelock(s, i)
    case Cancels(j) => AfterCancel(s, j)
    case FinishesCancel(l) => FinishHasJob(s, l); AfterFinish(s, l)
    case MovesBatch(l) => AfterMove(s, l)
    case CallsDone(l) => DoneHasJob(s, l); AfterDone(s, l)
  }

  lemma ExecuteOk(s: State, i: nat)
    requires Ok(s) && Enabled(s, Executes(i))
    ensures Ok(Next(s, Executes(i)))
  {
    Executed(s.jobs, s.places, s.loops, s.workers, i);
  }

  lemma PublishOk(s: State, i: nat)
    requires Ok(s) && Enabled(s, Publishes(i))
    ensures Ok(Next(s, Publishes(i)))
  {
    HasJob(s, i);
    Published(s.jobs, s.places, s.loops, s.workers, i);
    var j := s.workers[i].job;
    QueuesElsewhere(s.wq, s.pending, s.places, j, InLoop(s.jobs[j].loop));
  }

  lemma RelockOk(s: State, i: nat)
    requires Ok(s) && Enabled(s, Relocks(i))
    ensures Ok(Next(s, Relocks(i)))
  {
    Reposed(s.jobs, s.places, s.loops, s.workers, i);
  }

  lemma FinishOk(s: State, l: nat)
    requires Ok(s) && Enabled(s, FinishesCancel(l))
    ensures Ok(Next(s, FinishesCancel(l)))
  {
    var j := s.loops[l].cancelling[0];
    CancelEnds(s.jobs, s.places, s.loops, s.workers, l, j);
    QueuesElsewhere(s.wq, s.pending, s.places, j, InLoop(l));
  }

  lemma DoneOk(s: State, l: nat)
    requires Ok(s) && Enabled(s, CallsDone(l))
    ensures Ok(Next(s, CallsDone(l)))
  {
    DoneEnds(s.jobs, s.places, s.loops, s.workers, l);
    var j := s.loops[l].batch[0];
    QueuesElsewhere(s.wq, s.pending, s.places, j, Done);
    var err := if s.jobs[j].work.Cancelled? then UV_ECANCELED else 0;
    assert s.jobs[j].calls + [err] == [err];
  }

  lemma NextOk(s: State, step: Step)
    requires Ok(s) && Enabled(s, step)
    ensures Ok(Next(s, step))
  {
    match step
    case Submits(j, slow, loop) => SubmitOk(s, j, slow, loop);
    case Takes(i) => TakeOk(s, i);
    case Executes(i) => ExecuteOk(s, i);
    case Publishes(i) => PublishOk(s, i);
    case Relocks(i) => RelockOk(s, i);
    case Cancels(j) => CancelOk(s, j);
    case FinishesCancel(l) => FinishOk(s, l);
    case MovesBatch(l) => LoopsMoved(s.loops, s.places, l);
    case CallsDone(l) => DoneOk(s, l);
  }

  // ---- runs ----

  ghost function Initial(nthreads: nat, nloops: nat): State {
    State([], [], 0, seq(nthreads, _ => Idle), seq(nloops, _ => Loop([], [], [])), map[], map[])
  }

  lemma InitialOk(nthreads: nat, nloops: nat)
    ensures Ok(Initial(nthreads, nloops))
  {
    AllIdle(Initial(nthreads, nloops).workers);
  }

  /** The state after any threads' steps, in any order; a step that cannot be taken when
      its turn comes does nothing. */
  ghost function After(nthreads: nat, nloops: nat, schedule: seq<Step>): (s: State)
    ensures Ok(s)
    decreases |schedule|
  {
    if schedule == [] then InitialOk(nthreads, nloops); Initial(nthreads, nloops)
    else
      var s, step := After(nthreads, nloops, schedule[..|schedule| - 1]), schedule[|schedule| - 1];
      if Enabled(s, step) then NextOk(s, step); Next(s, step) else s
  }

  /** The workers that are working on a slow job. */
  ghost function OnSlowJobs(s: State): set<nat> {
    set i | 0 <= i < |s.workers| && (s.workers[i].Taken? || s.workers[i].Ran?)
      && s.workers[i].job in s.jobs && s.jobs[s.workers[i].job].slow
  }

  /** At most (nthreads + 1) / 2 workers are on slow jobs, no two workers are on one job,
      pending slow work has its message queued, at most once. */
  ghost predicate Safe(s: State) {
    && 2 * |OnSlowJobs(s)| <= |s.workers| + 1
    && (forall i, k, j :: 0 <= i < |s.workers| && 0 <= k < |s.workers| && Holds(s.workers[i], j) && Holds(s.workers[k], j) ==> i == k)
    && (s.pending != [] ==> RunSlow in s.wq) && multiset(s.wq)[RunSlow] <= 1
    && forall j :: j in s.jobs ==> JobSafe(s.jobs[j])
  }

  /** The work runs at most once, done is called at most once, and its status is the
      cancelled one exactly when the work never ran. */
  predicate JobSafe(job: Job) {
    job.ran <= 1 && |job.calls| <= 1 && (job.calls != [] ==> (job.calls[0] == UV_ECANCELED <==> job.ran == 0))
  }

  lemma {:induction false} SlowSet(ws: seq<Worker>, on: set<nat>)
    requires forall i :: i in on ==> i < |ws| && IsSlow(ws[i])
    ensures |on| <= SlowCount(ws)
    decreases |ws|
  {
    if ws == [] {
      assert on == {};
    } else {
      var last := |ws| - 1;
      SlowSet(ws[..last], on - {last});
      assert last in on ==> |on| == |on - {last}| + 1;
      assert last !in on ==> on - {last} == on;
    }
  }

  lemma OkIsSafe(s: State)
    requires Ok(s)
    ensures Safe(s)
  {
    AtMostOnce(s.wq, RunSlow);
    forall i | i in OnSlowJobs(s) ensures IsSlow(s.workers[i]) { HasJob(s, i); }
    SlowSet(s.workers, OnSlowJobs(s));
    forall i, k, j | 0 <= i < |s.workers| && 0 <= k < |s.workers| && Holds(s.workers[i], j) && Holds(s.workers[k], j)
      ensures i == k
    {
      HasJob(s, i);
      HasJob(s, k);
    }
    forall j | j in s.jobs ensures JobSafe(s.jobs[j]) {
      assert JobOk(s.jobs[j], s.places[j]);
      if s.places[j].At? { HasJob(s, s.places[j].worker); }
    }
  }

  /** Every state of every schedule is safe. */
  lemma EveryScheduleIsSafe(nthreads: nat, nloops: nat, schedule: seq<Step>)
    ensures var s := After(nthreads, nloops, schedule);
            Safe(s) && |s.workers| == nthreads && |s.loops| == nloops && 2 * |OnSlowJobs(s)| <= nthreads + 1
  {
    OkIsSafe(After(nthreads, nloops, schedule));
    ScheduleSizes(nthreads, nloops, schedule);
  }

  /** Below the cap, slow work is not held back: an idle worker at the message takes the
      job that has waited longest. */
  lemma TakesSlow(s: State, i: nat)
    requires Ok(s) && i < |s.workers| && s.workers[i].Idle? && s.wq != [] && s.wq[0].RunSlow? && s.pending != []
    requires 2 * s.slowRunning + 1 < |s.workers| + 1
    ensures Enabled(s, Takes(i)) && Next(s, Takes(i)).workers[i] == Taken(s.pending[0], true)
    ensures Next(s, Takes(i)).pending == s.pending[1..] && Next(s, Takes(i)).slowRunning == s.slowRunning + 1
  {
  }

  lemma NextSizes(s: State, step: Step)
    requires Ok(s) && Enabled(s, step)
    ensures |Next(s, step).workers| == |s.workers| && |Next(s, step).loops| == |s.loops|
  {
    match step
    case Submits(j, slow, loop) =>
    case Takes(i) => TakeSizes(s, i);
    case Executes(i) =>
    case Publishes(i) =>
    case Relocks(i) =>
    case Cancels(j) =>
    case FinishesCancel(l) =>
    case MovesBatch(l) =>
    case CallsDone(l) =>
  }

  lemma TakeSizes(s: State, i: nat)
    requires Ok(s) && Enabled(s, Takes(i))
    ensures |AfterTake(s, i).workers| == |s.workers| && |AfterTake(s, i).loops| == |s.loops|
  {
  }

  lemma {:induction false} ScheduleSizes(nthreads: nat, nloops: nat, schedule: seq<Step>)
    ensures var s := After(nthreads, nloops, schedule); |s.workers| == nthreads && |s.loops| == nloops
    decreases |schedule|
  {
    if schedule != [] {
      var init, step := schedule[..|schedule| - 1], schedule[|schedule| - 1];
      ScheduleSizes(nthreads, nloops, init);
      var s := After(nthreads, nloops, init);
      if Enabled(s, step) { NextSizes(s, step); }
    }
  }

  /** Nothing is taken back: every job is still there, for the same loop and of the same
      kind, with every run of its work and every call of done. */
  ghost predicate Grows(before: map<JobId, Job>, after: map<JobId, Job>) {
    forall j :: j in before ==>
      && j in after && after[j].slow == before[j].slow && after[j].loop == before[j].loop
      && before[j].ran <= after[j].ran && before[j].calls <= after[j].calls
  }

  lemma NextGrows(s: State, step: Step)
    requires Ok(s) && Enabled(s, step)
    ensures Grows(s.jobs, Next(s, step).jobs)
  {
    match step
    case Submits(j, slow, loop) =>
    case Takes(i) => TakeGrows(s, i);
    case Executes(i) => HasJob(s, i); OneGrows(s.jobs, s.workers[i].job, Next(s, step).jobs);
    case Publishes(i) => HasJob(s, i); OneGrows(s.jobs, s.workers[i].job, Next(s, step).jobs);
    case Relocks(i) =>
    case Cancels(j) =>
    case FinishesCancel(l) => FinishHasJob(s, l); OneGrows(s.jobs, s.loops[l].cancelling[0], Next(s, step).jobs);
    case MovesBatch(l) =>
    case CallsDone(l) => DoneHasJob(s, l); OneGrows(s.jobs, s.loops[l].batch[0], Next(s, step).jobs);
  }

  lemma OneGrows(jobs: map<JobId, Job>, j: JobId, jobs': map<JobId, Job>)
    requires j in jobs && j in jobs' && jobs' == jobs[j := jobs'[j]]
    requires jobs'[j].slow == jobs[j].slow && jobs'[j].loop == jobs[j].loop
    requires jobs[j].ran <= jobs'[j].ran && jobs[j].calls <= jobs'[j].calls
    ensures Grows(jobs, jobs')
  {
  }

  lemma TakeGrows(s: State, i: nat)
    requires Ok(s) && Enabled(s, Takes(i))
    ensures Grows(s.jobs, AfterTake(s, i).jobs)
  {
  }

  lemma {:induction false} ScheduleGrows(nthreads: nat, nloops: nat, schedule: seq<Step>, k: nat)
    requires k <= |schedule|
    ensures Grows(After(nthreads, nloops, schedule[..k]).jobs, After(nthreads, nloops, schedule).jobs)
    decreases |schedule|
  {
    if k == |schedule| {
      assert schedule[..k] == schedule;
    } else {
      var init, step := schedule[..|schedule| - 1], schedule[|schedule| - 1];
      ScheduleGrows(nthreads, nloops, init, k);
      assert init[..k] == schedule[..k];
      var s := After(nthreads, nloops, init);
      if Enabled(s, step) { NextGrows(s, step); }
    }
  }

  /** No thread can go on but by submitting or cancelling. */
  ghost predicate AtRest(s: State)
    requires Ok(s)
  {
    forall step :: Enabled(s, step) && !step.Submits? && !step.Cancels? ==> Next(s, step) == s
  }

  /** Nothing is lost: when nobody can go on, every job submitted is done, once. */
  lemma RestIsDone(s: State)
    requires Ok(s) && AtRest(s) && s.workers != []
    ensures forall j :: j in s.jobs ==> |s.jobs[j].calls| == 1
  {
    forall i | 0 <= i < |s.workers| ensures s.workers[i].Idle? {
      if !s.workers[i].Idle? { WorkerMoves(s, i); }
    }
    AllIdle(s.workers);
    if s.wq != [] { TakeMoves(s); }
    forall l | 0 <= l < |s.loops| ensures s.loops[l] == Loop([], [], []) {
      if s.loops[l] != Loop([], [], []) { LoopMoves(s, l); }
    }
    forall j | j in s.jobs ensures |s.jobs[j].calls| == 1 { NowhereElse(s, j); }
  }

  /** A worker that is not idle can go on. */
  lemma WorkerMoves(s: State, i: nat)
    requires Ok(s) && i < |s.workers| && !s.workers[i].Idle?
    ensures exists step :: Enabled(s, step) && (step.Executes? || step.Publishes? || step.Relocks?) && Next(s, step) != s
  {
    var w := s.workers[i];
    var step := if w.Taken? then Executes(i) else if w.Ran? then Publishes(i) else Relocks(i);
    assert Enabled(s, step) && Next(s, step).workers[i] != w;
  }

  /** With no slow work running, an idle worker can take what is queued. */
  lemma TakeMoves(s: State)
    requires Ok(s) && s.workers != [] && s.workers[0].Idle? && s.slowRunning == 0 && s.wq != []
    ensures Enabled(s, Takes(0)) && Next(s, Takes(0)) != s
  {
  }

  /** A loop with anything queued can go on. */
  lemma LoopMoves(s: State, l: nat)
    requires Ok(s) && l < |s.loops| && s.loops[l] != Loop([], [], [])
    ensures exists step :: Enabled(s, step) && (step.FinishesCancel? || step.MovesBatch? || step.CallsDone?) && Next(s, step) != s
  {
    var lp := s.loops[l];
    var step := if lp.cancelling != [] then FinishesCancel(l) else if lp.batch != [] then CallsDone(l) else MovesBatch(l);
    assert Enabled(s, step) && Next(s, step).loops[l] != lp;
  }

  lemma NowhereElse(s: State, j: JobId)
    requires Ok(s) && j in s.jobs && s.wq == [] && s.pending == []
    requires forall i :: 0 <= i < |s.workers| ==> s.workers[i].Idle?
    requires forall l :: 0 <= l < |s.loops| ==> s.loops[l] == Loop([], [], [])
    ensures s.places[j] == Done && |s.jobs[j].calls| == 1
  {
    assert JobOk(s.jobs[j], s.places[j]);
    assert s.places[j].InWq? ==> Work(j) in s.wq;
    var l := s.jobs[j].loop;
    assert LoopOk(s.loops[l], l, s.places);
  }

  // ---- the pool ----

  class ThreadPool {
    var wq: seq<Item>
    var pending: seq<JobId>          // slow_io_pending_wq
    var slowRunning: nat             // slow_io_work_running
    var workers: seq<Worker>
    var loops: seq<Loop>
    var jobs: map<JobId, Job>
    ghost var places: map<JobId, Place>

    ghost function Now(): State
      reads this
    {
      State(wq, pending, slowRunning, workers, loops, jobs, places)
    }

    ghost predicate Can(step: Step)
      reads this
    {
      Ok(Now()) && Enabled(Now(), step)
    }

    constructor (nthreads: nat, nloops: nat)
      ensures Now() == After(nthreads, nloops, [])
    {
      wq, pending, slowRunning := [], [], 0;
      workers := seq(nthreads, _ => Idle);
      loops := seq(nloops, _ => Loop([], [], []));
      jobs, places := map[], map[];
    }

    method Submit(j: JobId, slow: bool, loop: nat)
      requires Can(Submits(j, slow, loop))
      modifies `jobs, `pending, `wq, `places
      ensures Now() == Next(old(Now()), Submits(j, slow, loop))
      ensures jobs == old(jobs)[j := Job(slow, loop, Function, true, 0, [])]
      ensures pending == if slow then old(pending) + [j] else old(pending)
      ensures wq == if !slow then old(wq) + [Work(j)] else if RunSlow in old(wq) then old(wq) else old(wq) + [RunSlow]
    {
      jobs := jobs[j := Job(slow, loop, Function, true, 0, [])];
      if slow {
        pending := pending + [j];
        if RunSlow !in wq {
          wq := wq + [RunSlow];
        }
      } else {
        wq := wq + [Work(j)];
      }
      places := places[j := if slow then InPending else InWq];
    }

    method Take(i: nat)
      requires Can(Takes(i))
      modifies `wq, `pending, `slowRunning, `workers, `jobs, `places
      ensures Now() == Next(old(Now()), Takes(i))
      ensures old(wq) == [] || (old(wq) == [RunSlow] && 2 * old(slowRunning) >= |old(workers)|) ==> unchanged(this)
      ensures old(wq) != [] && old(wq)[0].Work? ==>
        var j := old(wq)[0].job;
        wq == old(wq)[1..] && pending == old(pending) && slowRunning == old(slowRunning)
        && workers == old(workers)[i := Taken(j, false)] && j in old(jobs) && jobs == old(jobs)[j := old(jobs)[j].(linked := false)]
      ensures |old(wq)| > 1 && old(wq)[0].RunSlow? && 2 * old(slowRunning) >= |old(workers)| ==>
        wq == old(wq)[1..] + [RunSlow] && pending == old(pending) && slowRunning == old(slowRunning)
        && workers == old(workers) && jobs == old(jobs)
      ensures old(wq) != [] && old(wq)[0].RunSlow? && 2 * old(slowRunning) < |old(workers)| && old(pending) == [] ==>
        wq == old(wq)[1..] && pending == [] && slowRunning == old(slowRunning) && workers == old(workers) && jobs == old(jobs)
      ensures old(wq) != [] && old(wq)[0].RunSlow? && 2 * old(slowRunning) < |old(workers)| && old(pending) != [] ==>
        var j := old(pending)[0];
        wq == old(wq)[1..] + (if |old(pending)| > 1 then [RunSlow] else []) && pending == old(pending)[1..]
        && slowRunning == old(slowRunning) + 1 && workers == old(workers)[i := Taken(j, true)]
        && j in old(jobs) && jobs == old(jobs)[j := old(jobs)[j].(linked := false)]
    {
      if wq == [] || (wq[0] == RunSlow && |wq| == 1 && slowRunning >= Threshold(workers)) {
        return;
      }
      var q := wq[0];
      var slow := false;
      var j;
      ghost var was := Now();
      wq := wq[1..];
      match q {
        case Work(k) =>
          HeadIsJob(was);
          j := k;
        case RunSlow =>
          if slowRunning >= Threshold(workers) {
            wq := wq + [RunSlow];
            return;
          }
          if pending == [] {
            return;
          }
          PendingIsJob(was);
          slow, slowRunning, j := true, slowRunning + 1, pending[0];
          pending := pending[1..];
          if pending != [] {
            wq := wq + [RunSlow];
          }
      }
      jobs := jobs[j := jobs[j].(linked := false)];
      workers := workers[i := Taken(j, slow)];
      places := places[j := At(i)];
    }

    method Execute(i: nat)
      requires Can(Executes(i))
      modifies `workers, `jobs
      ensures Now() == Next(old(Now()), Executes(i))
      ensures var j := old(workers)[i].job;
              j in old(jobs) && jobs == old(jobs)[j := old(jobs)[j].(ran := old(jobs)[j].ran + 1)]
              && workers == old(workers)[i := Ran(j, old(workers)[i].slow)]
    {
      HasJob(Now(), i);
      var j := workers[i].job;
      jobs := jobs[j := jobs[j].(ran := jobs[j].ran + 1)];
      workers := workers[i := Ran(j, workers[i].slow)];
    }

    method Publish(i: nat)
      requires Can(Publishes(i))
      modifies `workers, `jobs, `loops, `places
      ensures Now() == Next(old(Now()), Publishes(i))
      ensures var j := old(workers)[i].job;
              j in old(jobs) && jobs == old(jobs)[j := old(jobs)[j].(work := Null, linked := true)]
              && workers == old(workers)[i := Returning(old(workers)[i].slow)]
              && var l := old(jobs)[j].loop;
                 l < |old(loops)| && loops == old(loops)[l := old(loops)[l].(wq := old(loops)[l].wq + [j])]
    {
      HasJob(Now(), i);
      var j := workers[i].job;
      var l := jobs[j].loop;
      jobs := jobs[j := jobs[j].(work := Null, linked := true)];
      loops := loops[l := loops[l].(wq := loops[l].wq + [j])];
      workers := workers[i := Returning(workers[i].slow)];
      places := places[j := InLoop(l)];
    }

    method Relock(i: nat)
      requires Can(Relocks(i))
      modifies `workers, `slowRunning
      ensures Now() == Next(old(Now()), Relocks(i))
      ensures workers == old(workers)[i := Idle]
      ensures slowRunning == old(slowRunning) - if old(workers)[i].slow then 1 else 0
    {
      if workers[i].slow {
        SlowIsCounted(Now(), i);
        slowRunning := slowRunning - 1;
      }
      workers := workers[i := Idle];
    }

    // ---- the loop's thread ----

    /** Cancelling succeeds exactly when no worker has taken the job. */
    method CancelCheck(j: JobId) returns (cancelled: bool)
      requires Can(Cancels(j))
      modifies `wq, `pending, `loops, `places
      ensures Now() == Next(old(Now()), Cancels(j))
      ensures cancelled <==> jobs[j].ran == 0 && forall i :: 0 <= i < |workers| ==> !Holds(workers[i], j)
      ensures !cancelled ==> unchanged(this)
      ensures cancelled ==>
        && (forall x :: x in wq <==> x in old(wq) && x != Work(j)) && (forall x :: x in pending <==> x in old(pending) && x != j)
        && var l := jobs[j].loop; var lp := old(loops)[l];
           loops == old(loops)[l := Loop(Without(lp.wq, j), Without(lp.batch, j), [j])]
    {
      CancelCases(jobs, places, loops, workers, j);
      cancelled := jobs[j].linked && !jobs[j].work.Null?;
      if cancelled {
        var l := jobs[j].loop;
        WithoutFacts(wq, Work(j));
        WithoutFacts(pending, j);
        wq := Without(wq, Work(j));
        pending := Without(pending, j);
        loops := loops[l := Loop(Without(loops[l].wq, j), Without(loops[l].batch, j), [j])];
        places := places[j := Cancelling(l)];
      }
    }

    method CancelFinish(l: nat)
      requires Can(FinishesCancel(l))
      modifies `jobs, `loops, `places
      ensures Now() == Next(old(Now()), FinishesCancel(l))
      ensures var j := old(loops)[l].cancelling[0];
              j in old(jobs) && jobs == old(jobs)[j := old(jobs)[j].(work := Cancelled)]
              && loops == old(loops)[l := old(loops)[l].(wq := old(loops)[l].wq + [j], cancelling := [])]
    {
      FinishHasJob(Now(), l);
      var j := loops[l].cancelling[0];
      jobs := jobs[j := jobs[j].(work := Cancelled)];
      loops := loops[l := loops[l].(wq := loops[l].wq + [j], cancelling := [])];
      places := places[j := InLoop(l)];
    }

    method MoveBatch(l: nat)
      requires Can(MovesBatch(l))
      modifies `loops
      ensures Now() == Next(old(Now()), MovesBatch(l))
      ensures loops == old(loops)[l := old(loops)[l].(wq := [], batch := old(loops)[l].wq)]
    {
      loops := loops[l := loops[l].(wq := [], batch := loops[l].wq)];
    }

    /** The first call of done of that job, with the cancelled status exactly when its
        work never ran. */
    method CallDone(l: nat)
      requires Can(CallsDone(l))
      modifies `jobs, `loops, `places
      ensures Now() == Next(old(Now()), CallsDone(l))
      ensures var j := old(loops)[l].batch[0];
              j in old(jobs) && old(jobs)[j].calls == []
              && jobs == old(jobs)[j := old(jobs)[j].(calls := [if old(jobs)[j].ran == 0 then UV_ECANCELED else 0])]
              && loops == old(loops)[l := old(loops)[l].(batch := old(loops)[l].batch[1..])]
    {
      DoneHasJob(Now(), l);
      var j := loops[l].batch[0];
      var err := if jobs[j].work.Cancelled? then UV_ECANCELED else 0;
      assert jobs[j].calls + [err] == [err];
      jobs := jobs[j := jobs[j].(calls := jobs[j].calls + [err])];
      loops := loops[l := loops[l].(batch := loops[l].batch[1..])];
      places := places[j := Done];
    }

    method Perform(step: Step)
      requires Can(step)
      modifies this
      ensures Now() == Next(old(Now()), step)
    {
      match step {
        case Submits(j, slow, loop) => Submit(j, slow, loop);
        case Takes(i) => Take(i);
        case Executes(i) => Execute(i);
        case Publishes(i) => Publish(i);
        case Relocks(i) => Relock(i);
        case Cancels(j) => var _ := CancelCheck(j);
        case FinishesCancel(l) => CancelFinish(l);
        case MovesBatch(l) => MoveBatch(l);
        case CallsDone(l) => CallDone(l);
      }
    }
  }

  /** Any interleaving of any threads' steps, on the pool itself. */
  method Interleave(nthreads: nat, nloops: nat, schedule: seq<Step>) returns (pool: ThreadPool)
    ensures fresh(pool) && pool.Now() == After(nthreads, nloops, schedule)
  {
    pool := new ThreadPool(nthreads, nloops);
    for t := 0 to |schedule|
      invariant fresh(pool) && pool.Now() == After(nthreads, nloops, schedule[..t])
    {
      assert schedule[..t + 1][..t] == schedule[..t];
      if Possible(pool.jobs, pool.workers, pool.loops, schedule[t]) {
        pool.Perform(schedule[t]);
      }
    }
    assert schedule[..|schedule|] == schedule;
  }

  lemma {:induction false} AtMostOnce<T(!new)>(q: seq<T>, x: T)
    requires Distinct(q)
    ensures multiset(q)[x] <= 1
  {
    if q != [] {
      var init, last := q[..|q| - 1], q[|q| - 1];
      AtMostOnce(init, x);
      assert q == init + [last];
      if last == x { assert forall i :: 0 <= i < |init| ==> init[i] == q[i]; assert x !in init; }
    }
  }

  lemma QueuesElsewhere(wq: seq<Item>, pending: seq<JobId>, places: map<JobId, Place>, j: JobId, to: Place)
    requires QueuesOk(wq, pending, places) && !to.InWq? && !to.InPending?
    requires j in places && !places[j].InWq? && !places[j].InPending?
    ensures QueuesOk(wq, pending, places[j := to])
  {
    ListsElsewhere(pending, places, InPending, j, to);
  }

  lemma {:induction false} CountSome(ws: seq<Worker>, i: nat)
    requires i < |ws| && IsSlow(ws[i])
    ensures SlowCount(ws) > 0
  {
    if i < |ws| - 1 { CountSome(ws[..|ws| - 1], i); }
  }

  lemma {:induction false} AllIdle(ws: seq<Worker>)
    requires forall i :: 0 <= i < |ws| ==> ws[i].Idle?
    ensures SlowCount(ws) == 0
  {
    if ws != [] { AllIdle(ws[..|ws| - 1]); }
  }
}
