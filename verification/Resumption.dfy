/** A job can be brought to its end from wherever it was interrupted (src/backfill/worker.ts:104-172). */
module Resumption {
  import opened Options
  import opened Tables
  import opened Rederive
  import opened Jobs
  import opened Backfill

  lemma EventFirst(u: Plan, w: World, e: Event, rest: seq<Event>)
    requires Sound(u, w) && Able(u, w, e) && Possible(u, Step(u, w, e), rest)
    ensures Possible(u, w, [e] + rest) && After(u, w, [e] + rest) == After(u, Step(u, w, e), rest)
  {
    hide Able, Sound, Step;
    assert ([e] + rest)[1..] == rest;
  }

  /** One move of a worker, and where it then stands. */
  ghost predicate Moves(u: Plan, start: Db, w: World, e: Event, next: World) {
    Sound(u, w) && Able(u, w, e) && next == Step(u, w, e) && Inv(u, start, next) && |next.workers| == |w.workers|
  }

  lemma Crashed(u: Plan, start: Db, w: World, i: nat) returns (next: World)
    requires Inv(u, start, w) && i < |w.workers| && !w.workers[i].Idle?
    ensures Moves(u, start, w, Crashes(i), next) && next.workers[i].Idle? && next.db == w.db
  {
    StepKeepsInv(u, start, w, Crashes(i));
    hide Inv, Sound;
    next := Step(u, w, Crashes(i));
  }

  lemma Requeued(u: Plan, start: Db, w: World, i: nat) returns (next: World)
    requires Inv(u, start, w) && i < |w.workers| && w.workers[i].Idle? && w.db.jobs[u.job].status in {Running, Failed}
    ensures Moves(u, start, w, Reclaims, next) && next.workers == w.workers
    ensures next.db.jobs[u.job] == w.db.jobs[u.job].(status := Pending)
  {
    StepKeepsInv(u, start, w, Reclaims);
    next := Step(u, w, Reclaims);
  }

  lemma Claimed(u: Plan, start: Db, w: World, i: nat) returns (next: World)
    requires Inv(u, start, w) && i < |w.workers| && w.workers[i].Idle? && w.db.jobs[u.job].status == Pending
    ensures Moves(u, start, w, Claims(i), next)
    ensures next.workers[i].Fetching? && next.workers[i].page == Position(w.db.jobs[u.job])
  {
    StepKeepsInv(u, start, w, Claims(i));
    next := Step(u, w, Claims(i));
  }

  lemma Fetched(u: Plan, start: Db, w: World, i: nat) returns (next: World)
    requires Inv(u, start, w) && i < |w.workers| && w.workers[i].Fetching?
    ensures Moves(u, start, w, Served(i), next) && next.workers[i].Writing? && next.workers[i].page == w.workers[i].page < |u.chain|
  {
    hide Highest;
    StepKeepsInv(u, start, w, Served(i));
    next := Step(u, w, Served(i));
  }

  lemma Written(u: Plan, start: Db, w: World, i: nat) returns (next: World)
    requires Inv(u, start, w) && i < |w.workers| && w.workers[i].Writing?
    ensures w.workers[i].page < |u.chain| && Moves(u, start, w, Commits(i), next)
    ensures w.workers[i].page + 1 == |u.chain| ==> next.db.jobs[u.job].status == Completed
    ensures w.workers[i].page + 1 < |u.chain| ==> next.workers[i].Fetching? && next.workers[i].page == w.workers[i].page + 1
  {
    hide Page, Kept;
    StepKeepsInv(u, start, w, Commits(i));
    next := Step(u, w, Commits(i));
    CommitMarks(u, w.db, w.workers[i].page, w.workers[i].maxLedger);
  }

  /** From the page it fetches on, a worker that is served and writes completes the job. */
  lemma {:induction false} GoesThrough(u: Plan, start: Db, w: World, i: nat) returns (run: seq<Event>)
    requires Inv(u, start, w) && i < |w.workers| && w.workers[i].Fetching? && w.workers[i].page < |u.chain|
    ensures Possible(u, w, run) && u.job in After(u, w, run).db.jobs && After(u, w, run).db.jobs[u.job].status == Completed
    ensures |run| == 2 * (|u.chain| - w.workers[i].page)
    decreases |u.chain| - w.workers[i].page
  {
    hide Inv, Sound, Able, Step;
    var fetched := Fetched(u, start, w, i);
    var written := Written(u, start, fetched, i);
    var rest := [];
    if w.workers[i].page + 1 < |u.chain| {
      rest := GoesThrough(u, start, written, i);
    } else {
      InvIsSound(u, start, written);
      assert u.job in written.db.jobs by {
        HasJob(u, start, written);
      }
    }
    EventFirst(u, fetched, Commits(i), rest);
    EventFirst(u, w, Served(i), [Commits(i)] + rest);
    run := [Served(i)] + ([Commits(i)] + rest);
  }

  lemma HasJob(u: Plan, start: Db, w: World)
    requires Inv(u, start, w)
    ensures u.job in w.db.jobs
  {
  }

  /** However a run went - crashed, failed, stopped, in the middle of a page - any worker can complete the job from there:
      it is given up where it was, requeued unless it waits, claimed, and two events for each page from the cursor on,
      that it is served and that it is written, complete it. What keeps a page from being written is
      `Worker.RefusesExactlyWhen`. */
  lemma AnyWorkerCompletes(u: Plan, first: World, past: seq<Event>, i: nat) returns (run: seq<Event>)
    requires Initial(u, first) && Possible(u, first, past) && i < |After(u, first, past).workers|
    requires u.job in After(u, first, past).db.jobs && After(u, first, past).db.jobs[u.job].status != Completed
    ensures var w := After(u, first, past); var job := w.db.jobs[u.job];
            && Possible(u, w, run) && u.job in After(u, w, run).db.jobs && After(u, w, run).db.jobs[u.job].status == Completed
            && |run| == (if w.workers[i].Idle? then 0 else 1) + (if job.status == Pending then 0 else 1) + 1
                        + 2 * (|u.chain| - Position(job))
  {
    hide Inv, Sound, Able, Step, Initial, Possible, After;
    InitialInv(u, first);
    RunKeepsInv(u, first.db, first, past);
    var w := After(u, first, past);
    var start := first.db;
    run := GivenUp(u, start, w, i);
  }

  lemma Taken(u: Plan, start: Db, w: World, i: nat) returns (run: seq<Event>)
    requires Inv(u, start, w) && i < |w.workers| && w.workers[i].Idle? && u.job in w.db.jobs && w.db.jobs[u.job].status == Pending
    ensures Possible(u, w, run) && u.job in After(u, w, run).db.jobs && After(u, w, run).db.jobs[u.job].status == Completed
    ensures |run| == 1 + 2 * (|u.chain| - Position(w.db.jobs[u.job]))
  {
    hide Sound, Able, Step, Possible, After;
    var claimed := Claimed(u, start, w, i);
    var rest := GoesThrough(u, start, claimed, i);
    EventFirst(u, w, Claims(i), rest);
    run := [Claims(i)] + rest;
  }

  lemma Queued(u: Plan, start: Db, w: World, i: nat) returns (run: seq<Event>)
    requires Inv(u, start, w) && i < |w.workers| && w.workers[i].Idle? && u.job in w.db.jobs && w.db.jobs[u.job].status != Completed
    ensures Possible(u, w, run) && u.job in After(u, w, run).db.jobs && After(u, w, run).db.jobs[u.job].status == Completed
    ensures |run| == (if w.db.jobs[u.job].status == Pending then 0 else 1) + 1 + 2 * (|u.chain| - Position(w.db.jobs[u.job]))
  {
    hide Inv, Sound, Able, Step, Possible, After;
    if w.db.jobs[u.job].status == Pending {
      run := Taken(u, start, w, i);
    } else {
      var requeued := Requeued(u, start, w, i);
      HasJob(u, start, requeued);
      var rest := Taken(u, start, requeued, i);
      EventFirst(u, w, Reclaims, rest);
      run := [Reclaims] + rest;
    }
  }

  lemma GivenUp(u: Plan, start: Db, w: World, i: nat) returns (run: seq<Event>)
    requires Inv(u, start, w) && i < |w.workers| && u.job in w.db.jobs && w.db.jobs[u.job].status != Completed
    ensures Possible(u, w, run) && u.job in After(u, w, run).db.jobs && After(u, w, run).db.jobs[u.job].status == Completed
    ensures |run| == (if w.workers[i].Idle? then 0 else 1) + (if w.db.jobs[u.job].status == Pending then 0 else 1) + 1
                     + 2 * (|u.chain| - Position(w.db.jobs[u.job]))
  {
    hide Inv, Sound, Able, Step, Possible, After;
    if w.workers[i].Idle? {
      run := Queued(u, start, w, i);
    } else {
      var crashed := Crashed(u, start, w, i);
      var rest := Queued(u, start, crashed, i);
      EventFirst(u, w, Crashes(i), rest);
      run := [Crashes(i)] + rest;
    }
  }
}
