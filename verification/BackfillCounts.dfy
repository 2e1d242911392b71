/** What a job's counter says after a run (src/db/repositories/backfillJobs.ts:55-67). */
module BackfillCounts {
  import opened Options
  import opened Metadata
  import opened Tables
  import opened Ingest
  import opened Rederive
  import opened Arrivals
  import opened Jobs
  import opened Backfill

  /** The pages committed along a run, in order. */
  ghost function Committed(u: Plan, w: World, run: seq<Event>): seq<nat>
    requires Possible(u, w, run)
    decreases |run|
  {
    if run == [] then []
    else (if Writes(run[0]) then [w.workers[run[0].i].page] else []) + Committed(u, Step(u, w, run[0]), run[1..])
  }

  ghost function Total(u: Plan, pages: seq<nat>): nat {
    if pages == [] then 0
    else (if pages[0] < |u.chain| then |Kept(u, pages[0])| else 0) + Total(u, pages[1..])
  }

  ghost function Count(u: Plan, w: World): nat {
    if u.job in w.db.jobs then w.db.jobs[u.job].txCount else 0
  }

  lemma StepCounts(u: Plan, start: Db, w: World, e: Event)
    requires Inv(u, start, w) && Sound(u, w) && Able(u, w, e)
    ensures Count(u, Step(u, w, e)) == Count(u, w) + if Writes(e) then |Kept(u, w.workers[e.i].page)| else 0
  {
    hide Past, Absorbed, Before, Top, CommitPage, Kept, Page, ArriveAll, Highest;
    if Writes(e) {
      assert WorkerOk(u, w.db, w.workers[e.i], start.jobs[u.job]);
      CommitGrows(u, w.db, w.workers[e.i].page, w.workers[e.i].maxLedger);
    } else if e.Elsewhere? {
      ArrivalsFrame(w.db, e.arrivals);
    }
  }

  /** In every run, with any number of workers, the counter is the rows of the pages committed, each as
      often as it was. */
  lemma {:induction false} CountIsCommits(u: Plan, start: Db, w: World, run: seq<Event>)
    requires Inv(u, start, w) && Possible(u, w, run)
    ensures Count(u, After(u, w, run)) == Count(u, w) + Total(u, Committed(u, w, run))
    decreases |run|
  {
    hide Inv, Sound, Able, Step, Count, Kept, Writes;
    if run != [] {
      StepKeepsInv(u, start, w, run[0]);
      StepCounts(u, start, w, run[0]);
      var rest := Committed(u, Step(u, w, run[0]), run[1..]);
      if Writes(run[0]) {
        WriteIs(run[0]);
        InPage(u, w, run[0]);
        assert Committed(u, w, run) == [w.workers[run[0].i].page] + rest;
        assert Committed(u, w, run)[1..] == rest;
      } else {
        assert Committed(u, w, run) == rest;
      }
      CountIsCommits(u, start, Step(u, w, run[0]), run[1..]);
    }
  }

  // ---- One runner at a time ----

  ghost predicate Lone(w: World) {
    forall i, j :: 0 <= i < j < |w.workers| ==> w.workers[i].Idle? || w.workers[j].Idle?
  }

  ghost predicate Alone(u: Plan, w: World, run: seq<Event>)
    requires Possible(u, w, run)
    decreases |run|
  {
    Lone(w) && (run == [] || Alone(u, Step(u, w, run[0]), run[1..]))
  }

  /** The last page was committed, but the worker was told it was not. */
  ghost predicate FinalAckLost(u: Plan, w: World, e: Event) {
    e.AckLost? && e.i < |w.workers| && !w.workers[e.i].Idle? && w.workers[e.i].page + 1 == |u.chain|
  }

  ghost predicate LosesFinalAck(u: Plan, w: World, run: seq<Event>)
    requires Possible(u, w, run)
    decreases |run|
  {
    run != [] && (FinalAckLost(u, w, run[0]) || LosesFinalAck(u, Step(u, w, run[0]), run[1..]))
  }

  /** The pages the job has behind it. */
  ghost function Reached(u: Plan, w: World): nat
    requires u.job in w.db.jobs
  {
    if w.db.jobs[u.job].status == Completed then |u.chain| else Position(w.db.jobs[u.job])
  }

  ghost predicate InStep(u: Plan, w: World) {
    && Lone(w) && u.job in w.db.jobs && Reached(u, w) <= |u.chain|
    && forall i :: 0 <= i < |w.workers| && !w.workers[i].Idle? ==>
         w.db.jobs[u.job].status != Completed && w.workers[i].page == Position(w.db.jobs[u.job])
  }

  ghost function Excess(u: Plan, w: World): int
    requires u.job in w.db.jobs && Reached(u, w) <= |u.chain|
  {
    Count(u, w) - |Before(u, Reached(u, w))|
  }

  lemma OneMore(u: Plan, page: nat)
    requires page < |u.chain|
    ensures |Before(u, page + 1)| == |Before(u, page)| + |Kept(u, page)|
  {
  }

  lemma StepInStep(u: Plan, start: Db, w: World, e: Event)
    requires Inv(u, start, w) && Sound(u, w) && Able(u, w, e) && InStep(u, w) && Lone(Step(u, w, e))
    ensures InStep(u, Step(u, w, e))
    ensures Excess(u, Step(u, w, e)) == Excess(u, w) + if FinalAckLost(u, w, e) then |Before(u, |u.chain|)| else 0
    ensures Reached(u, Step(u, w, e)) ==
            if FinalAckLost(u, w, e) then 0 else if Writes(e) then Reached(u, w) + 1 else Reached(u, w)
    ensures Writes(e) ==> w.workers[e.i].page == Reached(u, w)
  {
    hide Inv, Past, Absorbed, Before, Top, Grows, CommitPage, Kept, Page, ArriveAll, Highest;
    StepCounts(u, start, w, e);
    if Writes(e) {
      var page := w.workers[e.i].page;
      CommitMarks(u, w.db, page, w.workers[e.i].maxLedger);
      OneMore(u, page);
      NoneBefore(u);
    } else if e.Elsewhere? {
      ArrivalsFrame(w.db, e.arrivals);
    }
  }

  lemma NoneBefore(u: Plan)
    ensures Before(u, 0) == []
  {
  }

  /** With one runner at a time the counter is the number of entries stored so far, unless the
      acknowledgement of a last page was lost: then the whole chain is counted again. */
  lemma {:induction false} LoneRunCounts(u: Plan, start: Db, w: World, run: seq<Event>)
    requires Inv(u, start, w) && Possible(u, w, run) && Alone(u, w, run) && InStep(u, w)
    ensures InStep(u, After(u, w, run)) && Excess(u, w) <= Excess(u, After(u, w, run))
    ensures Excess(u, After(u, w, run)) == Excess(u, w) <==> !LosesFinalAck(u, w, run) || Before(u, |u.chain|) == []
    decreases |run|
  {
    hide Inv, Sound, Able, Step, Writes, InStep, Excess, Reached, Lone, FinalAckLost;
    if run != [] {
      StepKeepsInv(u, start, w, run[0]);
      LoneNow(u, Step(u, w, run[0]), run[1..]);
      StepInStep(u, start, w, run[0]);
      LoneRunCounts(u, start, Step(u, w, run[0]), run[1..]);
    }
  }

  lemma LoneNow(u: Plan, w: World, run: seq<Event>)
    requires Possible(u, w, run) && Alone(u, w, run)
    ensures Lone(w)
  {
  }

  lemma CountsExactlyWhen(u: Plan, w: World, run: seq<Event>)
    requires Initial(u, w) && Possible(u, w, run) && Alone(u, w, run)
    ensures var after := After(u, w, run);
            && u.job in after.db.jobs && Reached(u, after) <= |u.chain|
            && (after.db.jobs[u.job].txCount == |Before(u, Reached(u, after))| <==>
                !LosesFinalAck(u, w, run) || Before(u, |u.chain|) == [])
  {
    hide Possible, Before, After, Alone, LosesFinalAck;
    InitialInv(u, w);
    LoneNow(u, w, run);
    NoneBefore(u);
    LoneRunCounts(u, w.db, w, run);
  }

  ghost function Range(lo: nat, hi: nat): seq<nat>
    decreases hi - lo
  {
    if hi <= lo then [] else [lo] + Range(lo + 1, hi)
  }

  /** With one runner at a time and no such loss, each page up to the cursor is committed exactly once,
      in order. */
  lemma {:induction false} EachPageOnce(u: Plan, start: Db, w: World, run: seq<Event>)
    requires Inv(u, start, w) && Possible(u, w, run) && Alone(u, w, run) && InStep(u, w) && !LosesFinalAck(u, w, run)
    ensures InStep(u, After(u, w, run)) && Reached(u, w) <= Reached(u, After(u, w, run))
    ensures Committed(u, w, run) == Range(Reached(u, w), Reached(u, After(u, w, run)))
    decreases |run|
  {
    hide Inv, Sound, Able, Step, Writes, InStep, Excess, Reached, Lone, FinalAckLost;
    if run != [] {
      StepKeepsInv(u, start, w, run[0]);
      LoneNow(u, Step(u, w, run[0]), run[1..]);
      StepInStep(u, start, w, run[0]);
      EachPageOnce(u, start, Step(u, w, run[0]), run[1..]);
    }
  }

  lemma CommitsInOrder(u: Plan, w: World, run: seq<Event>)
    requires Initial(u, w) && Possible(u, w, run) && Alone(u, w, run) && !LosesFinalAck(u, w, run)
    ensures u.job in After(u, w, run).db.jobs && Committed(u, w, run) == Range(0, Reached(u, After(u, w, run)))
  {
    hide Possible, Before, After, Alone, LosesFinalAck, Committed, Range;
    InitialInv(u, w);
    LoneNow(u, w, run);
    EachPageOnce(u, w.db, w, run);
  }

  // ---- Runs that count twice ----

  ghost predicate OnePage(u: Plan, w: World) {
    Initial(u, w) && |u.chain| == 1 && |w.workers| == 2
  }

  /** Two workers on one job, the second started after a reclaim, each count the page they commit. */
  lemma TwoWorkersOvercount(u: Plan, w: World) returns (run: seq<Event>)
    requires OnePage(u, w)
    ensures Possible(u, w, run) && u.job in After(u, w, run).db.jobs
    ensures var job := After(u, w, run).db.jobs[u.job]; job.status == Completed && job.txCount == 2 * |Before(u, 1)|
  {
    hide *;
    OnePageMeans(u, w);
    var w1 := Claimed(u, w.db, w, 0, 0);
    var w2 := Reading(u, w.db, w1, 0, Running, 0);
    var w3 := Requeued(u, w.db, w2, Running, 0);
    var w4 := Claimed(u, w.db, w3, 1, 0);
    var w5 := Reading(u, w.db, w4, 1, Running, 0);
    var n := |Kept(u, 0)|;
    var w6 := Written(u, w.db, w5, 0, Commits(0), Running, 0);
    var w7 := Written(u, w.db, w6, 1, Commits(1), Completed, n);
    AtMeans(u, w.db, w7, Completed, n + n);
    OnlyPage(u);
    Ends(u, w7);
    run := Follow(u, w6, Commits(1), [], w7);
    run := Follow(u, w5, Commits(0), run, w6);
    run := Follow(u, w4, Served(1), run, w5);
    run := Follow(u, w3, Claims(1), run, w4);
    run := Follow(u, w2, Reclaims, run, w3);
    run := Follow(u, w1, Served(0), run, w2);
    run := Follow(u, w, Claims(0), run, w1);
  }

  /** One worker counts its last page twice when it is told the commit was lost, and is retried. */
  lemma LostAckRecounts(u: Plan, w: World) returns (run: seq<Event>)
    requires OnePage(u, w)
    ensures Possible(u, w, run) && u.job in After(u, w, run).db.jobs
    ensures var job := After(u, w, run).db.jobs[u.job]; job.status == Completed && job.txCount == 2 * |Before(u, 1)|
  {
    hide *;
    OnePageMeans(u, w);
    var w1 := Claimed(u, w.db, w, 0, 0);
    var w2 := Reading(u, w.db, w1, 0, Running, 0);
    var n := |Kept(u, 0)|;
    var w3 := Written(u, w.db, w2, 0, AckLost(0), Running, 0);
    var w4 := Requeued(u, w.db, w3, Failed, n);
    var w5 := Claimed(u, w.db, w4, 0, n);
    var w6 := Reading(u, w.db, w5, 0, Running, n);
    var w7 := Written(u, w.db, w6, 0, Commits(0), Running, n);
    AtMeans(u, w.db, w7, Completed, n + n);
    OnlyPage(u);
    Ends(u, w7);
    run := Follow(u, w6, Commits(0), [], w7);
    run := Follow(u, w5, Served(0), run, w6);
    run := Follow(u, w4, Claims(0), run, w5);
    run := Follow(u, w3, Reclaims, run, w4);
    run := Follow(u, w2, AckLost(0), run, w3);
    run := Follow(u, w1, Served(0), run, w2);
    run := Follow(u, w, Claims(0), run, w1);
  }

  /** What the two runs above need to know of a state on a one-page chain. */
  ghost predicate At(u: Plan, start: Db, w: World, status: Status, count: nat) {
    && |u.chain| == 1 && |w.workers| == 2 && Inv(u, start, w) && u.job in w.db.jobs
    && w.db.jobs[u.job].status == status && Count(u, w) == count
    && forall i :: 0 <= i < |w.workers| && !w.workers[i].Idle? ==> w.workers[i].page == 0
  }

  lemma AtMeans(u: Plan, start: Db, w: World, status: Status, count: nat)
    requires At(u, start, w, status, count)
    ensures |u.chain| == 1 && u.job in w.db.jobs && w.db.jobs[u.job].status == status && w.db.jobs[u.job].txCount == count
  {
  }

  lemma OnePageMeans(u: Plan, w: World)
    requires OnePage(u, w)
    ensures Initial(u, w) && At(u, w.db, w, Pending, 0) && w.workers[0].Idle? && w.workers[1].Idle?
  {
    InitialInv(u, w);
  }

  lemma OnlyPage(u: Plan)
    requires |u.chain| == 1
    ensures |Before(u, 1)| == |Kept(u, 0)|
  {
    NoneBefore(u);
    OneMore(u, 0);
  }

  lemma Follow(u: Plan, w: World, e: Event, rest: seq<Event>, next: World) returns (run: seq<Event>)
    requires Sound(u, w) && Able(u, w, e) && next == Step(u, w, e) && Possible(u, next, rest)
    ensures run == [e] + rest && Possible(u, w, run) && After(u, w, run) == After(u, next, rest)
  {
    hide Sound, Able, Step;
    run := [e] + rest;
    assert run[1..] == rest;
  }

  lemma Ends(u: Plan, w: World)
    ensures Possible(u, w, []) && After(u, w, []) == w
  {
  }

  lemma Claimed(u: Plan, start: Db, w: World, i: nat, count: nat) returns (next: World)
    requires At(u, start, w, Pending, count) && i < 2 && w.workers[i].Idle?
    ensures Sound(u, w) && Able(u, w, Claims(i)) && next == Step(u, w, Claims(i)) && At(u, start, next, Running, count)
    ensures next.workers[i].Fetching? && next.workers == w.workers[i := next.workers[i]]
  {
    hide Inv, CommitPage;
    assert Sound(u, w) by { InvIsSound(u, start, w); }
    next := Step(u, w, Claims(i));
    StepKeepsInv(u, start, w, Claims(i));
  }

  lemma Reading(u: Plan, start: Db, w: World, i: nat, status: Status, count: nat) returns (next: World)
    requires At(u, start, w, status, count) && i < 2 && w.workers[i].Fetching?
    ensures Sound(u, w) && Able(u, w, Served(i)) && next == Step(u, w, Served(i)) && At(u, start, next, status, count)
    ensures next.workers[i].Writing? && next.workers == w.workers[i := next.workers[i]]
  {
    hide Inv, CommitPage, Highest;
    assert Sound(u, w) by { InvIsSound(u, start, w); }
    next := Step(u, w, Served(i));
    StepKeepsInv(u, start, w, Served(i));
  }

  lemma Requeued(u: Plan, start: Db, w: World, status: Status, count: nat) returns (next: World)
    requires At(u, start, w, status, count) && status in {Running, Failed}
    ensures Sound(u, w) && Able(u, w, Reclaims) && next == Step(u, w, Reclaims) && At(u, start, next, Pending, count)
    ensures next.workers == w.workers
  {
    hide Inv, CommitPage;
    assert Sound(u, w) by { InvIsSound(u, start, w); }
    next := Step(u, w, Reclaims);
    StepKeepsInv(u, start, w, Reclaims);
  }

  lemma Written(u: Plan, start: Db, w: World, i: nat, e: Event, status: Status, count: nat) returns (next: World)
    requires At(u, start, w, status, count) && i < 2 && w.workers[i].Writing? && (e == Commits(i) || e == AckLost(i))
    ensures Sound(u, w) && Able(u, w, e) && next == Step(u, w, e)
    ensures At(u, start, next, if e.AckLost? then Failed else Completed, count + |Kept(u, 0)|)
    ensures next.workers == w.workers[i := Idle]
  {
    hide Inv, CommitPage, Kept;
    assert Sound(u, w) by { InvIsSound(u, start, w); }
    next := Step(u, w, e);
    StepCounts(u, start, w, e);
    CommitMarks(u, w.db, w.workers[i].page, w.workers[i].maxLedger);
    StepKeepsInv(u, start, w, e);
  }
}
