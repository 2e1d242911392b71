/** The concurrent claim loops of one run over an issuance's jobs (src/backfill/worker.ts:187-211). */
module ClaimLoops {
  import opened Options
  import opened Tables
  import opened Jobs

  datatype Loop = Ready | Busy(job: int) | Gone

  /** `claims` lists the jobs claimed so far, in order. */
  datatype Pool = Pool(jobs: JobTable, loops: seq<Loop>, claims: seq<int>, processed: nat, failed: nat)

  /** Which jobs the run is about. */
  datatype Scope = Scope(issuance: int, kind: Kind)

  function WaitingIds(sc: Scope, jobs: JobTable): set<int> {
    set id | id in jobs && Waiting(jobs, sc.issuance, sc.kind, id)
  }

  /** A loop takes the next waiting job, leaves because there is none, or sees its job end. */
  datatype Move = Takes(l: nat, id: int) | Leaves(l: nat) | Ends(l: nat, ok: bool)

  ghost predicate Able(sc: Scope, p: Pool, m: Move) {
    && m.l < |p.loops|
    && match m
       case Takes(l, id) => p.loops[l].Ready? && NextUp(p.jobs, sc.issuance, sc.kind, id)
       case Leaves(l) => p.loops[l].Ready? && WaitingIds(sc, p.jobs) == {}
       case Ends(l, _) => p.loops[l].Busy? && p.loops[l].job in p.jobs
  }

  ghost function Step(sc: Scope, p: Pool, m: Move): Pool
    requires Able(sc, p, m)
  {
    match m
    case Takes(l, id) => p.(jobs := Started(p.jobs, id), loops := p.loops[l := Busy(id)], claims := p.claims + [id])
    case Leaves(l) => p.(loops := p.loops[l := Gone])
    case Ends(l, ok) =>
      var id := p.loops[l].job;
      if ok then p.(jobs := Done(p.jobs, id), loops := p.loops[l := Ready], processed := p.processed + 1)
      else p.(jobs := Fallen(p.jobs, id), loops := p.loops[l := Ready], failed := p.failed + 1)
  }

  function BusyCount(loops: seq<Loop>): nat {
    if loops == [] then 0 else BusyCount(loops[..|loops| - 1]) + if loops[|loops| - 1].Busy? then 1 else 0
  }

  function LiveCount(loops: seq<Loop>): nat {
    if loops == [] then 0 else LiveCount(loops[..|loops| - 1]) + if loops[|loops| - 1].Gone? then 0 else 1
  }

  lemma {:induction false} CountsMove(loops: seq<Loop>, l: nat, to: Loop)
    requires l < |loops|
    ensures BusyCount(loops[l := to]) == BusyCount(loops) - (if loops[l].Busy? then 1 else 0) + if to.Busy? then 1 else 0
    ensures LiveCount(loops[l := to]) == LiveCount(loops) + (if loops[l].Gone? then 1 else 0) - if to.Gone? then 1 else 0
  {
    var n := |loops| - 1;
    if l == n {
      assert loops[l := to][..n] == loops[..n];
    } else {
      assert loops[l := to][..n] == loops[..n][l := to];
      CountsMove(loops[..n], l, to);
    }
  }

  lemma {:induction false} CountsAtStart(loops: seq<Loop>)
    requires forall l :: 0 <= l < |loops| ==> loops[l].Ready?
    ensures BusyCount(loops) == 0 && LiveCount(loops) == |loops|
  {
    if loops != [] {
      CountsAtStart(loops[..|loops| - 1]);
    }
  }

  lemma {:induction false} CountsAtEnd(loops: seq<Loop>)
    requires forall l :: 0 <= l < |loops| ==> loops[l].Gone?
    ensures BusyCount(loops) == 0 && LiveCount(loops) == 0
  {
    if loops != [] {
      CountsAtEnd(loops[..|loops| - 1]);
    }
  }

  ghost predicate Climbing(xs: seq<int>) {
    forall i, j :: 0 <= i < j < |xs| ==> xs[i] < xs[j]
  }

  /** The jobs that were waiting are those claimed and those still waiting, and the claimed come first. */
  ghost predicate Shared(sc: Scope, start: JobTable, p: Pool) {
    && Climbing(p.claims)
    && (forall id :: id in WaitingIds(sc, start) <==> id in p.claims || id in WaitingIds(sc, p.jobs))
    && (forall c, id :: c in p.claims && id in WaitingIds(sc, p.jobs) ==> c < id)
  }

  /** Each claimed job is run by one loop or has ended; the other rows are untouched. */
  ghost predicate Settled(start: JobTable, p: Pool) {
    && (forall l :: 0 <= l < |p.loops| && p.loops[l].Busy? ==> p.loops[l].job in p.claims)
    && (forall l, k :: 0 <= l < k < |p.loops| && p.loops[l].Busy? && p.loops[k].Busy? ==> p.loops[l].job != p.loops[k].job)
    && (forall c :: c in p.claims ==> c in p.jobs && (p.jobs[c].status in {Completed, Failed} || Running(p, c)))
    && p.jobs.Keys == start.Keys
    && forall id :: id in start && id !in p.claims ==> p.jobs[id] == start[id]
  }

  ghost predicate Running(p: Pool, id: int) {
    exists l :: 0 <= l < |p.loops| && p.loops[l] == Busy(id)
  }

  ghost predicate Tallied(p: Pool) {
    p.processed + p.failed + BusyCount(p.loops) == |p.claims|
  }

  ghost predicate LeftEmpty(sc: Scope, p: Pool) {
    (exists l :: 0 <= l < |p.loops| && p.loops[l].Gone?) ==> WaitingIds(sc, p.jobs) == {}
  }

  ghost predicate Inv(sc: Scope, start: JobTable, p: Pool) {
    Shared(sc, start, p) && Settled(start, p) && Tallied(p) && LeftEmpty(sc, p)
  }

  // ---- One move ----

  lemma TakesShared(sc: Scope, start: JobTable, p: Pool, l: nat, id: int)
    requires Shared(sc, start, p) && Able(sc, p, Takes(l, id))
    ensures Shared(sc, start, Step(sc, p, Takes(l, id)))
    ensures WaitingIds(sc, Step(sc, p, Takes(l, id)).jobs) == WaitingIds(sc, p.jobs) - {id} && id in WaitingIds(sc, p.jobs)
  {
    var after := Step(sc, p, Takes(l, id));
    assert WaitingIds(sc, after.jobs) == WaitingIds(sc, p.jobs) - {id};
    assert id in WaitingIds(sc, p.jobs);
    assert forall i :: 0 <= i < |p.claims| ==> p.claims[i] in p.claims;
    assert forall i :: 0 <= i < |p.claims| ==> after.claims[i] == p.claims[i] && p.claims[i] < id;
  }

  lemma EndsShared(sc: Scope, start: JobTable, p: Pool, l: nat, ok: bool)
    requires Shared(sc, start, p) && Settled(start, p) && Able(sc, p, Ends(l, ok))
    ensures Shared(sc, start, Step(sc, p, Ends(l, ok)))
    ensures WaitingIds(sc, Step(sc, p, Ends(l, ok)).jobs) == WaitingIds(sc, p.jobs)
  {
    var after := Step(sc, p, Ends(l, ok));
    var id := p.loops[l].job;
    assert id in p.claims;
    assert id !in WaitingIds(sc, p.jobs);
    assert WaitingIds(sc, after.jobs) == WaitingIds(sc, p.jobs);
  }

  lemma TakesSettled(sc: Scope, start: JobTable, p: Pool, l: nat, id: int)
    requires Shared(sc, start, p) && Settled(start, p) && Able(sc, p, Takes(l, id))
    ensures Settled(start, Step(sc, p, Takes(l, id)))
  {
    var after := Step(sc, p, Takes(l, id));
    assert id in WaitingIds(sc, p.jobs) && id !in p.claims;
    forall c | c in after.claims ensures c in after.jobs && (after.jobs[c].status in {Completed, Failed} || Running(after, c)) {
      if c == id {
        assert after.loops[l] == Busy(id);
      } else if p.jobs[c].status !in {Completed, Failed} {
        var k :| 0 <= k < |p.loops| && p.loops[k] == Busy(c);
        assert after.loops[k] == Busy(c);
      }
    }
  }

  lemma EndsSettled(sc: Scope, start: JobTable, p: Pool, l: nat, ok: bool)
    requires Settled(start, p) && Able(sc, p, Ends(l, ok))
    ensures Settled(start, Step(sc, p, Ends(l, ok)))
  {
    var after := Step(sc, p, Ends(l, ok));
    forall c | c in after.claims ensures c in after.jobs && (after.jobs[c].status in {Completed, Failed} || Running(after, c)) {
      if c != p.loops[l].job && p.jobs[c].status !in {Completed, Failed} {
        var k :| 0 <= k < |p.loops| && p.loops[k] == Busy(c);
        assert after.loops[k] == Busy(c);
      }
    }
  }

  lemma LeavesSettled(sc: Scope, start: JobTable, p: Pool, l: nat)
    requires Settled(start, p) && Able(sc, p, Leaves(l))
    ensures Settled(start, Step(sc, p, Leaves(l)))
  {
    var after := Step(sc, p, Leaves(l));
    forall c | c in after.claims ensures c in after.jobs && (after.jobs[c].status in {Completed, Failed} || Running(after, c)) {
      if p.jobs[c].status !in {Completed, Failed} {
        var k :| 0 <= k < |p.loops| && p.loops[k] == Busy(c);
        assert after.loops[k] == Busy(c);
      }
    }
  }

  /** What is left to do: two moves for each waiting job, one for each running one, one for each loop. */
  ghost function Work(sc: Scope, p: Pool): nat {
    2 * |WaitingIds(sc, p.jobs)| + BusyCount(p.loops) + LiveCount(p.loops)
  }

  lemma MoveKeepsInv(sc: Scope, start: JobTable, p: Pool, m: Move)
    requires Inv(sc, start, p) && Able(sc, p, m)
    ensures Inv(sc, start, Step(sc, p, m)) && Work(sc, Step(sc, p, m)) == Work(sc, p) - 1
    ensures |Step(sc, p, m).loops| == |p.loops|
  {
    hide Shared, Settled, WaitingIds, BusyCount, LiveCount, NextUp;
    var after := Step(sc, p, m);
    CountsMove(p.loops, m.l, after.loops[m.l]);
    match m {
      case Takes(l, id) =>
        TakesShared(sc, start, p, l, id);
        TakesSettled(sc, start, p, l, id);
      case Leaves(l) =>
        LeavesSettled(sc, start, p, l);
        assert Shared(sc, start, after) by {
          SharedByRows(sc, start, p, after);
        }
      case Ends(l, ok) =>
        EndsShared(sc, start, p, l, ok);
        EndsSettled(sc, start, p, l, ok);
    }
  }

  lemma SharedByRows(sc: Scope, start: JobTable, p: Pool, after: Pool)
    requires Shared(sc, start, p) && after.jobs == p.jobs && after.claims == p.claims
    ensures Shared(sc, start, after)
  {
  }

  // ---- Whole runs ----

  ghost predicate Possible(sc: Scope, p: Pool, run: seq<Move>)
    decreases |run|
  {
    run == [] || (Able(sc, p, run[0]) && Possible(sc, Step(sc, p, run[0]), run[1..]))
  }

  ghost function After(sc: Scope, p: Pool, run: seq<Move>): Pool
    requires Possible(sc, p, run)
    decreases |run|
  {
    if run == [] then p else After(sc, Step(sc, p, run[0]), run[1..])
  }

  lemma {:induction false} RunKeepsInv(sc: Scope, start: JobTable, p: Pool, run: seq<Move>)
    requires Inv(sc, start, p) && Possible(sc, p, run)
    ensures Inv(sc, start, After(sc, p, run)) && Work(sc, After(sc, p, run)) == Work(sc, p) - |run|
    ensures |After(sc, p, run).loops| == |p.loops|
    decreases |run|
  {
    hide Inv, Able, Step, Work;
    if run != [] {
      MoveKeepsInv(sc, start, p, run[0]);
      RunKeepsInv(sc, start, Step(sc, p, run[0]), run[1..]);
    }
  }

  ghost predicate Initial(p: Pool) {
    (forall l :: 0 <= l < |p.loops| ==> p.loops[l].Ready?) && p.claims == [] && p.processed == 0 && p.failed == 0
  }

  ghost predicate AllGone(p: Pool) {
    forall l :: 0 <= l < |p.loops| ==> p.loops[l].Gone?
  }

  lemma InitialInv(sc: Scope, p: Pool)
    requires Initial(p)
    ensures Inv(sc, p.jobs, p) && Work(sc, p) == 2 * |WaitingIds(sc, p.jobs)| + |p.loops|
  {
    CountsAtStart(p.loops);
  }

  /** Along any run no job is claimed twice, only waiting jobs are claimed, and in the order of their ids. */
  lemma ClaimedAtMostOnce(sc: Scope, p: Pool, run: seq<Move>)
    requires Initial(p) && Possible(sc, p, run)
    ensures Climbing(After(sc, p, run).claims)
    ensures forall id :: id in After(sc, p, run).claims ==> id in WaitingIds(sc, p.jobs)
    ensures |run| <= 2 * |WaitingIds(sc, p.jobs)| + |p.loops|
  {
    hide WaitingIds, Initial, Possible, After;
    InitialInv(sc, p);
    RunKeepsInv(sc, p.jobs, p, run);
  }

  /** When every loop has gone, each job that was waiting was claimed exactly once and ended, and the two
      counters add up to their number; no other row changed. */
  lemma EveryJobRuns(sc: Scope, p: Pool, run: seq<Move>)
    requires Initial(p) && |p.loops| > 0 && Possible(sc, p, run) && AllGone(After(sc, p, run))
    ensures var end := After(sc, p, run);
            && (forall id :: id in end.claims <==> id in WaitingIds(sc, p.jobs))
            && end.processed + end.failed == |WaitingIds(sc, p.jobs)|
            && (forall id :: id in WaitingIds(sc, p.jobs) ==> id in end.jobs && end.jobs[id].status in {Completed, Failed})
            && (forall id :: id in p.jobs && id !in WaitingIds(sc, p.jobs) ==> id in end.jobs && end.jobs[id] == p.jobs[id])
            && |run| == 2 * |WaitingIds(sc, p.jobs)| + |p.loops|
  {
    hide WaitingIds, Initial, Possible, After;
    InitialInv(sc, p);
    RunKeepsInv(sc, p.jobs, p, run);
    var end := After(sc, p, run);
    CountsAtEnd(end.loops);
    assert end.loops[0].Gone?;
    assert WaitingIds(sc, end.jobs) == {};
    assert |WaitingIds(sc, end.jobs)| == 0;
    AsMany(end.claims, WaitingIds(sc, p.jobs));
  }

  lemma {:induction false} AsMany(xs: seq<int>, ids: set<int>)
    requires Climbing(xs) && forall id :: id in ids <==> id in xs
    ensures |xs| == |ids|
  {
    if xs == [] {
      if ids != {} {
        Inhabited(ids);
      }
    } else {
      var front, last := xs[..|xs| - 1], xs[|xs| - 1];
      assert xs == front + [last];
      AsMany(front, ids - {last});
    }
  }

  // ---- How the jobs ended ----

  function EndsIn(run: seq<Move>, ok: bool): nat {
    if run == [] then 0 else EndsIn(run[1..], ok) + if run[0].Ends? && run[0].ok == ok then 1 else 0
  }

  /** How each job that ended along a run did. */
  ghost function Outcomes(sc: Scope, p: Pool, run: seq<Move>): map<int, bool>
    requires Possible(sc, p, run)
    decreases |run|
  {
    if run == [] then map[]
    else
      var rest := Outcomes(sc, Step(sc, p, run[0]), run[1..]);
      if run[0].Ends? then map[p.loops[run[0].l].job := run[0].ok] + rest else rest
  }

  lemma {:induction false} StatusStays(sc: Scope, p: Pool, run: seq<Move>, id: int)
    requires Possible(sc, p, run) && id in p.jobs && p.jobs[id].status != Pending && id !in Outcomes(sc, p, run)
    ensures id in After(sc, p, run).jobs && After(sc, p, run).jobs[id].status == p.jobs[id].status
    decreases |run|
  {
    if run != [] {
      StatusStays(sc, Step(sc, p, run[0]), run[1..], id);
    }
  }

  lemma {:induction false} OutcomeStands(sc: Scope, start: JobTable, p: Pool, run: seq<Move>, id: int)
    requires Inv(sc, start, p) && Possible(sc, p, run) && id in Outcomes(sc, p, run)
    ensures id in After(sc, p, run).jobs
    ensures After(sc, p, run).jobs[id].status == if Outcomes(sc, p, run)[id] then Completed else Failed
    decreases |run|
  {
    hide Shared, LeftEmpty, Tallied;
    var next := Step(sc, p, run[0]);
    MoveKeepsInv(sc, start, p, run[0]);
    if id in Outcomes(sc, next, run[1..]) {
      OutcomeStands(sc, start, next, run[1..], id);
    } else {
      assert id in p.jobs;
      StatusStays(sc, next, run[1..], id);
    }
  }

  lemma {:induction false} EndsAreCounted(sc: Scope, p: Pool, run: seq<Move>)
    requires Possible(sc, p, run)
    ensures After(sc, p, run).processed == p.processed + EndsIn(run, true)
    ensures After(sc, p, run).failed == p.failed + EndsIn(run, false)
    decreases |run|
  {
    if run != [] {
      EndsAreCounted(sc, Step(sc, p, run[0]), run[1..]);
    }
  }

  /** A job that ended well is completed and counted as processed, one that did not is failed and counted so. */
  lemma EveryOutcomeStands(sc: Scope, p: Pool, run: seq<Move>)
    requires Initial(p) && Possible(sc, p, run)
    ensures var end := After(sc, p, run);
            && end.processed == EndsIn(run, true) && end.failed == EndsIn(run, false)
            && forall id :: id in Outcomes(sc, p, run) ==>
                 id in end.jobs && end.jobs[id].status == if Outcomes(sc, p, run)[id] then Completed else Failed
  {
    hide Possible, After, Outcomes, EndsIn, Inv;
    InitialInv(sc, p);
    EndsAreCounted(sc, p, run);
    forall id | id in Outcomes(sc, p, run)
      ensures id in After(sc, p, run).jobs
      ensures After(sc, p, run).jobs[id].status == if Outcomes(sc, p, run)[id] then Completed else Failed
    {
      OutcomeStands(sc, p.jobs, p, run, id);
    }
  }

  /** Until every loop has gone some loop can move: a failed job blocks nobody. */
  lemma SomeLoopMoves(sc: Scope, p: Pool, run: seq<Move>) returns (m: Move)
    requires Initial(p) && Possible(sc, p, run) && !AllGone(After(sc, p, run))
    ensures Able(sc, After(sc, p, run), m)
  {
    hide Initial, Possible, After;
    InitialInv(sc, p);
    RunKeepsInv(sc, p.jobs, p, run);
    var now := After(sc, p, run);
    var l :| 0 <= l < |now.loops| && !now.loops[l].Gone?;
    if now.loops[l].Busy? {
      m := Ends(l, true);
    } else if WaitingIds(sc, now.jobs) == {} {
      m := Leaves(l);
    } else {
      var id := LeastOf(WaitingIds(sc, now.jobs));
      forall j | Waiting(now.jobs, sc.issuance, sc.kind, j) ensures id <= j {
        assert j in WaitingIds(sc, now.jobs);
      }
      m := Takes(l, id);
    }
  }

  lemma {:induction false} LeastOf(ids: set<int>) returns (least: int)
    requires ids != {}
    ensures least in ids && forall id :: id in ids ==> least <= id
    decreases ids
  {
    Inhabited(ids);
    var some :| some in ids;
    var rest := ids - {some};
    least := some;
    if rest != {} {
      var other := LeastOf(rest);
      if other < some {
        least := other;
      }
    }
    forall id | id in ids ensures least <= id {
      assert id == some || id in rest;
    }
  }
}
