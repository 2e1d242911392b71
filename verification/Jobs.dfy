/** The resumable job rows (src/db/repositories/backfillJobs.ts). */
module Jobs {
  import opened Options
  import opened Tables

  type JobTable = map<int, Job>

  /** Advance a job's cursor; a job that was deleted meanwhile is not there to update. */
  function Checkpointed(jobs: JobTable, id: int, marker: Option<nat>, added: nat): JobTable {
    if id !in jobs then jobs
    else jobs[id := jobs[id].(marker := marker, txCount := jobs[id].txCount + added, status := Running)]
  }

  function Done(jobs: JobTable, id: int): JobTable {
    if id !in jobs then jobs else jobs[id := jobs[id].(status := Completed, marker := None)]
  }

  function Fallen(jobs: JobTable, id: int): JobTable {
    if id !in jobs then jobs else jobs[id := jobs[id].(status := Failed)]
  }

  predicate Waiting(jobs: JobTable, issuance: int, kind: Kind, id: int) {
    id in jobs && jobs[id].status == Pending && jobs[id].kind == kind && jobs[id].issuance == issuance
  }

  ghost predicate NextUp(jobs: JobTable, issuance: int, kind: Kind, id: int) {
    Waiting(jobs, issuance, kind, id) && forall j :: Waiting(jobs, issuance, kind, j) ==> id <= j
  }

  function Started(jobs: JobTable, id: int): JobTable
    requires id in jobs
  {
    jobs[id := jobs[id].(status := Running)]
  }

  /** Interrupted and failed jobs of the issuance go back in the queue. */
  function Reclaimed(jobs: JobTable, issuance: int): JobTable {
    map id | id in jobs ::
      if jobs[id].issuance == issuance && jobs[id].status in {Running, Failed} then jobs[id].(status := Pending) else jobs[id]
  }

  method Checkpoint(a: Archive, id: int, marker: Option<nat>, added: nat)
    modifies a`jobs
    ensures a.jobs == Checkpointed(old(a.jobs), id, marker, added)
  {
    if id in a.jobs {
      var job := a.jobs[id];
      a.jobs := a.jobs[id := job.(marker := marker, txCount := job.txCount + added, status := Running)];
    }
  }

  method Complete(a: Archive, id: int)
    modifies a`jobs
    ensures a.jobs == Done(old(a.jobs), id)
    ensures id in a.jobs ==> a.jobs[id].status == Completed && a.jobs[id].marker == None
  {
    if id in a.jobs {
      a.jobs := a.jobs[id := a.jobs[id].(status := Completed, marker := None)];
    }
  }

  method Fail(a: Archive, id: int)
    modifies a`jobs
    ensures a.jobs == Fallen(old(a.jobs), id)
  {
    if id in a.jobs {
      a.jobs := a.jobs[id := a.jobs[id].(status := Failed)];
    }
  }

  lemma Inhabited(ids: set<int>)
    requires ids != {}
    ensures exists id :: id in ids
  {
    if !exists id :: id in ids {
      assert false;
    }
  }

  /** The least id of a non-empty set of them. */
  method First(ids: set<int>) returns (least: int)
    requires ids != {}
    ensures least in ids && forall j :: j in ids ==> least <= j
  {
    var rest := ids;
    Inhabited(rest);
    least :| least in rest;
    while rest != {}
      invariant rest <= ids && least in ids
      invariant forall j :: j in ids && j !in rest ==> least <= j
      decreases rest
    {
      Inhabited(rest);
      var id :| id in rest;
      rest := rest - {id};
      if id < least {
        least := id;
      }
    }
  }

  /** Take the next waiting job, if any. */
  method Claim(a: Archive, issuance: int, kind: Kind) returns (claimed: Option<int>)
    modifies a`jobs
    ensures claimed.None? ==> a.jobs == old(a.jobs)
    ensures claimed.None? ==>
              forall id :: id in a.jobs && a.jobs[id].issuance == issuance && a.jobs[id].kind == kind ==> a.jobs[id].status != Pending
    ensures claimed.Some? ==>
              && claimed.value in old(a.jobs) && old(a.jobs)[claimed.value].status == Pending
              && old(a.jobs)[claimed.value].kind == kind && old(a.jobs)[claimed.value].issuance == issuance
    ensures claimed.Some? ==> NextUp(old(a.jobs), issuance, kind, claimed.value) && a.jobs == Started(old(a.jobs), claimed.value)
  {
    var waiting := set id | id in a.jobs && Waiting(a.jobs, issuance, kind, id);
    if waiting == {} {
      forall id | id in a.jobs && a.jobs[id].issuance == issuance && a.jobs[id].kind == kind ensures a.jobs[id].status != Pending {
        assert id !in waiting;
      }
      return None;
    }
    var id := First(waiting);
    forall j | Waiting(a.jobs, issuance, kind, j) ensures id <= j {
      assert j in waiting;
    }
    a.jobs := a.jobs[id := a.jobs[id].(status := Running)];
    claimed := Some(id);
  }

  method ReclaimStale(a: Archive, issuance: int) returns (count: nat)
    modifies a`jobs
    ensures a.jobs == Reclaimed(old(a.jobs), issuance)
    ensures a.jobs.Keys == old(a.jobs).Keys
    ensures forall id :: id in a.jobs ==>
              var was := old(a.jobs)[id];
              a.jobs[id] == if was.issuance == issuance && (was.status == Running || was.status == Failed)
                            then was.(status := Pending) else was
    ensures count == |set id | id in old(a.jobs) && old(a.jobs)[id].issuance == issuance && old(a.jobs)[id].status in {Running, Failed}|
  {
    count := |set id | id in a.jobs && a.jobs[id].issuance == issuance && a.jobs[id].status in {Running, Failed}|;
    a.jobs := Reclaimed(a.jobs, issuance);
  }
}
