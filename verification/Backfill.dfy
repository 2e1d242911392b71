/** Backfilling one account: any number of workers over a fixed chain of pages, with crashes, failures,
    retries, reclaims and stops (src/backfill/worker.ts:105-172, src/backfill/pages.ts:35-66). */
module Backfill {
  import opened Options
  import opened Metadata
  import opened Tables
  import opened Ingest
  import opened Derive
  import opened Rederive
  import opened Arrivals
  import opened Jobs

  /** What does not change during a run: the tracked issuances, the account's pages as the upstream
      serves them from the start, already mapped to rows, the ingest filter, and the job. The marker of
      page k is k; the last page has none. */
  datatype Plan = Plan(tracked: seq<Issuance>, chain: seq<seq<IngestTx>>, keep: IngestTx -> bool, job: int)

  function Filter(txs: seq<IngestTx>, keep: IngestTx -> bool): seq<IngestTx> {
    if txs == [] then []
    else Filter(txs[..|txs| - 1], keep) + if keep(txs[|txs| - 1]) then [txs[|txs| - 1]] else []
  }

  function Kept(u: Plan, page: nat): seq<IngestTx>
    requires page < |u.chain|
  {
    Filter(u.chain[page], u.keep)
  }

  /** Everything kept of the pages before this one. */
  function Before(u: Plan, page: nat): seq<IngestTx>
    requires page <= |u.chain|
  {
    if page == 0 then [] else Before(u, page - 1) + Kept(u, page - 1)
  }

  function Highest(txs: seq<IngestTx>, floor: int): int {
    if txs == [] then floor
    else
      var rest := Highest(txs[..|txs| - 1], floor);
      if txs[|txs| - 1].row.ledger > rest then txs[|txs| - 1].row.ledger else rest
  }

  function From(job: Job): int {
    job.fromLedger.Or(0)
  }

  function Position(job: Job): nat {
    job.marker.Or(0)
  }

  /** A page's one database transaction: its rows, their deltas, the cursor and, on the last page, the
      completion and the coverage claim. */
  function CommitPage(u: Plan, db: Db, page: nat, maxLedger: int): Db
    requires page < |u.chain|
  {
    var rows := Page(db, u.tracked, Kept(u, page));
    var final := page + 1 == |u.chain|;
    var jobs := Checkpointed(rows.jobs, u.job, if final then None else Some(page + 1), |Kept(u, page)|);
    if !final || u.job !in db.jobs then rows.(jobs := jobs)
    else
      var job := db.jobs[u.job];
      rows.(jobs := Done(jobs, u.job), coverage := rows.coverage + [Coverage(job.address, From(job), maxLedger)])
  }

  datatype Worker = Idle | Fetching(page: nat, maxLedger: int) | Writing(page: nat, maxLedger: int)

  datatype World = World(db: Db, workers: seq<Worker>)

  /** What can happen next. `Elsewhere` is anything another sweep, the tail or a heal ingests, each with the
      issuances it derives. */
  datatype Event =
    | Claims(i: nat)
    | Reclaims
    | Served(i: nat)
    | FetchFails(i: nat)
    | Commits(i: nat)
    | Retries(i: nat)
    | WriteFails(i: nat)
    | AckLost(i: nat)
    | Stops(i: nat)
    | Crashes(i: nat)
    | CrashesAfter(i: nat)
    | Elsewhere(arrivals: seq<Arrival>)

  predicate Able(u: Plan, w: World, e: Event)
    requires u.job in w.db.jobs
  {
    match e
    case Claims(i) => i < |w.workers| && w.workers[i].Idle? && w.db.jobs[u.job].status == Pending
    case Reclaims => w.db.jobs[u.job].status in {Running, Failed}
    case Served(i) => i < |w.workers| && w.workers[i].Fetching?
    case FetchFails(i) => i < |w.workers| && w.workers[i].Fetching?
    case Crashes(i) => i < |w.workers| && !w.workers[i].Idle?
    case Elsewhere(_) => true
    case _ => e.i < |w.workers| && w.workers[e.i].Writing?
  }

  /** The run is about this job, and pages are those of its chain. */
  ghost predicate Sound(u: Plan, w: World) {
    && u.job in w.db.jobs
    && Position(w.db.jobs[u.job]) < |u.chain|
    && forall i :: 0 <= i < |w.workers| ==> w.workers[i].Idle? || w.workers[i].page < |u.chain|
  }

  function Now(w: World, i: nat, state: Worker): World
    requires i < |w.workers|
  {
    w.(workers := w.workers[i := state])
  }

  function Failing(u: Plan, w: World): World {
    w.(db := w.db.(jobs := Fallen(w.db.jobs, u.job)))
  }

  function Committing(u: Plan, w: World, i: nat): World
    requires i < |w.workers| && w.workers[i].Writing? && w.workers[i].page < |u.chain|
  {
    w.(db := CommitPage(u, w.db, w.workers[i].page, w.workers[i].maxLedger))
  }

  ghost function Step(u: Plan, w: World, e: Event): World
    requires Sound(u, w) && Able(u, w, e)
  {
    var job := w.db.jobs[u.job];
    match e
    case Claims(i) => Now(w, i, Fetching(Position(job), From(job))).(db := w.db.(jobs := Started(w.db.jobs, u.job)))
    case Reclaims => w.(db := w.db.(jobs := Reclaimed(w.db.jobs, job.issuance)))
    case Served(i) =>
      var page := w.workers[i].page;
      Now(w, i, Writing(page, Highest(u.chain[page], w.workers[i].maxLedger)))
    case FetchFails(i) => Failing(u, Now(w, i, Idle))
    case Commits(i) =>
      var page := w.workers[i].page;
      Now(Committing(u, w, i), i, if page + 1 == |u.chain| then Idle else Fetching(page + 1, w.workers[i].maxLedger))
    case Retries(i) => w
    case WriteFails(i) => Failing(u, Now(w, i, Idle))
    case AckLost(i) => Failing(u, Now(Committing(u, w, i), i, Idle))
    case Stops(i) => Now(w, i, Idle)
    case Crashes(i) => Now(w, i, Idle)
    case CrashesAfter(i) => Now(Committing(u, w, i), i, Idle)
    case Elsewhere(arrivals) => w.(db := ArriveAll(w.db, arrivals))
  }

  // ---- The invariant ----

  /** All kept entries before a page are stored and counted. */
  ghost predicate Past(u: Plan, db: Db, page: nat) {
    && page <= |u.chain| && u.job in db.jobs
    && Stored(db, Before(u, page)) && |Before(u, page)| <= db.jobs[u.job].txCount
  }

  /** A coverage row the run added. */
  ghost predicate Honest(u: Plan, db: Db, job: Job, c: Coverage) {
    && c.address == job.address && c.fromLedger == From(job)
    && c.fromLedger <= c.toLedger <= Top(u, job)
    && Past(u, db, |u.chain|)
  }

  /** The highest ledger of the account's pages, or the start. */
  function Top(u: Plan, job: Job): int {
    TopOf(u.chain, From(job))
  }

  function TopOf(chain: seq<seq<IngestTx>>, floor: int): int {
    if chain == [] then floor else Highest(chain[|chain| - 1], TopOf(chain[..|chain| - 1], floor))
  }

  /** The job the run started with: its address, scope and start never change. */
  ghost predicate SameJob(first: Job, now: Job) {
    now.address == first.address && now.issuance == first.issuance && now.fromLedger == first.fromLedger
  }

  ghost predicate WorkerOk(u: Plan, db: Db, worker: Worker, job: Job) {
    worker.Idle? || (Past(u, db, worker.page) && worker.page < |u.chain| && From(job) <= worker.maxLedger <= Top(u, job))
  }

  ghost predicate Inv(u: Plan, start: Db, w: World) {
    && u.job in start.jobs && u.job in w.db.jobs && SameJob(start.jobs[u.job], w.db.jobs[u.job])
    && Position(w.db.jobs[u.job]) < |u.chain| && Past(u, w.db, Position(w.db.jobs[u.job]))
    && (w.db.jobs[u.job].status == Completed ==> Past(u, w.db, |u.chain|))
    && (forall i :: 0 <= i < |w.workers| ==> WorkerOk(u, w.db, w.workers[i], start.jobs[u.job]))
    && (forall c :: c in w.db.coverage ==> c in start.coverage || Honest(u, w.db, start.jobs[u.job], c))
  }

  lemma InvIsSound(u: Plan, start: Db, w: World)
    requires Inv(u, start, w)
    ensures Sound(u, w)
  {
    hide Past, Stored, Top;
    forall i | 0 <= i < |w.workers| ensures w.workers[i].Idle? || w.workers[i].page < |u.chain| {
      assert WorkerOk(u, w.db, w.workers[i], start.jobs[u.job]);
    }
  }

  // ---- One event keeps it ----

  /** Nothing stored is lost and the count never goes down. */
  ghost predicate Grows(u: Plan, db: Db, after: Db) {
    && u.job in db.jobs && u.job in after.jobs && SameJob(db.jobs[u.job], after.jobs[u.job])
    && db.jobs[u.job].txCount <= after.jobs[u.job].txCount
    && forall tx :: Absorbed(db, tx) ==> Absorbed(after, tx)
  }

  lemma PastGrows(u: Plan, db: Db, after: Db, page: nat)
    requires Grows(u, db, after) && Past(u, db, page)
    ensures Past(u, after, page)
  {
    hide Absorbed, Before;
  }

  lemma SameJobStill(u: Plan, first: Job, db: Db, after: Db)
    requires Grows(u, db, after) && SameJob(first, db.jobs[u.job])
    ensures u.job in after.jobs && SameJob(first, after.jobs[u.job])
  {
    hide Absorbed;
  }

  /** The invariant after an event, given what the event did. */
  lemma InvAfter(u: Plan, start: Db, w: World, after: World)
    requires Inv(u, start, w) && Grows(u, w.db, after.db)
    requires Position(after.db.jobs[u.job]) < |u.chain| && Past(u, after.db, Position(after.db.jobs[u.job]))
    requires after.db.jobs[u.job].status == Completed ==> w.db.jobs[u.job].status == Completed || Past(u, after.db, |u.chain|)
    requires forall i :: 0 <= i < |after.workers| ==>
               (i < |w.workers| && after.workers[i] == w.workers[i]) || WorkerOk(u, after.db, after.workers[i], start.jobs[u.job])
    requires forall c :: c in after.db.coverage ==> c in w.db.coverage || Honest(u, after.db, start.jobs[u.job], c)
    ensures Inv(u, start, after)
  {
    hide Past, Absorbed, Before, Top, Grows;
    SameJobStill(u, start.jobs[u.job], w.db, after.db);
    if Past(u, w.db, |u.chain|) {
      PastGrows(u, w.db, after.db, |u.chain|);
    }
    forall i | 0 <= i < |after.workers| ensures WorkerOk(u, after.db, after.workers[i], start.jobs[u.job]) {
      if i < |w.workers| && after.workers[i] == w.workers[i] && !w.workers[i].Idle? {
        PastGrows(u, w.db, after.db, w.workers[i].page);
      }
    }
    assert forall c :: c in after.db.coverage ==> c in start.coverage || Honest(u, after.db, start.jobs[u.job], c);
    assert after.db.jobs[u.job].status == Completed ==> Past(u, after.db, |u.chain|);
    assert u.job in start.jobs && u.job in after.db.jobs;
  }

  lemma JobsChange(u: Plan, db: Db, jobs: JobTable)
    requires u.job in db.jobs && u.job in jobs && SameJob(db.jobs[u.job], jobs[u.job])
    requires db.jobs[u.job].txCount <= jobs[u.job].txCount
    ensures Grows(u, db, db.(jobs := jobs))
  {
    forall tx | Absorbed(db, tx) ensures Absorbed(db.(jobs := jobs), tx) {
      assert Stored(db, [tx]);
      OtherTables(db, db.(jobs := jobs), [tx]);
    }
  }

  /** An event that only changes job rows and one worker's state. */
  lemma RowsStay(u: Plan, start: Db, w: World, after: World)
    requires Inv(u, start, w) && after.db == w.db.(jobs := after.db.jobs)
    requires u.job in after.db.jobs && SameJob(w.db.jobs[u.job], after.db.jobs[u.job])
    requires after.db.jobs[u.job].txCount == w.db.jobs[u.job].txCount && after.db.jobs[u.job].marker == w.db.jobs[u.job].marker
    requires after.db.jobs[u.job].status == Completed ==> w.db.jobs[u.job].status == Completed
    requires forall i :: 0 <= i < |after.workers| ==>
               (i < |w.workers| && after.workers[i] == w.workers[i]) || WorkerOk(u, w.db, after.workers[i], start.jobs[u.job])
    ensures Inv(u, start, after)
  {
    hide Past, Absorbed, Before, Top, Grows, SameJob;
    JobsChange(u, w.db, after.db.jobs);
    PastGrows(u, w.db, after.db, Position(w.db.jobs[u.job]));
    forall i | 0 <= i < |after.workers| && !(i < |w.workers| && after.workers[i] == w.workers[i]) && !after.workers[i].Idle?
      ensures WorkerOk(u, after.db, after.workers[i], start.jobs[u.job])
    {
      PastGrows(u, w.db, after.db, after.workers[i].page);
    }
    InvAfter(u, start, w, after);
  }

  lemma {:induction false} HighestAbove(txs: seq<IngestTx>, floor: int)
    ensures floor <= Highest(txs, floor) && forall tx :: tx in txs ==> tx.row.ledger <= Highest(txs, floor)
    ensures Highest(txs, floor) == floor || exists tx :: tx in txs && tx.row.ledger == Highest(txs, floor)
  {
    if txs != [] {
      HighestAbove(txs[..|txs| - 1], floor);
      assert txs == txs[..|txs| - 1] + [txs[|txs| - 1]];
    }
  }

  /** Seeing a page never takes the last ledger seen past the highest of the chain. */
  lemma {:induction false} PageBelowTop(chain: seq<seq<IngestTx>>, page: nat, seen: int, floor: int)
    requires page < |chain| && seen <= TopOf(chain, floor)
    ensures Highest(chain[page], seen) <= TopOf(chain, floor)
  {
    hide Highest;
    forall tx | tx in chain[page] ensures tx.row.ledger <= TopOf(chain, floor) {
      InChainBelowTop(chain, page, tx, floor);
    }
    HighestAbove(chain[page], seen);
  }

  lemma {:induction false} InChainBelowTop(chain: seq<seq<IngestTx>>, page: nat, tx: IngestTx, floor: int)
    requires page < |chain| && tx in chain[page]
    ensures tx.row.ledger <= TopOf(chain, floor)
  {
    hide Highest;
    var n := |chain| - 1;
    HighestAbove(chain[n], TopOf(chain[..n], floor));
    if page < n {
      InChainBelowTop(chain[..n], page, tx, floor);
    }
  }

  lemma {:induction false} TopAboveFloor(chain: seq<seq<IngestTx>>, floor: int)
    ensures floor <= TopOf(chain, floor)
  {
    hide Highest;
    if chain != [] {
      var n := |chain| - 1;
      TopAboveFloor(chain[..n], floor);
      HighestAbove(chain[n], TopOf(chain[..n], floor));
    }
  }

  // ---- The commit of a page ----

  lemma CommitGrows(u: Plan, db: Db, page: nat, maxLedger: int)
    requires u.job in db.jobs && page < |u.chain| && Past(u, db, page)
    ensures var after := CommitPage(u, db, page, maxLedger);
            && Grows(u, db, after) && Past(u, after, page + 1)
            && after.jobs[u.job].txCount == db.jobs[u.job].txCount + |Kept(u, page)|
  {
    hide Absorbed, Kept, Page;
    var rows := Page(db, u.tracked, Kept(u, page));
    var after := CommitPage(u, db, page, maxLedger);
    PageFrame(db, u.tracked, Kept(u, page));
    assert after.transactions == rows.transactions && after.accounts == rows.accounts && after.links == rows.links;
    PageStores(db, u.tracked, Kept(u, page), Before(u, page));
    OtherTables(rows, after, Before(u, page + 1));
    forall tx | Absorbed(db, tx) ensures Absorbed(after, tx) {
      PageStores(db, u.tracked, Kept(u, page), [tx]);
      assert tx in [tx] + Kept(u, page);
      assert Stored(rows, [tx]);
      OtherTables(rows, after, [tx]);
    }
  }

  /** The cursor, the status and the coverage after the commit. */
  lemma CommitMarks(u: Plan, db: Db, page: nat, maxLedger: int)
    requires u.job in db.jobs && page < |u.chain|
    ensures var after := CommitPage(u, db, page, maxLedger); var job := db.jobs[u.job];
            && u.job in after.jobs
            && after.jobs[u.job].marker == (if page + 1 == |u.chain| then None else Some(page + 1))
            && after.jobs[u.job].status == (if page + 1 == |u.chain| then Completed else Running)
            && after.coverage == db.coverage + if page + 1 == |u.chain| then [Coverage(job.address, From(job), maxLedger)] else []
  {
    hide Kept, Page;
    PageFrame(db, u.tracked, Kept(u, page));
  }

  lemma CommitKeepsInv(u: Plan, start: Db, w: World, i: nat, state: Worker)
    requires Inv(u, start, w) && i < |w.workers| && w.workers[i].Writing?
    requires state.Idle? || (state == Fetching(w.workers[i].page + 1, w.workers[i].maxLedger) && w.workers[i].page + 1 < |u.chain|)
    ensures w.workers[i].page < |u.chain|
    ensures Inv(u, start, Now(Committing(u, w, i), i, state))
  {
    hide Past, Absorbed, Before, Top, Grows, CommitPage, Kept;
    assert WorkerOk(u, w.db, w.workers[i], start.jobs[u.job]);
    var page, maxLedger := w.workers[i].page, w.workers[i].maxLedger;
    var after := Now(Committing(u, w, i), i, state);
    CommitGrows(u, w.db, page, maxLedger);
    CommitMarks(u, w.db, page, maxLedger);
    PastNone(u, after.db);
    SameJobStill(u, start.jobs[u.job], w.db, after.db);
    forall c | c in after.db.coverage ensures c in w.db.coverage || Honest(u, after.db, start.jobs[u.job], c) {
    }
    InvAfter(u, start, w, after);
  }

  lemma PastNone(u: Plan, db: Db)
    requires u.job in db.jobs
    ensures Past(u, db, 0)
  {
  }

  predicate Writes(e: Event) {
    e.Commits? || e.AckLost? || e.CrashesAfter?
  }

  lemma FailingKeepsInv(u: Plan, start: Db, w: World)
    requires Inv(u, start, w)
    ensures Inv(u, start, Failing(u, w))
  {
    hide Past, Absorbed, Before, Top;
    RowsStay(u, start, w, Failing(u, w));
  }

  lemma WriteKeepsInv(u: Plan, start: Db, w: World, e: Event)
    requires Inv(u, start, w) && Able(u, w, e) && Writes(e)
    ensures Sound(u, w) && Inv(u, start, Step(u, w, e))
  {
    hide Past, Absorbed, Before, Top, Grows, CommitPage, Kept;
    InvIsSound(u, start, w);
    var page := w.workers[e.i].page;
    CommitKeepsInv(u, start, w, e.i, Idle);
    if e.AckLost? {
      FailingKeepsInv(u, start, Now(Committing(u, w, e.i), e.i, Idle));
    } else if e.Commits? && page + 1 < |u.chain| {
      CommitKeepsInv(u, start, w, e.i, Fetching(page + 1, w.workers[e.i].maxLedger));
    }
  }

  lemma RowsKeepInv(u: Plan, start: Db, w: World, e: Event)
    requires Inv(u, start, w) && Able(u, w, e) && !Writes(e) && !e.Elsewhere? && !e.Served?
    ensures Sound(u, w) && Inv(u, start, Step(u, w, e))
  {
    hide Past, Absorbed, Before, Top, Grows, CommitPage, Kept;
    InvIsSound(u, start, w);
    if e.Claims? {
      TopAboveFloor(u.chain, From(start.jobs[u.job]));
      TopIs(u, start.jobs[u.job]);
    }
    RowsStay(u, start, w, Step(u, w, e));
  }

  lemma TopIs(u: Plan, job: Job)
    ensures Top(u, job) == TopOf(u.chain, From(job))
  {
  }

  lemma ServedKeepsInv(u: Plan, start: Db, w: World, i: nat)
    requires Inv(u, start, w) && Able(u, w, Served(i))
    ensures Sound(u, w) && Inv(u, start, Step(u, w, Served(i)))
  {
    hide Past, Absorbed, Before, Top, Grows, CommitPage, Kept, Highest, TopOf;
    InvIsSound(u, start, w);
    assert WorkerOk(u, w.db, w.workers[i], start.jobs[u.job]);
    var page, seen := w.workers[i].page, w.workers[i].maxLedger;
    TopIs(u, start.jobs[u.job]);
    PageBelowTop(u.chain, page, seen, From(start.jobs[u.job]));
    HighestAbove(u.chain[page], seen);
    RowsStay(u, start, w, Step(u, w, Served(i)));
  }

  lemma ElsewhereKeepsInv(u: Plan, start: Db, w: World, arrivals: seq<Arrival>)
    requires Inv(u, start, w)
    ensures Sound(u, w) && Inv(u, start, Step(u, w, Elsewhere(arrivals)))
  {
    hide Absorbed, Before, Top, CommitPage, Kept, ArriveAll;
    InvIsSound(u, start, w);
    var after := Step(u, w, Elsewhere(arrivals));
    ArrivalsFrame(w.db, arrivals);
    PastGrows(u, w.db, after.db, Position(w.db.jobs[u.job]));
    InvAfter(u, start, w, after);
  }

  lemma StepKeepsInv(u: Plan, start: Db, w: World, e: Event)
    requires Inv(u, start, w) && Able(u, w, e)
    ensures Sound(u, w) && Inv(u, start, Step(u, w, e))
  {
    hide *;
    if e.Commits? || e.AckLost? || e.CrashesAfter? {
      WriteIs(e);
      WriteKeepsInv(u, start, w, e);
    } else if e.Elsewhere? {
      ElsewhereKeepsInv(u, start, w, e.arrivals);
    } else if e.Served? {
      ServedKeepsInv(u, start, w, e.i);
    } else {
      WriteIs(e);
      RowsKeepInv(u, start, w, e);
    }
  }

  lemma WriteIs(e: Event)
    ensures Writes(e) <==> e.Commits? || e.AckLost? || e.CrashesAfter?
  {
  }

  // ---- Whole runs ----

  ghost predicate Possible(u: Plan, w: World, run: seq<Event>)
    decreases |run|
  {
    run == [] || (Sound(u, w) && Able(u, w, run[0]) && Possible(u, Step(u, w, run[0]), run[1..]))
  }

  ghost function After(u: Plan, w: World, run: seq<Event>): World
    requires Possible(u, w, run)
    decreases |run|
  {
    if run == [] then w else After(u, Step(u, w, run[0]), run[1..])
  }

  /** A job just enqueued, and no worker on it. */
  ghost predicate Initial(u: Plan, w: World) {
    && |u.chain| > 0 && u.job in w.db.jobs
    && w.db.jobs[u.job].marker == None && w.db.jobs[u.job].status == Pending && w.db.jobs[u.job].txCount == 0
    && forall i :: 0 <= i < |w.workers| ==> w.workers[i].Idle?
  }

  lemma InitialInv(u: Plan, w: World)
    requires Initial(u, w)
    ensures Inv(u, w.db, w)
  {
  }

  lemma {:induction false} RunKeepsInv(u: Plan, start: Db, w: World, run: seq<Event>)
    requires Inv(u, start, w) && Possible(u, w, run)
    ensures Inv(u, start, After(u, w, run))
    decreases |run|
  {
    hide Inv, Sound, Able, Step;
    if run != [] {
      StepKeepsInv(u, start, w, run[0]);
      RunKeepsInv(u, start, Step(u, w, run[0]), run[1..]);
    }
  }

  /** In every run: what the cursor has passed is stored; a completed job has everything stored; a
      coverage row the run added starts at the job's start, ends no later than the last ledger served,
      and was only made once everything was stored; and the count is at least what was stored. */
  lemma EveryRun(u: Plan, w: World, run: seq<Event>)
    requires Initial(u, w) && Possible(u, w, run)
    ensures var db := After(u, w, run).db;
            && u.job in db.jobs && Position(db.jobs[u.job]) < |u.chain|
            && Stored(db, Before(u, Position(db.jobs[u.job])))
            && |Before(u, Position(db.jobs[u.job]))| <= db.jobs[u.job].txCount
            && (db.jobs[u.job].status == Completed ==>
                  Stored(db, Before(u, |u.chain|)) && |Before(u, |u.chain|)| <= db.jobs[u.job].txCount)
            && forall c :: c in db.coverage && c !in w.db.coverage ==>
                 c.address == w.db.jobs[u.job].address && c.fromLedger == From(w.db.jobs[u.job])
                 && c.fromLedger <= c.toLedger <= Top(u, w.db.jobs[u.job]) && Stored(db, Before(u, |u.chain|))
  {
    hide Possible, After, Stored, Before, Initial, Top;
    InitialInv(u, w);
    RunKeepsInv(u, w.db, w, run);
    var db := After(u, w, run).db;
    forall c | c in db.coverage && c !in w.db.coverage
      ensures Honest(u, db, w.db.jobs[u.job], c)
    {
    }
  }

  lemma {:induction false} FilterKeeps(txs: seq<IngestTx>, keep: IngestTx -> bool, tx: IngestTx)
    ensures tx in Filter(txs, keep) <==> tx in txs && keep(tx)
  {
    if txs != [] {
      assert txs == txs[..|txs| - 1] + [txs[|txs| - 1]];
      FilterKeeps(txs[..|txs| - 1], keep, tx);
    }
  }

  /** What is kept before a page is kept on one of the pages before it. */
  lemma {:induction false} KeptOnAPage(u: Plan, page: nat, tx: IngestTx)
    requires page <= |u.chain|
    ensures tx in Before(u, page) <==> exists q :: 0 <= q < page && tx in Kept(u, q)
  {
    hide Kept;
    if page > 0 {
      KeptOnAPage(u, page - 1, tx);
    }
  }

  /** In every run, entry by entry: each entry in scope on a page the cursor has passed is stored with its links, and
      each on any page is once the job is completed; a claim the run made starts at the job's start - the first
      ledger when it has none - and was made when all of them were. */
  lemma EveryEntryIsStored(u: Plan, w: World, run: seq<Event>, q: nat, tx: IngestTx)
    requires Initial(u, w) && Possible(u, w, run) && q < |u.chain| && tx in u.chain[q] && u.keep(tx)
    ensures var db := After(u, w, run).db;
            && u.job in db.jobs
            && ((db.jobs[u.job].marker.Some? && q < db.jobs[u.job].marker.value) || db.jobs[u.job].status == Completed
                || (exists c :: c in db.coverage && c !in w.db.coverage)
                ==> Absorbed(db, tx))
            && forall c :: c in db.coverage && c !in w.db.coverage ==>
                 c.fromLedger == (if w.db.jobs[u.job].fromLedger.Some? then w.db.jobs[u.job].fromLedger.value else 0)
                 && c.address == w.db.jobs[u.job].address
  {
    hide Possible, After, Absorbed, Before, Initial, Top, Kept;
    EveryRun(u, w, run);
    var db := After(u, w, run).db;
    KeepsOne(u, q, tx);
    if db.jobs[u.job].marker.Some? && q < db.jobs[u.job].marker.value {
      KeptOnAPage(u, Position(db.jobs[u.job]), tx);
    }
    KeptOnAPage(u, |u.chain|, tx);
  }

  lemma KeepsOne(u: Plan, q: nat, tx: IngestTx)
    requires q < |u.chain|
    ensures tx in Kept(u, q) <==> tx in u.chain[q] && u.keep(tx)
  {
    FilterKeeps(u.chain[q], u.keep, tx);
  }

  // ---- A run as arrivals ----

  /** What arrives along a run, in order, each row with its writer's hook. */
  ghost function ArrivalsOf(u: Plan, w: World, run: seq<Event>): seq<Arrival>
    requires Possible(u, w, run)
    decreases |run|
  {
    if run == [] then []
    else
      (if Writes(run[0]) then Hooked(Kept(u, w.workers[run[0].i].page), u.tracked)
       else if run[0].Elsewhere? then run[0].arrivals else [])
      + ArrivalsOf(u, Step(u, w, run[0]), run[1..])
  }

  lemma WriteIsArrivals(u: Plan, w: World, e: Event)
    requires Sound(u, w) && Able(u, w, e) && Writes(e)
    ensures SameIngest(Step(u, w, e).db, ArriveAll(w.db, Hooked(Kept(u, w.workers[e.i].page), u.tracked)))
  {
    hide Step, Page, ArriveAll, Kept, Hooked, CommitPage, SameIngest;
    var page, maxLedger := w.workers[e.i].page, w.workers[e.i].maxLedger;
    WriteCommits(u, w, e);
    CommitIngests(u, w.db, page, maxLedger);
    PageIsArrivals(w.db, u.tracked, Kept(u, page));
    SameTwice(Step(u, w, e).db, CommitPage(u, w.db, page, maxLedger), Page(w.db, u.tracked, Kept(u, page)));
  }

  lemma WriteCommits(u: Plan, w: World, e: Event)
    requires Sound(u, w) && Able(u, w, e) && Writes(e)
    ensures SameIngest(Step(u, w, e).db, CommitPage(u, w.db, w.workers[e.i].page, w.workers[e.i].maxLedger))
  {
    hide CommitPage, Kept, Highest;
  }

  lemma CommitIngests(u: Plan, db: Db, page: nat, maxLedger: int)
    requires page < |u.chain|
    ensures SameIngest(CommitPage(u, db, page, maxLedger), Page(db, u.tracked, Kept(u, page)))
  {
    hide Page, Kept, Checkpointed, Done;
  }

  lemma OtherStepIngestsNothing(u: Plan, w: World, e: Event)
    requires Sound(u, w) && Able(u, w, e) && !Writes(e) && !e.Elsewhere?
    ensures SameIngest(Step(u, w, e).db, w.db)
  {
    hide Page, ArriveAll, Kept, Highest, Hooked;
  }

  lemma StepIsArrivals(u: Plan, w: World, e: Event)
    requires Sound(u, w) && Able(u, w, e)
    ensures Writes(e) ==> SameIngest(Step(u, w, e).db, ArriveAll(w.db, Hooked(Kept(u, w.workers[e.i].page), u.tracked)))
    ensures e.Elsewhere? ==> Step(u, w, e).db == ArriveAll(w.db, e.arrivals)
    ensures !Writes(e) && !e.Elsewhere? ==> SameIngest(Step(u, w, e).db, w.db)
  {
    hide SameIngest, Sound, Able, Kept, Hooked, ArriveAll, CommitPage;
    if Writes(e) {
      WriteIsArrivals(u, w, e);
    } else if !e.Elsewhere? {
      OtherStepIngestsNothing(u, w, e);
    }
  }

  /** In every run the ingested tables are those its arrivals leave: crashes, retries, lost
      acknowledgements and stops never leave part of a page. */
  lemma {:induction false} RunIsArrivals(u: Plan, w: World, run: seq<Event>)
    requires Possible(u, w, run)
    ensures SameIngest(After(u, w, run).db, ArriveAll(w.db, ArrivalsOf(u, w, run)))
    decreases |run|
  {
    hide Sound, Able, Step, ArriveAll, Kept, Hooked, SameIngest, Writes;
    if run == [] {
      NoArrivals(w.db);
    } else {
      var e, next := run[0], Step(u, w, run[0]);
      StepIsArrivals(u, w, e);
      WriteIs(e);
      if Writes(e) {
        InPage(u, w, e);
      }
      var now := if Writes(e) then Hooked(Kept(u, w.workers[e.i].page), u.tracked) else if e.Elsewhere? then e.arrivals else [];
      var rest := ArrivalsOf(u, next, run[1..]);
      RunIsArrivals(u, next, run[1..]);
      NoArrivals(w.db);
      NoArrivals(next.db);
      StepRest(next.db, w.db, now, rest);
      SameTwice(After(u, w, run).db, ArriveAll(next.db, rest), ArriveAll(w.db, now + rest));
    }
  }

  lemma InPage(u: Plan, w: World, e: Event)
    requires Sound(u, w) && Able(u, w, e) && Writes(e)
    ensures e.i < |w.workers| && !w.workers[e.i].Idle? && w.workers[e.i].page < |u.chain|
  {
  }

  /** Along any run, whatever else ingests beside it and with whatever hooks: the issuance's deltas are those
      of the stored metadata if and only if each stored transaction that moves it had its deltas before the
      run, or arrived in it at least once with the issuance in its writer's hook. */
  lemma RunCurrentExactlyWhen(u: Plan, w: World, run: seq<Event>, i: Issuance, rows: string -> TxRow)
    requires Possible(u, w, run) && Faithful(w.db, i) && Copied(rows, w.db) && AllProper(rows, i, ArrivalsOf(u, w, run))
    ensures Current(After(u, w, run).db, i) <==>
            forall h :: h in After(u, w, run).db.transactions && Moves(i, rows(h).meta) ==>
              Derived(w.db, i, h, rows(h).meta) || ArrivedWith(ArrivalsOf(u, w, run), h, i)
  {
    hide Possible, After, ArrivalsOf, ArriveAll, Current, Faithful, Copied, AllProper, Derived, ArrivedWith, Moves;
    RunIsArrivals(u, w, run);
    CurrentElsewhere(After(u, w, run).db, ArriveAll(w.db, ArrivalsOf(u, w, run)), i);
    CurrentExactlyWhen(w.db, ArrivalsOf(u, w, run), i, rows);
  }

  /** What was not there before came by another writer or is an entry in scope of some page. */
  lemma {:induction false} StoredWereKept(u: Plan, w: World, run: seq<Event>, h: string)
    requires Possible(u, w, run) && h in After(u, w, run).db.transactions && h !in w.db.transactions
    ensures (exists q, tx :: 0 <= q < |u.chain| && tx in u.chain[q] && u.keep(tx) && tx.hash == h)
            || exists k :: 0 <= k < |run| && run[k].Elsewhere? && Arrived(run[k].arrivals, h)
    decreases |run|
  {
    hide Able, Sound, Step, ArriveAll, Kept, Hooked, SameIngest, Writes;
    if run != [] {
      var e, next := run[0], Step(u, w, run[0]);
      if h in next.db.transactions {
        StepStores(u, w, e, h);
      } else {
        StoredWereKept(u, next, run[1..], h);
        if k :| 0 <= k < |run| - 1 && run[1..][k].Elsewhere? && Arrived(run[1..][k].arrivals, h) {
          assert run[k + 1] == run[1..][k];
        }
      }
    }
  }

  lemma StepStores(u: Plan, w: World, e: Event, h: string)
    requires Sound(u, w) && Able(u, w, e) && h in Step(u, w, e).db.transactions && h !in w.db.transactions
    ensures (exists q, tx :: 0 <= q < |u.chain| && tx in u.chain[q] && u.keep(tx) && tx.hash == h)
            || (e.Elsewhere? && Arrived(e.arrivals, h))
  {
    hide Step, ArriveAll, Kept, Sound, Able;
    StepIsArrivals(u, w, e);
    WriteIs(e);
    if Writes(e) {
      InPage(u, w, e);
      var q := w.workers[e.i].page;
      var arrivals := Hooked(Kept(u, q), u.tracked);
      ArrivedOrThere(w.db, arrivals, h);
      var a :| a in arrivals && a.tx.hash == h;
      var k :| 0 <= k < |arrivals| && arrivals[k] == a;
      KeepsOne(u, q, a.tx);
    } else if e.Elsewhere? {
      ArrivedOrThere(w.db, e.arrivals, h);
    }
  }
}
