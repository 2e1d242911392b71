/** One worker on one job: the page loop and its retried database transactions
    (src/backfill/worker.ts:105-172, src/db/postgres.ts:273-315). */
module Worker {
  import opened Options
  import opened Metadata
  import opened Tables
  import opened Writers
  import opened BatchWriter
  import opened Derive
  import opened Rederive
  import opened PagePlans
  import opened Arrivals
  import opened Jobs
  import opened Backfill

  /** What becomes of one attempt at a page's database transaction: it commits; it is aborted and rolled
      back; it commits but the acknowledgement is lost; or the body sees the stop flag and writes nothing. */
  datatype Attempt = Succeeds | Aborts(retryable: bool) | Unacknowledged | Flagged

  datatype Verdict = Applied | Unsure | Refused | Halted

  /** How the retry loop ends. */
  function Settle(env: nat -> Attempt, attempt: nat, maxRetries: nat): Verdict
    decreases maxRetries - attempt
  {
    match env(attempt)
    case Succeeds => Applied
    case Unacknowledged => Unsure
    case Flagged => Halted
    case Aborts(retryable) => if !retryable || attempt >= maxRetries then Refused else Settle(env, attempt + 1, maxRetries)
  }

  /** What the environment has in store for a page: the request fails, or it is served and its
      transaction's attempts go as given. */
  datatype Fate = Unserved | Answered(attempts: nat -> Attempt)

  /** The delta writer refuses a row of the page. */
  predicate RefusesPage(tracked: seq<Issuance>, txs: seq<IngestTx>) {
    exists n :: 0 <= n < |txs| && RefusesTx(tracked, txs[n].hash, txs[n].row.meta)
  }

  /** A batch of deltas of some row, for some tracked issuance, is refused. */
  ghost predicate SomeRefused(tracked: seq<Issuance>, txs: seq<IngestTx>) {
    exists tx, i :: tx in txs && i in tracked && Refuses(RowsOf(tx.hash, TokenDeltas(i.token, tx.row.meta)))
  }

  lemma RefusesExactlyWhen(tracked: seq<Issuance>, txs: seq<IngestTx>)
    ensures RefusesPage(tracked, txs) <==> SomeRefused(tracked, txs)
  {
    hide Refuses, TokenDeltas;
    if n :| 0 <= n < |txs| && RefusesTx(tracked, txs[n].hash, txs[n].row.meta) {
      var k :| 0 <= k < |tracked| && Refuses(RowsOf(txs[n].hash, TokenDeltas(tracked[k].token, txs[n].row.meta)));
      assert txs[n] in txs && tracked[k] in tracked;
    }
    if tx, i :| tx in txs && i in tracked && Refuses(RowsOf(tx.hash, TokenDeltas(i.token, tx.row.meta))) {
      var n :| 0 <= n < |txs| && txs[n] == tx;
      var k :| 0 <= k < |tracked| && tracked[k] == i;
      assert RefusesTx(tracked, txs[n].hash, txs[n].row.meta);
    }
  }

  /** The kept rows' links are told apart by their texts. */
  ghost predicate ChainTells(u: Plan) {
    forall page :: 0 <= page < |u.chain| ==> Tells(Kept(u, page))
  }

  /** A body that cannot be written ends an attempt that would have committed, and is not tried again. */
  function Forced(attempt: Attempt, refused: bool): Attempt {
    if refused && (attempt.Succeeds? || attempt.Unacknowledged?) then Aborts(false) else attempt
  }

  /** How the attempts at a page go, given how the environment would let them go. */
  function Met(env: nat -> Attempt, refused: bool): nat -> Attempt {
    (n: nat) => Forced(env(n), refused)
  }

  function Facing(fate: Fate, refused: bool): Fate {
    if fate.Unserved? then fate else Answered(Met(fate.attempts, refused))
  }

  function Faced(u: Plan, fate: nat -> Fate): nat -> Fate {
    (p: nat) => Facing(fate(p), p < |u.chain| && RefusesPage(u.tracked, Kept(u, p)))
  }

  method KeepInScope(txs: seq<IngestTx>, keep: IngestTx -> bool) returns (mapped: seq<IngestTx>)
    ensures mapped == Filter(txs, keep)
  {
    mapped := [];
    for n := 0 to |txs|
      invariant mapped == Filter(txs[..n], keep)
    {
      assert txs[..n + 1][..n] == txs[..n];
      if keep(txs[n]) {
        mapped := mapped + [txs[n]];
      }
    }
    assert txs[..|txs|] == txs;
  }

  /** The rows of a page and their deltas, and the row locks asked for on the way; or the delta writer refuses
      a row, and the transaction cannot go on. */
  method WriteRows(a: Archive, tracked: seq<Issuance>, mapped: seq<IngestTx>) returns (ok: bool, locks: seq<RowKey>)
    requires Tells(mapped)
    modifies a`transactions, a`accounts, a`links, a`deltas
    ensures ok <==> !RefusesPage(tracked, mapped)
    ensures ok <==> !SomeRefused(tracked, mapped)
    ensures ok ==> a.Contents() == Page(old(a.Contents()), tracked, mapped) && IsPlan(old(a.Contents()), tracked, mapped, locks)
  {
    hide DeriveTx, TokenDeltas, InsertEach, BatchLocks, IsPlan, Tells, ListedBy, CallsOf, CallLocks, MovedBy, PageCalls, RefusesTx, SomeRefused;
    RefusesExactlyWhen(tracked, mapped);
    NoRows(a.Contents(), tracked, mapped);
    NoPlan(a.Contents(), tracked, mapped);
    ok, locks := true, [];
    if |mapped| > 0 {
      ghost var before := a.Contents();
      locks := InsertTransactionRowsMany(a, mapped);
      ghost var rows, batch := a.Contents(), locks;
      ghost var known := rows.accounts.Keys;
      var n := 0;
      NoCalls(known, tracked);
      while n < |mapped|
        invariant n <= |mapped| && a.Contents() == DeriveEach(rows, tracked, mapped[..n]) && ok
        invariant forall k :: 0 <= k < n ==> !RefusesTx(tracked, mapped[k].hash, mapped[k].row.meta)
        invariant locks == batch + CallLocks(known, PageCalls(tracked, mapped[..n]))
        invariant a.accounts.Keys == known + MovedBy(PageCalls(tracked, mapped[..n]))
      {
        assert mapped[..n + 1][..n] == mapped[..n];
        OneRowMore(known, tracked, mapped, n);
        var written, more;
        ok, written, more := DeriveTxDeltas(a, tracked, mapped[n].hash, mapped[n].row.meta);
        locks := locks + more;
        if !ok {
          return;
        }
        n := n + 1;
      }
      assert mapped[..n] == mapped;
      ThePlan(before, tracked, mapped, batch);
    }
  }

  lemma NoRows(db: Db, tracked: seq<Issuance>, mapped: seq<IngestTx>)
    ensures mapped == [] ==> Page(db, tracked, mapped) == db
  {
  }

  /** The body of a page's transaction. */
  method PageBody(a: Archive, u: Plan, page: nat, maxLedger: int) returns (ok: bool)
    requires page < |u.chain| && Tells(Kept(u, page)) && u.job in a.jobs
    modifies a`transactions, a`accounts, a`links, a`deltas, a`jobs, a`coverage
    ensures ok <==> !RefusesPage(u.tracked, Kept(u, page))
    ensures ok ==> a.Contents() == CommitPage(u, old(a.Contents()), page, maxLedger)
  {
    hide Page, Filter, Tells, RefusesPage, IsPlan;
    var job := a.jobs[u.job];
    ghost var before := a.Contents();
    var mapped := KeepInScope(u.chain[page], u.keep);
    var locks;
    ok, locks := WriteRows(a, u.tracked, mapped);
    if !ok {
      return;
    }
    PageFrame(before, u.tracked, mapped);
    ghost var rows := a.Contents();
    var isFinal := page + 1 == |u.chain|;
    Checkpoint(a, u.job, if isFinal then None else Some(page + 1), |mapped|);
    if isFinal {
      Complete(a, u.job);
      a.coverage := a.coverage + [Coverage(job.address, job.fromLedger.Or(0), maxLedger)];
    }
    CommitIs(u, before, page, maxLedger, rows, a.Contents());
  }

  lemma CommitIs(u: Plan, db: Db, page: nat, maxLedger: int, rows: Db, after: Db)
    requires page < |u.chain| && u.job in db.jobs && rows == Page(db, u.tracked, Kept(u, page))
    requires rows.jobs == db.jobs && after == rows.(jobs := after.jobs, coverage := after.coverage)
    requires page + 1 < |u.chain| ==>
               after.coverage == rows.coverage && after.jobs == Checkpointed(rows.jobs, u.job, Some(page + 1), |Kept(u, page)|)
    requires page + 1 == |u.chain| ==>
               after.coverage == rows.coverage + [Coverage(db.jobs[u.job].address, From(db.jobs[u.job]), maxLedger)]
               && after.jobs == Done(Checkpointed(rows.jobs, u.job, None, |Kept(u, page)|), u.job)
    ensures after == CommitPage(u, db, page, maxLedger)
  {
    hide Page, Kept, Checkpointed, Done;
  }

  /** A page's transaction with its retries: applied once or not at all, however often it was begun; never
      when the delta writer refuses it. */
  method WritePage(a: Archive, u: Plan, page: nat, maxLedger: int, env: nat -> Attempt, maxRetries: nat) returns (v: Verdict)
    requires page < |u.chain| && Tells(Kept(u, page)) && u.job in a.jobs
    modifies a
    ensures v == Settle(Met(env, RefusesPage(u.tracked, Kept(u, page))), 0, maxRetries)
    ensures SomeRefused(u.tracked, Kept(u, page)) ==> v == Refused || v == Halted
    ensures !SomeRefused(u.tracked, Kept(u, page)) ==> v == Settle(env, 0, maxRetries)
    ensures a.Contents() ==
            if v == Applied || v == Unsure then CommitPage(u, old(a.Contents()), page, maxLedger) else old(a.Contents())
  {
    hide CommitPage, Tells, RefusesPage, Kept, SomeRefused;
    RefusesExactlyWhen(u.tracked, Kept(u, page));
    UnrefusedIsAsGiven(env, 0, maxRetries);
    RefusedIsNotApplied(env, 0, maxRetries);
    ghost var met := Met(env, RefusesPage(u.tracked, Kept(u, page)));
    var attempt := 0;
    while true
      invariant a.Contents() == old(a.Contents()) && attempt <= maxRetries
      invariant Settle(met, attempt, maxRetries) == Settle(met, 0, maxRetries)
      decreases maxRetries - attempt
    {
      var saved := a.Contents();
      var outcome := env(attempt);
      if outcome.Flagged? {
        return Halted;
      }
      assert u.job in a.jobs by {
        assert u.job in a.Contents().jobs;
      }
      var ok := PageBody(a, u, page, maxLedger);
      match Forced(outcome, !ok)
      case Succeeds =>
        return Applied;
      case Unacknowledged =>
        return Unsure;
      case Aborts(retryable) =>
        a.Restore(saved);
        if !retryable || attempt >= maxRetries {
          return Refused;
        }
        attempt := attempt + 1;
    }
  }

  datatype Ending = Ending(db: Db, ok: bool)

  /** What a job run leaves, from the page it is about to ask for. */
  function Ran(u: Plan, db: Db, page: nat, seen: int, fate: nat -> Fate, maxRetries: nat): Ending
    requires page < |u.chain| && u.job in db.jobs
    decreases |u.chain| - page
  {
    if fate(page).Unserved? then Ending(db.(jobs := Fallen(db.jobs, u.job)), false)
    else
      var maxLedger := Highest(u.chain[page], seen);
      var after := CommitPage(u, db, page, maxLedger);
      CommitKeepsJob(u, db, page, maxLedger);
      match Settle(fate(page).attempts, 0, maxRetries)
      case Applied => if page + 1 == |u.chain| then Ending(after, true) else Ran(u, after, page + 1, maxLedger, fate, maxRetries)
      case Unsure => Ending(after.(jobs := Fallen(after.jobs, u.job)), false)
      case Refused => Ending(db.(jobs := Fallen(db.jobs, u.job)), false)
      case Halted => Ending(db, true)
  }

  lemma CommitKeepsJob(u: Plan, db: Db, page: nat, maxLedger: int)
    requires page < |u.chain| && u.job in db.jobs
    ensures u.job in CommitPage(u, db, page, maxLedger).jobs
  {
    hide CommitPage;
    CommitMarks(u, db, page, maxLedger);
  }

  method SeeLedgers(txs: seq<IngestTx>, floor: int) returns (maxLedger: int)
    ensures maxLedger == Highest(txs, floor)
  {
    maxLedger := floor;
    for n := 0 to |txs|
      invariant maxLedger == Highest(txs[..n], floor)
    {
      assert txs[..n + 1][..n] == txs[..n];
      if txs[n].row.ledger > maxLedger {
        maxLedger := txs[n].row.ledger;
      }
    }
    assert txs[..|txs|] == txs;
  }

  /** Run the job from where it stands. */
  method RunJob(a: Archive, u: Plan, fate: nat -> Fate, maxRetries: nat) returns (ok: bool)
    requires u.job in a.jobs && Position(a.jobs[u.job]) < |u.chain| && ChainTells(u)
    modifies a
    ensures Ending(a.Contents(), ok) ==
            Ran(u, old(a.Contents()), Position(old(a.jobs)[u.job]), From(old(a.jobs)[u.job]), Faced(u, fate), maxRetries)
  {
    hide CommitPage, Tells, RefusesPage, Highest, Settle, Met;
    var maxLedger := a.jobs[u.job].fromLedger.Or(0);
    var page := a.jobs[u.job].marker.Or(0);
    ghost var faced := Faced(u, fate);
    ghost var ending := Ran(u, a.Contents(), page, maxLedger, faced, maxRetries);
    ok := true;
    while page < |u.chain|
      invariant page <= |u.chain| && u.job in a.jobs && ok
      invariant page < |u.chain| ==> Ran(u, a.Contents(), page, maxLedger, faced, maxRetries) == ending
      invariant page == |u.chain| ==> Ending(a.Contents(), true) == ending
    {
      if fate(page).Unserved? {
        Fail(a, u.job);
        ok := false;
        return;
      }
      maxLedger := SeeLedgers(u.chain[page], maxLedger);
      CommitKeepsJob(u, a.Contents(), page, maxLedger);
      var v := WritePage(a, u, page, maxLedger, fate(page).attempts, maxRetries);
      if v == Halted {
        return;
      }
      if v == Unsure || v == Refused {
        Fail(a, u.job);
        ok := false;
        return;
      }
      page := page + 1;
    }
  }

  /** A job run is a run of the worker among the protocol's runs, so all that holds of those holds of it. */
  lemma {:induction false} RanIsRun(u: Plan, db: Db, page: nat, seen: int, fate: nat -> Fate, maxRetries: nat) returns (run: seq<Event>)
    requires page < |u.chain| && u.job in db.jobs && Position(db.jobs[u.job]) < |u.chain|
    ensures Possible(u, World(db, [Fetching(page, seen)]), run)
    ensures After(u, World(db, [Fetching(page, seen)]), run) == World(Ran(u, db, page, seen, fate, maxRetries).db, [Idle])
    decreases |u.chain| - page
  {
    hide CommitPage, Highest, Settle, Possible, After;
    var w := World(db, [Fetching(page, seen)]);
    OneWorker(Fetching(page, seen), Idle);
    if fate(page).Unserved? {
      run := OneEvent(u, w, FetchFails(0));
    } else {
      var maxLedger := Highest(u.chain[page], seen);
      var after := CommitPage(u, db, page, maxLedger);
      CommitMarks(u, db, page, maxLedger);
      var writing := World(db, [Writing(page, maxLedger)]);
      OneWorker(Writing(page, maxLedger), Idle);
      match Settle(fate(page).attempts, 0, maxRetries) {
        case Applied =>
          if page + 1 == |u.chain| {
            run := OneEvent(u, writing, Commits(0));
          } else {
            OneWorker(Writing(page, maxLedger), Fetching(page + 1, maxLedger));
            assert Step(u, writing, Commits(0)) == World(after, [Fetching(page + 1, maxLedger)]);
            run := RanIsRun(u, after, page + 1, maxLedger, fate, maxRetries);
            run := Prefixed(u, writing, Commits(0), run);
          }
        case Unsure => run := OneEvent(u, writing, AckLost(0));
        case Refused => run := OneEvent(u, writing, WriteFails(0));
        case Halted => run := OneEvent(u, writing, Stops(0));
      }
      OneWorker(Fetching(page, seen), Writing(page, maxLedger));
      assert Step(u, w, Served(0)) == writing;
      run := Prefixed(u, w, Served(0), run);
    }
  }

  lemma OneWorker(x: Backfill.Worker, y: Backfill.Worker)
    ensures [x][0 := y] == [y]
  {
  }

  lemma OneEvent(u: Plan, w: World, e: Event) returns (run: seq<Event>)
    requires Sound(u, w) && Able(u, w, e)
    ensures run == [e] && Possible(u, w, run) && After(u, w, run) == Step(u, w, e)
  {
    hide Sound, Able, Step;
    run := [e];
    assert run[1..] == [];
  }

  lemma Prefixed(u: Plan, w: World, e: Event, rest: seq<Event>) returns (run: seq<Event>)
    requires Sound(u, w) && Able(u, w, e) && Possible(u, Step(u, w, e), rest)
    ensures Possible(u, w, run) && After(u, w, run) == After(u, Step(u, w, e), rest)
  {
    hide Sound, Able, Step;
    run := [e] + rest;
    assert run[1..] == rest;
  }

  /** When every page is served and its transaction goes through in the end, the job completes. */
  lemma {:induction false} ServedJobCompletes(u: Plan, db: Db, page: nat, seen: int, fate: nat -> Fate, maxRetries: nat)
    requires page < |u.chain| && u.job in db.jobs
    requires forall p :: page <= p < |u.chain| ==> fate(p).Answered? && Settle(fate(p).attempts, 0, maxRetries) == Applied
    ensures var ending := Ran(u, db, page, seen, fate, maxRetries);
            ending.ok && u.job in ending.db.jobs && ending.db.jobs[u.job].status == Completed
    decreases |u.chain| - page
  {
    hide CommitPage, Highest, Settle;
    var maxLedger := Highest(u.chain[page], seen);
    CommitMarks(u, db, page, maxLedger);
    assert fate(page).Answered?;
    if page + 1 < |u.chain| {
      ServedJobCompletes(u, CommitPage(u, db, page, maxLedger), page + 1, maxLedger, fate, maxRetries);
    }
  }

  /** The retry loop gives up only on an error it may not retry or after its last retry. */
  lemma {:induction false} Settles(env: nat -> Attempt, attempt: nat, maxRetries: nat) returns (last: nat)
    requires attempt <= maxRetries
    ensures attempt <= last <= maxRetries
    ensures forall n :: attempt <= n < last ==> env(n) == Aborts(true)
    ensures match Settle(env, attempt, maxRetries)
            case Applied => env(last) == Succeeds
            case Unsure => env(last) == Unacknowledged
            case Halted => env(last) == Flagged
            case Refused => env(last) == Aborts(false) || (env(last) == Aborts(true) && last == maxRetries)
    decreases maxRetries - attempt
  {
    last := attempt;
    if env(attempt).Aborts? && env(attempt).retryable && attempt < maxRetries {
      last := Settles(env, attempt + 1, maxRetries);
    }
  }

  /** Where nothing is refused the attempts go as the environment lets them. */
  lemma {:induction false} UnrefusedIsAsGiven(env: nat -> Attempt, attempt: nat, maxRetries: nat)
    ensures Settle(Met(env, false), attempt, maxRetries) == Settle(env, attempt, maxRetries)
    decreases maxRetries - attempt
  {
    if env(attempt) == Aborts(true) && attempt < maxRetries {
      UnrefusedIsAsGiven(env, attempt + 1, maxRetries);
    }
  }

  /** A job none of whose pages is refused completes when each is served and gets through in the end. */
  lemma {:induction false} CleanJobCompletes(u: Plan, db: Db, page: nat, seen: int, fate: nat -> Fate, maxRetries: nat)
    requires page < |u.chain| && u.job in db.jobs
    requires forall p :: page <= p < |u.chain| ==> !SomeRefused(u.tracked, Kept(u, p))
    requires forall p :: page <= p < |u.chain| ==> fate(p).Answered? && Settle(fate(p).attempts, 0, maxRetries) == Applied
    ensures var ending := Ran(u, db, page, seen, Faced(u, fate), maxRetries);
            ending.ok && u.job in ending.db.jobs && ending.db.jobs[u.job].status == Completed
  {
    hide Ran, Kept, SomeRefused, RefusesPage, Met, Settle;
    forall p | page <= p < |u.chain|
      ensures Faced(u, fate)(p).Answered? && Settle(Faced(u, fate)(p).attempts, 0, maxRetries) == Applied
    {
      assert fate(p).Answered?;
      RefusesExactlyWhen(u.tracked, Kept(u, p));
      UnrefusedIsAsGiven(fate(p).attempts, 0, maxRetries);
    }
    ServedJobCompletes(u, db, page, seen, Faced(u, fate), maxRetries);
  }

  lemma {:induction false} RefusedIsNotApplied(env: nat -> Attempt, attempt: nat, maxRetries: nat)
    ensures Settle(Met(env, true), attempt, maxRetries).Refused? || Settle(Met(env, true), attempt, maxRetries).Halted?
    decreases maxRetries - attempt
  {
    if env(attempt) == Aborts(true) && attempt < maxRetries {
      RefusedIsNotApplied(env, attempt + 1, maxRetries);
    }
  }

  /** The job stands at the page or before it, has not completed, and claims nothing. */
  ghost predicate ShortOf(u: Plan, coverage: seq<Coverage>, db: Db, p: nat) {
    && u.job in db.jobs && db.jobs[u.job].status != Completed && Position(db.jobs[u.job]) <= p
    && db.coverage == coverage
  }

  lemma FallenStaysShort(u: Plan, coverage: seq<Coverage>, db: Db, p: nat)
    requires ShortOf(u, coverage, db, p)
    ensures ShortOf(u, coverage, db.(jobs := Fallen(db.jobs, u.job)), p)
  {
  }

  lemma CommitStaysShort(u: Plan, coverage: seq<Coverage>, db: Db, page: nat, maxLedger: int, p: nat)
    requires ShortOf(u, coverage, db, p) && page < p < |u.chain|
    ensures ShortOf(u, coverage, CommitPage(u, db, page, maxLedger), p)
  {
    hide CommitPage;
    CommitMarks(u, db, page, maxLedger);
  }

  /** A job never gets past a page that the delta writer refuses: its cursor stays at or before it, and it neither
      completes nor claims coverage, however its requests and attempts go. */
  lemma {:induction false} RefusedPageBlocks(u: Plan, db: Db, page: nat, seen: int, fate: nat -> Fate, maxRetries: nat, p: nat)
    requires page <= p < |u.chain| && SomeRefused(u.tracked, Kept(u, p)) && ShortOf(u, db.coverage, db, p)
    ensures ShortOf(u, db.coverage, Ran(u, db, page, seen, Faced(u, fate), maxRetries).db, p)
    decreases p - page
  {
    hide CommitPage, Highest, Settle, RefusesPage, SomeRefused, Met, Kept, ShortOf, Fallen;
    RefusesExactlyWhen(u.tracked, Kept(u, p));
    JobIsThere(u, db, p);
    FallenStaysShort(u, db.coverage, db, p);
    if fate(page).Answered? {
      var maxLedger := Highest(u.chain[page], seen);
      var after := CommitPage(u, db, page, maxLedger);
      if page == p {
        RefusedIsNotApplied(fate(p).attempts, 0, maxRetries);
      } else {
        CommitStaysShort(u, db.coverage, db, page, maxLedger, p);
        JobIsThere(u, after, p);
        FallenStaysShort(u, db.coverage, after, p);
        RefusedPageBlocks(u, after, page + 1, maxLedger, fate, maxRetries, p);
      }
    }
  }

  lemma JobIsThere(u: Plan, db: Db, p: nat)
    ensures forall coverage :: ShortOf(u, coverage, db, p) ==> u.job in db.jobs && db.coverage == coverage
  {
  }

  // ---- What a job claims ----

  /** Every page from here on is served and its transaction goes through. */
  ghost predicate GoesThrough(u: Plan, page: nat, fate: nat -> Fate, maxRetries: nat) {
    forall p :: page <= p < |u.chain| ==> fate(p).Answered? && Settle(fate(p).attempts, 0, maxRetries) == Applied
  }

  /** The last ledger a run sees that starts at a page. */
  function HighestFrom(u: Plan, page: nat, seen: int): int
    requires page <= |u.chain|
    decreases |u.chain| - page
  {
    if page == |u.chain| then seen else HighestFrom(u, page + 1, Highest(u.chain[page], seen))
  }

  ghost predicate Inside(txs: seq<IngestTx>, floor: int, to: int) {
    forall tx :: tx in txs ==> floor <= tx.row.ledger <= to
  }

  lemma CommitKeepsStart(u: Plan, db: Db, page: nat, maxLedger: int)
    requires u.job in db.jobs && page < |u.chain|
    ensures var after := CommitPage(u, db, page, maxLedger);
            u.job in after.jobs && after.jobs[u.job].address == db.jobs[u.job].address && From(after.jobs[u.job]) == From(db.jobs[u.job])
  {
    hide Kept, Page;
    PageFrame(db, u.tracked, Kept(u, page));
  }

  /** A job that goes through adds one coverage row: from its start to the last ledger this run saw. */
  lemma {:induction false} RanClaims(u: Plan, db: Db, page: nat, seen: int, fate: nat -> Fate, maxRetries: nat)
    requires page < |u.chain| && u.job in db.jobs && GoesThrough(u, page, fate, maxRetries)
    ensures var job := db.jobs[u.job];
            Ran(u, db, page, seen, fate, maxRetries).db.coverage ==
            db.coverage + [Coverage(job.address, From(job), HighestFrom(u, page, seen))]
    decreases |u.chain| - page
  {
    hide CommitPage, Highest, Settle;
    var maxLedger := Highest(u.chain[page], seen);
    CommitMarks(u, db, page, maxLedger);
    CommitKeepsStart(u, db, page, maxLedger);
    assert fate(page).Answered?;
    if page + 1 < |u.chain| {
      RanClaims(u, CommitPage(u, db, page, maxLedger), page + 1, maxLedger, fate, maxRetries);
    }
  }

  lemma {:induction false} SeenFrom(u: Plan, page: nat, seen: int, q: nat, tx: IngestTx)
    requires page <= |u.chain|
    ensures page <= q < |u.chain| && tx in u.chain[q] ==> tx.row.ledger <= HighestFrom(u, page, seen)
    decreases |u.chain| - page
  {
    hide Highest;
    if page < |u.chain| {
      HighestAbove(u.chain[page], seen);
      SeenAtLeast(u, page + 1, Highest(u.chain[page], seen));
      SeenFrom(u, page + 1, Highest(u.chain[page], seen), q, tx);
    }
  }

  /** A job resumed at a page starts anew with what it has seen. Once it goes through, all its kept rows, of both
      runs, lie inside the range it claims if and only if none kept of the pages before is above the last ledger
      of the pages after. */
  lemma ResumedJobCoversExactlyWhen(u: Plan, db: Db, fate: nat -> Fate, maxRetries: nat)
    requires u.job in db.jobs && Position(db.jobs[u.job]) < |u.chain|
    requires GoesThrough(u, Position(db.jobs[u.job]), fate, maxRetries)
    requires forall tx :: tx in Before(u, |u.chain|) ==> From(db.jobs[u.job]) <= tx.row.ledger
    ensures var job, page := db.jobs[u.job], Position(db.jobs[u.job]);
            var from := if job.fromLedger.Some? then job.fromLedger.value else 0; var to := HighestFrom(u, page, from);
            && Ran(u, db, page, from, fate, maxRetries).db.coverage == db.coverage + [Coverage(job.address, from, to)]
            && (Inside(Before(u, |u.chain|), from, to) <==> Highest(Before(u, page), from) <= to)
            && (page == 0 ==> Inside(Before(u, |u.chain|), from, to))
  {
    hide Ran, HighestFrom, Highest, Kept, Before, GoesThrough;
    var page, from := Position(db.jobs[u.job]), From(db.jobs[u.job]);
    var to, all := HighestFrom(u, page, from), Before(u, |u.chain|);
    RanClaims(u, db, page, from, fate, maxRetries);
    HighestAbove(Before(u, page), from);
    forall tx | tx in all && tx !in Before(u, page) ensures tx.row.ledger <= to {
      LaterIsSeen(u, page, from, tx);
    }
    forall tx | tx in Before(u, page) ensures tx in all {
      KeptOnAPage(u, page, tx);
      KeptOnAPage(u, |u.chain|, tx);
    }
    SeenAtLeast(u, page, from);
    NoneBeforeFirst(u, from);
  }

  lemma LaterIsSeen(u: Plan, page: nat, seen: int, tx: IngestTx)
    requires page <= |u.chain| && tx in Before(u, |u.chain|) && tx !in Before(u, page)
    ensures tx.row.ledger <= HighestFrom(u, page, seen)
  {
    hide HighestFrom, Before;
    KeptOnAPage(u, page, tx);
    KeptOnAPage(u, |u.chain|, tx);
    var q :| 0 <= q < |u.chain| && tx in Kept(u, q);
    FilterKeeps(u.chain[q], u.keep, tx);
    SeenFrom(u, page, seen, q, tx);
  }

  lemma {:induction false} SeenAtLeast(u: Plan, page: nat, seen: int)
    requires page <= |u.chain|
    ensures seen <= HighestFrom(u, page, seen)
    decreases |u.chain| - page
  {
    hide Highest;
    if page < |u.chain| {
      HighestAbove(u.chain[page], seen);
      SeenAtLeast(u, page + 1, Highest(u.chain[page], seen));
    }
  }

  lemma NoneBeforeFirst(u: Plan, from: int)
    ensures Before(u, 0) == [] && Highest([], from) == from
  {
  }
}
