/** The live tail: events in, archive kept current, gaps healed (src/livetail/liveTail.ts:81-110). */
module LiveTail {
  import opened Options
  import opened Metadata
  import opened Tables
  import opened Writers
  import opened Ingest
  import opened Derive
  import opened Rederive
  import opened Arrivals
  import opened Holders
  import opened Backfill
  import opened Worker
  import opened GapTracking
  import opened Heal
  import opened HealPool
  import opened LedgerTime

  datatype TailEvent = Closed(ledger: int, closeTime: Option<int>) | Delivered(tx: IngestTx)

  datatype State = State(db: Db, last: Option<int>, ingested: nat, gapCount: nat)

  function Timed(db: Db, ledger: int, closeTime: Option<int>): Db {
    if closeTime.None? then db else db.(ledgers := Recorded(db.ledgers, ledger, closeTime.value))
  }

  /** What happens around the tail, one thing after another: it handles an event, with the issuers and
      issuances registered by then; it handles a ledger event whose gap a pool heals, several issuers at
      once and with others ingesting meanwhile; or others ingest, each with their own hook. */
  datatype Step =
    | Handles(up: Upstream, e: TailEvent)
    | Pools(up: Upstream, ledger: int, closeTime: Option<int>, runners: nat, moves: seq<Move>)
    | Meanwhile(arrivals: seq<Arrival>)

  /** Handling the event fails: the delta writer refuses what it brings or what its heal pages through. */
  predicate Fails(up: Upstream, s: State, e: TailEvent) {
    match e
    case Delivered(tx) => RefusesTx(up.derived, tx.hash, tx.row.meta)
    case Closed(ledger, _) =>
      var gap := Observed(s.last, ledger).gap;
      gap.Some? && Healable(up, up.issuers, gap.value) < |up.issuers|
  }

  /** Handling fails exactly when the delta writer refuses the delivered transaction, or some page that a heal of the
      gap would write. */
  lemma FailsExactlyWhen(up: Upstream, s: State, e: TailEvent)
    ensures e.Delivered? ==>
              (Fails(up, s, e) <==> exists i :: i in up.derived && Refuses(RowsOf(e.tx.hash, TokenDeltas(i.token, e.tx.row.meta))))
    ensures e.Closed? ==>
              (Fails(up, s, e) <==>
               Observed(s.last, e.ledger).gap.Some? && RefusedIn(up, Observed(s.last, e.ledger).gap.value))
  {
    hide Refuses, TokenDeltas, Observed, Healable, Unwritable;
    match e {
      case Delivered(tx) =>
        if i :| i in up.derived && Refuses(RowsOf(tx.hash, TokenDeltas(i.token, tx.row.meta))) {
          var k :| 0 <= k < |up.derived| && up.derived[k] == i;
        }
      case Closed(ledger, _) =>
        if Observed(s.last, ledger).gap.Some? {
          HealStopsExactlyWhen(up, Observed(s.last, ledger).gap.value);
        }
    }
  }

  /** One event, with its gap healed before the next. A delivery that fails is rolled back; a heal that fails
      leaves the pages written before. */
  function Handle(up: Upstream, s: State, e: TailEvent): State {
    match e
    case Delivered(tx) => if Fails(up, s, e) then s else s.(db := Arrive(s.db, up.derived, tx), ingested := s.ingested + 1)
    case Closed(ledger, closeTime) =>
      var sight := Observed(s.last, ledger);
      var timed := Timed(s.db, ledger, closeTime);
      if sight.gap.None? then s.(db := timed, last := sight.last)
      else s.(db := Healed(up, timed, sight.gap.value), last := sight.last, gapCount := s.gapCount + 1)
  }

  function FreshPool(db: Db, runners: nat): Pool {
    Pool(db, 0, seq(runners, _ => Free))
  }

  /** What is handled does not fail, for that ends the tail. A pool's moves are possible and end with every
      runner gone; without a gap there is no pool. */
  ghost predicate Fits(s: State, step: Step) {
    && (step.Handles? ==> !Fails(step.up, s, step.e))
    && (step.Pools? ==> PoolFits(s, step))
  }

  ghost predicate PoolFits(s: State, step: Step)
    requires step.Pools?
  {
    var sight := Observed(s.last, step.ledger);
    var pool := FreshPool(Timed(s.db, step.ledger, step.closeTime), step.runners);
    if sight.gap.None? then step.moves == []
    else
      && step.runners > 0 && HealPool.Possible(step.up, sight.gap.value, pool, step.moves)
      && var end := HealPool.After(step.up, sight.gap.value, pool, step.moves);
         forall r :: 0 <= r < |end.runners| ==> end.runners[r].Gone?
  }

  ghost function Do(s: State, step: Step): State
    requires Fits(s, step)
  {
    match step
    case Handles(up, e) => Handle(up, s, e)
    case Meanwhile(arrivals) => s.(db := ArriveAll(s.db, arrivals))
    case Pools(up, ledger, closeTime, runners, moves) =>
      var sight := Observed(s.last, ledger);
      var timed := Timed(s.db, ledger, closeTime);
      if sight.gap.None? then s.(db := timed, last := sight.last)
      else
        s.(db := HealPool.After(up, sight.gap.value, FreshPool(timed, runners), moves).db,
           last := sight.last, gapCount := s.gapCount + 1)
  }

  ghost predicate Runs(s: State, steps: seq<Step>)
    decreases |steps|, 0
  {
    steps == [] || (Runs(s, steps[..|steps| - 1]) && Fits(DoAll(s, steps[..|steps| - 1]), steps[|steps| - 1]))
  }

  ghost function DoAll(s: State, steps: seq<Step>): State
    requires Runs(s, steps)
    decreases |steps|, 1
  {
    if steps == [] then s else Do(DoAll(s, steps[..|steps| - 1]), steps[|steps| - 1])
  }

  ghost predicate HealsTell(up: Upstream) {
    forall range :: UpstreamTells(up, range)
  }

  class Tail {
    const archive: Archive
    const tracker: GapTracker
    var ingested: nat
    var gapCount: nat

    constructor (a: Archive, start: Option<int>)
      ensures archive == a && fresh(tracker) && tracker.last == start && ingested == 0 && gapCount == 0
    {
      archive := a;
      tracker := new GapTracker(start);
      ingested, gapCount := 0, 0;
    }

    function Now(): State
      reads this, archive, tracker
    {
      State(archive.Contents(), tracker.last, ingested, gapCount)
    }

    method OnClosed(up: Upstream, ledger: int, closeTime: Option<int>) returns (ok: bool)
      requires HealsTell(up)
      modifies this, archive, tracker
      ensures ok <==> !Fails(up, old(Now()), Closed(ledger, closeTime))
      ensures Now() == Handle(up, old(Now()), Closed(ledger, closeTime))
    {
      hide Healed, HealEach, UpstreamTells, Healable;
      if closeTime.Some? {
        archive.ledgers := Recorded(archive.ledgers, ledger, closeTime.value);
      }
      var gap := tracker.Observe(ledger);
      ok := true;
      if gap.Some? {
        gapCount := gapCount + 1;
        assert UpstreamTells(up, gap.value);
        var healed;
        ok, healed := BackfillGap(archive, up, gap.value);
      }
    }

    method OnDelivered(up: Upstream, tx: IngestTx) returns (ok: bool)
      modifies this, archive
      ensures ok <==> !Fails(up, old(Now()), Delivered(tx))
      ensures Now() == Handle(up, old(Now()), Delivered(tx))
    {
      hide InsertOne, DeriveTx, RefusesTx, CallsOf, CallLocks, MovedBy;
      var saved := archive.Contents();
      var seen := InsertTransactionRows(archive, tx);
      var written, locks;
      ok, written, locks := DeriveTxDeltas(archive, up.derived, tx.hash, tx.row.meta);
      if !ok {
        archive.Restore(saved);
        return;
      }
      ingested := ingested + 1;
    }

    /** Consume events until they end, one fails, or the tail is stopped, which it notices after `stopAfter` of
        them. Each event comes with what is registered when it is handled. */
    method Run(steps: seq<Step>, stopAfter: nat) returns (ok: bool, handled: nat)
      requires forall step :: step in steps ==> step.Handles? && HealsTell(step.up)
      modifies this, archive, tracker
      ensures handled <= |steps| && Runs(old(Now()), steps[..handled])
      ensures ok ==> handled == (if stopAfter < |steps| then stopAfter else |steps|) && Now() == DoAll(old(Now()), steps[..handled])
      ensures !ok ==>
                && handled < |steps| && handled < stopAfter
                && var s, step := DoAll(old(Now()), steps[..handled]), steps[handled];
                   Fails(step.up, s, step.e) && Now() == Handle(step.up, s, step.e)
    {
      hide Handle, HealsTell, Fails;
      handled := 0;
      ghost var start := Now();
      while handled < |steps| && handled < stopAfter
        invariant handled <= |steps| && handled <= stopAfter && Runs(start, steps[..handled]) && Now() == DoAll(start, steps[..handled])
      {
        assert steps[..handled + 1][..handled] == steps[..handled];
        assert steps[handled] in steps;
        match steps[handled].e {
          case Closed(ledger, closeTime) => ok := OnClosed(steps[handled].up, ledger, closeTime);
          case Delivered(tx) => ok := OnDelivered(steps[handled].up, tx);
        }
        if !ok {
          return;
        }
        handled := handled + 1;
      }
      ok := true;
    }
  }

  // ---- Completeness ----

  /** The ledger a step announces, if any. */
  function Announces(step: Step): seq<int> {
    match step
    case Handles(_, Closed(ledger, _)) => [ledger]
    case Pools(_, ledger, _, _, _) => [ledger]
    case _ => []
  }

  /** The ledgers announced, in order. */
  function Announced(steps: seq<Step>): seq<int> {
    if steps == [] then [] else Announced(steps[..|steps| - 1]) + Announces(steps[|steps| - 1])
  }

  lemma WatchOneMore(anchor: int, ledgers: seq<int>, ledger: int)
    ensures var t, more := Watch(anchor, ledgers), Watch(anchor, ledgers + [ledger]);
            var sight := Observed(Some(t.last), ledger);
            && more.last == sight.last.value
            && more.gaps == if sight.gap.None? then t.gaps else t.gaps + [sight.gap.value]
  {
    assert (ledgers + [ledger])[..|ledgers|] == ledgers;
  }

  lemma StepWatches(s: State, step: Step)
    requires Fits(s, step)
    ensures Announces(step) == [] ==> Do(s, step).last == s.last && Do(s, step).gapCount == s.gapCount
    ensures Announces(step) != [] ==>
              var sight := Observed(s.last, Announces(step)[0]);
              Announces(step) == [Announces(step)[0]] && Do(s, step).last == sight.last
              && Do(s, step).gapCount == s.gapCount + if sight.gap.None? then 0 else 1
  {
    hide HealEach, Arrive, ArriveAll, Observed;
  }

  /** The tail's tracker is the gap tracker over the announced ledgers. */
  lemma {:induction false} TailWatches(s: State, steps: seq<Step>, anchor: int)
    requires s.last == Some(anchor) && Runs(s, steps)
    ensures DoAll(s, steps).last == Some(Watch(anchor, Announced(steps)).last)
    ensures DoAll(s, steps).gapCount == s.gapCount + |Watch(anchor, Announced(steps)).gaps|
  {
    hide Do, Fits, Announces;
    if steps != [] {
      var front, last := steps[..|steps| - 1], steps[|steps| - 1];
      TailWatches(s, front, anchor);
      StepWatches(DoAll(s, front), last);
      if Announces(last) != [] {
        WatchOneMore(anchor, Announced(front), Announces(last)[0]);
      } else {
        assert Announced(steps) == Announced(front);
      }
    }
  }

  function Deliveries(steps: seq<Step>): nat {
    if steps == [] then 0
    else
      var last := steps[|steps| - 1];
      Deliveries(steps[..|steps| - 1]) + if last.Handles? && last.e.Delivered? then 1 else 0
  }

  /** The tail counts the transactions delivered to it, and no others. */
  lemma {:induction false} TailCounts(s: State, steps: seq<Step>)
    requires Runs(s, steps)
    ensures DoAll(s, steps).ingested == s.ingested + Deliveries(steps)
  {
    hide Fails, HealPool.After, HealPool.Possible, ArriveAll, Arrive, Healed, Observed;
    if steps != [] {
      TailCounts(s, steps[..|steps| - 1]);
    }
  }

  /** The gap a step finds. */
  function GapOf(s: State, step: Step): Option<Range> {
    if Announces(step) == [] then None else Observed(s.last, Announces(step)[0]).gap
  }

  lemma DoRemembers(s: State, step: Step)
    requires Fits(s, step)
    ensures Remembers(s.db, Do(s, step).db)
    ensures step.Handles? && step.e.Delivered? ==> step.e.tx.hash in Do(s, step).db.transactions
    ensures GapOf(s, step).Some? ==>
              !step.Meanwhile? && RangeStored(step.up, Do(s, step).db, step.up.issuers, GapOf(s, step).value)
  {
    hide HealEach, DeriveTx, RangeStored, Observed, ArriveAll;
    match step {
      case Meanwhile(arrivals) =>
        ArrivalsRemember(s.db, arrivals);
      case Handles(up, e) =>
        HandleRemembers(up, s, e);
      case Pools(up, ledger, closeTime, runners, moves) =>
        TimedRetains(s.db, ledger, closeTime);
        var sight := Observed(s.last, ledger);
        if sight.gap.Some? {
          var pool := FreshPool(Timed(s.db, ledger, closeTime), runners);
          PoolHeals(up, sight.gap.value, pool, moves);
          PoolIsArrivals(up, sight.gap.value, pool, moves);
          ArrivalsRemember(pool.db, HealPool.ArrivalsOf(up, sight.gap.value, pool, moves));
        }
    }
  }

  lemma HandleRemembers(up: Upstream, s: State, e: TailEvent)
    requires !Fails(up, s, e)
    ensures Remembers(s.db, Handle(up, s, e).db)
    ensures e.Delivered? ==> e.tx.hash in Handle(up, s, e).db.transactions
    ensures e.Closed? && Observed(s.last, e.ledger).gap.Some? ==>
              RangeStored(up, Handle(up, s, e).db, up.issuers, Observed(s.last, e.ledger).gap.value)
  {
    hide HealEach, DeriveTx, RangeStored, Observed, Healed, Healable, RefusesTx;
    match e {
      case Delivered(tx) =>
        OneArrival(s.db, up.derived, tx);
      case Closed(ledger, closeTime) =>
        TimedRetains(s.db, ledger, closeTime);
        var sight := Observed(s.last, ledger);
        if sight.gap.Some? {
          HealedInFull(up, Timed(s.db, ledger, closeTime), sight.gap.value);
          HealStores(up, Timed(s.db, ledger, closeTime), up.issuers, sight.gap.value);
        }
    }
  }

  lemma TimedRetains(db: Db, ledger: int, closeTime: Option<int>)
    ensures Remembers(db, Timed(db, ledger, closeTime))
  {
  }

  lemma OneArrival(db: Db, tracked: seq<Issuance>, tx: IngestTx)
    ensures Remembers(db, Arrive(db, tracked, tx)) && Absorbed(Arrive(db, tracked, tx), tx)
  {
    hide Absorbed, InsertOne, DeriveTx;
    PageRetains(db, tracked, [tx]);
    ArriveIsPage(db, Arrival(tx, tracked));
    assert tx in [tx];
  }

  lemma RangesStay(up: Upstream, db: Db, after: Db, range: Range)
    requires RangeStored(up, db, up.issuers, range) && Remembers(db, after)
    ensures RangeStored(up, after, up.issuers, range)
  {
    hide RowsOn, Absorbed;
  }

  /** Some step's upstream, as registered then, has everything it gives for the range stored. */
  ghost predicate HealedBy(steps: seq<Step>, db: Db, range: Range) {
    exists step :: step in steps && !step.Meanwhile? && RangeStored(step.up, db, step.up.issuers, range)
  }

  ghost predicate GapsHealed(steps: seq<Step>, db: Db, gaps: seq<Range>) {
    forall k :: 0 <= k < |gaps| ==> HealedBy(steps, db, gaps[k])
  }

  lemma GapsStay(front: seq<Step>, last: Step, db: Db, after: Db, gaps: seq<Range>, gap: Option<Range>)
    requires GapsHealed(front, db, gaps) && Remembers(db, after)
    requires gap.Some? ==> !last.Meanwhile? && RangeStored(last.up, after, last.up.issuers, gap.value)
    ensures GapsHealed(front + [last], after, if gap.None? then gaps else gaps + [gap.value])
  {
    hide RangeStored, Remembers;
    var steps := front + [last];
    forall k | 0 <= k < |gaps| ensures HealedBy(steps, after, gaps[k]) {
      var step :| step in front && !step.Meanwhile? && RangeStored(step.up, db, step.up.issuers, gaps[k]);
      RangesStay(step.up, db, after, gaps[k]);
      assert step in steps;
    }
    assert last in steps;
  }

  lemma {:induction false} TailStores(s: State, steps: seq<Step>, anchor: int)
    requires s.last == Some(anchor) && Runs(s, steps)
    ensures GapsHealed(steps, DoAll(s, steps).db, Watch(anchor, Announced(steps)).gaps)
  {
    hide Do, Fits, RangeStored, Observed, Remembers, GapsHealed, Announces;
    if steps == [] {
      NoGaps(s.db, anchor);
    } else {
      var front, last := steps[..|steps| - 1], steps[|steps| - 1];
      var mid := DoAll(s, front);
      TailStores(s, front, anchor);
      TailWatches(s, front, anchor);
      DoRemembers(mid, last);
      StepWatches(mid, last);
      GapsStay(front, last, mid.db, Do(mid, last).db, Watch(anchor, Announced(front)).gaps, GapOf(mid, last));
      assert front + [last] == steps;
      if Announces(last) != [] {
        WatchOneMore(anchor, Announced(front), Announces(last)[0]);
      } else {
        assert Announced(steps) == Announced(front);
      }
    }
  }

  lemma NoGaps(db: Db, anchor: int)
    ensures GapsHealed([], db, Watch(anchor, []).gaps)
  {
  }

  lemma {:induction false} DeliveredAreStored(s: State, steps: seq<Step>)
    requires Runs(s, steps)
    ensures forall step :: step in steps && step.Handles? && step.e.Delivered? ==> step.e.tx.hash in DoAll(s, steps).db.transactions
  {
    hide Do, Fits, Observed, RangeStored, Retains, GapOf;
    if steps != [] {
      var front, last := steps[..|steps| - 1], steps[|steps| - 1];
      assert steps == front + [last];
      DeliveredAreStored(s, front);
      DoRemembers(DoAll(s, front), last);
    }
  }

  /** The ledgers' transactions in scope: which issuer's list each is on. */
  datatype Listed = Listed(issuer: string, entry: AccountTx)

  /** The page lists it and shows a holder of something tracked when it is written. */
  ghost predicate ShowsIt(page: Served, h: Listed) {
    h.entry in page.entries && Mapped(page.tracked, h.issuer, h.entry).Some?
  }

  /** `account_tx` on its issuer over a range that includes its ledger gives it. */
  ghost predicate Gives(up: Upstream, h: Listed) {
    forall range: Range :: range.from <= h.entry.row.ledger <= range.to ==>
      exists page :: page in up.pages(h.issuer, range) && ShowsIt(page, h)
  }

  /** While a step is handled the transaction's issuer is in scope and the upstream gives the transaction. */
  ghost predicate InScopeFor(step: Step, h: Listed) {
    step.Meanwhile? || (Gives(step.up, h) && h.issuer in step.up.issuers)
  }

  /** Stored with its links to what is tracked. */
  ghost predicate StoredFor(db: Db, h: Listed, tracked: seq<Issuance>) {
    Mapped(tracked, h.issuer, h.entry).Some? && Absorbed(db, Mapped(tracked, h.issuer, h.entry).value)
  }

  /** Stored as some page of some step's upstream shows it. */
  ghost predicate StoredBy(steps: seq<Step>, db: Db, h: Listed) {
    exists step, range, page :: step in steps && !step.Meanwhile? && page in step.up.pages(h.issuer, range)
                                && ShowsIt(page, h) && StoredFor(db, h, page.tracked)
  }

  /** Every in-scope transaction of every ledger since the anchor is stored, as soon as those of the
      ledgers that were announced have been delivered; those of the ledgers that were skipped are stored
      with their links, by the heals alone, one issuer at a time or pooled, and whatever others ingest. */
  lemma TailIsComplete(s: State, steps: seq<Step>, anchor: int, h: Listed)
    requires s.last == Some(anchor) && Runs(s, steps)
    requires forall step :: step in steps ==> InScopeFor(step, h)
    requires anchor < h.entry.row.ledger <= DoAll(s, steps).last.Or(anchor)
    requires h.entry.row.ledger in Announced(steps) ==>
               exists step :: step in steps && step.Handles? && step.e.Delivered? && step.e.tx.hash == h.entry.hash
    ensures h.entry.hash in DoAll(s, steps).db.transactions
    ensures h.entry.row.ledger !in Announced(steps) ==> StoredBy(steps, DoAll(s, steps).db, h)
  {
    hide DoAll, Runs, Mapped, RowsOn, Watch, Announced, RangeStored, Gives, ShowsIt, StoredFor;
    var n, ledgers := h.entry.row.ledger, Announced(steps);
    var end := DoAll(s, steps);
    TailWatches(s, steps, anchor);
    TailStores(s, steps, anchor);
    DeliveredAreStored(s, steps);
    Partition(anchor, ledgers);
    if n in Watch(anchor, ledgers).accepted {
      AcceptedWereSeen(anchor, ledgers, n);
    } else {
      var gaps := Watch(anchor, ledgers).gaps;
      var k :| 0 <= k < |gaps| && gaps[k].from <= n <= gaps[k].to;
      assert HealedBy(steps, end.db, gaps[k]);
      var step :| step in steps && !step.Meanwhile? && RangeStored(step.up, end.db, step.up.issuers, gaps[k]);
      assert InScopeFor(step, h);
      var page := HealedAt(step.up, end.db, gaps[k], h);
    }
  }

  lemma HealedAt(up: Upstream, db: Db, range: Range, h: Listed) returns (page: Served)
    requires RangeStored(up, db, up.issuers, range) && Gives(up, h) && h.issuer in up.issuers
    requires range.from <= h.entry.row.ledger <= range.to
    ensures page in up.pages(h.issuer, range) && ShowsIt(page, h) && StoredFor(db, h, page.tracked)
    ensures h.entry.hash in db.transactions
  {
    hide Mapped;
    page :| page in up.pages(h.issuer, range) && ShowsIt(page, h);
    var tx := Mapped(page.tracked, h.issuer, h.entry).value;
    KeptIsMapped(page.tracked, h.issuer, page.entries, tx);
    MappedLinks(page.tracked, h.issuer, h.entry);
    assert tx in RowsOn(h.issuer, page);
  }

  // ---- The deltas ----

  /** What arrives by an event, with the tail's hook. */
  function HandledArrivals(up: Upstream, s: State, e: TailEvent): seq<Arrival> {
    match e
    case Delivered(tx) => if Fails(up, s, e) then [] else [Arrival(tx, up.derived)]
    case Closed(ledger, _) =>
      var gap := Observed(s.last, ledger).gap;
      if gap.None? then [] else HealedArrivals(up, gap.value)
  }

  /** What arrives in a step, each row with the hook it comes with. */
  ghost function StepArrivals(s: State, step: Step): seq<Arrival>
    requires Fits(s, step)
  {
    match step
    case Meanwhile(arrivals) => arrivals
    case Handles(up, e) => HandledArrivals(up, s, e)
    case Pools(up, ledger, closeTime, runners, moves) =>
      var gap := Observed(s.last, ledger).gap;
      if gap.None? then []
      else HealPool.ArrivalsOf(up, gap.value, FreshPool(Timed(s.db, ledger, closeTime), runners), moves)
  }

  ghost function AllArrivals(s: State, steps: seq<Step>): seq<Arrival>
    requires Runs(s, steps)
  {
    if steps == [] then []
    else
      var front := steps[..|steps| - 1];
      AllArrivals(s, front) + StepArrivals(DoAll(s, front), steps[|steps| - 1])
  }

  /** Recording the close time first makes no difference to what arrives. */
  lemma TimedArrivals(db: Db, ledger: int, closeTime: Option<int>, arrivals: seq<Arrival>)
    ensures SameIngest(ArriveAll(Timed(db, ledger, closeTime), arrivals), ArriveAll(db, arrivals))
    ensures SameIngest(Timed(db, ledger, closeTime), ArriveAll(db, []))
  {
    NoArrivals(db);
    hide ArriveAll;
    ArriveAllSame(Timed(db, ledger, closeTime), db, arrivals);
  }

  /** An event leaves the ingested tables its arrivals leave, whether it fails or not. */
  lemma HandleIsArrivals(up: Upstream, s: State, e: TailEvent)
    ensures SameIngest(Handle(up, s, e).db, ArriveAll(s.db, HandledArrivals(up, s, e)))
  {
    hide Healed, HealedArrivals, Observed, ArriveAll, Arrive, SameIngest, Timed, Fails;
    NoArrivals(s.db);
    match e {
      case Delivered(tx) =>
        ArrivesOnce(s.db, Arrival(tx, up.derived));
        NoArrivals(Handle(up, s, e).db);
      case Closed(ledger, closeTime) =>
        var gap := Observed(s.last, ledger).gap;
        TimedArrivals(s.db, ledger, closeTime, HandledArrivals(up, s, e));
        if gap.Some? {
          HealedIsArrivals(up, Timed(s.db, ledger, closeTime), gap.value);
        }
    }
  }

  lemma PooledIsArrivals(s: State, step: Step)
    requires step.Pools? && Fits(s, step)
    ensures SameIngest(Do(s, step).db, ArriveAll(s.db, StepArrivals(s, step)))
  {
    hide Observed, ArriveAll, SameIngest, Timed, HealPool.Possible, HealPool.After, HealPool.ArrivalsOf, FreshPool;
    var timed, gap := Timed(s.db, step.ledger, step.closeTime), Observed(s.last, step.ledger).gap;
    if gap.None? {
      TimedArrivals(s.db, step.ledger, step.closeTime, []);
    } else {
      var pool := FreshPool(timed, step.runners);
      PoolOf(timed, step.runners);
      PoolIsArrivals(step.up, gap.value, pool, step.moves);
      TimedArrivals(s.db, step.ledger, step.closeTime, HealPool.ArrivalsOf(step.up, gap.value, pool, step.moves));
    }
  }

  lemma PoolOf(db: Db, runners: nat)
    ensures FreshPool(db, runners).db == db
  {
  }

  lemma StepIsArrivals(s: State, step: Step)
    requires Fits(s, step)
    ensures SameIngest(Do(s, step).db, ArriveAll(s.db, StepArrivals(s, step)))
  {
    hide Observed, Arrive, ArriveAll, Fits;
    match step {
      case Meanwhile(arrivals) =>
      case Handles(up, e) =>
        HandleIsArrivals(up, s, e);
      case Pools(_, _, _, _, _) =>
        PooledIsArrivals(s, step);
    }
  }

  lemma ArrivesOnce(db: Db, a: Arrival)
    ensures ArriveAll(db, [a]) == Arrive(db, a.hook, a.tx)
  {
    hide Arrive;
    assert [a][..0] == [];
  }

  lemma {:induction false} TailIsArrivals(s: State, steps: seq<Step>)
    requires Runs(s, steps)
    ensures SameIngest(DoAll(s, steps).db, ArriveAll(s.db, AllArrivals(s, steps)))
  {
    hide Do, Fits, StepArrivals, ArriveAll, SameIngest;
    if steps == [] {
      NoArrivals(s.db);
    } else {
      var front, last := steps[..|steps| - 1], steps[|steps| - 1];
      var mid := DoAll(s, front);
      TailIsArrivals(s, front);
      StepIsArrivals(mid, last);
      StepRest(mid.db, s.db, AllArrivals(s, front), StepArrivals(mid, last));
      SameTwice(Do(mid, last).db, ArriveAll(mid.db, StepArrivals(mid, last)), ArriveAll(s.db, AllArrivals(s, steps)));
    }
  }

  /** Whatever the tail, its heals and everything beside them ingest, with hooks that grow as issuances are
      registered: the issuance's deltas are those of the stored metadata if and only if each stored
      transaction that moves it had its deltas before, or arrived at least once with it in the hook. */
  lemma TailCurrentExactlyWhen(s: State, steps: seq<Step>, i: Issuance, rows: string -> TxRow)
    requires Runs(s, steps) && Faithful(s.db, i) && Copied(rows, s.db) && AllProper(rows, i, AllArrivals(s, steps))
    ensures Current(DoAll(s, steps).db, i) <==>
            forall h :: h in DoAll(s, steps).db.transactions && Moves(i, rows(h).meta) ==>
              Derived(s.db, i, h, rows(h).meta) || ArrivedWith(AllArrivals(s, steps), h, i)
  {
    hide Runs, DoAll, AllArrivals, ArriveAll, Current, Faithful, Copied, AllProper, Derived, ArrivedWith, Moves;
    TailIsArrivals(s, steps);
    CurrentElsewhere(DoAll(s, steps).db, ArriveAll(s.db, AllArrivals(s, steps)), i);
    CurrentExactlyWhen(s.db, AllArrivals(s, steps), i, rows);
  }
}
