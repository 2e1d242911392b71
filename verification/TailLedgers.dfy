/** The close times the live tail records, and how far they carry the coverage window
    (src/livetail/liveTail.ts:86-91, src/api/methods/gatewayBalances.ts:184-222). */
module TailLedgers {
  import opened Options
  import opened Tables
  import opened Rederive
  import opened Arrivals
  import opened Heal
  import opened HealPool
  import opened LiveTail
  import opened Gateway
  import GapTracking

  /** The ledger a step announces with a close time, if any. */
  function TimedBy(step: Step): seq<(int, int)> {
    match step
    case Handles(_, Closed(ledger, Some(time))) => [(ledger, time)]
    case Pools(_, ledger, Some(time), _, _) => [(ledger, time)]
    case _ => []
  }

  function TimesIn(steps: seq<Step>): seq<(int, int)> {
    if steps == [] then [] else TimesIn(steps[..|steps| - 1]) + TimedBy(steps[|steps| - 1])
  }

  /** The first time announced for a ledger. */
  ghost predicate FirstFor(times: seq<(int, int)>, ledger: int, time: int) {
    exists k :: 0 <= k < |times| && times[k] == (ledger, time) && forall j :: 0 <= j < k ==> times[j].0 != ledger
  }

  ghost predicate TimedIn(times: seq<(int, int)>, ledger: int) {
    exists k :: 0 <= k < |times| && times[k].0 == ledger
  }

  /** One table of close times is another with times announced in that order; a time once recorded stays. */
  ghost predicate Recording(before: map<int, int>, after: map<int, int>, times: seq<(int, int)>) {
    && (forall n :: n in after <==> n in before || TimedIn(times, n))
    && (forall n :: n in before ==> after[n] == before[n])
    && (forall n :: n in after && n !in before ==> FirstFor(times, n, after[n]))
  }

  lemma {:induction false} ArrivalsKeepLedgers(db: Db, arrivals: seq<Arrival>)
    ensures ArriveAll(db, arrivals).ledgers == db.ledgers
  {
    hide Arrive;
    if arrivals != [] {
      var last := arrivals[|arrivals| - 1];
      var mid := ArriveAll(db, arrivals[..|arrivals| - 1]);
      ArrivalsKeepLedgers(db, arrivals[..|arrivals| - 1]);
      ArriveKeepsLedgers(mid, last);
    }
  }

  lemma ArriveKeepsLedgers(db: Db, a: Arrival)
    ensures Arrive(db, a.hook, a.tx).ledgers == db.ledgers
  {
    DeriveTxOnly(InsertOne(db, a.tx), a.hook, a.tx.hash, a.tx.row.meta);
  }

  lemma NothingRecorded(ledgers: map<int, int>)
    ensures Recording(ledgers, ledgers, [])
  {
  }

  lemma OneRecorded(ledgers: map<int, int>, db: Db, ledger: int, time: int)
    requires db.ledgers == ledgers
    ensures Recording(ledgers, Timed(db, ledger, Some(time)).ledgers, [(ledger, time)])
    ensures Timed(db, ledger, None).ledgers == ledgers
  {
    var times := [(ledger, time)];
    assert times[0] == (ledger, time);
    forall n ensures TimedIn(times, n) <==> n == ledger {
    }
    assert FirstFor(times, ledger, time);
  }

  /** An event records the close time it brings and no other, whether its heal goes through or not. */
  lemma HandleRecords(up: Upstream, s: State, e: TailEvent)
    ensures Recording(s.db.ledgers, Handle(up, s, e).db.ledgers, TimedBy(Handles(up, e)))
  {
    hide Healed, Healable, HealedArrivals, Arrive, Recording, Timed, ArriveAll;
    NothingRecorded(s.db.ledgers);
    match e {
      case Delivered(tx) =>
        ArriveKeepsLedgers(s.db, Arrival(tx, up.derived));
      case Closed(ledger, closeTime) =>
        var timed := Timed(s.db, ledger, closeTime);
        OneRecorded(s.db.ledgers, s.db, ledger, closeTime.Or(0));
        var gap := GapTracking.Observed(s.last, ledger).gap;
        if gap.Some? {
          HealedIsArrivals(up, timed, gap.value);
          ArrivalsKeepLedgers(timed, HealedArrivals(up, gap.value));
        }
    }
  }

  lemma StepRecords(s: State, step: Step)
    requires Fits(s, step)
    ensures Recording(s.db.ledgers, Do(s, step).db.ledgers, TimedBy(step))
  {
    hide Handle, Recording, Timed, ArriveAll, HealPool.Possible, HealPool.After, HealPool.ArrivalsOf;
    NothingRecorded(s.db.ledgers);
    match step {
      case Meanwhile(arrivals) =>
        ArrivalsKeepLedgers(s.db, arrivals);
      case Handles(up, e) =>
        HandleRecords(up, s, e);
      case Pools(up, ledger, closeTime, runners, moves) =>
        var timed := Timed(s.db, ledger, closeTime);
        OneRecorded(s.db.ledgers, s.db, ledger, closeTime.Or(0));
        var gap := GapTracking.Observed(s.last, ledger).gap;
        if gap.Some? {
          var pool := FreshPool(timed, runners);
          PoolIsArrivals(up, gap.value, pool, moves);
          ArrivalsKeepLedgers(timed, HealPool.ArrivalsOf(up, gap.value, pool, moves));
        }
    }
  }

  lemma RecordedOn(a: map<int, int>, b: map<int, int>, c: map<int, int>, xs: seq<(int, int)>, ys: seq<(int, int)>)
    requires Recording(a, b, xs) && Recording(b, c, ys)
    ensures Recording(a, c, xs + ys)
  {
    var all := xs + ys;
    forall n ensures TimedIn(all, n) <==> TimedIn(xs, n) || TimedIn(ys, n) {
      if k :| 0 <= k < |xs| && xs[k].0 == n {
        assert all[k].0 == n;
      }
      if k :| 0 <= k < |ys| && ys[k].0 == n {
        assert all[|xs| + k].0 == n;
      }
    }
    forall n | n in c && n !in a ensures FirstFor(all, n, c[n]) {
      if n in b {
        var k :| 0 <= k < |xs| && xs[k] == (n, b[n]) && forall j :: 0 <= j < k ==> xs[j].0 != n;
        assert all[k] == (n, c[n]);
      } else {
        var k :| 0 <= k < |ys| && ys[k] == (n, c[n]) && forall j :: 0 <= j < k ==> ys[j].0 != n;
        assert all[|xs| + k] == (n, c[n]);
        assert !TimedIn(xs, n);
      }
    }
  }

  /** After any run of the tail, with heals one by one or pooled and others beside it, a ledger has a close time if
      and only if it had one or some event announced it with one; and it is the one it had, or else the first one
      announced. */
  lemma {:induction false} RunRecords(s: State, steps: seq<Step>)
    requires Runs(s, steps)
    ensures Recording(s.db.ledgers, DoAll(s, steps).db.ledgers, TimesIn(steps))
  {
    hide Do, Fits, Recording, TimedBy;
    if steps == [] {
      NothingRecorded(s.db.ledgers);
    } else {
      var front, last := steps[..|steps| - 1], steps[|steps| - 1];
      RunRecords(s, front);
      StepRecords(DoAll(s, front), last);
      RecordedOn(s.db.ledgers, DoAll(s, front).db.ledgers, DoAll(s, steps).db.ledgers, TimesIn(front), TimedBy(last));
    }
  }

  /** So the tail's high-water is at least every ledger so announced, and the window of an issuance whose accounts
      are all covered from before a ledger includes it once a ledger at or above it was announced. */
  lemma WindowFollowsTail(s: State, steps: seq<Step>, k: nat, id: int, ledger: int, top: Option<int>)
    requires Runs(s, steps) && k < |TimesIn(steps)| && ledger <= TimesIn(steps)[k].0
    requires IsTop(DoAll(s, steps).db.ledgers.Keys, top)
    ensures top.Some? && TimesIn(steps)[k].0 <= top.value
    ensures var db := DoAll(s, steps).db;
            && (exists c :: InScopeRow(db, id, c))
            && (forall h :: h in db.holders && h.1 == id ==> exists c :: c in db.coverage && c.address == h.0)
            && (forall c :: InScopeRow(db, id, c) ==> c.fromLedger <= ledger)
            ==> InWindow(db, id, ledger)
  {
    hide Runs, DoAll, TimesIn;
    RunRecords(s, steps);
    assert TimedIn(TimesIn(steps), TimesIn(steps)[k].0);
    assert TimesIn(steps)[k].0 in DoAll(s, steps).db.ledgers;
  }
}
