/** The row locks of a page's transaction: its rows, then each row's deltas
    (src/backfill/worker.ts:136-139, src/backfill/issuerSweep.ts, src/livetail/gapFill.ts). */
module PagePlans {
  import opened Options
  import opened Ordering
  import opened Metadata
  import opened Tables
  import opened Writers
  import opened BatchWriter
  import opened Derive
  import opened Rederive

  /** The delta writer's calls for a page, in order. */
  function PageCalls(tracked: seq<Issuance>, txs: seq<IngestTx>): seq<Call> {
    if txs == [] then []
    else
      var tx := txs[|txs| - 1];
      PageCalls(tracked, txs[..|txs| - 1]) + CallsOf(tracked, tx.hash, tx.row.meta)
  }

  /** The accounts known once the page's rows are in. */
  function KnownAfter(db: Db, txs: seq<IngestTx>): set<string> {
    InsertEach(db, txs).accounts.Keys
  }

  /** What the page's transaction asks for: the batch's locks, then those of the delta writer's calls. */
  ghost predicate IsPlan(db: Db, tracked: seq<Issuance>, txs: seq<IngestTx>, plan: seq<RowKey>) {
    exists batch :: BatchLocks(db, InsertEach(db, txs), ListedBy(txs), batch) && plan == batch + DeriveLocks(db, tracked, txs)
  }

  function DeriveLocks(db: Db, tracked: seq<Issuance>, txs: seq<IngestTx>): seq<RowKey> {
    CallLocks(KnownAfter(db, txs), PageCalls(tracked, txs))
  }

  lemma ThePlan(db: Db, tracked: seq<Issuance>, txs: seq<IngestTx>, batch: seq<RowKey>)
    requires BatchLocks(db, InsertEach(db, txs), ListedBy(txs), batch)
    ensures IsPlan(db, tracked, txs, batch + CallLocks(KnownAfter(db, txs), PageCalls(tracked, txs)))
  {
  }

  lemma NoCalls(known: set<string>, tracked: seq<Issuance>)
    ensures PageCalls(tracked, []) == [] && CallLocks(known, []) == [] && MovedBy([]) == {}
  {
  }

  lemma NoPlan(db: Db, tracked: seq<Issuance>, txs: seq<IngestTx>)
    ensures txs == [] ==> IsPlan(db, tracked, txs, [])
  {
    if txs == [] {
      assert BatchLocks(db, InsertEach(db, txs), ListedBy(txs), []);
      assert [] + DeriveLocks(db, tracked, txs) == [];
    }
  }

  lemma {:induction false} MovedAppend(a: seq<Call>, b: seq<Call>)
    ensures MovedBy(a + b) == MovedBy(a) + MovedBy(b)
  {
    hide AddressesOf;
    if b == [] {
      assert a + b == a;
    } else {
      assert (a + b)[..|a + b| - 1] == a + b[..|b| - 1];
      MovedAppend(a, b[..|b| - 1]);
    }
  }

  lemma {:induction false} CallLocksAppend(known: set<string>, a: seq<Call>, b: seq<Call>)
    ensures CallLocks(known, a + b) == CallLocks(known, a) + CallLocks(known + MovedBy(a), b)
  {
    hide DeltaLocks, AddressesOf, MovedBy, SortBy;
    if b == [] {
      assert a + b == a;
    } else {
      var front, last := b[..|b| - 1], b[|b| - 1];
      assert (a + b)[..|a + b| - 1] == a + front;
      CallLocksAppend(known, a, front);
      MovedAppend(a, front);
      assert known + MovedBy(a + front) == known + MovedBy(a) + MovedBy(front);
    }
  }

  lemma OneRowMore(known: set<string>, tracked: seq<Issuance>, txs: seq<IngestTx>, n: nat)
    requires n < |txs|
    ensures var before, after, calls := PageCalls(tracked, txs[..n]), PageCalls(tracked, txs[..n + 1]), CallsOf(tracked, txs[n].hash, txs[n].row.meta);
            && CallLocks(known, after) == CallLocks(known, before) + CallLocks(known + MovedBy(before), calls)
            && known + MovedBy(after) == known + MovedBy(before) + MovedBy(calls)
  {
    hide CallLocks, MovedBy, CallsOf;
    assert txs[..n + 1][..n] == txs[..n];
    var before, calls := PageCalls(tracked, txs[..n]), CallsOf(tracked, txs[n].hash, txs[n].row.meta);
    CallLocksAppend(known, before, calls);
    MovedAppend(before, calls);
  }

  // ---- What the calls ask for ----

  ghost predicate Writes(calls: seq<Call>, k: RowKey) {
    exists i :: 0 <= i < |calls| && k.issuance == calls[i].id && NamesDelta(calls[i].rows, k.key)
  }

  /** Each account not known before, and each delta. */
  lemma {:induction false} CallLocksAsk(known: set<string>, calls: seq<Call>, k: RowKey)
    ensures k in CallLocks(known, calls) <==>
            || (k.table == 1 && k.issuance == 0 && k.key.1 == "" && k.key.0 in MovedBy(calls) - known)
            || (k.table == 3 && Writes(calls, k))
  {
    hide AddressesOf, NamesDelta, DeltaLocks;
    if calls != [] {
      var front, last := calls[..|calls| - 1], calls[|calls| - 1];
      CallLocksAsk(known, front, k);
      DeltaLocksAsk(known + MovedBy(front), last.id, last.rows, SortBy(last.rows, DeltaKey), k);
      WritesOneMore(calls, k);
    }
  }

  lemma WritesOneMore(calls: seq<Call>, k: RowKey)
    requires calls != []
    ensures var front, last := calls[..|calls| - 1], calls[|calls| - 1];
            Writes(calls, k) <==> Writes(front, k) || (k.issuance == last.id && NamesDelta(last.rows, k.key))
  {
    hide NamesDelta;
    var front, last := calls[..|calls| - 1], calls[|calls| - 1];
    if Writes(front, k) {
      var i :| 0 <= i < |front| && k.issuance == front[i].id && NamesDelta(front[i].rows, k.key);
      assert calls[i] == front[i];
    }
    if Writes(calls, k) {
      var i :| 0 <= i < |calls| && k.issuance == calls[i].id && NamesDelta(calls[i].rows, k.key);
      assert i < |front| ==> front[i] == calls[i];
    }
    assert calls[|front|] == last;
  }

  // ---- When a plan ascends ----

  ghost predicate Below(x: seq<RowKey>, y: seq<RowKey>) {
    forall a, b :: a in x && b in y ==> RowLt(a, b)
  }

  lemma AppendAscends(x: seq<RowKey>, y: seq<RowKey>)
    ensures StrictlyAscending(x + y) <==> StrictlyAscending(x) && StrictlyAscending(y) && Below(x, y)
  {
    hide RowLt;
    var all := x + y;
    if StrictlyAscending(all) {
      forall i, j | 0 <= i < j < |x| ensures RowLt(x[i], x[j]) {
        assert all[i] == x[i] && all[j] == x[j];
      }
      forall i, j | 0 <= i < j < |y| ensures RowLt(y[i], y[j]) {
        assert all[|x| + i] == y[i] && all[|x| + j] == y[j];
      }
      forall a, b | a in x && b in y ensures RowLt(a, b) {
        var i :| 0 <= i < |x| && x[i] == a;
        var j :| 0 <= j < |y| && y[j] == b;
        assert all[i] == a && all[|x| + j] == b;
      }
    }
  }

  function RowOf(c: Call, r: DeltaRow): RowKey {
    RowKey(3, DeltaKey(r), c.id)
  }

  ghost predicate WritesBelow(c: Call, d: Call) {
    forall r, s :: r in c.rows && s in d.rows ==> RowLt(RowOf(c, r), RowOf(d, s))
  }

  /** Over the whole page, the deltas come in ascending order of hash, account and issuance. */
  ghost predicate DeltasAscend(calls: seq<Call>) {
    forall i, j :: 0 <= i < j < |calls| ==> WritesBelow(calls[i], calls[j])
  }

  /** The call moves an account that neither the archive nor an earlier call has. */
  ghost predicate NeedsNew(known: set<string>, calls: seq<Call>, j: nat)
    requires j < |calls|
  {
    exists x :: x in AddressesOf(calls[j].rows) && x !in known && x !in MovedBy(calls[..j])
  }

  ghost predicate AnyBefore(calls: seq<Call>, j: nat)
    requires j <= |calls|
  {
    exists i :: 0 <= i < j && calls[i].rows != []
  }

  /** Only the first call that writes anything needs new accounts. */
  ghost predicate OnlyFirstNeedsNew(known: set<string>, calls: seq<Call>) {
    forall j :: 0 <= j < |calls| && NeedsNew(known, calls, j) ==> !AnyBefore(calls, j)
  }

  ghost predicate Clean(calls: seq<Call>) {
    forall i :: 0 <= i < |calls| ==> DistinctOn(calls[i].rows, DeltaKey)
  }

  lemma MovedAtAll(calls: seq<Call>)
    ensures MovedBy(calls) != {} || (exists k :: Writes(calls, k)) ==> AnyBefore(calls, |calls|)
    ensures AnyBefore(calls, |calls|) ==> exists k: RowKey :: k.table == 3 && Writes(calls, k)
  {
    if MovedBy(calls) != {} {
      SomeRows(calls);
    }
    if k :| Writes(calls, k) {
      var i :| 0 <= i < |calls| && k.issuance == calls[i].id && NamesDelta(calls[i].rows, k.key);
      assert calls[i].rows != [];
    }
    if AnyBefore(calls, |calls|) {
      var i :| 0 <= i < |calls| && calls[i].rows != [];
      var k := RowOf(calls[i], calls[i].rows[0]);
      assert NamesDelta(calls[i].rows, k.key) by {
        assert calls[i].rows[0] in calls[i].rows;
      }
      assert Writes(calls, k);
    }
  }

  lemma {:induction false} SomeRows(calls: seq<Call>)
    requires MovedBy(calls) != {}
    ensures AnyBefore(calls, |calls|)
  {
    var n := |calls| - 1;
    if calls[n].rows == [] {
      assert AddressesOf(calls[n].rows) == {};
      SomeRows(calls[..n]);
      var i :| 0 <= i < n && calls[..n][i].rows != [];
      assert calls[i].rows != [];
    }
  }

  /** One more call fits behind those before it: its deltas come after theirs, and it needs no new account once
      anything has been written. */
  ghost predicate Fits(known: set<string>, calls: seq<Call>)
    requires calls != []
  {
    var n := |calls| - 1;
    (NeedsNew(known, calls, n) ==> !AnyBefore(calls, n)) && forall i :: 0 <= i < n ==> WritesBelow(calls[i], calls[n])
  }

  function LastLocks(known: set<string>, calls: seq<Call>): seq<RowKey>
    requires calls != []
  {
    var n := |calls| - 1;
    DeltaLocks(known + MovedBy(calls[..n]), calls[n].id, SortBy(calls[n].rows, DeltaKey))
  }

  lemma LastLocksAsk(known: set<string>, calls: seq<Call>, k: RowKey)
    requires calls != []
    ensures var n := |calls| - 1;
            k in LastLocks(known, calls) <==> AsksDelta(known + MovedBy(calls[..n]), calls[n].id, calls[n].rows, k)
    ensures k in LastLocks(known, calls) && k.table == 1 ==> NeedsNew(known, calls, |calls| - 1)
  {
    hide AddressesOf, MovedBy, NamesDelta, DeltaLocks;
    var n := |calls| - 1;
    DeltaLocksAsk(known + MovedBy(calls[..n]), calls[n].id, calls[n].rows, SortBy(calls[n].rows, DeltaKey), k);
  }

  lemma FittingIsAbove(known: set<string>, calls: seq<Call>, a: RowKey, b: RowKey)
    requires calls != [] && Fits(known, calls) && a in CallLocks(known, calls[..|calls| - 1]) && b in LastLocks(known, calls)
    ensures RowLt(a, b)
  {
    hide CallLocks, LastLocks, AddressesOf, MovedBy, PairLt, NamesDelta, Writes, WritesBelow, AnyBefore;
    var n := |calls| - 1;
    CallLocksAsk(known, calls[..n], a);
    LastLocksAsk(known, calls, b);
    MovedAtAll(calls[..n]);
    AnyInFront(calls);
    if a.table == 3 && b.table == 3 {
      WritesApart(calls, a, b);
    }
  }

  lemma AboveNeedsNothingNew(known: set<string>, calls: seq<Call>)
    requires calls != [] && Below(CallLocks(known, calls[..|calls| - 1]), LastLocks(known, calls))
    ensures NeedsNew(known, calls, |calls| - 1) ==> !AnyBefore(calls, |calls| - 1)
  {
    hide CallLocks, LastLocks, AddressesOf, MovedBy, PairLt, NamesDelta, Writes, AnyBefore;
    var n := |calls| - 1;
    AnyInFront(calls);
    MovedAtAll(calls[..n]);
    if NeedsNew(known, calls, n) && AnyBefore(calls, n) {
      var x :| x in AddressesOf(calls[n].rows) && x !in known && x !in MovedBy(calls[..n]);
      var k: RowKey :| k.table == 3 && Writes(calls[..n], k);
      CallLocksAsk(known, calls[..n], k);
      LastLocksAsk(known, calls, RowKey(1, (x, ""), 0));
    }
  }

  lemma AboveWritesLater(known: set<string>, calls: seq<Call>, i: nat)
    requires calls != [] && i < |calls| - 1 && Below(CallLocks(known, calls[..|calls| - 1]), LastLocks(known, calls))
    ensures WritesBelow(calls[i], calls[|calls| - 1])
  {
    hide CallLocks, LastLocks, AddressesOf, MovedBy, RowLt, NamesDelta;
    var n := |calls| - 1;
    forall r, s | r in calls[i].rows && s in calls[n].rows ensures RowLt(RowOf(calls[i], r), RowOf(calls[n], s)) {
      NamedByRow(calls[i].rows, r);
      NamedByRow(calls[n].rows, s);
      assert calls[..n][i] == calls[i];
      CallLocksAsk(known, calls[..n], RowOf(calls[i], r));
      LastLocksAsk(known, calls, RowOf(calls[n], s));
    }
  }

  lemma CallAboveExactlyWhen(known: set<string>, calls: seq<Call>)
    requires calls != []
    ensures Below(CallLocks(known, calls[..|calls| - 1]), LastLocks(known, calls)) <==> Fits(known, calls)
  {
    hide CallLocks, LastLocks, WritesBelow, NeedsNew, AnyBefore, RowLt;
    if Below(CallLocks(known, calls[..|calls| - 1]), LastLocks(known, calls)) {
      AboveNeedsNothingNew(known, calls);
      forall i | 0 <= i < |calls| - 1 ensures WritesBelow(calls[i], calls[|calls| - 1]) {
        AboveWritesLater(known, calls, i);
      }
    }
    if Fits(known, calls) {
      forall a, b | a in CallLocks(known, calls[..|calls| - 1]) && b in LastLocks(known, calls) ensures RowLt(a, b) {
        FittingIsAbove(known, calls, a, b);
      }
    }
  }

  lemma AnyInFront(calls: seq<Call>)
    requires calls != []
    ensures var n := |calls| - 1; AnyBefore(calls[..n], n) <==> AnyBefore(calls, n)
  {
    var n := |calls| - 1;
    assert forall i :: 0 <= i < n ==> calls[..n][i] == calls[i];
  }

  lemma NamedByRow(rows: seq<DeltaRow>, r: DeltaRow)
    requires r in rows
    ensures NamesDelta(rows, DeltaKey(r))
  {
  }

  lemma WritesApart(calls: seq<Call>, a: RowKey, b: RowKey)
    requires calls != [] && a.table == 3 && b.table == 3 && Writes(calls[..|calls| - 1], a)
    requires b.issuance == calls[|calls| - 1].id && NamesDelta(calls[|calls| - 1].rows, b.key)
    requires forall i :: 0 <= i < |calls| - 1 ==> WritesBelow(calls[i], calls[|calls| - 1])
    ensures RowLt(a, b)
  {
    hide RowLt;
    var front, last := calls[..|calls| - 1], calls[|calls| - 1];
    var i :| 0 <= i < |front| && a.issuance == front[i].id && NamesDelta(front[i].rows, a.key);
    assert front[i] == calls[i];
    var r :| r in calls[i].rows && DeltaKey(r) == a.key;
    var s :| s in last.rows && DeltaKey(s) == b.key;
    assert WritesBelow(calls[i], last);
    assert RowOf(calls[i], r) == a && RowOf(last, s) == b;
  }

  /** The calls ask for their rows in ascending order if and only if the deltas ascend over all of them and
      only the first that writes anything needs new accounts. */
  lemma {:induction false} CallsAscendExactlyWhen(known: set<string>, calls: seq<Call>)
    requires Clean(calls)
    ensures StrictlyAscending(CallLocks(known, calls)) <==> DeltasAscend(calls) && OnlyFirstNeedsNew(known, calls)
  {
    hide *;
    if calls == [] {
      NoneAscend(known, calls);
    } else {
      var front := calls[..|calls| - 1];
      FrontIsClean(calls);
      CallsAscendExactlyWhen(known, front);
      LastAscends(known, calls);
      AppendAscends(CallLocks(known, front), LastLocks(known, calls));
      CallAboveExactlyWhen(known, calls);
      OneCallMore(known, calls);
    }
  }

  lemma NoneAscend(known: set<string>, calls: seq<Call>)
    requires calls == []
    ensures StrictlyAscending(CallLocks(known, calls)) && DeltasAscend(calls) && OnlyFirstNeedsNew(known, calls)
  {
  }

  lemma FrontIsClean(calls: seq<Call>)
    requires Clean(calls) && calls != []
    ensures Clean(calls[..|calls| - 1])
  {
    hide DistinctOn;
  }

  lemma LastAscends(known: set<string>, calls: seq<Call>)
    requires Clean(calls) && calls != []
    ensures StrictlyAscending(LastLocks(known, calls))
    ensures CallLocks(known, calls) == CallLocks(known, calls[..|calls| - 1]) + LastLocks(known, calls)
  {
    hide StrictlyAscending, DistinctOn, DeltaLocks, MovedBy;
    var n := |calls| - 1;
    DeltaLocksAscend(known + MovedBy(calls[..n]), calls[n].id, calls[n].rows);
  }

  lemma OneCallMore(known: set<string>, calls: seq<Call>)
    requires calls != []
    ensures var front := calls[..|calls| - 1];
            DeltasAscend(calls) && OnlyFirstNeedsNew(known, calls) <==>
            DeltasAscend(front) && OnlyFirstNeedsNew(known, front) && Fits(known, calls)
  {
    hide WritesBelow, OnlyFirstNeedsNew, NeedsNew, AnyBefore;
    OnlyFirstOneMore(known, calls);
    var n := |calls| - 1;
    assert DeltasAscend(calls) <==> DeltasAscend(calls[..n]) && forall i :: 0 <= i < n ==> WritesBelow(calls[i], calls[n]);
  }

  lemma OnlyFirstOneMore(known: set<string>, calls: seq<Call>)
    requires calls != []
    ensures var n := |calls| - 1;
            OnlyFirstNeedsNew(known, calls) <==>
            OnlyFirstNeedsNew(known, calls[..n]) && (NeedsNew(known, calls, n) ==> !AnyBefore(calls, n))
  {
    hide MovedBy, AddressesOf;
    var n := |calls| - 1;
    var front := calls[..n];
    forall j | 0 <= j < n
      ensures NeedsNew(known, calls, j) <==> NeedsNew(known, front, j)
      ensures AnyBefore(calls, j) <==> AnyBefore(front, j)
    {
      assert front[..j] == calls[..j] && front[j] == calls[j];
      assert forall i :: 0 <= i < j ==> front[i] == calls[i];
    }
  }

  // ---- A page ----

  /** The accounts that the page moves, does not list, and the archive does not have. */
  function Missing(db: Db, tracked: seq<Issuance>, txs: seq<IngestTx>): set<string> {
    MovedBy(PageCalls(tracked, txs)) - KnownAfter(db, txs)
  }

  ghost predicate AddsNoLink(db: Db, txs: seq<IngestTx>) {
    InsertEach(db, txs).links == db.links
  }

  /** The batch's locks lie below those of the calls if and only if no account is missing - or, where one is,
      the page adds no link and every account it lists comes before the missing ones. */
  lemma BatchBelowExactlyWhen(db: Db, tracked: seq<Issuance>, txs: seq<IngestTx>, batch: seq<RowKey>)
    requires BatchLocks(db, InsertEach(db, txs), ListedBy(txs), batch)
    ensures Below(batch, DeriveLocks(db, tracked, txs)) <==>
            forall m :: m in Missing(db, tracked, txs) ==> AddsNoLink(db, txs) && forall x :: x in ListedBy(txs) ==> Lt(x, m)
  {
    hide StrictlyAscending, InsertEach, ListedBy, MovedBy, CallLocks, PageCalls, Lt, Writes;
    var after, calls, known := InsertEach(db, txs), PageCalls(tracked, txs), KnownAfter(db, txs);
    var right := DeriveLocks(db, tracked, txs);
    forall k ensures k in right <==> || (k.table == 1 && k.issuance == 0 && k.key.1 == "" && k.key.0 in Missing(db, tracked, txs))
                                     || (k.table == 3 && Writes(calls, k)) {
      CallLocksAsk(known, calls, k);
    }
    LinksOnlyGrow(db, txs);
    forall l | l in after.links && l !in db.links ensures RowKey(2, l, 0) in batch {
      assert Asks(db, after, ListedBy(txs), RowKey(2, l, 0));
    }
    if Below(batch, right) {
      forall m | m in Missing(db, tracked, txs)
        ensures AddsNoLink(db, txs) && forall x :: x in ListedBy(txs) ==> Lt(x, m)
      {
        var wanted := RowKey(1, (m, ""), 0);
        assert wanted in right;
        assert forall l :: l in after.links ==> l in db.links;
        forall x | x in ListedBy(txs) ensures Lt(x, m) {
          assert Asks(db, after, ListedBy(txs), RowKey(1, (x, ""), 0));
          assert RowLt(RowKey(1, (x, ""), 0), wanted);
          PairOfNames(x, m);
        }
      }
    }
    if forall m :: m in Missing(db, tracked, txs) ==> AddsNoLink(db, txs) && forall x :: x in ListedBy(txs) ==> Lt(x, m) {
      forall a, b | a in batch && b in right ensures RowLt(a, b) {
        assert Asks(db, after, ListedBy(txs), a);
        if b.table == 1 {
          assert AddsNoLink(db, txs);
        }
      }
    }
  }

  lemma PairOfNames(x: string, m: string)
    ensures PairLt((x, ""), (m, "")) <==> Lt(x, m)
  {
  }

  lemma {:induction false} LinksOnlyGrow(db: Db, txs: seq<IngestTx>)
    ensures db.links <= InsertEach(db, txs).links
  {
    if txs != [] {
      LinksOnlyGrow(db, txs[..|txs| - 1]);
    }
  }

  ghost predicate CleanCalls(tracked: seq<Issuance>, txs: seq<IngestTx>) {
    forall tx :: tx in txs ==> CleanMeta(tracked, tx.row.meta)
  }

  lemma {:induction false} PageCallsClean(tracked: seq<Issuance>, txs: seq<IngestTx>)
    requires CleanCalls(tracked, txs)
    ensures Clean(PageCalls(tracked, txs))
  {
    hide DistinctOn, OneDeltaPerAccount, TokenDeltas;
    if txs != [] {
      var tx := txs[|txs| - 1];
      assert tx in txs;
      PageCallsClean(tracked, txs[..|txs| - 1]);
      var more := CallsOf(tracked, tx.hash, tx.row.meta);
      forall i | 0 <= i < |more| ensures DistinctOn(more[i].rows, DeltaKey) {
        CleanRow(tracked, tracked[i], tx.hash, tx.row.meta);
      }
    }
  }

  /** A page's transaction asks for its rows in strictly ascending order if and only if its deltas ascend by
      hash, account and issuance over the whole page, only its first delta call needs accounts that neither the
      archive nor the page lists, and where it needs any the page adds no link and lists no account above them. */
  lemma PlanAscendsExactlyWhen(db: Db, tracked: seq<Issuance>, txs: seq<IngestTx>, plan: seq<RowKey>)
    requires IsPlan(db, tracked, txs, plan) && CleanCalls(tracked, txs)
    ensures StrictlyAscending(plan) <==>
            var calls := PageCalls(tracked, txs);
            && DeltasAscend(calls) && OnlyFirstNeedsNew(KnownAfter(db, txs), calls)
            && forall m :: m in Missing(db, tracked, txs) ==> AddsNoLink(db, txs) && forall x :: x in ListedBy(txs) ==> Lt(x, m)
  {
    hide StrictlyAscending, DeltasAscend, OnlyFirstNeedsNew, PageCalls, CallLocks, InsertEach, ListedBy, Clean, MovedBy, Lt;
    var batch :| BatchLocks(db, InsertEach(db, txs), ListedBy(txs), batch) && plan == batch + DeriveLocks(db, tracked, txs);
    AppendAscends(batch, DeriveLocks(db, tracked, txs));
    PageCallsClean(tracked, txs);
    CallsAscendExactlyWhen(KnownAfter(db, txs), PageCalls(tracked, txs));
    BatchBelowExactlyWhen(db, tracked, txs, batch);
  }

  lemma {:induction false} NothingNew(known: set<string>, calls: seq<Call>)
    requires MovedBy(calls) <= known
    ensures OnlyFirstNeedsNew(known, calls)
  {
    hide AddressesOf;
    forall j | 0 <= j < |calls| ensures !NeedsNew(known, calls, j) {
      MovedHere(calls, j);
    }
  }

  lemma {:induction false} MovedHere(calls: seq<Call>, j: nat)
    requires j < |calls|
    ensures AddressesOf(calls[j].rows) <= MovedBy(calls)
  {
    hide AddressesOf;
    if j < |calls| - 1 {
      MovedHere(calls[..|calls| - 1], j);
    }
  }

  lemma NothingMissing(db: Db, tracked: seq<Issuance>, txs: seq<IngestTx>)
    ensures Missing(db, tracked, txs) == {} <==> MovedBy(PageCalls(tracked, txs)) <= KnownAfter(db, txs)
  {
    hide MovedBy, InsertEach, PageCalls;
    if Missing(db, tracked, txs) == {} {
      forall x | x in MovedBy(PageCalls(tracked, txs)) ensures x in KnownAfter(db, txs) {
        assert x !in Missing(db, tracked, txs);
      }
    }
  }

  // ---- One issuance ----

  lemma {:induction false} OneCallEach(i: Issuance, txs: seq<IngestTx>)
    ensures |PageCalls([i], txs)| == |txs|
    ensures forall n :: 0 <= n < |txs| ==>
              PageCalls([i], txs)[n] == Call(i.id, RowsOf(txs[n].hash, TokenDeltas(i.token, txs[n].row.meta)))
  {
    hide TokenDeltas;
    if txs != [] {
      OneCallEach(i, txs[..|txs| - 1]);
    }
  }

  /** The transactions that move the issuance come in ascending order of their hashes. */
  ghost predicate HashesAscend(i: Issuance, txs: seq<IngestTx>) {
    forall m, n :: 0 <= m < n < |txs| && Moves(i, txs[m].row.meta) && Moves(i, txs[n].row.meta) ==> Lt(txs[m].hash, txs[n].hash)
  }

  lemma RowsBelowExactlyWhen(i: Issuance, a: IngestTx, b: IngestTx)
    requires a.hash != b.hash || SameRecord(a.row, b.row)
    ensures WritesBelow(Call(i.id, RowsOf(a.hash, TokenDeltas(i.token, a.row.meta))), Call(i.id, RowsOf(b.hash, TokenDeltas(i.token, b.row.meta)))) <==>
            (Moves(i, a.row.meta) && Moves(i, b.row.meta) ==> Lt(a.hash, b.hash))
  {
    hide TokenDeltas;
    var c := Call(i.id, RowsOf(a.hash, TokenDeltas(i.token, a.row.meta)));
    var d := Call(i.id, RowsOf(b.hash, TokenDeltas(i.token, b.row.meta)));
    if WritesBelow(c, d) && Moves(i, a.row.meta) && Moves(i, b.row.meta) {
      assert c.rows[0] in c.rows && d.rows[0] in d.rows;
      assert RowLt(RowOf(c, c.rows[0]), RowOf(d, d.rows[0]));
      if a.hash == b.hash {
        PairLtIrreflexive(DeltaKey(c.rows[0]));
      }
    }
  }

  /** A page that derives one issuance and knows every account it moves asks for its rows in ascending order
      if and only if the hashes of the transactions that move it ascend. */
  lemma OneIssuanceAscendsExactlyWhen(db: Db, i: Issuance, txs: seq<IngestTx>, plan: seq<RowKey>)
    requires IsPlan(db, [i], txs, plan) && CleanCalls([i], txs) && Missing(db, [i], txs) == {}
    requires forall m, n :: 0 <= m < n < |txs| && txs[m].hash == txs[n].hash ==> SameRecord(txs[m].row, txs[n].row)
    ensures StrictlyAscending(plan) <==> HashesAscend(i, txs)
  {
    hide StrictlyAscending, IsPlan, WritesBelow, CleanMeta, MovedBy, ListedBy, PageCalls, InsertEach, Moves, Lt, TokenDeltas, OnlyFirstNeedsNew;
    var calls := PageCalls([i], txs);
    PlanAscendsExactlyWhen(db, [i], txs, plan);
    NothingMissing(db, [i], txs);
    NothingNew(KnownAfter(db, txs), calls);
    OneCallEach(i, txs);
    forall m, n | 0 <= m < n < |txs|
      ensures WritesBelow(calls[m], calls[n]) <==>
              (Moves(i, txs[m].row.meta) && Moves(i, txs[n].row.meta) ==> Lt(txs[m].hash, txs[n].hash))
    {
      RowsBelowExactlyWhen(i, txs[m], txs[n]);
    }
  }
}
