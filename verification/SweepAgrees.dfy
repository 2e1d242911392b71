/** From a sweep to a reconciliation: after an issuance was swept into an empty archive, nothing disagrees
    (src/backfill/issuerSweep.ts:117-209, src/reconcile/reconciler.ts:77-122). */
module SweepAgrees {
  import opened Options
  import opened Metadata
  import opened Tables
  import opened Derive
  import opened Rederive
  import opened Arrivals
  import opened Touches
  import opened History
  import opened Routes
  import opened Reconstruct
  import opened Reconciler
  import opened Holders
  import opened Backfill
  import opened Worker
  import opened Sweep
  import opened SweepClaim
  import opened Ingest
  import IouDeltas
  import MptDeltas

  /** The rows the sweep keeps of its pages are of the ledger's transactions of the token, and of all of them. */
  ghost predicate Surveys(s: Survey, txs: seq<IngestTx>) {
    && (forall tx :: tx in KeptFrom(s, 0) ==> Lists(txs, tx.hash, tx.row))
    && (forall n :: 0 <= n < |txs| ==> Keeps(s, txs[n].hash))
  }

  ghost predicate Keeps(s: Survey, h: string) {
    exists tx :: tx in KeptFrom(s, 0) && tx.hash == h
  }

  // ---- What arrives by a sweep that goes through ----

  lemma {:induction false} SweepBrings(s: Survey, page: nat, fate: nat -> Fate, maxRetries: nat, a: Arrival)
    requires page < |s.chain| && AllWritten(s, page, fate, maxRetries)
    ensures a in SweepArrivals(s, page, fate, maxRetries) <==> a.tx in KeptFrom(s, page) && a.hook == s.derived
    decreases |s.chain| - page
  {
    hide Batch, Settle, Hooked;
    assert fate(page).Answered?;
    var batch := Batch(s, s.chain[page]);
    var now := Hooked(batch, s.derived);
    if a in now {
      var k :| 0 <= k < |now| && now[k] == a;
    }
    if a.tx in batch && a.hook == s.derived {
      var k :| 0 <= k < |batch| && batch[k] == a.tx;
      assert now[k] == a;
    }
    if page + 1 < |s.chain| {
      SweepBrings(s, page + 1, fate, maxRetries, a);
    } else {
      assert KeptFrom(s, page + 1) == [];
    }
  }

  lemma {:induction false} KeptOnAPageOf(s: Survey, page: nat, tx: IngestTx) returns (q: nat)
    requires page <= |s.chain| && tx in KeptFrom(s, page)
    ensures q < |s.chain| && tx in Batch(s, s.chain[q])
    decreases |s.chain| - page
  {
    hide Batch;
    if tx in Batch(s, s.chain[page]) {
      q := page;
    } else {
      q := KeptOnAPageOf(s, page + 1, tx);
    }
  }

  /** An account a node touches is a holder the node shows. */
  lemma TouchShows(token: Token, w: Option<Wrapper>)
    ensures ReadTouch(token, w).Some? && ReadTouch(token, w).value.account != "" ==>
              NodeHolder(token, w) == Some(ReadTouch(token, w).value.account)
  {
    hide IouDeltas.HolderBalance, IouDeltas.Before, IouDeltas.After, MptDeltas.Before, MptDeltas.After;
  }

  lemma {:induction false} TouchedAreFound(i: Issuance, nodes: seq<Option<Wrapper>>, t: Touch)
    requires t in TouchesIn(i.token, nodes) && t.account != ""
    ensures Detected(i.id, t.account) in Finds([i], nodes)
  {
    hide ReadTouch, NodeHolder;
    var n := |nodes| - 1;
    if t in TouchesIn(i.token, nodes[..n]) {
      TouchedAreFound(i, nodes[..n], t);
    } else {
      TouchShows(i.token, nodes[n]);
      assert [i][0] == i && i in [i];
    }
  }

  /** A kept row is linked to every account its metadata touches. */
  lemma KeptIsLinked(s: Survey, q: nat, tx: IngestTx, account: string)
    requires q < |s.chain| && tx in Batch(s, s.chain[q]) && account != ""
    requires TouchIn(s.issuance.token, tx, account).Some?
    ensures account in tx.accounts
  {
    hide KeptOf, Finds, Mapped, TouchesIn;
    var i := s.issuance;
    KeptIsMapped([i], s.issuer, s.chain[q], tx);
    var entry :| entry in s.chain[q] && Mapped([i], s.issuer, entry) == Some(tx);
    MappedLinks([i], s.issuer, entry);
    FoundTouch(TouchesOf(i.token, tx), account);
    TouchedAreFound(i, tx.row.meta.Nodes(), TouchIn(i.token, tx, account).value);
  }

  lemma {:induction false} FoundTouch(touches: seq<Touch>, account: string)
    ensures TouchOf(touches, account).Some? ==>
              TouchOf(touches, account).value in touches && TouchOf(touches, account).value.account == account
  {
    if touches != [] {
      FoundTouch(touches[..|touches| - 1], account);
    }
  }

  ghost predicate SweptWhole(s: Survey, start: Db, fate: nat -> Fate, maxRetries: nat) {
    && 0 < |s.chain| && s.job in start.jobs && AllWritten(s, 0, fate, maxRetries) && s.derived == [s.issuance]
  }

  /** The sweep brings each transaction at least once, with its issuance in the hook and a link to every
      account that it touches. */
  lemma SweepMeetsAll(s: Survey, start: Db, fate: nat -> Fate, maxRetries: nat, txs: seq<IngestTx>)
    requires SweptWhole(s, start, fate, maxRetries) && Ledger(s.issuance.token, txs) && Surveys(s, txs)
    ensures var arrivals := SweepArrivals(s, 0, fate, maxRetries);
            && Brings(txs, arrivals) && ProperHooks(s.issuance, arrivals) && DerivedOnce(s.issuance, txs, arrivals)
            && forall account :: LinkedOnce(s.issuance.token, txs, arrivals, account)
  {
    hide SweepArrivals, AllWritten, KeptFrom, Ledger, TouchIn, Moves;
    var i, arrivals := s.issuance, SweepArrivals(s, 0, fate, maxRetries);
    forall a ensures a in arrivals <==> a.tx in KeptFrom(s, 0) && a.hook == [i] {
      SweepBrings(s, 0, fate, maxRetries, a);
    }
    forall n | 0 <= n < |txs| ensures ArrivedWith(arrivals, txs[n].hash, i) && Arrived(arrivals, txs[n].hash) {
      assert Keeps(s, txs[n].hash);
      var tx :| tx in KeptFrom(s, 0) && tx.hash == txs[n].hash;
      assert Arrival(tx, [i]) in arrivals && i in [i];
    }
    forall n, account | 0 <= n < |txs| && TouchIn(i.token, txs[n], account).Some?
      ensures ArrivedFor(arrivals, txs[n].hash, account)
    {
      assert Keeps(s, txs[n].hash);
      var tx :| tx in KeptFrom(s, 0) && tx.hash == txs[n].hash;
      SameTouches(i.token, txs, n, tx, account);
      var q := KeptOnAPageOf(s, 0, tx);
      KeptIsLinked(s, q, tx, account);
      assert Arrival(tx, [i]) in arrivals;
    }
  }

  lemma SameTouches(token: Token, txs: seq<IngestTx>, n: nat, tx: IngestTx, account: string)
    requires Ledger(token, txs) && n < |txs| && tx.hash == txs[n].hash && Lists(txs, tx.hash, tx.row)
    ensures TouchIn(token, tx, account) == TouchIn(token, txs[n], account)
    ensures TouchIn(token, tx, account).Some? ==> account != ""
  {
    hide TouchesIn, WellFormed;
    var m :| 0 <= m < |txs| && txs[m].hash == tx.hash && SameRecord(txs[m].row, tx.row);
    assert m == n;
    WellFormedOnePerAccount(token, txs[n].row.meta);
    FoundTouch(TouchesOf(token, tx), account);
  }

  // ---- The archive it leaves ----

  /** The start, with the scope as the sweep recorded it. */
  function Scoped(start: Db, after: Db): Db {
    start.(holders := after.holders)
  }

  lemma SweptIsArrived(s: Survey, start: Db, fate: nat -> Fate, maxRetries: nat, high: int)
    requires SweptWhole(s, start, fate, maxRetries)
    ensures var after := Swept(s, start, 0, high, fate, maxRetries).db;
            var arrived := ArriveAll(Scoped(start, after), SweepArrivals(s, 0, fate, maxRetries));
            SameIngest(after, arrived) && arrived.holders == after.holders
  {
    hide Swept, SweepArrivals, ArriveAll, AllWritten, SameIngest;
    var after, arrivals := Swept(s, start, 0, high, fate, maxRetries).db, SweepArrivals(s, 0, fate, maxRetries);
    SweepIsArrivals(s, start, 0, high, fate, maxRetries);
    OnlyScopeDiffers(start, after);
    ArriveAllSame(start, Scoped(start, after), arrivals);
    ArrivalsFrame(Scoped(start, after), arrivals);
    SameTwice(after, ArriveAll(start, arrivals), ArriveAll(Scoped(start, after), arrivals));
  }

  lemma OnlyScopeDiffers(start: Db, after: Db)
    ensures SameIngest(start, Scoped(start, after))
  {
  }

  lemma QueriedAlike(a: Db, b: Db, id: int, derived: map<string, real>, entries: seq<Entry>, scope: set<string>)
    requires SameIngest(a, b) && a.holders == b.holders && Queried(a, id, derived, entries, scope)
    ensures Queried(b, id, derived, entries, scope)
  {
    hide SumOver;
    assert InScopeHashes(a, id) == InScopeHashes(b, id);
    assert forall e :: IsInScope(a, id, e) <==> IsInScope(b, id, e);
    assert forall x :: AllRows(a, id, x) == AllRows(b, id, x);
  }

  /** What reconciliation asks of an archive, met by the sweep's. */
  lemma SweptIsReady(s: Survey, start: Db, fate: nat -> Fate, maxRetries: nat, high: int, txs: seq<IngestTx>,
                     derived: map<string, real>, entries: seq<Entry>, scope: set<string>)
    requires SweptWhole(s, start, fate, maxRetries) && Unstarted(start, s.issuance)
    requires Ledger(s.issuance.token, txs) && Surveys(s, txs)
    requires forall account :: account in scope ==> Chained(s.issuance.token, txs, account)
    requires Queried(Swept(s, start, 0, high, fate, maxRetries).db, s.issuance.id, derived, entries, scope)
    ensures var i, arrivals := s.issuance, SweepArrivals(s, 0, fate, maxRetries);
            var scoped := Scoped(start, Swept(s, start, 0, high, fate, maxRetries).db);
            && Queried(ArriveAll(scoped, arrivals), i.id, derived, entries, scope) && Unstarted(scoped, i)
            && Brings(txs, arrivals) && ProperHooks(i, arrivals) && DerivedOnce(i, txs, arrivals)
            && ScopeArrived(i, txs, arrivals, scope)
  {
    hide Swept, SweepArrivals, ArriveAll, AllWritten, SameIngest, Ledger, Surveys, Queried, Chained, LinkedOnce;
    var after, arrivals := Swept(s, start, 0, high, fate, maxRetries).db, SweepArrivals(s, 0, fate, maxRetries);
    SweepMeetsAll(s, start, fate, maxRetries, txs);
    SweptIsArrived(s, start, fate, maxRetries, high);
    QueriedAlike(after, ArriveAll(Scoped(start, after), arrivals), s.issuance.id, derived, entries, scope);
  }

  /** An MPT swept from its start into an archive that held no transaction: a reconciliation reports nothing,
      about any holder the sweep found. */
  method ReconcileSweptMpt(s: Survey, ghost start: Db, ghost fate: nat -> Fate, ghost maxRetries: nat, ghost high: int, id: string,
                           ghost txs: seq<IngestTx>, derived: map<string, real>, entries: seq<Entry>, scope: set<string>)
    returns (report: Option<seq<Discrepancy>>)
    requires s.issuance.token == Mpt(id) && SweptWhole(s, start, fate, maxRetries) && Unstarted(start, s.issuance)
    requires Ledger(s.issuance.token, txs) && Surveys(s, txs)
    requires forall account :: account in scope ==> Chained(s.issuance.token, txs, account)
    requires forall n :: 0 <= n < |txs| ==> Integral(id, txs[n].row.meta.Nodes())
    requires Queried(Swept(s, start, 0, high, fate, maxRetries).db, s.issuance.id, derived, entries, scope)
    ensures report == Some([])
  {
    hide Swept, SweepArrivals, ArriveAll, AllWritten, SameIngest, Ledger, Surveys, Queried, Chained, LinkedOnce, Integral, Unstarted;
    hide Brings, ProperHooks, DerivedOnce, ScopeArrived, Scoped;
    SweptIsReady(s, start, fate, maxRetries, high, txs, derived, entries, scope);
    ghost var scoped := Scoped(start, Swept(s, start, 0, high, fate, maxRetries).db);
    report := ReconcileMpt(scoped, s.issuance, id, txs, SweepArrivals(s, 0, fate, maxRetries), derived, entries, scope);
  }

  /** And so for an IOU. */
  method ReconcileSweptIou(s: Survey, ghost start: Db, ghost fate: nat -> Fate, ghost maxRetries: nat, ghost high: int,
                           currency: string, issuer: string, ghost txs: seq<IngestTx>,
                           derived: map<string, real>, entries: seq<Entry>, scope: set<string>)
    returns (report: seq<Discrepancy>)
    requires s.issuance.token == Iou(currency, issuer) && SweptWhole(s, start, fate, maxRetries) && Unstarted(start, s.issuance)
    requires Ledger(s.issuance.token, txs) && Surveys(s, txs)
    requires forall account :: account in scope ==> Chained(s.issuance.token, txs, account)
    requires Queried(Swept(s, start, 0, high, fate, maxRetries).db, s.issuance.id, derived, entries, scope)
    ensures report == []
  {
    hide Swept, SweepArrivals, ArriveAll, AllWritten, SameIngest, Ledger, Surveys, Queried, Chained, LinkedOnce, Integral, Unstarted;
    hide Brings, ProperHooks, DerivedOnce, ScopeArrived, Scoped;
    SweptIsReady(s, start, fate, maxRetries, high, txs, derived, entries, scope);
    ghost var scoped := Scoped(start, Swept(s, start, 0, high, fate, maxRetries).db);
    report := ReconcileIou(scoped, s.issuance, currency, issuer, txs, SweepArrivals(s, 0, fate, maxRetries), derived, entries, scope);
  }

  // ---- What a sweep finds ----

  /** Some node of the entry shows the account holding the swept token. */
  ghost predicate EntryShows(s: Survey, entry: AccountTx, account: string) {
    exists w :: w in entry.row.meta.Nodes() && NodeHolder(s.issuance.token, w) == Some(account)
  }

  lemma ShownIsFound(s: Survey, entry: AccountTx, account: string)
    ensures EntryShows(s, entry, account) <==> account in HolderSet([s.issuance], entry.row.meta)
  {
    hide NodeHolder, Finds;
    var nodes, i := entry.row.meta.Nodes(), s.issuance;
    FindsAre([i], nodes, Detected(i.id, account));
    if EntryShows(s, entry, account) {
      var w :| w in nodes && NodeHolder(i.token, w) == Some(account);
      assert i in [i] && ShowsPair([i], w, Detected(i.id, account));
    }
    if account in HolderSet([i], entry.row.meta) {
      var d :| d in Finds([i], nodes) && d.holder == account;
      FindsAre([i], nodes, d);
      var w :| w in nodes && ShowsPair([i], w, d);
    }
  }

  lemma {:induction false} BatchIsKept(s: Survey, page: nat, q: nat, tx: IngestTx)
    requires page <= q < |s.chain| && tx in Batch(s, s.chain[q])
    ensures tx in KeptFrom(s, page)
    decreases q - page
  {
    hide Batch;
    if page < q {
      BatchIsKept(s, page + 1, q, tx);
    }
  }

  /** A sweep that goes through stores every transaction on its pages that shows a holder of the token, links it to
      the issuer and that holder, and has the holder in scope from its ledger or before. */
  lemma SweepFinds(s: Survey, start: Db, fate: nat -> Fate, maxRetries: nat, high: int, q: nat, entry: AccountTx, account: string)
    requires q < |s.chain| && s.job in start.jobs && AllWritten(s, 0, fate, maxRetries)
    requires entry in s.chain[q] && EntryShows(s, entry, account)
    ensures var after := Swept(s, start, 0, high, fate, maxRetries).db;
            && entry.hash in after.transactions && (entry.hash, s.issuer) in after.links && (entry.hash, account) in after.links
            && (account != s.issuer ==> Since(after.holders, s.issuance.id, account, entry.row.ledger))
  {
    hide Swept, SweepArrivals, ArriveAll, KeptFrom, AllWritten, Mapped, HolderSet, EntryShows;
    ShownIsFound(s, entry, account);
    MappedLinks([s.issuance], s.issuer, entry);
    assert Mapped([s.issuance], s.issuer, entry).Some? by {
      assert account in HolderSet([s.issuance], entry.row.meta);
    }
    var tx := Mapped([s.issuance], s.issuer, entry).value;
    KeptIsMapped([s.issuance], s.issuer, s.chain[q], tx);
    BatchIsKept(s, 0, q, tx);
    SweepBrings(s, 0, fate, maxRetries, Arrival(tx, s.derived));
    SweepIsArrivals(s, start, 0, high, fate, maxRetries);
    ArrivalsAreStored(start, SweepArrivals(s, 0, fate, maxRetries), Arrival(tx, s.derived));
    SweptScope(s, start, 0, high, fate, maxRetries);
    assert account in tx.accounts && s.issuer in tx.accounts;
    assert account != s.issuer ==> ListsBy(s.issuer, KeptFrom(s, 0), account, entry.row.ledger);
  }

  /** And nothing else: a transaction that was not there before is on some page and shows some holder. */
  lemma SweepStoresOnlyShown(s: Survey, start: Db, fate: nat -> Fate, maxRetries: nat, high: int, h: string)
    requires 0 < |s.chain| && s.job in start.jobs && AllWritten(s, 0, fate, maxRetries)
    requires h in Swept(s, start, 0, high, fate, maxRetries).db.transactions && h !in start.transactions
    ensures exists q, entry, account :: 0 <= q < |s.chain| && entry in s.chain[q] && entry.hash == h && EntryShows(s, entry, account)
  {
    hide Swept, SweepArrivals, ArriveAll, KeptFrom, AllWritten, Mapped, HolderSet, EntryShows, KeptOf;
    var arrivals := SweepArrivals(s, 0, fate, maxRetries);
    SweepIsArrivals(s, start, 0, high, fate, maxRetries);
    ArrivedOrThere(start, arrivals, h);
    var a :| a in arrivals && a.tx.hash == h;
    SweepBrings(s, 0, fate, maxRetries, a);
    var q := KeptOnAPageOf(s, 0, a.tx);
    KeptIsMapped([s.issuance], s.issuer, s.chain[q], a.tx);
    var entry :| entry in s.chain[q] && Mapped([s.issuance], s.issuer, entry) == Some(a.tx);
    MappedLinks([s.issuance], s.issuer, entry);
    var holders := HolderSet([s.issuance], entry.row.meta);
    SomeHolder(holders);
    var account :| account in holders;
    ShownIsFound(s, entry, account);
  }

  lemma SomeHolder(holders: set<string>)
    requires holders != {}
    ensures exists a :: a in holders
  {
    assert (forall a :: a !in holders) ==> holders == {};
  }
}
