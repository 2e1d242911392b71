/** The deltas kept at ingest against batch re-derivation from what is stored
    (src/reconcile/incremental.ts:67-90, src/reconcile/deriver.ts:16-71). */
module Rederive {
  import opened Options
  import opened Ordering
  import opened Metadata
  import opened Tables
  import opened Derive

  /** One ingested transaction: its rows and, in the same database transaction, its deltas. */
  function Arrive(db: Db, tracked: seq<Issuance>, tx: IngestTx): Db {
    DeriveTx(InsertOne(db, tx), tracked, tx.hash, tx.row.meta)
  }

  /** An arrival: a transaction's rows, and the issuances its writer derives deltas for. Writers differ in
      both: a sweep derives its own issuance, the tail all that are registered by then. */
  datatype Arrival = Arrival(tx: IngestTx, hook: seq<Issuance>)

  function ArriveAll(db: Db, arrivals: seq<Arrival>): Db {
    if arrivals == [] then db
    else
      var a := arrivals[|arrivals| - 1];
      Arrive(ArriveAll(db, arrivals[..|arrivals| - 1]), a.hook, a.tx)
  }

  /** The arrivals of one writer's rows. */
  function Hooked(txs: seq<IngestTx>, hook: seq<Issuance>): (r: seq<Arrival>)
    ensures |r| == |txs| && forall k :: 0 <= k < |r| ==> r[k] == Arrival(txs[k], hook)
  {
    seq(|txs|, k requires 0 <= k < |txs| => Arrival(txs[k], hook))
  }

  function DeriveEach(db: Db, tracked: seq<Issuance>, txs: seq<IngestTx>): Db {
    if txs == [] then db
    else
      var tx := txs[|txs| - 1];
      DeriveTx(DeriveEach(db, tracked, txs[..|txs| - 1]), tracked, tx.hash, tx.row.meta)
  }

  /** A page as the sweeps commit it: all its rows, then the deltas of each row. */
  function Page(db: Db, tracked: seq<Issuance>, txs: seq<IngestTx>): Db {
    DeriveEach(InsertEach(db, txs), tracked, txs)
  }

  // ---- A page is its transactions arriving one by one ----

  lemma EnsureThenSee(t: map<string, Option<int>>, xs: set<string>, ys: set<string>, ledger: int)
    ensures SeeAccounts(EnsureAccounts(t, xs), ys, ledger) == EnsureAccounts(SeeAccounts(t, ys, ledger), xs)
  {
  }

  lemma {:induction false} InsertPastDerive(db: Db, tracked: seq<Issuance>, hash: string, meta: Meta, tx: IngestTx)
    ensures InsertOne(DeriveTx(db, tracked, hash, meta), tx) == DeriveTx(InsertOne(db, tx), tracked, hash, meta)
  {
    hide TokenDeltas, SeeAccounts, EnsureAccounts, AddressesOf, PutDeltas, PutTx, Elements, LinksOf;
    if tracked != [] {
      var front, last := tracked[..|tracked| - 1], tracked[|tracked| - 1];
      InsertPastDerive(db, front, hash, meta, tx);
      var mid := DeriveTx(db, front, hash, meta);
      EnsureThenSee(mid.accounts, AddressesOf(RowsOf(hash, TokenDeltas(last.token, meta))), Elements(tx.accounts), tx.row.ledger);
    }
  }

  lemma {:induction false} InsertPastDerives(db: Db, tracked: seq<Issuance>, txs: seq<IngestTx>, tx: IngestTx)
    ensures InsertOne(DeriveEach(db, tracked, txs), tx) == DeriveEach(InsertOne(db, tx), tracked, txs)
  {
    hide InsertOne, DeriveTx;
    if txs != [] {
      var front, last := txs[..|txs| - 1], txs[|txs| - 1];
      InsertPastDerives(db, tracked, front, tx);
      InsertPastDerive(DeriveEach(db, tracked, front), tracked, last.hash, last.row.meta, tx);
    }
  }

  lemma {:induction false} PageIsArrivals(db: Db, tracked: seq<Issuance>, txs: seq<IngestTx>)
    ensures Page(db, tracked, txs) == ArriveAll(db, Hooked(txs, tracked))
  {
    hide InsertOne, DeriveTx;
    if txs != [] {
      var front, last := txs[..|txs| - 1], txs[|txs| - 1];
      PageIsArrivals(db, tracked, front);
      assert Hooked(txs, tracked)[..|txs| - 1] == Hooked(front, tracked);
      InsertPastDerives(InsertEach(db, front), tracked, front, last);
    }
  }

  // ---- Which deltas are those of the stored blobs ----

  /** No delta of the issuance is wrong: each is one the stored metadata gives. */
  ghost predicate Faithful(db: Db, i: Issuance) {
    forall k :: k in db.deltas && k.2 == i.id ==>
      && k.0 in db.transactions && k.1 in db.accounts
      && AccountDelta(k.1, db.deltas[k]) in TokenDeltas(i.token, db.transactions[k.0].meta)
  }

  /** A transaction's deltas of the issuance are all there. */
  ghost predicate Derived(db: Db, i: Issuance, h: string, meta: Meta) {
    forall d :: d in TokenDeltas(i.token, meta) ==>
      (h, d.account, i.id) in db.deltas && db.deltas[(h, d.account, i.id)] == d.delta
  }

  /** The deltas of the issuance are exactly what the stored metadata gives. */
  ghost predicate Current(db: Db, i: Issuance) {
    Faithful(db, i) && forall h :: h in db.transactions ==> Derived(db, i, h, db.transactions[h].meta)
  }

  predicate Moves(i: Issuance, meta: Meta) {
    TokenDeltas(i.token, meta) != []
  }

  ghost predicate DistinctIds(tracked: seq<Issuance>) {
    forall i, j :: 0 <= i < j < |tracked| ==> tracked[i].id != tracked[j].id
  }

  lemma DeriveOneElsewhere(db: Db, issuance: Issuance, hash: string, meta: Meta, k: (string, string, int))
    requires k.0 != hash || k.2 != issuance.id || forall d :: d in TokenDeltas(issuance.token, meta) ==> d.account != k.1
    ensures k in DeriveOne(db, issuance, hash, meta).deltas <==> k in db.deltas
    ensures k in db.deltas ==> DeriveOne(db, issuance, hash, meta).deltas[k] == db.deltas[k]
  {
    hide TokenDeltas, PutDeltas;
    var rows := RowsOf(hash, TokenDeltas(issuance.token, meta));
    PutDeltasElsewhere(db.deltas, issuance.id, rows, k);
  }

  lemma DeriveOneAt(db: Db, issuance: Issuance, hash: string, meta: Meta, d: AccountDelta)
    requires OneDeltaPerAccount(issuance.token, meta) && d in TokenDeltas(issuance.token, meta)
    ensures var after := DeriveOne(db, issuance, hash, meta); var k := (hash, d.account, issuance.id);
            k in after.deltas && after.deltas[k] == d.delta && d.account in after.accounts
  {
    hide TokenDeltas, PutDeltas;
    var deltas := TokenDeltas(issuance.token, meta);
    var rows := RowsOf(hash, deltas);
    var i :| 0 <= i < |deltas| && deltas[i] == d;
    DistinctRows(hash, issuance.token, meta);
    assert rows[i] == DeltaRow(hash, d.account, d.delta) && rows[i] in rows;
    PutDeltasAt(db.deltas, issuance.id, rows, rows[i]);
  }

  lemma {:induction false} DeriveTxElsewhere(db: Db, tracked: seq<Issuance>, hash: string, meta: Meta, k: (string, string, int))
    requires forall issuance :: issuance in tracked && issuance.id == k.2 && k.0 == hash ==>
               forall d :: d in TokenDeltas(issuance.token, meta) ==> d.account != k.1
    ensures k in DeriveTx(db, tracked, hash, meta).deltas <==> k in db.deltas
    ensures k in db.deltas ==> DeriveTx(db, tracked, hash, meta).deltas[k] == db.deltas[k]
  {
    hide TokenDeltas, DeriveOne;
    if tracked != [] {
      var front, last := tracked[..|tracked| - 1], tracked[|tracked| - 1];
      assert last in tracked && forall i :: i in front ==> i in tracked;
      DeriveTxElsewhere(db, front, hash, meta, k);
      DeriveOneElsewhere(DeriveTx(db, front, hash, meta), last, hash, meta, k);
    }
  }

  lemma {:induction false} DeriveTxAt(db: Db, tracked: seq<Issuance>, hash: string, meta: Meta, issuance: Issuance, d: AccountDelta)
    requires DistinctIds(tracked) && OneDeltaPerAccount(issuance.token, meta)
    requires issuance in tracked && d in TokenDeltas(issuance.token, meta)
    ensures var after := DeriveTx(db, tracked, hash, meta); var k := (hash, d.account, issuance.id);
            k in after.deltas && after.deltas[k] == d.delta && d.account in after.accounts
  {
    hide TokenDeltas, DeriveOne, OneDeltaPerAccount;
    var front, last := tracked[..|tracked| - 1], tracked[|tracked| - 1];
    assert tracked == front + [last];
    assert last in tracked;
    var mid := DeriveTx(db, front, hash, meta);
    if issuance == last {
      DeriveOneAt(mid, last, hash, meta, d);
    } else {
      assert issuance in front;
      DeriveTxAt(db, front, hash, meta, issuance, d);
      var i :| 0 <= i < |front| && front[i] == issuance;
      assert tracked[i].id != tracked[|tracked| - 1].id;
      DeriveOneElsewhere(mid, last, hash, meta, (hash, d.account, issuance.id));
      DeriveOneKeeps(mid, last, hash, meta);
    }
  }

  lemma DeriveOneKeeps(db: Db, issuance: Issuance, hash: string, meta: Meta)
    ensures var after := DeriveOne(db, issuance, hash, meta);
            after.transactions == db.transactions && after.links == db.links && db.accounts.Keys <= after.accounts.Keys
  {
  }

  lemma {:induction false} DeriveTxKeeps(db: Db, tracked: seq<Issuance>, hash: string, meta: Meta)
    ensures var after := DeriveTx(db, tracked, hash, meta);
            after.transactions == db.transactions && after.links == db.links && db.accounts.Keys <= after.accounts.Keys
  {
    hide DeriveOne;
    if tracked != [] {
      DeriveTxKeeps(db, tracked[..|tracked| - 1], hash, meta);
      DeriveOneKeeps(DeriveTx(db, tracked[..|tracked| - 1], hash, meta), tracked[|tracked| - 1], hash, meta);
    }
  }

  lemma SeeKeeps(t: map<string, Option<int>>, xs: set<string>, ledger: int)
    ensures t.Keys <= SeeAccounts(t, xs, ledger).Keys
  {
  }

  /** What is known of an arrival: its row is of the ledger's transaction, its hook names each issuance once and
      the one in question as it is registered, and if it derives that one its metadata moves no account of it twice. */
  ghost predicate Proper(rows: string -> TxRow, i: Issuance, a: Arrival) {
    && SameRecord(a.tx.row, rows(a.tx.hash)) && DistinctIds(a.hook) && (i in a.hook ==> OneDeltaPerAccount(i.token, a.tx.row.meta))
    && forall o :: o in a.hook && o.id == i.id ==> o == i
  }

  /** Stored rows are of the ledger's transactions. */
  ghost predicate Copied(rows: string -> TxRow, db: Db) {
    forall h :: h in db.transactions ==> SameRecord(db.transactions[h], rows(h))
  }

  lemma ArriveStores(db: Db, a: Arrival)
    ensures var after := Arrive(db, a.hook, a.tx);
            && after.transactions == PutTx(db.transactions, a.tx) && db.accounts.Keys <= after.accounts.Keys
  {
    hide DeriveTx, SeeAccounts, LinksOf, Elements;
    DeriveTxKeeps(InsertOne(db, a.tx), a.hook, a.tx.hash, a.tx.row.meta);
    SeeKeeps(db.accounts, Elements(a.tx.accounts), a.tx.row.ledger);
  }

  /** An arrival whose hook lacks the issuance, or of another transaction, leaves a transaction's deltas of
      the issuance as they were. */
  lemma ArriveElsewhere(db: Db, i: Issuance, a: Arrival, k: (string, string, int))
    requires k.2 == i.id && (k.0 != a.tx.hash || forall o :: o in a.hook ==> o.id != i.id)
    ensures k in Arrive(db, a.hook, a.tx).deltas <==> k in db.deltas
    ensures k in db.deltas ==> Arrive(db, a.hook, a.tx).deltas[k] == db.deltas[k]
  {
    hide TokenDeltas, DeriveTx;
    DeriveTxElsewhere(InsertOne(db, a.tx), a.hook, a.tx.hash, a.tx.row.meta, k);
  }

  /** An arrival whose hook has it leaves them all there. */
  lemma ArriveDerives(db: Db, i: Issuance, a: Arrival)
    requires i in a.hook && DistinctIds(a.hook) && OneDeltaPerAccount(i.token, a.tx.row.meta)
    ensures Derived(Arrive(db, a.hook, a.tx), i, a.tx.hash, a.tx.row.meta)
  {
    hide TokenDeltas, DeriveTx, DistinctIds, OneDeltaPerAccount, InsertOne;
    forall d | d in TokenDeltas(i.token, a.tx.row.meta)
      ensures (a.tx.hash, d.account, i.id) in Arrive(db, a.hook, a.tx).deltas
      ensures Arrive(db, a.hook, a.tx).deltas[(a.tx.hash, d.account, i.id)] == d.delta
    {
      DeriveTxAt(InsertOne(db, a.tx), a.hook, a.tx.hash, a.tx.row.meta, i, d);
    }
  }

  lemma ArriveStaysFaithful(db: Db, i: Issuance, a: Arrival, rows: string -> TxRow)
    requires Faithful(db, i) && Copied(rows, db) && Proper(rows, i, a)
    ensures Faithful(Arrive(db, a.hook, a.tx), i) && Copied(rows, Arrive(db, a.hook, a.tx))
  {
    hide TokenDeltas, DeriveTx, DistinctIds, OneDeltaPerAccount, InsertOne;
    var mid, after, meta := InsertOne(db, a.tx), Arrive(db, a.hook, a.tx), a.tx.row.meta;
    ArriveStores(db, a);
    forall k | k in after.deltas && k.2 == i.id
      ensures k.0 in after.transactions && k.1 in after.accounts
      ensures AccountDelta(k.1, after.deltas[k]) in TokenDeltas(i.token, after.transactions[k.0].meta)
    {
      if k.0 == a.tx.hash && i in a.hook && exists d :: d in TokenDeltas(i.token, meta) && d.account == k.1 {
        var d :| d in TokenDeltas(i.token, meta) && d.account == k.1;
        DeriveTxAt(mid, a.hook, a.tx.hash, meta, i, d);
      } else {
        DeriveTxElsewhere(mid, a.hook, a.tx.hash, meta, k);
        InsertKeepsDeltas(db, a.tx);
      }
    }
  }

  lemma InsertKeepsDeltas(db: Db, tx: IngestTx)
    ensures InsertOne(db, tx).deltas == db.deltas
  {
  }

  /** Some arrival of the transaction came with the issuance in its writer's hook. */
  ghost predicate ArrivedWith(arrivals: seq<Arrival>, h: string, i: Issuance) {
    exists a :: a in arrivals && a.tx.hash == h && i in a.hook
  }

  ghost predicate Arrived(arrivals: seq<Arrival>, h: string) {
    exists a :: a in arrivals && a.tx.hash == h
  }

  ghost predicate AllProper(rows: string -> TxRow, i: Issuance, arrivals: seq<Arrival>) {
    forall a :: a in arrivals ==> Proper(rows, i, a)
  }

  /** After any arrivals - sweeps, workers, tail and heals in any interleaving, each with its own hook - no
      delta is wrong, and a transaction's deltas of the issuance are there if and only if they were before,
      or it arrived at least once with the issuance in the hook (or it moves none of it). */
  lemma {:induction false} DerivedExactlyWhen(db: Db, arrivals: seq<Arrival>, i: Issuance, rows: string -> TxRow, h: string)
    requires Faithful(db, i) && Copied(rows, db) && AllProper(rows, i, arrivals)
    ensures var after := ArriveAll(db, arrivals);
            && Faithful(after, i) && Copied(rows, after)
            && (h in after.transactions <==> h in db.transactions || Arrived(arrivals, h))
            && (Derived(after, i, h, rows(h).meta) <==>
                Derived(db, i, h, rows(h).meta) || ArrivedWith(arrivals, h, i))
  {
    hide Faithful, Copied, Derived, Arrive, Proper;
    if arrivals != [] {
      var front, last := arrivals[..|arrivals| - 1], arrivals[|arrivals| - 1];
      assert arrivals == front + [last];
      assert last in arrivals && forall a :: a in front ==> a in arrivals;
      DerivedExactlyWhen(db, front, i, rows, h);
      var mid := ArriveAll(db, front);
      ArriveStaysFaithful(mid, i, last, rows);
      ArriveStores(mid, last);
      OneMoreArrival(mid, i, last, rows, h);
      if Arrived(front, h) {
        var a :| a in front && a.tx.hash == h;
        assert a in arrivals;
      }
      if ArrivedWith(front, h, i) {
        var a :| a in front && a.tx.hash == h && i in a.hook;
        assert a in arrivals;
      }
    }
  }

  lemma OneMoreArrival(db: Db, i: Issuance, a: Arrival, rows: string -> TxRow, h: string)
    requires Proper(rows, i, a)
    ensures Derived(Arrive(db, a.hook, a.tx), i, h, rows(h).meta) <==>
            Derived(db, i, h, rows(h).meta) || (a.tx.hash == h && i in a.hook)
  {
    hide TokenDeltas, Arrive, DistinctIds, OneDeltaPerAccount;
    if a.tx.hash == h && i in a.hook {
      ArriveDerives(db, i, a);
    } else {
      forall d | d in TokenDeltas(i.token, rows(h).meta)
        ensures var k, after := (h, d.account, i.id), Arrive(db, a.hook, a.tx).deltas;
                (k in after <==> k in db.deltas) && (k in db.deltas ==> after[k] == db.deltas[k])
      {
        ArriveElsewhere(db, i, a, (h, d.account, i.id));
      }
    }
  }

  /** So the delta table is current exactly when each stored transaction that moves the issuance had its
      deltas before or arrived with it in the hook. */
  lemma CurrentExactlyWhen(db: Db, arrivals: seq<Arrival>, i: Issuance, rows: string -> TxRow)
    requires Faithful(db, i) && Copied(rows, db) && AllProper(rows, i, arrivals)
    ensures Current(ArriveAll(db, arrivals), i) <==>
            forall h :: h in ArriveAll(db, arrivals).transactions && Moves(i, rows(h).meta) ==>
              Derived(db, i, h, rows(h).meta) || ArrivedWith(arrivals, h, i)
  {
    hide Faithful, ArriveAll, Proper, ArrivedWith, AllProper;
    var after := ArriveAll(db, arrivals);
    DerivedExactlyWhen(db, arrivals, i, rows, "");
    forall h | h in after.transactions
      ensures Derived(after, i, h, after.transactions[h].meta) <==>
              !Moves(i, rows(h).meta) || Derived(db, i, h, rows(h).meta) || ArrivedWith(arrivals, h, i)
    {
      DerivedExactlyWhen(db, arrivals, i, rows, h);
    }
  }

  // ---- Batch re-derivation ----

  /** The transactions linked to an account in scope for the issuance. */
  function InScopeHashes(db: Db, id: int): set<string> {
    set l | l in db.links && (l.1, id) in db.holders :: l.0
  }

  function BatchRows(db: Db, token: Token, hashes: seq<string>): seq<DeltaRow>
    requires forall h :: h in hashes ==> h in db.transactions
  {
    if hashes == [] then []
    else
      var h := hashes[|hashes| - 1];
      BatchRows(db, token, hashes[..|hashes| - 1]) + RowsOf(h, TokenDeltas(token, db.transactions[h].meta))
  }

  ghost predicate Distinct(hashes: seq<string>) {
    forall i, j :: 0 <= i < j < |hashes| ==> hashes[i] != hashes[j]
  }

  /** The rows of a batch, by transaction and account. */
  lemma {:induction false} BatchRowsAre(db: Db, token: Token, hashes: seq<string>)
    requires forall h :: h in hashes ==> h in db.transactions
    ensures forall r :: r in BatchRows(db, token, hashes) <==>
              r.hash in hashes && AccountDelta(r.address, r.delta) in TokenDeltas(token, db.transactions[r.hash].meta)
  {
    hide TokenDeltas;
    if hashes != [] {
      var front, last := hashes[..|hashes| - 1], hashes[|hashes| - 1];
      assert hashes == front + [last];
      BatchRowsAre(db, token, front);
      var more := RowsOf(last, TokenDeltas(token, db.transactions[last].meta));
      forall r ensures r in more <==> r.hash == last && AccountDelta(r.address, r.delta) in TokenDeltas(token, db.transactions[last].meta) {
        if AccountDelta(r.address, r.delta) in TokenDeltas(token, db.transactions[last].meta) && r.hash == last {
          var deltas := TokenDeltas(token, db.transactions[last].meta);
          var i :| 0 <= i < |deltas| && deltas[i] == AccountDelta(r.address, r.delta);
          assert more[i] == r;
        }
      }
    }
  }

  lemma {:induction false} BatchRowsDistinct(db: Db, token: Token, hashes: seq<string>)
    requires Distinct(hashes) && forall h :: h in hashes ==> h in db.transactions && OneDeltaPerAccount(token, db.transactions[h].meta)
    ensures DistinctOn(BatchRows(db, token, hashes), DeltaKey)
  {
    hide TokenDeltas, OneDeltaPerAccount;
    if hashes != [] {
      var front, last := hashes[..|hashes| - 1], hashes[|hashes| - 1];
      assert last in hashes && forall h :: h in front ==> h in hashes;
      assert last !in front;
      BatchRowsDistinct(db, token, front);
      BatchRowsAre(db, token, front);
      var rows, more := BatchRows(db, token, front), RowsOf(last, TokenDeltas(token, db.transactions[last].meta));
      DistinctRows(last, token, db.transactions[last].meta);
      JoinDistinct(rows, more, last);
    }
  }

  lemma JoinDistinct(rows: seq<DeltaRow>, more: seq<DeltaRow>, hash: string)
    requires DistinctOn(rows, DeltaKey) && DistinctOn(more, DeltaKey)
    requires (forall r :: r in rows ==> r.hash != hash) && (forall r :: r in more ==> r.hash == hash)
    ensures DistinctOn(rows + more, DeltaKey)
  {
  }

  method CollectRows(db: Db, token: Token, hashes: seq<string>) returns (rows: seq<DeltaRow>)
    requires forall h :: h in hashes ==> h in db.transactions
    ensures rows == BatchRows(db, token, hashes)
  {
    hide TokenDeltas;
    rows := [];
    var i := 0;
    while i < |hashes|
      invariant 0 <= i <= |hashes|
      invariant rows == BatchRows(db, token, hashes[..i])
    {
      var h := hashes[i];
      assert hashes[..i + 1][..i] == hashes[..i];
      var deltas := DeriveToken(token, db.transactions[h].meta);
      rows := rows + RowsOf(h, deltas);
      i := i + 1;
    }
    assert hashes[..i] == hashes;
  }

  /** Re-derive an issuance's deltas from the stored metadata of its in-scope transactions, given as
      the query returns them: each once, in any order. Where the delta writer refuses them nothing changes. */
  method DeriveBatch(a: Archive, issuance: Issuance, hashes: seq<string>) returns (ok: bool, count: nat)
    requires Distinct(hashes) && (forall h :: h in hashes <==> h in InScopeHashes(a.Contents(), issuance.id))
    requires forall h :: h in hashes ==> h in a.transactions
    modifies a`accounts, a`deltas
    ensures var before := old(a.Contents()); var rows := BatchRows(before, issuance.token, hashes);
            && (ok <==> !Refuses(rows)) && count == (if ok then |rows| else 0)
            && a.Contents() == if ok then AddDeltas(before, issuance.id, rows) else before
    ensures (forall h :: h in hashes ==> OneDeltaPerAccount(issuance.token, old(a.transactions)[h].meta)) ==> ok
  {
    hide TokenDeltas, OneDeltaPerAccount, AddDeltas, InScopeHashes, Distinct, DistinctOn, BatchRows, Refuses;
    var rows := CollectRows(a.Contents(), issuance.token, hashes);
    if forall h :: h in hashes ==> OneDeltaPerAccount(issuance.token, a.transactions[h].meta) {
      BatchRowsDistinct(a.Contents(), issuance.token, hashes);
      RefusedExactlyWhen(rows);
    }
    var locks;
    ok, locks := InsertDeltasMany(a, issuance.id, rows);
    count := if ok then |rows| else 0;
  }

  lemma {:induction false} PutKnownRows(t: map<(string, string, int), real>, id: int, rows: seq<DeltaRow>)
    requires forall r :: r in rows ==> (r.hash, r.address, id) in t && t[(r.hash, r.address, id)] == r.delta
    ensures PutDeltas(t, id, rows) == t
  {
    if rows != [] {
      assert rows[|rows| - 1] in rows && forall r :: r in rows[..|rows| - 1] ==> r in rows;
      PutKnownRows(t, id, rows[..|rows| - 1]);
    }
  }

  /** Re-deriving an issuance over some stored transactions changes nothing if and only if the deltas of all
      of them are there. */
  lemma RederiveChangesNothingExactlyWhen(db: Db, i: Issuance, hashes: seq<string>)
    requires Faithful(db, i) && Distinct(hashes)
    requires forall h :: h in hashes ==> h in db.transactions && OneDeltaPerAccount(i.token, db.transactions[h].meta)
    ensures AddDeltas(db, i.id, BatchRows(db, i.token, hashes)) == db <==>
            forall h :: h in hashes ==> Derived(db, i, h, db.transactions[h].meta)
  {
    hide TokenDeltas, PutDeltas, BatchRows, Distinct, OneDeltaPerAccount, Derived, DistinctOn;
    var rows := BatchRows(db, i.token, hashes);
    var after := AddDeltas(db, i.id, rows);
    RederiveDerives(db, i, hashes);
    if forall h :: h in hashes ==> Derived(db, i, h, db.transactions[h].meta) {
      BatchRowsAre(db, i.token, hashes);
      forall r | r in rows
        ensures (r.hash, r.address, i.id) in db.deltas && db.deltas[(r.hash, r.address, i.id)] == r.delta
        ensures r.address in db.accounts
      {
        DerivedHas(db, i, r.hash, db.transactions[r.hash].meta, AccountDelta(r.address, r.delta));
      }
      PutKnownRows(db.deltas, i.id, rows);
      assert EnsureAccounts(db.accounts, AddressesOf(rows)) == db.accounts;
    }
  }

  lemma DerivedHas(db: Db, i: Issuance, h: string, meta: Meta, d: AccountDelta)
    requires Derived(db, i, h, meta) && d in TokenDeltas(i.token, meta)
    ensures (h, d.account, i.id) in db.deltas && db.deltas[(h, d.account, i.id)] == d.delta
  {
  }

  /** And it repairs: afterwards all of them are there, and still none is wrong. */
  lemma RederiveDerives(db: Db, i: Issuance, hashes: seq<string>)
    requires Faithful(db, i) && Distinct(hashes)
    requires forall h :: h in hashes ==> h in db.transactions && OneDeltaPerAccount(i.token, db.transactions[h].meta)
    ensures var after := AddDeltas(db, i.id, BatchRows(db, i.token, hashes));
            Faithful(after, i) && forall h :: h in hashes ==> Derived(after, i, h, db.transactions[h].meta)
  {
    hide TokenDeltas, PutDeltas, BatchRows, Distinct, OneDeltaPerAccount, DistinctOn;
    var rows := BatchRows(db, i.token, hashes);
    var after := AddDeltas(db, i.id, rows);
    BatchRowsAre(db, i.token, hashes);
    BatchRowsDistinct(db, i.token, hashes);
    forall h, d | h in hashes && d in TokenDeltas(i.token, db.transactions[h].meta)
      ensures (h, d.account, i.id) in after.deltas && after.deltas[(h, d.account, i.id)] == d.delta
    {
      var r := DeltaRow(h, d.account, d.delta);
      assert r in rows;
      PutDeltasAt(db.deltas, i.id, rows, r);
    }
    forall k | k in after.deltas && k.2 == i.id
      ensures k.0 in db.transactions && k.1 in after.accounts
      ensures AccountDelta(k.1, after.deltas[k]) in TokenDeltas(i.token, db.transactions[k.0].meta)
    {
      if r :| r in rows && (r.hash, r.address) == (k.0, k.1) {
        PutDeltasAt(db.deltas, i.id, rows, r);
      } else {
        PutDeltasElsewhere(db.deltas, i.id, rows, k);
      }
    }
  }

  /** Deriving an issuance from nothing gives the current table, as soon as every stored transaction that
      moves the token is among those read. */
  lemma DeriveFromNothingIsCurrent(db: Db, i: Issuance, hashes: seq<string>)
    requires Distinct(hashes) && forall k :: k in db.deltas ==> k.2 != i.id
    requires forall h :: h in hashes ==> h in db.transactions && OneDeltaPerAccount(i.token, db.transactions[h].meta)
    ensures Current(AddDeltas(db, i.id, BatchRows(db, i.token, hashes)), i) <==>
            forall h :: h in db.transactions && Moves(i, db.transactions[h].meta) ==> h in hashes
  {
    hide TokenDeltas, PutDeltas, BatchRows, Distinct, OneDeltaPerAccount;
    RederiveDerives(db, i, hashes);
    var rows := BatchRows(db, i.token, hashes);
    var after := AddDeltas(db, i.id, rows);
    BatchRowsAre(db, i.token, hashes);
    forall h | h in db.transactions && Moves(i, db.transactions[h].meta) && h !in hashes
      ensures !Derived(after, i, h, db.transactions[h].meta)
    {
      var d := TokenDeltas(i.token, db.transactions[h].meta)[0];
      assert d in TokenDeltas(i.token, db.transactions[h].meta);
      PutDeltasElsewhere(db.deltas, i.id, rows, (h, d.account, i.id));
    }
  }
}
