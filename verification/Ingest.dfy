/** What ingesting the same transactions again, or in another order, does to the archive. */
module Ingest {
  import opened Options
  import opened Ordering
  import opened Tables
  import opened Writers
  import opened BatchWriter

  /** Everything inserting `tx` would write is in the archive already. */
  ghost predicate Absorbed(db: Db, tx: IngestTx) {
    && tx.hash in db.transactions
    && (forall a :: a in tx.accounts ==>
          a in db.accounts && db.accounts[a].Some? && db.accounts[a].value <= tx.row.ledger && (tx.hash, a) in db.links)
  }

  lemma InsertAbsorbs(db: Db, tx: IngestTx)
    ensures Absorbed(InsertOne(db, tx), tx)
  {
  }

  lemma AbsorbedStays(db: Db, tx: IngestTx, other: IngestTx)
    requires Absorbed(db, tx)
    ensures Absorbed(InsertOne(db, other), tx)
  {
  }

  lemma AbsorbedChangesNothing(db: Db, tx: IngestTx)
    requires Absorbed(db, tx)
    ensures InsertOne(db, tx) == db
  {
    var after := InsertOne(db, tx);
    assert after.accounts == db.accounts;
    assert after.links == db.links;
  }

  lemma {:induction false} EachAbsorbs(db: Db, txs: seq<IngestTx>, tx: IngestTx)
    requires tx in txs || Absorbed(db, tx)
    ensures Absorbed(InsertEach(db, txs), tx)
  {
    hide InsertOne, Absorbed;
    if txs != [] {
      var front, last := txs[..|txs| - 1], txs[|txs| - 1];
      assert txs == front + [last];
      if tx in front || Absorbed(db, tx) {
        EachAbsorbs(db, front, tx);
        AbsorbedStays(InsertEach(db, front), tx, last);
      } else {
        InsertAbsorbs(InsertEach(db, front), last);
      }
    }
  }

  lemma {:induction false} AllAbsorbedChangesNothing(db: Db, txs: seq<IngestTx>)
    requires forall tx :: tx in txs ==> Absorbed(db, tx)
    ensures InsertEach(db, txs) == db
  {
    hide InsertOne, Absorbed;
    if txs != [] {
      assert forall tx :: tx in txs[..|txs| - 1] ==> tx in txs;
      AllAbsorbedChangesNothing(db, txs[..|txs| - 1]);
      assert txs[|txs| - 1] in txs;
      AbsorbedChangesNothing(db, txs[|txs| - 1]);
    }
  }

  /** Ingesting again any of the transactions already ingested, in any order, changes nothing. */
  lemma ReingestChangesNothing(db: Db, txs: seq<IngestTx>, again: seq<IngestTx>)
    requires forall tx :: tx in again ==> tx in txs
    ensures InsertEach(InsertEach(db, txs), again) == InsertEach(db, txs)
  {
    hide InsertEach, Absorbed;
    forall tx | tx in again ensures Absorbed(InsertEach(db, txs), tx) {
      EachAbsorbs(db, txs, tx);
    }
    AllAbsorbedChangesNothing(InsertEach(db, txs), again);
  }

  /** Equal hashes carry equal payloads. */
  ghost predicate Agree(x: IngestTx, y: IngestTx) {
    x.hash == y.hash ==> x.row == y.row
  }

  lemma LeastSwaps(a: Option<int>, m: int, n: int)
    ensures Least(Least(a, Some(m)), Some(n)) == Least(Least(a, Some(n)), Some(m))
  {
  }

  lemma SeeCommutes(t: map<string, Option<int>>, xs: set<string>, m: int, ys: set<string>, n: int)
    ensures SeeAccounts(SeeAccounts(t, xs, m), ys, n) == SeeAccounts(SeeAccounts(t, ys, n), xs, m)
  {
    hide Least;
    forall a | a in t.Keys + xs + ys
      ensures SeeAccounts(SeeAccounts(t, xs, m), ys, n)[a] == SeeAccounts(SeeAccounts(t, ys, n), xs, m)[a]
    {
      LeastSwaps(Lookup(t, a), m, n);
    }
  }

  lemma InsertCommutes(db: Db, x: IngestTx, y: IngestTx)
    requires Agree(x, y)
    ensures InsertOne(InsertOne(db, x), y) == InsertOne(InsertOne(db, y), x)
  {
    hide SeeAccounts, Elements, LinksOf;
    SeeCommutes(db.accounts, Elements(x.accounts), x.row.ledger, Elements(y.accounts), y.row.ledger);
    assert PutTx(PutTx(db.transactions, x), y) == PutTx(PutTx(db.transactions, y), x);
    var lx, ly := LinksOf(x.hash, Elements(x.accounts)), LinksOf(y.hash, Elements(y.accounts));
    assert db.links + lx + ly == db.links + ly + lx;
  }

  lemma {:induction false} InsertPast(db: Db, xs: seq<IngestTx>, y: IngestTx)
    requires forall x :: x in xs ==> Agree(x, y)
    ensures InsertOne(InsertEach(db, xs), y) == InsertEach(InsertOne(db, y), xs)
  {
    hide InsertOne, Agree;
    if xs != [] {
      var front, last := xs[..|xs| - 1], xs[|xs| - 1];
      assert last in xs && forall x :: x in front ==> x in xs;
      InsertPast(db, front, y);
      InsertCommutes(InsertEach(db, front), last, y);
    }
  }

  lemma {:induction false} EachCommutes(db: Db, xs: seq<IngestTx>, ys: seq<IngestTx>)
    requires forall x, y :: x in xs && y in ys ==> Agree(x, y)
    ensures InsertEach(InsertEach(db, xs), ys) == InsertEach(InsertEach(db, ys), xs)
  {
    hide InsertOne, Agree;
    if ys != [] {
      var front, last := ys[..|ys| - 1], ys[|ys| - 1];
      assert last in ys && forall y :: y in front ==> y in ys;
      EachCommutes(db, xs, front);
      InsertPast(InsertEach(db, front), xs, last);
    }
  }

  /** The archive depends only on which transactions arrived: not on the order, nor on how often. */
  lemma AnyOrderAnyRepetition(db: Db, xs: seq<IngestTx>, ys: seq<IngestTx>)
    requires forall tx :: tx in xs <==> tx in ys
    requires forall x, y :: x in xs && y in xs ==> Agree(x, y)
    ensures InsertEach(db, xs) == InsertEach(db, ys)
  {
    hide InsertEach, Agree;
    EachCommutes(db, xs, ys);
    ReingestChangesNothing(db, xs, ys);
    ReingestChangesNothing(db, ys, xs);
  }

  // ---- Up to the columns that differ with every fetch ----

  function Bare(tx: IngestTx): IngestTx {
    tx.(row := tx.row.(payload := ""))
  }

  function BareAll(txs: seq<IngestTx>): (r: seq<IngestTx>)
    ensures |r| == |txs| && forall i :: 0 <= i < |r| ==> r[i] == Bare(txs[i])
  {
    seq(|txs|, i requires 0 <= i < |txs| => Bare(txs[i]))
  }

  function BareDb(db: Db): Db {
    db.(transactions := map h | h in db.transactions :: db.transactions[h].(payload := ""))
  }

  lemma {:induction false} InsertBare(db: Db, txs: seq<IngestTx>)
    ensures BareDb(InsertEach(db, txs)) == InsertEach(BareDb(db), BareAll(txs))
  {
    hide InsertOne, BareDb;
    if txs == [] {
      assert BareAll(txs) == [];
    } else {
      var front, last := txs[..|txs| - 1], txs[|txs| - 1];
      InsertBare(db, front);
      assert BareAll(txs)[..|txs| - 1] == BareAll(front);
      InsertOneBare(InsertEach(db, front), last);
    }
  }

  lemma InsertOneBare(db: Db, tx: IngestTx)
    ensures BareDb(InsertOne(db, tx)) == InsertOne(BareDb(db), Bare(tx))
  {
    hide SeeAccounts, Elements, LinksOf;
    assert BareDb(InsertOne(db, tx)).transactions == InsertOne(BareDb(db), Bare(tx)).transactions;
  }

  /** Two fetches of one transaction agree in its ledger and metadata only. But for the other columns the archive
      depends only on which transactions arrived, and with which accounts. */
  lemma AnyOrderAnyFetch(db: Db, xs: seq<IngestTx>, ys: seq<IngestTx>)
    requires forall tx :: tx in BareAll(xs) <==> tx in BareAll(ys)
    requires forall x, y :: x in xs && y in xs && x.hash == y.hash ==> SameRecord(x.row, y.row)
    ensures BareDb(InsertEach(db, xs)) == BareDb(InsertEach(db, ys))
  {
    hide InsertEach;
    forall x, y | x in BareAll(xs) && y in BareAll(xs) ensures Agree(x, y) {
      var i :| 0 <= i < |xs| && BareAll(xs)[i] == x;
      var j :| 0 <= j < |xs| && BareAll(xs)[j] == y;
      assert xs[i] in xs && xs[j] in xs;
    }
    InsertBare(db, xs);
    InsertBare(db, ys);
    AnyOrderAnyRepetition(BareDb(db), BareAll(xs), BareAll(ys));
  }

  /** Without that hypothesis the order matters: the first payload of a hash wins. */
  lemma {:induction false} FirstPayloadWins(db: Db, txs: seq<IngestTx>, i: int)
    requires 0 <= i < |txs| && txs[i].hash !in db.transactions
    requires forall k :: 0 <= k < i ==> txs[k].hash != txs[i].hash
    ensures txs[i].hash in InsertEach(db, txs).transactions
    ensures InsertEach(db, txs).transactions[txs[i].hash] == txs[i].row
  {
    hide InsertEach;
    EachTable(db, txs);
    PutFirst(db.transactions, txs, i);
  }

  lemma {:induction false} PutFirst(t: map<string, TxRow>, txs: seq<IngestTx>, i: int)
    requires 0 <= i < |txs| && txs[i].hash !in t
    requires forall k :: 0 <= k < i ==> txs[k].hash != txs[i].hash
    ensures txs[i].hash in PutTxs(t, txs) && PutTxs(t, txs)[txs[i].hash] == txs[i].row
  {
    if i < |txs| - 1 {
      PutFirst(t, txs[..|txs| - 1], i);
    } else {
      PutTxsLookup(t, txs[..i], txs[i].hash);
    }
  }

  /** Each account ends with the earliest ledger any source gave, NULLs ignored. */
  lemma {:induction false} EarliestWins(db: Db, txs: seq<IngestTx>, a: string)
    ensures var after := InsertEach(db, txs).accounts;
            && (a in after <==> a in db.accounts || exists i :: 0 <= i < |txs| && a in txs[i].accounts)
            && (forall i :: 0 <= i < |txs| && a in txs[i].accounts ==>
                  a in after && after[a].Some? && after[a].value <= txs[i].row.ledger)
            && (a in db.accounts && db.accounts[a].Some? ==>
                  a in after && after[a].Some? && after[a].value <= db.accounts[a].value)
            && (a in after && after[a].Some? ==>
                  Lookup(db.accounts, a) == after[a] ||
                  exists i :: 0 <= i < |txs| && a in txs[i].accounts && after[a] == Some(txs[i].row.ledger))
  {
    hide InsertOne;
    if txs != [] {
      var front, last := txs[..|txs| - 1], txs[|txs| - 1];
      EarliestWins(db, front, a);
      SeenOnce(InsertEach(db, front), last, a);
      assert forall i :: 0 <= i < |front| ==> front[i] == txs[i];
      if a in last.accounts {
        assert a in txs[|front|].accounts;
      }
    }
  }

  lemma SeenOnce(db: Db, tx: IngestTx, a: string)
    ensures var after := InsertOne(db, tx).accounts;
            && (a !in tx.accounts ==> (a in after <==> a in db.accounts) && (a in after ==> after[a] == db.accounts[a]))
            && (a in tx.accounts ==> a in after && after[a] == Least(Lookup(db.accounts, a), Some(tx.row.ledger)))
  {
  }

  /** The links are exactly those there were and one for each account that each transaction lists. */
  lemma {:induction false} LinksAreListed(db: Db, txs: seq<IngestTx>, l: (string, string))
    ensures l in InsertEach(db, txs).links <==>
            l in db.links || exists i :: 0 <= i < |txs| && txs[i].hash == l.0 && l.1 in txs[i].accounts
  {
    hide PutTx, SeeAccounts;
    if txs != [] {
      var front, last := txs[..|txs| - 1], txs[|txs| - 1];
      LinksAreListed(db, front, l);
      assert forall i :: 0 <= i < |front| ==> front[i] == txs[i];
      if last.hash == l.0 && l.1 in last.accounts {
        assert txs[|front|] == last;
      }
    }
  }

  /** Ingest never leaves a dangling reference. */
  lemma {:induction false} EachKeepsForeignKeys(db: Db, txs: seq<IngestTx>)
    requires ForeignKeys(db)
    ensures ForeignKeys(InsertEach(db, txs))
  {
    if txs != [] {
      EachKeepsForeignKeys(db, txs[..|txs| - 1]);
    }
  }
}
