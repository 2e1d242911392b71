/** What arrivals do to the archive: sweeps, workers, tail and heals all come down to them. */
module Arrivals {
  import opened Options
  import opened Metadata
  import opened Tables
  import opened Ingest
  import opened Derive
  import opened Rederive

  // ---- What a page's rows do to the rest ----

  /** Deriving deltas adds accounts and deltas and touches nothing else. */
  ghost predicate OnlyDerives(before: Db, after: Db) {
    && after == before.(accounts := after.accounts, deltas := after.deltas)
    && forall a :: a in before.accounts ==> a in after.accounts && after.accounts[a] == before.accounts[a]
  }

  lemma {:induction false} DeriveTxOnly(db: Db, tracked: seq<Issuance>, hash: string, meta: Meta)
    ensures OnlyDerives(db, DeriveTx(db, tracked, hash, meta))
  {
    hide TokenDeltas, PutDeltas, AddressesOf;
    if tracked != [] {
      DeriveTxOnly(db, tracked[..|tracked| - 1], hash, meta);
    }
  }

  lemma {:induction false} DeriveEachOnly(db: Db, tracked: seq<Issuance>, txs: seq<IngestTx>)
    ensures OnlyDerives(db, DeriveEach(db, tracked, txs))
  {
    hide DeriveTx;
    if txs != [] {
      var last := txs[|txs| - 1];
      DeriveEachOnly(db, tracked, txs[..|txs| - 1]);
      DeriveTxOnly(DeriveEach(db, tracked, txs[..|txs| - 1]), tracked, last.hash, last.row.meta);
    }
  }

  lemma {:induction false} InsertEachOnly(db: Db, txs: seq<IngestTx>)
    ensures var after := InsertEach(db, txs);
            after == db.(transactions := after.transactions, accounts := after.accounts, links := after.links)
  {
    if txs != [] {
      InsertEachOnly(db, txs[..|txs| - 1]);
    }
  }

  lemma AbsorbedAfterDerive(before: Db, after: Db, tx: IngestTx)
    requires OnlyDerives(before, after) && Absorbed(before, tx)
    ensures Absorbed(after, tx)
  {
  }

  ghost predicate Stored(db: Db, txs: seq<IngestTx>) {
    forall tx :: tx in txs ==> Absorbed(db, tx)
  }

  /** A page's rows leave the jobs, the claims and the scope alone. */
  lemma PageFrame(db: Db, tracked: seq<Issuance>, txs: seq<IngestTx>)
    ensures Page(db, tracked, txs).jobs == db.jobs && Page(db, tracked, txs).coverage == db.coverage
    ensures Page(db, tracked, txs).holders == db.holders
  {
    hide InsertEach, DeriveEach;
    InsertEachOnly(db, txs);
    DeriveEachOnly(InsertEach(db, txs), tracked, txs);
  }

  /** What was stored stays stored, and the page's own rows are stored now. */
  lemma PageStores(db: Db, tracked: seq<Issuance>, txs: seq<IngestTx>, known: seq<IngestTx>)
    requires Stored(db, known)
    ensures Stored(Page(db, tracked, txs), known + txs)
  {
    hide InsertEach, DeriveEach, Absorbed, OnlyDerives;
    var mid := InsertEach(db, txs);
    DeriveEachOnly(mid, tracked, txs);
    forall tx | tx in known + txs ensures Absorbed(Page(db, tracked, txs), tx) {
      EachAbsorbs(db, txs, tx);
      AbsorbedAfterDerive(mid, Page(db, tracked, txs), tx);
    }
  }

  lemma ArriveIsPage(db: Db, a: Arrival)
    ensures Arrive(db, a.hook, a.tx) == Page(db, a.hook, [a.tx])
  {
    hide Arrive, Page;
    PageIsArrivals(db, a.hook, [a.tx]);
    var one := Hooked([a.tx], a.hook);
    assert one[..0] == [] && one[0] == a;
    assert ArriveAll(db, one) == Arrive(ArriveAll(db, one[..0]), a.hook, a.tx);
  }

  /** Arrivals leave the jobs, the claims and the scope alone, and what was stored stays stored. */
  lemma {:induction false} ArrivalsFrame(db: Db, arrivals: seq<Arrival>)
    ensures var after := ArriveAll(db, arrivals);
            && after.jobs == db.jobs && after.coverage == db.coverage && after.holders == db.holders
            && forall tx :: Absorbed(db, tx) ==> Absorbed(after, tx)
  {
    hide Absorbed, Page, Arrive;
    if arrivals != [] {
      var last := arrivals[|arrivals| - 1];
      var mid := ArriveAll(db, arrivals[..|arrivals| - 1]);
      ArrivalsFrame(db, arrivals[..|arrivals| - 1]);
      ArriveIsPage(mid, last);
      PageFrame(mid, last.hook, [last.tx]);
      forall tx | Absorbed(mid, tx) ensures Absorbed(ArriveAll(db, arrivals), tx) {
        PageStores(mid, last.hook, [last.tx], [tx]);
        assert tx in [tx] + [last.tx];
      }
    }
  }

  lemma OtherTables(db: Db, other: Db, txs: seq<IngestTx>)
    requires other.transactions == db.transactions && other.accounts == db.accounts && other.links == db.links
    requires Stored(db, txs)
    ensures Stored(other, txs)
  {
  }

  /** Everything that arrived is stored, with its links. */
  lemma {:induction false} ArrivalsAreStored(db: Db, arrivals: seq<Arrival>, a: Arrival)
    requires a in arrivals
    ensures Absorbed(ArriveAll(db, arrivals), a.tx)
  {
    hide Absorbed, Page, Arrive;
    var front, last := arrivals[..|arrivals| - 1], arrivals[|arrivals| - 1];
    assert arrivals == front + [last];
    var mid := ArriveAll(db, front);
    ArriveIsPage(mid, last);
    if a in front {
      ArrivalsAreStored(db, front, a);
      PageStores(mid, last.hook, [last.tx], [a.tx]);
      assert a.tx in [a.tx] + [last.tx];
    } else {
      PageStores(mid, last.hook, [last.tx], []);
      assert last.tx in [] + [last.tx];
    }
  }

  // ---- Runs of arrivals ----

  /** The tables ingest writes are the same. */
  ghost predicate SameIngest(a: Db, b: Db) {
    a.transactions == b.transactions && a.accounts == b.accounts && a.links == b.links && a.deltas == b.deltas
  }

  lemma {:induction false} DeriveTxSame(a: Db, b: Db, tracked: seq<Issuance>, hash: string, meta: Meta)
    requires SameIngest(a, b)
    ensures SameIngest(DeriveTx(a, tracked, hash, meta), DeriveTx(b, tracked, hash, meta))
  {
    hide TokenDeltas, PutDeltas, EnsureAccounts, AddressesOf;
    if tracked != [] {
      DeriveTxSame(a, b, tracked[..|tracked| - 1], hash, meta);
    }
  }

  lemma {:induction false} ArriveAllSame(a: Db, b: Db, arrivals: seq<Arrival>)
    requires SameIngest(a, b)
    ensures SameIngest(ArriveAll(a, arrivals), ArriveAll(b, arrivals))
  {
    hide DeriveTx, SeeAccounts, PutTx, LinksOf, Elements;
    if arrivals != [] {
      var front, last := arrivals[..|arrivals| - 1], arrivals[|arrivals| - 1];
      ArriveAllSame(a, b, front);
      DeriveTxSame(InsertOne(ArriveAll(a, front), last.tx), InsertOne(ArriveAll(b, front), last.tx), last.hook, last.tx.hash, last.tx.row.meta);
    }
  }

  lemma {:induction false} ArriveAllAppend(db: Db, xs: seq<Arrival>, ys: seq<Arrival>)
    ensures ArriveAll(db, xs + ys) == ArriveAll(ArriveAll(db, xs), ys)
  {
    hide Arrive;
    if ys == [] {
      assert xs + ys == xs;
    } else {
      assert (xs + ys)[..|xs + ys| - 1] == xs + ys[..|ys| - 1];
      ArriveAllAppend(db, xs, ys[..|ys| - 1]);
    }
  }

  lemma NoArrivals(db: Db)
    ensures ArriveAll(db, []) == db && SameIngest(db, db)
  {
  }

  lemma SameTwice(a: Db, b: Db, c: Db)
    requires SameIngest(a, b) && SameIngest(b, c)
    ensures SameIngest(a, c)
  {
  }

  lemma StepRest(next: Db, db: Db, now: seq<Arrival>, rest: seq<Arrival>)
    requires SameIngest(next, ArriveAll(db, now))
    ensures SameIngest(ArriveAll(next, rest), ArriveAll(db, now + rest))
  {
    hide ArriveAll;
    ArriveAllAppend(db, now, rest);
    ArriveAllSame(next, ArriveAll(db, now), rest);
  }

  lemma CurrentElsewhere(a: Db, b: Db, i: Issuance)
    requires SameIngest(a, b)
    ensures Current(a, i) <==> Current(b, i)
  {
    hide TokenDeltas;
  }

  /** What is stored was there before or arrived. */
  lemma {:induction false} ArrivedOrThere(db: Db, arrivals: seq<Arrival>, h: string)
    ensures h in ArriveAll(db, arrivals).transactions <==> h in db.transactions || Arrived(arrivals, h)
  {
    hide Arrive;
    if arrivals != [] {
      var front, last := arrivals[..|arrivals| - 1], arrivals[|arrivals| - 1];
      assert arrivals == front + [last];
      ArrivedOrThere(db, front, h);
      ArriveStores(ArriveAll(db, front), last);
      assert Arrived(arrivals, h) <==> Arrived(front, h) || last.tx.hash == h;
    }
  }
}
