/** Page transactions side by side: when they cannot block each other for good, and that they can. */
module Deadlocks {
  import opened Options
  import opened Ordering
  import opened Metadata
  import opened Tables
  import opened Writers
  import opened BatchWriter
  import opened Derive
  import opened Rederive
  import opened PagePlans
  import opened Locks
  import opened Touches
  import opened Holders
  import MptDeltas
  import History

  // ---- Pages in order ----

  /** A page's transaction: what it finds, what it writes, and the rows it asks for. */
  datatype PageTxn = PageTxn(db: Db, tracked: seq<Issuance>, txs: seq<IngestTx>, plan: seq<RowKey>)

  /** Its rows are asked for in ascending order, in terms of what the page holds. */
  ghost predicate InOrder(g: PageTxn) {
    var calls := PageCalls(g.tracked, g.txs);
    && IsPlan(g.db, g.tracked, g.txs, g.plan) && CleanCalls(g.tracked, g.txs)
    && DeltasAscend(calls) && OnlyFirstNeedsNew(KnownAfter(g.db, g.txs), calls)
    && forall m :: m in Missing(g.db, g.tracked, g.txs) ==>
         AddsNoLink(g.db, g.txs) && forall x :: x in ListedBy(g.txs) ==> Lt(x, m)
  }

  function Started(pages: seq<PageTxn>): (s: System)
    ensures |s| == |pages| && forall i :: 0 <= i < |s| ==> s[i] == Txn(pages[i].plan, 0, false)
  {
    seq(|pages|, i requires 0 <= i < |pages| => Txn(pages[i].plan, 0, false))
  }

  /** Any number of pages in order all finish, however their steps interleave. */
  lemma PagesInOrderFinish(pages: seq<PageTxn>, schedule: seq<int>)
    requires (forall i :: 0 <= i < |pages| ==> InOrder(pages[i])) && Possible(Started(pages), schedule)
    ensures |schedule| <= Work(Started(pages))
    ensures Finished(After(Started(pages), schedule)) || exists i :: Enabled(After(Started(pages), schedule), i)
  {
    hide IsPlan, StrictlyAscending, DeltasAscend, OnlyFirstNeedsNew, PageCalls, InsertEach, ListedBy, MovedBy, CleanCalls, Lt, Work, Possible, After, Enabled;
    forall i | 0 <= i < |pages| ensures StrictlyAscending(pages[i].plan) {
      PlanAscendsExactlyWhen(pages[i].db, pages[i].tracked, pages[i].txs, pages[i].plan);
    }
    AllFinish(Started(pages), schedule);
  }

  // ---- A sweep's page knows every account it moves ----

  lemma {:induction false} MovedByATx(i: Issuance, txs: seq<IngestTx>, x: string)
    requires x in MovedBy(PageCalls([i], txs))
    ensures exists tx, d :: tx in txs && d in TokenDeltas(i.token, tx.row.meta) && d.account == x
  {
    hide TokenDeltas;
    var n := |txs| - 1;
    var tx := txs[n];
    var front, more := PageCalls([i], txs[..n]), CallsOf([i], tx.hash, tx.row.meta);
    MovedAppend(front, more);
    if x in MovedBy(front) {
      MovedByATx(i, txs[..n], x);
      var earlier, d :| earlier in txs[..n] && d in TokenDeltas(i.token, earlier.row.meta) && d.account == x;
      assert earlier in txs;
    } else {
      assert more[..0] == [] && MovedBy(more) == MovedBy(more[..0]) + AddressesOf(more[0].rows);
      var r :| r in more[0].rows && r.address == x;
      var k :| 0 <= k < |more[0].rows| && more[0].rows[k] == r;
      assert TokenDeltas(i.token, tx.row.meta)[k].account == x && tx in txs;
    }
  }

  lemma {:induction false} LinkedIsKnown(db: Db, txs: seq<IngestTx>, tx: IngestTx, x: string)
    requires tx in txs && x in tx.accounts
    ensures x in KnownAfter(db, txs)
  {
    hide Least;
    var n := |txs| - 1;
    if tx != txs[n] {
      assert tx in txs[..n];
      LinkedIsKnown(db, txs[..n], tx, x);
    }
  }

  ghost predicate NoBlankMoves(i: Issuance, txs: seq<IngestTx>) {
    forall tx, d :: tx in txs && d in TokenDeltas(i.token, tx.row.meta) ==> d.account != ""
  }

  /** A sweep links each row to every account it moves; so its page asks for its rows in ascending order if and
      only if the hashes of the transactions that move its issuance ascend. */
  lemma SweptPageAscendsExactlyWhen(db: Db, i: Issuance, issuer: string, entries: seq<AccountTx>, plan: seq<RowKey>)
    requires var txs := KeptOf([i], issuer, entries);
             && IsPlan(db, [i], txs, plan) && CleanCalls([i], txs) && NoBlankMoves(i, txs)
             && forall m, n :: 0 <= m < n < |txs| && txs[m].hash == txs[n].hash ==> SameRecord(txs[m].row, txs[n].row)
    ensures StrictlyAscending(plan) <==> HashesAscend(i, KeptOf([i], issuer, entries))
  {
    hide IsPlan, StrictlyAscending, CleanCalls, KeptOf, InsertEach, MovedBy, TokenDeltas, PageCalls, HashesAscend;
    var txs := KeptOf([i], issuer, entries);
    forall x | x in MovedBy(PageCalls([i], txs)) ensures x in KnownAfter(db, txs) {
      MovedByATx(i, txs, x);
      var tx, d :| tx in txs && d in TokenDeltas(i.token, tx.row.meta) && d.account == x;
      MovedIsLinked([i], i, issuer, entries, tx, d);
      LinkedIsKnown(db, txs, tx, x);
    }
    NothingMissing(db, [i], txs);
    OneIssuanceAscendsExactlyWhen(db, i, txs, plan);
  }

  // ---- Pages across each other ----

  const ONE := Issuance(1, Mpt("M"))

  /** A transfer of five tokens between two holders, and what each has after it. */
  datatype Transfer = Transfer(hash: string, ledger: int, payer: string, left: int, payee: string, has: int)

  function Shown(account: string, now: int, before: int): Option<Wrapper> {
    Some(Wrapper(None, Some(History.TokenNode("M", account, account, now, Some(before))), None))
  }

  function RowFor(t: Transfer): TxRow {
    TxRow(t.ledger, "", Meta(Some([Shown(t.payer, t.left, t.left + 5), Shown(t.payee, t.has, t.has - 5)]), None))
  }

  /** The payer's history lists it. */
  function Listed(t: Transfer): IngestTx {
    IngestTx(t.hash, RowFor(t), [t.payer])
  }

  predicate Named(t: Transfer) {
    t.payer != "" && t.payee != "" && t.payer != t.payee
  }

  lemma TransferTouches(t: Transfer)
    requires Named(t)
    ensures TouchesIn(ONE.token, RowFor(t).meta.Nodes()) ==
            [Touch(t.payer, t.payer, (t.left + 5) as real, t.left as real, true), Touch(t.payee, t.payee, (t.has - 5) as real, t.has as real, true)]
  {
    var nodes := RowFor(t).meta.Nodes();
    assert nodes[..1] == [nodes[0]] && [nodes[0]][..0] == [];
    assert TouchesIn(ONE.token, [nodes[0]]) == [ReadTouch(ONE.token, nodes[0]).value];
  }

  lemma TransferMoves(t: Transfer)
    requires Named(t)
    ensures TokenDeltas(ONE.token, RowFor(t).meta) == [AccountDelta(t.payer, -5.0), AccountDelta(t.payee, 5.0)]
  {
    var nodes := RowFor(t).meta.Nodes();
    assert nodes[..1] == [nodes[0]] && [nodes[0]][..0] == [] && MptDeltas.DeltasOf([], "M") == [];
    assert MptDeltas.NodeDeltas(nodes[0], "M") == [AccountDelta(t.payer, -5.0)];
    assert MptDeltas.NodeDeltas(nodes[1], "M") == [AccountDelta(t.payee, 5.0)];
    assert MptDeltas.DeltasOf([nodes[0]], "M") == MptDeltas.DeltasOf([nodes[0]][..0], "M") + MptDeltas.NodeDeltas(nodes[0], "M");
  }

  function Rows(t: Transfer): seq<DeltaRow> {
    [DeltaRow(t.hash, t.payer, -5.0), DeltaRow(t.hash, t.payee, 5.0)]
  }

  lemma TransferCalls(t: Transfer, u: Transfer)
    requires Named(t) && Named(u)
    ensures PageCalls([ONE], [Listed(t), Listed(u)]) == [Call(1, Rows(t)), Call(1, Rows(u))]
  {
    hide TokenDeltas, RowFor;
    TransferMoves(t);
    TransferMoves(u);
    OneCallEach(ONE, [Listed(t), Listed(u)]);
    assert RowsOf(t.hash, [AccountDelta(t.payer, -5.0), AccountDelta(t.payee, 5.0)]) == Rows(t);
    assert RowsOf(u.hash, [AccountDelta(u.payer, -5.0), AccountDelta(u.payee, 5.0)]) == Rows(u);
  }

  /** The locks on a transfer's two deltas. */
  function DeltasOf(t: Transfer): seq<RowKey> {
    LocksOf(3, Keys(SortBy(Rows(t), DeltaKey), DeltaKey), 1)
  }

  lemma DeltasNameHash(t: Transfer, k: RowKey)
    requires k in DeltasOf(t)
    ensures k.table == 3 && k.key.0 == t.hash
  {
    hide SortBy;
    var ordered := SortBy(Rows(t), DeltaKey);
    SortKeepsElements(Rows(t), DeltaKey);
    InLocks(3, Keys(ordered, DeltaKey), 1, k);
    var i :| 0 <= i < |ordered| && Keys(ordered, DeltaKey)[i] == k.key;
    assert ordered[i] in Rows(t);
  }

  function AccountLock(x: string): RowKey {
    RowKey(1, (x, ""), 0)
  }

  lemma OneTransfer(known: set<string>, t: Transfer)
    requires t.payer in known && t.payee !in known
    ensures DeltaLocks(known, 1, SortBy(Rows(t), DeltaKey)) == [AccountLock(t.payee)] + DeltasOf(t)
    ensures AddressesOf(Rows(t)) == {t.payer, t.payee}
  {
    hide SortBy, SortedNames;
    SortKeepsElements(Rows(t), DeltaKey);
    SameAddresses(Rows(t), SortBy(Rows(t), DeltaKey));
    assert AddressesOf(Rows(t)) == {t.payer, t.payee} by {
      assert Rows(t)[0] in Rows(t) && Rows(t)[1] in Rows(t);
    }
    assert AddressesOf(Rows(t)) - known == {t.payee};
    OneName(t.payee);
    assert LocksOf(1, Derive.Named([t.payee]), 0) == [AccountLock(t.payee)];
  }

  lemma OneName(x: string)
    ensures SortedNames({x}) == [x]
  {
    assert {x} - {LowestName({x})} == {};
    assert SortedNames({}) == [];
  }

  /** Where the payees are not known, each is asked for just before the deltas that need it. */
  lemma TransferLocks(known: set<string>, t: Transfer, u: Transfer)
    requires Named(t) && Named(u) && t.payee != u.payee && t.payer == u.payer
    requires t.payer in known && t.payee !in known && u.payee !in known
    ensures CallLocks(known, PageCalls([ONE], [Listed(t), Listed(u)])) ==
            [AccountLock(t.payee)] + DeltasOf(t) + ([AccountLock(u.payee)] + DeltasOf(u))
  {
    hide DeltaLocks, Listed, PageCalls, SortBy, DeltasOf, Rows;
    var first, second := Call(1, Rows(t)), Call(1, Rows(u));
    TransferCalls(t, u);
    OneTransfer(known, t);
    OneTransfer(known + {t.payer, t.payee}, u);
    assert [first, second][..1] == [first] && [first][..0] == [];
    assert MovedBy([first]) == {t.payer, t.payee} by {
      assert MovedBy([]) == {};
    }
    assert known + {} == known && MovedBy([]) == {} && CallLocks(known, []) == [];
    assert CallLocks(known, [first]) == DeltaLocks(known, 1, SortBy(first.rows, DeltaKey));
  }

  lemma TransfersStored(db: Db, t: Transfer, u: Transfer)
    requires t.payer == u.payer
    ensures var txs := [Listed(t), Listed(u)]; var after := InsertEach(db, txs);
            && ListedBy(txs) == {t.payer} && KnownAfter(db, txs) == db.accounts.Keys + {t.payer}
            && after.transactions.Keys == db.transactions.Keys + {t.hash, u.hash}
            && after.links == db.links + {(t.hash, t.payer), (u.hash, t.payer)}
  {
    hide RowFor;
    var txs := [Listed(t), Listed(u)];
    assert txs[..1] == [txs[0]] && [txs[0]][..0] == [];
    assert Elements([t.payer]) == {t.payer};
    assert InsertEach(db, []) == db && InsertEach(db, [txs[0]]) == InsertOne(db, txs[0]);
    assert ListedBy([]) == {} && ListedBy([txs[0]]) == {t.payer};
  }

  /** What a batch of two transfers locks has their hashes in it, or their payer. */
  ghost predicate OfBatch(t: Transfer, u: Transfer, k: RowKey) {
    && (k.table == 0 ==> k.key.0 == t.hash || k.key.0 == u.hash) && (k.table == 1 ==> k.key.0 == t.payer)
    && (k.table == 2 ==> k.key.1 == t.payer) && 0 <= k.table <= 2
  }

  lemma TransfersAsk(db: Db, t: Transfer, u: Transfer, k: RowKey)
    requires t.payer == u.payer
    requires var txs := [Listed(t), Listed(u)]; Asks(db, InsertEach(db, txs), ListedBy(txs), k)
    ensures OfBatch(t, u, k)
  {
    hide InsertEach, ListedBy, Listed;
    TransfersStored(db, t, u);
  }

  // ---- Four transfers of one ledger ----

  /** Two payers, two payees: `w` pays `a` and then `b`, and `z` pays `b` and then `a`. */
  function Four(x: string, u: string, y: string, v: string, a: string, b: string, w: string, z: string): seq<Transfer> {
    [Transfer(x, 60, w, 95, a, 15), Transfer(u, 61, z, 95, b, 25), Transfer(y, 62, w, 90, b, 30), Transfer(v, 63, z, 90, a, 20)]
  }

  lemma OneTransferIsWellFormed(t: Transfer)
    requires Named(t)
    ensures WellFormed(ONE.token, RowFor(t).meta)
    ensures forall touch :: touch in History.TouchesOf(ONE.token, Listed(t)) ==> touch.objectId == touch.account
  {
    hide RowFor;
    TransferTouches(t);
  }

  /** They are the transactions of a ledger, in order, each holder with one object throughout. */
  lemma FourAreALedger(x: string, u: string, y: string, v: string, a: string, b: string, w: string, z: string)
    requires |{x, u, y, v}| == 4 && "" !in {a, b, w, z} && {a, b} !! {w, z}
    ensures var four := Four(x, u, y, v, a, b, w, z);
            History.Ledger(ONE.token, [Listed(four[0]), Listed(four[1]), Listed(four[2]), Listed(four[3])])
  {
    hide WellFormed, TouchesIn;
    var four := Four(x, u, y, v, a, b, w, z);
    Different(x, u, y, v);
    forall i | 0 <= i < 4
      ensures WellFormed(ONE.token, RowFor(four[i]).meta)
      ensures forall touch :: touch in History.TouchesOf(ONE.token, Listed(four[i])) ==> touch.objectId == touch.account
    {
      OneTransferIsWellFormed(four[i]);
    }
  }

  lemma Different(x: string, u: string, y: string, v: string)
    requires |{x, u, y, v}| == 4
    ensures x != u && x != y && x != v && u != y && u != v && y != v
  {
    AtMostThree(x, u, y);
    AtMostThree(x, u, v);
    AtMostThree(x, y, v);
    assert x == u ==> {x, u, y, v} == {x, y, v};
    assert x == y ==> {x, u, y, v} == {x, u, v};
    assert x == v ==> {x, u, y, v} == {x, u, y};
    assert u == y ==> {x, u, y, v} == {x, u, v};
    assert u == v ==> {x, u, y, v} == {x, u, y};
    assert y == v ==> {x, u, y, v} == {x, u, y};
  }

  lemma AtMostThree(x: string, y: string, z: string)
    ensures |{x, y, z}| <= 3
  {
    assert {x, y, z} == {x} + {y} + {z};
  }

  /** Two workers' pages, of `w`'s history and of `z`'s, whose transactions pay the same two accounts in opposite
      orders: where the archive does not have these yet, the pages' transactions can block each other for good. So
      the retry on deadlock is needed. */
  lemma PagesCanDeadlock(db: Db, x: string, u: string, y: string, v: string, a: string, b: string, w: string, z: string,
                         p: seq<RowKey>, q: seq<RowKey>)
    requires |{x, u, y, v}| == 4 && "" !in {a, b, w, z} && {a, b} !! {w, z} && a != b && w != z
    requires a !in db.accounts && b !in db.accounts
    requires var four := Four(x, u, y, v, a, b, w, z);
             && IsPlan(db, [ONE], [Listed(four[0]), Listed(four[2])], p)
             && IsPlan(db, [ONE], [Listed(four[1]), Listed(four[3])], q)
    ensures CanDeadlock(p, q)
  {
    hide InsertEach, Listed, PageCalls, CallLocks, ListedBy, StrictlyAscending, CanDeadlock, Asks, Crossed, DeltasOf, OfBatch;
    var four := Four(x, u, y, v, a, b, w, z);
    Different(x, u, y, v);
    var first, second := [Listed(four[0]), Listed(four[2])], [Listed(four[1]), Listed(four[3])];
    TransfersStored(db, four[0], four[2]);
    TransfersStored(db, four[1], four[3]);
    TransferLocks(db.accounts.Keys + {w}, four[0], four[2]);
    TransferLocks(db.accounts.Keys + {z}, four[1], four[3]);
    var bp :| BatchLocks(db, InsertEach(db, first), ListedBy(first), bp) && p == bp + DeriveLocks(db, [ONE], first);
    var bq :| BatchLocks(db, InsertEach(db, second), ListedBy(second), bq) && q == bq + DeriveLocks(db, [ONE], second);
    forall k | k in bp ensures OfBatch(four[0], four[2], k) {
      TransfersAsk(db, four[0], four[2], k);
    }
    forall k | k in bq ensures OfBatch(four[1], four[3], k) {
      TransfersAsk(db, four[1], four[3], k);
    }
    TransfersCross(bp, bq, p, q, four);
    DeadlockExactlyWhenCrossed(p, q);
  }

  lemma TransfersCross(bp: seq<RowKey>, bq: seq<RowKey>, p: seq<RowKey>, q: seq<RowKey>, four: seq<Transfer>)
    requires |four| == 4 && four[0].payer != four[1].payer && four[0].payee != four[1].payee
    requires four[3].payee == four[0].payee && four[2].payee == four[1].payee
    requires {four[0].payee, four[1].payee} !! {four[0].payer, four[1].payer}
    requires {four[0].hash, four[2].hash} !! {four[1].hash, four[3].hash}
    requires p == bp + ([AccountLock(four[0].payee)] + DeltasOf(four[0]) + ([AccountLock(four[2].payee)] + DeltasOf(four[2])))
    requires q == bq + ([AccountLock(four[1].payee)] + DeltasOf(four[1]) + ([AccountLock(four[3].payee)] + DeltasOf(four[3])))
    requires (forall k :: k in bp ==> OfBatch(four[0], four[2], k)) && (forall k :: k in bq ==> OfBatch(four[1], four[3], k))
    ensures Crossed(p, q)
  {
    hide DeltasOf;
    var left, right := bp + [AccountLock(four[0].payee)] + DeltasOf(four[0]), bq + [AccountLock(four[1].payee)] + DeltasOf(four[1]);
    var m, n := |left|, |right|;
    assert p == left + [AccountLock(four[2].payee)] + DeltasOf(four[2]) && p[..m] == left && p[m] == AccountLock(four[2].payee);
    assert q == right + [AccountLock(four[3].payee)] + DeltasOf(four[3]) && q[..n] == right && q[n] == AccountLock(four[3].payee);
    forall k | k in left ensures k !in right {
      if k in DeltasOf(four[0]) {
        DeltasNameHash(four[0], k);
      }
      if k in DeltasOf(four[1]) {
        DeltasNameHash(four[1], k);
      }
    }
    assert CrossedAt(p, q, m, n);
  }
}
