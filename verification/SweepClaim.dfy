/** What a sweep that goes through records and claims, in terms of the tables alone
    (src/backfill/issuerSweep.ts:150-180, 236-270). */
module SweepClaim {
  import opened Options
  import opened Ordering
  import opened Tables
  import opened Derive
  import opened Rederive
  import opened Arrivals
  import opened Holders
  import opened Backfill
  import opened Worker
  import opened Sweep

  type Scope = map<(string, int), Option<int>>

  // ---- The scope ----

  /** Some row lists the account - the issuer apart - at the ledger or before it. */
  ghost predicate ListsBy(issuer: string, txs: seq<IngestTx>, a: string, ledger: int) {
    a != issuer && exists tx :: tx in txs && a in tx.accounts && tx.row.ledger <= ledger
  }

  ghost predicate ListsAtAll(issuer: string, txs: seq<IngestTx>, a: string) {
    a != issuer && exists tx :: tx in txs && a in tx.accounts
  }

  lemma {:induction false} FirstsAre(issuer: string, batch: seq<IngestTx>, a: string, ledger: int)
    ensures var firsts := Firsts(issuer, batch);
            (a in firsts <==> ListsAtAll(issuer, batch, a)) && (a in firsts && firsts[a] <= ledger <==> ListsBy(issuer, batch, a, ledger))
  {
    if batch != [] {
      var front, last := batch[..|batch| - 1], batch[|batch| - 1];
      assert batch == front + [last];
      FirstsAre(issuer, front, a, ledger);
      assert ListsAtAll(issuer, batch, a) <==> ListsAtAll(issuer, front, a) || (a != issuer && a in last.accounts);
      assert ListsBy(issuer, batch, a, ledger) <==>
             ListsBy(issuer, front, a, ledger) || (a != issuer && a in last.accounts && last.row.ledger <= ledger);
    }
  }

  /** One scope is another with the accounts of some rows added, each from the lowest ledger that lists it. */
  ghost predicate Widened(before: Scope, after: Scope, id: int, issuer: string, txs: seq<IngestTx>) {
    && (forall h: (string, int) :: h.1 != id ==> (h in after <==> h in before) && (h in before ==> after[h] == before[h]))
    && (forall a :: (a, id) in after <==> (a, id) in before || ListsAtAll(issuer, txs, a))
    && (forall a, ledger :: Since(after, id, a, ledger) <==> Since(before, id, a, ledger) || ListsBy(issuer, txs, a, ledger))
  }

  lemma MergeWidens(t: Scope, id: int, issuer: string, batch: seq<IngestTx>)
    ensures Widened(t, MergeHolders(t, id, Firsts(issuer, batch)), id, issuer, batch)
  {
    hide Firsts, ListsBy, ListsAtAll;
    var firsts := Firsts(issuer, batch);
    var after := MergeHolders(t, id, firsts);
    forall a ensures (a, id) in after <==> (a, id) in t || ListsAtAll(issuer, batch, a) {
      FirstsAre(issuer, batch, a, 0);
    }
    forall a, ledger
      ensures Since(after, id, a, ledger) <==> Since(t, id, a, ledger) || ListsBy(issuer, batch, a, ledger)
    {
      FirstsAre(issuer, batch, a, ledger);
    }
  }

  lemma WidenedTwice(a: Scope, b: Scope, c: Scope, id: int, issuer: string, xs: seq<IngestTx>, ys: seq<IngestTx>)
    requires Widened(a, b, id, issuer, xs) && Widened(b, c, id, issuer, ys)
    ensures Widened(a, c, id, issuer, xs + ys)
  {
    hide Since;
    forall x ensures ListsAtAll(issuer, xs + ys, x) <==> ListsAtAll(issuer, xs, x) || ListsAtAll(issuer, ys, x) {
    }
    forall x, ledger
      ensures ListsBy(issuer, xs + ys, x, ledger) <==> ListsBy(issuer, xs, x, ledger) || ListsBy(issuer, ys, x, ledger)
    {
    }
  }

  /** A sweep that goes through leaves in scope what was there and every account - the issuer apart - that its
      rows list, known from the lowest ledger that lists it or from the one known before; other issuances' scopes
      are left alone. */
  lemma {:induction false} SweptScope(s: Survey, db: Db, page: nat, high: int, fate: nat -> Fate, maxRetries: nat)
    requires page < |s.chain| && s.job in db.jobs && AllWritten(s, page, fate, maxRetries)
    ensures Widened(db.holders, Swept(s, db, page, high, fate, maxRetries).db.holders, s.issuance.id, s.issuer, KeptFrom(s, page))
    decreases |s.chain| - page
  {
    hide CommitSweep, Highest, Settle, Batch, Widened, Firsts, MergeHolders;
    var batch := Batch(s, s.chain[page]);
    var highWater := Highest(batch, high);
    var after := CommitSweep(s, db, page, highWater);
    assert fate(page).Answered?;
    CommitKeepsSweep(s, db, page, highWater);
    CommitHolders(s, db, page, highWater);
    MergeWidens(db.holders, s.issuance.id, s.issuer, batch);
    if page + 1 == |s.chain| {
      NothingAfter(s, high, page);
    } else {
      SweptScope(s, after, page + 1, highWater, fate, maxRetries);
      WidenedTwice(db.holders, after.holders, Swept(s, after, page + 1, highWater, fate, maxRetries).db.holders,
                   s.issuance.id, s.issuer, batch, KeptFrom(s, page + 1));
    }
  }

  // ---- The claim ----

  ghost predicate SomeRecorded(holders: Scope, id: int) {
    exists a :: (a, id) in holders && holders[(a, id)].Some?
  }

  ghost predicate SomeSince(holders: Scope, id: int, ledger: int) {
    exists a :: Since(holders, id, a, ledger)
  }

  /** The claim starts at the lowest ledger recorded for an account in scope, but not before `from` nor after
      `to`; with none recorded at `from`. */
  ghost predicate StartsRight(holders: Scope, id: int, from: int, to: int, floor: int) {
    && from <= floor <= to
    && forall n :: from <= n < to ==> (floor <= n <==> !SomeRecorded(holders, id) || SomeSince(holders, id, n))
  }

  lemma {:induction false} EarliestAttained(holders: Scope, id: int, names: seq<string>)
    ensures Earliest(holders, id, names).Some? ==>
              exists a :: a in names && (a, id) in holders && holders[(a, id)] == Earliest(holders, id, names)
    ensures Earliest(holders, id, names).None? ==> forall a :: a in names && (a, id) in holders ==> holders[(a, id)].None?
  {
    if names != [] {
      var front, last := names[..|names| - 1], names[|names| - 1];
      assert names == front + [last];
      EarliestAttained(holders, id, front);
      if Earliest(holders, id, names).Some? && Earliest(holders, id, front) == Earliest(holders, id, names) {
        var a :| a in front && (a, id) in holders && holders[(a, id)] == Earliest(holders, id, front);
        assert a in names;
      }
    }
  }

  lemma FloorStartsRight(holders: Scope, id: int, from: int, to: int)
    requires from <= to
    ensures StartsRight(holders, id, from, to, Floor(Earliest(holders, id, SortedNames(InScope(holders, id))), from, to))
  {
    hide Earliest, SortedNames;
    var names := SortedNames(InScope(holders, id));
    var lo := Earliest(holders, id, names);
    EarliestAttained(holders, id, names);
    forall a | (a, id) in holders ensures a in names {
      assert a in InScope(holders, id);
    }
    assert SomeRecorded(holders, id) <==> lo.Some? by {
      if a :| (a, id) in holders && holders[(a, id)].Some? {
        assert a in names;
      }
    }
    if lo.Some? {
      var least :| least in names && (least, id) in holders && holders[(least, id)] == lo;
      forall n | lo.value <= n ensures SomeSince(holders, id, n) {
        assert Since(holders, id, least, n);
      }
      forall n | n < lo.value ensures !SomeSince(holders, id, n) {
        if a :| Since(holders, id, a, n) {
          EarliestIsLowest(holders, id, names, a);
        }
      }
    }
  }

  /** The rows a sweep added to the coverage: one for each account in scope and one for the issuer, all of one
      range. */
  ghost predicate Claims(before: Db, after: Db, id: int, issuer: string, floor: int, to: int) {
    && before.coverage <= after.coverage
    && var added := after.coverage[|before.coverage|..];
       && (forall c :: c in added <==>
             c.fromLedger == floor && c.toLedger == to && (c.address == issuer || (c.address, id) in after.holders))
       && (forall j, k :: 0 <= j < k < |added| ==> added[j].address != added[k].address || added[j].address == issuer)
  }

  lemma RowsNamed(names: seq<string>, floor: int, to: int, c: Coverage)
    ensures c in ClaimRows(names, floor, to) <==> c.address in names && c.fromLedger == floor && c.toLedger == to
  {
    if c.address in names && c.fromLedger == floor && c.toLedger == to {
      var k :| 0 <= k < |names| && names[k] == c.address;
      assert ClaimRows(names, floor, to)[k] == c;
    }
  }

  lemma NamedOnce(scope: set<string>, issuer: string, j: nat, k: nat)
    requires j < k < |SortedNames(scope) + [issuer]|
    ensures var names := SortedNames(scope) + [issuer]; names[j] != names[k] || names[j] == issuer
  {
    hide SortedNames;
    if k < |SortedNames(scope)| {
      SortedNamesAscend(scope, j, k);
      LtIrreflexive(SortedNames(scope)[j]);
    }
  }

  lemma RowsAreClaims(s: Survey, before: Db, after: Db, floor: int, to: int)
    requires ClaimedRange(s, before, after, floor, to)
    ensures Claims(before, after, s.issuance.id, s.issuer, floor, to)
  {
    hide SortedNames;
    var scope := InScope(after.holders, s.issuance.id);
    var names := SortedNames(scope) + [s.issuer];
    var added := ClaimRows(names, floor, to);
    assert after.coverage[|before.coverage|..] == added;
    forall c
      ensures c in added <==>
              c.fromLedger == floor && c.toLedger == to && (c.address == s.issuer || (c.address, s.issuance.id) in after.holders)
    {
      RowsNamed(names, floor, to, c);
      assert c.address in scope <==> (c.address, s.issuance.id) in after.holders;
    }
    forall j, k | 0 <= j < k < |added| ensures added[j].address != added[k].address || added[j].address == s.issuer {
      NamedOnce(scope, s.issuer, j, k);
    }
  }

  /** What a sweep that goes through claims, and where the claim starts, read off the scope it leaves. */
  lemma {:induction false} SweptClaim(s: Survey, db: Db, page: nat, high: int, fate: nat -> Fate, maxRetries: nat) returns (floor: int)
    requires page < |s.chain| && s.job in db.jobs && AllWritten(s, page, fate, maxRetries) && From(db.jobs[s.job]) <= high
    ensures var after, to := Swept(s, db, page, high, fate, maxRetries).db, Highest(KeptFrom(s, page), high);
            && Claims(db, after, s.issuance.id, s.issuer, floor, to)
            && StartsRight(after.holders, s.issuance.id, From(db.jobs[s.job]), to, floor)
    decreases |s.chain| - page
  {
    hide CommitSweep, Highest, Settle, Batch, Claims, StartsRight, ClaimedRange, Floor, Earliest, SortedNames;
    var batch := Batch(s, s.chain[page]);
    var highWater := Highest(batch, high);
    var after := CommitSweep(s, db, page, highWater);
    assert fate(page).Answered?;
    CommitKeepsSweep(s, db, page, highWater);
    HighestAbove(batch, high);
    HighestOfBoth(batch, KeptFrom(s, page + 1), high);
    if page + 1 == |s.chain| {
      floor := LastCommitClaims(s, db, page, highWater);
      NothingAfter(s, high, page);
      RowsAreClaims(s, db, after, floor, highWater);
      FloorStartsRight(after.holders, s.issuance.id, From(db.jobs[s.job]), highWater);
    } else {
      floor := SweptClaim(s, after, page + 1, highWater, fate, maxRetries);
      SameCoverage(db, after, Swept(s, after, page + 1, highWater, fate, maxRetries).db, s.issuance.id, s.issuer,
                   floor, Highest(KeptFrom(s, page), high));
    }
  }

  lemma SameCoverage(db: Db, mid: Db, after: Db, id: int, issuer: string, floor: int, to: int)
    requires mid.coverage == db.coverage && Claims(mid, after, id, issuer, floor, to)
    ensures Claims(db, after, id, issuer, floor, to)
  {
  }

  /** So where the first holder is known from a ledger after the configured start, nothing before it is claimed. */
  lemma NothingBeforeFirstHolder(holders: Scope, id: int, from: int, to: int, floor: int, first: int)
    requires StartsRight(holders, id, from, to, floor) && SomeRecorded(holders, id) && from <= first <= to
    requires forall a :: (a, id) in holders && holders[(a, id)].Some? ==> first <= holders[(a, id)].value
    ensures first <= floor
  {
    assert floor < first ==> !SomeSince(holders, id, floor);
  }

  /** Whoever is recorded has an account row, first seen at the ledger recorded or where it was seen before. */
  lemma RecordedHaveAccounts(db: Db, id: int, firsts: map<string, int>, a: string)
    requires a in firsts
    ensures var after := RecordAll(db, id, firsts);
            && (a, id) in after.holders && a in after.accounts
            && after.accounts[a] ==
               if a in db.accounts && db.accounts[a].Some? && db.accounts[a].value < firsts[a] then db.accounts[a] else Some(firsts[a])
  {
  }

  // ---- The cursor ----

  /** The first page from here on that is not written; the number of pages when all are. */
  function Reaches(s: Survey, page: nat, fate: nat -> Fate, maxRetries: nat): (n: nat)
    requires page <= |s.chain|
    ensures page <= n <= |s.chain|
    decreases |s.chain| - page
  {
    if page == |s.chain| || !fate(page).Answered? then page
    else match Settle(fate(page).attempts, 0, maxRetries)
      case Applied => Reaches(s, page + 1, fate, maxRetries)
      case Unsure => page + 1
      case _ => page
  }

  function CountKept(s: Survey, from: nat, end: nat): nat
    requires from <= end <= |s.chain|
  {
    if from == end then 0 else CountKept(s, from, end - 1) + |Batch(s, s.chain[end - 1])|
  }

  /** The cursor stands behind the pages written - or the job is completed, with none - and the count has their rows. */
  ghost predicate CursorAt(s: Survey, before: Job, after: Job, from: nat, n: nat)
    requires from <= n <= |s.chain|
  {
    && after.txCount == before.txCount + CountKept(s, from, n)
    && after.address == before.address && after.fromLedger == before.fromLedger
    && (from < n == |s.chain| ==> after.marker == None)
    && (from < n < |s.chain| ==> after.marker == Some(n))
    && (from == n ==> after.marker == before.marker)
  }

  lemma CommitMoves(s: Survey, db: Db, page: nat, highWater: int)
    requires page < |s.chain| && s.job in db.jobs
    ensures var after := CommitSweep(s, db, page, highWater);
            && s.job in after.jobs && CursorAt(s, db.jobs[s.job], after.jobs[s.job], page, page + 1)
            && after.jobs[s.job].status == if page + 1 == |s.chain| then Completed else Running
  {
    hide Page, RecordAll, Batch, Firsts, SortedNames, Earliest;
    CommitKeepsSweep(s, db, page, highWater);
    assert CountKept(s, page, page + 1) == CountKept(s, page, page) + |Batch(s, s.chain[page])|;
  }

  lemma {:induction false} CountsOn(s: Survey, from: nat, mid: nat, end: nat)
    requires from <= mid <= end <= |s.chain|
    ensures CountKept(s, from, end) == CountKept(s, from, mid) + CountKept(s, mid, end)
    decreases end
  {
    hide Batch;
    if mid < end {
      CountsOn(s, from, mid, end - 1);
    }
  }

  /** However a sweep goes, its job's cursor stands behind the pages it wrote and its count has grown by their rows; a
      sweep that goes through is completed, one that fails is failed, and one that is stopped is left as it was. */
  lemma {:induction false} SweptCursor(s: Survey, db: Db, page: nat, high: int, fate: nat -> Fate, maxRetries: nat)
    requires page < |s.chain| && s.job in db.jobs
    ensures var end, n := Swept(s, db, page, high, fate, maxRetries), Reaches(s, page, fate, maxRetries);
            && s.job in end.db.jobs && CursorAt(s, db.jobs[s.job], end.db.jobs[s.job], page, n)
            && (!end.ok ==> end.db.jobs[s.job].status == Failed)
            && (end.ok && n == |s.chain| ==> end.db.jobs[s.job].status == Completed)
            && (end.ok && page < n < |s.chain| ==> end.db.jobs[s.job].status == Running)
            && (end.ok && n == page ==> end.db.jobs[s.job] == db.jobs[s.job])
    decreases |s.chain| - page
  {
    hide CommitSweep, Highest, Settle, Batch, CountKept;
    NoneKept(s, page);
    if fate(page).Answered? {
      var highWater := Highest(Batch(s, s.chain[page]), high);
      var after := CommitSweep(s, db, page, highWater);
      CommitMoves(s, db, page, highWater);
      if Settle(fate(page).attempts, 0, maxRetries) == Applied && page + 1 < |s.chain| {
        SweptCursor(s, after, page + 1, highWater, fate, maxRetries);
        CountsOn(s, page, page + 1, Reaches(s, page + 1, fate, maxRetries));
      }
    }
  }

  lemma NoneKept(s: Survey, page: nat)
    requires page <= |s.chain|
    ensures CountKept(s, page, page) == 0
  {
  }

  /** A sweep that comes to a page the delta writer refuses claims nothing, however its attempts go. */
  lemma RefusedPageClaimsNothing(s: Survey, db: Db, page: nat, high: int, fate: nat -> Fate, maxRetries: nat, p: nat)
    requires page <= p < |s.chain| && s.job in db.jobs && SomeRefused(s.derived, Batch(s, s.chain[p]))
    ensures Swept(s, db, page, high, Meets(s, fate), maxRetries).db.coverage == db.coverage
  {
    hide Swept, Batch, RefusesPage, SomeRefused, Met, Settle;
    RefusesExactlyWhen(s.derived, Batch(s, s.chain[p]));
    OnlyTheEndClaims(s, db, page, high, Meets(s, fate), maxRetries);
    if fate(p).Answered? {
      RefusedIsNotApplied(fate(p).attempts, 0, maxRetries);
    }
    assert !Wrote(s, p, Meets(s, fate), maxRetries);
  }

  /** A sweep none of whose pages is refused goes through when each is served and gets through in the end. */
  lemma CleanSweepGoesThrough(s: Survey, page: nat, fate: nat -> Fate, maxRetries: nat)
    requires forall p :: page <= p < |s.chain| ==> !SomeRefused(s.derived, Batch(s, s.chain[p]))
    requires AllWritten(s, page, fate, maxRetries)
    ensures AllWritten(s, page, Meets(s, fate), maxRetries)
  {
    hide Batch, RefusesPage, SomeRefused, Met, Settle;
    forall p | page <= p < |s.chain|
      ensures Meets(s, fate)(p).Answered? && Settle(Meets(s, fate)(p).attempts, 0, maxRetries) == Applied
    {
      assert fate(p).Answered?;
      RefusesExactlyWhen(s.derived, Batch(s, s.chain[p]));
      UnrefusedIsAsGiven(fate(p).attempts, 0, maxRetries);
    }
  }

}
