/** What an issuer's answers are after another issuance was deleted (src/admin/adminApi.ts:369-442,
    src/api/methods/gatewayBalances.ts:69-124). */
module DeletionFrame {
  import opened Options
  import opened Metadata
  import opened Tables
  import opened Routes
  import opened Deletion
  import opened LedgerTime
  import opened Gateway

  /** The accounts that go: those that hold the issuance and no other, and its issuer when that neither issues nor
      holds another. */
  ghost predicate Goes(db: Db, id: int, issuerOf: IssuerOf, a: string)
    requires id in db.issuances
  {
    HoldsOnly(db, a, id) || IssuesOnly(db, a, id, issuerOf)
  }

  /** A link or a delta that stays names the transaction. */
  ghost predicate StillNamed(db: Db, id: int, issuerOf: IssuerOf, h: string)
    requires id in db.issuances
  {
    || (exists l :: l in db.links && l.0 == h && !Goes(db, id, issuerOf, l.1))
    || (exists k :: k in db.deltas && k.0 == h && k.2 != id && !Goes(db, id, issuerOf, k.1))
  }

  /** What is left, table by table: exactly the rows that do not name the issuance or an account that goes, and the
      transactions some row still names, each unchanged. */
  lemma WhatIsLeft(db: Db, id: int, issuerOf: IssuerOf)
    requires id in db.issuances
    ensures var after := Deleted(db, id, issuerOf);
            && after.issuances == (map j | j in db.issuances && j != id :: db.issuances[j])
            && after.accounts == (map a | a in db.accounts && !Goes(db, id, issuerOf, a) :: db.accounts[a])
            && after.links == (set l | l in db.links && !Goes(db, id, issuerOf, l.1))
            && after.holders == (map h | h in db.holders && h.1 != id :: db.holders[h])
            && after.deltas == (map k | k in db.deltas && k.2 != id && !Goes(db, id, issuerOf, k.1) :: db.deltas[k])
            && after.jobs == (map j | j in db.jobs && db.jobs[j].issuance != id && !Goes(db, id, issuerOf, db.jobs[j].address) :: db.jobs[j])
            && after.transactions == (map h | h in db.transactions && StillNamed(db, id, issuerOf, h) :: db.transactions[h])
            && (forall c :: c in after.coverage <==> c in db.coverage && !Goes(db, id, issuerOf, c.address))
            && after.ledgers == db.ledgers
  {
    hide Removable, HoldsOnly, IssuesOnly, KeepCoverage;
    var gone, after := Removable(db, id, issuerOf), Deleted(db, id, issuerOf);
    forall a ensures a in gone <==> Goes(db, id, issuerOf, a) {
      RemovableAre(db, id, issuerOf, a);
    }
    forall c ensures c in after.coverage <==> c in db.coverage && !Goes(db, id, issuerOf, c.address) {
      CoverageKept(db.coverage, gone, c);
    }
    forall h ensures Referenced(after.links, after.deltas, h) <==> StillNamed(db, id, issuerOf, h) {
    }
  }

  lemma DeltaRowsStay(db: Db, id: int, issuerOf: IssuerOf, j: int)
    requires id in db.issuances && j != id && ForeignKeys(db)
    requires forall k :: k in db.deltas && k.2 == j ==> (k.1, k.2) in db.holders
    ensures var after := Deleted(db, id, issuerOf);
            && (forall k :: k in db.deltas && k.2 == j ==> k in after.deltas && after.deltas[k] == db.deltas[k])
            && (forall k :: k in after.deltas && k.2 == j ==> k in db.deltas)
            && (forall k :: k in db.deltas && k.2 == j ==>
                  k.0 in after.transactions && after.transactions[k.0] == db.transactions[k.0])
  {
    hide Removable;
    var after := Deleted(db, id, issuerOf);
    ScopedDeltasSurvive(db, id, issuerOf, j);
    forall k | k in db.deltas && k.2 == j ensures k.0 in after.transactions && after.transactions[k.0] == db.transactions[k.0] {
      assert Referenced(after.links, after.deltas, k.0);
    }
  }

  /** What another issuance has in circulation, at any ledger, is what it was. */
  lemma CirculatingSurvives(db: Db, id: int, issuerOf: IssuerOf, j: int, out: set<string>, ledger: int)
    requires id in db.issuances && j != id && ForeignKeys(db)
    requires forall k :: k in db.deltas && k.2 == j ==> (k.1, k.2) in db.holders
    ensures Circulating(Deleted(db, id, issuerOf), j, out, ledger) == Circulating(db, j, out, ledger)
  {
    hide Deleted, SumOver;
    var after := Deleted(db, id, issuerOf);
    DeltaRowsStay(db, id, issuerOf, j);
    assert KeysBut(after, j, out, ledger) == KeysBut(db, j, out, ledger);
    SumsAgree(after.deltas, db.deltas, KeysBut(db, j, out, ledger));
  }

  /** So the grouped query answers the same for it. */
  lemma GroupedSurvives(db: Db, id: int, issuerOf: IssuerOf, j: int, ledger: int, rows: seq<Holding>)
    requires id in db.issuances && j != id && ForeignKeys(db)
    requires forall k :: k in db.deltas && k.2 == j ==> (k.1, k.2) in db.holders
    ensures Grouped(Deleted(db, id, issuerOf), j, ledger, rows) <==> Grouped(db, j, ledger, rows)
  {
    hide Deleted, BalanceAt;
    var after := Deleted(db, id, issuerOf);
    DeltaRowsStay(db, id, issuerOf, j);
    assert IssuanceKeys(after, j, ledger) == IssuanceKeys(db, j, ledger);
    forall a ensures BalanceAt(after, j, a, ledger) == BalanceAt(db, j, a, ledger) {
      BalancesSurvive(db, id, issuerOf, j, a, ledger);
    }
  }

  lemma {:induction false} CoverageInScopeStays(db: Db, id: int, issuerOf: IssuerOf, j: int, rows: seq<Coverage>)
    requires id in db.issuances && j != id
    ensures RowsInScope(Deleted(db, id, issuerOf), j, KeepCoverage(rows, Removable(db, id, issuerOf))) == RowsInScope(db, j, rows)
  {
    hide Removable;
    if rows != [] {
      var front, last := rows[..|rows| - 1], rows[|rows| - 1];
      var after, gone := Deleted(db, id, issuerOf), Removable(db, id, issuerOf);
      CoverageInScopeStays(db, id, issuerOf, j, front);
      var kept := KeepCoverage(front, gone);
      if (last.address, j) in db.holders {
        HoldersElsewhereStay(db, id, issuerOf, (last.address, j));
        assert KeepCoverage(rows, gone) == kept + [last];
        assert (kept + [last])[..|kept|] == kept;
      } else if last.address in gone {
        assert KeepCoverage(rows, gone) == kept;
      } else {
        assert KeepCoverage(rows, gone) == kept + [last];
        assert (kept + [last])[..|kept|] == kept;
      }
    }
  }

  lemma UncoveredStays(db: Db, id: int, issuerOf: IssuerOf, j: int)
    requires id in db.issuances && j != id
    ensures Uncovered(Deleted(db, id, issuerOf), j) <==> Uncovered(db, j)
  {
    hide Removable, KeepCoverage;
    var after, gone := Deleted(db, id, issuerOf), Removable(db, id, issuerOf);
    forall h | h in db.holders && h.1 == j
      ensures h in after.holders
      ensures HasNoRow(after.coverage, h.0) <==> HasNoRow(db.coverage, h.0)
    {
      HoldersElsewhereStay(db, id, issuerOf, h);
      SameRows(db.coverage, gone, h.0);
    }
    if Uncovered(after, j) {
      var h :| h in after.holders && h.1 == j && forall k :: 0 <= k < |after.coverage| ==> after.coverage[k].address != h.0;
      assert h in db.holders && HasNoRow(after.coverage, h.0);
    }
    if Uncovered(db, j) {
      var h :| h in db.holders && h.1 == j && forall k :: 0 <= k < |db.coverage| ==> db.coverage[k].address != h.0;
      assert HasNoRow(db.coverage, h.0);
    }
  }

  predicate HasNoRow(rows: seq<Coverage>, a: string) {
    forall k :: 0 <= k < |rows| ==> rows[k].address != a
  }

  lemma SameRows(rows: seq<Coverage>, gone: set<string>, a: string)
    requires a !in gone
    ensures HasNoRow(KeepCoverage(rows, gone), a) <==> HasNoRow(rows, a)
  {
    var kept := KeepCoverage(rows, gone);
    if k :| 0 <= k < |rows| && rows[k].address == a {
      CoverageKept(rows, gone, rows[k]);
      var m :| 0 <= m < |kept| && kept[m] == rows[k];
      assert kept[m].address == a;
    }
    if m :| 0 <= m < |kept| && kept[m].address == a {
      CoverageKept(rows, gone, kept[m]);
      var k :| 0 <= k < |rows| && rows[k] == kept[m];
      assert rows[k].address == a;
    }
  }

  /** Another issuance's coverage window is what it was, whatever the tail has seen. */
  lemma WindowSurvives(db: Db, id: int, issuerOf: IssuerOf, j: int, ledger: int)
    requires id in db.issuances && j != id
    ensures RowsInScope(Deleted(db, id, issuerOf), j, Deleted(db, id, issuerOf).coverage) == RowsInScope(db, j, db.coverage)
    ensures InWindow(Deleted(db, id, issuerOf), j, ledger) <==> InWindow(db, j, ledger)
  {
    hide Removable, KeepCoverage, RowsInScope, Uncovered, Combined, IsTop, InWindow;
    CoverageInScopeStays(db, id, issuerOf, j, db.coverage);
    UncoveredStays(db, id, issuerOf, j);
    var after := Deleted(db, id, issuerOf);
    assert after.ledgers == db.ledgers && after.coverage == KeepCoverage(db.coverage, Removable(db, id, issuerOf));
    var tail := SomeTop(db.ledgers.Keys);
    IncludedExactlyWhen(db, j, tail, ledger);
    IncludedExactlyWhen(after, j, tail, ledger);
  }
}
