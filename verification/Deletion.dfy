/** Deleting an issuance and what only it needed (src/admin/adminApi.ts:369-442). */
module Deletion {
  import opened Options
  import opened Metadata
  import opened Tables
  import opened Rederive
  import opened Reconstruct
  import opened Routes

  /** The issuer of a token; "" when it cannot be decoded. */
  type IssuerOf = Token -> string

  predicate HeldElsewhere(db: Db, account: string, id: int) {
    exists h :: h in db.holders && h.0 == account && h.1 != id
  }

  /** Accounts in scope for this issuance and no other. */
  function Exclusive(db: Db, id: int): set<string> {
    set h | h in db.holders && h.1 == id && !HeldElsewhere(db, h.0, id) :: h.0
  }

  predicate IssuesAnother(db: Db, id: int, issuer: string, issuerOf: IssuerOf) {
    exists j :: j in db.issuances && j != id && issuerOf(db.issuances[j]) == issuer
  }

  /** The accounts a deletion removes: the exclusive holders and, when nothing else uses it, the issuer. */
  function Removable(db: Db, id: int, issuerOf: IssuerOf): set<string>
    requires id in db.issuances
  {
    var issuer := issuerOf(db.issuances[id]);
    Exclusive(db, id) +
    if issuer != "" && !IssuesAnother(db, id, issuer, issuerOf) && !HeldElsewhere(db, issuer, id) then {issuer} else {}
  }

  function KeepCoverage(rows: seq<Coverage>, gone: set<string>): seq<Coverage> {
    if rows == [] then []
    else
      KeepCoverage(rows[..|rows| - 1], gone) + if rows[|rows| - 1].address in gone then [] else [rows[|rows| - 1]]
  }

  datatype Summary = Summary(accountsRemoved: nat, transactionsRemoved: nat, deltasRemoved: nat)

  predicate Referenced(links: set<(string, string)>, deltas: map<(string, string, int), real>, hash: string) {
    (exists l :: l in links && l.0 == hash) || (exists d :: d in deltas && d.0 == hash)
  }

  type DeltaRows = map<(string, string, int), real>

  function LinksOff(links: set<(string, string)>, gone: set<string>): set<(string, string)> {
    set l | l in links && l.1 !in gone
  }

  function DeltasNot(deltas: DeltaRows, id: int): DeltaRows {
    map k | k in deltas && k.2 != id :: deltas[k]
  }

  function DeltasOff(deltas: DeltaRows, gone: set<string>): DeltaRows {
    map k | k in deltas && k.1 !in gone :: deltas[k]
  }

  function JobsNot(jobs: map<int, Job>, id: int): map<int, Job> {
    map j | j in jobs && jobs[j].issuance != id :: jobs[j]
  }

  function JobsOff(jobs: map<int, Job>, gone: set<string>): map<int, Job> {
    map j | j in jobs && jobs[j].address !in gone :: jobs[j]
  }

  function HoldersNot(holders: map<(string, int), Option<int>>, id: int): map<(string, int), Option<int>> {
    map h | h in holders && h.1 != id :: holders[h]
  }

  function StillReferenced(t: map<string, TxRow>, links: set<(string, string)>, deltas: DeltaRows): map<string, TxRow> {
    map h | h in t && Referenced(links, deltas, h) :: t[h]
  }

  /** The archive without the issuance, the given accounts, and the transactions nothing refers to then. */
  function Without(db: Db, id: int, gone: set<string>): Db {
    var links := LinksOff(db.links, gone);
    var deltas := DeltasOff(DeltasNot(db.deltas, id), gone);
    db.(issuances := db.issuances - {id},
        transactions := StillReferenced(db.transactions, links, deltas),
        accounts := db.accounts - gone,
        links := links,
        holders := HoldersNot(db.holders, id),
        deltas := deltas,
        coverage := KeepCoverage(db.coverage, gone),
        jobs := JobsOff(JobsNot(db.jobs, id), gone))
  }

  /** How many delta rows the issuance has. */
  function CountDeltas(deltas: DeltaRows, id: int): nat {
    |set k | k in deltas && k.2 == id|
  }

  function Deleted(db: Db, id: int, issuerOf: IssuerOf): Db
    requires id in db.issuances
  {
    Without(db, id, Removable(db, id, issuerOf))
  }

  /** Every holding of the account is of this issuance. */
  ghost predicate HoldsNothingElse(db: Db, a: string, id: int) {
    forall h :: h in db.holders && h.0 == a ==> h.1 == id
  }

  /** The account holds this issuance and no other. */
  ghost predicate HoldsOnly(db: Db, a: string, id: int) {
    (a, id) in db.holders && HoldsNothingElse(db, a, id)
  }

  /** The account issues this issuance and no other, and holds no other. */
  ghost predicate IssuesOnly(db: Db, a: string, id: int, issuerOf: IssuerOf)
    requires id in db.issuances
  {
    && a != "" && a == issuerOf(db.issuances[id]) && HoldsNothingElse(db, a, id)
    && forall j :: j in db.issuances && issuerOf(db.issuances[j]) == a ==> j == id
  }

  lemma RemovableAre(db: Db, id: int, issuerOf: IssuerOf, a: string)
    requires id in db.issuances
    ensures a in Removable(db, id, issuerOf) <==> HoldsOnly(db, a, id) || IssuesOnly(db, a, id, issuerOf)
  {
    assert HeldElsewhere(db, a, id) <==> !HoldsNothingElse(db, a, id);
    if a == issuerOf(db.issuances[id]) {
      assert IssuesAnother(db, id, a, issuerOf) <==> !forall j :: j in db.issuances && issuerOf(db.issuances[j]) == a ==> j == id;
    }
  }

  /** What a deletion removes: exactly the accounts that hold this issuance and no other, and its issuer when
      that neither issues nor holds another. */
  method FindRemovable(db: Db, id: int, issuerOf: IssuerOf) returns (removable: set<string>)
    requires id in db.issuances
    ensures removable == Removable(db, id, issuerOf)
    ensures forall a :: a in removable <==> HoldsOnly(db, a, id) || IssuesOnly(db, a, id, issuerOf)
  {
    hide HeldElsewhere, IssuesAnother, Exclusive, HoldsOnly, IssuesOnly;
    forall a ensures a in Removable(db, id, issuerOf) <==> HoldsOnly(db, a, id) || IssuesOnly(db, a, id, issuerOf) {
      RemovableAre(db, id, issuerOf, a);
    }
    var targetIssuer := issuerOf(db.issuances[id]);
    var issuerIsAnotherIssuer := targetIssuer != "" && IssuesAnother(db, id, targetIssuer, issuerOf);
    removable := Exclusive(db, id);
    if targetIssuer != "" && !issuerIsAnotherIssuer {
      if !HeldElsewhere(db, targetIssuer, id) {
        removable := removable + {targetIssuer};
      }
    }
  }

  // ---- The deletion's steps, on the tables' values ----

  /** Without the rows keyed by the issuance. */
  function KeyedOff(db: Db, id: int): Db {
    db.(deltas := DeltasNot(db.deltas, id), jobs := JobsNot(db.jobs, id), holders := HoldersNot(db.holders, id))
  }

  /** Without the accounts and everything that refers to them. */
  function AccountsOff(db: Db, gone: set<string>): Db {
    db.(links := LinksOff(db.links, gone), coverage := KeepCoverage(db.coverage, gone), jobs := JobsOff(db.jobs, gone),
        deltas := DeltasOff(db.deltas, gone), accounts := db.accounts - gone)
  }

  /** Without the transactions nothing refers to. */
  function DeadOff(db: Db): Db {
    db.(transactions := StillReferenced(db.transactions, db.links, db.deltas))
  }

  function IssuanceOff(db: Db, id: int): Db {
    db.(issuances := db.issuances - {id})
  }

  /** Step by step or table by table: the archive without the issuance. */
  lemma StepByStep(db: Db, id: int, gone: set<string>)
    ensures IssuanceOff(DeadOff(AccountsOff(KeyedOff(db, id), gone)), id) == Without(db, id, gone)
    ensures KeyedOff(db, id).accounts == db.accounts && AccountsOff(KeyedOff(db, id), gone).transactions == db.transactions
    ensures DeadOff(AccountsOff(KeyedOff(db, id), gone)).accounts == Without(db, id, gone).accounts
    ensures AccountsOff(KeyedOff(db, id), gone).accounts == Without(db, id, gone).accounts
    ensures DeadOff(AccountsOff(KeyedOff(db, id), gone)).transactions == Without(db, id, gone).transactions
  {
    hide Referenced, KeepCoverage, LinksOff, DeltasNot, DeltasOff, JobsNot, JobsOff, HoldersNot, StillReferenced;
  }

  method PurgeKeyed(a: Archive, id: int) returns (removed: nat)
    modifies a`deltas, a`jobs, a`holders
    ensures a.Contents() == KeyedOff(old(a.Contents()), id)
    ensures removed == CountDeltas(old(a.Contents()).deltas, id)
  {
    hide DeltasNot, JobsNot, HoldersNot, CountDeltas;
    removed := CountDeltas(a.deltas, id);
    a.deltas, a.jobs, a.holders := DeltasNot(a.deltas, id), JobsNot(a.jobs, id), HoldersNot(a.holders, id);
  }

  /** Everything that refers to the accounts, then the accounts. */
  method PurgeAccounts(a: Archive, gone: set<string>) returns (removed: nat)
    modifies a`links, a`coverage, a`jobs, a`deltas, a`accounts
    ensures a.Contents() == AccountsOff(old(a.Contents()), gone)
    ensures removed == |old(a.Contents()).accounts.Keys| - |AccountsOff(old(a.Contents()), gone).accounts.Keys|
  {
    hide KeepCoverage, LinksOff, JobsOff, DeltasOff;
    removed := 0;
    if |gone| > 0 {
      var kept := a.accounts - gone;
      KeysShrink(a.accounts.Keys, kept.Keys);
      removed := |a.accounts.Keys| - |kept.Keys|;
      a.links, a.coverage, a.jobs, a.deltas, a.accounts :=
        LinksOff(a.links, gone), KeepCoverage(a.coverage, gone), JobsOff(a.jobs, gone), DeltasOff(a.deltas, gone), kept;
    } else {
      NothingGone(a.Contents(), gone);
    }
  }

  lemma NothingGone(db: Db, gone: set<string>)
    requires gone == {}
    ensures AccountsOff(db, gone) == db
  {
    KeepsAllCoverage(db.coverage, gone);
    assert LinksOff(db.links, gone) == db.links && JobsOff(db.jobs, gone) == db.jobs && DeltasOff(db.deltas, gone) == db.deltas;
    assert db.accounts - gone == db.accounts;
  }

  method PurgeTransactions(a: Archive) returns (removed: nat)
    modifies a`transactions
    ensures a.Contents() == DeadOff(old(a.Contents()))
    ensures removed == |old(a.Contents()).transactions.Keys| - |DeadOff(old(a.Contents())).transactions.Keys|
  {
    hide Referenced;
    var kept := StillReferenced(a.transactions, a.links, a.deltas);
    KeysShrink(a.transactions.Keys, kept.Keys);
    removed := |a.transactions.Keys| - |kept.Keys|;
    a.transactions := kept;
  }

  /** The one database transaction of a deletion. */
  method Purge(a: Archive, id: int, gone: set<string>) returns (summary: Summary)
    modifies a
    ensures a.Contents() == Without(old(a.Contents()), id, gone)
    ensures summary.deltasRemoved == CountDeltas(old(a.Contents()).deltas, id)
    ensures summary.accountsRemoved == |old(a.Contents()).accounts.Keys| - |a.Contents().accounts.Keys|
    ensures summary.transactionsRemoved == |old(a.Contents()).transactions.Keys| - |a.Contents().transactions.Keys|
  {
    hide Without, KeyedOff, AccountsOff, DeadOff, CountDeltas;
    StepByStep(a.Contents(), id, gone);
    var deltas := PurgeKeyed(a, id);
    var accounts := PurgeAccounts(a, gone);
    var transactions := PurgeTransactions(a);
    a.issuances := a.issuances - {id};
    summary := Summary(accounts, transactions, deltas);
  }

  /** Delete an issuance; nothing happens when there is none. */
  method DeleteIssuance(a: Archive, id: int, issuerOf: IssuerOf) returns (summary: Option<Summary>)
    modifies a
    ensures summary.Some? <==> id in old(a.issuances)
    ensures summary.None? ==> a.Contents() == old(a.Contents())
    ensures summary.Some? ==> a.Contents() == Deleted(old(a.Contents()), id, issuerOf)
    ensures summary.Some? ==>
              summary.value.deltasRemoved == |set k | k in old(a.deltas) && k.2 == id|
              && summary.value.accountsRemoved == |old(a.Contents()).accounts.Keys| - |a.Contents().accounts.Keys|
              && summary.value.transactionsRemoved == |old(a.Contents()).transactions.Keys| - |a.Contents().transactions.Keys|
  {
    hide Removable, Without;
    if id !in a.issuances {
      return None;
    }
    var removable := FindRemovable(a.Contents(), id, issuerOf);
    var purged := Purge(a, id, removable);
    summary := Some(purged);
  }

  lemma {:induction false} KeysShrink(all: set<string>, kept: set<string>)
    requires kept <= all
    ensures |kept| <= |all|
  {
    if kept != {} {
      var x :| x in kept;
      KeysShrink(all - {x}, kept - {x});
    }
  }

  lemma {:induction false} KeepsAllCoverage(rows: seq<Coverage>, gone: set<string>)
    requires gone == {}
    ensures KeepCoverage(rows, gone) == rows
  {
    if rows != [] {
      KeepsAllCoverage(rows[..|rows| - 1], gone);
    }
  }

  lemma {:induction false} CoverageKept(rows: seq<Coverage>, gone: set<string>, c: Coverage)
    ensures c in KeepCoverage(rows, gone) <==> c in rows && c.address !in gone
  {
    if rows != [] {
      assert rows == rows[..|rows| - 1] + [rows[|rows| - 1]];
      CoverageKept(rows[..|rows| - 1], gone, c);
    }
  }

  // ---- What a deletion leaves ----

  lemma HoldersElsewhereStay(db: Db, id: int, issuerOf: IssuerOf, h: (string, int))
    requires id in db.issuances && h in db.holders && h.1 != id
    ensures h.0 !in Removable(db, id, issuerOf) && h in Deleted(db, id, issuerOf).holders
  {
    assert HeldElsewhere(db, h.0, id);
  }

  /** No dangling reference, and no transaction nothing refers to. */
  lemma DeletionIsClean(db: Db, id: int, issuerOf: IssuerOf)
    requires id in db.issuances && ForeignKeys(db)
    ensures ForeignKeys(Deleted(db, id, issuerOf))
    ensures forall h :: h in Deleted(db, id, issuerOf).transactions ==>
              Referenced(Deleted(db, id, issuerOf).links, Deleted(db, id, issuerOf).deltas, h)
  {
    hide Removable;
    var after := Deleted(db, id, issuerOf);
    forall h | h in after.holders ensures h.0 in after.accounts && h.1 in after.issuances {
      HoldersElsewhereStay(db, id, issuerOf, h);
    }
    forall c | c in after.coverage ensures c.address in after.accounts {
      CoverageKept(db.coverage, Removable(db, id, issuerOf), c);
    }
    forall l | l in after.links ensures l.0 in after.transactions && l.1 in after.accounts {
      assert Referenced(after.links, after.deltas, l.0);
    }
    forall d | d in after.deltas ensures d.0 in after.transactions && d.1 in after.accounts && d.2 in after.issuances {
      assert Referenced(after.links, after.deltas, d.0);
    }
  }

  /** Another issuance's delta rows all survive if and only if none is of an account that holds the deleted
      issuance and no other, or that is its issuer and neither issues nor holds another; what survives is
      unchanged. */
  lemma DeltasSurviveExactlyWhen(db: Db, id: int, issuerOf: IssuerOf, j: int)
    requires id in db.issuances && j != id
    ensures (forall k :: k in db.deltas && k.2 == j ==> k in Deleted(db, id, issuerOf).deltas) <==>
            (forall k :: k in db.deltas && k.2 == j ==> !HoldsOnly(db, k.1, id) && !IssuesOnly(db, k.1, id, issuerOf))
    ensures forall k :: k in Deleted(db, id, issuerOf).deltas ==> k in db.deltas && Deleted(db, id, issuerOf).deltas[k] == db.deltas[k]
  {
    hide Removable, HoldsOnly, IssuesOnly;
    forall k | k in db.deltas && k.2 == j
      ensures k in Deleted(db, id, issuerOf).deltas <==> !HoldsOnly(db, k.1, id) && !IssuesOnly(db, k.1, id, issuerOf)
    {
      RemovableAre(db, id, issuerOf, k.1);
    }
  }

  /** In particular when each of those accounts is in scope for its issuance. */
  lemma ScopedDeltasSurvive(db: Db, id: int, issuerOf: IssuerOf, j: int)
    requires id in db.issuances && j != id
    requires forall k :: k in db.deltas && k.2 == j ==> (k.1, k.2) in db.holders
    ensures forall k :: k in db.deltas && k.2 == j ==> k in Deleted(db, id, issuerOf).deltas
  {
    DeltasSurviveExactlyWhen(db, id, issuerOf, j);
  }

  lemma {:induction false} SumsAgree(m: DeltaTable, n: DeltaTable, keys: set<(string, string, int)>)
    requires keys <= m.Keys && keys <= n.Keys && forall k :: k in keys ==> m[k] == n[k]
    ensures SumOver(m, keys) == SumOver(n, keys)
  {
    if keys != {} {
      var k :| k in keys;
      SumOverSplit(m, keys, k);
      SumOverSplit(n, keys, k);
      SumsAgree(m, n, keys - {k});
    }
  }

  /** Every balance of every other issuance, at every ledger, is what it was. */
  lemma BalancesSurvive(db: Db, id: int, issuerOf: IssuerOf, j: int, account: string, ledger: int)
    requires id in db.issuances && j != id && ForeignKeys(db)
    requires forall k :: k in db.deltas && k.2 == j ==> (k.1, k.2) in db.holders
    ensures BalanceAt(Deleted(db, id, issuerOf), j, account, ledger) == BalanceAt(db, j, account, ledger)
  {
    hide Removable, SumOver;
    var after := Deleted(db, id, issuerOf);
    ScopedDeltasSurvive(db, id, issuerOf, j);
    forall k | k in db.deltas && k.2 == j ensures k.0 in after.transactions && after.transactions[k.0] == db.transactions[k.0] {
      assert Referenced(after.links, after.deltas, k.0);
    }
    assert RowsUpTo(after, j, account, ledger) == RowsUpTo(db, j, account, ledger);
    SumsAgree(after.deltas, db.deltas, RowsUpTo(db, j, account, ledger));
  }

  /** The state queries of every other issuance read the same rows, so its holder lists and balances are
      reconstructed the same. */
  lemma ReadsSurvive(db: Db, id: int, issuerOf: IssuerOf, j: int, ledger: int, entries: seq<Entry>)
    requires id in db.issuances && j != id && ForeignKeys(db)
    ensures Reads(entries, Deleted(db, id, issuerOf), j, ledger) <==> Reads(entries, db, j, ledger)
  {
    hide Removable;
    var after := Deleted(db, id, issuerOf);
    forall h ensures h in InScopeHashes(db, j) <==> h in InScopeHashes(after, j) {
      if h in InScopeHashes(db, j) {
        var l :| l in db.links && (l.1, j) in db.holders && l.0 == h;
        HoldersElsewhereStay(db, id, issuerOf, (l.1, j));
        assert l in after.links;
      }
    }
    forall h | h in InScopeHashes(after, j) ensures h in after.transactions && after.transactions[h] == db.transactions[h] {
      var l :| l in after.links && l.0 == h;
      assert Referenced(after.links, after.deltas, h);
    }
    forall e ensures IsRead(after, j, ledger, e) <==> IsRead(db, j, ledger, e) {
      if IsRead(db, j, ledger, e) {
        var h :| h in InScopeHashes(db, j) && h in db.transactions && db.transactions[h].ledger <= ledger && e == EntryOf(db.transactions[h]);
        assert h in InScopeHashes(after, j) && after.transactions[h] == db.transactions[h];
      }
    }
  }

  /** A job of another issuance survives if and only if its account neither holds the deleted issuance alone,
      nor is its issuer and of no other use; an issuer's row, if and only if it does not hold the deleted
      issuance alone, its sweep job just so. */
  lemma JobsSurviveExactlyWhen(db: Db, id: int, issuerOf: IssuerOf, j: int, n: int)
    requires id in db.issuances && j != id && j in db.issuances && n in db.jobs && db.jobs[n].issuance == j
    ensures n in Deleted(db, id, issuerOf).jobs <==>
            !HoldsOnly(db, db.jobs[n].address, id) && !IssuesOnly(db, db.jobs[n].address, id, issuerOf)
    ensures n in Deleted(db, id, issuerOf).jobs ==> Deleted(db, id, issuerOf).jobs[n] == db.jobs[n]
    ensures db.jobs[n].address == issuerOf(db.issuances[j]) ==>
              (n in Deleted(db, id, issuerOf).jobs <==> !HoldsOnly(db, db.jobs[n].address, id))
  {
    hide Removable, HoldsOnly;
    RemovableAre(db, id, issuerOf, db.jobs[n].address);
  }

  lemma IssuerSurvivesExactlyWhen(db: Db, id: int, issuerOf: IssuerOf, j: int)
    requires id in db.issuances && j != id && j in db.issuances && issuerOf(db.issuances[j]) in db.accounts
    ensures issuerOf(db.issuances[j]) in Deleted(db, id, issuerOf).accounts <==> !HoldsOnly(db, issuerOf(db.issuances[j]), id)
  {
    hide Removable, HoldsOnly;
    RemovableAre(db, id, issuerOf, issuerOf(db.issuances[j]));
  }

  /** And an issuer that holds only the deleted issuance does lose its row, its sweep job and its
      coverage, although its own issuance stays. */
  lemma ExclusiveIssuerIsPurged(db: Db, id: int, issuerOf: IssuerOf, j: int)
    requires id in db.issuances && j in db.issuances && j != id
    requires (issuerOf(db.issuances[j]), id) in db.holders && !HeldElsewhere(db, issuerOf(db.issuances[j]), id)
    ensures var after := Deleted(db, id, issuerOf); var issuer := issuerOf(db.issuances[j]);
            j in after.issuances && issuer !in after.accounts && (forall n :: n in after.jobs ==> after.jobs[n].address != issuer)
            && (forall c :: c in after.coverage ==> c.address != issuer)
  {
    var issuer := issuerOf(db.issuances[j]);
    assert issuer in Exclusive(db, id);
    forall c | c in Deleted(db, id, issuerOf).coverage ensures c.address != issuer {
      CoverageKept(db.coverage, Removable(db, id, issuerOf), c);
    }
  }
}
