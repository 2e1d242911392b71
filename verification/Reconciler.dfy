/** Reconciliation: summed deltas against reconstructed balances (src/reconcile/reconciler.ts). */
module Reconciler {
  import opened Options
  import opened Ordering
  import opened Metadata
  import opened Tables
  import opened Writers
  import opened BatchWriter
  import opened Ingest
  import opened Derive
  import opened Rederive
  import opened Arrivals
  import opened Reconstruct
  import opened Touches
  import opened History
  import opened Routes
  import IouDeltas
  import MptDeltas

  datatype Discrepancy = Discrepancy(account: string, derived: real, reconstructed: real)

  function Or0(m: map<string, real>, account: string): real {
    if account in m then m[account] else 0.0
  }

  function AccountKey(a: string): (string, string) {
    (a, "")
  }

  method Enumerate(s: set<string>) returns (xs: seq<string>)
    ensures forall x :: x in xs <==> x in s
    ensures DistinctOn(xs, AccountKey)
  {
    xs := [];
    var rest := s;
    while rest != {}
      invariant rest <= s && forall x :: x in s <==> x in xs || x in rest
      invariant DistinctOn(xs, AccountKey) && forall x :: x in xs ==> x !in rest
    {
      var x :| x in rest;
      xs := xs + [x];
      rest := rest - {x};
    }
  }

  function Compare(derived: map<string, real>, reconstructed: map<string, real>, accounts: seq<string>): seq<Discrepancy> {
    if accounts == [] then []
    else
      var account := accounts[|accounts| - 1];
      var d, r := Or0(derived, account), Or0(reconstructed, account);
      Compare(derived, reconstructed, accounts[..|accounts| - 1]) + if d != r then [Discrepancy(account, d, r)] else []
  }

  ghost predicate Ascends(accounts: seq<string>) {
    forall i, j :: 0 <= i < j < |accounts| ==> Lt(accounts[i], accounts[j])
  }

  ghost predicate Genuine(d: Discrepancy, derived: map<string, real>, reconstructed: map<string, real>) {
    d.derived == Or0(derived, d.account) && d.reconstructed == Or0(reconstructed, d.account) && d.derived != d.reconstructed
  }

  lemma {:induction false} CompareIs(derived: map<string, real>, reconstructed: map<string, real>, accounts: seq<string>)
    requires Ascends(accounts)
    ensures var out := Compare(derived, reconstructed, accounts);
            && (forall d :: d in out ==> Genuine(d, derived, reconstructed) && d.account in accounts)
            && (forall a :: a in accounts && Or0(derived, a) != Or0(reconstructed, a) ==> exists d :: d in out && d.account == a)
            && (forall i, j :: 0 <= i < j < |out| ==> Lt(out[i].account, out[j].account))
  {
    hide Or0, Lt;
    if accounts != [] {
      var front, last := accounts[..|accounts| - 1], accounts[|accounts| - 1];
      assert accounts == front + [last];
      CompareIs(derived, reconstructed, front);
      var out, more := Compare(derived, reconstructed, front), Compare(derived, reconstructed, accounts);
      assert forall d :: d in out ==> d in more;
      if Or0(derived, last) != Or0(reconstructed, last) {
        assert more[|out|].account == last && more[|out|] in more;
        forall i | 0 <= i < |out| ensures Lt(out[i].account, last) {
          assert out[i] in out;
          var k :| 0 <= k < |front| && front[k] == out[i].account;
          assert accounts[k] == front[k];
        }
      }
    }
  }

  lemma SortedAscends(unsorted: seq<string>)
    requires DistinctOn(unsorted, AccountKey)
    ensures Ascends(SortBy(unsorted, AccountKey))
    ensures forall a :: a in SortBy(unsorted, AccountKey) <==> a in unsorted
  {
    hide SortBy, Lt;
    SortDistinctAscends(unsorted, AccountKey);
    SortKeepsElements(unsorted, AccountKey);
    var accounts := SortBy(unsorted, AccountKey);
    var keys := Keys(accounts, AccountKey);
    LtIrreflexive("");
    forall i, j | 0 <= i < j < |accounts| ensures Lt(accounts[i], accounts[j]) {
      assert PairLt(keys[i], keys[j]);
    }
  }

  /** Exactly the accounts whose two balances differ, absent counting as 0, ascending. */
  method CompareBalances(derived: map<string, real>, reconstructed: map<string, real>) returns (out: seq<Discrepancy>)
    ensures forall d :: d in out ==> Genuine(d, derived, reconstructed)
    ensures forall a :: Or0(derived, a) != Or0(reconstructed, a) ==> exists d :: d in out && d.account == a
    ensures forall i, j :: 0 <= i < j < |out| ==> Lt(out[i].account, out[j].account)
  {
    hide SortBy, SortedOn, DistinctOn, Ascends, Lt;
    var unsorted := Enumerate(derived.Keys + reconstructed.Keys);
    var accounts := SortBy(unsorted, AccountKey);
    SortedAscends(unsorted);
    out := [];
    var i := 0;
    while i < |accounts|
      invariant 0 <= i <= |accounts|
      invariant out == Compare(derived, reconstructed, accounts[..i])
    {
      assert accounts[..i + 1][..i] == accounts[..i];
      var d, r := Or0(derived, accounts[i]), Or0(reconstructed, accounts[i]);
      if d != r {
        out := out + [Discrepancy(accounts[i], d, r)];
      }
      i := i + 1;
    }
    assert accounts[..i] == accounts;
    CompareIs(derived, reconstructed, accounts);
  }

  /** Keep only the accounts in the set. */
  function Restrict(m: map<string, real>, scope: set<string>): map<string, real> {
    map a | a in m && a in scope :: m[a]
  }

  // ---- Reconstructed balances, as maps ----

  /** `BigInt(text)`: nothing when it throws. */
  function BigIntOf(amount: AmountText): Option<int> {
    match amount
    case Blank => Some(0)
    case Junk => None
    case Numeral(n) => Some(n)
  }

  /** `new Map(holders.map(...))`: nothing when some amount does not parse. */
  function HolderMap(holders: seq<MptHolder>): Option<map<string, real>> {
    if holders == [] then Some(map[])
    else
      var rest, h := HolderMap(holders[..|holders| - 1]), holders[|holders| - 1];
      if rest.None? || BigIntOf(h.amount).None? then None
      else Some(rest.value[h.account := BigIntOf(h.amount).value as real])
  }

  lemma {:induction false} HolderMapLookup(holders: seq<MptHolder>, a: string)
    requires HolderMap(holders).Some?
    ensures a in HolderMap(holders).value ==>
              exists h :: h in holders && h.account == a && BigIntOf(h.amount).Some? && HolderMap(holders).value[a] == BigIntOf(h.amount).value as real
    ensures (exists h :: h in holders && h.account == a) ==> a in HolderMap(holders).value
  {
    if holders != [] {
      var front, last := holders[..|holders| - 1], holders[|holders| - 1];
      assert holders == front + [last];
      HolderMapLookup(front, a);
    }
  }

  lemma {:induction false} HoldersComeFromObjects(objects: seq<ObjectState>, h: MptHolder)
    ensures h in HoldersOf(objects) <==> exists o :: o in objects && h in HolderOf(o)
  {
    if objects != [] {
      var front, last := objects[..|objects| - 1], objects[|objects| - 1];
      assert objects == front + [last];
      HoldersComeFromObjects(front, h);
    }
  }

  /** The holder list says of an account what its object says. */
  lemma HolderMapShows(id: string, objects: seq<ObjectState>, account: string, value: real)
    requires Shows(Mpt(id), objects, account, value) && account != ""
    requires HolderMap(SortBy(HoldersOf(objects), HolderKey)).Some?
    ensures Or0(HolderMap(SortBy(HoldersOf(objects), HolderKey)).value, account) == value
  {
    hide SortBy, HoldersOf;
    var holders := SortBy(HoldersOf(objects), HolderKey);
    SortKeepsElements(HoldersOf(objects), HolderKey);
    HolderMapLookup(holders, account);
    if account in HolderMap(holders).value {
      var h :| h in holders && h.account == account && BigIntOf(h.amount).Some?
               && HolderMap(holders).value[account] == BigIntOf(h.amount).value as real;
      HoldersComeFromObjects(objects, h);
      var o :| o in objects && h in HolderOf(o);
      assert StateAccount(Mpt(id), o) == account && StateValue(Mpt(id), o) == HolderMap(holders).value[account];
    } else if exists o :: o in objects && StateAccount(Mpt(id), o) == account {
      var o :| o in objects && StateAccount(Mpt(id), o) == account;
      ObjectHasHolder(objects, o);
    }
  }

  lemma ObjectHasHolder(objects: seq<ObjectState>, o: ObjectState)
    requires o in objects && o.fields.account.Or("") != ""
    ensures !o.deleted ==> exists h :: h in HoldersOf(objects) && h.account == o.fields.account.value
  {
    hide HoldersOf;
    if !o.deleted {
      HoldersComeFromObjects(objects, HolderOf(o)[0]);
    }
  }

  lemma {:induction false} BalancesShow(currency: string, issuer: string, objects: seq<ObjectState>, account: string, value: real)
    requires Shows(Iou(currency, issuer), objects, account, value)
    requires forall o :: o in objects ==> IouDeltas.HolderInfo(o.fields, issuer, currency).Some?
    ensures Or0(BalancesOf(objects, currency, issuer), account) == value
  {
    hide IouDeltas.BalanceCurrency;
    BalancesLookup(currency, issuer, objects, account);
    var balances := BalancesOf(objects, currency, issuer);
    if account !in balances && exists o :: o in objects && StateAccount(Iou(currency, issuer), o) == account {
      var o :| o in objects && StateAccount(Iou(currency, issuer), o) == account;
      assert o.deleted;
    }
  }

  ghost predicate Carries(token: Token, objects: seq<ObjectState>, account: string, value: real) {
    exists o :: o in objects && StateAccount(token, o) == account && StateValue(token, o) == value
  }

  lemma {:induction false} BalancesLookup(currency: string, issuer: string, objects: seq<ObjectState>, account: string)
    requires forall o :: o in objects ==> IouDeltas.HolderInfo(o.fields, issuer, currency).Some?
    ensures var token, balances := Iou(currency, issuer), BalancesOf(objects, currency, issuer);
            && (account in balances ==> Carries(token, objects, account, balances[account]))
            && (forall o :: o in objects && StateAccount(token, o) == account && !o.deleted ==> account in balances)
  {
    hide IouDeltas.HolderInfo, IouDeltas.HolderBalance;
    if objects != [] {
      var token := Iou(currency, issuer);
      var front, last := objects[..|objects| - 1], objects[|objects| - 1];
      assert objects == front + [last];
      assert last in objects && forall o :: o in front ==> o in objects;
      BalancesLookup(currency, issuer, front, account);
      var balances := BalancesOf(objects, currency, issuer);
      if account in balances {
        if !last.deleted && StateAccount(token, last) == account {
          assert balances[account] == StateValue(token, last);
        } else {
          assert Carries(token, front, account, balances[account]);
        }
      }
    }
  }

  // ---- The reconciler's runs ----

  /** What `toMptHolders` returns. */
  function Holders(entries: seq<Entry>, id: string): seq<MptHolder> {
    SortBy(HoldersOf(Latest(StatesOf(entries, MatchesMpt(id)))), HolderKey)
  }

  /** Exactly the accounts in scope whose two balances differ, each with both balances, ascending. */
  ghost predicate IsReport(report: seq<Discrepancy>, derived: map<string, real>, reconstructed: map<string, real>, scope: set<string>) {
    && (forall d :: d in report ==> d.account in scope && Genuine(d, derived, reconstructed))
    && (forall a :: a in scope && Or0(derived, a) != Or0(reconstructed, a) ==> exists d :: d in report && d.account == a)
    && (forall i, j :: 0 <= i < j < |report| ==> Lt(report[i].account, report[j].account))
  }

  /** Reconcile an MPT: `derived` and `entries` are what its two queries return. Nothing is reported
      when an amount does not parse and the run throws. */
  method RunMpt(derived: map<string, real>, entries: seq<Entry>, id: string, scope: set<string>) returns (report: Option<seq<Discrepancy>>)
    ensures report.None? <==> HolderMap(Holders(entries, id)).None?
    ensures report.Some? ==> IsReport(report.value, derived, HolderMap(Holders(entries, id)).value, scope)
    ensures report.Some? ==>
              (report.value == [] <==> forall a :: a in scope ==> Or0(derived, a) == Or0(HolderMap(Holders(entries, id)).value, a))
  {
    hide SortBy, HoldersOf, Latest, StatesOf, HolderMap;
    var holders := ToMptHolders(entries, id);
    var reconstructed := HolderMap(holders);
    if reconstructed.None? {
      return None;
    }
    var out := CompareBalances(Restrict(derived, scope), Restrict(reconstructed.value, scope));
    ReportIsExact(derived, reconstructed.value, scope, out);
    report := Some(out);
  }

  lemma ReportIsExact(derived: map<string, real>, reconstructed: map<string, real>, scope: set<string>, out: seq<Discrepancy>)
    requires forall d :: d in out ==> Genuine(d, Restrict(derived, scope), Restrict(reconstructed, scope))
    requires forall a :: Or0(Restrict(derived, scope), a) != Or0(Restrict(reconstructed, scope), a) ==> exists d :: d in out && d.account == a
    requires forall i, j :: 0 <= i < j < |out| ==> Lt(out[i].account, out[j].account)
    ensures IsReport(out, derived, reconstructed, scope)
    ensures out == [] <==> forall a :: a in scope ==> Or0(derived, a) == Or0(reconstructed, a)
  {
    hide Lt;
    forall a | a in scope ensures Or0(Restrict(derived, scope), a) == Or0(derived, a) && Or0(Restrict(reconstructed, scope), a) == Or0(reconstructed, a) {
    }
    if out != [] {
      var d := out[0];
      assert d in out;
      assert d.account in scope && Or0(derived, d.account) != Or0(reconstructed, d.account);
    } else {
      forall a | a in scope ensures Or0(derived, a) == Or0(reconstructed, a) {
        assert Or0(Restrict(derived, scope), a) == Or0(Restrict(reconstructed, scope), a);
      }
    }
  }

  /** Reconcile an IOU. */
  method RunIou(derived: map<string, real>, entries: seq<Entry>, currency: string, issuer: string, scope: set<string>)
    returns (report: seq<Discrepancy>)
    ensures IsReport(report, derived, BalancesOf(Latest(StatesOf(entries, MatchesIou(currency, issuer))), currency, issuer), scope)
    ensures report == [] <==>
            forall a :: a in scope ==>
              Or0(derived, a) == Or0(BalancesOf(Latest(StatesOf(entries, MatchesIou(currency, issuer))), currency, issuer), a)
  {
    hide Latest, StatesOf, BalancesOf;
    var reconstructed := ToIouBalances(entries, issuer, currency);
    report := CompareBalances(Restrict(derived, scope), Restrict(reconstructed, scope));
    ReportIsExact(derived, reconstructed, scope, report);
  }

  // ---- Any ingest reconciles ----

  /** An archive that holds no transaction yet, and nothing of the issuance. */
  ghost predicate Unstarted(db: Db, i: Issuance) {
    db.transactions == map[] && forall k :: k in db.deltas ==> k.2 != i.id
  }

  /** The ledger's row of a hash. */
  function RowIn(txs: seq<IngestTx>, h: string): TxRow {
    if txs == [] then TxRow(0, "", Meta(None, None))
    else if txs[|txs| - 1].hash == h then txs[|txs| - 1].row else RowIn(txs[..|txs| - 1], h)
  }

  lemma {:induction false} RowInIs(token: Token, txs: seq<IngestTx>, i: nat)
    requires Ledger(token, txs) && i < |txs|
    ensures RowIn(txs, txs[i].hash) == txs[i].row
  {
    hide WellFormed, TouchesOf;
    var n := |txs| - 1;
    if i < n {
      assert txs[i].hash != txs[n].hash;
      RowInIs(token, txs[..n], i);
    }
  }

  /** The arrivals bring exactly the ledger's transactions: every one of them at least once, in any order, each
      time with whatever accounts and hook its writer gives it. */
  ghost predicate Brings(txs: seq<IngestTx>, arrivals: seq<Arrival>) {
    && (forall a :: a in arrivals ==> Lists(txs, a.tx.hash, a.tx.row))
    && (forall i :: 0 <= i < |txs| ==> Arrived(arrivals, txs[i].hash))
  }

  ghost predicate Lists(txs: seq<IngestTx>, h: string, row: TxRow) {
    exists i :: 0 <= i < |txs| && txs[i].hash == h && SameRecord(txs[i].row, row)
  }

  /** Hooks name each issuance once and as it is registered. */
  ghost predicate ProperHooks(i: Issuance, arrivals: seq<Arrival>) {
    forall a :: a in arrivals ==>
      DistinctIds(a.hook) && forall o :: o in a.hook && o.id == i.id ==> o == i
  }

  /** Each transaction that moves the token came at least once with the issuance in the hook. */
  ghost predicate DerivedOnce(i: Issuance, txs: seq<IngestTx>, arrivals: seq<Arrival>) {
    forall n :: 0 <= n < |txs| && Moves(i, txs[n].row.meta) ==> ArrivedWith(arrivals, txs[n].hash, i)
  }

  /** Each transaction that touches the account came at least once linked to it. */
  ghost predicate LinkedOnce(token: Token, txs: seq<IngestTx>, arrivals: seq<Arrival>, account: string) {
    forall n :: 0 <= n < |txs| && TouchIn(token, txs[n], account).Some? ==> ArrivedFor(arrivals, txs[n].hash, account)
  }

  ghost predicate ArrivedFor(arrivals: seq<Arrival>, h: string, account: string) {
    exists a :: a in arrivals && a.tx.hash == h && account in a.tx.accounts
  }

  lemma ArrivalsAreProper(i: Issuance, txs: seq<IngestTx>, arrivals: seq<Arrival>)
    requires Ledger(i.token, txs) && Brings(txs, arrivals) && ProperHooks(i, arrivals)
    ensures AllProper(h => RowIn(txs, h), i, arrivals)
  {
    hide Ledger, OneDeltaPerAccount, DistinctIds;
    forall a | a in arrivals ensures SameRecord(a.tx.row, RowIn(txs, a.tx.hash)) && OneDeltaPerAccount(i.token, a.tx.row.meta) {
      assert Lists(txs, a.tx.hash, a.tx.row);
      var n :| 0 <= n < |txs| && txs[n].hash == a.tx.hash && SameRecord(txs[n].row, a.tx.row);
      RowInIs(i.token, txs, n);
      LedgerIsWellFormed(i.token, txs, n);
      DerivedDeltas(i.token, txs[n].row.meta);
    }
  }

  lemma LedgerIsWellFormed(token: Token, txs: seq<IngestTx>, n: nat)
    requires Ledger(token, txs) && n < |txs|
    ensures WellFormed(token, txs[n].row.meta)
  {
  }

  lemma UnstartedIsFaithful(db: Db, i: Issuance, rows: string -> TxRow)
    requires Unstarted(db, i)
    ensures Faithful(db, i) && Copied(rows, db)
  {
  }

  /** The ledger's transactions, arriving in any order and any number of times, by any writers, leave an
      archive that holds them and the deltas they give - if and only if each that moves the token was derived
      for the issuance by at least one of its writers. */
  lemma ArrivalsHoldExactlyWhen(db: Db, i: Issuance, txs: seq<IngestTx>, arrivals: seq<Arrival>)
    requires Unstarted(db, i) && Ledger(i.token, txs) && Brings(txs, arrivals) && ProperHooks(i, arrivals)
    ensures Holds(ArriveAll(db, arrivals), i, txs) <==> DerivedOnce(i, txs, arrivals)
  {
    hide Ledger, ArriveAll, Faithful, Copied, AllProper, Arrived, ArrivedWith, Moves, Unstarted, ProperHooks, Current;
    var rows, after := h => RowIn(txs, h), ArriveAll(db, arrivals);
    ArrivalsAreProper(i, txs, arrivals);
    UnstartedIsFaithful(db, i, rows);
    forall n | 0 <= n < |txs| ensures txs[n].hash in after.transactions && SameRecord(after.transactions[txs[n].hash], txs[n].row) {
      DerivedExactlyWhen(db, arrivals, i, rows, txs[n].hash);
      RowInIs(i.token, txs, n);
      CopiedRow(rows, after, txs[n].hash);
    }
    forall h | h in after.transactions ensures exists n :: 0 <= n < |txs| && txs[n].hash == h {
      StoredCame(db, i, arrivals, rows, h);
      var a :| a in arrivals && a.tx.hash == h;
      assert Lists(txs, a.tx.hash, a.tx.row);
    }
    CurrentExactlyWhen(db, arrivals, i, rows);
    forall n | 0 <= n < |txs| ensures rows(txs[n].hash) == txs[n].row && !(Moves(i, txs[n].row.meta) && Derived(db, i, txs[n].hash, txs[n].row.meta)) {
      RowInIs(i.token, txs, n);
      if Moves(i, txs[n].row.meta) {
        NothingDerived(db, i, txs[n].hash, txs[n].row.meta);
      }
    }
  }

  lemma CopiedRow(rows: string -> TxRow, db: Db, h: string)
    requires Copied(rows, db) && h in db.transactions
    ensures SameRecord(db.transactions[h], rows(h))
  {
  }

  lemma StoredCame(db: Db, i: Issuance, arrivals: seq<Arrival>, rows: string -> TxRow, h: string)
    requires Unstarted(db, i) && AllProper(rows, i, arrivals) && h in ArriveAll(db, arrivals).transactions
    ensures exists a :: a in arrivals && a.tx.hash == h
  {
    hide ArriveAll, Faithful, Copied, AllProper;
    UnstartedIsFaithful(db, i, rows);
    DerivedExactlyWhen(db, arrivals, i, rows, h);
  }

  lemma NothingDerived(db: Db, i: Issuance, h: string, meta: Meta)
    requires Unstarted(db, i) && Moves(i, meta)
    ensures !Derived(db, i, h, meta)
  {
    hide TokenDeltas;
    var d := TokenDeltas(i.token, meta)[0];
    assert d in TokenDeltas(i.token, meta);
  }

  lemma ArrivalsLink(db: Db, i: Issuance, txs: seq<IngestTx>, arrivals: seq<Arrival>, account: string)
    requires (account, i.id) in db.holders && LinkedOnce(i.token, txs, arrivals, account)
    ensures Linked(ArriveAll(db, arrivals), i, txs, account)
  {
    hide ArriveAll, TouchIn;
    ArrivalsFrame(db, arrivals);
    var after := ArriveAll(db, arrivals);
    forall n | 0 <= n < |txs| && TouchIn(i.token, txs[n], account).Some? ensures txs[n].hash in InScopeHashes(after, i.id) {
      var a :| a in arrivals && a.tx.hash == txs[n].hash && account in a.tx.accounts;
      ArrivalsAreStored(db, arrivals, a);
      assert (txs[n].hash, account) in after.links && (account, i.id) in after.holders;
    }
  }

  /** At every ledger, for every account in scope: however the ledger's transactions arrived - in any order, any
      number of times, each time with the accounts and the hook of whoever brought it - the summed deltas are
      the balance the reconstructed object shows. */
  lemma AnyIngestReconciles(db: Db, i: Issuance, txs: seq<IngestTx>, arrivals: seq<Arrival>, account: string, ledger: int, entries: seq<Entry>)
    requires Unstarted(db, i) && Ledger(i.token, txs) && Brings(txs, arrivals) && ProperHooks(i, arrivals)
    requires DerivedOnce(i, txs, arrivals) && LinkedOnce(i.token, txs, arrivals, account)
    requires (account, i.id) in db.holders && Chained(i.token, txs, account)
    requires Reads(entries, ArriveAll(db, arrivals), i.id, ledger)
    ensures Shows(i.token, Latest(StatesOf(entries, Matches(i.token))), account, BalanceAt(ArriveAll(db, arrivals), i.id, account, ledger))
  {
    hide *;
    var after := ArriveAll(db, arrivals);
    ArrivalsHoldExactlyWhen(db, i, txs, arrivals);
    ArrivalsLink(db, i, txs, arrivals, account);
    HeldReconciles(after, i, txs, account, ledger, entries);
  }

  lemma HeldReconciles(db: Db, i: Issuance, txs: seq<IngestTx>, account: string, ledger: int, entries: seq<Entry>)
    requires Ledger(i.token, txs) && Holds(db, i, txs) && Linked(db, i, txs, account) && Chained(i.token, txs, account)
    requires Reads(entries, db, i.id, ledger)
    ensures Shows(i.token, Latest(StatesOf(entries, Matches(i.token))), account, BalanceAt(db, i.id, account, ledger))
  {
    hide *;
    var n := LedgerCuts(i.token, txs, ledger);
    UpToBound(txs, n, ledger);
    DerivedIsSummed(db, i, txs, account, n, ledger);
    ReconstructedIsBalance(db, i, txs, account, n, ledger, entries);
    RoutesAgreeExactlyWhenChained(i.token, txs, account);
  }

  lemma UpToBound(txs: seq<IngestTx>, n: nat, ledger: int)
    requires UpTo(txs, n, ledger)
    ensures n <= |txs|
  {
  }

  lemma {:induction false} StatesMatch(entries: seq<Entry>, matches: Matcher)
    ensures forall s :: s in StatesOf(entries, matches) ==> matches(s.entryType, s.fields)
  {
    if entries != [] {
      StatesMatch(entries[..|entries| - 1], matches);
      var e := entries[|entries| - 1];
      NodesMatch(e, e.meta.Nodes(), matches);
    }
  }

  lemma {:induction false} NodesMatch(e: Entry, nodes: seq<Option<Wrapper>>, matches: Matcher)
    ensures forall s :: s in StatesIn(e, nodes, matches) ==> matches(s.entryType, s.fields)
  {
    if nodes != [] {
      NodesMatch(e, nodes[..|nodes| - 1], matches);
    }
  }

  /** So the holder list of an MPT, read as of any ledger, gives each account in scope the balance
      `archive_balance_at` gives it there. */
  lemma MptBalancesAgree(db: Db, i: Issuance, id: string, txs: seq<IngestTx>, arrivals: seq<Arrival>,
                         account: string, ledger: int, entries: seq<Entry>)
    requires i.token == Mpt(id) && account != ""
    requires Unstarted(db, i) && Ledger(i.token, txs) && Brings(txs, arrivals) && ProperHooks(i, arrivals)
    requires DerivedOnce(i, txs, arrivals) && LinkedOnce(i.token, txs, arrivals, account)
    requires (account, i.id) in db.holders && Chained(i.token, txs, account)
    requires Reads(entries, ArriveAll(db, arrivals), i.id, ledger) && HolderMap(Holders(entries, id)).Some?
    ensures Or0(HolderMap(Holders(entries, id)).value, account) == BalanceAt(ArriveAll(db, arrivals), i.id, account, ledger)
  {
    hide *;
    AnyIngestReconciles(db, i, txs, arrivals, account, ledger, entries);
    MptShows(i, id, entries, account, BalanceAt(ArriveAll(db, arrivals), i.id, account, ledger));
  }

  lemma MptShows(i: Issuance, id: string, entries: seq<Entry>, account: string, value: real)
    requires i.token == Mpt(id) && account != "" && HolderMap(Holders(entries, id)).Some?
    requires Shows(i.token, Latest(StatesOf(entries, Matches(i.token))), account, value)
    ensures Or0(HolderMap(Holders(entries, id)).value, account) == value
  {
    hide Latest, StatesOf, Shows, HolderMap;
    HolderMapShows(id, Latest(StatesOf(entries, MatchesMpt(id))), account, value);
  }

  /** And so do the reconstructed trust-line balances of an IOU, on either side of the line. */
  lemma IouBalancesAgree(db: Db, i: Issuance, currency: string, issuer: string, txs: seq<IngestTx>, arrivals: seq<Arrival>,
                         account: string, ledger: int, entries: seq<Entry>)
    requires i.token == Iou(currency, issuer)
    requires Unstarted(db, i) && Ledger(i.token, txs) && Brings(txs, arrivals) && ProperHooks(i, arrivals)
    requires DerivedOnce(i, txs, arrivals) && LinkedOnce(i.token, txs, arrivals, account)
    requires (account, i.id) in db.holders && Chained(i.token, txs, account)
    requires Reads(entries, ArriveAll(db, arrivals), i.id, ledger)
    ensures Or0(BalancesOf(Latest(StatesOf(entries, MatchesIou(currency, issuer))), currency, issuer), account) ==
            BalanceAt(ArriveAll(db, arrivals), i.id, account, ledger)
  {
    hide *;
    AnyIngestReconciles(db, i, txs, arrivals, account, ledger, entries);
    IouShows(i, currency, issuer, entries, account, BalanceAt(ArriveAll(db, arrivals), i.id, account, ledger));
  }

  lemma IouShows(i: Issuance, currency: string, issuer: string, entries: seq<Entry>, account: string, value: real)
    requires i.token == Iou(currency, issuer)
    requires Shows(i.token, Latest(StatesOf(entries, Matches(i.token))), account, value)
    ensures Or0(BalancesOf(Latest(StatesOf(entries, MatchesIou(currency, issuer))), currency, issuer), account) == value
  {
    hide Latest, StatesOf, Shows, BalancesOf, Or0;
    var states := StatesOf(entries, MatchesIou(currency, issuer));
    StatesMatch(entries, MatchesIou(currency, issuer));
    LatestOnePerObject(states);
    forall o | o in Latest(states) ensures IouDeltas.HolderInfo(o.fields, issuer, currency).Some? {
      LatestFromStates(states, o);
    }
    BalancesShow(currency, issuer, Latest(states), account, value);
  }

  lemma LatestFromStates(states: seq<ObjectState>, o: ObjectState)
    requires o in Latest(states)
    ensures o in states
  {
    hide Latest, Find, Newer;
    LatestOnePerObject(states);
    MemberIsFound(Latest(states), o);
    LatestIsNewest(states, o.objectId);
  }

  // ---- A run over the archive ----

  /** All delta rows of an account (src/reconcile/balanceDeltas.ts:51-58). */
  function AllRows(db: Db, id: int, account: string): set<(string, string, int)> {
    set k | k in db.deltas && k.1 == account && k.2 == id
  }

  /** What the three queries of a run return: each account's summed deltas, the metadata of every in-scope
      transaction, and the accounts in scope. */
  ghost predicate Queried(db: Db, id: int, derived: map<string, real>, entries: seq<Entry>, scope: set<string>) {
    && (forall a :: Or0(derived, a) == SumOver(db.deltas, AllRows(db, id, a)))
    && (forall e :: e in entries <==> IsInScope(db, id, e))
    && (forall a :: a in scope <==> (a, id) in db.holders)
  }

  ghost predicate IsInScope(db: Db, id: int, e: Entry) {
    exists h :: h in InScopeHashes(db, id) && h in db.transactions && e == EntryOf(db.transactions[h])
  }

  function LastLedger(txs: seq<IngestTx>): int {
    if txs == [] then 0
    else
      var rest := LastLedger(txs[..|txs| - 1]);
      if txs[|txs| - 1].row.ledger > rest then txs[|txs| - 1].row.ledger else rest
  }

  lemma {:induction false} BelowLast(txs: seq<IngestTx>, n: nat)
    requires n < |txs|
    ensures txs[n].row.ledger <= LastLedger(txs)
  {
    if n < |txs| - 1 {
      BelowLast(txs[..|txs| - 1], n);
    }
  }

  /** Nothing lies beyond the last ledger, so reading without a bound is reading up to it. */
  lemma UnboundedIsUpToLast(db: Db, i: Issuance, txs: seq<IngestTx>, entries: seq<Entry>, account: string)
    requires Holds(db, i, txs) && forall e :: e in entries <==> IsInScope(db, i.id, e)
    ensures Reads(entries, db, i.id, LastLedger(txs))
    ensures SumOver(db.deltas, AllRows(db, i.id, account)) == BalanceAt(db, i.id, account, LastLedger(txs))
  {
    hide InScopeHashes, SumOver, Derived, TokenDeltas, LastLedger;
    forall h | h in db.transactions ensures db.transactions[h].ledger <= LastLedger(txs) {
      var n :| 0 <= n < |txs| && txs[n].hash == h;
      BelowLast(txs, n);
    }
    forall e ensures IsRead(db, i.id, LastLedger(txs), e) <==> IsInScope(db, i.id, e) {
      if IsInScope(db, i.id, e) {
        var h :| h in InScopeHashes(db, i.id) && h in db.transactions && e == EntryOf(db.transactions[h]);
        assert db.transactions[h].ledger <= LastLedger(txs);
      }
    }
    assert AllRows(db, i.id, account) == RowsUpTo(db, i.id, account, LastLedger(txs));
  }

  /** The token's amounts are integers, or absent. */
  ghost predicate Integral(id: string, nodes: seq<Option<Wrapper>>) {
    forall w :: w in nodes && MptDeltas.TokenFields(w, id).Some? ==>
      MptDeltas.TokenFields(w, id).value.mptAmount.None? || !MptDeltas.TokenFields(w, id).value.mptAmount.value.Junk?
  }

  lemma {:induction false} StatesAreIntegral(id: string, e: Entry, nodes: seq<Option<Wrapper>>)
    requires Integral(id, nodes)
    ensures forall s :: s in StatesIn(e, nodes, MatchesMpt(id)) ==> s.fields.mptAmount.None? || !s.fields.mptAmount.value.Junk?
  {
    if nodes != [] {
      var n := |nodes| - 1;
      assert nodes[n] in nodes && forall w :: w in nodes[..n] ==> w in nodes;
      StatesAreIntegral(id, e, nodes[..n]);
    }
  }

  lemma {:induction false} IntegralHoldersParse(holders: seq<MptHolder>)
    requires forall h :: h in holders ==> !h.amount.Junk?
    ensures HolderMap(holders).Some?
  {
    if holders != [] {
      assert holders[|holders| - 1] in holders && forall h :: h in holders[..|holders| - 1] ==> h in holders;
      IntegralHoldersParse(holders[..|holders| - 1]);
    }
  }

  lemma IntegralEntriesParse(entries: seq<Entry>, id: string)
    requires forall e :: e in entries ==> Integral(id, e.meta.Nodes())
    ensures HolderMap(Holders(entries, id)).Some?
  {
    hide SortBy, Latest, StatesOf, StatesIn, Integral, HoldersOf;
    var objects := Latest(StatesOf(entries, MatchesMpt(id)));
    SortKeepsElements(HoldersOf(objects), HolderKey);
    forall h | h in Holders(entries, id) ensures !h.amount.Junk? {
      HoldersComeFromObjects(objects, h);
      var o :| o in objects && h in HolderOf(o);
      LatestFromStates(StatesOf(entries, MatchesMpt(id)), o);
      StatesComeFromEntries(entries, MatchesMpt(id), o);
      var e :| e in entries && o in StatesIn(e, e.meta.Nodes(), MatchesMpt(id));
      StatesAreIntegral(id, e, e.meta.Nodes());
    }
    IntegralHoldersParse(Holders(entries, id));
  }

  /** No account is named by the empty text: it holds nothing by either route. */
  lemma {:induction false} BlankMovesNothing(token: Token, txs: seq<IngestTx>)
    requires Ledger(token, txs)
    ensures Summed(token, txs, "") == 0.0
  {
    hide TouchesIn;
    if txs != [] {
      var front, last := txs[..|txs| - 1], txs[|txs| - 1];
      BlankMovesNothing(token, front);
      WellFormedOnePerAccount(token, last.row.meta);
      TouchOfIs(TouchesOf(token, last), "");
    }
  }

  lemma BlankHoldsNothing(db: Db, i: Issuance, txs: seq<IngestTx>, entries: seq<Entry>, id: string)
    requires Ledger(i.token, txs) && Holds(db, i, txs) && HolderMap(Holders(entries, id)).Some?
    ensures BalanceAt(db, i.id, "", LastLedger(txs)) == 0.0 && Or0(HolderMap(Holders(entries, id)).value, "") == 0.0
  {
    hide Ledger, Holds, BalanceAt, Summed, SortBy, Latest, StatesOf, LastLedger, HoldersOf;
    forall n | 0 <= n < |txs| ensures txs[n].row.ledger <= LastLedger(txs) {
      BelowLast(txs, n);
    }
    DerivedIsSummed(db, i, txs, "", |txs|, LastLedger(txs));
    assert txs[..|txs|] == txs;
    BlankMovesNothing(i.token, txs);
    HolderMapLookup(Holders(entries, id), "");
    var objects := Latest(StatesOf(entries, MatchesMpt(id)));
    SortKeepsElements(HoldersOf(objects), HolderKey);
    if "" in HolderMap(Holders(entries, id)).value {
      var h :| h in Holders(entries, id) && h.account == "";
      HoldersComeFromObjects(objects, h);
    }
  }

  lemma HeldMptAgrees(db: Db, i: Issuance, id: string, txs: seq<IngestTx>, derived: map<string, real>, entries: seq<Entry>,
                      scope: set<string>, account: string)
    requires i.token == Mpt(id) && Ledger(i.token, txs) && Holds(db, i, txs) && Queried(db, i.id, derived, entries, scope)
    requires HolderMap(Holders(entries, id)).Some?
    requires account != "" ==> Linked(db, i, txs, account) && Chained(i.token, txs, account)
    ensures Or0(derived, account) == Or0(HolderMap(Holders(entries, id)).value, account)
  {
    hide Ledger, Holds, Linked, Chained, BalanceAt, SumOver, AllRows, IsInScope, Reads, HolderMap, Holders, Shows, LastLedger, Or0;
    UnboundedIsUpToLast(db, i, txs, entries, account);
    if account == "" {
      BlankHoldsNothing(db, i, txs, entries, id);
    } else {
      HeldReconciles(db, i, txs, account, LastLedger(txs), entries);
      MptShows(i, id, entries, account, BalanceAt(db, i.id, account, LastLedger(txs)));
    }
  }

  /** Everything the run reads is the ledger's. */
  lemma ReadsAreLedgers(db: Db, i: Issuance, txs: seq<IngestTx>, derived: map<string, real>, entries: seq<Entry>, scope: set<string>, e: Entry)
    requires Holds(db, i, txs) && Queried(db, i.id, derived, entries, scope) && e in entries
    ensures exists n :: 0 <= n < |txs| && e.meta == txs[n].row.meta
  {
    hide InScopeHashes, SumOver, Current, AllRows;
    assert IsInScope(db, i.id, e);
    var h :| h in InScopeHashes(db, i.id) && h in db.transactions && e == EntryOf(db.transactions[h]);
    var n :| 0 <= n < |txs| && txs[n].hash == h;
    assert SameRecord(db.transactions[txs[n].hash], txs[n].row);
  }

  /** Every account in scope arrived linked wherever it is touched, and its nodes take up where the last
      left off. */
  ghost predicate ScopeArrived(i: Issuance, txs: seq<IngestTx>, arrivals: seq<Arrival>, scope: set<string>) {
    forall a :: a in scope ==> LinkedOnce(i.token, txs, arrivals, a) && Chained(i.token, txs, a)
  }

  /** Reconciling an MPT over an archive built by any arrivals of its ledger reports nothing. */
  method ReconcileMpt(ghost start: Db, i: Issuance, id: string, ghost txs: seq<IngestTx>, ghost arrivals: seq<Arrival>,
                      derived: map<string, real>, entries: seq<Entry>, scope: set<string>) returns (report: Option<seq<Discrepancy>>)
    requires i.token == Mpt(id) && Queried(ArriveAll(start, arrivals), i.id, derived, entries, scope)
    requires Unstarted(start, i) && Ledger(i.token, txs) && Brings(txs, arrivals) && ProperHooks(i, arrivals)
    requires DerivedOnce(i, txs, arrivals) && ScopeArrived(i, txs, arrivals, scope)
    requires forall n :: 0 <= n < |txs| ==> Integral(id, txs[n].row.meta.Nodes())
    ensures report == Some([])
  {
    hide Unstarted, Ledger, Brings, ProperHooks, DerivedOnce, LinkedOnce, Chained, Integral, HolderMap, Holders, Or0, SumOver, AllRows, IsInScope;
    hide ArriveAll, Holds, Linked;
    ghost var db := ArriveAll(start, arrivals);
    ArrivalsHoldExactlyWhen(start, i, txs, arrivals);
    ArrivalsFrame(start, arrivals);
    forall e | e in entries ensures Integral(id, e.meta.Nodes()) {
      ReadsAreLedgers(db, i, txs, derived, entries, scope, e);
    }
    IntegralEntriesParse(entries, id);
    forall a | a in scope ensures Or0(derived, a) == Or0(HolderMap(Holders(entries, id)).value, a) {
      assert LinkedOnce(i.token, txs, arrivals, a) && (a, i.id) in start.holders;
      ArrivalsLink(start, i, txs, arrivals, a);
      HeldMptAgrees(db, i, id, txs, derived, entries, scope, a);
    }
    report := RunMpt(derived, entries, id, scope);
  }

  /** And so does reconciling an IOU. */
  method ReconcileIou(ghost start: Db, i: Issuance, currency: string, issuer: string, ghost txs: seq<IngestTx>, ghost arrivals: seq<Arrival>,
                      derived: map<string, real>, entries: seq<Entry>, scope: set<string>) returns (report: seq<Discrepancy>)
    requires i.token == Iou(currency, issuer) && Queried(ArriveAll(start, arrivals), i.id, derived, entries, scope)
    requires Unstarted(start, i) && Ledger(i.token, txs) && Brings(txs, arrivals) && ProperHooks(i, arrivals)
    requires DerivedOnce(i, txs, arrivals) && ScopeArrived(i, txs, arrivals, scope)
    ensures report == []
  {
    hide Unstarted, Ledger, Brings, ProperHooks, DerivedOnce, LinkedOnce, Chained, BalancesOf, Latest, StatesOf, Or0, SumOver, AllRows, IsInScope;
    hide ArriveAll, Holds, Linked;
    ghost var db := ArriveAll(start, arrivals);
    ArrivalsHoldExactlyWhen(start, i, txs, arrivals);
    ArrivalsFrame(start, arrivals);
    forall a | a in scope
      ensures Or0(derived, a) == Or0(BalancesOf(Latest(StatesOf(entries, MatchesIou(currency, issuer))), currency, issuer), a)
    {
      assert LinkedOnce(i.token, txs, arrivals, a) && (a, i.id) in start.holders;
      ArrivalsLink(start, i, txs, arrivals, a);
      HeldIouAgrees(db, i, currency, issuer, txs, derived, entries, scope, a);
    }
    report := RunIou(derived, entries, currency, issuer, scope);
  }

  lemma HeldIouAgrees(db: Db, i: Issuance, currency: string, issuer: string, txs: seq<IngestTx>, derived: map<string, real>,
                      entries: seq<Entry>, scope: set<string>, account: string)
    requires i.token == Iou(currency, issuer) && Ledger(i.token, txs) && Holds(db, i, txs) && Queried(db, i.id, derived, entries, scope)
    requires Linked(db, i, txs, account) && Chained(i.token, txs, account)
    ensures Or0(derived, account) ==
            Or0(BalancesOf(Latest(StatesOf(entries, MatchesIou(currency, issuer))), currency, issuer), account)
  {
    hide Ledger, Holds, Linked, Chained, BalanceAt, SumOver, AllRows, IsInScope, Reads, Shows, LastLedger, Or0, BalancesOf, Latest, StatesOf;
    UnboundedIsUpToLast(db, i, txs, entries, account);
    HeldReconciles(db, i, txs, account, LastLedger(txs), entries);
    IouShows(i, currency, issuer, entries, account, BalanceAt(db, i.id, account, LastLedger(txs)));
  }
}
