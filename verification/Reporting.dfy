/** Balances and itemised changes by ledger or by date (src/api/methods/reporting.ts). */
module Reporting {
  import opened Options
  import opened Metadata
  import opened Tables
  import opened Routes
  import opened LedgerTime
  import opened Gateway

  /** How a request names a point in time: the archive's latest ledger, a ledger number, or neither. */
  datatype LedgerKey = Latest | Exactly(n: int) | NoLedger

  /** The highest ledger a transaction lies in; none when the archive is empty. */
  ghost predicate IsNewest(db: Db, ledger: Option<int>) {
    IsTop(LedgersOf(db.transactions), ledger)
  }

  /** The highest ledger of the archive's range closed at or before the time. */
  ghost predicate IsAtTime(db: Db, up: CloseTimes, time: int, ledger: Option<int>) {
    if db.transactions == map[] then ledger.None?
    else exists lo, hi :: Spans(LedgersOf(db.transactions), lo, hi) && ledger == Search(up, lo, hi, time, None).answer
  }

  /** Latest, number, time, fallback - in this order of preference; `None` is the error answer. */
  method ResolveLedger(a: Archive, up: CloseTimes, key: LedgerKey, time: Option<int>, fallback: Option<int>) returns (ledger: Option<int>)
    requires Agrees(a.ledgers, up)
    modifies a`ledgers
    ensures Agrees(a.ledgers, up) && old(a.ledgers).Keys <= a.ledgers.Keys
    ensures key == Latest ==> IsNewest(a.Contents(), ledger)
    ensures key.Exactly? ==> ledger == Some(key.n)
    ensures key == NoLedger && time.Some? ==> IsAtTime(a.Contents(), up, time.value, ledger)
    ensures key == NoLedger && time.None? ==> ledger == fallback
    ensures !(key == NoLedger && time.Some?) ==> a.ledgers == old(a.ledgers)
  {
    hide Agrees, Search, Cached, Asks, Spans;
    match key {
      case Latest =>
        ledger := Top(LedgersOf(a.transactions));
      case Exactly(n) =>
        ledger := Some(n);
      case NoLedger =>
        if time.Some? {
          var answer, probed, calls := LazyResolve(a, up, time.value);
          CacheGrows(old(a.ledgers), up, probed);
          ledger := answer;
        } else {
          ledger := fallback;
        }
    }
  }

  lemma {:induction false} CacheGrows(ledgers: map<int, int>, up: CloseTimes, probed: seq<int>)
    ensures ledgers.Keys <= Cached(ledgers, up, probed).Keys
  {
    forall n | n in ledgers ensures n in Cached(ledgers, up, probed) {
      CachedHas(ledgers, up, probed, n);
    }
  }

  // ---- A balance at a date ----

  /** The account's delta rows of ledgers closed at or before the time. */
  function RowsByTime(db: Db, up: CloseTimes, id: int, account: string, time: int): set<(string, string, int)> {
    set k | k in db.deltas && k.1 == account && k.2 == id && k.0 in db.transactions && Early(up, db.transactions[k.0].ledger, time)
  }

  lemma EarlyExactlyUpTo(up: CloseTimes, lo: int, hi: int, time: int, n: int, ledger: int)
    requires Chronological(up, lo, hi) && lo <= ledger <= hi
    requires HighestOf(up, lo, hi, time, None, Some(n))
    ensures Early(up, ledger, time) <==> ledger <= n
  {
    if ledger <= n {
      assert up(ledger).Some? && up(n).Some? && up(ledger).value <= up(n).value;
    }
  }

  /** With known, non-decreasing close times the balance at a date is exact: it sums precisely the changes of
      the ledgers closed by then, although only one ledger was looked for. */
  lemma BalanceAtDateIsExact(db: Db, up: CloseTimes, lo: int, hi: int, id: int, account: string, time: int, ledger: Option<int>)
    requires Spans(LedgersOf(db.transactions), lo, hi) && Chronological(up, lo, hi)
    requires ledger == Search(up, lo, hi, time, None).answer
    ensures ledger.Some? ==>
              RowsUpTo(db, id, account, ledger.value) == RowsByTime(db, up, id, account, time)
              && BalanceAt(db, id, account, ledger.value) == SumOver(db.deltas, RowsByTime(db, up, id, account, time))
    ensures ledger.None? ==> RowsByTime(db, up, id, account, time) == {}
  {
    hide Search, SumOver, HighestOf, Chronological, Early;
    SearchIsExact(up, lo, hi, time, None);
    forall h | h in db.transactions ensures lo <= db.transactions[h].ledger <= hi {
      assert db.transactions[h].ledger in LedgersOf(db.transactions);
    }
    if ledger.Some? {
      forall h | h in db.transactions
        ensures Early(up, db.transactions[h].ledger, time) <==> db.transactions[h].ledger <= ledger.value
      {
        EarlyExactlyUpTo(up, lo, hi, time, ledger.value, db.transactions[h].ledger);
      }
      assert RowsUpTo(db, id, account, ledger.value) == RowsByTime(db, up, id, account, time);
    } else {
      NoneMeansNone(up, lo, hi, time);
    }
  }

  lemma NoneMeansNone(up: CloseTimes, lo: int, hi: int, time: int)
    requires HighestOf(up, lo, hi, time, None, None)
    ensures NoneEarly(up, lo, hi, time)
  {
  }

  // ---- Itemised changes ----

  /** The rows `archive_transactions` lists for one account. */
  function RowsBetween(db: Db, id: int, account: string, from: int, to: int): set<(string, string, int)> {
    set k | k in db.deltas && k.1 == account && k.2 == id && k.0 in db.transactions && from <= db.transactions[k.0].ledger <= to
  }

  /** The itemised changes add up to the difference of the two balances. */
  lemma ItemsAddUp(db: Db, id: int, account: string, from: int, to: int)
    requires from <= to + 1
    ensures SumOver(db.deltas, RowsBetween(db, id, account, from, to)) ==
            BalanceAt(db, id, account, to) - BalanceAt(db, id, account, from - 1)
  {
    hide SumOver;
    var before, between := RowsUpTo(db, id, account, from - 1), RowsBetween(db, id, account, from, to);
    assert RowsUpTo(db, id, account, to) == before + between;
    SumOverUnion(db.deltas, before, between);
  }

  /** By dates, the ledgers listed are those closed after the first date and by the second, and the one in
      effect at the first date - which may have closed before it. */
  lemma ListedByDate(up: CloseTimes, lo: int, hi: int, fromTime: int, toTime: int, from: int, to: int, ledger: int)
    requires Chronological(up, lo, hi) && lo <= ledger <= hi && fromTime <= toTime
    requires Search(up, lo, hi, fromTime, None).answer == Some(from) && Search(up, lo, hi, toTime, None).answer == Some(to)
    ensures up(ledger).Some?
    ensures from <= ledger <= to <==> ledger == from || fromTime < up(ledger).value <= toTime
  {
    hide Search, HighestOf, Chronological;
    SearchIsExact(up, lo, hi, fromTime, None);
    SearchIsExact(up, lo, hi, toTime, None);
    EarlyExactlyUpTo(up, lo, hi, fromTime, from, ledger);
    EarlyExactlyUpTo(up, lo, hi, toTime, to, ledger);
    Known(up, lo, hi, ledger);
    FoundEarly(up, lo, hi, fromTime, from);
    EarlyExactlyUpTo(up, lo, hi, toTime, to, from);
  }

  lemma Known(up: CloseTimes, lo: int, hi: int, ledger: int)
    requires Chronological(up, lo, hi) && lo <= ledger <= hi
    ensures up(ledger).Some?
  {
  }

  lemma FoundEarly(up: CloseTimes, lo: int, hi: int, time: int, n: int)
    requires HighestOf(up, lo, hi, time, None, Some(n))
    ensures lo <= n <= hi && Early(up, n, time)
  {
  }

  // ---- archive_balance_at ----

  datatype BalanceAnswer = UnknownIssuance | BadRequest | UnknownAccount | Balance(ledger: int, balance: real)

  /** The balance query: `sums` is the database's answer to the sum for a ledger. */
  method BalanceQuery(a: Archive, up: CloseTimes, issuance: Option<int>, account: Option<string>, key: LedgerKey,
                      time: Option<int>, sums: (int, string, int) -> real) returns (r: BalanceAnswer)
    requires Agrees(a.ledgers, up)
    requires forall id, who, ledger :: sums(id, who, ledger) == BalanceAt(a.Contents(), id, who, ledger)
    modifies a`ledgers
    ensures r.UnknownIssuance? <==> issuance.None?
    ensures r.Balance? ==>
              && issuance.Some? && account.Some? && (account.value, issuance.value) in a.holders
              && r.balance == BalanceAt(old(a.Contents()), issuance.value, account.value, r.ledger)
              && (key == Latest ==> IsNewest(a.Contents(), Some(r.ledger)))
              && (key.Exactly? ==> r.ledger == key.n)
              && (key == NoLedger ==> time.Some? && IsAtTime(a.Contents(), up, time.value, Some(r.ledger)))
    ensures r.UnknownAccount? ==> issuance.Some? && account.Some? && (account.value, issuance.value) !in a.holders
    ensures r.BadRequest? && account.Or("") != "" ==>
              (key == Latest && IsNewest(a.Contents(), None)) ||
              (key == NoLedger && (time.None? || IsAtTime(a.Contents(), up, time.value, None)))
  {
    hide Agrees, BalanceAt, IsAtTime, IsNewest;
    if issuance.None? {
      return UnknownIssuance;
    }
    if account.Or("") == "" {
      return BadRequest;
    }
    var ledger := ResolveLedger(a, up, key, time, None);
    if ledger.None? {
      return BadRequest;
    }
    if (account.value, issuance.value) !in a.holders {
      return UnknownAccount;
    }
    r := Balance(ledger.value, sums(issuance.value, account.value, ledger.value));
  }
}
