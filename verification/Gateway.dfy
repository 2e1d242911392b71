/** `gateway_balances`: what an issuer owes per currency, fail-closed on coverage
    (src/api/methods/gatewayBalances.ts). */
module Gateway {
  import opened Options
  import opened Metadata
  import opened Tables
  import opened Routes
  import opened LedgerTime
  import Currency
  import Jobs

  // ---- The requested ledger ----

  datatype LedgerArg = Unset | Alias | Number(n: int) | Unreadable

  function ResolveLedger(raw: LedgerArg, latest: int): Option<int> {
    match raw
    case Unset => Some(latest)
    case Alias => Some(latest)
    case Number(n) => if n >= 0 then Some(n) else None
    case Unreadable => None
  }

  ghost predicate IsTop(ledgers: set<int>, top: Option<int>) {
    && (top.None? <==> ledgers == {})
    && (top.Some? ==> top.value in ledgers && forall n :: n in ledgers ==> n <= top.value)
  }

  method Top(ledgers: set<int>) returns (top: Option<int>)
    ensures IsTop(ledgers, top)
  {
    if ledgers == {} {
      return None;
    }
    var lo, hi := MinMax(ledgers);
    top := Some(hi);
  }

  ghost predicate IsLatest(db: Db, latest: int) {
    var seen := db.ledgers.Keys + LedgersOf(db.transactions);
    if seen == {} then latest == 0 else latest in seen && forall n :: n in seen ==> n <= latest
  }

  /** The newest ledger the tail has processed or a transaction lies in; 0 when there is neither. */
  method LatestLedger(db: Db) returns (latest: int)
    ensures IsLatest(db, latest)
  {
    var top := Top(db.ledgers.Keys + LedgersOf(db.transactions));
    latest := top.Or(0);
  }

  // ---- Conservative coverage ----

  datatype Window = Window(min: int, max: int)

  /** The coverage rows of the issuance's in-scope accounts. */
  function RowsInScope(db: Db, id: int, rows: seq<Coverage>): seq<Coverage> {
    if rows == [] then []
    else
      RowsInScope(db, id, rows[..|rows| - 1])
      + if (rows[|rows| - 1].address, id) in db.holders then [rows[|rows| - 1]] else []
  }

  function MaxFrom(rows: seq<Coverage>): Option<int> {
    if rows == [] then None
    else
      var rest := MaxFrom(rows[..|rows| - 1]);
      var from := rows[|rows| - 1].fromLedger;
      if rest.Some? && rest.value >= from then rest else Some(from)
  }

  function MinTo(rows: seq<Coverage>): Option<int> {
    if rows == [] then None
    else
      var rest := MinTo(rows[..|rows| - 1]);
      var to := rows[|rows| - 1].toLedger;
      if rest.Some? && rest.value <= to then rest else Some(to)
  }

  /** The `LEFT JOIN` finds no coverage row for some in-scope account. */
  predicate Uncovered(db: Db, id: int) {
    exists h :: h in db.holders && h.1 == id && forall k :: 0 <= k < |db.coverage| ==> db.coverage[k].address != h.0
  }

  function Combined(rows: seq<Coverage>, uncovered: bool, tail: Option<int>): Option<Window> {
    if uncovered || MaxFrom(rows).None? || MinTo(rows).None? then None
    else
      var max := if tail.Some? && tail.value > MinTo(rows).value then tail.value else MinTo(rows).value;
      if MaxFrom(rows).value > max then None else Some(Window(MaxFrom(rows).value, max))
  }

  method ConservativeCoverage(db: Db, id: int) returns (w: Option<Window>, tail: Option<int>)
    ensures IsTop(db.ledgers.Keys, tail)
    ensures w == Combined(RowsInScope(db, id, db.coverage), Uncovered(db, id), tail)
    ensures forall ledger :: Includes(w, ledger) <==> InWindow(db, id, ledger)
  {
    hide RowsInScope, MaxFrom, MinTo, Uncovered, InWindow, Includes, IsTop;
    var rows := db.coverage;
    NoRows(db, id);
    var lo: Option<int>, backfillHi: Option<int> := None, None;
    for n := 0 to |rows|
      invariant lo == MaxFrom(RowsInScope(db, id, rows[..n])) && backfillHi == MinTo(RowsInScope(db, id, rows[..n]))
    {
      OneRowMore(db, id, rows, n);
      if (rows[n].address, id) in db.holders {
        if lo.None? || lo.value < rows[n].fromLedger {
          lo := Some(rows[n].fromLedger);
        }
        if backfillHi.None? || rows[n].toLedger < backfillHi.value {
          backfillHi := Some(rows[n].toLedger);
        }
      }
    }
    assert rows[..|rows|] == rows;
    var tailHi := Top(db.ledgers.Keys);
    tail := tailHi;
    forall ledger
      ensures Includes(Combined(RowsInScope(db, id, db.coverage), Uncovered(db, id), tail), ledger) <==> InWindow(db, id, ledger)
    {
      IncludedExactlyWhen(db, id, tail, ledger);
    }
    if Uncovered(db, id) || lo.None? || backfillHi.None? {
      return None, tail;
    }
    var max := backfillHi.value;
    if tailHi.Some? && max < tailHi.value {
      max := tailHi.value;
    }
    w := if lo.value > max then None else Some(Window(lo.value, max));
  }

  lemma NoRows(db: Db, id: int)
    ensures RowsInScope(db, id, []) == [] && MaxFrom([]).None? && MinTo([]).None?
  {
  }

  lemma OneRowMore(db: Db, id: int, rows: seq<Coverage>, n: nat)
    requires n < |rows|
    ensures rows[..0] == []
    ensures var before, after := RowsInScope(db, id, rows[..n]), RowsInScope(db, id, rows[..n + 1]);
            if (rows[n].address, id) !in db.holders then after == before
            else
              var lo, hi, c := MaxFrom(before), MinTo(before), rows[n];
              && MaxFrom(after) == (if lo.Some? && lo.value >= c.fromLedger then lo else Some(c.fromLedger))
              && MinTo(after) == (if hi.Some? && hi.value <= c.toLedger then hi else Some(c.toLedger))
  {
    var before := RowsInScope(db, id, rows[..n]);
    assert rows[..n + 1][..n] == rows[..n];
    assert (before + [rows[n]])[..|before|] == before;
    assert before + [] == before;
  }

  lemma {:induction false} InScopeRows(db: Db, id: int, rows: seq<Coverage>, c: Coverage)
    ensures c in RowsInScope(db, id, rows) <==> c in rows && (c.address, id) in db.holders
  {
    if rows != [] {
      assert rows == rows[..|rows| - 1] + [rows[|rows| - 1]];
      InScopeRows(db, id, rows[..|rows| - 1], c);
    }
  }

  lemma {:induction false} Extremes(rows: seq<Coverage>, c: Coverage)
    requires c in rows
    ensures MaxFrom(rows).Some? && MinTo(rows).Some? && c.fromLedger <= MaxFrom(rows).value && MinTo(rows).value <= c.toLedger
  {
    var n := |rows| - 1;
    if rows[n] != c {
      assert c in rows[..n];
      Extremes(rows[..n], c);
    }
  }

  ghost predicate Contains(c: Coverage, address: string, ledger: int) {
    c.address == address && c.fromLedger <= ledger <= c.toLedger
  }

  /** Before the tail has run, a ledger inside the window lies inside a coverage row of every in-scope
      account - and inside every such row. */
  lemma WindowIsCovered(db: Db, id: int, ledger: int)
    requires var w := Combined(RowsInScope(db, id, db.coverage), Uncovered(db, id), None);
             w.Some? && w.value.min <= ledger <= w.value.max
    ensures forall h :: h in db.holders && h.1 == id ==> exists c :: c in db.coverage && Contains(c, h.0, ledger)
    ensures forall c :: c in db.coverage && (c.address, id) in db.holders ==> Contains(c, c.address, ledger)
  {
    hide RowsInScope, MaxFrom, MinTo;
    forall c | c in db.coverage && (c.address, id) in db.holders ensures Contains(c, c.address, ledger) {
      InScopeRows(db, id, db.coverage, c);
      Extremes(RowsInScope(db, id, db.coverage), c);
    }
    forall h | h in db.holders && h.1 == id ensures exists c :: c in db.coverage && Contains(c, h.0, ledger) {
      var k :| 0 <= k < |db.coverage| && db.coverage[k].address == h.0;
      assert db.coverage[k] in db.coverage;
    }
  }

  /** Some row ends before the start of the row that starts last. */
  ghost predicate StartsTooLate(rows: seq<Coverage>, tail: Option<int>, c: Coverage) {
    && c in rows && (forall d :: d in rows ==> d.fromLedger <= c.fromLedger)
    && EndsBefore(rows, c.fromLedger) && (tail.Some? ==> tail.value < c.fromLedger)
  }

  ghost predicate EndsBefore(rows: seq<Coverage>, ledger: int) {
    exists d :: d in rows && d.toLedger < ledger
  }

  /** The window is refused exactly when an in-scope account has no coverage row, there is none at all, or
      one starts after another ends and the tail has not come that far. */
  lemma RefusedExactlyWhen(db: Db, id: int, tail: Option<int>)
    ensures var rows := RowsInScope(db, id, db.coverage);
            Combined(rows, Uncovered(db, id), tail).None? <==>
            Uncovered(db, id) || rows == [] || exists c :: StartsTooLate(rows, tail, c)
  {
    hide RowsInScope, Uncovered;
    var rows := RowsInScope(db, id, db.coverage);
    if rows != [] {
      Attained(rows);
      var top, low :| top in rows && low in rows && top.fromLedger == MaxFrom(rows).value && low.toLedger == MinTo(rows).value;
      forall d | d in rows ensures d.fromLedger <= top.fromLedger && low.toLedger <= d.toLedger {
        Extremes(rows, d);
      }
      WindowOf(rows, tail, top, low);
    }
  }

  lemma WindowOf(rows: seq<Coverage>, tail: Option<int>, top: Coverage, low: Coverage)
    requires top in rows && low in rows && forall d :: d in rows ==> d.fromLedger <= top.fromLedger && low.toLedger <= d.toLedger
    requires MaxFrom(rows) == Some(top.fromLedger) && MinTo(rows) == Some(low.toLedger)
    ensures Combined(rows, false, tail).None? <==> exists c :: StartsTooLate(rows, tail, c)
  {
    hide MaxFrom, MinTo;
    if c :| StartsTooLate(rows, tail, c) {
      assert c.fromLedger == top.fromLedger;
      var d :| d in rows && d.toLedger < c.fromLedger;
    }
    if low.toLedger < top.fromLedger && (tail.Some? ==> tail.value < top.fromLedger) {
      assert StartsTooLate(rows, tail, top);
    }
  }

  lemma {:induction false} Attained(rows: seq<Coverage>)
    requires rows != []
    ensures MaxFrom(rows).Some? && MinTo(rows).Some?
    ensures exists top, low :: top in rows && low in rows && top.fromLedger == MaxFrom(rows).value && low.toLedger == MinTo(rows).value
  {
    var n := |rows| - 1;
    assert rows == rows[..n] + [rows[n]];
    assert rows[n] in rows;
    if n > 0 {
      Attained(rows[..n]);
      var top, low :| top in rows[..n] && low in rows[..n]
                      && top.fromLedger == MaxFrom(rows[..n]).value && low.toLedger == MinTo(rows[..n]).value;
      assert top in rows && low in rows;
    } else {
      assert rows[..n] == [];
    }
  }

  // ---- Balances ----

  /** One holder and its balance, as the grouped query gives it. */
  datatype Holding = Holding(address: string, balance: real)

  function IssuanceKeys(db: Db, id: int, ledger: int): set<(string, string, int)> {
    set k | k in db.deltas && k.2 == id && k.0 in db.transactions && db.transactions[k.0].ledger <= ledger
  }

  /** The query's answer: each account with a delta up to the ledger, once, with their sum. */
  ghost predicate Grouped(db: Db, id: int, ledger: int, rows: seq<Holding>) {
    && (forall i, j :: 0 <= i < j < |rows| ==> rows[i].address != rows[j].address)
    && (forall k :: k in IssuanceKeys(db, id, ledger) ==> exists i :: 0 <= i < |rows| && rows[i].address == k.1)
    && (forall i :: 0 <= i < |rows| ==> rows[i].balance == BalanceAt(db, id, rows[i].address, ledger))
  }

  /** What all accounts but those left out hold. */
  ghost function Circulating(db: Db, id: int, out: set<string>, ledger: int): real {
    SumOver(db.deltas, KeysBut(db, id, out, ledger))
  }

  function KeysBut(db: Db, id: int, out: set<string>, ledger: int): set<(string, string, int)> {
    set k | k in IssuanceKeys(db, id, ledger) && k.1 !in out
  }

  function SumRows(rows: seq<Holding>, out: set<string>): real {
    if rows == [] then 0.0
    else SumRows(rows[..|rows| - 1], out) + if rows[|rows| - 1].address in out then 0.0 else rows[|rows| - 1].balance
  }

  /** The keys of the accounts listed, but those left out. */
  function KeysOf(db: Db, id: int, out: set<string>, ledger: int, rows: seq<Holding>): set<(string, string, int)> {
    set k | k in IssuanceKeys(db, id, ledger) && k.1 !in out && Lists(rows, k.1)
  }

  predicate Lists(rows: seq<Holding>, address: string) {
    exists i :: 0 <= i < |rows| && rows[i].address == address
  }

  lemma {:induction false} SumOverUnion(m: DeltaTable, a: set<(string, string, int)>, b: set<(string, string, int)>)
    requires a <= m.Keys && b <= m.Keys && a !! b
    ensures SumOver(m, a + b) == SumOver(m, a) + SumOver(m, b)
    decreases b
  {
    if b == {} {
      assert a + b == a;
    } else {
      var k :| k in b;
      SumOverSplit(m, a + b, k);
      SumOverSplit(m, b, k);
      assert a + b - {k} == a + (b - {k});
      SumOverUnion(m, a, b - {k});
    }
  }

  lemma {:induction false} RowsSum(db: Db, id: int, out: set<string>, ledger: int, rows: seq<Holding>)
    requires forall i, j :: 0 <= i < j < |rows| ==> rows[i].address != rows[j].address
    requires forall i :: 0 <= i < |rows| ==> rows[i].balance == BalanceAt(db, id, rows[i].address, ledger)
    ensures SumRows(rows, out) == SumOver(db.deltas, KeysOf(db, id, out, ledger, rows))
  {
    hide SumOver;
    if rows == [] {
      assert KeysOf(db, id, out, ledger, rows) == {};
      NoKeys(db.deltas);
    } else {
      var n := |rows| - 1;
      var front, last := rows[..n], rows[n];
      RowsSum(db, id, out, ledger, front);
      ListsOneMore(rows);
      var keys := if last.address in out then {} else RowsUpTo(db, id, last.address, ledger);
      assert KeysOf(db, id, out, ledger, rows) == KeysOf(db, id, out, ledger, front) + keys;
      assert !Lists(front, last.address);
      SumOverUnion(db.deltas, KeysOf(db, id, out, ledger, front), keys);
      NoKeys(db.deltas);
    }
  }

  lemma NoKeys(m: DeltaTable)
    ensures SumOver(m, {}) == 0.0
  {
  }

  lemma ListsOneMore(rows: seq<Holding>)
    requires rows != []
    ensures forall a :: Lists(rows, a) <==> Lists(rows[..|rows| - 1], a) || a == rows[|rows| - 1].address
  {
    var front := rows[..|rows| - 1];
    forall a ensures Lists(rows, a) <==> Lists(front, a) || a == rows[|rows| - 1].address {
      if Lists(front, a) {
        var i :| 0 <= i < |front| && front[i].address == a;
        assert rows[i].address == a;
      }
      if Lists(rows, a) && a != rows[|rows| - 1].address {
        var i :| 0 <= i < |rows| && rows[i].address == a;
        assert front[i].address == a;
      }
    }
  }

  lemma GroupedSum(db: Db, id: int, out: set<string>, ledger: int, rows: seq<Holding>)
    requires Grouped(db, id, ledger, rows)
    ensures SumRows(rows, out) == Circulating(db, id, out, ledger)
  {
    hide SumOver;
    RowsSum(db, id, out, ledger, rows);
    assert KeysOf(db, id, out, ledger, rows) == KeysBut(db, id, out, ledger);
  }

  // ---- The answer ----

  datatype IouIssuance = IouIssuance(id: int, currency: string)

  datatype HotBalance = HotBalance(address: string, currency: string, value: real)

  /** `balances` lists the hot wallets' entries in the order they are pushed; the source groups them by address. */
  datatype Answer =
    | NotInArchive
    | InvalidParams
    | OutOfCoverage(currency: string)
    | Success(obligations: map<string, real>, balances: seq<HotBalance>, ledger: int)

  /** The registered, enabled IOU issuances of an issuer, as the query lists them. */
  ghost predicate Registered(db: Db, enabled: set<int>, issuer: string, issuances: seq<IouIssuance>) {
    && (forall k :: 0 <= k < |issuances| ==>
          issuances[k].id in db.issuances && issuances[k].id in enabled
          && db.issuances[issuances[k].id] == Iou(issuances[k].currency, issuer))
    && (forall id :: id in db.issuances && id in enabled && db.issuances[id].Iou? && db.issuances[id].issuer == issuer ==>
          exists k :: 0 <= k < |issuances| && issuances[k].id == id)
    && (forall j, k :: 0 <= j < k < |issuances| ==> issuances[j].id != issuances[k].id)
  }

  /** An IOU is registered once per currency and issuer (src/db/migrations.ts:37). */
  ghost predicate OncePerCurrency(db: Db) {
    forall i, j :: i in db.issuances && j in db.issuances && db.issuances[i].Iou? && db.issuances[i] == db.issuances[j] ==> i == j
  }

  function HotSum(balances: seq<HotBalance>, currency: string): real {
    if balances == [] then 0.0
    else
      HotSum(balances[..|balances| - 1], currency)
      + if balances[|balances| - 1].currency == currency then balances[|balances| - 1].value else 0.0
  }

  function Owed(obligations: map<string, real>, currency: string): real {
    if currency in obligations then obligations[currency] else 0.0
  }

  lemma HotAppend(balances: seq<HotBalance>, b: HotBalance, currency: string)
    ensures HotSum(balances + [b], currency) == HotSum(balances, currency) + if b.currency == currency then b.value else 0.0
  {
    assert (balances + [b])[..|balances|] == balances;
  }

  /** The entry breaks out one of these rows: a hot wallet's, not the issuer's, not zero. */
  ghost predicate BreaksOut(rows: seq<Holding>, issuer: string, hot: set<string>, wire: string, b: HotBalance) {
    && Holding(b.address, b.value) in rows && b.currency == wire
    && b.address in hot && b.address != issuer && b.value != 0.0
  }

  lemma OneHolderMore(rows: seq<Holding>, n: nat, out: set<string>)
    requires n < |rows|
    ensures SumRows(rows[..n + 1], out) == SumRows(rows[..n], out) + if rows[n].address in out then 0.0 else rows[n].balance
  {
    assert rows[..n + 1][..n] == rows[..n];
  }

  lemma OneEntryMore(rows: seq<Holding>, n: nat, issuer: string, hot: set<string>, wire: string, b: HotBalance)
    requires n < |rows|
    ensures BreaksOut(rows[..n + 1], issuer, hot, wire, b) <==>
            BreaksOut(rows[..n], issuer, hot, wire, b) || BreaksOut([rows[n]], issuer, hot, wire, b)
  {
    assert rows[..n + 1] == rows[..n] + [rows[n]];
  }

  lemma OneWallet(balances: seq<HotBalance>, entry: HotBalance, r: Holding, issuer: string, hot: set<string>, wire: string)
    requires entry == HotBalance(r.address, wire, r.balance) && r.address in hot && r.address != issuer && r.balance != 0.0
    ensures forall b :: b in balances + [entry] <==> b in balances || BreaksOut([r], issuer, hot, wire, b)
    ensures forall currency ::
              HotSum(balances + [entry], currency) == HotSum(balances, currency) + if wire == currency then r.balance else 0.0
  {
    hide HotSum;
    forall currency
      ensures HotSum(balances + [entry], currency) == HotSum(balances, currency) + if wire == currency then r.balance else 0.0
    {
      HotAppend(balances, entry, currency);
    }
    forall b ensures BreaksOut([r], issuer, hot, wire, b) <==> b == entry {
      assert Holding(b.address, b.value) in [r] <==> b.address == r.address && b.value == r.balance;
    }
  }

  /** One issuance's holders, hot wallets broken out. */
  method Tally(rows: seq<Holding>, issuer: string, hot: set<string>, wire: string, balances: seq<HotBalance>)
    returns (obligation: real, more: seq<HotBalance>)
    ensures obligation == SumRows(rows, hot + {issuer})
    ensures forall b :: b in more <==> b in balances || BreaksOut(rows, issuer, hot, wire, b)
    ensures obligation + HotSum(more, wire) == SumRows(rows, {issuer}) + HotSum(balances, wire)
    ensures forall other :: other != wire ==> HotSum(more, other) == HotSum(balances, other)
  {
    hide HotSum, SumRows;
    obligation, more := 0.0, balances;
    NoRowsYet(hot + {issuer});
    NoRowsYet({issuer});
    for n := 0 to |rows|
      invariant obligation == SumRows(rows[..n], hot + {issuer})
      invariant forall b :: b in more <==> b in balances || BreaksOut(rows[..n], issuer, hot, wire, b)
      invariant obligation + HotSum(more, wire) == SumRows(rows[..n], {issuer}) + HotSum(balances, wire)
      invariant forall other :: other != wire ==> HotSum(more, other) == HotSum(balances, other)
    {
      var r := rows[n];
      OneHolderMore(rows, n, hot + {issuer});
      OneHolderMore(rows, n, {issuer});
      forall b ensures BreaksOut(rows[..n + 1], issuer, hot, wire, b) <==>
                       BreaksOut(rows[..n], issuer, hot, wire, b) || BreaksOut([r], issuer, hot, wire, b) {
        OneEntryMore(rows, n, issuer, hot, wire, b);
      }
      if r.address == issuer {
        continue;
      }
      if r.balance == 0.0 {
        continue;
      }
      if r.address in hot {
        var entry := HotBalance(r.address, wire, r.balance);
        OneWallet(more, entry, r, issuer, hot, wire);
        more := more + [entry];
      } else {
        obligation := obligation + r.balance;
      }
    }
    assert rows[..|rows|] == rows;
  }

  lemma NoRowsYet(out: set<string>)
    ensures SumRows([], out) == 0.0
  {
  }

  ghost predicate InScopeRow(db: Db, id: int, c: Coverage) {
    c in db.coverage && (c.address, id) in db.holders
  }

  /** Every account in scope is covered at the ledger: each has a coverage row and there is one at all, every row of
      theirs starts at the ledger or before it, and either all of them reach it or the tail has processed a ledger
      that does. */
  ghost predicate InWindow(db: Db, id: int, ledger: int) {
    && (exists c :: InScopeRow(db, id, c))
    && (forall h :: h in db.holders && h.1 == id ==> exists c :: c in db.coverage && c.address == h.0)
    && (forall c :: InScopeRow(db, id, c) ==> c.fromLedger <= ledger)
    && ((forall c :: InScopeRow(db, id, c) ==> ledger <= c.toLedger) || exists n :: n in db.ledgers && ledger <= n)
  }

  predicate Includes(w: Option<Window>, ledger: int) {
    w.Some? && w.value.min <= ledger <= w.value.max
  }

  lemma UncoveredMeans(db: Db, id: int)
    ensures !Uncovered(db, id) <==> forall h :: h in db.holders && h.1 == id ==> exists c :: c in db.coverage && c.address == h.0
  {
    forall h | h in db.holders && h.1 == id
      ensures (exists c :: c in db.coverage && c.address == h.0) <==> exists k :: 0 <= k < |db.coverage| && db.coverage[k].address == h.0
    {
      if k :| 0 <= k < |db.coverage| && db.coverage[k].address == h.0 {
        assert db.coverage[k] in db.coverage;
      }
    }
  }

  lemma TailReaches(db: Db, tail: Option<int>, ledger: int)
    requires IsTop(db.ledgers.Keys, tail)
    ensures tail.Some? && ledger <= tail.value <==> exists n :: n in db.ledgers && ledger <= n
  {
  }

  lemma RowsReach(rows: seq<Coverage>, ledger: int)
    requires rows != []
    ensures MaxFrom(rows).Some? && MinTo(rows).Some?
    ensures MaxFrom(rows).value <= ledger <==> forall c :: c in rows ==> c.fromLedger <= ledger
    ensures ledger <= MinTo(rows).value <==> forall c :: c in rows ==> ledger <= c.toLedger
  {
    hide MaxFrom, MinTo;
    Attained(rows);
    forall c | c in rows ensures c.fromLedger <= MaxFrom(rows).value && MinTo(rows).value <= c.toLedger {
      Extremes(rows, c);
    }
  }

  /** The window computed includes exactly those ledgers. */
  lemma IncludedExactlyWhen(db: Db, id: int, tail: Option<int>, ledger: int)
    requires IsTop(db.ledgers.Keys, tail)
    ensures Includes(Combined(RowsInScope(db, id, db.coverage), Uncovered(db, id), tail), ledger) <==> InWindow(db, id, ledger)
  {
    hide RowsInScope, MaxFrom, MinTo, Uncovered, IsTop;
    var rows := RowsInScope(db, id, db.coverage);
    forall c ensures c in rows <==> InScopeRow(db, id, c) {
      InScopeRows(db, id, db.coverage, c);
    }
    UncoveredMeans(db, id);
    TailReaches(db, tail, ledger);
    if rows == [] {
      NothingToCombine(tail);
    } else {
      assert rows[0] in rows;
      RowsReach(rows, ledger);
    }
  }

  lemma {:induction false} SomeTop(ledgers: set<int>) returns (top: Option<int>)
    ensures IsTop(ledgers, top)
    decreases ledgers
  {
    if ledgers == {} {
      top := None;
    } else {
      Jobs.Inhabited(ledgers);
      var n :| n in ledgers;
      var rest := SomeTop(ledgers - {n});
      assert forall m :: m in ledgers <==> m == n || m in ledgers - {n};
      top := if rest.None? || rest.value < n then Some(n) else rest;
    }
  }

  lemma NothingToCombine(tail: Option<int>)
    ensures Combined([], false, tail).None? && Combined([], true, tail).None?
  {
  }

  method CheckCoverage(db: Db, issuances: seq<IouIssuance>, ledger: int) returns (refused: Option<string>)
    ensures refused.None? ==> forall k :: 0 <= k < |issuances| ==> InWindow(db, issuances[k].id, ledger)
    ensures refused.Some? ==> RefusedFor(db, issuances, ledger, refused.value)
  {
    hide RowsInScope, Uncovered, Combined, IsTop, InWindow;
    for n := 0 to |issuances|
      invariant forall k :: 0 <= k < n ==> InWindow(db, issuances[k].id, ledger)
    {
      var w, tail := ConservativeCoverage(db, issuances[n].id);
      if !Includes(w, ledger) {
        return Some(issuances[n].currency);
      }
    }
    refused := None;
  }

  ghost predicate AllGrouped(db: Db, issuances: seq<IouIssuance>, ledger: int, answers: seq<seq<Holding>>) {
    && |answers| == |issuances|
    && forall k :: 0 <= k < |issuances| ==> Grouped(db, issuances[k].id, ledger, answers[k])
  }

  // ---- What is reported under a key ----

  /** A resolved request. */
  datatype Inquiry = Inquiry(db: Db, issuances: seq<IouIssuance>, issuer: string, hot: set<string>, ledger: int)
  {
    predicate Lists(k: int) {
      0 <= k < |issuances|
    }

    function Key(k: int): string
      requires Lists(k)
    {
      Currency.ToWire(issuances[k].currency)
    }

    /** What everybody but the issuer holds of an issuance. */
    ghost function Outstanding(k: int): real
      requires Lists(k)
    {
      Circulating(db, issuances[k].id, {issuer}, ledger)
    }

    /** What everybody but the issuer and the hot wallets holds. */
    ghost function Obligation(k: int): real
      requires Lists(k)
    {
      Circulating(db, issuances[k].id, hot + {issuer}, ledger)
    }

    /** The entry is a hot wallet's balance in a listed issuance. */
    ghost predicate Wallet(k: int, b: HotBalance) {
      && Lists(k) && b.currency == Key(k) && b.address in hot && b.address != issuer
      && b.value == BalanceAt(db, issuances[k].id, b.address, ledger) && b.value != 0.0
    }

    ghost predicate SomeWallet(n: nat, b: HotBalance) {
      exists k :: 0 <= k < n && Wallet(k, b)
    }

    /** The obligations after the first `n` issuances: each that owes something sets its key. */
    ghost function Obligations(n: nat): map<string, real>
      requires n <= |issuances|
    {
      if n == 0 then map[]
      else if Obligation(n - 1) == 0.0 then Obligations(n - 1)
      else Obligations(n - 1)[Key(n - 1) := Obligation(n - 1)]
    }

    /** What was set under a key and then set again. */
    ghost function Overwritten(n: nat, key: string): real
      requires n <= |issuances|
    {
      if n == 0 then 0.0
      else Overwritten(n - 1, key)
           + if Key(n - 1) == key && Obligation(n - 1) != 0.0 then Owed(Obligations(n - 1), key) else 0.0
    }

    /** All there is of the issuances with this key. */
    ghost function KeyTotal(n: nat, key: string): real
      requires n <= |issuances|
    {
      if n == 0 then 0.0 else KeyTotal(n - 1, key) + if Key(n - 1) == key then Outstanding(n - 1) else 0.0
    }

    /** What is reported under each key, and what was overwritten there, add up to all there is. */
    ghost predicate Balanced(n: nat, balances: seq<HotBalance>)
      requires n <= |issuances|
    {
      forall key :: Owed(Obligations(n), key) + HotSum(balances, key) + Overwritten(n, key) == KeyTotal(n, key)
    }

    ghost predicate BrokenOut(n: nat, balances: seq<HotBalance>) {
      forall b :: b in balances <==> SomeWallet(n, b)
    }
  }

  lemma OneIssuanceMore(q: Inquiry, n: nat, balances: seq<HotBalance>, more: seq<HotBalance>)
    requires n < |q.issuances| && q.Balanced(n, balances)
    requires q.Obligation(n) + HotSum(more, q.Key(n)) == q.Outstanding(n) + HotSum(balances, q.Key(n))
    requires forall other :: other != q.Key(n) ==> HotSum(more, other) == HotSum(balances, other)
    ensures q.Balanced(n + 1, more)
  {
    hide Currency.ToWire, HotSum, Circulating;
  }

  lemma WalletsOfOneMore(q: Inquiry, n: nat, rows: seq<Holding>, balances: seq<HotBalance>, more: seq<HotBalance>)
    requires n < |q.issuances| && q.BrokenOut(n, balances) && Grouped(q.db, q.issuances[n].id, q.ledger, rows)
    requires forall b :: b in more <==> b in balances || BreaksOut(rows, q.issuer, q.hot, q.Key(n), b)
    ensures q.BrokenOut(n + 1, more)
  {
    hide Currency.ToWire, BalanceAt;
    forall b ensures b in more <==> q.SomeWallet(n + 1, b) {
      if q.Wallet(n, b) {
        ListedWithBalance(q.db, q.issuances[n].id, q.ledger, rows, b.address);
      }
      assert q.SomeWallet(n + 1, b) <==> q.SomeWallet(n, b) || q.Wallet(n, b);
    }
  }

  /** An account with a balance is among the rows, with that balance. */
  lemma ListedWithBalance(db: Db, id: int, ledger: int, rows: seq<Holding>, address: string)
    requires Grouped(db, id, ledger, rows) && BalanceAt(db, id, address, ledger) != 0.0
    ensures Holding(address, BalanceAt(db, id, address, ledger)) in rows
  {
    hide SumOver;
    var keys := RowsUpTo(db, id, address, ledger);
    NoKeys(db.deltas);
    assert keys != {};
    var k :| k in keys;
    assert k in IssuanceKeys(db, id, ledger);
    var i :| 0 <= i < |rows| && rows[i].address == k.1;
    assert rows[i] == Holding(address, BalanceAt(db, id, address, ledger));
  }

  lemma NothingReported(q: Inquiry)
    ensures q.Balanced(0, []) && q.BrokenOut(0, [])
  {
  }

  // ---- When two issuances share a key ----

  /** Two codes that the wire form cannot tell apart: neither has 3 characters, both have at most 20 bytes, and
      they differ only in the NULs they end in. */
  predicate Merges(a: string, b: string) {
    && |a| != 3 && |b| != 3 && |Currency.Encode(a)| <= 20 && |Currency.Encode(b)| <= 20
    && Currency.Trimmed(a) == Currency.Trimmed(b)
  }

  lemma KeySharedExactlyWhen(q: Inquiry, enabled: set<int>, j: int, k: int)
    requires Registered(q.db, enabled, q.issuer, q.issuances) && OncePerCurrency(q.db)
    requires q.Lists(j) && q.Lists(k) && j != k
    ensures q.Key(j) == q.Key(k) <==> Merges(q.issuances[j].currency, q.issuances[k].currency)
  {
    hide Currency.ToWire, Currency.Encode, Currency.Trimmed;
    Currency.WireSharedExactlyWhen(q.issuances[j].currency, q.issuances[k].currency);
  }

  /** Two issuances of this key that both owe something. */
  ghost predicate BothOwe(q: Inquiry, j: int, k: int, key: string) {
    && q.Lists(j) && q.Lists(k) && j != k && q.Key(j) == key == q.Key(k)
    && q.Obligation(j) != 0.0 && q.Obligation(k) != 0.0
  }

  ghost predicate Owes(q: Inquiry, n: nat, key: string)
    requires n <= |q.issuances|
  {
    exists k :: 0 <= k < n && q.Key(k) == key && q.Obligation(k) != 0.0
  }

  lemma {:induction false} OwedIfOwes(q: Inquiry, n: nat, key: string)
    requires n <= |q.issuances|
    ensures Owes(q, n, key) <==> key in q.Obligations(n)
    ensures key in q.Obligations(n) ==> q.Obligations(n)[key] != 0.0
    ensures (forall k :: q.Lists(k) ==> q.Obligation(k) >= 0.0) ==> Owed(q.Obligations(n), key) >= 0.0
  {
    hide Currency.ToWire, Circulating;
    if n > 0 {
      OwedIfOwes(q, n - 1, key);
    }
  }

  ghost predicate TwoOwe(q: Inquiry, n: nat, key: string) {
    exists j, k :: 0 <= j < k < n && BothOwe(q, j, k, key)
  }

  lemma TwoOweStep(q: Inquiry, n: nat, key: string)
    requires n < |q.issuances|
    ensures TwoOwe(q, n + 1, key) <==>
            TwoOwe(q, n, key) || (q.Key(n) == key && q.Obligation(n) != 0.0 && Owes(q, n, key))
  {
    hide Currency.ToWire, Circulating;
    if TwoOwe(q, n, key) {
      var j, k :| 0 <= j < k < n && BothOwe(q, j, k, key);
      assert TwoOwe(q, n + 1, key);
    }
    if q.Key(n) == key && q.Obligation(n) != 0.0 && Owes(q, n, key) {
      var j :| 0 <= j < n && q.Key(j) == key && q.Obligation(j) != 0.0;
      assert BothOwe(q, j, n, key);
    }
  }

  /** Where nobody's balance is negative, something is overwritten if and only if two issuances of the key
      both owe something. */
  lemma {:induction false} OverwrittenExactlyWhen(q: Inquiry, n: nat, key: string)
    requires n <= |q.issuances| && forall k :: q.Lists(k) ==> q.Obligation(k) >= 0.0
    ensures q.Overwritten(n, key) >= 0.0
    ensures q.Overwritten(n, key) != 0.0 <==> TwoOwe(q, n, key)
  {
    hide Currency.ToWire, Circulating;
    if n > 0 {
      OverwrittenExactlyWhen(q, n - 1, key);
      OwedIfOwes(q, n - 1, key);
      TwoOweStep(q, n - 1, key);
    }
  }

  /** So there a key reports all there is of its issuances if and only if no two of them both owe something. */
  lemma KeyConservedExactlyWhen(q: Inquiry, balances: seq<HotBalance>, key: string)
    requires q.Balanced(|q.issuances|, balances) && forall k :: q.Lists(k) ==> q.Obligation(k) >= 0.0
    ensures var n := |q.issuances|;
            Owed(q.Obligations(n), key) + HotSum(balances, key) == q.KeyTotal(n, key) <==> !TwoOwe(q, n, key)
  {
    hide Currency.ToWire, Circulating, TwoOwe;
    OverwrittenExactlyWhen(q, |q.issuances|, key);
  }

  /** Nothing is overwritten under a key that two issuances which owe something do not share. */
  lemma {:induction false} NothingOverwritten(q: Inquiry, n: nat, key: string)
    requires n <= |q.issuances| && !TwoOwe(q, n, key)
    ensures q.Overwritten(n, key) == 0.0
  {
    hide Currency.ToWire, Circulating;
    if n > 0 {
      TwoOweStep(q, n - 1, key);
      NothingOverwritten(q, n - 1, key);
      OwedIfOwes(q, n - 1, key);
    }
  }

  /** No listed currency merges with that of issuance `k`. */
  ghost predicate Alone(q: Inquiry, k: int) {
    && q.Lists(k)
    && forall j :: q.Lists(j) && j != k ==> !Merges(q.issuances[j].currency, q.issuances[k].currency)
  }

  lemma {:induction false} TotalOfOne(q: Inquiry, n: nat, k: int)
    requires n <= |q.issuances| && q.Lists(k) && forall j :: q.Lists(j) && j != k ==> q.Key(j) != q.Key(k)
    ensures q.KeyTotal(n, q.Key(k)) == if k < n then q.Outstanding(k) else 0.0
  {
    hide Currency.ToWire, Circulating;
    if n > 0 {
      TotalOfOne(q, n - 1, k);
    }
  }

  /** An issuance whose currency merges with no other's is reported in full, under a key of its own. */
  lemma AloneIsConserved(q: Inquiry, enabled: set<int>, balances: seq<HotBalance>, k: int)
    requires Registered(q.db, enabled, q.issuer, q.issuances) && OncePerCurrency(q.db)
    requires q.Balanced(|q.issuances|, balances) && Alone(q, k)
    ensures Owed(q.Obligations(|q.issuances|), q.Key(k)) + HotSum(balances, q.Key(k)) == q.Outstanding(k)
    ensures forall j :: q.Lists(j) && j != k ==> q.Key(j) != q.Key(k)
  {
    hide Currency.ToWire, Currency.Encode, Currency.Trimmed, Circulating, HotSum, Registered, OncePerCurrency, Merges, Owed;
    forall j | q.Lists(j) && j != k ensures q.Key(j) != q.Key(k) {
      KeySharedExactlyWhen(q, enabled, j, k);
    }
    var n := |q.issuances|;
    TotalOfOne(q, n, k);
    NothingOverwritten(q, n, q.Key(k));
  }

  const CODE := "ABCD"

  /** Two currencies of one issuer, the second code being the first and a NUL, with one holder each. */
  function TwoCurrencies(): Db {
    Db(map[1 := Iou(CODE, "i"), 2 := Iou(CODE + [0 as char], "i")],
       map["x" := TxRow(1, "", Meta(None, None))], map[], {}, map[], map[("x", "a", 1) := 5.0, ("x", "b", 2) := 7.0], [], map[], map[])
  }

  lemma SumOfOne(m: DeltaTable, k: (string, string, int))
    requires k in m
    ensures SumOver(m, {k}) == m[k]
  {
    SumOverSplit(m, {k}, k);
    assert {k} - {k} == {};
  }

  lemma CodesCollide()
    ensures Currency.ToWire(CODE) == Currency.ToWire(CODE + [0 as char])
  {
    hide Currency.ToWire, Currency.Encode, Currency.Utf8;
    Currency.EncodeAscii(CODE);
    Currency.TrailingNulCollides(CODE);
  }

  /** Both are owed, 5 and 7, and the one key they share reports 7. */
  lemma SecondOverwritesFirst()
    ensures var q := Inquiry(TwoCurrencies(), [IouIssuance(1, CODE), IouIssuance(2, CODE + [0 as char])], "i", {}, 1);
            q.Key(0) == q.Key(1) && q.KeyTotal(2, q.Key(0)) == 12.0 && Owed(q.Obligations(2), q.Key(0)) == 7.0
  {
    hide Currency.ToWire;
    var db := TwoCurrencies();
    var q := Inquiry(db, [IouIssuance(1, CODE), IouIssuance(2, CODE + [0 as char])], "i", {}, 1);
    CodesCollide();
    assert q.Key(0) == q.Key(1);
    TwoOutstanding();
    assert q.hot + {q.issuer} == {"i"};
    assert q.Obligations(1) == map[q.Key(0) := 5.0] && q.KeyTotal(1, q.Key(0)) == 5.0 by {
      assert q.Obligations(0) == map[] && q.KeyTotal(0, q.Key(0)) == 0.0;
    }
  }

  lemma TwoOutstanding()
    ensures Circulating(TwoCurrencies(), 1, {"i"}, 1) == 5.0 && Circulating(TwoCurrencies(), 2, {"i"}, 1) == 7.0
  {
    hide SumOver;
    var db := TwoCurrencies();
    assert KeysBut(db, 1, {"i"}, 1) == {("x", "a", 1)};
    assert KeysBut(db, 2, {"i"}, 1) == {("x", "b", 2)};
    SumOfOne(db.deltas, ("x", "a", 1));
    SumOfOne(db.deltas, ("x", "b", 2));
  }

  /** Codes that do not end in NUL never merge. */
  lemma NulFreeAlone(q: Inquiry, enabled: set<int>, k: int)
    requires Registered(q.db, enabled, q.issuer, q.issuances) && OncePerCurrency(q.db) && q.Lists(k)
    requires forall j :: q.Lists(j) ==> !Currency.EndsInNul(q.issuances[j].currency)
    ensures Alone(q, k)
  {
    hide Currency.Encode;
    forall j | q.Lists(j) && j != k ensures !Merges(q.issuances[j].currency, q.issuances[k].currency) {
    }
  }

  /** The ledger the request asks for. */
  ghost predicate Resolves(db: Db, raw: LedgerArg, ledger: int) {
    match raw
    case Number(n) => n >= 0 && ledger == n
    case Unreadable => false
    case _ => IsLatest(db, ledger)
  }

  /** The listed currency's window does not include the ledger. */
  ghost predicate RefusedFor(db: Db, issuances: seq<IouIssuance>, ledger: int, currency: string) {
    exists k :: 0 <= k < |issuances| && issuances[k].currency == currency && !InWindow(db, issuances[k].id, ledger)
  }

  /** For each key, what is reported as owed, what the hot wallets hold and what was overwritten add up to
      everything the other holders have of its issuances, whichever wallets are named hot; the entries broken
      out are exactly the hot wallets' balances; and nothing is reported unless every issuance's coverage
      includes the ledger. */
  method GatewayBalances(db: Db, enabled: set<int>, issuer: string, hotwallets: Option<set<string>>, raw: LedgerArg,
                         issuances: seq<IouIssuance>, answers: int -> seq<seq<Holding>>) returns (r: Answer)
    requires Registered(db, enabled, issuer, issuances)
    requires forall ledger :: AllGrouped(db, issuances, ledger, answers(ledger))
    ensures r.NotInArchive? <==> hotwallets.Some? && issuances == []
    ensures r.InvalidParams? <==> hotwallets.None? || (issuances != [] && (raw.Unreadable? || (raw.Number? && raw.n < 0)))
    ensures r.OutOfCoverage? ==> exists ledger :: Resolves(db, raw, ledger) && RefusedFor(db, issuances, ledger, r.currency)
    ensures r.Success? ==>
              && hotwallets.Some? && issuances != [] && Resolves(db, raw, r.ledger)
              && (forall k :: 0 <= k < |issuances| ==> InWindow(db, issuances[k].id, r.ledger))
    ensures r.Success? ==>
              var q, n := Inquiry(db, issuances, issuer, hotwallets.Or({}), r.ledger), |issuances|;
              r.obligations == q.Obligations(n) && q.Balanced(n, r.balances) && q.BrokenOut(n, r.balances)
  {
    hide Grouped, InWindow, Currency.ToWire, Registered, SumRows, Circulating, HotSum, BreaksOut, IsLatest;
    if hotwallets.None? {
      return InvalidParams;
    }
    if |issuances| == 0 {
      return NotInArchive;
    }
    var latest := LatestLedger(db);
    var resolved := ResolveLedger(raw, latest);
    if resolved.None? {
      return InvalidParams;
    }
    var ledger := resolved.value;
    var refused := CheckCoverage(db, issuances, ledger);
    if refused.Some? {
      return OutOfCoverage(refused.value);
    }
    var hot := hotwallets.value;
    var obligations: map<string, real>, balances: seq<HotBalance> := map[], [];
    ghost var q := Inquiry(db, issuances, issuer, hot, ledger);
    NothingReported(q);
    var n := 0;
    while n < |issuances|
      invariant n <= |issuances| && obligations == q.Obligations(n) && q.Balanced(n, balances) && q.BrokenOut(n, balances)
    {
      var rows := answers(ledger)[n];
      GroupedSum(db, issuances[n].id, {issuer}, ledger, rows);
      GroupedSum(db, issuances[n].id, hot + {issuer}, ledger, rows);
      var wire := Currency.ToWire(issuances[n].currency);
      var obligation, more := Tally(rows, issuer, hot, wire, balances);
      OneIssuanceMore(q, n, balances, more);
      WalletsOfOneMore(q, n, rows, balances, more);
      balances := more;
      if obligation != 0.0 {
        obligations := obligations[wire := obligation];
      }
      n := n + 1;
    }
    r := Success(obligations, balances, ledger);
  }
}
