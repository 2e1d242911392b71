/** Balance deltas, written as transactions arrive and re-derivable from what is stored
    (src/reconcile/incremental.ts, src/reconcile/balanceDeltas.ts, src/reconcile/deriver.ts). */
module Derive {
  import opened Options
  import opened Ordering
  import opened Metadata
  import opened Tables
  import opened Writers
  import MptDeltas
  import IouDeltas

  /** The deltas a transaction gives an issuance's accounts. */
  function TokenDeltas(token: Token, meta: Meta): seq<AccountDelta> {
    match token
    case Mpt(id) => MptDeltas.DeltasOf(meta.Nodes(), id)
    case Iou(currency, issuer) => IouDeltas.DeltasOf(meta.Nodes(), currency, issuer)
  }

  datatype DeltaRow = DeltaRow(hash: string, address: string, delta: real)

  function DeltaKey(r: DeltaRow): (string, string) {
    (r.hash, r.address)
  }

  /** The upserts of some rows, in order. */
  function PutDeltas(t: map<(string, string, int), real>, id: int, rows: seq<DeltaRow>): map<(string, string, int), real> {
    if rows == [] then t
    else
      var r := rows[|rows| - 1];
      PutDeltas(t, id, rows[..|rows| - 1])[(r.hash, r.address, id) := r.delta]
  }

  /** `INSERT INTO accounts ... DO NOTHING`. */
  function EnsureAccounts(t: map<string, Option<int>>, addresses: set<string>): map<string, Option<int>> {
    map a | a in t.Keys + addresses :: Lookup(t, a)
  }

  function AddressesOf(rows: seq<DeltaRow>): set<string> {
    set r | r in rows :: r.address
  }

  function AddDeltas(db: Db, id: int, rows: seq<DeltaRow>): Db {
    db.(accounts := EnsureAccounts(db.accounts, AddressesOf(rows)), deltas := PutDeltas(db.deltas, id, rows))
  }

  lemma {:induction false} PutDeltasAppend(t: map<(string, string, int), real>, id: int, a: seq<DeltaRow>, b: seq<DeltaRow>)
    ensures PutDeltas(t, id, a + b) == PutDeltas(PutDeltas(t, id, a), id, b)
  {
    if b == [] {
      assert a + b == a;
    } else {
      assert (a + b)[..|a + b| - 1] == a + b[..|b| - 1];
      PutDeltasAppend(t, id, a, b[..|b| - 1]);
    }
  }

  lemma {:induction false} PutDeltasElsewhere(t: map<(string, string, int), real>, id: int, rows: seq<DeltaRow>, k: (string, string, int))
    requires k.2 != id || forall r :: r in rows ==> (r.hash, r.address) != (k.0, k.1)
    ensures k in PutDeltas(t, id, rows) <==> k in t
    ensures k in t ==> PutDeltas(t, id, rows)[k] == t[k]
  {
    if rows != [] {
      assert rows[|rows| - 1] in rows && forall r :: r in rows[..|rows| - 1] ==> r in rows;
      PutDeltasElsewhere(t, id, rows[..|rows| - 1], k);
    }
  }

  lemma {:induction false} PutDeltasAt(t: map<(string, string, int), real>, id: int, rows: seq<DeltaRow>, r: DeltaRow)
    requires DistinctOn(rows, DeltaKey) && r in rows
    ensures (r.hash, r.address, id) in PutDeltas(t, id, rows)
    ensures PutDeltas(t, id, rows)[(r.hash, r.address, id)] == r.delta
  {
    var front, last := rows[..|rows| - 1], rows[|rows| - 1];
    if r != last {
      assert rows == front + [last];
      assert forall i :: 0 <= i < |front| ==> front[i] == rows[i] && DeltaKey(rows[i]) != DeltaKey(last);
      PutDeltasAt(t, id, front, r);
      assert DeltaKey(r) != DeltaKey(last);
    }
  }

  /** Rows with other keys can be written before or after. */
  lemma PutDeltasSwap(t: map<(string, string, int), real>, id: int, x: DeltaRow, y: DeltaRow, rest: seq<DeltaRow>)
    requires DeltaKey(x) != DeltaKey(y)
    ensures PutDeltas(t, id, [x, y] + rest) == PutDeltas(t, id, [y, x] + rest)
  {
    PutDeltasAppend(t, id, [x, y], rest);
    PutDeltasAppend(t, id, [y, x], rest);
    assert [x, y][..1] == [x] && [y, x][..1] == [y] && [x][..0] == [] && [y][..0] == [];
    assert PutDeltas(t, id, [x]) == t[(x.hash, x.address, id) := x.delta];
    assert PutDeltas(t, id, [y]) == t[(y.hash, y.address, id) := y.delta];
    assert PutDeltas(t, id, [x, y]) == PutDeltas(t, id, [y, x]);
  }

  lemma {:induction false} PutDeltasInserted(t: map<(string, string, int), real>, id: int, x: DeltaRow, xs: seq<DeltaRow>)
    requires SortedOn(xs, DeltaKey)
    ensures PutDeltas(t, id, InsertSorted(x, xs, DeltaKey)) == PutDeltas(t, id, [x] + xs)
    decreases |xs|
  {
    hide PutDeltas, SortedOn, PairLt, InsertSorted;
    Inserted(x, xs);
    if xs != [] && PairLt(DeltaKey(xs[0]), DeltaKey(x)) {
      var rest := xs[1..];
      assert xs == [xs[0]] + rest;
      PutDeltasInserted(PutDeltas(t, id, [xs[0]]), id, x, rest);
      PutDeltasAppend(t, id, [xs[0]], InsertSorted(x, rest, DeltaKey));
      PutDeltasAppend(t, id, [xs[0]], [x] + rest);
      PairLtIrreflexive(DeltaKey(x));
      PutDeltasSwap(t, id, x, xs[0], rest);
      assert [xs[0]] + ([x] + rest) == [xs[0], x] + rest && [x] + xs == [x, xs[0]] + rest;
    }
  }

  lemma Inserted(x: DeltaRow, xs: seq<DeltaRow>)
    requires SortedOn(xs, DeltaKey)
    ensures xs == [] || !PairLt(DeltaKey(xs[0]), DeltaKey(x)) ==> InsertSorted(x, xs, DeltaKey) == [x] + xs
    ensures xs != [] ==> SortedOn(xs[1..], DeltaKey)
    ensures xs != [] && PairLt(DeltaKey(xs[0]), DeltaKey(x)) ==>
              InsertSorted(x, xs, DeltaKey) == [xs[0]] + InsertSorted(x, xs[1..], DeltaKey)
  {
    hide PairLt;
    if xs != [] {
      TailSorted(xs, DeltaKey);
    }
  }

  /** The sort is stable, so of rows with one key the last one given is the one that stays. */
  lemma {:induction false} PutDeltasSorted(t: map<(string, string, int), real>, id: int, rows: seq<DeltaRow>)
    ensures PutDeltas(t, id, SortBy(rows, DeltaKey)) == PutDeltas(t, id, rows)
    decreases |rows|
  {
    hide PutDeltas, SortedOn, InsertSorted;
    if rows != [] {
      var rest := rows[1..];
      assert rows == [rows[0]] + rest;
      PutDeltasInserted(t, id, rows[0], SortBy(rest, DeltaKey));
      PutDeltasSorted(PutDeltas(t, id, [rows[0]]), id, rest);
      PutDeltasAppend(t, id, [rows[0]], SortBy(rest, DeltaKey));
      PutDeltasAppend(t, id, [rows[0]], rest);
    }
  }

  lemma SameAddresses(a: seq<DeltaRow>, b: seq<DeltaRow>)
    requires multiset(a) == multiset(b)
    ensures AddressesOf(a) == AddressesOf(b)
  {
    forall r ensures r in a <==> r in b {
      assert r in multiset(a) <==> r in multiset(b);
    }
  }

  // ---- insertDeltasMany ----

  const PER_STATEMENT := 20000

  /** Two neighbours with one key. */
  predicate Repeats(rows: seq<DeltaRow>) {
    exists i :: 0 <= i < |rows| - 1 && DeltaKey(rows[i]) == DeltaKey(rows[i + 1])
  }

  /** A statement that names one key twice is refused: it cannot affect a row a second time. The keys stand in
      order, so it does exactly when two neighbours in one statement have one key. */
  predicate Refuses(rows: seq<DeltaRow>) {
    Clashes(SortBy(rows, DeltaKey))
  }

  predicate Clashes(ordered: seq<DeltaRow>) {
    exists i :: 0 <= i < |ordered| - 1 && (i + 1) % PER_STATEMENT != 0 && DeltaKey(ordered[i]) == DeltaKey(ordered[i + 1])
  }

  /** Rows that fit one statement are refused exactly when two have one key; distinct ones never are. */
  lemma RefusedExactlyWhen(rows: seq<DeltaRow>)
    ensures DistinctOn(rows, DeltaKey) ==> !Refuses(rows)
    ensures |rows| <= PER_STATEMENT && !DistinctOn(rows, DeltaKey) ==> Refuses(rows)
  {
    hide SortBy, PairLt, SortedOn;
    var ordered := SortBy(rows, DeltaKey);
    SortKeepsElements(rows, DeltaKey);
    if DistinctOn(rows, DeltaKey) {
      DistinctSurvivesReordering(rows, ordered, DeltaKey);
    } else if |rows| <= PER_STATEMENT {
      if DistinctOn(ordered, DeltaKey) {
        DistinctSurvivesReordering(ordered, rows, DeltaKey);
      }
      TwoAlikeClash(ordered);
    }
  }

  lemma TwoAlikeClash(ordered: seq<DeltaRow>)
    requires SortedOn(ordered, DeltaKey) && !DistinctOn(ordered, DeltaKey) && |ordered| <= PER_STATEMENT
    ensures Clashes(ordered)
  {
    hide SortedOn;
    var i, j :| 0 <= i < j < |ordered| && DeltaKey(ordered[i]) == DeltaKey(ordered[j]);
    NeighboursMeet(ordered, i, j);
    NotAtTheEdge(0, i + 1);
    assert DeltaKey(ordered[i]) == DeltaKey(ordered[i + 1]);
  }

  lemma NeighboursMeet(ordered: seq<DeltaRow>, i: int, j: int)
    requires SortedOn(ordered, DeltaKey) && 0 <= i < j < |ordered| && DeltaKey(ordered[i]) == DeltaKey(ordered[j])
    ensures DeltaKey(ordered[i]) == DeltaKey(ordered[i + 1])
  {
    hide PairLt;
    PairLtTotal(DeltaKey(ordered[i]), DeltaKey(ordered[i + 1]));
    assert !PairLt(DeltaKey(ordered[i + 1]), DeltaKey(ordered[i]));
    if i + 1 < j {
      assert !PairLt(DeltaKey(ordered[j]), DeltaKey(ordered[i + 1]));
    }
  }

  lemma ChunkClashes(ordered: seq<DeltaRow>, start: int, end: int)
    requires 0 <= start <= end <= |ordered| && start % PER_STATEMENT == 0 && end <= start + PER_STATEMENT
    requires Repeats(ordered[start..end])
    ensures Clashes(ordered)
  {
    var chunk := ordered[start..end];
    var i :| 0 <= i < |chunk| - 1 && DeltaKey(chunk[i]) == DeltaKey(chunk[i + 1]);
    assert DeltaKey(ordered[start + i]) == DeltaKey(ordered[start + i + 1]);
    NotAtTheEdge(start, i + 1);
  }

  lemma NotAtTheEdge(start: int, k: int)
    requires start % PER_STATEMENT == 0 && 0 < k < PER_STATEMENT
    ensures (start + k) % PER_STATEMENT != 0
  {
  }

  /** No clash among the rows of the statements so far. */
  ghost predicate NoClashBefore(ordered: seq<DeltaRow>, n: int)
    requires n <= |ordered|
  {
    forall i :: 0 <= i < n - 1 && (i + 1) % PER_STATEMENT != 0 ==> DeltaKey(ordered[i]) != DeltaKey(ordered[i + 1])
  }

  lemma OneStatementMore(ordered: seq<DeltaRow>, start: int, end: int)
    requires 0 <= start <= end <= |ordered| && start % PER_STATEMENT == 0
    requires NoClashBefore(ordered, start) && !Repeats(ordered[start..end])
    ensures NoClashBefore(ordered, end)
  {
    forall i | 0 <= i < end - 1 && (i + 1) % PER_STATEMENT != 0 ensures DeltaKey(ordered[i]) != DeltaKey(ordered[i + 1]) {
      if i >= start {
        var chunk := ordered[start..end];
        assert chunk[i - start] == ordered[i] && chunk[i - start + 1] == ordered[i + 1];
        assert DeltaKey(chunk[i - start]) != DeltaKey(chunk[i - start + 1]);
      }
    }
  }

  /** The rows the two statements ask for: the accounts that are not known yet, then the deltas. */
  function DeltaLocks(known: set<string>, id: int, ordered: seq<DeltaRow>): seq<RowKey> {
    LocksOf(1, Named(SortedNames(AddressesOf(ordered) - known)), 0) + LocksOf(3, Keys(ordered, DeltaKey), id)
  }

  function Named(addresses: seq<string>): (r: seq<(string, string)>)
    ensures |r| == |addresses| && forall k :: 0 <= k < |r| ==> r[k] == (addresses[k], "")
  {
    seq(|addresses|, k requires 0 <= k < |addresses| => (addresses[k], ""))
  }

  /** With distinct keys they are asked for in strictly ascending order. */
  lemma DeltaLocksAscend(known: set<string>, id: int, rows: seq<DeltaRow>)
    requires DistinctOn(rows, DeltaKey)
    ensures StrictlyAscending(DeltaLocks(known, id, SortBy(rows, DeltaKey)))
  {
    hide SortedNames;
    var ordered := SortBy(rows, DeltaKey);
    var names := SortedNames(AddressesOf(ordered) - known);
    SortDistinctAscends(rows, DeltaKey);
    forall i, j | 0 <= i < j < |names| ensures PairLt((names[i], ""), (names[j], "")) {
      SortedNamesAscend(AddressesOf(ordered) - known, i, j);
    }
    TwoTables(Named(names), Keys(ordered, DeltaKey), id);
  }

  lemma TwoTables(first: seq<(string, string)>, second: seq<(string, string)>, id: int)
    requires Ascending(first) && Ascending(second)
    ensures StrictlyAscending(LocksOf(1, first, 0) + LocksOf(3, second, id))
  {
    hide PairLt;
  }

  ghost predicate NamesDelta(rows: seq<DeltaRow>, key: (string, string)) {
    exists r :: r in rows && DeltaKey(r) == key
  }

  /** A row the statements ask for: an account they add, or a delta they write. */
  ghost predicate AsksDelta(known: set<string>, id: int, rows: seq<DeltaRow>, k: RowKey) {
    || (k.table == 1 && k.issuance == 0 && k.key.1 == "" && k.key.0 in AddressesOf(rows) - known)
    || (k.table == 3 && k.issuance == id && NamesDelta(rows, k.key))
  }

  lemma DeltaLocksAsk(known: set<string>, id: int, rows: seq<DeltaRow>, ordered: seq<DeltaRow>, k: RowKey)
    requires multiset(ordered) == multiset(rows)
    ensures k in DeltaLocks(known, id, ordered) <==> AsksDelta(known, id, rows, k)
  {
    hide SortedNames;
    forall r ensures r in rows <==> r in ordered {
      assert r in multiset(rows) <==> r in multiset(ordered);
    }
    assert AddressesOf(rows) == AddressesOf(ordered);
    var names := SortedNames(AddressesOf(ordered) - known);
    InLocks(1, Named(names), 0, k);
    InLocks(3, Keys(ordered, DeltaKey), id, k);
    if k.key.1 == "" && k.key.0 in names {
      var i :| 0 <= i < |names| && names[i] == k.key.0;
      assert Named(names)[i] == k.key;
    }
    if NamesDelta(rows, k.key) {
      var r :| r in ordered && DeltaKey(r) == k.key;
      var i :| 0 <= i < |ordered| && ordered[i] == r;
      assert Keys(ordered, DeltaKey)[i] == k.key;
    }
    if k.key in Keys(ordered, DeltaKey) {
      var i :| 0 <= i < |ordered| && Keys(ordered, DeltaKey)[i] == k.key;
      assert ordered[i] in rows && DeltaKey(ordered[i]) == k.key;
    }
  }

  /** Upsert rows for one issuance; or a statement is refused, and nothing is left of it. */
  method InsertDeltasMany(a: Archive, id: int, rows: seq<DeltaRow>) returns (ok: bool, locks: seq<RowKey>)
    modifies a`accounts, a`deltas
    ensures ok <==> !Refuses(rows)
    ensures a.Contents() == if ok then AddDeltas(old(a.Contents()), id, rows) else old(a.Contents())
    ensures locks == DeltaLocks(old(a.accounts.Keys), id, SortBy(rows, DeltaKey))
    ensures forall k :: k in locks <==> AsksDelta(old(a.accounts.Keys), id, rows, k)
    ensures DistinctOn(rows, DeltaKey) ==> ok && StrictlyAscending(locks)
  {
    hide SortedOn, SortBy, Repeats, DistinctOn, EnsureAccounts, AddressesOf, DeltaLocks, AsksDelta, StrictlyAscending, Clashes, PutDeltas;
    var ordered := SortBy(rows, DeltaKey);
    PutDeltasSorted(a.deltas, id, rows);
    SameAddresses(rows, ordered);
    RefusedExactlyWhen(rows);
    if DistinctOn(rows, DeltaKey) {
      DeltaLocksAscend(a.accounts.Keys, id, rows);
    }
    locks := DeltaLocks(a.accounts.Keys, id, ordered);
    forall k ensures k in locks <==> AsksDelta(a.accounts.Keys, id, rows, k) {
      DeltaLocksAsk(a.accounts.Keys, id, rows, ordered, k);
    }
    if |rows| == 0 {
      NoDeltas(a.Contents(), id, rows, ordered);
      NoClash(ordered);
      return true, locks;
    }
    var accountsBefore := a.accounts;
    a.accounts := EnsureAccounts(a.accounts, AddressesOf(ordered));
    ok := UpsertDeltas(a, id, ordered);
    if !ok {
      a.accounts := accountsBefore;
    }
  }

  /** The chunked statements that upsert the deltas. */
  method UpsertDeltas(a: Archive, id: int, ordered: seq<DeltaRow>) returns (ok: bool)
    modifies a`deltas
    ensures ok <==> !Clashes(ordered)
    ensures a.deltas == if ok then PutDeltas(old(a.deltas), id, ordered) else old(a.deltas)
  {
    hide Repeats, Clashes, NoClashBefore;
    NoClash(ordered);
    var before, start := a.deltas, 0;
    assert ordered[..0] == [];
    while start < |ordered|
      invariant 0 <= start <= |ordered| && NoClashBefore(ordered, start)
      invariant start < |ordered| ==> start % PER_STATEMENT == 0
      invariant a.deltas == PutDeltas(before, id, ordered[..start])
    {
      var end := if start + PER_STATEMENT < |ordered| then start + PER_STATEMENT else |ordered|;
      var chunk := ordered[start..end];
      if Repeats(chunk) {
        ChunkClashes(ordered, start, end);
        a.deltas := before;
        return false;
      }
      OneStatementMore(ordered, start, end);
      PutDeltasAppend(before, id, ordered[..start], chunk);
      assert ordered[..start] + chunk == ordered[..end];
      a.deltas := PutDeltas(a.deltas, id, chunk);
      start := end;
    }
    assert ordered[..start] == ordered;
    ok := true;
  }

  lemma NoClash(ordered: seq<DeltaRow>)
    ensures NoClashBefore(ordered, |ordered|) <==> !Clashes(ordered)
    ensures NoClashBefore(ordered, 0)
    ensures |ordered| == 0 ==> !Clashes(ordered)
  {
  }

  lemma NoDeltas(db: Db, id: int, rows: seq<DeltaRow>, ordered: seq<DeltaRow>)
    requires rows == [] && multiset(ordered) == multiset(rows)
    ensures AddDeltas(db, id, rows) == db && AddDeltas(db, id, ordered) == db
  {
    assert |multiset(ordered)| == 0;
  }

  // ---- Deriving one transaction ----

  /** The delta rows of one transaction for one issuance. */
  function RowsOf(hash: string, deltas: seq<AccountDelta>): (r: seq<DeltaRow>)
    ensures |r| == |deltas| && forall i :: 0 <= i < |r| ==> r[i] == DeltaRow(hash, deltas[i].account, deltas[i].delta)
  {
    seq(|deltas|, i requires 0 <= i < |deltas| => DeltaRow(hash, deltas[i].account, deltas[i].delta))
  }

  /** Each account's balance changes at most once in the transaction. */
  ghost predicate OneDeltaPerAccount(token: Token, meta: Meta) {
    var deltas := TokenDeltas(token, meta);
    forall i, j :: 0 <= i < j < |deltas| ==> deltas[i].account != deltas[j].account
  }

  function DeriveOne(db: Db, issuance: Issuance, hash: string, meta: Meta): Db {
    AddDeltas(db, issuance.id, RowsOf(hash, TokenDeltas(issuance.token, meta)))
  }

  function DeriveTx(db: Db, tracked: seq<Issuance>, hash: string, meta: Meta): Db {
    if tracked == [] then db
    else DeriveOne(DeriveTx(db, tracked[..|tracked| - 1], hash, meta), tracked[|tracked| - 1], hash, meta)
  }

  lemma DistinctRows(hash: string, token: Token, meta: Meta)
    requires OneDeltaPerAccount(token, meta)
    ensures DistinctOn(RowsOf(hash, TokenDeltas(token, meta)), DeltaKey)
  {
  }

  lemma DeriveNone(db: Db, issuance: Issuance, hash: string, meta: Meta)
    requires TokenDeltas(issuance.token, meta) == []
    ensures DeriveOne(db, issuance, hash, meta) == db
  {
    assert RowsOf(hash, []) == [];
    NoDeltas(db, issuance.id, [], []);
  }

  method DeriveToken(token: Token, meta: Meta) returns (deltas: seq<AccountDelta>)
    ensures deltas == TokenDeltas(token, meta)
  {
    match token {
      case Mpt(id) => deltas := MptDeltas.Derive(meta, id);
      case Iou(currency, issuer) => deltas := IouDeltas.Derive(meta, currency, issuer);
    }
  }

  /** One call of the delta writer: an issuance and the rows of one transaction. */
  datatype Call = Call(id: int, rows: seq<DeltaRow>)

  function CallsOf(tracked: seq<Issuance>, hash: string, meta: Meta): (r: seq<Call>)
    ensures |r| == |tracked|
    ensures forall i :: 0 <= i < |r| ==> r[i] == Call(tracked[i].id, RowsOf(hash, TokenDeltas(tracked[i].token, meta)))
  {
    seq(|tracked|, i requires 0 <= i < |tracked| => Call(tracked[i].id, RowsOf(hash, TokenDeltas(tracked[i].token, meta))))
  }

  function MovedBy(calls: seq<Call>): set<string> {
    if calls == [] then {} else MovedBy(calls[..|calls| - 1]) + AddressesOf(calls[|calls| - 1].rows)
  }

  /** The rows a sequence of calls asks for: what one call adds, the next finds. */
  function CallLocks(known: set<string>, calls: seq<Call>): seq<RowKey> {
    if calls == [] then []
    else
      var front, last := calls[..|calls| - 1], calls[|calls| - 1];
      CallLocks(known, front) + DeltaLocks(known + MovedBy(front), last.id, SortBy(last.rows, DeltaKey))
  }

  ghost predicate CleanMeta(tracked: seq<Issuance>, meta: Meta) {
    forall issuance :: issuance in tracked ==> OneDeltaPerAccount(issuance.token, meta)
  }

  /** The delta writer refuses the transaction's rows of some issuance. */
  predicate RefusesTx(tracked: seq<Issuance>, hash: string, meta: Meta) {
    exists k :: 0 <= k < |tracked| && Refuses(RowsOf(hash, TokenDeltas(tracked[k].token, meta)))
  }

  /** Metadata that moves each account at most once is not refused. */
  lemma CleanIsNotRefused(tracked: seq<Issuance>, hash: string, meta: Meta)
    requires CleanMeta(tracked, meta)
    ensures !RefusesTx(tracked, hash, meta)
  {
    hide Refuses, OneDeltaPerAccount, DistinctOn;
    forall k | 0 <= k < |tracked| ensures !Refuses(RowsOf(hash, TokenDeltas(tracked[k].token, meta))) {
      CleanRow(tracked, tracked[k], hash, meta);
      RefusedExactlyWhen(RowsOf(hash, TokenDeltas(tracked[k].token, meta)));
    }
  }

  function DeltaCount(tracked: seq<Issuance>, meta: Meta): nat {
    if tracked == [] then 0
    else DeltaCount(tracked[..|tracked| - 1], meta) + |TokenDeltas(tracked[|tracked| - 1].token, meta)|
  }

  lemma CountOneMore(tracked: seq<Issuance>, meta: Meta, i: nat)
    requires i < |tracked|
    ensures DeltaCount(tracked[..i + 1], meta) == DeltaCount(tracked[..i], meta) + |TokenDeltas(tracked[i].token, meta)|
  {
    hide TokenDeltas;
    assert tracked[..i + 1][..i] == tracked[..i];
  }

  lemma NoneCounted(tracked: seq<Issuance>, meta: Meta)
    ensures DeltaCount(tracked[..0], meta) == 0
  {
  }

  /** The ingest hook: the deltas of one transaction for every tracked issuance. A refused statement ends it,
      and with it the database transaction it is part of. */
  method DeriveTxDeltas(a: Archive, tracked: seq<Issuance>, hash: string, meta: Meta)
    returns (ok: bool, written: nat, locks: seq<RowKey>)
    modifies a`accounts, a`deltas
    ensures ok <==> !RefusesTx(tracked, hash, meta)
    ensures ok ==>
              && a.Contents() == DeriveTx(old(a.Contents()), tracked, hash, meta)
              && locks == CallLocks(old(a.accounts.Keys), CallsOf(tracked, hash, meta))
              && a.accounts.Keys == old(a.accounts.Keys) + MovedBy(CallsOf(tracked, hash, meta))
              && written == DeltaCount(tracked, meta)
  {
    hide *;
    written, locks := 0, [];
    ghost var start, known := a.Contents(), a.accounts.Keys;
    ghost var calls := CallsOf(tracked, hash, meta);
    ContentsKeys(a);
    NoCall(start, known, tracked, hash, meta);
    NoneCounted(tracked, meta);
    var i := 0;
    while i < |tracked|
      invariant 0 <= i <= |tracked| && NotRefusedBefore(tracked, hash, meta, i)
      invariant a.Contents() == DeriveTx(start, tracked[..i], hash, meta)
      invariant locks == CallLocks(known, calls[..i]) && written == DeltaCount(tracked[..i], meta)
      invariant a.Contents().accounts.Keys == known + MovedBy(calls[..i])
    {
      var issuance := tracked[i];
      var deltas := DeriveToken(issuance.token, meta);
      OneCallMore(start, known, tracked, hash, meta, i);
      CountOneMore(tracked, meta, i);
      NotRefusedOneMore(tracked, hash, meta, i);
      ghost var was := a.Contents();
      i := i + 1;
      KeysAdded(was, issuance.id, RowsOf(hash, deltas));
      DeriveOneIs(was, issuance, hash, meta);
      if deltas == [] {
        DeriveNone(was, issuance, hash, meta);
        NothingAsked(was.accounts.Keys, issuance.id, hash);
        continue;
      }
      ContentsKeys(a);
      var more: seq<RowKey>;
      ok, more := InsertDeltasMany(a, issuance.id, RowsOf(hash, deltas));
      locks := locks + more;
      if !ok {
        return;
      }
      written := written + |deltas|;
    }
    ok := true;
    assert tracked[..i] == tracked && calls[..i] == calls;
    ContentsKeys(a);
    NotRefusedAtAll(tracked, hash, meta);
  }

  lemma ContentsKeys(a: Archive)
    ensures a.Contents().accounts.Keys == a.accounts.Keys
  {
  }

  ghost predicate NotRefusedBefore(tracked: seq<Issuance>, hash: string, meta: Meta, n: nat)
    requires n <= |tracked|
  {
    forall k :: 0 <= k < n ==> !Refuses(RowsOf(hash, TokenDeltas(tracked[k].token, meta)))
  }

  lemma NotRefusedOneMore(tracked: seq<Issuance>, hash: string, meta: Meta, i: nat)
    requires i < |tracked| && NotRefusedBefore(tracked, hash, meta, i)
    ensures NotRefusedBefore(tracked, hash, meta, i + 1) <==> !Refuses(RowsOf(hash, TokenDeltas(tracked[i].token, meta)))
    ensures Refuses(RowsOf(hash, TokenDeltas(tracked[i].token, meta))) ==> RefusesTx(tracked, hash, meta)
  {
    hide Refuses, TokenDeltas;
  }

  lemma NotRefusedAtAll(tracked: seq<Issuance>, hash: string, meta: Meta)
    ensures NotRefusedBefore(tracked, hash, meta, |tracked|) <==> !RefusesTx(tracked, hash, meta)
  {
    hide Refuses, TokenDeltas;
  }

  lemma NoCall(db: Db, known: set<string>, tracked: seq<Issuance>, hash: string, meta: Meta)
    ensures DeriveTx(db, tracked[..0], hash, meta) == db && NotRefusedBefore(tracked, hash, meta, 0)
    ensures var calls := CallsOf(tracked, hash, meta); CallLocks(known, calls[..0]) == [] && known + MovedBy(calls[..0]) == known
  {
    assert MovedBy(CallsOf(tracked, hash, meta)[..0]) == {};
  }

  lemma OneCallMore(db: Db, known: set<string>, tracked: seq<Issuance>, hash: string, meta: Meta, i: nat)
    requires i < |tracked|
    ensures DeriveTx(db, tracked[..i + 1], hash, meta) == DeriveOne(DeriveTx(db, tracked[..i], hash, meta), tracked[i], hash, meta)
    ensures var calls, rows := CallsOf(tracked, hash, meta), RowsOf(hash, TokenDeltas(tracked[i].token, meta));
            && CallLocks(known, calls[..i + 1]) ==
               CallLocks(known, calls[..i]) + DeltaLocks(known + MovedBy(calls[..i]), tracked[i].id, SortBy(rows, DeltaKey))
            && known + MovedBy(calls[..i + 1]) == known + MovedBy(calls[..i]) + AddressesOf(rows)
  {
    hide TokenDeltas, DeltaLocks, SortBy, AddressesOf, DeriveOne, CallsOf;
    var calls := CallsOf(tracked, hash, meta);
    assert tracked[..i + 1][..i] == tracked[..i] && calls[..i + 1][..i] == calls[..i];
    assert calls[..i + 1][i] == Call(tracked[i].id, RowsOf(hash, TokenDeltas(tracked[i].token, meta)));
  }

  lemma NothingAsked(known: set<string>, id: int, hash: string)
    ensures DeltaLocks(known, id, SortBy(RowsOf(hash, []), DeltaKey)) == [] && AddressesOf(RowsOf(hash, [])) == {}
    ensures !Refuses(RowsOf(hash, []))
  {
    assert RowsOf(hash, []) == [];
  }

  lemma KeysAdded(db: Db, id: int, rows: seq<DeltaRow>)
    ensures AddDeltas(db, id, rows).accounts.Keys == db.accounts.Keys + AddressesOf(rows)
  {
  }

  lemma CleanRow(tracked: seq<Issuance>, issuance: Issuance, hash: string, meta: Meta)
    requires CleanMeta(tracked, meta) && issuance in tracked
    ensures DistinctOn(RowsOf(hash, TokenDeltas(issuance.token, meta)), DeltaKey)
  {
    hide OneDeltaPerAccount;
    DistinctRows(hash, issuance.token, meta);
  }

  lemma DeriveOneIs(db: Db, issuance: Issuance, hash: string, meta: Meta)
    ensures DeriveOne(db, issuance, hash, meta) == AddDeltas(db, issuance.id, RowsOf(hash, TokenDeltas(issuance.token, meta)))
  {
  }
}
