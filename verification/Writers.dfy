/** The ingest writers (src/db/repositories/transactions.ts). */
module Writers {
  import opened Options
  import opened Ordering
  import opened Tables

  function HashKey(tx: IngestTx): (string, string) {
    (tx.hash, "")
  }

  function AddressKey(a: string): (string, string) {
    (a, "")
  }

  function EarliestKey(e: (string, int)): (string, string) {
    (e.0, "")
  }

  function LinkKey(l: (string, string)): (string, string) {
    l
  }

  // ---- Multi-row statements ----

  function PutTxs(t: map<string, TxRow>, rows: seq<IngestTx>): map<string, TxRow> {
    if rows == [] then t else PutTx(PutTxs(t, rows[..|rows| - 1]), rows[|rows| - 1])
  }

  function SeeEarliest(t: map<string, Option<int>>, rows: seq<(string, int)>): map<string, Option<int>> {
    if rows == [] then t
    else
      var row := rows[|rows| - 1];
      SeeAccounts(SeeEarliest(t, rows[..|rows| - 1]), {row.0}, row.1)
  }

  lemma {:induction false} PutTxsAppend(t: map<string, TxRow>, a: seq<IngestTx>, b: seq<IngestTx>)
    ensures PutTxs(t, a + b) == PutTxs(PutTxs(t, a), b)
  {
    if b == [] {
      assert a + b == a;
    } else {
      assert (a + b)[..|a + b| - 1] == a + b[..|b| - 1];
      PutTxsAppend(t, a, b[..|b| - 1]);
    }
  }

  lemma {:induction false} SeeEarliestAppend(t: map<string, Option<int>>, a: seq<(string, int)>, b: seq<(string, int)>)
    ensures SeeEarliest(t, a + b) == SeeEarliest(SeeEarliest(t, a), b)
  {
    if b == [] {
      assert a + b == a;
    } else {
      assert (a + b)[..|a + b| - 1] == a + b[..|b| - 1];
      SeeEarliestAppend(t, a, b[..|b| - 1]);
    }
  }

  ghost predicate Names(rows: seq<IngestTx>, h: string) {
    exists i :: 0 <= i < |rows| && rows[i].hash == h
  }

  /** What inserting rows leaves: stored rows stay, and a new hash gets the payload of a row that has it. */
  lemma {:induction false} PutTxsLookup(t: map<string, TxRow>, rows: seq<IngestTx>, h: string)
    ensures h in PutTxs(t, rows) <==> h in t || Names(rows, h)
    ensures h in t ==> PutTxs(t, rows)[h] == t[h]
    ensures h !in t && Names(rows, h) ==>
              exists i :: 0 <= i < |rows| && rows[i].hash == h && PutTxs(t, rows)[h] == rows[i].row
  {
    if rows != [] {
      var front, last := rows[..|rows| - 1], rows[|rows| - 1];
      PutTxsLookup(t, front, h);
      assert Names(rows, h) <==> Names(front, h) || last.hash == h by {
        if Names(front, h) {
          var i :| 0 <= i < |front| && front[i].hash == h;
          assert rows[i].hash == h;
        }
      }
      if h !in t && Names(front, h) {
        var i :| 0 <= i < |front| && front[i].hash == h && PutTxs(t, front)[h] == front[i].row;
        assert rows[i].hash == h && PutTxs(t, rows)[h] == rows[i].row;
      }
    }
  }

  lemma SameRows(a: seq<IngestTx>, b: seq<IngestTx>, i: int)
    requires multiset(a) == multiset(b) && 0 <= i < |a|
    ensures a[i] in b && Names(b, a[i].hash)
  {
    assert a[i] in multiset(b);
  }

  /** With distinct hashes the order of the rows does not matter. */
  lemma PutTxsOrder(t: map<string, TxRow>, a: seq<IngestTx>, b: seq<IngestTx>)
    requires DistinctOn(a, HashKey) && multiset(a) == multiset(b)
    ensures PutTxs(t, a) == PutTxs(t, b)
  {
    DistinctSurvivesReordering(a, b, HashKey);
    forall h
      ensures h in PutTxs(t, a) <==> h in PutTxs(t, b)
      ensures h in PutTxs(t, a) ==> PutTxs(t, a)[h] == PutTxs(t, b)[h]
    {
      PutTxsLookup(t, a, h);
      PutTxsLookup(t, b, h);
      if Names(b, h) {
        var j :| 0 <= j < |b| && b[j].hash == h;
        SameRows(b, a, j);
      }
      if h !in t && Names(a, h) {
        var i :| 0 <= i < |a| && a[i].hash == h && PutTxs(t, a)[h] == a[i].row;
        SameRows(a, b, i);
        var j :| 0 <= j < |b| && b[j].hash == h && PutTxs(t, b)[h] == b[j].row;
        SameRows(b, a, j);
        assert a[i] in multiset(a) && b[j] in multiset(a);
        assert HashKey(a[i]) == HashKey(b[j]);
        SameKeySameElement(a, HashKey, a[i], b[j]);
      } else if Names(a, h) {
        var i :| 0 <= i < |a| && a[i].hash == h;
        SameRows(a, b, i);
      }
    }
  }

  /** Accounts seen with the earliest ledger of each, as one table. */
  function MergeEarliest(t: map<string, Option<int>>, earliest: map<string, int>): map<string, Option<int>> {
    map a | a in t.Keys + earliest.Keys :: if a in earliest then Least(Lookup(t, a), Some(earliest[a])) else t[a]
  }

  lemma {:induction false} SeeEarliestElsewhere(t: map<string, Option<int>>, rows: seq<(string, int)>, a: string)
    requires forall i :: 0 <= i < |rows| ==> rows[i].0 != a
    ensures a in SeeEarliest(t, rows) <==> a in t
    ensures a in t ==> SeeEarliest(t, rows)[a] == t[a]
  {
    if rows != [] {
      SeeEarliestElsewhere(t, rows[..|rows| - 1], a);
    }
  }

  lemma {:induction false} SeeEarliestAt(t: map<string, Option<int>>, rows: seq<(string, int)>, i: int)
    requires DistinctOn(rows, EarliestKey) && 0 <= i < |rows|
    ensures rows[i].0 in SeeEarliest(t, rows)
    ensures SeeEarliest(t, rows)[rows[i].0] == Least(Lookup(t, rows[i].0), Some(rows[i].1))
  {
    var front, last := rows[..|rows| - 1], |rows| - 1;
    assert forall j :: 0 <= j < last ==> front[j] == rows[j] && EarliestKey(rows[j]) != EarliestKey(rows[last]);
    if i < last {
      SeeEarliestAt(t, front, i);
      assert rows[i].0 != rows[last].0;
    } else {
      SeeEarliestElsewhere(t, front, rows[last].0);
    }
  }

  ghost predicate ListsMap(rows: seq<(string, int)>, earliest: map<string, int>) {
    && (forall i :: 0 <= i < |rows| ==> rows[i].0 in earliest && earliest[rows[i].0] == rows[i].1)
    && (forall a :: a in earliest ==> exists i :: 0 <= i < |rows| && rows[i].0 == a)
  }

  lemma SeeEarliestIsMerge(t: map<string, Option<int>>, rows: seq<(string, int)>, earliest: map<string, int>)
    requires DistinctOn(rows, EarliestKey) && ListsMap(rows, earliest)
    ensures SeeEarliest(t, rows) == MergeEarliest(t, earliest)
  {
    var left, right := SeeEarliest(t, rows), MergeEarliest(t, earliest);
    forall a ensures (a in left <==> a in right) && (a in left ==> left[a] == right[a]) {
      if a in earliest {
        var i :| 0 <= i < |rows| && rows[i].0 == a;
        SeeEarliestAt(t, rows, i);
      } else {
        SeeEarliestElsewhere(t, rows, a);
      }
    }
  }

  // ---- Row locks ----

  /** Tables in the order the statements touch them, then the row's primary key: text columns, and for a
      delta its issuance. */
  datatype RowKey = RowKey(table: int, key: (string, string), issuance: int)

  predicate RowLt(x: RowKey, y: RowKey) {
    x.table < y.table
    || (x.table == y.table && (PairLt(x.key, y.key) || (x.key == y.key && x.issuance < y.issuance)))
  }

  ghost predicate StrictlyAscending(locks: seq<RowKey>) {
    forall i, j :: 0 <= i < j < |locks| ==> RowLt(locks[i], locks[j])
  }

  function LocksOf(table: int, keys: seq<(string, string)>, issuance: int): (r: seq<RowKey>)
    ensures |r| == |keys| && forall i :: 0 <= i < |keys| ==> r[i] == RowKey(table, keys[i], issuance)
  {
    seq(|keys|, i requires 0 <= i < |keys| => RowKey(table, keys[i], issuance))
  }

  lemma InLocks(table: int, keys: seq<(string, string)>, issuance: int, k: RowKey)
    ensures k in LocksOf(table, keys, issuance) <==> k.table == table && k.issuance == issuance && k.key in keys
  {
    if k.key in keys {
      var i :| 0 <= i < |keys| && keys[i] == k.key;
      assert LocksOf(table, keys, issuance)[i] == RowKey(table, k.key, issuance);
    }
  }

  /** The rows a `DO NOTHING` statement takes a lock on: those it adds. A row that is there already is passed by. */
  function Without(keys: seq<(string, string)>, stored: set<(string, string)>): (r: seq<(string, string)>)
    ensures forall k :: k in r <==> k in keys && k !in stored
  {
    if keys == [] then []
    else
      var front, last := keys[..|keys| - 1], keys[|keys| - 1];
      assert keys == front + [last];
      Without(front, stored) + if last in stored then [] else [last]
  }

  lemma {:induction false} WithoutAscends(keys: seq<(string, string)>, stored: set<(string, string)>)
    requires Ascending(keys)
    ensures Ascending(Without(keys, stored))
  {
    hide PairLt;
    if keys != [] {
      var front, last := keys[..|keys| - 1], keys[|keys| - 1];
      WithoutAscends(front, stored);
      forall k | k in front ensures PairLt(k, last) {
        var i :| 0 <= i < |front| && keys[i] == k;
      }
    }
  }

  lemma TablesInOrder(first: seq<(string, string)>, second: seq<(string, string)>, third: seq<(string, string)>)
    requires Ascending(first) && Ascending(second) && Ascending(third)
    ensures StrictlyAscending(LocksOf(0, first, 0) + LocksOf(1, second, 0) + LocksOf(2, third, 0))
  {
    hide PairLt;
  }

  // ---- The batch writer ----

  /** The key of the link a `Set` of strings remembers. */
  function LinkText(hash: string, address: string): string {
    hash + "|" + address
  }

  function BeforeBar(s: string): string {
    if s == [] || s[0] == '|' then [] else [s[0]] + BeforeBar(s[1..])
  }

  lemma {:induction false} BeforeBarOfLink(hash: string, address: string)
    requires '|' !in hash
    ensures BeforeBar(LinkText(hash, address)) == hash
  {
    if hash != [] {
      assert LinkText(hash, address)[1..] == LinkText(hash[1..], address);
      BeforeBarOfLink(hash[1..], address);
    } else {
      assert LinkText(hash, address)[0] == '|';
    }
  }

  lemma LinkTextInjective(h: string, a: string, g: string, b: string)
    requires '|' !in h && '|' !in g && LinkText(h, a) == LinkText(g, b)
    ensures h == g && a == b
  {
    BeforeBarOfLink(h, a);
    BeforeBarOfLink(g, b);
    assert a == LinkText(h, a)[|h| + 1..] && b == LinkText(g, b)[|g| + 1..];
  }

  lemma SeeOneMore(t: map<string, Option<int>>, seen: set<string>, address: string, ledger: int)
    ensures var s := SeeAccounts(t, seen, ledger);
            s[address := Least(Lookup(s, address), Some(ledger))] == SeeAccounts(t, seen + {address}, ledger)
  {
  }

  lemma ElementsOneMore(xs: seq<string>, i: int)
    requires 0 <= i < |xs|
    ensures Elements(xs[..i + 1]) == Elements(xs[..i]) + {xs[i]}
  {
    assert xs[..i + 1] == xs[..i] + [xs[i]];
  }

  lemma LinksOneMore(hash: string, addresses: set<string>, address: string)
    ensures LinksOf(hash, addresses) + {(hash, address)} == LinksOf(hash, addresses + {address})
  {
  }

  function Sorted(addresses: seq<string>): (r: seq<string>)
    ensures Elements(r) == Elements(addresses)
    ensures multiset(r) == multiset(addresses) && SortedOn(r, AddressKey)
  {
    SortKeepsElements(addresses, AddressKey);
    SortBy(addresses, AddressKey)
  }

  /** One transaction's row, accounts and links; the account rows are asked for, and so locked, in ascending order. */
  method InsertTransactionRows(a: Archive, tx: IngestTx) returns (locked: seq<string>)
    modifies a`transactions, a`accounts, a`links
    ensures a.Contents() == InsertOne(old(a.Contents()), tx)
    ensures multiset(locked) == multiset(tx.accounts) && SortedOn(locked, AddressKey)
  {
    hide SeeAccounts, Least, Lookup, Elements, LinksOf, Sorted, SortedOn;
    if tx.hash !in a.transactions {
      a.transactions := a.transactions[tx.hash := tx.row];
    }
    var addresses := Sorted(tx.accounts);
    var i := 0;
    NothingSeen(a.accounts, tx.row.ledger);
    NothingLinked(tx.hash);
    assert addresses[..0] == [];
    locked := [];
    while i < |addresses|
      invariant 0 <= i <= |addresses|
      invariant locked == addresses[..i]
      invariant a.transactions == PutTx(old(a.transactions), tx)
      invariant a.accounts == SeeAccounts(old(a.accounts), Elements(addresses[..i]), tx.row.ledger)
      invariant a.links == old(a.links) + LinksOf(tx.hash, Elements(addresses[..i]))
    {
      var address := addresses[i];
      ElementsOneMore(addresses, i);
      SeeOneMore(old(a.accounts), Elements(addresses[..i]), address, tx.row.ledger);
      LinksOneMore(tx.hash, Elements(addresses[..i]), address);
      a.accounts := a.accounts[address := Least(Lookup(a.accounts, address), Some(tx.row.ledger))];
      a.links := a.links + {(tx.hash, address)};
      locked := locked + [address];
      i := i + 1;
    }
    assert addresses[..i] == addresses;
  }

  lemma NothingLinked(hash: string)
    ensures LinksOf(hash, Elements([])) == {}
  {
  }

  lemma NothingSeen(t: map<string, Option<int>>, ledger: int)
    ensures SeeAccounts(t, Elements([]), ledger) == t
  {
  }

  method InsertTransactionChunks(a: Archive, rows: seq<IngestTx>)
    modifies a`transactions
    ensures a.transactions == PutTxs(old(a.transactions), rows)
  {
    var perStatement, start := 6000, 0;
    while start < |rows|
      invariant 0 <= start <= |rows|
      invariant a.transactions == PutTxs(old(a.transactions), rows[..start])
    {
      var end := if start + perStatement < |rows| then start + perStatement else |rows|;
      PutTxsAppend(old(a.transactions), rows[..start], rows[start..end]);
      assert rows[..start] + rows[start..end] == rows[..end];
      a.transactions := PutTxs(a.transactions, rows[start..end]);
      start := end;
    }
    assert rows[..start] == rows;
  }

  method InsertAccountChunks(a: Archive, rows: seq<(string, int)>)
    modifies a`accounts
    ensures a.accounts == SeeEarliest(old(a.accounts), rows)
  {
    var perStatement, start := 30000, 0;
    while start < |rows|
      invariant 0 <= start <= |rows|
      invariant a.accounts == SeeEarliest(old(a.accounts), rows[..start])
    {
      var end := if start + perStatement < |rows| then start + perStatement else |rows|;
      SeeEarliestAppend(old(a.accounts), rows[..start], rows[start..end]);
      assert rows[..start] + rows[start..end] == rows[..end];
      a.accounts := SeeEarliest(a.accounts, rows[start..end]);
      start := end;
    }
    assert rows[..start] == rows;
  }

  method InsertLinkChunks(a: Archive, rows: seq<(string, string)>)
    modifies a`links
    ensures a.links == old(a.links) + set l | l in rows
  {
    var perStatement, start := 30000, 0;
    while start < |rows|
      invariant 0 <= start <= |rows|
      invariant a.links == old(a.links) + (set l | l in rows[..start])
    {
      var end := if start + perStatement < |rows| then start + perStatement else |rows|;
      assert rows[..end] == rows[..start] + rows[start..end];
      a.links := a.links + (set l | l in rows[start..end]);
      start := end;
    }
    assert rows[..start] == rows;
  }
}
