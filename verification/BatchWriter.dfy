/** The batch writer against inserting the same rows one by one
    (src/db/repositories/transactions.ts:88-186). */
module BatchWriter {
  import opened Options
  import opened Ordering
  import opened Tables
  import opened Writers

  // ---- The three tables of a one-by-one run, each on its own ----

  function SeeEach(t: map<string, Option<int>>, txs: seq<IngestTx>): map<string, Option<int>> {
    if txs == [] then t
    else
      var tx := txs[|txs| - 1];
      SeeAccounts(SeeEach(t, txs[..|txs| - 1]), Elements(tx.accounts), tx.row.ledger)
  }

  /** The accounts the batch lists. */
  function ListedBy(txs: seq<IngestTx>): set<string> {
    if txs == [] then {} else ListedBy(txs[..|txs| - 1]) + Elements(txs[|txs| - 1].accounts)
  }

  function LinkEach(txs: seq<IngestTx>): set<(string, string)> {
    if txs == [] then {}
    else
      var tx := txs[|txs| - 1];
      LinkEach(txs[..|txs| - 1]) + LinksOf(tx.hash, Elements(tx.accounts))
  }

  lemma {:induction false} EachTable(db: Db, txs: seq<IngestTx>)
    ensures InsertEach(db, txs) == db.(transactions := PutTxs(db.transactions, txs),
                                       accounts := SeeEach(db.accounts, txs),
                                       links := db.links + LinkEach(txs))
  {
    hide SeeAccounts, LinksOf, Elements;
    if txs != [] {
      EachTable(db, txs[..|txs| - 1]);
    }
  }

  // ---- transactions: one row per distinct hash ----

  lemma RepeatChangesNothing(t: map<string, TxRow>, rows: seq<IngestTx>, tx: IngestTx)
    requires Names(rows, tx.hash)
    ensures PutTx(PutTxs(t, rows), tx) == PutTxs(t, rows)
  {
    PutTxsLookup(t, rows, tx.hash);
  }

  lemma PrefixOneMore<T>(xs: seq<T>, i: int)
    requires 0 <= i < |xs|
    ensures xs[..i + 1][..i] == xs[..i] && |xs[..i + 1]| == i + 1 && xs[..i + 1][i] == xs[i]
  {
  }

  method FirstOfEachHash(txs: seq<IngestTx>, ghost t: map<string, TxRow>) returns (kept: seq<IngestTx>)
    ensures DistinctOn(kept, HashKey) && forall r :: r in kept ==> r in txs
    ensures PutTxs(t, kept) == PutTxs(t, txs)
  {
    var seen: set<string> := {};
    kept := [];
    var i := 0;
    while i < |txs|
      invariant 0 <= i <= |txs|
      invariant forall h :: h in seen <==> Names(kept, h)
      invariant DistinctOn(kept, HashKey) && forall r :: r in kept ==> r in txs
      invariant PutTxs(t, kept) == PutTxs(t, txs[..i])
    {
      var tx := txs[i];
      PrefixOneMore(txs, i);
      if tx.hash in seen {
        RepeatChangesNothing(t, kept, tx);
      } else {
        KeepOne(kept, tx);
        seen := seen + {tx.hash};
        kept := kept + [tx];
        assert kept[..|kept| - 1] + [tx] == kept;
      }
      i := i + 1;
    }
    assert txs[..i] == txs;
  }

  lemma KeepOne(kept: seq<IngestTx>, tx: IngestTx)
    requires DistinctOn(kept, HashKey) && !Names(kept, tx.hash)
    ensures DistinctOn(kept + [tx], HashKey)
    ensures forall h :: Names(kept + [tx], h) <==> Names(kept, h) || h == tx.hash
  {
    forall h ensures Names(kept + [tx], h) <==> Names(kept, h) || h == tx.hash {
      assert (kept + [tx])[|kept|] == tx;
      if Names(kept, h) {
        var i :| 0 <= i < |kept| && kept[i].hash == h;
        assert (kept + [tx])[i].hash == h;
      }
    }
  }

  // ---- accounts: one row per distinct address, with the earliest ledger of the batch ----

  function Earlier(earliest: map<string, int>, address: string, ledger: int): map<string, int> {
    var known := if address in earliest then earliest[address] else ledger;
    earliest[address := if known <= ledger then known else ledger]
  }

  lemma MergeOneMore(t: map<string, Option<int>>, earliest: map<string, int>, address: string, ledger: int)
    ensures MergeEarliest(t, Earlier(earliest, address, ledger)) ==
            var m := MergeEarliest(t, earliest); m[address := Least(Lookup(m, address), Some(ledger))]
  {
  }

  lemma MergeNothing(t: map<string, Option<int>>)
    ensures MergeEarliest(t, map[]) == t
  {
  }

  ghost predicate ListsKeys(order: seq<string>, earliest: map<string, int>) {
    && (forall i, j :: 0 <= i < j < |order| ==> order[i] != order[j])
    && (forall a :: a in earliest <==> a in order)
  }

  method EarliestLedgers(txs: seq<IngestTx>, ghost t: map<string, Option<int>>) returns (rows: seq<(string, int)>)
    ensures DistinctOn(rows, EarliestKey)
    ensures forall x :: (exists i :: 0 <= i < |rows| && rows[i].0 == x) <==> x in ListedBy(txs)
    ensures SeeEarliest(t, rows) == SeeEach(t, txs)
  {
    hide SeeAccounts, Least, Lookup, Elements, MergeEarliest, Earlier;
    var earliest: map<string, int>, order: seq<string> := map[], [];
    MergeNothing(t);
    var i := 0;
    while i < |txs|
      invariant 0 <= i <= |txs|
      invariant ListsKeys(order, earliest) && earliest.Keys == ListedBy(txs[..i])
      invariant MergeEarliest(t, earliest) == SeeEach(t, txs[..i])
    {
      var tx := txs[i];
      PrefixOneMore(txs, i);
      var j := 0;
      NothingSeen(SeeEach(t, txs[..i]), tx.row.ledger);
      assert tx.accounts[..0] == [];
      while j < |tx.accounts|
        invariant 0 <= j <= |tx.accounts|
        invariant ListsKeys(order, earliest) && earliest.Keys == ListedBy(txs[..i]) + Elements(tx.accounts[..j])
        invariant MergeEarliest(t, earliest) == SeeAccounts(SeeEach(t, txs[..i]), Elements(tx.accounts[..j]), tx.row.ledger)
      {
        var address := tx.accounts[j];
        ElementsOneMore(tx.accounts, j);
        SeeOneMore(SeeEach(t, txs[..i]), Elements(tx.accounts[..j]), address, tx.row.ledger);
        MergeOneMore(t, earliest, address, tx.row.ledger);
        EarlierKeys(earliest, address, tx.row.ledger);
        if address !in earliest {
          order := order + [address];
        }
        earliest := Earlier(earliest, address, tx.row.ledger);
        j := j + 1;
      }
      assert tx.accounts[..j] == tx.accounts;
      i := i + 1;
    }
    assert txs[..i] == txs;
    rows := Entries(order, earliest);
    EntriesListMap(order, earliest);
    SeeEarliestIsMerge(t, rows, earliest);
  }

  /** `[...earliest]`. */
  function Entries(order: seq<string>, earliest: map<string, int>): (r: seq<(string, int)>)
    requires forall a :: a in order ==> a in earliest
    ensures |r| == |order| && forall k :: 0 <= k < |r| ==> r[k] == (order[k], earliest[order[k]])
  {
    seq(|order|, k requires 0 <= k < |order| => assert order[k] in order; (order[k], earliest[order[k]]))
  }

  lemma EntriesListMap(order: seq<string>, earliest: map<string, int>)
    requires ListsKeys(order, earliest)
    ensures DistinctOn(Entries(order, earliest), EarliestKey) && ListsMap(Entries(order, earliest), earliest)
  {
    var rows := Entries(order, earliest);
    forall a | a in earliest ensures exists i :: 0 <= i < |rows| && rows[i].0 == a {
      var i :| 0 <= i < |order| && order[i] == a;
      assert rows[i].0 == a;
    }
  }

  lemma EarlierKeys(earliest: map<string, int>, address: string, ledger: int)
    ensures Earlier(earliest, address, ledger).Keys == earliest.Keys + {address}
  {
  }

  // ---- account_transactions: distinct links ----

  function SetOf(links: seq<(string, string)>): set<(string, string)> {
    set l | l in links
  }

  ghost predicate Remembered(seen: set<string>, links: seq<(string, string)>) {
    && DistinctOn(links, LinkKey)
    && (forall l :: l in links ==> LinkText(l.0, l.1) in seen)
    && (forall s :: s in seen ==> exists l :: l in links && s == LinkText(l.0, l.1))
  }

  /** The texts of the batch's links tell them apart. */
  ghost predicate Tells(txs: seq<IngestTx>) {
    forall l, m :: l in LinkEach(txs) && m in LinkEach(txs) && LinkText(l.0, l.1) == LinkText(m.0, m.1) ==> l == m
  }

  /** As they do where no hash contains the separator. */
  lemma PlainHashesTell(txs: seq<IngestTx>)
    requires forall tx :: tx in txs ==> '|' !in tx.hash
    ensures Tells(txs)
  {
    hide LinkText, LinkEach;
    forall l, m | l in LinkEach(txs) && m in LinkEach(txs) && LinkText(l.0, l.1) == LinkText(m.0, m.1) ensures l == m {
      LinkNamesHash(txs, l);
      LinkNamesHash(txs, m);
      LinkTextInjective(l.0, l.1, m.0, m.1);
    }
  }

  lemma {:induction false} LinkNamesHash(txs: seq<IngestTx>, l: (string, string))
    requires l in LinkEach(txs)
    ensures exists tx :: tx in txs && tx.hash == l.0
  {
    var tx := txs[|txs| - 1];
    if l in LinksOf(tx.hash, Elements(tx.accounts)) {
      assert tx in txs;
    } else {
      LinkNamesHash(txs[..|txs| - 1], l);
    }
  }

  lemma RememberOne(seen: set<string>, links: seq<(string, string)>, hash: string, address: string)
    requires Remembered(seen, links) && LinkText(hash, address) !in seen
    ensures Remembered(seen + {LinkText(hash, address)}, links + [(hash, address)])
    ensures SetOf(links + [(hash, address)]) == SetOf(links) + {(hash, address)}
  {
    hide LinkText;
    var more := links + [(hash, address)];
    assert (hash, address) in more;
    assert forall l :: l in links ==> l in more;
  }

  ghost predicate AllSeen(seen: set<string>, links: set<(string, string)>) {
    forall l :: l in links ==> LinkText(l.0, l.1) in seen
  }

  /** The links kept: each link's text once, and so every link where the texts tell them apart. */
  method DistinctLinks(txs: seq<IngestTx>) returns (links: seq<(string, string)>)
    ensures DistinctOn(links, LinkKey) && SetOf(links) <= LinkEach(txs)
    ensures forall l :: l in LinkEach(txs) ==> exists m :: m in links && LinkText(l.0, l.1) == LinkText(m.0, m.1)
    ensures Tells(txs) ==> SetOf(links) == LinkEach(txs)
  {
    hide LinkText, Elements, LinksOf, SetOf, Remembered, AllSeen, LinkEach, Tells;
    var seen: set<string> := {};
    links := [];
    NothingRemembered();
    var i := 0;
    while i < |txs|
      invariant 0 <= i <= |txs|
      invariant Remembered(seen, links)
      invariant SetOf(links) <= LinkEach(txs[..i]) && AllSeen(seen, LinkEach(txs[..i]))
    {
      var tx := txs[i];
      PrefixOneMore(txs, i);
      ghost var linked := LinkEach(txs[..i]);
      LinkOneTx(txs, i);
      var j := 0;
      NothingLinked(tx.hash);
      assert tx.accounts[..0] == [];
      assert linked + {} == linked;
      while j < |tx.accounts|
        invariant 0 <= j <= |tx.accounts|
        invariant Remembered(seen, links)
        invariant SetOf(links) <= linked + LinksOf(tx.hash, Elements(tx.accounts[..j]))
        invariant AllSeen(seen, linked + LinksOf(tx.hash, Elements(tx.accounts[..j])))
      {
        var address := tx.accounts[j];
        ElementsOneMore(tx.accounts, j);
        LinksOneMore(tx.hash, Elements(tx.accounts[..j]), address);
        var key := LinkText(tx.hash, address);
        ghost var met := linked + LinksOf(tx.hash, Elements(tx.accounts[..j]));
        SeeOneLink(seen, met, tx.hash, address);
        assert met + {(tx.hash, address)} == linked + LinksOf(tx.hash, Elements(tx.accounts[..j + 1]));
        if key !in seen {
          RememberOne(seen, links, tx.hash, address);
          seen := seen + {key};
          links := links + [(tx.hash, address)];
        } else {
          assert seen + {key} == seen;
        }
        j := j + 1;
      }
      assert tx.accounts[..j] == tx.accounts;
      i := i + 1;
    }
    assert txs[..i] == txs;
    KeptStandForAll(seen, links, txs);
  }

  lemma SeeOneLink(seen: set<string>, links: set<(string, string)>, hash: string, address: string)
    requires AllSeen(seen, links)
    ensures AllSeen(seen + {LinkText(hash, address)}, links + {(hash, address)})
  {
  }

  lemma LinkOneTx(txs: seq<IngestTx>, i: nat)
    requires i < |txs|
    ensures LinkEach(txs[..i + 1]) == LinkEach(txs[..i]) + LinksOf(txs[i].hash, Elements(txs[i].accounts))
  {
    PrefixOneMore(txs, i);
  }

  lemma KeptStandForAll(seen: set<string>, links: seq<(string, string)>, txs: seq<IngestTx>)
    requires Remembered(seen, links) && SetOf(links) <= LinkEach(txs) && AllSeen(seen, LinkEach(txs))
    ensures DistinctOn(links, LinkKey)
    ensures forall l :: l in LinkEach(txs) ==> exists m :: m in links && LinkText(l.0, l.1) == LinkText(m.0, m.1)
    ensures Tells(txs) ==> SetOf(links) == LinkEach(txs)
  {
    hide LinkText, LinkEach;
    forall l | l in LinkEach(txs)
      ensures (exists m :: m in links && LinkText(l.0, l.1) == LinkText(m.0, m.1)) && (Tells(txs) ==> l in SetOf(links))
    {
      var m :| m in links && LinkText(l.0, l.1) == LinkText(m.0, m.1);
      assert m in SetOf(links);
    }
  }

  lemma NothingRemembered()
    ensures Remembered({}, []) && SetOf([]) == {} && LinkEach([]) == {} && AllSeen({}, {})
  {
  }

  // ---- The batch writer ----

  method WriteTransactions(a: Archive, txs: seq<IngestTx>) returns (keys: seq<(string, string)>)
    modifies a`transactions
    ensures a.transactions == PutTxs(old(a.transactions), txs)
    ensures Ascending(keys) && forall k :: k in keys <==> k.1 == "" && k.0 in a.transactions && k.0 !in old(a.transactions)
  {
    hide PutTxs, DistinctOn, SortedOn, SortBy, Ascending, Without;
    var kept := FirstOfEachHash(txs, a.transactions);
    var rows := SortBy(kept, HashKey);
    SortDistinctAscends(kept, HashKey);
    PutTxsOrder(a.transactions, kept, rows);
    var before := a.transactions;
    InsertTransactionChunks(a, rows);
    keys := Without(Keys(rows, HashKey), set h | h in before :: (h, ""));
    WithoutAscends(Keys(rows, HashKey), set h | h in before :: (h, ""));
    forall k ensures k in keys <==> k.1 == "" && k.0 in a.transactions && k.0 !in before {
      KeyNamesHash(rows, k);
      PutTxsLookup(before, rows, k.0);
    }
  }

  lemma KeyNamesHash(rows: seq<IngestTx>, k: (string, string))
    ensures k in Keys(rows, HashKey) <==> k.1 == "" && Names(rows, k.0)
  {
    if k.1 == "" && Names(rows, k.0) {
      var i :| 0 <= i < |rows| && rows[i].hash == k.0;
      assert Keys(rows, HashKey)[i] == k;
    }
    if k in Keys(rows, HashKey) {
      var i :| 0 <= i < |rows| && Keys(rows, HashKey)[i] == k;
      assert rows[i].hash == k.0;
    }
  }

  method WriteAccounts(a: Archive, txs: seq<IngestTx>) returns (keys: seq<(string, string)>)
    modifies a`accounts
    ensures a.accounts == SeeEach(old(a.accounts), txs)
    ensures Ascending(keys) && forall k :: k in keys <==> k.1 == "" && k.0 in ListedBy(txs)
  {
    hide SeeEach, SeeEarliest, DistinctOn, SortedOn, SortBy, Ascending, ListedBy;
    var earliest := EarliestLedgers(txs, a.accounts);
    var rows := SortBy(earliest, EarliestKey);
    SortDistinctAscends(earliest, EarliestKey);
    SeeEarliestOrder(a.accounts, earliest, rows);
    InsertAccountChunks(a, rows);
    keys := Keys(rows, EarliestKey);
    forall k ensures k in keys <==> k.1 == "" && k.0 in ListedBy(txs) {
      KeyNamesAddress(earliest, rows, k);
    }
  }

  lemma KeyNamesAddress(earliest: seq<(string, int)>, rows: seq<(string, int)>, k: (string, string))
    requires multiset(rows) == multiset(earliest)
    ensures k in Keys(rows, EarliestKey) <==> k.1 == "" && exists i :: 0 <= i < |earliest| && earliest[i].0 == k.0
  {
    if k.1 == "" && exists i :: 0 <= i < |earliest| && earliest[i].0 == k.0 {
      var i :| 0 <= i < |earliest| && earliest[i].0 == k.0;
      assert earliest[i] in multiset(rows);
      var j :| 0 <= j < |rows| && rows[j] == earliest[i];
      assert Keys(rows, EarliestKey)[j] == k;
    }
    if k in Keys(rows, EarliestKey) {
      var j :| 0 <= j < |rows| && Keys(rows, EarliestKey)[j] == k;
      assert rows[j] in multiset(earliest);
    }
  }

  method WriteLinks(a: Archive, txs: seq<IngestTx>) returns (keys: seq<(string, string)>)
    modifies a`links
    ensures old(a.links) <= a.links <= old(a.links) + LinkEach(txs)
    ensures Tells(txs) ==> a.links == old(a.links) + LinkEach(txs)
    ensures Ascending(keys) && forall k :: k in keys <==> k in a.links && k !in old(a.links)
  {
    hide LinkEach, DistinctOn, SortedOn, SortBy, Ascending, Tells, Without;
    var links := DistinctLinks(txs);
    var rows := SortBy(links, LinkKey);
    SortDistinctAscends(links, LinkKey);
    SameLinkSet(links, rows);
    var before := a.links;
    InsertLinkChunks(a, rows);
    keys := Without(Keys(rows, LinkKey), before);
    WithoutAscends(Keys(rows, LinkKey), before);
    forall l ensures l in SetOf(rows) <==> l in Keys(rows, LinkKey) {
      if l in SetOf(rows) {
        var i :| 0 <= i < |rows| && rows[i] == l;
        assert Keys(rows, LinkKey)[i] == l;
      }
    }
  }

  /** A row the batch asks for: a transaction or a link that it adds, or an account that it lists. */
  predicate Asks(before: Db, after: Db, listed: set<string>, k: RowKey) {
    && k.issuance == 0
    && match k.table
       case 0 => k.key.1 == "" && k.key.0 in after.transactions && k.key.0 !in before.transactions
       case 1 => k.key.1 == "" && k.key.0 in listed
       case 2 => k.key in after.links && k.key !in before.links
       case _ => false
  }

  /** The batch's row locks: the rows it asks for and no others, in strictly ascending order. */
  ghost predicate BatchLocks(before: Db, after: Db, listed: set<string>, locks: seq<RowKey>) {
    StrictlyAscending(locks) && forall k :: k in locks <==> Asks(before, after, listed, k)
  }

  lemma KeysAreAsked(before: Db, after: Db, listed: set<string>,
                     hashes: seq<(string, string)>, addresses: seq<(string, string)>, links: seq<(string, string)>)
    requires Ascending(hashes) && Ascending(addresses) && Ascending(links)
    requires forall k :: k in hashes <==> k.1 == "" && k.0 in after.transactions && k.0 !in before.transactions
    requires forall k :: k in addresses <==> k.1 == "" && k.0 in listed
    requires forall k :: k in links <==> k in after.links && k !in before.links
    ensures BatchLocks(before, after, listed, LocksOf(0, hashes, 0) + LocksOf(1, addresses, 0) + LocksOf(2, links, 0))
  {
    hide StrictlyAscending, Ascending;
    TablesInOrder(hashes, addresses, links);
    forall k
      ensures k in LocksOf(0, hashes, 0) + LocksOf(1, addresses, 0) + LocksOf(2, links, 0) <==> Asks(before, after, listed, k)
    {
      InLocks(0, hashes, 0, k);
      InLocks(1, addresses, 0, k);
      InLocks(2, links, 0, k);
    }
  }

  /** Insert a batch. Where the texts of its links tell them apart, the archive ends as if the rows had been
      inserted one by one - otherwise it may lack some links - and the rows' locks are asked for in strictly
      ascending (table, key) order. */
  method InsertTransactionRowsMany(a: Archive, txs: seq<IngestTx>) returns (locks: seq<RowKey>)
    modifies a`transactions, a`accounts, a`links
    ensures Tells(txs) ==> a.Contents() == InsertEach(old(a.Contents()), txs)
    ensures var each := InsertEach(old(a.Contents()), txs);
            a.Contents() == each.(links := a.links) && old(a.links) <= a.links <= each.links
    ensures BatchLocks(old(a.Contents()), a.Contents(), ListedBy(txs), locks)
  {
    hide InsertEach, PutTxs, SeeEach, LinkEach, Ascending, StrictlyAscending, BatchLocks, Tells, ListedBy;
    EachTable(a.Contents(), txs);
    if |txs| == 0 {
      NoRows(a.Contents(), txs);
      NothingAsked(a.Contents(), txs);
      locks := [];
      return;
    }
    var hashes := WriteTransactions(a, txs);
    var addresses := WriteAccounts(a, txs);
    var links := WriteLinks(a, txs);
    KeysAreAsked(old(a.Contents()), a.Contents(), ListedBy(txs), hashes, addresses, links);
    locks := LocksOf(0, hashes, 0) + LocksOf(1, addresses, 0) + LocksOf(2, links, 0);
  }

  lemma NothingAsked(db: Db, txs: seq<IngestTx>)
    ensures txs == [] ==> BatchLocks(db, db, ListedBy(txs), [])
  {
  }

  lemma NoRows(db: Db, txs: seq<IngestTx>)
    requires txs == []
    ensures InsertEach(db, txs) == db
  {
  }

  lemma SameLinkSet(a: seq<(string, string)>, b: seq<(string, string)>)
    requires multiset(a) == multiset(b)
    ensures SetOf(a) == SetOf(b)
  {
    forall l ensures l in a <==> l in b {
      assert l in multiset(a) <==> l in multiset(b);
    }
  }

  lemma SeeEarliestOrder(t: map<string, Option<int>>, a: seq<(string, int)>, b: seq<(string, int)>)
    requires DistinctOn(a, EarliestKey) && multiset(a) == multiset(b)
    ensures SeeEarliest(t, a) == SeeEarliest(t, b)
  {
    DistinctSurvivesReordering(a, b, EarliestKey);
    var earliest := AsMap(a);
    AsMapLists(a);
    forall i | 0 <= i < |b| ensures b[i] in a {
      assert b[i] in multiset(a);
    }
    forall k | 0 <= k < |a| ensures a[k] in b {
      assert a[k] in multiset(b);
    }
    assert ListsMap(b, earliest) by {
      forall x | x in earliest ensures exists i :: 0 <= i < |b| && b[i].0 == x {
        var k :| 0 <= k < |a| && a[k].0 == x;
        var i :| 0 <= i < |b| && b[i] == a[k];
      }
    }
    SeeEarliestIsMerge(t, a, earliest);
    SeeEarliestIsMerge(t, b, earliest);
  }

  function AsMap(rows: seq<(string, int)>): map<string, int> {
    if rows == [] then map[] else AsMap(rows[..|rows| - 1])[rows[|rows| - 1].0 := rows[|rows| - 1].1]
  }

  lemma {:induction false} AsMapLists(rows: seq<(string, int)>)
    requires DistinctOn(rows, EarliestKey)
    ensures ListsMap(rows, AsMap(rows))
  {
    if rows != [] {
      var front, last := rows[..|rows| - 1], rows[|rows| - 1];
      AsMapLists(front);
      assert forall i :: 0 <= i < |front| ==> front[i] == rows[i] && EarliestKey(rows[i]) != EarliestKey(last);
      forall x | x in AsMap(rows) ensures exists i :: 0 <= i < |rows| && rows[i].0 == x {
        if x == last.0 {
          assert rows[|rows| - 1].0 == x;
        } else {
          var i :| 0 <= i < |front| && front[i].0 == x;
          assert rows[i].0 == x;
        }
      }
    }
  }
}
