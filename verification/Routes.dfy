/** The two routes to a balance in one archive: the sum of an account's delta rows up to a ledger, and
    the amount in the newest state of its object up to that ledger. */
module Routes {
  import opened Options
  import opened Ordering
  import opened Metadata
  import opened Tables
  import opened Derive
  import opened Rederive
  import opened Reconstruct
  import opened Touches
  import opened History
  import MptDeltas
  import IouDeltas

  type DeltaTable = map<(string, string, int), real>

  /** SQL `sum` over some rows of the delta table. */
  ghost function SumOver(m: DeltaTable, keys: set<(string, string, int)>): real
    requires keys <= m.Keys
  {
    if keys == {} then 0.0
    else
      var k :| k in keys;
      m[k] + SumOver(m, keys - {k})
  }

  lemma {:induction false} SumOverSplit(m: DeltaTable, keys: set<(string, string, int)>, k: (string, string, int))
    requires keys <= m.Keys && k in keys
    ensures SumOver(m, keys) == m[k] + SumOver(m, keys - {k})
  {
    var j :| j in keys && SumOver(m, keys) == m[j] + SumOver(m, keys - {j});
    if j != k {
      SumOverSplit(m, keys - {j}, k);
      SumOverSplit(m, keys - {k}, j);
      assert keys - {j} - {k} == keys - {k} - {j};
    }
  }

  /** The rows `archive_balance_at` sums (src/api/methods/reporting.ts:180-187). */
  function RowsUpTo(db: Db, id: int, account: string, ledger: int): set<(string, string, int)> {
    set k | k in db.deltas && k.1 == account && k.2 == id && k.0 in db.transactions && db.transactions[k.0].ledger <= ledger
  }

  ghost function BalanceAt(db: Db, id: int, account: string, ledger: int): real {
    SumOver(db.deltas, RowsUpTo(db, id, account, ledger))
  }

  /** The archive holds exactly these transactions, and the deltas of the token they give. */
  ghost predicate Holds(db: Db, issuance: Issuance, txs: seq<IngestTx>) {
    && Current(db, issuance)
    && (forall i :: 0 <= i < |txs| ==> txs[i].hash in db.transactions && SameRecord(db.transactions[txs[i].hash], txs[i].row))
    && (forall h :: h in db.transactions ==> exists i :: 0 <= i < |txs| && txs[i].hash == h)
  }

  /** `n` of the transactions lie at or before the ledger. */
  ghost predicate UpTo(txs: seq<IngestTx>, n: nat, ledger: int) {
    n <= |txs| && forall i :: 0 <= i < |txs| ==> (i < n <==> txs[i].row.ledger <= ledger)
  }

  /** There is always such an `n`. */
  lemma {:induction false} LedgerCuts(token: Token, txs: seq<IngestTx>, ledger: int) returns (n: nat)
    requires Ledger(token, txs)
    ensures UpTo(txs, n, ledger)
  {
    n := 0;
    while n < |txs| && txs[n].row.ledger <= ledger
      invariant n <= |txs| && forall i :: 0 <= i < n ==> txs[i].row.ledger <= ledger
    {
      n := n + 1;
    }
    if n < |txs| {
      assert forall i :: n < i < |txs| ==> After(txs[i], txs[n]);
    }
  }

  // ---- Summed deltas ----

  lemma DeltaIsMove(db: Db, issuance: Issuance, txs: seq<IngestTx>, i: int, account: string)
    requires Ledger(issuance.token, txs) && Holds(db, issuance, txs) && 0 <= i < |txs|
    ensures var k, move := (txs[i].hash, account, issuance.id), Move(issuance.token, txs[i], account);
            (k in db.deltas <==> move != 0.0) && (k in db.deltas ==> db.deltas[k] == move)
  {
    hide TokenDeltas, TouchesIn, TouchOf, WellFormed;
    var token, touches := issuance.token, TouchesOf(issuance.token, txs[i]);
    var k := (txs[i].hash, account, issuance.id);
    DerivedDeltas(token, txs[i].row.meta);
    WellFormedOnePerAccount(token, txs[i].row.meta);
    TouchOfIs(touches, account);
    assert issuance in [issuance];
    var t := TouchIn(token, txs[i], account);
    if t.Some? && t.value.after != t.value.before {
      var d := AccountDelta(account, t.value.after - t.value.before);
      assert Moved(touches, d);
      assert d in TokenDeltas(token, db.transactions[txs[i].hash].meta);
    }
    if k in db.deltas {
      assert Moved(touches, AccountDelta(account, db.deltas[k]));
    }
  }

  lemma WellFormedOnePerAccount(token: Token, meta: Meta)
    requires WellFormed(token, meta)
    ensures OnePerAccount(TouchesIn(token, meta.Nodes()))
    ensures forall t :: t in TouchesIn(token, meta.Nodes()) ==> t.account != "" && t.objectId != ""
  {
  }

  /** The delta rows of the first `n` transactions. */
  function MoveKeys(token: Token, id: int, txs: seq<IngestTx>, account: string): set<(string, string, int)> {
    set i | 0 <= i < |txs| && Move(token, txs[i], account) != 0.0 :: (txs[i].hash, account, id)
  }

  lemma {:induction false} MoveKeysSum(db: Db, issuance: Issuance, txs: seq<IngestTx>, account: string, n: nat)
    requires Ledger(issuance.token, txs) && Holds(db, issuance, txs) && n <= |txs|
    ensures MoveKeys(issuance.token, issuance.id, txs[..n], account) <= db.deltas.Keys
    ensures SumOver(db.deltas, MoveKeys(issuance.token, issuance.id, txs[..n], account)) == Summed(issuance.token, txs[..n], account)
  {
    hide Holds, Move, Ledger;
    if n > 0 {
      var token, id := issuance.token, issuance.id;
      var last := txs[n - 1];
      MoveKeysSum(db, issuance, txs, account, n - 1);
      DeltaIsMove(db, issuance, txs, n - 1, account);
      LastSum(token, txs, n - 1, account);
      MoveKeysStep(token, id, txs, account, n - 1);
      var less, more := MoveKeys(token, id, txs[..n - 1], account), MoveKeys(token, id, txs[..n], account);
      if Move(token, last, account) != 0.0 {
        SumOverSplit(db.deltas, more, (last.hash, account, id));
        assert more - {(last.hash, account, id)} == less;
      }
    }
  }

  lemma LastSum(token: Token, txs: seq<IngestTx>, k: int, account: string)
    requires 0 <= k < |txs|
    ensures Summed(token, txs[..k + 1], account) == Summed(token, txs[..k], account) + Move(token, txs[k], account)
  {
    hide Move;
    PrefixOfPrefix(txs, k, k + 1);
  }

  lemma MoveKeysStep(token: Token, id: int, txs: seq<IngestTx>, account: string, k: int)
    requires Ledger(token, txs) && 0 <= k < |txs|
    ensures var less, more := MoveKeys(token, id, txs[..k], account), MoveKeys(token, id, txs[..k + 1], account);
            && more == (if Move(token, txs[k], account) != 0.0 then less + {(txs[k].hash, account, id)} else less)
            && (txs[k].hash, account, id) !in less
  {
    hide Move;
    var less, more := txs[..k], txs[..k + 1];
    assert forall i :: 0 <= i < k ==> less[i] == more[i] == txs[i] && txs[i].hash != txs[k].hash;
    assert more[k] == txs[k];
    var lk, mk := MoveKeys(token, id, less, account), MoveKeys(token, id, more, account);
    forall x | x in lk ensures x in mk {
      var i :| 0 <= i < |less| && Move(token, less[i], account) != 0.0 && x == (less[i].hash, account, id);
      assert Move(token, more[i], account) != 0.0;
    }
    if Move(token, txs[k], account) != 0.0 {
      assert Move(token, more[k], account) != 0.0;
    }
  }

  /** The deltas an account has up to a ledger sum to its changes up to that ledger. */
  lemma DerivedIsSummed(db: Db, issuance: Issuance, txs: seq<IngestTx>, account: string, n: nat, ledger: int)
    requires Ledger(issuance.token, txs) && Holds(db, issuance, txs) && UpTo(txs, n, ledger)
    ensures BalanceAt(db, issuance.id, account, ledger) == Summed(issuance.token, txs[..n], account)
  {
    hide Move, SumOver, Ledger;
    MoveKeysSum(db, issuance, txs, account, n);
    var left, right := RowsUpTo(db, issuance.id, account, ledger), MoveKeys(issuance.token, issuance.id, txs[..n], account);
    forall k | k in left ensures k in right {
      var i :| 0 <= i < |txs| && txs[i].hash == k.0;
      DeltaIsMove(db, issuance, txs, i, account);
      assert txs[..n][i] == txs[i];
    }
    forall k | k in right ensures k in left {
      var i :| 0 <= i < n && Move(issuance.token, txs[..n][i], account) != 0.0 && k == (txs[..n][i].hash, account, issuance.id);
      DeltaIsMove(db, issuance, txs, i, account);
    }
    assert left == right;
  }

  // ---- Latest object states ----

  function EntryOf(row: TxRow): Entry {
    Entry(row.ledger, row.meta.Index(), row.meta)
  }

  /** The rows the state queries read: linked to an account in scope, up to the ledger, in any order
      (src/api/methods/mptHolders.ts:40-50, src/reconcile/reconciler.ts:80-87). */
  ghost predicate Reads(entries: seq<Entry>, db: Db, id: int, ledger: int) {
    forall e :: e in entries <==> IsRead(db, id, ledger, e)
  }

  ghost predicate IsRead(db: Db, id: int, ledger: int, e: Entry) {
    exists h :: h in InScopeHashes(db, id) && h in db.transactions && db.transactions[h].ledger <= ledger && e == EntryOf(db.transactions[h])
  }

  lemma {:induction false} StatesComeFromEntries(entries: seq<Entry>, matches: Matcher, s: ObjectState)
    ensures s in StatesOf(entries, matches) <==> exists e :: e in entries && s in StatesIn(e, e.meta.Nodes(), matches)
  {
    hide StatesIn;
    if entries != [] {
      var front, last := entries[..|entries| - 1], entries[|entries| - 1];
      assert entries == front + [last];
      StatesComeFromEntries(front, matches, s);
    }
  }

  /** The transactions of the account are read. */
  ghost predicate Linked(db: Db, issuance: Issuance, txs: seq<IngestTx>, account: string) {
    forall i :: 0 <= i < |txs| && TouchIn(issuance.token, txs[i], account).Some? ==> txs[i].hash in InScopeHashes(db, issuance.id)
  }

  /** A state read is a touch of one of the first `n` transactions. */
  lemma StateHasTouch(db: Db, issuance: Issuance, txs: seq<IngestTx>, n: nat, ledger: int, entries: seq<Entry>, s: ObjectState)
    returns (j: int, t: Touch)
    requires Ledger(issuance.token, txs) && Holds(db, issuance, txs) && UpTo(txs, n, ledger) && Reads(entries, db, issuance.id, ledger)
    requires s in StatesOf(entries, Matches(issuance.token))
    ensures 0 <= j < n && t in TouchesOf(issuance.token, txs[j]) && IsTouch(issuance.token, EntryOf(txs[j].row), s, t)
    ensures TouchIn(issuance.token, txs[j], t.account) == Some(t)
  {
    hide StatesIn, TouchesIn, Matches, IsTouch, Current, InScopeHashes, WellFormed, TouchOf;
    var token := issuance.token;
    StatesComeFromEntries(entries, Matches(token), s);
    var e :| e in entries && s in StatesIn(e, e.meta.Nodes(), Matches(token));
    assert IsRead(db, issuance.id, ledger, e);
    var h :| h in InScopeHashes(db, issuance.id) && h in db.transactions && db.transactions[h].ledger <= ledger && e == EntryOf(db.transactions[h]);
    j :| 0 <= j < |txs| && txs[j].hash == h;
    assert e == EntryOf(txs[j].row) && e.meta.Nodes() == txs[j].row.meta.Nodes();
    WellFormedOnePerAccount(token, txs[j].row.meta);
    StatesAreTouches(token, e, e.meta.Nodes());
    var states := StatesIn(e, e.meta.Nodes(), Matches(token));
    var i :| 0 <= i < |states| && states[i] == s;
    t := TouchesIn(token, e.meta.Nodes())[i];
    TouchOfIs(TouchesOf(token, txs[j]), t.account);
  }

  /** And every touch of a linked account among the first `n` transactions is a state read. */
  lemma TouchHasState(db: Db, issuance: Issuance, txs: seq<IngestTx>, n: nat, ledger: int, entries: seq<Entry>, account: string, j: int)
    returns (s: ObjectState)
    requires Ledger(issuance.token, txs) && Holds(db, issuance, txs) && UpTo(txs, n, ledger) && Reads(entries, db, issuance.id, ledger)
    requires Linked(db, issuance, txs, account) && 0 <= j < n && TouchIn(issuance.token, txs[j], account).Some?
    ensures s in StatesOf(entries, Matches(issuance.token))
    ensures IsTouch(issuance.token, EntryOf(txs[j].row), s, TouchIn(issuance.token, txs[j], account).value)
  {
    hide StatesIn, TouchesIn, Matches, IsTouch, Current, InScopeHashes, WellFormed, TouchOf;
    var token, e := issuance.token, EntryOf(txs[j].row);
    var h := txs[j].hash;
    assert h in InScopeHashes(db, issuance.id) && e == EntryOf(db.transactions[h]);
    assert IsRead(db, issuance.id, ledger, e) && e in entries;
    WellFormedOnePerAccount(token, txs[j].row.meta);
    StatesAreTouches(token, e, e.meta.Nodes());
    var touches := TouchesOf(token, txs[j]);
    TouchOfIs(touches, account);
    var i :| 0 <= i < |touches| && touches[i] == TouchIn(token, txs[j], account).value;
    s := StatesIn(e, e.meta.Nodes(), Matches(token))[i];
    StatesComeFromEntries(entries, Matches(token), s);
  }

  /** The last of the first `n` transactions that touches the account, if any. */
  lemma {:induction false} LastTouch(token: Token, txs: seq<IngestTx>, account: string, n: nat) returns (m: int)
    requires n <= |txs|
    ensures -1 <= m < n && forall i :: m < i < n ==> TouchIn(token, txs[i], account).None?
    ensures m >= 0 ==> TouchIn(token, txs[m], account).Some? && Balance(token, txs[..n], account) == TouchIn(token, txs[m], account).value.after
    ensures m < 0 ==> Balance(token, txs[..n], account) == 0.0
  {
    hide TouchIn;
    if n == 0 {
      m := -1;
    } else if TouchIn(token, txs[n - 1], account).Some? {
      m := n - 1;
    } else {
      PrefixOfPrefix(txs, n - 1, n);
      m := LastTouch(token, txs, account, n - 1);
    }
  }

  /** What the reconstructed objects say an account holds. */
  ghost predicate Shows(token: Token, objects: seq<ObjectState>, account: string, value: real) {
    && (forall o :: o in objects && StateAccount(token, o) == account ==> StateValue(token, o) == value)
    && ((forall o :: o in objects ==> StateAccount(token, o) != account) ==> value == 0.0)
  }

  lemma {:induction false} MemberIsFound(objects: seq<ObjectState>, o: ObjectState)
    requires OnePerObject(objects) && o in objects
    ensures Find(objects, o.objectId) < |objects| && objects[Find(objects, o.objectId)] == o
  {
    hide Find;
    var i :| 0 <= i < |objects| && objects[i] == o;
    var k := Find(objects, o.objectId);
    assert k < |objects| && k == i;
  }

  /** The newest object of an account carries the balance its last touch left. */
  lemma ReconstructedIsBalance(db: Db, issuance: Issuance, txs: seq<IngestTx>, account: string, n: nat, ledger: int, entries: seq<Entry>)
    requires Ledger(issuance.token, txs) && Holds(db, issuance, txs) && UpTo(txs, n, ledger) && Reads(entries, db, issuance.id, ledger)
    requires Linked(db, issuance, txs, account)
    ensures Shows(issuance.token, Latest(StatesOf(entries, Matches(issuance.token))), account, Balance(issuance.token, txs[..n], account))
  {
    hide Latest, StatesOf, Matches, Find, Holds, Reads, Linked, TouchIn, Balance, TouchesIn, StateAccount, StateValue;
    var token := issuance.token;
    var states := StatesOf(entries, Matches(token));
    var objects := Latest(states);
    LatestOnePerObject(states);
    var m := LastTouch(token, txs, account, n);
    forall o | o in objects && StateAccount(token, o) == account
      ensures StateValue(token, o) == Balance(token, txs[..n], account)
    {
      MemberIsFound(objects, o);
      LatestIsNewest(states, o.objectId);
      var j, u := StateHasTouch(db, issuance, txs, n, ledger, entries, o);
      assert u.account == account && TouchIn(token, txs[j], account) == Some(u);
      assert j <= m;
      var s := TouchHasState(db, issuance, txs, n, ledger, entries, account, m);
      var t := TouchIn(token, txs[m], account).value;
      TouchInIsTouch(token, txs, m, account);
      assert t.objectId == u.objectId;
      assert !Newer(s, o);
      assert j == m;
    }
    if forall o :: o in objects ==> StateAccount(token, o) != account {
      if m >= 0 {
        var s := TouchHasState(db, issuance, txs, n, ledger, entries, account, m);
        LatestIsNewest(states, s.objectId);
        assert Mentions(states, s.objectId);
        var o := objects[Find(objects, s.objectId)];
        var j, u := StateHasTouch(db, issuance, txs, n, ledger, entries, o);
        TouchInIsTouch(token, txs, m, account);
      }
    }
  }

  lemma TouchInIsTouch(token: Token, txs: seq<IngestTx>, i: int, account: string)
    requires Ledger(token, txs) && 0 <= i < |txs| && TouchIn(token, txs[i], account).Some?
    ensures TouchIn(token, txs[i], account).value in TouchesOf(token, txs[i])
    ensures TouchIn(token, txs[i], account).value.account == account
  {
    hide TouchesIn, TouchOf, WellFormed;
    WellFormedOnePerAccount(token, txs[i].row.meta);
    TouchOfIs(TouchesOf(token, txs[i]), account);
  }
}
