/** A token's history and the two balances an account has in it: the sum of its changes, and the
    balance its last touch left (src/reconcile/mptDeltas.ts:3-11, src/api/state/reconstruct.ts:3-13). */
module History {
  import opened Options
  import opened Metadata
  import opened Tables
  import opened Ordering
  import opened Derive
  import opened Touches
  import MptDeltas
  import IouDeltas

  predicate After(x: IngestTx, y: IngestTx) {
    x.row.ledger > y.row.ledger || (x.row.ledger == y.row.ledger && x.row.meta.transactionIndex.Or(0) > y.row.meta.transactionIndex.Or(0))
  }

  function TouchesOf(token: Token, tx: IngestTx): seq<Touch> {
    TouchesIn(token, tx.row.meta.Nodes())
  }

  /** The ledger's transactions in order: no two at one place, no two with one hash, each well formed,
      and one object per account and account per object throughout. */
  ghost predicate Ledger(token: Token, txs: seq<IngestTx>) {
    && (forall i, j :: 0 <= i < j < |txs| ==> After(txs[j], txs[i]) && txs[i].hash != txs[j].hash)
    && (forall i :: 0 <= i < |txs| ==> WellFormed(token, txs[i].row.meta))
    && (forall i, j, t, u :: 0 <= i < |txs| && 0 <= j < |txs| && t in TouchesOf(token, txs[i]) && u in TouchesOf(token, txs[j])
          ==> (t.account == u.account <==> t.objectId == u.objectId))
  }

  function TouchIn(token: Token, tx: IngestTx, account: string): Option<Touch> {
    TouchOf(TouchesOf(token, tx), account)
  }

  function Move(token: Token, tx: IngestTx, account: string): real {
    var t := TouchIn(token, tx, account);
    if t.None? then 0.0 else t.value.after - t.value.before
  }

  /** The sum of an account's changes. */
  function Summed(token: Token, txs: seq<IngestTx>, account: string): real {
    if txs == [] then 0.0
    else Summed(token, txs[..|txs| - 1], account) + Move(token, txs[|txs| - 1], account)
  }

  /** The balance the account's last touch left; 0 before the first. */
  function Balance(token: Token, txs: seq<IngestTx>, account: string): real {
    if txs == [] then 0.0
    else
      var t := TouchIn(token, txs[|txs| - 1], account);
      if t.None? then Balance(token, txs[..|txs| - 1], account) else t.value.after
  }

  /** Every node's earlier balance, as the code reads it, is the one the account's previous touch left. */
  ghost predicate Chained(token: Token, txs: seq<IngestTx>, account: string) {
    forall k :: 0 <= k < |txs| && TouchIn(token, txs[k], account).Some? ==>
      TouchIn(token, txs[k], account).value.before == Balance(token, txs[..k], account)
  }

  lemma PrefixOfPrefix<T>(xs: seq<T>, k: int, n: int)
    requires 0 <= k <= n <= |xs|
    ensures xs[..n][..k] == xs[..k]
  {
  }

  lemma {:induction false} ChainedTelescopes(token: Token, txs: seq<IngestTx>, account: string)
    requires Chained(token, txs, account)
    ensures Summed(token, txs, account) == Balance(token, txs, account)
  {
    hide TouchIn;
    if txs != [] {
      var n := |txs| - 1;
      forall k | 0 <= k < n && TouchIn(token, txs[..n][k], account).Some?
        ensures TouchIn(token, txs[..n][k], account).value.before == Balance(token, txs[..n][..k], account)
      {
        PrefixOfPrefix(txs, k, n);
        assert txs[..n][k] == txs[k];
      }
      ChainedTelescopes(token, txs[..n], account);
      assert TouchIn(token, txs[n], account).Some? ==>
          TouchIn(token, txs[n], account).value.before == Balance(token, txs[..n], account);
    }
  }

  /** The two routes agree after every transaction exactly when every node's earlier balance is the one
      the previous touch left. */
  lemma RoutesAgreeExactlyWhenChained(token: Token, txs: seq<IngestTx>, account: string)
    ensures (forall k :: 0 <= k <= |txs| ==> Summed(token, txs[..k], account) == Balance(token, txs[..k], account))
            <==> Chained(token, txs, account)
  {
    hide TouchIn, Summed, Balance;
    if Chained(token, txs, account) {
      forall k | 0 <= k <= |txs| ensures Summed(token, txs[..k], account) == Balance(token, txs[..k], account) {
        forall m | 0 <= m < k && TouchIn(token, txs[..k][m], account).Some?
          ensures TouchIn(token, txs[..k][m], account).value.before == Balance(token, txs[..k][..m], account)
        {
          PrefixOfPrefix(txs, m, k);
          assert txs[..k][m] == txs[m];
        }
        ChainedTelescopes(token, txs[..k], account);
      }
    }
    if forall k :: 0 <= k <= |txs| ==> Summed(token, txs[..k], account) == Balance(token, txs[..k], account) {
      forall k | 0 <= k < |txs| && TouchIn(token, txs[k], account).Some?
        ensures TouchIn(token, txs[k], account).value.before == Balance(token, txs[..k], account)
      {
        LastStep(token, txs, k, account);
        assert Summed(token, txs[..k + 1], account) == Balance(token, txs[..k + 1], account);
        assert Summed(token, txs[..k], account) == Balance(token, txs[..k], account);
      }
    }
  }

  lemma LastStep(token: Token, txs: seq<IngestTx>, k: int, account: string)
    requires 0 <= k < |txs|
    ensures Summed(token, txs[..k + 1], account) == Summed(token, txs[..k], account) + Move(token, txs[k], account)
    ensures Balance(token, txs[..k + 1], account) ==
            if TouchIn(token, txs[k], account).None? then Balance(token, txs[..k], account)
            else TouchIn(token, txs[k], account).value.after
  {
    hide TouchIn;
    PrefixOfPrefix(txs, k, k + 1);
  }

  // ---- Against the ledger's own truth ----

  /** The node that touches the account. */
  function Carrier(token: Token, nodes: seq<Option<Wrapper>>, account: string): Option<Wrapper> {
    if nodes == [] then None
    else
      var t := ReadTouch(token, nodes[|nodes| - 1]);
      if t.Some? && t.value.account == account then nodes[|nodes| - 1] else Carrier(token, nodes[..|nodes| - 1], account)
  }

  lemma {:induction false} CarrierTouches(token: Token, nodes: seq<Option<Wrapper>>, account: string)
    ensures var w := Carrier(token, nodes, account);
            TouchOf(TouchesIn(token, nodes), account) == if w.None? then None else ReadTouch(token, w)
    ensures Carrier(token, nodes, account).Some? ==> ReadTouch(token, Carrier(token, nodes, account)).Some?
  {
    hide ReadTouch;
    if nodes != [] {
      var front, t := nodes[..|nodes| - 1], ReadTouch(token, nodes[|nodes| - 1]);
      CarrierTouches(token, front, account);
      NoNode(token);
      var before := TouchesIn(token, front);
      if t.Some? {
        assert TouchesIn(token, nodes) == before + [t.value];
        assert (before + [t.value])[..|before|] == before;
      } else {
        assert TouchesIn(token, nodes) == before;
      }
    }
  }

  lemma NoNode(token: Token)
    ensures ReadTouch(token, None).None?
  {
  }

  /** The amount in a node's own fields, from the holder's side. */
  function Says(token: Token, w: Wrapper): real
    requires ReadTouch(token, Some(w)).Some?
  {
    match token
    case Mpt(id) => MptDeltas.Amount(MptDeltas.TokenFields(Some(w), id).value.mptAmount) as real
    case Iou(currency, issuer) =>
      var fields := IouDeltas.LineFields(Some(w), currency, issuer).value;
      IouDeltas.HolderBalance(fields, IouDeltas.HolderInfo(fields, issuer, currency).value.side)
  }

  /** The earlier amount its previous fields mention, if they do. */
  function MentionedBefore(token: Token, w: Wrapper): Option<real>
    requires ReadTouch(token, Some(w)).Some?
  {
    var previous := w.Chosen().value.previousFields;
    match token
    case Mpt(_) =>
      if previous.None? || previous.value.mptAmount.None? then None else Some(MptDeltas.Amount(previous.value.mptAmount) as real)
    case Iou(currency, issuer) =>
      var fields := IouDeltas.LineFields(Some(w), currency, issuer).value;
      if previous.None? || previous.value.balance.None? then None
      else Some(IouDeltas.HolderBalance(previous.value, IouDeltas.HolderInfo(fields, issuer, currency).value.side))
  }

  predicate IsDeletion(w: Wrapper) {
    w.created.None? && w.modified.None?
  }

  predicate IsModification(w: Wrapper) {
    w.created.None? && w.modified.Some?
  }

  /** A node as the ledger writes it for an object that really held `prior`. It is created from nothing, or has
      previous fields that mention the earlier amount. Of a line they mention it exactly when it changed. Of a
      token they leave it out when it stayed, and also when it was 0: a default amount is no field at all. */
  predicate Truthful(token: Token, w: Wrapper, prior: real)
    requires ReadTouch(token, Some(w)).Some?
  {
    var mentioned := MentionedBefore(token, w);
    if w.created.Some? then prior == 0.0
    else if mentioned.Some? then mentioned.value == prior && (token.Iou? ==> Says(token, w) != prior)
    else Says(token, w) == prior || (token.Mpt? && prior == 0.0)
  }

  /** The node the code misreads, of an object that really held `prior`: a modified token that held something and
      whose amount is not mentioned, or a deleted object whose fields show another amount than it held. */
  predicate Misread(token: Token, w: Wrapper, prior: real)
    requires ReadTouch(token, Some(w)).Some?
  {
    || (token.Mpt? && IsModification(w) && MentionedBefore(token, w).None? && prior != 0.0)
    || (IsDeletion(w) && Says(token, w) != prior)
  }

  lemma BeforeIsPriorExactlyWhen(token: Token, w: Wrapper, prior: real)
    requires ReadTouch(token, Some(w)).Some? && Truthful(token, w, prior)
    ensures ReadTouch(token, Some(w)).value.before == prior <==> !Misread(token, w, prior)
    ensures ReadTouch(token, Some(w)).value.after == if IsDeletion(w) then 0.0 else Says(token, w)
  {
    hide IouDeltas.HolderBalance, IouDeltas.BalanceCurrency;
  }

  /** `held` lists what the account really held before each transaction, and after the last; every node of
      the account is truthful about it. */
  ghost predicate TrueHistory(token: Token, txs: seq<IngestTx>, account: string, held: seq<real>) {
    && |held| == |txs| + 1 && held[0] == 0.0
    && forall k :: 0 <= k < |txs| ==> TrueStep(token, txs[k], account, held[k], held[k + 1])
  }

  ghost predicate TrueStep(token: Token, tx: IngestTx, account: string, prior: real, next: real) {
    var w := Carrier(token, tx.row.meta.Nodes(), account);
    if w.None? then next == prior
    else
      ReadTouch(token, w).Some? && Truthful(token, w.value, prior)
      && next == if IsDeletion(w.value) then 0.0 else Says(token, w.value)
  }

  ghost predicate MisreadStep(token: Token, tx: IngestTx, account: string, prior: real) {
    var w := Carrier(token, tx.row.meta.Nodes(), account);
    w.Some? && ReadTouch(token, w).Some? && Misread(token, w.value, prior)
  }

  lemma StepReads(token: Token, tx: IngestTx, account: string, prior: real, next: real)
    requires TrueStep(token, tx, account, prior, next)
    ensures var t := TouchIn(token, tx, account);
            if t.None? then next == prior && !MisreadStep(token, tx, account, prior)
            else next == t.value.after && (t.value.before == prior <==> !MisreadStep(token, tx, account, prior))
  {
    hide ReadTouch, Truthful, Misread, Says;
    CarrierTouches(token, tx.row.meta.Nodes(), account);
    var w := Carrier(token, tx.row.meta.Nodes(), account);
    if w.Some? {
      BeforeIsPriorExactlyWhen(token, w.value, prior);
    }
  }

  /** Reconstruction always shows what the account really held. */
  lemma {:induction false} ReconstructionIsTrue(token: Token, txs: seq<IngestTx>, account: string, held: seq<real>, k: nat)
    requires TrueHistory(token, txs, account, held) && k <= |txs|
    ensures Balance(token, txs[..k], account) == held[k]
  {
    hide TouchIn, TrueStep;
    if k > 0 {
      ReconstructionIsTrue(token, txs, account, held, k - 1);
      PrefixOfPrefix(txs, k - 1, k);
      assert TrueStep(token, txs[k - 1], account, held[k - 1], held[k - 1 + 1]);
      StepReads(token, txs[k - 1], account, held[k - 1], held[k]);
    }
  }

  /** Over any truthful history the two routes agree after every transaction - and the sums are what the
      account really held - if and only if no node of the account is one the code misreads: no modified
      token that held something leaves its amount unmentioned, and no deleted object shows another amount
      than it held. */
  lemma RoutesAgreeExactlyWhenNothingMisread(token: Token, txs: seq<IngestTx>, account: string, held: seq<real>)
    requires TrueHistory(token, txs, account, held)
    ensures (forall k :: 0 <= k <= |txs| ==> Summed(token, txs[..k], account) == Balance(token, txs[..k], account))
            <==> forall k :: 0 <= k < |txs| ==> !MisreadStep(token, txs[k], account, held[k])
    ensures (forall k :: 0 <= k < |txs| ==> !MisreadStep(token, txs[k], account, held[k])) ==>
              Chained(token, txs, account) && Summed(token, txs, account) == held[|txs|]
  {
    hide TouchIn, TrueStep, MisreadStep, Summed, Balance;
    RoutesAgreeExactlyWhenChained(token, txs, account);
    forall k | 0 <= k < |txs|
      ensures TouchIn(token, txs[k], account).None? ==> !MisreadStep(token, txs[k], account, held[k])
      ensures TouchIn(token, txs[k], account).Some? ==>
                (TouchIn(token, txs[k], account).value.before == Balance(token, txs[..k], account) <==> !MisreadStep(token, txs[k], account, held[k]))
    {
      assert TrueStep(token, txs[k], account, held[k], held[k + 1]);
      StepReads(token, txs[k], account, held[k], held[k + 1]);
      ReconstructionIsTrue(token, txs, account, held, k);
    }
    if forall k :: 0 <= k < |txs| ==> !MisreadStep(token, txs[k], account, held[k]) {
      assert Chained(token, txs, account);
      ReconstructionIsTrue(token, txs, account, held, |txs|);
      assert txs[..|txs|] == txs;
    }
  }

  // ---- Histories the code misreads ----

  function TokenNode(id: string, objectId: string, account: string, amount: int, previous: Option<int>): Node {
    var fields := Fields(Some(account), Some(id), Some(Numeral(amount)), None, None, None);
    Node(Some("MPToken"), Some(objectId), Some(fields), None,
         if previous.Some? then Some(NO_FIELDS.(mptAmount := Some(Numeral(previous.value)))) else Some(NO_FIELDS))
  }

  function One(hash: string, ledger: int, w: Wrapper): IngestTx {
    IngestTx(hash, TxRow(ledger, "", Meta(Some([Some(w)]), None)), [])
  }

  /** Two transactions that each carry one node of the account, truthfully. */
  lemma TwoTrueSteps(token: Token, w0: Wrapper, w1: Wrapper, account: string, held: seq<real>)
    requires |held| == 3 && held[0] == 0.0
    requires forall w :: w in [w0, w1] ==> ReadTouch(token, Some(w)).Some? && ReadTouch(token, Some(w)).value.account == account
    requires Truthful(token, w0, 0.0) && held[1] == if IsDeletion(w0) then 0.0 else Says(token, w0)
    requires Truthful(token, w1, held[1]) && held[2] == if IsDeletion(w1) then 0.0 else Says(token, w1)
    ensures TrueHistory(token, [One("A", 1, w0), One("B", 2, w1)], account, held)
    ensures MisreadStep(token, One("A", 1, w0), account, 0.0) <==> Misread(token, w0, 0.0)
    ensures MisreadStep(token, One("B", 2, w1), account, held[1]) <==> Misread(token, w1, held[1])
  {
    hide ReadTouch, Truthful, Says, Misread;
    assert One("A", 1, w0).row.meta.Nodes() == [Some(w0)] && One("B", 2, w1).row.meta.Nodes() == [Some(w1)];
    assert w0 in [w0, w1] && w1 in [w0, w1];
    assert Carrier(token, [Some(w0)], account) == Some(w0) && Carrier(token, [Some(w1)], account) == Some(w1);
  }

  lemma OneTouch(token: Token, hash: string, ledger: int, w: Wrapper, account: string)
    requires ReadTouch(token, Some(w)).Some? && ReadTouch(token, Some(w)).value.account == account
    ensures TouchIn(token, One(hash, ledger, w), account) == ReadTouch(token, Some(w))
  {
    hide ReadTouch;
    var nodes := One(hash, ledger, w).row.meta.Nodes();
    assert nodes == [Some(w)] && nodes[..0] == [];
    assert TouchesIn(token, nodes) == [ReadTouch(token, Some(w)).value];
  }

  /** What a holder that opted in shows: no amount, which is 0. */
  function OptIn(id: string, account: string): Node {
    Node(Some("MPToken"), Some("o"), None, Some(NO_FIELDS.(account := Some(account), mptIssuanceId := Some(id))), None)
  }

  /** A holder opts in and receives its first tokens: the modified node does not mention the earlier 0, is read
      as having held 0, and both routes show what is held. */
  lemma FirstReceiptIsRead(id: string, n: int)
    ensures var token := Mpt(id);
            var optIn := One("A", 1, Wrapper(Some(OptIn(id, "r")), None, None));
            var receive := One("B", 2, Wrapper(None, Some(TokenNode(id, "o", "r", n, None)), None));
            && TrueHistory(token, [optIn, receive], "r", [0.0, 0.0, n as real])
            && !MisreadStep(token, optIn, "r", 0.0) && !MisreadStep(token, receive, "r", 0.0)
            && Summed(token, [optIn, receive], "r") == Balance(token, [optIn, receive], "r") == n as real
  {
    var w0, w1 := Wrapper(Some(OptIn(id, "r")), None, None), Wrapper(None, Some(TokenNode(id, "o", "r", n, None)), None);
    OneTouch(Mpt(id), "A", 1, w0, "r");
    OneTouch(Mpt(id), "B", 2, w1, "r");
    TwoSteps(Mpt(id), One("A", 1, w0), One("B", 2, w1), "r");
    TwoTrueSteps(Mpt(id), w0, w1, "r", [0.0, 0.0, n as real]);
  }

  /** A modified token whose previous fields do not mention the amount - a lock, say - is read as having
      held 0 before: a holder of `n` comes out with `2n`. */
  lemma SilentModificationDoubles(id: string, n: int)
    ensures var token := Mpt(id);
            var create := One("A", 1, Wrapper(Some(TokenNode(id, "o", "r", n, None)), None, None));
            var lock := One("B", 2, Wrapper(None, Some(TokenNode(id, "o", "r", n, None)), None));
            && TrueHistory(token, [create, lock], "r", [0.0, n as real, n as real])
            && Summed(token, [create, lock], "r") == 2.0 * (n as real) && Balance(token, [create, lock], "r") == n as real
  {
    var token := Mpt(id);
    var w0, w1 := Wrapper(Some(TokenNode(id, "o", "r", n, None)), None, None), Wrapper(None, Some(TokenNode(id, "o", "r", n, None)), None);
    var create, lock := One("A", 1, w0), One("B", 2, w1);
    OneTouch(token, "A", 1, w0, "r");
    OneTouch(token, "B", 2, w1, "r");
    TwoSteps(token, create, lock, "r");
    TwoTrueSteps(token, w0, w1, "r", [0.0, n as real, n as real]);
  }

  lemma TwoSteps(token: Token, x: IngestTx, y: IngestTx, account: string)
    requires TouchIn(token, x, account).Some? && TouchIn(token, y, account).Some?
    ensures Summed(token, [x, y], account) == Move(token, x, account) + Move(token, y, account)
    ensures Balance(token, [x, y], account) == TouchIn(token, y, account).value.after
  {
    hide TouchIn;
    assert [x, y][..1] == [x] && [x][..0] == [];
    assert Summed(token, [x], account) == Move(token, x, account);
  }

  function LineNode(currency: string, low: string, high: string, value: real, previous: Option<real>): Node {
    var fields := Fields(None, None, None, Some(IssuedAmount(Some(value), Some(currency), None)),
                         Some(IssuedAmount(None, None, Some(low))), Some(IssuedAmount(None, None, Some(high))));
    Node(Some("RippleState"), Some("o"), Some(fields), None,
         if previous.Some? then Some(NO_FIELDS.(balance := Some(IssuedAmount(previous, Some(currency), None)))) else None)
  }

  /** A line emptied and deleted by one transaction leaves its final 0 in the deleted node: the code
      reads 0 before as well, and the balance that went is never taken off. */
  lemma EmptiedAndDeletedLineKeepsItsBalance(n: real)
    ensures var token := Iou("USD", "i");
            var create := One("A", 1, Wrapper(Some(LineNode("USD", "r", "i", n, None)), None, None));
            var empty := One("B", 2, Wrapper(None, None, Some(LineNode("USD", "r", "i", 0.0, Some(n)))));
            && (n != 0.0 ==> TrueHistory(token, [create, empty], "r", [0.0, n, 0.0]))
            && Summed(token, [create, empty], "r") == n && Balance(token, [create, empty], "r") == 0.0
  {
    var token := Iou("USD", "i");
    var w0 := Wrapper(Some(LineNode("USD", "r", "i", n, None)), None, None);
    var w1 := Wrapper(None, None, Some(LineNode("USD", "r", "i", 0.0, Some(n))));
    var create, empty := One("A", 1, w0), One("B", 2, w1);
    OneTouch(token, "A", 1, w0, "r");
    OneTouch(token, "B", 2, w1, "r");
    TwoSteps(token, create, empty, "r");
    if n != 0.0 {
      TwoTrueSteps(token, w0, w1, "r", [0.0, n, 0.0]);
    }
  }

  // ---- The other hypotheses are needed as well ----

  /** Two objects of one holder: the sums count both, the latest state is of one. */
  lemma TwoObjectsOfOneHolder(id: string, n: int, m: int)
    ensures var token := Mpt(id);
            var first := One("A", 1, Wrapper(Some(TokenNode(id, "o", "r", n, None)), None, None));
            var second := One("B", 2, Wrapper(Some(TokenNode(id, "p", "r", m, None)), None, None));
            Summed(token, [first, second], "r") == (n + m) as real && Balance(token, [first, second], "r") == m as real
  {
    var w0 := Wrapper(Some(TokenNode(id, "o", "r", n, None)), None, None);
    var w1 := Wrapper(Some(TokenNode(id, "p", "r", m, None)), None, None);
    OneTouch(Mpt(id), "A", 1, w0, "r");
    OneTouch(Mpt(id), "B", 2, w1, "r");
    TwoSteps(Mpt(id), One("A", 1, w0), One("B", 2, w1), "r");
  }

  /** A line whose sides swap: the earlier balance is read from the wrong side, and a holder of `n` comes
      out with `3n`. */
  lemma SwappedSidesTreble(n: real)
    ensures var token := Iou("USD", "i");
            var create := One("A", 1, Wrapper(Some(LineNode("USD", "r", "i", n, None)), None, None));
            var swap := One("B", 2, Wrapper(None, Some(LineNode("USD", "i", "r", -n, Some(n))), None));
            Summed(token, [create, swap], "r") == 3.0 * n && Balance(token, [create, swap], "r") == n
  {
    var w0 := Wrapper(Some(LineNode("USD", "r", "i", n, None)), None, None);
    var w1 := Wrapper(None, Some(LineNode("USD", "i", "r", -n, Some(n))), None);
    OneTouch(Iou("USD", "i"), "A", 1, w0, "r");
    OneTouch(Iou("USD", "i"), "B", 2, w1, "r");
    TwoSteps(Iou("USD", "i"), One("A", 1, w0), One("B", 2, w1), "r");
  }

  /** An object twice in one transaction: its account's deltas name one key twice, and the statement that
      writes them is refused. */
  lemma TwiceInOneTransaction(id: string, hash: string, n: int)
    requires n != 0
    ensures var w := Wrapper(Some(TokenNode(id, "o", "r", n, None)), None, None);
            var meta := Meta(Some([Some(w), Some(w)]), None);
            !OneDeltaPerAccount(Mpt(id), meta) && Refuses(RowsOf(hash, TokenDeltas(Mpt(id), meta)))
  {
    var w := Wrapper(Some(TokenNode(id, "o", "r", n, None)), None, None);
    var nodes := [Some(w), Some(w)];
    var d := AccountDelta("r", n as real);
    assert nodes[..1] == [Some(w)] && [Some(w)][..0] == [];
    assert MptDeltas.NodeDeltas(Some(w), id) == [d];
    assert MptDeltas.DeltasOf([Some(w)], id) == [d];
    assert MptDeltas.DeltasOf(nodes, id) == [d, d];
    var meta := Meta(Some([Some(w), Some(w)]), None);
    assert meta.Nodes() == nodes && TokenDeltas(Mpt(id), meta) == [d, d];
    var deltas := TokenDeltas(Mpt(id), meta);
    assert deltas[0].account == deltas[1].account;
    var rows := RowsOf(hash, deltas);
    assert DeltaKey(rows[0]) == DeltaKey(rows[1]);
    RefusedExactlyWhen(rows);
  }
}
