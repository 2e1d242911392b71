/** What one metadata node says about one holder's balance, read the same way for both kinds of
    token: the common ground of the two routes to a balance. */
module Touches {
  import opened Options
  import opened Metadata
  import opened Derive
  import opened Reconstruct
  import MptDeltas
  import IouDeltas

  /** A node of the token: whose object it is, the balance the code takes it to have had, the balance
      it has now, and whether the object still exists. */
  datatype Touch = Touch(account: string, objectId: string, before: real, after: real, live: bool)

  function ReadTouch(token: Token, w: Option<Wrapper>): Option<Touch> {
    match token
    case Mpt(id) =>
      var fields := MptDeltas.TokenFields(w, id);
      if fields.None? then None
      else Some(Touch(fields.value.account.Or(""), w.value.Chosen().value.objectId.Or(""),
                      MptDeltas.Before(w.value, fields.value) as real, MptDeltas.After(w.value, fields.value) as real,
                      w.value.created.Some? || w.value.modified.Some?))
    case Iou(currency, issuer) =>
      var fields := IouDeltas.LineFields(w, currency, issuer);
      if fields.None? then None
      else
        var holder := IouDeltas.HolderInfo(fields.value, issuer, currency).value;
        Some(Touch(holder.account, w.value.Chosen().value.objectId.Or(""),
                   IouDeltas.Before(w.value, fields.value, holder.side), IouDeltas.After(w.value, fields.value, holder.side),
                   w.value.created.Some? || w.value.modified.Some?))
  }

  function TouchesIn(token: Token, nodes: seq<Option<Wrapper>>): seq<Touch> {
    if nodes == [] then []
    else
      var t := ReadTouch(token, nodes[|nodes| - 1]);
      TouchesIn(token, nodes[..|nodes| - 1]) + if t.Some? then [t.value] else []
  }

  /** A transaction touches each account of the token through one named object. */
  ghost predicate WellFormed(token: Token, meta: Meta) {
    var touches := TouchesIn(token, meta.Nodes());
    && (forall t :: t in touches ==> t.account != "" && t.objectId != "")
    && (forall i, j :: 0 <= i < j < |touches| ==> touches[i].account != touches[j].account)
  }

  // ---- The first route: deltas are the touches' differences ----

  function MovesIn(touches: seq<Touch>): seq<AccountDelta> {
    if touches == [] then []
    else
      var t := touches[|touches| - 1];
      MovesIn(touches[..|touches| - 1]) + if t.after == t.before then [] else [AccountDelta(t.account, t.after - t.before)]
  }

  function DeltasIn(token: Token, nodes: seq<Option<Wrapper>>): seq<AccountDelta> {
    match token
    case Mpt(id) => MptDeltas.DeltasOf(nodes, id)
    case Iou(currency, issuer) => IouDeltas.DeltasOf(nodes, currency, issuer)
  }

  function NodeMoves(token: Token, w: Option<Wrapper>): seq<AccountDelta> {
    match token
    case Mpt(id) => MptDeltas.NodeDeltas(w, id)
    case Iou(currency, issuer) => IouDeltas.NodeDeltas(w, currency, issuer)
  }

  lemma NodeMovesAreTouch(token: Token, w: Option<Wrapper>)
    requires ReadTouch(token, w).Some? ==> ReadTouch(token, w).value.account != ""
    ensures NodeMoves(token, w) == var t := ReadTouch(token, w);
                                   if t.None? || t.value.after == t.value.before then []
                                   else [AccountDelta(t.value.account, t.value.after - t.value.before)]
  {
  }

  lemma DeltasOneMore(token: Token, nodes: seq<Option<Wrapper>>)
    requires nodes != []
    ensures DeltasIn(token, nodes) == DeltasIn(token, nodes[..|nodes| - 1]) + NodeMoves(token, nodes[|nodes| - 1])
  {
    hide MptDeltas.NodeDeltas, IouDeltas.NodeDeltas;
  }

  lemma MovesOneMore(touches: seq<Touch>, t: Touch)
    ensures MovesIn(touches + [t]) ==
            MovesIn(touches) + if t.after == t.before then [] else [AccountDelta(t.account, t.after - t.before)]
  {
    assert (touches + [t])[..|touches|] == touches;
  }

  lemma {:induction false} DeltasAreMoves(token: Token, nodes: seq<Option<Wrapper>>)
    requires forall t :: t in TouchesIn(token, nodes) ==> t.account != ""
    ensures DeltasIn(token, nodes) == MovesIn(TouchesIn(token, nodes))
  {
    hide ReadTouch, NodeMoves, DeltasIn, MovesIn;
    if nodes == [] {
      NoMoves(token, nodes);
    } else {
      var front, last := nodes[..|nodes| - 1], nodes[|nodes| - 1];
      var t := ReadTouch(token, last);
      assert forall u :: u in TouchesIn(token, front) ==> u in TouchesIn(token, nodes);
      DeltasAreMoves(token, front);
      DeltasOneMore(token, nodes);
      if t.Some? {
        assert TouchesIn(token, nodes)[|TouchesIn(token, nodes)| - 1] == t.value;
        MovesOneMore(TouchesIn(token, front), t.value);
      } else {
        assert TouchesIn(token, nodes) == TouchesIn(token, front);
        assert DeltasIn(token, front) + [] == DeltasIn(token, front);
      }
      NodeMovesAreTouch(token, last);
    }
  }

  lemma NoMoves(token: Token, nodes: seq<Option<Wrapper>>)
    requires nodes == []
    ensures DeltasIn(token, nodes) == [] && MovesIn(TouchesIn(token, nodes)) == []
  {
  }

  /** The touch of an account, if the transaction has one. */
  function TouchOf(touches: seq<Touch>, account: string): Option<Touch> {
    if touches == [] then None
    else if touches[|touches| - 1].account == account then Some(touches[|touches| - 1])
    else TouchOf(touches[..|touches| - 1], account)
  }

  ghost predicate OnePerAccount(touches: seq<Touch>) {
    forall i, j :: 0 <= i < j < |touches| ==> touches[i].account != touches[j].account
  }

  lemma {:induction false} TouchOfIs(touches: seq<Touch>, account: string)
    requires OnePerAccount(touches)
    ensures forall t :: t in touches && t.account == account <==> TouchOf(touches, account) == Some(t)
  {
    if touches != [] {
      var front, last := touches[..|touches| - 1], touches[|touches| - 1];
      assert touches == front + [last];
      assert forall i :: 0 <= i < |front| ==> front[i] == touches[i] && touches[i].account != last.account;
      TouchOfIs(front, account);
    }
  }

  ghost predicate Moved(touches: seq<Touch>, d: AccountDelta) {
    exists t :: t in touches && t.account == d.account && t.after - t.before == d.delta && t.after != t.before
  }

  lemma {:induction false} MovesPerAccount(touches: seq<Touch>)
    requires OnePerAccount(touches)
    ensures forall d :: d in MovesIn(touches) <==> Moved(touches, d)
    ensures forall i, j :: 0 <= i < j < |MovesIn(touches)| ==> MovesIn(touches)[i].account != MovesIn(touches)[j].account
  {
    if touches != [] {
      var front, last := touches[..|touches| - 1], touches[|touches| - 1];
      assert touches == front + [last];
      assert forall i :: 0 <= i < |front| ==> front[i] == touches[i] && touches[i].account != last.account;
      MovesPerAccount(front);
      var moves := MovesIn(front);
      forall i | 0 <= i < |moves| ensures moves[i].account != last.account {
        assert Moved(front, moves[i]);
      }
      assert forall t :: t in touches <==> t in front || t == last;
    }
  }

  /** In a well-formed transaction the derived deltas are the accounts' changes, once each. */
  lemma DerivedDeltas(token: Token, meta: Meta)
    requires WellFormed(token, meta)
    ensures OneDeltaPerAccount(token, meta)
    ensures forall d :: d in TokenDeltas(token, meta) <==> Moved(TouchesIn(token, meta.Nodes()), d)
  {
    hide MovesIn, TouchesIn, Moved;
    DeltasAreMoves(token, meta.Nodes());
    MovesPerAccount(TouchesIn(token, meta.Nodes()));
    assert TokenDeltas(token, meta) == DeltasIn(token, meta.Nodes());
  }

  // ---- The second route: object states are the touches' last balances ----

  function Matches(token: Token): Matcher {
    match token
    case Mpt(id) => MatchesMpt(id)
    case Iou(currency, issuer) => MatchesIou(currency, issuer)
  }

  /** Whose object a state is. */
  function StateAccount(token: Token, s: ObjectState): string {
    match token
    case Mpt(_) => s.fields.account.Or("")
    case Iou(currency, issuer) =>
      var info := IouDeltas.HolderInfo(s.fields, issuer, currency);
      if info.Some? then info.value.account else ""
  }

  /** The balance a state carries: none once deleted. */
  function StateValue(token: Token, s: ObjectState): real {
    if s.deleted then 0.0
    else match token
      case Mpt(_) => MptDeltas.Amount(s.fields.mptAmount) as real
      case Iou(currency, issuer) =>
        var info := IouDeltas.HolderInfo(s.fields, issuer, currency);
        if info.Some? then IouDeltas.HolderBalance(s.fields, info.value.side) else 0.0
  }

  ghost predicate IsTouch(token: Token, e: Entry, s: ObjectState, t: Touch) {
    && s.objectId == t.objectId && s.deleted == !t.live && s.ledger == e.ledger && s.index == e.index
    && StateAccount(token, s) == t.account && StateValue(token, s) == t.after
  }

  lemma StateIsTouch(token: Token, e: Entry, w: Option<Wrapper>)
    requires ReadTouch(token, w).Some? ==> ReadTouch(token, w).value.objectId != ""
    ensures var states, t := StateOf(e, w, Matches(token)), ReadTouch(token, w);
            if t.None? then states == [] else |states| == 1 && IsTouch(token, e, states[0], t.value)
  {
    hide IouDeltas.BalanceCurrency;
  }

  /** The states of a transaction are its touches, one for one. */
  lemma {:induction false} StatesAreTouches(token: Token, e: Entry, nodes: seq<Option<Wrapper>>)
    requires forall t :: t in TouchesIn(token, nodes) ==> t.objectId != ""
    ensures var states, touches := StatesIn(e, nodes, Matches(token)), TouchesIn(token, nodes);
            |states| == |touches| && forall i :: 0 <= i < |states| ==> IsTouch(token, e, states[i], touches[i])
  {
    hide ReadTouch, IsTouch, StateOf, Matches;
    if nodes != [] {
      var front, last := nodes[..|nodes| - 1], nodes[|nodes| - 1];
      assert forall u :: u in TouchesIn(token, front) ==> u in TouchesIn(token, nodes);
      StatesAreTouches(token, e, front);
      var t := ReadTouch(token, last);
      if t.Some? {
        assert TouchesIn(token, nodes)[|TouchesIn(token, nodes)| - 1] == t.value;
      }
      StateIsTouch(token, e, last);
    }
  }
}
