/** Per-account MPT balance changes of one transaction (src/reconcile/mptDeltas.ts). */
module MptDeltas {
  import opened Options
  import opened Metadata

  /** Anything that does not spell an integer counts as 0. */
  function Amount(value: Option<AmountText>): int {
    if value.Some? && value.value.Numeral? then value.value.n else 0
  }

  /** The fields of a node that is an `MPToken` of issuance `id`. */
  function TokenFields(w: Option<Wrapper>, id: string): Option<Fields> {
    if w.None? || w.value.Chosen().None? then None
    else
      var node := w.value.Chosen().value;
      if node.entryType != Some("MPToken") || node.After().None? || node.After().value.mptIssuanceId != Some(id) then None
      else node.After()
  }

  /** The balance the code takes the object to have had before the transaction. */
  function Before(w: Wrapper, fields: Fields): int {
    if w.created.Some? then 0
    else if w.modified.Some? then
      var previous := w.modified.value.previousFields;
      if previous.Some? then Amount(previous.value.mptAmount) else 0
    else Amount(fields.mptAmount)
  }

  function After(w: Wrapper, fields: Fields): int {
    if w.created.Some? || w.modified.Some? then Amount(fields.mptAmount) else 0
  }

  function NodeDeltas(w: Option<Wrapper>, id: string): seq<AccountDelta> {
    var fields := TokenFields(w, id);
    if fields.None? || fields.value.account.Or("") == "" then []
    else
      var delta := After(w.value, fields.value) - Before(w.value, fields.value);
      if delta == 0 then [] else [AccountDelta(fields.value.account.value, delta as real)]
  }

  function DeltasOf(nodes: seq<Option<Wrapper>>, id: string): seq<AccountDelta> {
    if nodes == [] then []
    else DeltasOf(nodes[..|nodes| - 1], id) + NodeDeltas(nodes[|nodes| - 1], id)
  }

  method Derive(meta: Meta, id: string) returns (deltas: seq<AccountDelta>)
    ensures deltas == DeltasOf(meta.Nodes(), id)
  {
    if meta.affectedNodes.None? {
      return [];
    }
    var affected := meta.affectedNodes.value;
    deltas := [];
    var i := 0;
    while i < |affected|
      invariant 0 <= i <= |affected|
      invariant deltas == DeltasOf(affected[..i], id)
    {
      var raw := affected[i];
      assert affected[..i + 1][..i] == affected[..i];
      i := i + 1;
      if raw.None? {
        continue;
      }
      var wrapper := raw.value;
      var node := wrapper.created.OrElse(wrapper.modified).OrElse(wrapper.deleted);
      if node.None? || node.value.entryType != Some("MPToken") {
        continue;
      }
      var fields := node.value.finalFields.OrElse(node.value.newFields);
      if fields.None? || fields.value.mptIssuanceId != Some(id) {
        continue;
      }
      var account := fields.value.account;
      if account.Or("") == "" {
        continue;
      }
      var prev, final;
      if wrapper.created.Some? {
        prev := 0;
        final := Amount(fields.value.mptAmount);
      } else if wrapper.modified.Some? {
        var previous := wrapper.modified.value.previousFields;
        prev := Amount(if previous.Some? then previous.value.mptAmount else None);
        final := Amount(fields.value.mptAmount);
      } else {
        prev := Amount(fields.value.mptAmount);
        final := 0;
      }
      var delta := final - prev;
      if delta != 0 {
        deltas := deltas + [AccountDelta(account.value, delta as real)];
      }
    }
    assert affected[..i] == affected;
  }
}
