/** Per-account trust-line balance changes of one transaction (src/reconcile/iou.ts). */
module IouDeltas {
  import opened Options
  import opened Metadata
  import Currency

  datatype Side = Low | High

  datatype Holder = Holder(account: string, side: Side)

  function IssuerOf(limit: Option<IssuedAmount>): Option<string> {
    if limit.Some? then limit.value.issuer else None
  }

  function BalanceCurrency(fields: Fields): Option<string> {
    if fields.balance.None? || fields.balance.value.currency.None? then None
    else Some(Currency.Readable(fields.balance.value.currency.value))
  }

  /** The non-issuer party of a line of this issuance and the side it is on. */
  function HolderInfo(fields: Fields, issuer: string, currency: string): Option<Holder> {
    var low, high := IssuerOf(fields.lowLimit), IssuerOf(fields.highLimit);
    if BalanceCurrency(fields) != Some(currency) then None
    else if low == Some(issuer) && high.Some? then Some(Holder(high.value, High))
    else if high == Some(issuer) && low.Some? then Some(Holder(low.value, Low))
    else None
  }

  /** `Balance` is the low side's; the high side sees it negated. */
  function HolderBalance(fields: Fields, side: Side): real {
    var value := if fields.balance.Some? then fields.balance.value.value.Or(0.0) else 0.0;
    if side == Low then value else -value
  }

  /** The fields of a node that is a line of this issuance. */
  function LineFields(w: Option<Wrapper>, currency: string, issuer: string): Option<Fields> {
    if w.None? || w.value.Chosen().None? then None
    else
      var node := w.value.Chosen().value;
      if node.entryType != Some("RippleState") || node.After().None? || HolderInfo(node.After().value, issuer, currency).None?
      then None
      else node.After()
  }

  /** The balance the code takes the line to have had: a modified line whose previous fields say
      nothing about the balance is taken to be unchanged. */
  function Before(w: Wrapper, fields: Fields, side: Side): real {
    if w.created.Some? then 0.0
    else if w.modified.Some? then
      var previous := w.modified.value.previousFields;
      if previous.Some? && previous.value.balance.Some? then HolderBalance(previous.value, side)
      else HolderBalance(fields, side)
    else HolderBalance(fields, side)
  }

  function After(w: Wrapper, fields: Fields, side: Side): real {
    if w.created.Some? || w.modified.Some? then HolderBalance(fields, side) else 0.0
  }

  function NodeDeltas(w: Option<Wrapper>, currency: string, issuer: string): seq<AccountDelta> {
    var fields := LineFields(w, currency, issuer);
    if fields.None? then []
    else
      var holder := HolderInfo(fields.value, issuer, currency).value;
      var delta := After(w.value, fields.value, holder.side) - Before(w.value, fields.value, holder.side);
      if delta == 0.0 then [] else [AccountDelta(holder.account, delta)]
  }

  function DeltasOf(nodes: seq<Option<Wrapper>>, currency: string, issuer: string): seq<AccountDelta> {
    if nodes == [] then []
    else DeltasOf(nodes[..|nodes| - 1], currency, issuer) + NodeDeltas(nodes[|nodes| - 1], currency, issuer)
  }

  method Derive(meta: Meta, currency: string, issuer: string) returns (deltas: seq<AccountDelta>)
    ensures deltas == DeltasOf(meta.Nodes(), currency, issuer)
  {
    hide BalanceCurrency;
    if meta.affectedNodes.None? {
      return [];
    }
    var affected := meta.affectedNodes.value;
    deltas := [];
    var i := 0;
    while i < |affected|
      invariant 0 <= i <= |affected|
      invariant deltas == DeltasOf(affected[..i], currency, issuer)
    {
      var raw := affected[i];
      assert affected[..i + 1][..i] == affected[..i];
      i := i + 1;
      if raw.None? {
        continue;
      }
      var wrapper := raw.value;
      var node := wrapper.created.OrElse(wrapper.modified).OrElse(wrapper.deleted);
      if node.None? || node.value.entryType != Some("RippleState") {
        continue;
      }
      var fields := node.value.finalFields.OrElse(node.value.newFields);
      if fields.None? {
        continue;
      }
      var info := HolderInfo(fields.value, issuer, currency);
      if info.None? {
        continue;
      }
      var prev, final;
      if wrapper.created.Some? {
        prev := 0.0;
        final := HolderBalance(fields.value, info.value.side);
      } else if wrapper.modified.Some? {
        var previous := wrapper.modified.value.previousFields;
        if previous.None? || previous.value.balance.None? {
          continue;
        }
        prev := HolderBalance(previous.value, info.value.side);
        final := HolderBalance(fields.value, info.value.side);
      } else {
        prev := HolderBalance(fields.value, info.value.side);
        final := 0.0;
      }
      var delta := final - prev;
      if delta != 0.0 {
        deltas := deltas + [AccountDelta(info.value.account, delta)];
      }
    }
    assert affected[..i] == affected;
  }
}
