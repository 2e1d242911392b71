/** Decoded transaction metadata, as the source reads it: every field is present with the type
    expected of it, or absent (src/discovery/fields.ts narrows anything else to absent). */
module Metadata {
  import opened Options

  /** The text of an `MPTAmount`: empty, not an integer, or the integer it spells. */
  datatype AmountText = Blank | Junk | Numeral(n: int)

  /** A trust line's `Balance` or one of its limits. */
  datatype IssuedAmount = IssuedAmount(value: Option<real>, currency: Option<string>, issuer: Option<string>)

  /** The fields the derivations look at, of an `MPToken` or a `RippleState`. */
  datatype Fields = Fields(
    account: Option<string>,
    mptIssuanceId: Option<string>,
    mptAmount: Option<AmountText>,
    balance: Option<IssuedAmount>,
    lowLimit: Option<IssuedAmount>,
    highLimit: Option<IssuedAmount>)

  datatype Node = Node(
    entryType: Option<string>,
    objectId: Option<string>,
    finalFields: Option<Fields>,
    newFields: Option<Fields>,
    previousFields: Option<Fields>)
  {
    /** `FinalFields ?? NewFields`: the object's fields after the transaction. */
    function After(): Option<Fields> {
      finalFields.OrElse(newFields)
    }
  }

  /** One entry of `AffectedNodes`. */
  datatype Wrapper = Wrapper(created: Option<Node>, modified: Option<Node>, deleted: Option<Node>) {
    /** `CreatedNode ?? ModifiedNode ?? DeletedNode`. */
    function Chosen(): Option<Node> {
      created.OrElse(modified).OrElse(deleted)
    }
  }

  /** An entry that is not an object is `None`, and so is an `AffectedNodes` that is not a list. */
  datatype Meta = Meta(affectedNodes: Option<seq<Option<Wrapper>>>, transactionIndex: Option<int>) {
    function Nodes(): seq<Option<Wrapper>> {
      affectedNodes.Or([])
    }

    /** The in-ledger position; 0 when the metadata does not say (src/api/state/decode.ts:14-17). */
    function Index(): int {
      transactionIndex.Or(0)
    }
  }

  const NO_FIELDS := Fields(None, None, None, None, None, None)

  /** What a tracked issuance is named by (src/reconcile/incremental.ts:13-19). */
  datatype Token = Mpt(mptIssuanceId: string) | Iou(currency: string, issuer: string)

  /** A change to one account's balance. MPT deltas are integers, stored like decimals as text. */
  datatype AccountDelta = AccountDelta(account: string, delta: real)
}
