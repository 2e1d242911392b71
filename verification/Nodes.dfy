/** What one ledger node says, read off its raw fields: the deltas derived from it, the balance reconstruction
    shows, and the holder a sweep finds in it (src/reconcile/mptDeltas.ts:28-67, src/reconcile/iou.ts:25-118,
    src/reconcile/incremental.ts:116-156). */
module Nodes {
  import opened Options
  import opened Metadata
  import opened Derive
  import opened Reconstruct
  import opened Holders
  import opened Currency
  import Hex
  import MptDeltas
  import IouDeltas

  /** The changes a node brings to one account: none, or one that is not zero. */
  function Change(account: string, delta: real): seq<AccountDelta> {
    if delta == 0.0 then [] else [AccountDelta(account, delta)]
  }

  // ---- Trust lines ----

  /** The codes a line of which is recognised whichever way it spells them. */
  predicate Plain(code: string) {
    |code| == 3 || (1 <= |code| <= 20 && Ascii(code))
  }

  predicate Has(limit: Option<IssuedAmount>, account: string) {
    limit.Some? && limit.value.issuer == Some(account)
  }

  /** A line in the code's wire form, between these two accounts. */
  predicate IsLine(n: Node, code: string, low: string, high: string) {
    && n.entryType == Some("RippleState") && n.After().Some?
    && var fields := n.After().value;
       && fields.balance.Some? && fields.balance.value.currency == Some(ToWire(code))
       && Has(fields.lowLimit, low) && Has(fields.highLimit, high)
  }

  /** The value of a `Balance`; 0 when it has none. */
  function Stated(balance: IssuedAmount): real {
    if balance.value.Some? then balance.value.value else 0.0
  }

  function Balance(n: Node): real
    requires n.After().Some? && n.After().value.balance.Some?
  {
    Stated(n.After().value.balance.value)
  }

  /** The low side's balance before and after the transaction, as the node tells it. */
  function LowBefore(w: Wrapper, n: Node): real
    requires n.After().Some? && n.After().value.balance.Some?
  {
    if w.created.Some? then 0.0
    else if w.modified.Some? && n.previousFields.Some? && n.previousFields.value.balance.Some?
    then Stated(n.previousFields.value.balance.value)
    else Balance(n)
  }

  function LowAfter(w: Wrapper, n: Node): real
    requires n.After().Some? && n.After().value.balance.Some?
  {
    if w.created.Some? || w.modified.Some? then Balance(n) else 0.0
  }

  lemma LineIsRead(w: Wrapper, n: Node, code: string, issuer: string, low: string, high: string)
    requires w.Chosen() == Some(n) && IsLine(n, code, low, high) && Plain(code) && low != high
    ensures IouDeltas.LineFields(Some(w), code, issuer) == if issuer == low || issuer == high then n.After() else None
    ensures issuer == high ==> IouDeltas.HolderInfo(n.After().value, issuer, code) == Some(IouDeltas.Holder(low, IouDeltas.Low))
    ensures issuer == low ==> IouDeltas.HolderInfo(n.After().value, issuer, code) == Some(IouDeltas.Holder(high, IouDeltas.High))
  {
    hide ToWire, Readable;
    ReadableOfWire(code);
  }

  /** The deltas of a line: the holder on the low side moves with the balance, on the high side against it; a line
      with neither side the issuer's has none. */
  lemma LineDeltas(w: Wrapper, n: Node, code: string, issuer: string, low: string, high: string)
    requires w.Chosen() == Some(n) && IsLine(n, code, low, high) && Plain(code) && low != high
    ensures IouDeltas.NodeDeltas(Some(w), code, issuer) ==
            var moved := LowAfter(w, n) - LowBefore(w, n);
            if issuer == high then Change(low, moved) else if issuer == low then Change(high, -moved) else []
  {
    hide IouDeltas.HolderInfo, IouDeltas.LineFields, IsLine;
    LineIsRead(w, n, code, issuer, low, high);
    LineHasBalance(n, code, low, high);
  }

  lemma LineHasBalance(n: Node, code: string, low: string, high: string)
    requires IsLine(n, code, low, high)
    ensures n.After().Some? && n.After().value.balance.Some?
  {
  }

  /** A line in another code than the one asked for is not read at all. */
  lemma OtherCodeIsIgnored(w: Wrapper, n: Node, code: string, other: string, issuer: string, low: string, high: string)
    requires w.Chosen() == Some(n) && IsLine(n, other, low, high) && Plain(other) && other != code
    ensures IouDeltas.NodeDeltas(Some(w), code, issuer) == [] && NodeHolder(Iou(code, issuer), Some(w)) == None
    ensures forall e :: StateOf(e, Some(w), MatchesIou(code, issuer)) == []
  {
    hide ToWire, Readable;
    ReadableOfWire(other);
  }

  /** The sweep and the tail find the party that is not the issuer. */
  lemma LineHolder(w: Wrapper, n: Node, code: string, issuer: string, low: string, high: string)
    requires w.Chosen() == Some(n) && IsLine(n, code, low, high) && Plain(code) && low != high
    ensures NodeHolder(Iou(code, issuer), Some(w)) ==
            if issuer == high && low != "" then Some(low) else if issuer == low && high != "" then Some(high) else None
  {
    hide IouDeltas.HolderInfo, IouDeltas.LineFields, IsLine;
    LineIsRead(w, n, code, issuer, low, high);
    LineHasBalance(n, code, low, high);
  }

  /** Reconstruction shows the holder of the newest state with the balance as it sees it, unless the line is gone. */
  lemma LineShows(e: Entry, w: Wrapper, n: Node, code: string, issuer: string, low: string, high: string)
    requires w.Chosen() == Some(n) && IsLine(n, code, low, high) && Plain(code) && low != high && n.objectId.Or("") != ""
    ensures BalancesOf(Latest(StateOf(e, Some(w), MatchesIou(code, issuer))), code, issuer) ==
            if (issuer != low && issuer != high) || (w.created.None? && w.modified.None?) then map[]
            else if issuer == high then map[low := Balance(n)] else map[high := -Balance(n)]
  {
    hide IouDeltas.HolderInfo;
    LineIsRead(w, n, code, issuer, low, high);
    var states := StateOf(e, Some(w), MatchesIou(code, issuer));
    assert n.After().Or(NO_FIELDS) == n.After().value;
    if issuer == low || issuer == high {
      OneState(states);
    } else {
      NotAParty(n, code, issuer, low, high);
      assert Latest([]) == [];
    }
  }

  lemma NotAParty(n: Node, code: string, issuer: string, low: string, high: string)
    requires IsLine(n, code, low, high) && issuer != low && issuer != high
    ensures IouDeltas.HolderInfo(n.After().value, issuer, code) == None
  {
    hide ToWire, Readable;
  }

  lemma OneState(states: seq<ObjectState>)
    requires |states| == 1
    ensures Latest(states) == states
  {
    assert states[..0] == [] && Latest([]) == [];
  }

  // ---- Tokens ----

  predicate IsToken(n: Node, id: string, account: string) {
    && n.entryType == Some("MPToken") && n.After().Some?
    && n.After().value.mptIssuanceId == Some(id) && n.After().value.account == Some(account)
  }

  /** The integer an amount spells; absent, blank and what is no integer are 0. */
  function Spelled(amount: Option<AmountText>): int {
    match amount
    case Some(Numeral(n)) => n
    case _ => 0
  }

  function Previous(n: Node): Option<AmountText> {
    if n.previousFields.Some? then n.previousFields.value.mptAmount else None
  }

  /** The deltas of a token object: its new amount if it is created, the difference to the earlier amount - 0 where
      none is mentioned - if it is modified, and all it held if it is deleted. */
  lemma TokenDelta(w: Wrapper, n: Node, id: string, account: string)
    requires w.Chosen() == Some(n) && IsToken(n, id, account) && account != ""
    ensures var now := Spelled(n.After().value.mptAmount);
            MptDeltas.NodeDeltas(Some(w), id) ==
            Change(account, (if w.created.Some? then now
                             else if w.modified.Some? then now - Spelled(Previous(n)) else -now) as real)
  {
  }

  lemma OtherTokenIsIgnored(w: Wrapper, n: Node, id: string, other: string, account: string)
    requires w.Chosen() == Some(n) && IsToken(n, other, account) && other != id
    ensures MptDeltas.NodeDeltas(Some(w), id) == [] && NodeHolder(Mpt(id), Some(w)) == None
    ensures forall e :: StateOf(e, Some(w), MatchesMpt(id)) == []
  {
  }

  lemma TokenHolder(w: Wrapper, n: Node, id: string, account: string)
    requires w.Chosen() == Some(n) && IsToken(n, id, account)
    ensures NodeHolder(Mpt(id), Some(w)) == if account == "" then None else Some(account)
  {
  }

  /** The holder list shows the object's account with the amount as it stands, `0` where none is given. */
  lemma TokenShows(e: Entry, w: Wrapper, n: Node, id: string, account: string)
    requires w.Chosen() == Some(n) && IsToken(n, id, account) && account != "" && n.objectId.Or("") != ""
    ensures HoldersOf(Latest(StateOf(e, Some(w), MatchesMpt(id)))) ==
            if w.created.None? && w.modified.None? then []
            else [MptHolder(account, n.After().value.mptAmount.Or(Numeral(0)), n.objectId.value)]
  {
    var states := StateOf(e, Some(w), MatchesMpt(id));
    OneState(states);
    assert states[..0] == [];
  }

  // ---- Anything else ----

  predicate Foreign(w: Option<Wrapper>) {
    w.None? || w.value.Chosen().None? || w.value.Chosen().value.entryType.Or("") !in {"MPToken", "RippleState"}
  }

  /** Nodes of other kinds move nothing, show nothing and hold nothing. */
  lemma ForeignIsIgnored(w: Option<Wrapper>, e: Entry, id: string, code: string, issuer: string)
    requires Foreign(w)
    ensures MptDeltas.NodeDeltas(w, id) == [] && IouDeltas.NodeDeltas(w, code, issuer) == []
    ensures NodeHolder(Mpt(id), w) == None && NodeHolder(Iou(code, issuer), w) == None
    ensures StateOf(e, w, MatchesMpt(id)) == [] && StateOf(e, w, MatchesIou(code, issuer)) == []
  {
    hide IouDeltas.HolderInfo;
  }

  // ---- A known case ----

  /** `RLUSD` as a ledger spells it. */
  const RLUSD := "524C555344000000000000000000000000000000"

  lemma RlusdIsHex()
    ensures |RLUSD| == 40 && Hex.IsHex(RLUSD)
  {
  }

  lemma RlusdIsRead()
    ensures Readable(RLUSD) == "RLUSD"
  {
    hide UpToNul, Hex.BytesOf, Hex.IsHex;
    RlusdIsHex();
    var bytes := Hex.BytesOf(RLUSD);
    RlusdBytes();
    UpToNulUnique(bytes, "RLUSD");
  }

  lemma RlusdBytes()
    ensures |RLUSD| == 40 && Hex.IsHex(RLUSD)
    ensures var b := Hex.BytesOf(RLUSD); |b| == 20 && b[0] == 0x52 && b[1] == 0x4C && b[2] == 0x55 && b[3] == 0x53 && b[4] == 0x44 && b[5] == 0
  {
    hide Hex.BytesOf, Hex.IsHex;
    RlusdIsHex();
    Hex.ByteAt(RLUSD, 0);
    Hex.ByteAt(RLUSD, 1);
    Hex.ByteAt(RLUSD, 2);
    Hex.ByteAt(RLUSD, 3);
    Hex.ByteAt(RLUSD, 4);
    Hex.ByteAt(RLUSD, 5);
  }
}
