/** Which accounts of the tracked issuances a transaction touches (src/reconcile/incremental.ts:116-156),
    and the sweep's rows made from that (src/backfill/issuerSweep.ts:52-74). */
module Holders {
  import opened Options
  import opened Metadata
  import opened Tables
  import opened Derive
  import opened Touches
  import MptDeltas
  import IouDeltas

  /** The account a node shows holding the token: also a zero balance just opted into. */
  function NodeHolder(token: Token, w: Option<Wrapper>): Option<string> {
    match token
    case Mpt(id) =>
      var fields := MptDeltas.TokenFields(w, id);
      if fields.None? || fields.value.account.Or("") == "" then None else fields.value.account
    case Iou(currency, issuer) =>
      var fields := IouDeltas.LineFields(w, currency, issuer);
      if fields.None? then None
      else
        var holder := IouDeltas.HolderInfo(fields.value, issuer, currency).value.account;
        if holder == "" then None else Some(holder)
  }

  datatype Detected = Detected(id: int, holder: string)

  function NodeFinds(tracked: seq<Issuance>, w: Option<Wrapper>): set<Detected> {
    set i | i in tracked && NodeHolder(i.token, w).Some? :: Detected(i.id, NodeHolder(i.token, w).value)
  }

  function Finds(tracked: seq<Issuance>, nodes: seq<Option<Wrapper>>): set<Detected> {
    if nodes == [] then {} else Finds(tracked, nodes[..|nodes| - 1]) + NodeFinds(tracked, nodes[|nodes| - 1])
  }

  /** The node shows the holder holding the token of a tracked issuance of that id. */
  ghost predicate ShowsPair(tracked: seq<Issuance>, w: Option<Wrapper>, d: Detected) {
    exists i :: i in tracked && i.id == d.id && NodeHolder(i.token, w) == Some(d.holder)
  }

  /** A pair is found if and only if some node shows it. */
  lemma {:induction false} FindsAre(tracked: seq<Issuance>, nodes: seq<Option<Wrapper>>, d: Detected)
    ensures d in Finds(tracked, nodes) <==> exists w :: w in nodes && ShowsPair(tracked, w, d)
  {
    hide NodeHolder;
    if nodes != [] {
      var n := |nodes| - 1;
      assert nodes == nodes[..n] + [nodes[n]];
      FindsAre(tracked, nodes[..n], d);
      assert d in NodeFinds(tracked, nodes[n]) <==> ShowsPair(tracked, nodes[n], d);
    }
  }

  ghost predicate Once(out: seq<Detected>) {
    forall i, j :: 0 <= i < j < |out| ==> out[i] != out[j]
  }

  lemma NodeFindsOneMore(tracked: seq<Issuance>, i: nat, w: Option<Wrapper>)
    requires i < |tracked|
    ensures NodeFinds(tracked[..i + 1], w) == NodeFinds(tracked[..i], w) +
            if NodeHolder(tracked[i].token, w).Some? then {Detected(tracked[i].id, NodeHolder(tracked[i].token, w).value)} else {}
  {
    hide NodeHolder;
    assert tracked[..i + 1] == tracked[..i] + [tracked[i]];
  }

  /** The order in which they are found: a pair is listed where it first appears. */
  function AddFinds(found: seq<Detected>, tracked: seq<Issuance>, w: Option<Wrapper>): seq<Detected> {
    if tracked == [] then found
    else
      var issuance := tracked[|tracked| - 1];
      var sofar := AddFinds(found, tracked[..|tracked| - 1], w);
      var holder := NodeHolder(issuance.token, w);
      if holder.None? || Detected(issuance.id, holder.value) in sofar then sofar
      else sofar + [Detected(issuance.id, holder.value)]
  }

  function FindList(tracked: seq<Issuance>, nodes: seq<Option<Wrapper>>): seq<Detected> {
    if nodes == [] then [] else AddFinds(FindList(tracked, nodes[..|nodes| - 1]), tracked, nodes[|nodes| - 1])
  }

  lemma {:induction false} AddFindsAre(found: seq<Detected>, tracked: seq<Issuance>, w: Option<Wrapper>)
    requires Once(found)
    ensures Once(AddFinds(found, tracked, w))
    ensures forall d :: d in AddFinds(found, tracked, w) <==> d in found || d in NodeFinds(tracked, w)
  {
    hide NodeHolder;
    if tracked != [] {
      var n := |tracked| - 1;
      AddFindsAre(found, tracked[..n], w);
      assert tracked[..n + 1] == tracked;
      NodeFindsOneMore(tracked, n, w);
    }
  }

  /** Each holder of each tracked issuance that the metadata shows, once. */
  lemma {:induction false} FindListIs(tracked: seq<Issuance>, nodes: seq<Option<Wrapper>>)
    ensures Once(FindList(tracked, nodes))
    ensures forall d :: d in FindList(tracked, nodes) <==> d in Finds(tracked, nodes)
  {
    hide NodeFinds;
    if nodes != [] {
      FindListIs(tracked, nodes[..|nodes| - 1]);
      AddFindsAre(FindList(tracked, nodes[..|nodes| - 1]), tracked, nodes[|nodes| - 1]);
    }
  }

  function AsSet(ds: seq<Detected>): set<Detected> {
    set d | d in ds
  }

  method HoldersInMeta(meta: Meta, tracked: seq<Issuance>) returns (out: seq<Detected>)
    ensures out == FindList(tracked, meta.Nodes())
  {
    hide NodeHolder;
    out := [];
    if meta.affectedNodes.None? {
      return;
    }
    var affected := meta.affectedNodes.value;
    var seen: set<Detected> := {};
    for n := 0 to |affected|
      invariant out == FindList(tracked, affected[..n]) && seen == AsSet(out)
    {
      assert affected[..n + 1][..n] == affected[..n];
      ghost var found := out;
      for i := 0 to |tracked|
        invariant out == AddFinds(found, tracked[..i], affected[n]) && seen == AsSet(out)
      {
        assert tracked[..i + 1][..i] == tracked[..i];
        var holder := NodeHolder(tracked[i].token, affected[n]);
        if holder.Some? {
          var key := Detected(tracked[i].id, holder.value);
          if key !in seen {
            seen := seen + {key};
            out := out + [key];
          }
        }
      }
      assert tracked[..|tracked|] == tracked;
    }
    assert affected[..|affected|] == affected;
  }

  /** A line's other party is named. */
  ghost predicate NamedHolders(token: Token, nodes: seq<Option<Wrapper>>) {
    forall d :: d in DeltasIn(token, nodes) ==> d.account != ""
  }

  /** Every account whose balance moved is among the holders found: a transaction the sweep drops has no
      delta to lose. */
  lemma {:induction false} MovedAreHolders(tracked: seq<Issuance>, issuance: Issuance, nodes: seq<Option<Wrapper>>, d: AccountDelta)
    requires issuance in tracked && d in DeltasIn(issuance.token, nodes) && d.account != ""
    ensures Detected(issuance.id, d.account) in Finds(tracked, nodes)
  {
    var n := |nodes| - 1;
    if d in DeltasIn(issuance.token, nodes[..n]) {
      MovedAreHolders(tracked, issuance, nodes[..n], d);
    } else {
      MovedHere(issuance.token, nodes[n], d);
    }
  }

  lemma MovedHere(token: Token, w: Option<Wrapper>, d: AccountDelta)
    requires d in NodeMoves(token, w) && d.account != ""
    ensures NodeHolder(token, w) == Some(d.account)
  {
  }

  // ---- The rows a sweep keeps ----

  /** One entry of the issuer's `account_tx`, decoded. */
  datatype AccountTx = AccountTx(hash: string, row: TxRow)

  function Unique(xs: seq<string>): (r: seq<string>)
    ensures forall x :: x in r <==> x in xs
  {
    if xs == [] then []
    else
      var front := Unique(xs[..|xs| - 1]);
      assert xs == xs[..|xs| - 1] + [xs[|xs| - 1]];
      if xs[|xs| - 1] in front then front else front + [xs[|xs| - 1]]
  }

  function HolderNames(ds: seq<Detected>): (r: seq<string>)
    ensures |r| == |ds| && forall k :: 0 <= k < |ds| ==> r[k] == ds[k].holder
  {
    seq(|ds|, k requires 0 <= k < |ds| => ds[k].holder)
  }

  /** The accounts the metadata shows holding a tracked issuance. */
  function HolderSet(tracked: seq<Issuance>, meta: Meta): set<string> {
    set d | d in Finds(tracked, meta.Nodes()) :: d.holder
  }

  /** The row a sweep makes of an entry: none when no holder shows. */
  function Mapped(tracked: seq<Issuance>, issuer: string, entry: AccountTx): Option<IngestTx> {
    var holders := FindList(tracked, entry.row.meta.Nodes());
    if holders == [] then None
    else Some(IngestTx(entry.hash, entry.row, Unique([issuer] + HolderNames(holders))))
  }

  ghost predicate IsMapped(tracked: seq<Issuance>, issuer: string, entry: AccountTx, tx: IngestTx) {
    && tx.hash == entry.hash && tx.row == entry.row
    && forall a :: a in tx.accounts <==> a == issuer || a in HolderSet(tracked, entry.row.meta)
  }

  /** An entry is kept exactly when it shows a holder, and linked to the issuer and every such holder. */
  lemma MappedLinks(tracked: seq<Issuance>, issuer: string, entry: AccountTx)
    ensures Mapped(tracked, issuer, entry).Some? <==> HolderSet(tracked, entry.row.meta) != {}
    ensures Mapped(tracked, issuer, entry).Some? ==> IsMapped(tracked, issuer, entry, Mapped(tracked, issuer, entry).value)
  {
    hide Finds, Unique;
    var nodes := entry.row.meta.Nodes();
    var holders := FindList(tracked, nodes);
    FindListIs(tracked, nodes);
    if holders == [] {
      forall h ensures h !in HolderSet(tracked, entry.row.meta) {
        assert forall d :: d in Finds(tracked, nodes) ==> d in holders;
      }
    } else {
      assert holders[0] in holders;
      assert holders[0].holder in HolderSet(tracked, entry.row.meta);
      forall a ensures a in Unique([issuer] + HolderNames(holders)) <==> a == issuer || a in HolderSet(tracked, entry.row.meta) {
        if a in HolderSet(tracked, entry.row.meta) {
          var d :| d in holders && d.holder == a;
          var k :| 0 <= k < |holders| && holders[k] == d;
          assert HolderNames(holders)[k] == a;
        }
      }
    }
  }

  method MapEntry(tracked: seq<Issuance>, issuer: string, entry: AccountTx) returns (mapped: Option<IngestTx>)
    ensures mapped == Mapped(tracked, issuer, entry)
  {
    var holders := HoldersInMeta(entry.row.meta, tracked);
    if |holders| == 0 {
      return None;
    }
    mapped := Some(IngestTx(entry.hash, entry.row, Unique([issuer] + HolderNames(holders))));
  }

  lemma MovedShow(tracked: seq<Issuance>, issuance: Issuance, meta: Meta, d: AccountDelta)
    requires issuance in tracked && d in TokenDeltas(issuance.token, meta) && d.account != ""
    ensures d.account in HolderSet(tracked, meta)
  {
    hide Finds;
    MovedAreHolders(tracked, issuance, meta.Nodes(), d);
  }

  /** A dropped entry moves no balance of any tracked issuance. */
  lemma DroppedMovesNothing(tracked: seq<Issuance>, issuance: Issuance, issuer: string, entry: AccountTx)
    requires issuance in tracked && Mapped(tracked, issuer, entry).None? && NamedHolders(issuance.token, entry.row.meta.Nodes())
    ensures TokenDeltas(issuance.token, entry.row.meta) == []
  {
    hide Finds;
    MappedLinks(tracked, issuer, entry);
    var deltas := TokenDeltas(issuance.token, entry.row.meta);
    if deltas != [] {
      assert deltas[0] in deltas;
      MovedShow(tracked, issuance, entry.row.meta, deltas[0]);
    }
  }

  /** The rows kept of a page. */
  function KeptOf(tracked: seq<Issuance>, issuer: string, entries: seq<AccountTx>): seq<IngestTx> {
    if entries == [] then []
    else
      var mapped := Mapped(tracked, issuer, entries[|entries| - 1]);
      KeptOf(tracked, issuer, entries[..|entries| - 1]) + if mapped.Some? then [mapped.value] else []
  }

  lemma {:induction false} KeptIsMapped(tracked: seq<Issuance>, issuer: string, entries: seq<AccountTx>, tx: IngestTx)
    ensures tx in KeptOf(tracked, issuer, entries) <==> exists entry :: entry in entries && Mapped(tracked, issuer, entry) == Some(tx)
  {
    hide Mapped;
    if entries != [] {
      var n := |entries| - 1;
      assert entries == entries[..n] + [entries[n]];
      KeptIsMapped(tracked, issuer, entries[..n], tx);
    }
  }

  /** An account a kept row moves is linked to it. */
  lemma MovedIsLinked(tracked: seq<Issuance>, issuance: Issuance, issuer: string, entries: seq<AccountTx>, tx: IngestTx, d: AccountDelta)
    requires issuance in tracked && tx in KeptOf(tracked, issuer, entries)
    requires d in TokenDeltas(issuance.token, tx.row.meta) && d.account != ""
    ensures d.account in tx.accounts
  {
    hide KeptOf, Finds, Mapped;
    KeptIsMapped(tracked, issuer, entries, tx);
    var entry :| entry in entries && Mapped(tracked, issuer, entry) == Some(tx);
    MappedLinks(tracked, issuer, entry);
    MovedShow(tracked, issuance, tx.row.meta, d);
  }
}
