/** Discovery by walking the transfer graph from the issuer (src/discovery/strategies/traversal.ts). */
module Traversal {
  import opened Options
  import opened Ordering
  import opened Metadata
  import opened Tables
  import MptDeltas

  /** The fields of a transaction that are looked at; an amount field is the issuance it names, if any. */
  datatype TxJson = TxJson(issuanceId: Option<string>, amounts: seq<Option<string>>,
                           account: Option<string>, destination: Option<string>, holder: Option<string>)

  datatype Entry = Entry(ledger: Option<int>, tx: Option<TxJson>, nodes: seq<Option<Wrapper>>)

  function NodeOwner(w: Option<Wrapper>, id: string): Option<string> {
    var fields := MptDeltas.TokenFields(w, id);
    if fields.None? || fields.value.account.Or("") == "" then None else fields.value.account
  }

  /** Owners of the issuance's objects in the metadata. */
  function Owners(nodes: seq<Option<Wrapper>>, id: string): seq<string> {
    if nodes == [] then []
    else
      var owner := NodeOwner(nodes[|nodes| - 1], id);
      Owners(nodes[..|nodes| - 1], id) + if owner.Some? then [owner.value] else []
  }

  /** Whether a transaction concerns the issuance. */
  predicate Related(e: Entry, id: string) {
    || (e.tx.Some? && (e.tx.value.issuanceId == Some(id) || Some(id) in e.tx.value.amounts))
    || Owners(e.nodes, id) != []
  }

  function Named(field: Option<string>): seq<string> {
    if field.Or("") == "" then [] else [field.value]
  }

  /** The accounts a related transaction connects to. */
  function Parties(e: Entry, id: string): seq<string> {
    (if e.tx.Some? then Named(e.tx.value.account) + Named(e.tx.value.destination) + Named(e.tx.value.holder) else [])
    + Owners(e.nodes, id)
  }

  /** The account histories as the upstream gives them, page after page. */
  type History = string -> seq<Entry>

  /** What the walk has: the earliest known ledger of each account, and the accounts queued, also in order. */
  datatype Walk = Walk(first: map<string, Option<int>>, queued: set<string>, frontier: seq<string>)

  function Earliest(first: map<string, Option<int>>, address: string, ledger: Option<int>): map<string, Option<int>> {
    first[address := Least(Lookup(first, address), ledger)]
  }

  function Meet(w: Walk, seen: set<string>, party: string, ledger: Option<int>): Walk {
    var first := Earliest(w.first, party, ledger);
    if party in seen || party in w.queued then w.(first := first)
    else Walk(first, w.queued + {party}, w.frontier + [party])
  }

  function MeetAll(w: Walk, seen: set<string>, parties: seq<string>, ledger: Option<int>): Walk {
    if parties == [] then w
    else Meet(MeetAll(w, seen, parties[..|parties| - 1], ledger), seen, parties[|parties| - 1], ledger)
  }

  function Read(w: Walk, seen: set<string>, e: Entry, id: string): Walk {
    if Related(e, id) then MeetAll(w, seen, Parties(e, id), e.ledger) else w
  }

  function ReadAll(w: Walk, seen: set<string>, entries: seq<Entry>, id: string): Walk {
    if entries == [] then w
    else Read(ReadAll(w, seen, entries[..|entries| - 1], id), seen, entries[|entries| - 1], id)
  }

  // ---- Which transactions concern the issuance, and whom they connect ----

  /** The node is an object of the issuance and names its owner. */
  ghost predicate Owns(w: Option<Wrapper>, id: string, a: string) {
    && a != "" && w.Some? && w.value.Chosen().Some?
    && var node := w.value.Chosen().value;
       node.entryType == Some("MPToken") && node.After().Some?
       && node.After().value.mptIssuanceId == Some(id) && node.After().value.account == Some(a)
  }

  lemma {:induction false} OwnersAre(nodes: seq<Option<Wrapper>>, id: string, a: string)
    ensures a in Owners(nodes, id) <==> exists w :: w in nodes && Owns(w, id, a)
  {
    if nodes != [] {
      var n := |nodes| - 1;
      assert nodes == nodes[..n] + [nodes[n]];
      OwnersAre(nodes[..n], id, a);
      assert NodeOwner(nodes[n], id) == Some(a) <==> Owns(nodes[n], id, a);
    }
  }

  /** A transaction concerns the issuance if and only if it names it, an amount of it is in it, or its metadata has
      an object of it with an owner. */
  lemma RelatedExactlyWhen(e: Entry, id: string)
    ensures Related(e, id) <==>
            || (e.tx.Some? && e.tx.value.issuanceId == Some(id))
            || (e.tx.Some? && exists k :: 0 <= k < |e.tx.value.amounts| && e.tx.value.amounts[k] == Some(id))
            || exists w, a :: w in e.nodes && Owns(w, id, a)
  {
    hide Owns, Owners;
    if Owners(e.nodes, id) != [] {
      var a := Owners(e.nodes, id)[0];
      assert a in Owners(e.nodes, id);
      OwnersAre(e.nodes, id, a);
    }
    if w, a :| w in e.nodes && Owns(w, id, a) {
      OwnersAre(e.nodes, id, a);
    }
  }

  /** It connects its sender, its destination, its holder and the owners of those objects - and nobody else. */
  lemma PartiesAre(e: Entry, id: string, a: string)
    ensures a in Parties(e, id) <==>
            || (a != "" && e.tx.Some? && Some(a) in {e.tx.value.account, e.tx.value.destination, e.tx.value.holder})
            || exists w :: w in e.nodes && Owns(w, id, a)
  {
    hide Owns, Owners;
    OwnersAre(e.nodes, id, a);
  }

  // ---- Reading one account's history ----

  ghost predicate Meets(entries: seq<Entry>, id: string, a: string) {
    exists e :: e in entries && Related(e, id) && a in Parties(e, id)
  }

  /** Walks grow by the parties met; what is new is at the end of the queue. */
  ghost predicate Grown(w: Walk, after: Walk, met: set<string>) {
    && after.first.Keys == w.first.Keys + met
    && after.queued == w.queued + met
    && w.frontier <= after.frontier
    && (forall a :: a in after.frontier ==> a in w.frontier || a in met)
    && (forall a :: a in met ==> a in w.queued || a in after.frontier)
  }

  lemma GrownTwice(w: Walk, mid: Walk, after: Walk, met: set<string>, more: set<string>)
    requires Grown(w, mid, met) && Grown(mid, after, more)
    ensures Grown(w, after, met + more)
  {
    assert forall a :: a in w.frontier ==> a in mid.frontier;
    assert forall a :: a in mid.frontier ==> a in after.frontier by {
      forall a | a in mid.frontier ensures a in after.frontier {
        var k :| 0 <= k < |mid.frontier| && mid.frontier[k] == a;
        assert after.frontier[k] == a;
      }
    }
  }

  lemma MeetGrows(w: Walk, seen: set<string>, party: string, ledger: Option<int>)
    requires seen <= w.queued
    ensures Grown(w, Meet(w, seen, party, ledger), {party})
  {
  }

  lemma {:induction false} MeetAllGrows(w: Walk, seen: set<string>, parties: seq<string>, ledger: Option<int>)
    requires seen <= w.queued
    ensures Grown(w, MeetAll(w, seen, parties, ledger), Elements(parties))
  {
    hide Meet, Earliest;
    if parties == [] {
      assert Elements(parties) == {};
    } else {
      var front, last := parties[..|parties| - 1], parties[|parties| - 1];
      assert parties == front + [last];
      MeetAllGrows(w, seen, front, ledger);
      MeetGrows(MeetAll(w, seen, front, ledger), seen, last, ledger);
      GrownTwice(w, MeetAll(w, seen, front, ledger), MeetAll(w, seen, parties, ledger), Elements(front), {last});
      assert Elements(parties) == Elements(front) + {last};
    }
  }

  /** Everybody met in some entries. */
  function Met(entries: seq<Entry>, id: string): (r: set<string>) {
    if entries == [] then {}
    else
      var e := entries[|entries| - 1];
      Met(entries[..|entries| - 1], id) + if Related(e, id) then Elements(Parties(e, id)) else {}
  }

  lemma {:induction false} MetAre(entries: seq<Entry>, id: string, a: string)
    ensures a in Met(entries, id) <==> Meets(entries, id, a)
  {
    hide Related, Parties;
    if entries != [] {
      var front, last := entries[..|entries| - 1], entries[|entries| - 1];
      assert entries == front + [last];
      MetAre(front, id, a);
      if Meets(front, id, a) {
        var e :| e in front && Related(e, id) && a in Parties(e, id);
        assert e in entries;
      }
    }
  }

  lemma {:induction false} ReadAllGrows(w: Walk, seen: set<string>, entries: seq<Entry>, id: string)
    requires seen <= w.queued
    ensures Grown(w, ReadAll(w, seen, entries, id), Met(entries, id))
  {
    hide MeetAll, Related, Parties;
    if entries != [] {
      var front, last := entries[..|entries| - 1], entries[|entries| - 1];
      ReadAllGrows(w, seen, front, id);
      var mid := ReadAll(w, seen, front, id);
      if Related(last, id) {
        MeetAllGrows(mid, seen, Parties(last, id), last.ledger);
        GrownTwice(w, mid, ReadAll(w, seen, entries, id), Met(front, id), Elements(Parties(last, id)));
      }
    }
  }

  // ---- The earliest ledger ----

  predicate AtMost(known: Option<int>, ledger: Option<int>) {
    ledger.Some? ==> known.Some? && known.value <= ledger.value
  }

  /** The known ledgers only go down, and stay below every ledger the party was met at. */
  ghost predicate Lowered(first: map<string, Option<int>>, after: map<string, Option<int>>) {
    forall a :: a in first ==> a in after && AtMost(after[a], first[a])
  }

  lemma {:induction false} MeetAllLowers(w: Walk, seen: set<string>, parties: seq<string>, ledger: Option<int>)
    ensures var after := MeetAll(w, seen, parties, ledger).first;
            && Lowered(w.first, after)
            && (forall a :: a in parties ==> a in after && AtMost(after[a], ledger))
            && (forall a :: a in after ==> after[a] == Lookup(w.first, a) || (after[a] == ledger && a in parties))
  {
    if parties != [] {
      var front, last := parties[..|parties| - 1], parties[|parties| - 1];
      assert parties == front + [last];
      MeetAllLowers(w, seen, front, ledger);
    }
  }

  /** The party was met at that very ledger. */
  ghost predicate MetAt(entries: seq<Entry>, id: string, a: string, ledger: Option<int>) {
    exists e :: e in entries && Related(e, id) && a in Parties(e, id) && e.ledger == ledger
  }

  lemma {:induction false} ReadAllLowers(w: Walk, seen: set<string>, entries: seq<Entry>, id: string)
    ensures var after := ReadAll(w, seen, entries, id).first;
            && Lowered(w.first, after)
            && (forall a, ledger :: MetAt(entries, id, a, ledger) ==> a in after && AtMost(after[a], ledger))
            && (forall a :: a in after ==> after[a] == Lookup(w.first, a) || MetAt(entries, id, a, after[a]))
  {
    hide MeetAll, Related, Parties;
    if entries != [] {
      var front, last := entries[..|entries| - 1], entries[|entries| - 1];
      assert entries == front + [last];
      ReadAllLowers(w, seen, front, id);
      var mid, after := ReadAll(w, seen, front, id), ReadAll(w, seen, entries, id);
      MeetAllLowers(mid, seen, Parties(last, id), last.ledger);
      forall a, ledger | MetAt(entries, id, a, ledger) ensures a in after.first && AtMost(after.first[a], ledger) {
        var e :| e in entries && Related(e, id) && a in Parties(e, id) && e.ledger == ledger;
        if e in front {
          assert MetAt(front, id, a, ledger);
        }
      }
      forall a | a in after.first ensures after.first[a] == Lookup(w.first, a) || MetAt(entries, id, a, after.first[a]) {
        if a in mid.first && after.first[a] == mid.first[a] && MetAt(front, id, a, mid.first[a]) {
          MetMore(front, last, id, a, mid.first[a]);
        } else if Related(last, id) && a in Parties(last, id) && after.first[a] == last.ledger {
          assert last in entries;
        }
      }
    }
  }

  lemma MetMore(front: seq<Entry>, last: Entry, id: string, a: string, ledger: Option<int>)
    requires MetAt(front, id, a, ledger)
    ensures MetAt(front + [last], id, a, ledger)
  {
    var e :| e in front && Related(e, id) && a in Parties(e, id) && e.ledger == ledger;
    assert e in front + [last];
  }

  // ---- The graph ----

  ghost predicate Edge(h: History, id: string, a: string, b: string) {
    Meets(h(a), id, b)
  }

  /** Reached from the issuer by a path of n edges. */
  ghost predicate ReachedIn(h: History, id: string, issuer: string, a: string, n: nat)
    decreases n
  {
    if n == 0 then a == issuer else exists b :: ReachedIn(h, id, issuer, b, n - 1) && Edge(h, id, b, a)
  }

  ghost predicate Reachable(h: History, id: string, issuer: string, a: string) {
    exists n: nat :: ReachedIn(h, id, issuer, a, n)
  }

  lemma IssuerReachable(h: History, id: string, issuer: string)
    ensures Reachable(h, id, issuer, issuer)
  {
    assert ReachedIn(h, id, issuer, issuer, 0);
  }

  lemma EdgeReaches(h: History, id: string, issuer: string, a: string, b: string)
    requires Reachable(h, id, issuer, a) && Edge(h, id, a, b)
    ensures Reachable(h, id, issuer, b)
  {
    var n: nat :| ReachedIn(h, id, issuer, a, n);
    assert ReachedIn(h, id, issuer, b, n + 1);
  }

  ghost predicate Closed(h: History, id: string, accounts: set<string>) {
    forall a, b :: a in accounts && Edge(h, id, a, b) ==> b in accounts
  }

  lemma {:induction false} ClosedHasReached(h: History, id: string, issuer: string, accounts: set<string>, a: string, n: nat)
    requires issuer in accounts && Closed(h, id, accounts) && ReachedIn(h, id, issuer, a, n)
    ensures a in accounts
    decreases n
  {
    hide Edge;
    if n > 0 {
      var b :| ReachedIn(h, id, issuer, b, n - 1) && Edge(h, id, b, a);
      ClosedHasReached(h, id, issuer, accounts, b, n - 1);
    }
  }

  lemma ClosedHasReachable(h: History, id: string, issuer: string, accounts: set<string>)
    requires issuer in accounts && Closed(h, id, accounts)
    ensures forall a :: Reachable(h, id, issuer, a) ==> a in accounts
  {
    hide Closed, ReachedIn;
    forall a | Reachable(h, id, issuer, a) ensures a in accounts {
      var n: nat :| ReachedIn(h, id, issuer, a, n);
      ClosedHasReached(h, id, issuer, accounts, a, n);
    }
  }

  // ---- The walk ----

  method ReadHistory(w: Walk, seen: set<string>, entries: seq<Entry>, id: string) returns (after: Walk)
    ensures after == ReadAll(w, seen, entries, id)
  {
    hide Related, Parties, Earliest;
    after := w;
    for n := 0 to |entries|
      invariant after == ReadAll(w, seen, entries[..n], id)
    {
      assert entries[..n + 1][..n] == entries[..n];
      var entry := entries[n];
      if !Related(entry, id) {
        continue;
      }
      ghost var before := after;
      var parties := Parties(entry, id);
      for k := 0 to |parties|
        invariant after == MeetAll(before, seen, parties[..k], entry.ledger)
      {
        assert parties[..k + 1][..k] == parties[..k];
        var party := parties[k];
        after := after.(first := Earliest(after.first, party, entry.ledger));
        if party !in seen && party !in after.queued {
          after := after.(queued := after.queued + {party}, frontier := after.frontier + [party]);
        }
      }
      assert parties[..|parties|] == parties;
    }
    assert entries[..|entries|] == entries;
  }

  /** Where the walk stands: what is queued is reachable, what was paged has all its edges queued, and
      whatever is queued was paged or waits. */
  ghost predicate Inv(h: History, id: string, issuer: string, universe: set<string>, w: Walk, seen: set<string>) {
    && issuer in w.queued && w.first.Keys == w.queued
    && seen <= w.queued <= universe
    && (forall a :: a in w.frontier ==> a in w.queued)
    && (forall a :: a in w.queued ==> Reachable(h, id, issuer, a))
    && (forall a :: a in w.queued ==> a in seen || a in w.frontier)
    && (forall a, b :: a in seen && Edge(h, id, a, b) ==> b in w.queued)
  }

  /** Some paged history shows the account at that ledger. */
  ghost predicate ShownAt(h: History, id: string, seen: set<string>, a: string, ledger: Option<int>) {
    exists v :: v in seen && MetAt(h(v), id, a, ledger)
  }

  /** The ledger kept of an account is the lowest known one at which a paged history shows it. */
  ghost predicate LedgersKept(h: History, id: string, first: map<string, Option<int>>, seen: set<string>) {
    && (forall a, ledger :: ShownAt(h, id, seen, a, ledger) ==> a in first && AtMost(first[a], ledger))
    && (forall a :: a in first ==> first[a].None? || ShownAt(h, id, seen, a, first[a]))
  }

  lemma ShownOneMore(h: History, id: string, seen: set<string>, account: string, a: string, ledger: Option<int>)
    ensures ShownAt(h, id, seen + {account}, a, ledger) <==> ShownAt(h, id, seen, a, ledger) || MetAt(h(account), id, a, ledger)
  {
    hide MetAt;
    if ShownAt(h, id, seen, a, ledger) {
      var v :| v in seen && MetAt(h(v), id, a, ledger);
      assert v in seen + {account};
    }
    if MetAt(h(account), id, a, ledger) {
      assert account in seen + {account};
    }
  }

  lemma PagedKeepsInv(h: History, id: string, issuer: string, universe: set<string>, w: Walk, seen: set<string>, account: string)
    requires Inv(h, id, issuer, universe, w, seen) && Closed(h, id, universe)
    requires w.frontier != [] && account == w.frontier[0]
    ensures var now := seen + {account}; var rest := w.(frontier := w.frontier[1..]);
            Inv(h, id, issuer, universe, ReadAll(rest, now, h(account), id), now)
  {
    hide ReadAll, Reachable, Met, Meets;
    var now, rest := seen + {account}, w.(frontier := w.frontier[1..]);
    var after := ReadAll(rest, now, h(account), id);
    var met := Met(h(account), id);
    ReadAllGrows(rest, now, h(account), id);
    forall b ensures b in met <==> Edge(h, id, account, b) {
      MetAre(h(account), id, b);
    }
    forall b | b in met ensures Reachable(h, id, issuer, b) && b in universe {
      EdgeReaches(h, id, issuer, account, b);
    }
    forall a | a in rest.frontier ensures a in after.frontier {
      var k :| 0 <= k < |rest.frontier| && rest.frontier[k] == a;
      assert after.frontier[k] == a;
    }
    forall a | a in w.frontier && a != account ensures a in rest.frontier {
      var k :| 0 <= k < |w.frontier| && w.frontier[k] == a;
      assert rest.frontier[k - 1] == a;
    }
    forall a | a in rest.frontier ensures a in w.frontier {
    }
  }

  lemma PagedKeepsLedgers(h: History, id: string, w: Walk, seen: set<string>, account: string)
    requires LedgersKept(h, id, w.first, seen)
    ensures LedgersKept(h, id, ReadAll(w, seen + {account}, h(account), id).first, seen + {account})
  {
    hide ReadAll, MetAt, ShownAt;
    var after := ReadAll(w, seen + {account}, h(account), id);
    ReadAllLowers(w, seen + {account}, h(account), id);
    forall a, ledger | ShownAt(h, id, seen + {account}, a, ledger) ensures a in after.first && AtMost(after.first[a], ledger) {
      ShownOneMore(h, id, seen, account, a, ledger);
    }
    forall a | a in after.first ensures after.first[a].None? || ShownAt(h, id, seen + {account}, a, after.first[a]) {
      ShownOneMore(h, id, seen, account, a, after.first[a]);
    }
  }

  ghost predicate Once(xs: seq<string>) {
    forall i, j :: 0 <= i < j < |xs| ==> xs[i] != xs[j]
  }

  /** Walk the graph to closure. `paged` lists the accounts whose history was read, in order; the
      universe is any finite set of accounts closed under the histories, such as all accounts there are. */
  method Traverse(h: History, id: string, issuer: string, ghost universe: set<string>)
    returns (first: map<string, Option<int>>, paged: seq<string>)
    requires issuer in universe && Closed(h, id, universe)
    ensures forall a :: a in first <==> Reachable(h, id, issuer, a)
    ensures Once(paged) && forall a :: a in paged <==> Reachable(h, id, issuer, a)
    ensures LedgersKept(h, id, first, Elements(paged))
  {
    hide ReadAll, Reachable, Edge, Closed, MetAt, ShownAt;
    var w := Walk(map[issuer := None], {issuer}, [issuer]);
    var seen: set<string> := {};
    paged := [];
    IssuerReachable(h, id, issuer);
    NothingPaged(h, id, w.first);
    while |w.frontier| > 0
      invariant Inv(h, id, issuer, universe, w, seen) && LedgersKept(h, id, w.first, seen)
      invariant Once(paged) && seen == Elements(paged)
      decreases universe - seen, |w.frontier|
    {
      var account := w.frontier[0];
      if account in seen {
        Skipped(h, id, issuer, universe, w, seen);
        w := w.(frontier := w.frontier[1..]);
        continue;
      }
      PagedKeepsInv(h, id, issuer, universe, w, seen, account);
      PagedKeepsLedgers(h, id, w.(frontier := w.frontier[1..]), seen, account);
      assert account in w.frontier;
      assert account in universe - seen;
      w := w.(frontier := w.frontier[1..]);
      seen := seen + {account};
      paged := paged + [account];
      w := ReadHistory(w, seen, h(account), id);
    }
    assert Closed(h, id, seen) by {
      SeenClosed(h, id, issuer, universe, w, seen);
    }
    ClosedHasReachable(h, id, issuer, seen);
    first := w.first;
  }

  lemma NothingPaged(h: History, id: string, first: map<string, Option<int>>)
    requires forall a :: a in first ==> first[a].None?
    ensures LedgersKept(h, id, first, {})
  {
    hide MetAt;
  }

  lemma SeenClosed(h: History, id: string, issuer: string, universe: set<string>, w: Walk, seen: set<string>)
    requires Inv(h, id, issuer, universe, w, seen) && w.frontier == []
    ensures Closed(h, id, seen) && seen == w.queued
  {
    hide Edge, Reachable;
  }

  lemma Skipped(h: History, id: string, issuer: string, universe: set<string>, w: Walk, seen: set<string>)
    requires Inv(h, id, issuer, universe, w, seen) && w.frontier != [] && w.frontier[0] in seen
    ensures Inv(h, id, issuer, universe, w.(frontier := w.frontier[1..]), seen)
  {
    hide Edge, Reachable;
    var rest := w.frontier[1..];
    forall a | a in w.frontier && a !in seen ensures a in rest {
      var k :| 0 <= k < |w.frontier| && w.frontier[k] == a;
      assert rest[k - 1] == a;
    }
  }

  /** The result as callers see it: by address. */
  method Discover(h: History, id: string, issuer: string, ghost universe: set<string>) returns (accounts: seq<(string, Option<int>)>)
    requires issuer in universe && Closed(h, id, universe)
    ensures forall a :: (exists k :: 0 <= k < |accounts| && accounts[k].0 == a) <==> Reachable(h, id, issuer, a)
    ensures forall j, k :: 0 <= j < k < |accounts| ==> Lt(accounts[j].0, accounts[k].0)
  {
    hide Reachable, Closed, LedgersKept;
    var first, paged := Traverse(h, id, issuer, universe);
    var names := SortedNames(first.Keys);
    forall j, k | 0 <= j < k < |names| ensures Lt(names[j], names[k]) {
      SortedNamesAscend(first.Keys, j, k);
    }
    assert forall x :: x in names <==> x in first.Keys;
    accounts := Listed(first, names);
    forall a ensures (exists k :: 0 <= k < |accounts| && accounts[k].0 == a) <==> Reachable(h, id, issuer, a) {
      if a in names {
        var k :| 0 <= k < |names| && names[k] == a;
        assert accounts[k].0 == a;
      }
      if k :| 0 <= k < |accounts| && accounts[k].0 == a {
        assert names[k] in names;
      }
    }
  }

  function Listed(first: map<string, Option<int>>, names: seq<string>): (r: seq<(string, Option<int>)>)
    requires forall a :: a in names ==> a in first
    ensures |r| == |names| && forall k :: 0 <= k < |r| ==> r[k] == (names[k], first[names[k]])
  {
    seq(|names|, k requires 0 <= k < |names| => assert names[k] in names; (names[k], first[names[k]]))
  }

  // ---- Every holder is found ----

  /** One movement of the token: the sender's history lists it, and its metadata shows the receiver. */
  datatype Transfer = Transfer(sender: string, receiver: string, entry: Entry)

  /** Whoever sends has the token: it is the issuer, or received it before. */
  ghost predicate TokenHistory(h: History, id: string, issuer: string, transfers: seq<Transfer>) {
    forall k :: 0 <= k < |transfers| ==>
      && transfers[k].entry in h(transfers[k].sender)
      && transfers[k].receiver in Owners(transfers[k].entry.nodes, id)
      && (transfers[k].sender == issuer || Received(transfers, k, transfers[k].sender))
  }

  predicate Received(transfers: seq<Transfer>, before: nat, a: string) {
    exists j :: 0 <= j < before && j < |transfers| && transfers[j].receiver == a
  }

  /** An account that ever held the token is reachable, so the walk finds it. */
  lemma {:induction false} HoldersAreReachable(h: History, id: string, issuer: string, transfers: seq<Transfer>, k: nat)
    requires TokenHistory(h, id, issuer, transfers) && k < |transfers|
    ensures Reachable(h, id, issuer, transfers[k].receiver)
  {
    hide Reachable, Owners;
    var t := transfers[k];
    if t.sender == issuer {
      IssuerReachable(h, id, issuer);
    } else {
      var j :| 0 <= j < k && j < |transfers| && transfers[j].receiver == t.sender;
      HoldersAreReachable(h, id, issuer, transfers, j);
    }
    assert Meets(h(t.sender), id, t.receiver) by {
      assert Related(t.entry, id) && t.receiver in Parties(t.entry, id);
    }
    EdgeReaches(h, id, issuer, t.sender, t.receiver);
  }
}
