/** Object state rebuilt from metadata: the newest node of each object (src/api/state/reconstruct.ts). */
module Reconstruct {
  import opened Options
  import opened Ordering
  import opened Metadata
  import IouDeltas

  /** One archived transaction's metadata and where it happened. */
  datatype Entry = Entry(ledger: int, index: int, meta: Meta)

  datatype ObjectState = ObjectState(
    objectId: string, entryType: string, fields: Fields, deleted: bool, ledger: int, index: int)

  /** Did `s` happen after `o`? */
  predicate Newer(s: ObjectState, o: ObjectState) {
    s.ledger > o.ledger || (s.ledger == o.ledger && s.index > o.index)
  }

  type Matcher = (string, Fields) -> bool

  /** The states one `AffectedNodes` entry contributes: one or none. */
  function StateOf(e: Entry, w: Option<Wrapper>, matches: Matcher): seq<ObjectState> {
    if w.None? || w.value.Chosen().None? then []
    else
      var node := w.value.Chosen().value;
      var deleted := w.value.created.None? && w.value.modified.None?;
      var fields := node.After().Or(NO_FIELDS);
      if node.entryType.Or("") == "" || node.objectId.Or("") == "" || !matches(node.entryType.value, fields) then []
      else [ObjectState(node.objectId.value, node.entryType.value, fields, deleted, e.ledger, e.index)]
  }

  function StatesIn(e: Entry, nodes: seq<Option<Wrapper>>, matches: Matcher): seq<ObjectState> {
    if nodes == [] then []
    else StatesIn(e, nodes[..|nodes| - 1], matches) + StateOf(e, nodes[|nodes| - 1], matches)
  }

  /** Every matching state the entries mention, in the order they are read. */
  function StatesOf(entries: seq<Entry>, matches: Matcher): seq<ObjectState> {
    if entries == [] then []
    else
      var e := entries[|entries| - 1];
      StatesOf(entries[..|entries| - 1], matches) + StatesIn(e, e.meta.Nodes(), matches)
  }

  function Find(objects: seq<ObjectState>, id: string): (k: nat)
    ensures k <= |objects|
    ensures k < |objects| ==> objects[k].objectId == id
    ensures forall i :: 0 <= i < k ==> objects[i].objectId != id
  {
    if objects == [] then 0
    else if objects[0].objectId == id then 0
    else 1 + Find(objects[1..], id)
  }

  /** `byId.set` when the state is newer than the one kept. */
  function Keep(objects: seq<ObjectState>, s: ObjectState): seq<ObjectState> {
    var k := Find(objects, s.objectId);
    if k == |objects| then objects + [s]
    else if Newer(s, objects[k]) then objects[k := s]
    else objects
  }

  function Latest(states: seq<ObjectState>): seq<ObjectState> {
    if states == [] then [] else Keep(Latest(states[..|states| - 1]), states[|states| - 1])
  }

  lemma {:induction false} LatestAppend(a: seq<ObjectState>, s: ObjectState)
    ensures Latest(a + [s]) == Keep(Latest(a), s)
  {
    assert (a + [s])[..|a + [s]| - 1] == a;
  }

  lemma OneMoreNode(before: seq<ObjectState>, e: Entry, nodes: seq<Option<Wrapper>>, j: int, matches: Matcher)
    requires 0 <= j < |nodes|
    ensures var found := StateOf(e, nodes[j], matches);
            var sofar := before + StatesIn(e, nodes[..j], matches);
            Latest(before + StatesIn(e, nodes[..j + 1], matches)) ==
              if |found| == 0 then Latest(sofar) else Keep(Latest(sofar), found[0])
  {
    hide Keep;
    assert nodes[..j + 1][..j] == nodes[..j];
    var found, sofar := StateOf(e, nodes[j], matches), before + StatesIn(e, nodes[..j], matches);
    assert before + StatesIn(e, nodes[..j + 1], matches) == sofar + found;
    if |found| == 0 {
      assert sofar + found == sofar;
    } else {
      assert sofar + found == sofar + [found[0]];
      LatestAppend(sofar, found[0]);
    }
  }

  /** The newest state of each object, in the order objects are first met. */
  method LatestObjects(entries: seq<Entry>, matches: Matcher) returns (byId: seq<ObjectState>)
    ensures byId == Latest(StatesOf(entries, matches))
  {
    hide Keep, StateOf, Latest;
    byId := [];
    NoStates();
    var i := 0;
    while i < |entries|
      invariant 0 <= i <= |entries|
      invariant byId == Latest(StatesOf(entries[..i], matches))
    {
      var entry := entries[i];
      var nodes := entry.meta.Nodes();
      ghost var before := StatesOf(entries[..i], matches);
      var j := 0;
      assert before + StatesIn(entry, nodes[..0], matches) == before;
      while j < |nodes|
        invariant 0 <= j <= |nodes|
        invariant byId == Latest(before + StatesIn(entry, nodes[..j], matches))
      {
        OneMoreNode(before, entry, nodes, j, matches);
        var found := StateOf(entry, nodes[j], matches);
        if |found| > 0 {
          byId := Keep(byId, found[0]);
        }
        j := j + 1;
      }
      assert nodes[..j] == nodes;
      assert entries[..i + 1][..i] == entries[..i];
      i := i + 1;
    }
    assert entries[..i] == entries;
  }

  lemma NoStates()
    ensures Latest([]) == []
  {
  }

  // ---- What "latest" means ----

  ghost predicate Mentions(states: seq<ObjectState>, id: string) {
    exists s :: s in states && s.objectId == id
  }

  /** `o` is one of the states and no state of the same object is newer. */
  ghost predicate Newest(states: seq<ObjectState>, o: ObjectState) {
    o in states && forall s :: s in states && s.objectId == o.objectId ==> !Newer(s, o)
  }

  ghost predicate OnePerObject(objects: seq<ObjectState>) {
    forall i, j :: 0 <= i < j < |objects| ==> objects[i].objectId != objects[j].objectId
  }

  lemma FindAfterKeep(objects: seq<ObjectState>, s: ObjectState, id: string)
    ensures var k, m := Find(objects, id), Find(Keep(objects, s), id);
            if id != s.objectId then
              (m < |Keep(objects, s)| <==> k < |objects|) && (k < |objects| ==> Keep(objects, s)[m] == objects[k])
            else
              m < |Keep(objects, s)| &&
              Keep(objects, s)[m] == if k == |objects| || Newer(s, objects[k]) then s else objects[k]
  {
    hide Find, Newer;
    var more := Keep(objects, s);
    var k, m := Find(objects, id), Find(more, id);
    assert forall i :: 0 <= i < |objects| && objects[i].objectId == id ==> more[i].objectId == id;
    assert forall i :: 0 <= i < |objects| ==> more[i].objectId == objects[i].objectId;
    if id == s.objectId {
      assert k < |more| && more[k].objectId == id;
    }
  }

  lemma {:induction false} LatestOnePerObject(states: seq<ObjectState>)
    ensures OnePerObject(Latest(states))
  {
    hide Find;
    if states != [] {
      LatestOnePerObject(states[..|states| - 1]);
    }
  }

  /** The object kept for an id, when any state mentions the id, is the newest of its states. */
  lemma {:induction false} LatestIsNewest(states: seq<ObjectState>, id: string)
    ensures var k := Find(Latest(states), id);
            && (k < |Latest(states)| <==> Mentions(states, id))
            && (k < |Latest(states)| ==> Newest(states, Latest(states)[k]))
  {
    hide Find, Keep;
    if states != [] {
      var front, last := states[..|states| - 1], states[|states| - 1];
      assert states == front + [last];
      LatestIsNewest(front, id);
      FindAfterKeep(Latest(front), last, id);
    }
  }

  /** Objects whose states never tie are found the same from any arrangement of the same states. */
  lemma LatestIgnoresOrder(a: seq<ObjectState>, b: seq<ObjectState>, id: string)
    requires forall s :: s in a <==> s in b
    requires forall s, t :: s in a && t in a && s.objectId == t.objectId == id && !Newer(s, t) && !Newer(t, s) ==> s == t
    ensures var m, n := Find(Latest(a), id), Find(Latest(b), id);
            (m < |Latest(a)| <==> n < |Latest(b)|) && (m < |Latest(a)| ==> Latest(a)[m] == Latest(b)[n])
  {
    hide Find, Latest, Newer;
    LatestIsNewest(a, id);
    LatestIsNewest(b, id);
  }

  /** States of one object that do tie are not: whichever is read first stays. */
  lemma TiesDependOnOrder(s: ObjectState, t: ObjectState)
    requires s.objectId == t.objectId && s != t && !Newer(s, t) && !Newer(t, s)
    ensures Latest([s, t]) == [s] && Latest([t, s]) == [t] && Latest([s, t]) != Latest([t, s])
  {
    assert [s, t][..1] == [s] && [t, s][..1] == [t] && [s][..0] == [] && [t][..0] == [];
    assert Latest([s]) == [s] && Latest([t]) == [t];
  }

  // ---- Holders of an MPT and balances of an IOU ----

  datatype MptHolder = MptHolder(account: string, amount: AmountText, objectId: string)

  function MatchesMpt(id: string): Matcher {
    (entryType, fields: Fields) => entryType == "MPToken" && fields.mptIssuanceId == Some(id)
  }

  function MatchesIou(currency: string, issuer: string): Matcher {
    (entryType, fields) => entryType == "RippleState" && IouDeltas.HolderInfo(fields, issuer, currency).Some?
  }

  function HolderOf(o: ObjectState): seq<MptHolder> {
    if o.deleted || o.fields.account.Or("") == "" then []
    else [MptHolder(o.fields.account.value, o.fields.mptAmount.Or(Numeral(0)), o.objectId)]
  }

  function HoldersOf(objects: seq<ObjectState>): seq<MptHolder> {
    if objects == [] then [] else HoldersOf(objects[..|objects| - 1]) + HolderOf(objects[|objects| - 1])
  }

  function HolderKey(h: MptHolder): (string, string) {
    (h.account, "")
  }

  method ToMptHolders(entries: seq<Entry>, id: string) returns (holders: seq<MptHolder>)
    ensures holders == SortBy(HoldersOf(Latest(StatesOf(entries, MatchesMpt(id)))), HolderKey)
  {
    var objects := LatestObjects(entries, MatchesMpt(id));
    var unsorted := [];
    var i := 0;
    while i < |objects|
      invariant 0 <= i <= |objects|
      invariant unsorted == HoldersOf(objects[..i])
    {
      var o := objects[i];
      assert objects[..i + 1][..i] == objects[..i];
      i := i + 1;
      if o.deleted {
        continue;
      }
      var account := o.fields.account;
      if account.Or("") == "" {
        continue;
      }
      unsorted := unsorted + [MptHolder(account.value, o.fields.mptAmount.Or(Numeral(0)), o.objectId)];
    }
    assert objects[..i] == objects;
    holders := SortBy(unsorted, HolderKey);
  }

  /** `balances.set(holder, balance)` for one object. */
  function SetBalance(balances: map<string, real>, o: ObjectState, currency: string, issuer: string): map<string, real> {
    var info := IouDeltas.HolderInfo(o.fields, issuer, currency);
    if o.deleted || info.None? then balances
    else balances[info.value.account := IouDeltas.HolderBalance(o.fields, info.value.side)]
  }

  function BalancesOf(objects: seq<ObjectState>, currency: string, issuer: string): map<string, real> {
    if objects == [] then map[]
    else SetBalance(BalancesOf(objects[..|objects| - 1], currency, issuer), objects[|objects| - 1], currency, issuer)
  }

  method ToIouBalances(entries: seq<Entry>, issuer: string, currency: string) returns (balances: map<string, real>)
    ensures balances == BalancesOf(Latest(StatesOf(entries, MatchesIou(currency, issuer))), currency, issuer)
  {
    var objects := LatestObjects(entries, MatchesIou(currency, issuer));
    balances := map[];
    var i := 0;
    while i < |objects|
      invariant 0 <= i <= |objects|
      invariant balances == BalancesOf(objects[..i], currency, issuer)
    {
      var o := objects[i];
      assert objects[..i + 1][..i] == objects[..i];
      i := i + 1;
      if o.deleted {
        continue;
      }
      var info := IouDeltas.HolderInfo(o.fields, issuer, currency);
      if info.None? {
        continue;
      }
      balances := balances[info.value.account := IouDeltas.HolderBalance(o.fields, info.value.side)];
    }
    assert objects[..i] == objects;
  }
}
