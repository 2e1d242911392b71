/** `mpt_holders`: the reconstructed holders in pages (src/api/methods/mptHolders.ts:54-66). */
module MptHolders {
  import opened Options
  import opened Ordering
  import opened AccountTx

  /** An empty marker is no marker. */
  function Behind(ordered: seq<string>, marker: Option<string>): seq<string> {
    if marker.Or("") == "" then ordered else Later(ordered, marker.value)
  }

  function Later(ordered: seq<string>, marker: string): seq<string> {
    if ordered == [] then []
    else Later(ordered[..|ordered| - 1], marker) + if Lt(marker, ordered[|ordered| - 1]) then [ordered[|ordered| - 1]] else []
  }

  datatype HolderPage = HolderPage(tokens: seq<string>, marker: Option<string>)

  /** One page of the object ids. */
  function PageOf(indices: set<string>, marker: Option<string>, limit: nat): HolderPage
    requires limit >= 1
  {
    var after := Behind(SortedNames(indices), marker);
    if |after| > limit then HolderPage(after[..limit], Some(after[limit - 1])) else HolderPage(after, None)
  }

  // ---- The same keyset paging as account_tx ----

  /** An object id as a cursor: every key has the same ledger, so the id decides. */
  function AsKey(index: string): Key {
    Key(0, index)
  }

  function AsKeys(indices: seq<string>): (r: seq<Key>)
    ensures |r| == |indices| && forall k :: 0 <= k < |r| ==> r[k] == AsKey(indices[k])
  {
    seq(|indices|, k requires 0 <= k < |indices| => AsKey(indices[k]))
  }

  function RowsOf(indices: set<string>): set<Key> {
    set i | i in indices :: AsKey(i)
  }

  function CursorOf(marker: Option<string>): Option<Key> {
    if marker.Or("") == "" then None else Some(AsKey(marker.value))
  }

  ghost predicate Rising(xs: seq<string>) {
    forall i, j :: 0 <= i < j < |xs| ==> Lt(xs[i], xs[j])
  }

  lemma {:induction false} LaterIs(ordered: seq<string>, marker: string)
    requires Rising(ordered)
    ensures Rising(Later(ordered, marker))
    ensures forall x :: x in Later(ordered, marker) <==> x in ordered && Lt(marker, x)
  {
    hide Lt;
    if ordered != [] {
      var front, last := ordered[..|ordered| - 1], ordered[|ordered| - 1];
      assert ordered == front + [last];
      LaterIs(front, marker);
      forall x | x in Later(front, marker) ensures Lt(x, last) {
        var i :| 0 <= i < |front| && front[i] == x;
        assert ordered[i] == x;
      }
    }
  }

  lemma SortedRises(indices: set<string>)
    ensures Rising(SortedNames(indices))
  {
    forall i, j | 0 <= i < j < |SortedNames(indices)| ensures Lt(SortedNames(indices)[i], SortedNames(indices)[j]) {
      SortedNamesAscend(indices, i, j);
    }
  }

  lemma BehindIs(indices: set<string>, marker: Option<string>)
    ensures Rising(Behind(SortedNames(indices), marker))
    ensures forall x :: x in Behind(SortedNames(indices), marker) <==>
              x in indices && AccountTx.After(true, CursorOf(marker), AsKey(x))
  {
    hide SortedNames;
    SortedRises(indices);
    if marker.Or("") != "" {
      LaterIs(SortedNames(indices), marker.value);
    }
  }

  /** A page of holders is a keyset page over their object ids, so what holds of following `account_tx`
      markers - strict order, nothing twice, nothing missed, as few pages as can hold them - holds here. */
  lemma PageIsKeyset(indices: set<string>, marker: Option<string>, limit: nat, walked: seq<Key>) returns (answer: seq<Key>)
    requires limit >= 1 && "" !in indices
    ensures Answers(RowsOf(indices), CursorOf(marker), true, limit, answer)
    ensures var page := PageOf(indices, marker, limit);
            Next(Walk(walked, CursorOf(marker), false), answer, limit) ==
            Walk(walked + AsKeys(page.tokens), if page.marker.Some? then CursorOf(page.marker) else CursorOf(marker), page.marker.None?)
  {
    hide SortedNames, Behind, Lt;
    var after := Behind(SortedNames(indices), marker);
    BehindIs(indices, marker);
    var n := if |after| > limit + 1 then limit + 1 else |after|;
    answer := AsKeys(after[..n]);
    forall k | k in answer ensures k in RowsOf(indices) && AccountTx.After(true, CursorOf(marker), k) {
      var i :| 0 <= i < n && answer[i] == k;
      assert after[i] in after;
    }
    forall k | k in RowsOf(indices) && AccountTx.After(true, CursorOf(marker), k)
      ensures k in answer || (|answer| == limit + 1 && Past(true, answer[limit], k))
    {
      assert k.hash in after;
      var i :| 0 <= i < |after| && after[i] == k.hash;
      if i < n {
        assert answer[i] == k;
      } else {
        assert Lt(after[limit], after[i]);
      }
    }
    if |after| > limit {
      assert AsKeys(after[..limit]) == answer[..limit];
      assert after[limit - 1] in after;
    } else {
      assert after[..n] == after;
    }
  }
}
