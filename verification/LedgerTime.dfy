/** Ledger close times and the resolution of a timestamp to a ledger
    (src/api/ledgerTime.ts, src/db/repositories/ledgers.ts). Times are integers. */
module LedgerTime {
  import opened Options
  import opened Tables
  import opened Jobs

  /** The upstream's close time of a ledger, where it has one. */
  type CloseTimes = int -> Option<int>

  /** `ON CONFLICT DO NOTHING`: a close time never changes. */
  function Recorded(ledgers: map<int, int>, ledger: int, time: int): map<int, int> {
    if ledger in ledgers then ledgers else ledgers[ledger := time]
  }

  ghost predicate Agrees(ledgers: map<int, int>, up: CloseTimes) {
    forall n :: n in ledgers ==> up(n) == Some(ledgers[n])
  }

  // ---- The table's own answer ----

  ghost predicate IsHighest(ledgers: map<int, int>, time: int, answer: Option<int>) {
    && (answer.Some? ==> answer.value in ledgers && ledgers[answer.value] <= time)
    && (forall n :: n in ledgers && ledgers[n] <= time ==> answer.Some? && n <= answer.value)
  }

  method ResolveAtOrBefore(ledgers: map<int, int>, time: int) returns (answer: Option<int>)
    ensures IsHighest(ledgers, time, answer)
  {
    answer := None;
    var left := ledgers.Keys;
    while left != {}
      invariant left <= ledgers.Keys
      invariant answer.Some? ==> answer.value in ledgers && ledgers[answer.value] <= time
      invariant forall n :: n in ledgers && n !in left && ledgers[n] <= time ==> answer.Some? && n <= answer.value
      decreases left
    {
      Inhabited(left);
      var n :| n in left;
      if ledgers[n] <= time && (answer.None? || answer.value < n) {
        answer := Some(n);
      }
      left := left - {n};
    }
  }

  // ---- The search ----

  datatype Found = Found(answer: Option<int>, probed: seq<int>)

  function Middle(lo: int, hi: int): (mid: int)
    requires lo <= hi
    ensures lo <= mid <= hi && mid - lo <= hi - mid <= mid - lo + 1
  {
    lo + (hi - lo) / 2
  }

  /** The probes and the answer, as the upstream's times decide them: a ledger without one counts as too late. */
  function Search(up: CloseTimes, lo: int, hi: int, time: int, best: Option<int>): Found
    decreases hi - lo + 1
  {
    if lo > hi then Found(best, [])
    else
      var mid := Middle(lo, hi);
      var rest := if up(mid).Some? && up(mid).value <= time then Search(up, mid + 1, hi, time, Some(mid))
                  else Search(up, lo, mid - 1, time, best);
      Found(rest.answer, [mid] + rest.probed)
  }

  /** An answer is always a ledger of the range, closed at or before the time. */
  lemma {:induction false} SearchIsSound(up: CloseTimes, lo: int, hi: int, time: int, best: Option<int>)
    ensures var answer := Search(up, lo, hi, time, best).answer;
            answer == best || (answer.Some? && lo <= answer.value <= hi && up(answer.value).Some? && up(answer.value).value <= time)
    decreases hi - lo + 1
  {
    if lo <= hi {
      var mid := Middle(lo, hi);
      if up(mid).Some? && up(mid).value <= time {
        SearchIsSound(up, mid + 1, hi, time, Some(mid));
      } else {
        SearchIsSound(up, lo, mid - 1, time, best);
      }
    }
  }

  predicate Early(up: CloseTimes, n: int, time: int) {
    up(n).Some? && up(n).value <= time
  }

  /** Known close times that never go back. */
  ghost predicate Chronological(up: CloseTimes, lo: int, hi: int) {
    && (forall n :: lo <= n <= hi ==> up(n).Some?)
    && (forall m, n :: lo <= m <= n <= hi && up(m).Some? && up(n).Some? ==> up(m).value <= up(n).value)
  }

  ghost predicate NoneEarly(up: CloseTimes, lo: int, hi: int, time: int) {
    forall n :: lo <= n <= hi ==> !Early(up, n, time)
  }

  /** The highest ledger of the range at or before the time, or `best` when there is none. */
  ghost predicate HighestOf(up: CloseTimes, lo: int, hi: int, time: int, best: Option<int>, answer: Option<int>) {
    if NoneEarly(up, lo, hi, time) then answer == best
    else answer.Some? && lo <= answer.value <= hi && Early(up, answer.value, time) && NoneEarly(up, answer.value + 1, hi, time)
  }

  lemma LaterNotEarly(up: CloseTimes, lo: int, mid: int, hi: int, time: int)
    requires Chronological(up, lo, hi) && lo <= mid <= hi && !Early(up, mid, time)
    ensures NoneEarly(up, mid, hi, time)
  {
    forall n | mid <= n <= hi ensures !Early(up, n, time) {
      assert up(mid).Some? && up(n).Some?;
    }
  }

  lemma Narrower(up: CloseTimes, lo: int, hi: int, from: int, to: int)
    requires Chronological(up, lo, hi) && lo <= from && to <= hi
    ensures Chronological(up, from, to)
  {
  }

  /** With known, non-decreasing times the answer is the highest ledger at or before the time. */
  lemma {:induction false} SearchIsExact(up: CloseTimes, lo: int, hi: int, time: int, best: Option<int>)
    requires Chronological(up, lo, hi)
    ensures HighestOf(up, lo, hi, time, best, Search(up, lo, hi, time, best).answer)
    decreases hi - lo + 1
  {
    hide Chronological;
    if lo <= hi {
      var mid := Middle(lo, hi);
      if Early(up, mid, time) {
        Narrower(up, lo, hi, mid + 1, hi);
        SearchIsExact(up, mid + 1, hi, time, Some(mid));
      } else {
        LaterNotEarly(up, lo, mid, hi, time);
        Narrower(up, lo, hi, lo, mid - 1);
        SearchIsExact(up, lo, mid - 1, time, best);
        RestNotEarly(up, lo, mid, hi, time, best, Search(up, lo, mid - 1, time, best).answer);
      }
    }
  }

  lemma RestNotEarly(up: CloseTimes, lo: int, mid: int, hi: int, time: int, best: Option<int>, answer: Option<int>)
    requires HighestOf(up, lo, mid - 1, time, best, answer) && NoneEarly(up, mid, hi, time) && lo <= mid <= hi
    ensures HighestOf(up, lo, hi, time, best, answer)
  {
    hide Early;
    if NoneEarly(up, lo, mid - 1, time) {
      forall n | lo <= n <= hi ensures !Early(up, n, time) {
        assert n <= mid - 1 || mid <= n;
      }
    } else {
      var n :| lo <= n <= mid - 1 && Early(up, n, time);
    }
  }

  function Power2(n: nat): nat {
    if n == 0 then 1 else 2 * Power2(n - 1)
  }

  /** At most the binary logarithm of the range, rounded down, and one more probe. */
  lemma {:induction false} SearchIsShort(up: CloseTimes, lo: int, hi: int, time: int, best: Option<int>)
    ensures var probes := |Search(up, lo, hi, time, best).probed|;
            if lo > hi then probes == 0 else probes >= 1 && Power2(probes - 1) <= hi - lo + 1
    decreases hi - lo + 1
  {
    if lo <= hi {
      var mid := Middle(lo, hi);
      if up(mid).Some? && up(mid).value <= time {
        SearchIsShort(up, mid + 1, hi, time, Some(mid));
      } else {
        SearchIsShort(up, lo, mid - 1, time, best);
      }
    }
  }

  // ---- The resolver over a cache ----

  /** The cache after some probes: whatever they fetched. */
  function Cached(ledgers: map<int, int>, up: CloseTimes, probed: seq<int>): map<int, int> {
    if probed == [] then ledgers
    else
      var n := probed[|probed| - 1];
      var before := Cached(ledgers, up, probed[..|probed| - 1]);
      if up(n).Some? then Recorded(before, n, up(n).value) else before
  }

  /** How many of some probes have to ask upstream. */
  function Asks(ledgers: map<int, int>, up: CloseTimes, probed: seq<int>): nat {
    if probed == [] then 0
    else
      Asks(ledgers, up, probed[..|probed| - 1])
      + if probed[|probed| - 1] in Cached(ledgers, up, probed[..|probed| - 1]) then 0 else 1
  }

  /** The ledgers the stored transactions lie in. */
  function LedgersOf(transactions: map<string, TxRow>): set<int> {
    set h | h in transactions :: transactions[h].ledger
  }

  ghost predicate Spans(ledgers: set<int>, lo: int, hi: int) {
    lo in ledgers && hi in ledgers && forall n :: n in ledgers ==> lo <= n <= hi
  }

  method MinMax(ledgers: set<int>) returns (lo: int, hi: int)
    requires ledgers != {}
    ensures Spans(ledgers, lo, hi)
  {
    lo := First(ledgers);
    hi := lo;
    var left := ledgers;
    while left != {}
      invariant left <= ledgers && hi in ledgers && forall n :: n in ledgers && n !in left ==> n <= hi
      decreases left
    {
      Inhabited(left);
      var n :| n in left;
      if hi < n {
        hi := n;
      }
      left := left - {n};
    }
  }

  /** Whether a ledger closed at or before the time, asking upstream and caching when the table does not
      know; `None` when nobody does. */
  method AtOrBefore(a: Archive, up: CloseTimes, time: int, mid: int) returns (le: Option<bool>, asked: bool)
    requires Agrees(a.ledgers, up)
    modifies a`ledgers
    ensures Agrees(a.ledgers, up) && a.ledgers == Cached(old(a.ledgers), up, [mid])
    ensures asked <==> mid !in old(a.ledgers)
    ensures le == if up(mid).Some? then Some(up(mid).value <= time) else None
  {
    assert [mid][..0] == [];
    asked := mid !in a.ledgers;
    if asked {
      var closed := up(mid);
      if closed.None? {
        return None, asked;
      }
      a.ledgers := Recorded(a.ledgers, mid, closed.value);
    }
    le := Some(a.ledgers[mid] <= time);
  }

  lemma CachedOneMore(ledgers: map<int, int>, up: CloseTimes, probed: seq<int>, mid: int)
    ensures Cached(ledgers, up, probed + [mid]) == Cached(Cached(ledgers, up, probed), up, [mid])
    ensures Asks(ledgers, up, probed + [mid]) == Asks(ledgers, up, probed) + if mid in Cached(ledgers, up, probed) then 0 else 1
  {
    assert (probed + [mid])[..|probed|] == probed && [mid][..0] == [];
  }

  /** The lazy resolver. `probed` and `calls` say what it looked at and how often it asked upstream. */
  method LazyResolve(a: Archive, up: CloseTimes, time: int) returns (answer: Option<int>, ghost probed: seq<int>, calls: nat)
    requires Agrees(a.ledgers, up)
    modifies a`ledgers
    ensures Agrees(a.ledgers, up) && a.ledgers == Cached(old(a.ledgers), up, probed)
    ensures calls == Asks(old(a.ledgers), up, probed)
    ensures a.transactions == map[] ==> answer.None? && probed == []
    ensures a.transactions != map[] ==>
              exists lo, hi :: Spans(LedgersOf(a.transactions), lo, hi) && Found(answer, probed) == Search(up, lo, hi, time, None)
  {
    hide Cached, Asks, Agrees, Spans, Search;
    probed, calls, answer := [], 0, None;
    NoProbes(a.ledgers, up);
    var ledgers := LedgersOf(a.transactions);
    if ledgers == {} {
      NoTransactions(a.transactions);
      return;
    }
    SomeTransactions(a.transactions);
    var lo, hi := MinMax(ledgers);
    ghost var first, last := lo, hi;
    ghost var whole := Search(up, lo, hi, time, None);
    assert [] + whole.probed == whole.probed;
    while lo <= hi
      invariant Agrees(a.ledgers, up) && a.ledgers == Cached(old(a.ledgers), up, probed)
      invariant calls == Asks(old(a.ledgers), up, probed)
      invariant Search(up, lo, hi, time, answer).answer == whole.answer
      invariant probed + Search(up, lo, hi, time, answer).probed == whole.probed
      decreases hi - lo + 1
    {
      var mid := Middle(lo, hi);
      CachedOneMore(old(a.ledgers), up, probed, mid);
      SearchOnce(up, lo, hi, time, answer, probed);
      var le, asked := AtOrBefore(a, up, time, mid);
      probed := probed + [mid];
      if asked {
        calls := calls + 1;
      }
      if le.None? {
        hi := mid - 1;
      } else if le.value {
        answer := Some(mid);
        lo := mid + 1;
      } else {
        hi := mid - 1;
      }
    }
    SearchOver(up, lo, hi, time, answer);
    assert probed + [] == probed;
    assert Spans(LedgersOf(a.transactions), first, last);
  }

  lemma SearchOnce(up: CloseTimes, lo: int, hi: int, time: int, best: Option<int>, probed: seq<int>)
    requires lo <= hi
    ensures var mid := Middle(lo, hi);
            var rest := if up(mid).Some? && up(mid).value <= time then Search(up, mid + 1, hi, time, Some(mid))
                        else Search(up, lo, mid - 1, time, best);
            && Search(up, lo, hi, time, best).answer == rest.answer
            && probed + Search(up, lo, hi, time, best).probed == probed + [mid] + rest.probed
  {
  }

  lemma SearchOver(up: CloseTimes, lo: int, hi: int, time: int, best: Option<int>)
    requires lo > hi
    ensures Search(up, lo, hi, time, best) == Found(best, [])
  {
  }

  lemma NoProbes(ledgers: map<int, int>, up: CloseTimes)
    ensures Cached(ledgers, up, []) == ledgers && Asks(ledgers, up, []) == 0
  {
  }

  lemma NoTransactions(transactions: map<string, TxRow>)
    requires LedgersOf(transactions) == {}
    ensures transactions == map[]
  {
    assert forall h :: h in transactions ==> transactions[h].ledger in LedgersOf(transactions);
    assert transactions.Keys == {};
  }

  lemma SomeTransactions(transactions: map<string, TxRow>)
    requires LedgersOf(transactions) != {}
    ensures transactions != map[]
  {
    Inhabited(LedgersOf(transactions));
  }

  // ---- What follows ----

  lemma {:induction false} CachedHas(ledgers: map<int, int>, up: CloseTimes, probed: seq<int>, n: int)
    ensures n in Cached(ledgers, up, probed) <==> n in ledgers || (n in probed && up(n).Some?)
  {
    if probed != [] {
      assert probed == probed[..|probed| - 1] + [probed[|probed| - 1]];
      CachedHas(ledgers, up, probed[..|probed| - 1], n);
    }
  }

  /** Asking again for the same time asks upstream only about ledgers that have no close time; when all
      have one, not at all. */
  lemma {:induction false} RepeatAsksNothing(ledgers: map<int, int>, up: CloseTimes, probed: seq<int>, again: seq<int>)
    requires forall n :: n in again ==> n in probed && up(n).Some?
    ensures Asks(Cached(ledgers, up, probed), up, again) == 0
  {
    if again != [] {
      var front, last := again[..|again| - 1], again[|again| - 1];
      assert again == front + [last];
      RepeatAsksNothing(ledgers, up, probed, front);
      assert last in again;
      CachedHas(ledgers, up, probed, last);
      CachedHas(Cached(ledgers, up, probed), up, front, last);
    }
  }

  /** And it agrees with the table's own answer when the table holds exactly the range. */
  lemma LazyAgreesWithTable(up: CloseTimes, lo: int, hi: int, time: int, ledgers: map<int, int>, answer: Option<int>)
    requires Chronological(up, lo, hi) && Agrees(ledgers, up) && (forall n :: n in ledgers <==> lo <= n <= hi)
    requires IsHighest(ledgers, time, answer)
    ensures Search(up, lo, hi, time, None).answer == answer
  {
    SearchIsExact(up, lo, hi, time, None);
    if answer.Some? {
      assert Early(up, answer.value, time);
    } else {
      forall n | lo <= n <= hi ensures !Early(up, n, time) {
        assert n in ledgers;
      }
    }
  }

  /** Fill in the close times of some ledgers: each missing one is asked for once; one the upstream does
      not give, or fails to give, stays blank. */
  method EnsureCloseTimes(a: Archive, up: CloseTimes, indices: seq<int>) returns (calls: nat)
    requires Agrees(a.ledgers, up)
    modifies a`ledgers
    ensures Agrees(a.ledgers, up)
    ensures Filled(old(a.ledgers), a.ledgers, up, set n | n in indices)
    ensures calls == |(set n | n in indices) - old(a.ledgers).Keys|
  {
    hide Recorded, Agrees, Filled, Asked;
    var unique := set n | n in indices;
    var known := a.ledgers.Keys;
    var left := unique;
    AskedNone(unique, known);
    FillNone(a.ledgers, up);
    calls := 0;
    while left != {}
      invariant left <= unique && Agrees(a.ledgers, up)
      invariant Filled(old(a.ledgers), a.ledgers, up, unique - left) && calls == |Asked(unique, left, known)|
      decreases left
    {
      Inhabited(left);
      var n :| n in left;
      FillOne(old(a.ledgers), a.ledgers, up, unique - left, n);
      AskedOne(unique, left, known, n);
      left := left - {n};
      if n !in known {
        calls := calls + 1;
        if up(n).Some? {
          a.ledgers := Recorded(a.ledgers, n, up(n).value);
        }
      }
    }
    AskedAll(unique, known);
  }

  /** The missing ones among those dealt with. */
  function Asked(unique: set<int>, left: set<int>, known: set<int>): set<int> {
    (unique - left) - known
  }

  lemma AskedNone(unique: set<int>, known: set<int>)
    ensures |Asked(unique, unique, known)| == 0 && unique - unique == {}
  {
    assert Asked(unique, unique, known) == {};
  }

  lemma AskedAll(unique: set<int>, known: set<int>)
    ensures Asked(unique, {}, known) == unique - known && unique - {} == unique
  {
  }

  lemma AskedOne(unique: set<int>, left: set<int>, known: set<int>, n: int)
    requires left <= unique && n in left
    ensures unique - (left - {n}) == unique - left + {n}
    ensures |Asked(unique, left - {n}, known)| == |Asked(unique, left, known)| + if n in known then 0 else 1
  {
    var before, after := Asked(unique, left, known), Asked(unique, left - {n}, known);
    assert after == if n in known then before else before + {n};
  }

  /** The close times the upstream gives for some ledgers are in, beside those there were. */
  ghost predicate Filled(before: map<int, int>, after: map<int, int>, up: CloseTimes, indices: set<int>) {
    && (forall n :: n in after <==> n in before || (n in indices && up(n).Some?))
    && (forall n :: n in before ==> n in after && after[n] == before[n])
  }

  lemma FillNone(before: map<int, int>, up: CloseTimes)
    ensures Filled(before, before, up, {})
  {
  }

  lemma FillOne(before: map<int, int>, mid: map<int, int>, up: CloseTimes, done: set<int>, n: int)
    requires Filled(before, mid, up, done) && Agrees(mid, up)
    ensures up(n).Some? ==>
              Agrees(Recorded(mid, n, up(n).value), up) && Filled(before, Recorded(mid, n, up(n).value), up, done + {n})
    ensures up(n).None? || n in before ==> Filled(before, mid, up, done + {n})
  {
  }
}
