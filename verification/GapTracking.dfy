/** Gaps in the validated-ledger sequence (src/livetail/gapTracker.ts:13-42). */
module GapTracking {
  import opened Options

  datatype Range = Range(from: int, to: int)

  datatype Sight = Sight(last: Option<int>, gap: Option<Range>)

  function Observed(last: Option<int>, ledger: int): Sight {
    if last.None? then Sight(Some(ledger), None)
    else if ledger <= last.value then Sight(last, None)
    else if ledger == last.value + 1 then Sight(Some(ledger), None)
    else Sight(Some(ledger), Some(Range(last.value + 1, ledger - 1)))
  }

  class GapTracker {
    var last: Option<int>

    constructor (start: Option<int>)
      ensures last == start
    {
      last := start;
    }

    /** Observe a validated ledger; give the gap it revealed, if any. */
    method Observe(ledger: int) returns (gap: Option<Range>)
      modifies this
      ensures Sight(last, gap) == Observed(old(last), ledger)
    {
      if last.None? {
        last := Some(ledger);
        return None;
      }
      if ledger <= last.value {
        return None;
      }
      if ledger == last.value + 1 {
        last := Some(ledger);
        return None;
      }
      gap := Some(Range(last.value + 1, ledger - 1));
      last := Some(ledger);
    }
  }

  /** The ledgers that moved a tracker on, and the gaps reported, after a sequence of observations. */
  datatype Track = Track(last: int, accepted: seq<int>, gaps: seq<Range>)

  function Watch(anchor: int, ledgers: seq<int>): Track {
    if ledgers == [] then Track(anchor, [], [])
    else
      var t := Watch(anchor, ledgers[..|ledgers| - 1]);
      var ledger := ledgers[|ledgers| - 1];
      var sight := Observed(Some(t.last), ledger);
      Track(sight.last.value,
            if sight.last.value == t.last then t.accepted else t.accepted + [ledger],
            if sight.gap.None? then t.gaps else t.gaps + [sight.gap.value])
  }

  predicate InGaps(gaps: seq<Range>, n: int) {
    exists k :: 0 <= k < |gaps| && gaps[k].from <= n <= gaps[k].to
  }

  ghost predicate Orderly(t: Track) {
    && (forall k :: 0 <= k < |t.gaps| ==> t.gaps[k].from <= t.gaps[k].to < t.last)
    && (forall j, k :: 0 <= j < k < |t.gaps| ==> t.gaps[j].to < t.gaps[k].from)
    && (forall j, k :: 0 <= j < k < |t.accepted| ==> t.accepted[j] < t.accepted[k])
    && (forall k :: 0 <= k < |t.accepted| ==> t.accepted[k] <= t.last)
  }

  /** After any observations - duplicates, old ledgers, jumps - the ledgers accepted and the gaps
      reported together are exactly the interval since the anchor, each ledger in one of the two; the
      gaps are non-empty, ascending and disjoint. */
  lemma {:induction false} Partition(anchor: int, ledgers: seq<int>)
    ensures var t := Watch(anchor, ledgers);
            && anchor <= t.last && Orderly(t)
            && (forall n :: n in t.accepted || InGaps(t.gaps, n) <==> anchor < n <= t.last)
            && (forall n :: !(n in t.accepted && InGaps(t.gaps, n)))
  {
    if ledgers != [] {
      Partition(anchor, ledgers[..|ledgers| - 1]);
      var was, t := Watch(anchor, ledgers[..|ledgers| - 1]), Watch(anchor, ledgers);
      forall n
        ensures n in t.accepted || InGaps(t.gaps, n) <==> anchor < n <= t.last
        ensures !(n in t.accepted && InGaps(t.gaps, n))
      {
        OneMoreSight(was, ledgers[|ledgers| - 1], n);
      }
    }
  }

  lemma OneMoreSight(was: Track, ledger: int, n: int)
    ensures var sight := Observed(Some(was.last), ledger);
            && (InGaps(if sight.gap.None? then was.gaps else was.gaps + [sight.gap.value], n) <==>
                InGaps(was.gaps, n) || (was.last < n < ledger))
            && (n in (if sight.last.value == was.last then was.accepted else was.accepted + [ledger]) <==>
                n in was.accepted || (was.last < ledger && n == ledger))
  {
    var sight := Observed(Some(was.last), ledger);
    if sight.gap.Some? {
      var more := was.gaps + [sight.gap.value];
      assert more[|was.gaps|] == sight.gap.value;
      if InGaps(was.gaps, n) {
        var k :| 0 <= k < |was.gaps| && was.gaps[k].from <= n <= was.gaps[k].to;
        assert more[k] == was.gaps[k];
      }
    }
  }

  lemma {:induction false} AcceptedWereSeen(anchor: int, ledgers: seq<int>, n: int)
    requires n in Watch(anchor, ledgers).accepted
    ensures n in ledgers
  {
    var front := ledgers[..|ledgers| - 1];
    if n in Watch(anchor, front).accepted {
      AcceptedWereSeen(anchor, front, n);
      assert n in front;
    }
  }
}
