/** Several issuers healed at once, with everything else ingesting meanwhile
    (src/livetail/gapFill.ts:86-146). */
module HealPool {
  import opened Options
  import opened Tables
  import opened Ingest
  import opened Rederive
  import opened Arrivals
  import opened Holders
  import opened Backfill
  import opened GapTracking
  import opened Worker
  import opened Heal

  datatype Runner = Free | Sweeping(item: nat, page: nat) | Gone

  /** `next` is the index the runners share. */
  datatype Pool = Pool(db: Db, next: nat, runners: seq<Runner>)

  datatype Move = Takes(r: nat) | Leaves(r: nat) | Writes(r: nat) | Finishes(r: nat) | Elsewhere(arrivals: seq<Arrival>)

  function PagesOf(up: Upstream, range: Range, item: nat): seq<Served>
    requires item < |up.issuers|
  {
    up.pages(up.issuers[item], range)
  }

  /** A page that the delta writer refuses is not written: its runner stays with it, and the pool never ends. */
  predicate Able(up: Upstream, range: Range, p: Pool, m: Move) {
    match m
    case Elsewhere(_) => true
    case Takes(r) => r < |p.runners| && p.runners[r].Free? && p.next < |up.issuers|
    case Leaves(r) => r < |p.runners| && p.runners[r].Free? && p.next >= |up.issuers|
    case Writes(r) =>
      && r < |p.runners| && p.runners[r].Sweeping? && p.runners[r].item < |up.issuers|
      && p.runners[r].page < |PagesOf(up, range, p.runners[r].item)|
      && !Unwritable(up.issuers[p.runners[r].item], PagesOf(up, range, p.runners[r].item)[p.runners[r].page])
    case Finishes(r) =>
      && r < |p.runners| && p.runners[r].Sweeping? && p.runners[r].item < |up.issuers|
      && p.runners[r].page >= |PagesOf(up, range, p.runners[r].item)|
  }

  function Step(up: Upstream, range: Range, p: Pool, m: Move): Pool
    requires Able(up, range, p, m)
  {
    match m
    case Elsewhere(arrivals) => p.(db := ArriveAll(p.db, arrivals))
    case Takes(r) => p.(next := p.next + 1, runners := p.runners[r := Sweeping(p.next, 0)])
    case Leaves(r) => p.(runners := p.runners[r := Gone])
    case Finishes(r) => p.(runners := p.runners[r := Free])
    case Writes(r) =>
      var item, page := p.runners[r].item, p.runners[r].page;
      var served := PagesOf(up, range, item)[page];
      p.(db := Page(p.db, served.derived, RowsOn(up.issuers[item], served)),
         runners := p.runners[r := Sweeping(item, page + 1)])
  }

  ghost predicate GoesOn(up: Upstream, range: Range, p: Pool, r: nat) {
    exists m :: m in {Takes(r), Leaves(r), Writes(r), Finishes(r)} && Able(up, range, p, m)
  }

  /** A runner that has not gone can always go on, unless its page is refused. */
  lemma RunnerGoesOn(up: Upstream, range: Range, p: Pool, r: nat)
    requires r < |p.runners| && !p.runners[r].Gone?
    requires p.runners[r].Sweeping? ==> p.runners[r].item < |up.issuers|
    requires p.runners[r].Sweeping? && p.runners[r].page < |PagesOf(up, range, p.runners[r].item)| ==>
               var page := PagesOf(up, range, p.runners[r].item)[p.runners[r].page];
               !SomeRefused(page.derived, RowsOn(up.issuers[p.runners[r].item], page))
    ensures GoesOn(up, range, p, r)
  {
    hide RefusesPage, SomeRefused, RowsOn;
    if p.runners[r].Free? {
      assert Able(up, range, p, Takes(r)) || Able(up, range, p, Leaves(r));
    } else {
      if p.runners[r].page < |PagesOf(up, range, p.runners[r].item)| {
        var page := PagesOf(up, range, p.runners[r].item)[p.runners[r].page];
        RefusesExactlyWhen(page.derived, RowsOn(up.issuers[p.runners[r].item], page));
        assert Able(up, range, p, Writes(r));
      } else {
        assert Able(up, range, p, Finishes(r));
      }
    }
  }

  ghost predicate PagesStored(up: Upstream, range: Range, db: Db, item: nat, pages: nat) {
    && item < |up.issuers| && pages <= |PagesOf(up, range, item)|
    && forall k :: 0 <= k < pages ==> Stored(db, RowsOn(up.issuers[item], PagesOf(up, range, item)[k]))
  }

  ghost predicate BeingSwept(p: Pool, item: nat) {
    exists r :: 0 <= r < |p.runners| && p.runners[r].Sweeping? && p.runners[r].item == item
  }

  ghost predicate Whole(up: Upstream, range: Range, db: Db, item: nat) {
    item < |up.issuers| && PagesStored(up, range, db, item, |PagesOf(up, range, item)|)
  }

  ghost predicate Inv(up: Upstream, range: Range, p: Pool) {
    && p.next <= |up.issuers|
    && (forall r :: 0 <= r < |p.runners| && p.runners[r].Sweeping? ==>
          PagesStored(up, range, p.db, p.runners[r].item, p.runners[r].page) && p.runners[r].item < p.next)
    && (forall item :: 0 <= item < p.next ==> Whole(up, range, p.db, item) || BeingSwept(p, item))
    && (forall q, r :: 0 <= q < r < |p.runners| && p.runners[q].Sweeping? && p.runners[r].Sweeping? ==>
          p.runners[q].item != p.runners[r].item)
    && ((exists r :: 0 <= r < |p.runners| && p.runners[r].Gone?) ==> p.next == |up.issuers|)
  }

  lemma PagesStay(up: Upstream, range: Range, db: Db, after: Db, item: nat, pages: nat)
    requires PagesStored(up, range, db, item, pages) && Retains(db, after)
    ensures PagesStored(up, range, after, item, pages)
  {
    hide RowsOn, Absorbed;
  }

  /** What happens to the database only adds to it. */
  lemma DbGrows(up: Upstream, range: Range, p: Pool, after: Pool)
    requires Inv(up, range, p) && Retains(p.db, after.db) && after == p.(db := after.db)
    ensures Inv(up, range, after)
  {
    hide PagesStored, Retains;
    forall r | 0 <= r < |p.runners| && p.runners[r].Sweeping?
      ensures PagesStored(up, range, after.db, p.runners[r].item, p.runners[r].page)
    {
      PagesStay(up, range, p.db, after.db, p.runners[r].item, p.runners[r].page);
    }
    forall item | 0 <= item < after.next ensures Whole(up, range, after.db, item) || BeingSwept(after, item) {
      if Whole(up, range, p.db, item) {
        PagesStay(up, range, p.db, after.db, item, |PagesOf(up, range, item)|);
      } else {
        SameRunners(p, after, item);
      }
    }
  }

  lemma SameRunners(p: Pool, after: Pool, item: nat)
    requires after.runners == p.runners
    ensures BeingSwept(after, item) <==> BeingSwept(p, item)
  {
  }

  /** Another runner's sweep is still going. */
  lemma StillSwept(p: Pool, after: Pool, r: nat, item: nat)
    requires r < |p.runners| == |after.runners| && after.runners == p.runners[r := after.runners[r]]
    requires BeingSwept(p, item) && !(p.runners[r].Sweeping? && p.runners[r].item == item)
    ensures BeingSwept(after, item)
  {
    var q :| 0 <= q < |p.runners| && p.runners[q].Sweeping? && p.runners[q].item == item;
    assert after.runners[q] == p.runners[q];
  }

  lemma RunnerMoves(up: Upstream, range: Range, p: Pool, after: Pool, r: nat)
    requires Inv(up, range, p) && r < |p.runners| && |after.runners| == |p.runners|
    requires after == p.(next := after.next, runners := p.runners[r := after.runners[r]])
    requires p.next <= after.next <= |up.issuers|
    requires after.runners[r].Sweeping? ==>
               PagesStored(up, range, p.db, after.runners[r].item, after.runners[r].page) && after.runners[r].item < after.next
    requires after.runners[r].Sweeping? ==>
               (after.next == p.next + 1 && after.runners[r].item == p.next) ||
               (p.runners[r].Sweeping? && p.runners[r].item == after.runners[r].item)
    requires after.next > p.next ==> after.next == p.next + 1 && after.runners[r].Sweeping? && after.runners[r].item == p.next
    requires p.runners[r].Sweeping? ==> Whole(up, range, p.db, p.runners[r].item) ||
                                        (after.runners[r].Sweeping? && after.runners[r].item == p.runners[r].item)
    requires after.runners[r].Gone? ==> after.next == |up.issuers|
    ensures Inv(up, range, after)
  {
    hide PagesStored;
    forall item | 0 <= item < after.next ensures Whole(up, range, after.db, item) || BeingSwept(after, item) {
      if after.runners[r].Sweeping? && after.runners[r].item == item {
      } else if !Whole(up, range, p.db, item) {
        StillSwept(p, after, r, item);
      }
    }
    if q :| 0 <= q < |after.runners| && after.runners[q].Gone? {
      assert q == r || p.runners[q].Gone?;
    }
  }

  lemma MoveKeepsInv(up: Upstream, range: Range, p: Pool, m: Move)
    requires Inv(up, range, p) && Able(up, range, p, m)
    ensures Inv(up, range, Step(up, range, p, m)) && |Step(up, range, p, m).runners| == |p.runners|
  {
    hide RowsOn, Absorbed, Page, ArriveAll, PagesStored, Inv, Retains;
    var after := Step(up, range, p, m);
    match m {
      case Elsewhere(arrivals) =>
        ArrivalsRemember(p.db, arrivals);
        DbGrows(up, range, p, after);
      case Takes(r) =>
        StartStored(up, range, p.db, p.next);
        BusyStored(up, range, p, r);
        RunnerMoves(up, range, p, after, r);
      case Leaves(r) =>
        BusyStored(up, range, p, r);
        RunnerMoves(up, range, p, after, r);
      case Finishes(r) =>
        BusyStored(up, range, p, r);
        RunnerMoves(up, range, p, after, r);
      case Writes(r) =>
        var item, page := p.runners[r].item, p.runners[r].page;
        var served := PagesOf(up, range, item)[page];
        PageRetains(p.db, served.derived, RowsOn(up.issuers[item], served));
        var written := p.(db := after.db);
        DbGrows(up, range, p, written);
        BusyStored(up, range, written, r);
        OnePageMore(up, range, written.db, item, page);
        RunnerMoves(up, range, written, after, r);
    }
  }

  lemma StartStored(up: Upstream, range: Range, db: Db, item: nat)
    requires item < |up.issuers|
    ensures PagesStored(up, range, db, item, 0)
  {
  }

  lemma BusyStored(up: Upstream, range: Range, p: Pool, r: nat)
    requires Inv(up, range, p) && r < |p.runners|
    ensures p.next <= |up.issuers|
    ensures p.runners[r].Sweeping? ==>
              PagesStored(up, range, p.db, p.runners[r].item, p.runners[r].page) && p.runners[r].item < p.next
    ensures p.runners[r].Sweeping? && p.runners[r].page >= |PagesOf(up, range, p.runners[r].item)| ==>
              Whole(up, range, p.db, p.runners[r].item)
  {
    hide RowsOn, Absorbed;
  }

  lemma OnePageMore(up: Upstream, range: Range, db: Db, item: nat, page: nat)
    requires PagesStored(up, range, db, item, page) && page < |PagesOf(up, range, item)|
    requires Stored(db, RowsOn(up.issuers[item], PagesOf(up, range, item)[page]))
    ensures PagesStored(up, range, db, item, page + 1)
  {
    hide RowsOn, Absorbed;
  }

  ghost predicate Possible(up: Upstream, range: Range, p: Pool, run: seq<Move>)
    decreases |run|
  {
    run == [] || (Able(up, range, p, run[0]) && Possible(up, range, Step(up, range, p, run[0]), run[1..]))
  }

  ghost function After(up: Upstream, range: Range, p: Pool, run: seq<Move>): Pool
    requires Possible(up, range, p, run)
    decreases |run|
  {
    if run == [] then p else After(up, range, Step(up, range, p, run[0]), run[1..])
  }

  lemma {:induction false} RunKeepsInv(up: Upstream, range: Range, p: Pool, run: seq<Move>)
    requires Inv(up, range, p) && Possible(up, range, p, run)
    ensures Inv(up, range, After(up, range, p, run)) && |After(up, range, p, run).runners| == |p.runners|
    decreases |run|
  {
    hide Inv, Able, Page, ArriveAll, RowsOn;
    if run != [] {
      MoveKeepsInv(up, range, p, run[0]);
      RunKeepsInv(up, range, Step(up, range, p, run[0]), run[1..]);
    }
  }

  /** However the runners interleave with each other and with everything else, once they have all gone
      every row kept of every issuer's pages over the range is stored. */
  lemma PoolHeals(up: Upstream, range: Range, p: Pool, run: seq<Move>)
    requires |p.runners| > 0 && p.next == 0 && forall r :: 0 <= r < |p.runners| ==> p.runners[r].Free?
    requires Possible(up, range, p, run)
    requires forall r :: 0 <= r < |After(up, range, p, run).runners| ==> After(up, range, p, run).runners[r].Gone?
    ensures RangeStored(up, After(up, range, p, run).db, up.issuers, range)
  {
    hide Possible, After, RowsOn, Absorbed;
    RunKeepsInv(up, range, p, run);
    var end := After(up, range, p, run);
    assert end.runners[0].Gone?;
    forall issuer, page | issuer in up.issuers && page in up.pages(issuer, range)
      ensures Stored(end.db, RowsOn(issuer, page))
    {
      var item :| 0 <= item < |up.issuers| && up.issuers[item] == issuer;
      assert Whole(up, range, end.db, item) by {
        if BeingSwept(end, item) {
          assert false;
        }
      }
      var k :| 0 <= k < |PagesOf(up, range, item)| && PagesOf(up, range, item)[k] == page;
    }
  }

  // ---- A pool's run as arrivals ----

  ghost function ArrivalsOf(up: Upstream, range: Range, p: Pool, run: seq<Move>): seq<Arrival>
    requires Possible(up, range, p, run)
    decreases |run|
  {
    if run == [] then []
    else
      (match run[0]
       case Elsewhere(arrivals) => arrivals
       case Writes(r) =>
         var served := PagesOf(up, range, p.runners[r].item)[p.runners[r].page];
         Hooked(RowsOn(up.issuers[p.runners[r].item], served), served.derived)
       case _ => [])
      + ArrivalsOf(up, range, Step(up, range, p, run[0]), run[1..])
  }

  lemma {:induction false} PoolIsArrivals(up: Upstream, range: Range, p: Pool, run: seq<Move>)
    requires Possible(up, range, p, run)
    ensures After(up, range, p, run).db == ArriveAll(p.db, ArrivalsOf(up, range, p, run))
    decreases |run|
  {
    hide Page, RowsOn, ArriveAll, Hooked;
    if run == [] {
      NoArrivals(p.db);
    } else {
      var next := Step(up, range, p, run[0]);
      PoolIsArrivals(up, range, next, run[1..]);
      var rest := ArrivalsOf(up, range, next, run[1..]);
      match run[0] {
        case Elsewhere(arrivals) =>
          ArriveAllAppend(p.db, arrivals, rest);
        case Writes(r) =>
          var served := PagesOf(up, range, p.runners[r].item)[p.runners[r].page];
          var rows := RowsOn(up.issuers[p.runners[r].item], served);
          PageIsArrivals(p.db, served.derived, rows);
          ArriveAllAppend(p.db, Hooked(rows, served.derived), rest);
        case _ =>
          assert [] + rest == rest;
      }
    }
  }

  // ---- The pool ends ----

  /** The moves that issuers not taken yet will need: to take it, to write each of its pages, to finish it. */
  function Untaken(up: Upstream, range: Range, from: nat): nat
    requires from <= |up.issuers|
    decreases |up.issuers| - from
  {
    if from == |up.issuers| then 0 else |PagesOf(up, range, from)| + 2 + Untaken(up, range, from + 1)
  }

  predicate Within(up: Upstream, range: Range, r: Runner) {
    r.Sweeping? ==> r.item < |up.issuers| && r.page <= |PagesOf(up, range, r.item)|
  }

  /** The moves a runner has ahead of it, up to when it leaves. */
  function Ahead(up: Upstream, range: Range, r: Runner): nat
    requires Within(up, range, r)
  {
    match r
    case Gone => 0
    case Free => 1
    case Sweeping(item, page) => |PagesOf(up, range, item)| - page + 2
  }

  predicate AllWithin(up: Upstream, range: Range, runners: seq<Runner>) {
    forall r :: 0 <= r < |runners| ==> Within(up, range, runners[r])
  }

  function AllAhead(up: Upstream, range: Range, runners: seq<Runner>): nat
    requires AllWithin(up, range, runners)
  {
    if runners == [] then 0
    else AllAhead(up, range, runners[..|runners| - 1]) + Ahead(up, range, runners[|runners| - 1])
  }

  lemma {:induction false} AheadMoves(up: Upstream, range: Range, runners: seq<Runner>, r: nat, after: Runner)
    requires AllWithin(up, range, runners) && r < |runners| && Within(up, range, after)
    ensures AllWithin(up, range, runners[r := after])
    ensures AllAhead(up, range, runners[r := after]) ==
            AllAhead(up, range, runners) - Ahead(up, range, runners[r]) + Ahead(up, range, after)
  {
    hide Ahead, Within;
    var n := |runners| - 1;
    if r == n {
      assert runners[r := after][..n] == runners[..n];
    } else {
      AheadMoves(up, range, runners[..n], r, after);
      assert runners[r := after][..n] == runners[..n][r := after];
    }
  }

  lemma {:induction false} NothingAhead(up: Upstream, range: Range, runners: seq<Runner>)
    requires AllWithin(up, range, runners)
    ensures AllAhead(up, range, runners) == 0 <==> forall r :: 0 <= r < |runners| ==> runners[r].Gone?
    ensures (forall r :: 0 <= r < |runners| ==> runners[r].Free?) ==> AllAhead(up, range, runners) == |runners|
  {
    if runners != [] {
      NothingAhead(up, range, runners[..|runners| - 1]);
    }
  }

  ghost predicate InBounds(up: Upstream, range: Range, p: Pool) {
    p.next <= |up.issuers| && AllWithin(up, range, p.runners)
  }

  ghost function Work(up: Upstream, range: Range, p: Pool): nat
    requires InBounds(up, range, p)
  {
    Untaken(up, range, p.next) + AllAhead(up, range, p.runners)
  }

  /** Every move of a runner is one of those it had ahead. */
  lemma MoveWorks(up: Upstream, range: Range, p: Pool, m: Move)
    requires InBounds(up, range, p) && Able(up, range, p, m)
    ensures var after := Step(up, range, p, m);
            InBounds(up, range, after) && Work(up, range, after) == Work(up, range, p) - if m.Elsewhere? then 0 else 1
  {
    hide RowsOn, Absorbed, Page, ArriveAll, AllAhead, AllWithin, Unwritable;
    if !m.Elsewhere? {
      assert Within(up, range, p.runners[m.r]) by {
        OneWithin(up, range, p.runners, m.r);
      }
      AheadMoves(up, range, p.runners, m.r, Step(up, range, p, m).runners[m.r]);
    }
  }

  lemma OneWithin(up: Upstream, range: Range, runners: seq<Runner>, r: nat)
    requires AllWithin(up, range, runners) && r < |runners|
    ensures Within(up, range, runners[r])
  {
  }

  function OwnMoves(run: seq<Move>): nat {
    if run == [] then 0 else OwnMoves(run[1..]) + if run[0].Elsewhere? then 0 else 1
  }

  lemma {:induction false} RunWorks(up: Upstream, range: Range, p: Pool, run: seq<Move>)
    requires InBounds(up, range, p) && Possible(up, range, p, run)
    ensures var end := After(up, range, p, run);
            InBounds(up, range, end) && Work(up, range, end) + OwnMoves(run) == Work(up, range, p)
    decreases |run|
  {
    hide InBounds, Able, Step, Work;
    if run != [] {
      MoveWorks(up, range, p, run[0]);
      RunWorks(up, range, Step(up, range, p, run[0]), run[1..]);
    }
  }

  /** However a pool's runners interleave, they make one move for each page, two for each issuer and one for each runner,
      and no more; they have all gone when these are made; and until then, when no page is refused, any that has not gone
      can go on. */
  lemma PoolEnds(up: Upstream, range: Range, p: Pool, run: seq<Move>)
    requires |p.runners| > 0 && p.next == 0 && forall r :: 0 <= r < |p.runners| ==> p.runners[r].Free?
    requires Possible(up, range, p, run)
    ensures OwnMoves(run) <= Untaken(up, range, 0) + |p.runners|
    ensures var end := After(up, range, p, run);
            && |end.runners| == |p.runners|
            && (OwnMoves(run) == Untaken(up, range, 0) + |p.runners| <==> forall r :: 0 <= r < |end.runners| ==> end.runners[r].Gone?)
            && (!RefusedIn(up, range) ==>
                  forall r :: 0 <= r < |end.runners| && !end.runners[r].Gone? ==> GoesOn(up, range, end, r))
  {
    hide Possible, After, Able, RowsOn, Absorbed, AllAhead, Untaken, RefusedIn, PagesStored;
    var end := After(up, range, p, run);
    RunKeepsInv(up, range, p, run);
    NothingAhead(up, range, p.runners);
    RunWorks(up, range, p, run);
    NothingAhead(up, range, end.runners);
    if forall r :: 0 <= r < |end.runners| ==> end.runners[r].Gone? {
      assert end.runners[0].Gone?;
      NoneUntaken(up, range);
    }
    if !RefusedIn(up, range) {
      forall r | 0 <= r < |end.runners| && !end.runners[r].Gone? ensures GoesOn(up, range, end, r) {
        UnrefusedGoesOn(up, range, end, r);
      }
    }
  }

  lemma NoneUntaken(up: Upstream, range: Range)
    ensures Untaken(up, range, |up.issuers|) == 0
  {
  }

  lemma UnrefusedGoesOn(up: Upstream, range: Range, p: Pool, r: nat)
    requires InBounds(up, range, p) && !RefusedIn(up, range) && r < |p.runners| && !p.runners[r].Gone?
    ensures GoesOn(up, range, p, r)
  {
    hide Able, RowsOn, SomeRefused;
    if p.runners[r].Sweeping? && p.runners[r].page < |PagesOf(up, range, p.runners[r].item)| {
      var issuer, page := up.issuers[p.runners[r].item], PagesOf(up, range, p.runners[r].item)[p.runners[r].page];
      assert issuer in up.issuers && page in up.pages(issuer, range);
    }
    RunnerGoesOn(up, range, p, r);
  }
}
