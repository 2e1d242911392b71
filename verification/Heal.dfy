/** Healing a gap by paging every issuer over it (src/livetail/gapFill.ts:60-146). */
module Heal {
  import opened Options
  import opened Metadata
  import opened Tables
  import opened Ingest
  import opened Derive
  import opened Rederive
  import opened Arrivals
  import opened Holders
  import opened Backfill
  import opened GapTracking
  import opened BatchWriter
  import opened PagePlans
  import opened Worker

  /** A page of `account_tx` as it is served, with what is tracked and what is derived when it is written. */
  datatype Served = Served(entries: seq<AccountTx>, tracked: seq<Issuance>, derived: seq<Issuance>)

  /** The issuers in scope, what is derived for a delivered transaction, and the upstream's answer to `account_tx`
      on an issuer over a range of ledgers. */
  datatype Upstream = Upstream(issuers: seq<string>, derived: seq<Issuance>, pages: (string, Range) -> seq<Served>)

  /** The rows kept of a page. */
  function RowsOn(issuer: string, page: Served): seq<IngestTx> {
    KeptOf(page.tracked, issuer, page.entries)
  }

  predicate Unwritable(issuer: string, page: Served) {
    RefusesPage(page.derived, RowsOn(issuer, page))
  }

  function HealPages(db: Db, issuer: string, pages: seq<Served>): Db {
    if pages == [] then db
    else
      Page(HealPages(db, issuer, pages[..|pages| - 1]), pages[|pages| - 1].derived, RowsOn(issuer, pages[|pages| - 1]))
  }

  function HealEach(up: Upstream, db: Db, issuers: seq<string>, range: Range): Db {
    if issuers == [] then db
    else
      var issuer := issuers[|issuers| - 1];
      HealPages(HealEach(up, db, issuers[..|issuers| - 1], range), issuer, up.pages(issuer, range))
  }

  function CountPages(issuer: string, pages: seq<Served>): nat {
    if pages == [] then 0
    else CountPages(issuer, pages[..|pages| - 1]) + |RowsOn(issuer, pages[|pages| - 1])|
  }

  function CountEach(up: Upstream, issuers: seq<string>, range: Range): nat {
    if issuers == [] then 0
    else
      var issuer := issuers[|issuers| - 1];
      CountEach(up, issuers[..|issuers| - 1], range) + CountPages(issuer, up.pages(issuer, range))
  }

  /** The texts of the kept links of each page tell them apart. */
  ghost predicate PagesTell(issuer: string, pages: seq<Served>) {
    forall page :: page in pages ==> Tells(RowsOn(issuer, page))
  }

  ghost predicate UpstreamTells(up: Upstream, range: Range) {
    forall issuer :: issuer in up.issuers ==> PagesTell(issuer, up.pages(issuer, range))
  }

  /** How many come before the first that is false. */
  function Leading(marks: seq<bool>): (n: nat)
    ensures n <= |marks|
  {
    if marks == [] || !marks[0] then 0 else 1 + Leading(marks[1..])
  }

  lemma {:induction false} LeadingIs(marks: seq<bool>)
    ensures var n := Leading(marks); (n < |marks| ==> !marks[n]) && forall k :: 0 <= k < n ==> marks[k]
  {
    if marks != [] && marks[0] {
      LeadingIs(marks[1..]);
      assert forall k :: 0 < k < Leading(marks) ==> marks[k] == marks[1..][k - 1];
    }
  }

  function Written(issuer: string, pages: seq<Served>): (r: seq<bool>)
    ensures |r| == |pages| && forall k :: 0 <= k < |r| ==> r[k] == !Unwritable(issuer, pages[k])
  {
    seq(|pages|, k requires 0 <= k < |pages| => !Unwritable(issuer, pages[k]))
  }

  /** How many of the pages come before the first that the delta writer refuses. */
  function Writable(issuer: string, pages: seq<Served>): (n: nat)
    ensures n <= |pages|
  {
    Leading(Written(issuer, pages))
  }

  lemma WritableIs(issuer: string, pages: seq<Served>, k: nat)
    requires k < |pages|
    ensures k < Writable(issuer, pages) ==> !Unwritable(issuer, pages[k])
    ensures k == Writable(issuer, pages) ==> Unwritable(issuer, pages[k])
  {
    hide Unwritable, Leading, Written;
    LeadingIs(Written(issuer, pages));
  }

  predicate Heals(up: Upstream, issuer: string, range: Range) {
    Writable(issuer, up.pages(issuer, range)) == |up.pages(issuer, range)|
  }

  function HealsEach(up: Upstream, issuers: seq<string>, range: Range): (r: seq<bool>)
    ensures |r| == |issuers| && forall k :: 0 <= k < |r| ==> r[k] == Heals(up, issuers[k], range)
  {
    seq(|issuers|, k requires 0 <= k < |issuers| => Heals(up, issuers[k], range))
  }

  /** How many of the issuers come before the first with such a page. */
  function Healable(up: Upstream, issuers: seq<string>, range: Range): (n: nat)
    ensures n <= |issuers|
  {
    Leading(HealsEach(up, issuers, range))
  }

  lemma HealableIs(up: Upstream, issuers: seq<string>, range: Range, k: nat)
    requires k < |issuers|
    ensures k < Healable(up, issuers, range) ==> Heals(up, issuers[k], range)
    ensures k == Healable(up, issuers, range) ==> !Heals(up, issuers[k], range)
  {
    hide Heals, Leading, HealsEach;
    LeadingIs(HealsEach(up, issuers, range));
  }

  /** Some issuer's page over the range is refused. */
  ghost predicate RefusedIn(up: Upstream, range: Range) {
    exists issuer, page :: issuer in up.issuers && page in up.pages(issuer, range) && SomeRefused(page.derived, RowsOn(issuer, page))
  }

  lemma HealsExactlyWhen(up: Upstream, issuer: string, range: Range)
    ensures Heals(up, issuer, range) <==> forall page :: page in up.pages(issuer, range) ==> !SomeRefused(page.derived, RowsOn(issuer, page))
  {
    hide RefusesPage, SomeRefused, RowsOn, Writable;
    forall page ensures Unwritable(issuer, page) <==> SomeRefused(page.derived, RowsOn(issuer, page)) {
      RefusesExactlyWhen(page.derived, RowsOn(issuer, page));
    }
    var pages := up.pages(issuer, range);
    var n := Writable(issuer, pages);
    if n < |pages| {
      WritableIs(issuer, pages, n);
      assert pages[n] in pages;
    } else {
      forall page | page in pages ensures !Unwritable(issuer, page) {
        var k :| 0 <= k < |pages| && pages[k] == page;
        WritableIs(issuer, pages, k);
      }
    }
  }

  /** A heal is cut short if and only if some page of it is refused. */
  lemma HealStopsExactlyWhen(up: Upstream, range: Range)
    ensures Healable(up, up.issuers, range) < |up.issuers| <==> RefusedIn(up, range)
  {
    hide RowsOn, SomeRefused, Heals, Healable;
    var n := Healable(up, up.issuers, range);
    if n < |up.issuers| {
      HealableIs(up, up.issuers, range, n);
      HealsExactlyWhen(up, up.issuers[n], range);
      assert up.issuers[n] in up.issuers;
    } else if issuer, page :| issuer in up.issuers && page in up.pages(issuer, range) && SomeRefused(page.derived, RowsOn(issuer, page)) {
      var k :| 0 <= k < |up.issuers| && up.issuers[k] == issuer;
      HealableIs(up, up.issuers, range, k);
      HealsExactlyWhen(up, issuer, range);
    }
  }

  /** What a heal leaves: everything, or what it wrote before the page that was refused. */
  function Healed(up: Upstream, db: Db, range: Range): Db {
    var n := Healable(up, up.issuers, range);
    var done := HealEach(up, db, up.issuers[..n], range);
    if n == |up.issuers| then done
    else
      var pages := up.pages(up.issuers[n], range);
      HealPages(done, up.issuers[n], pages[..Writable(up.issuers[n], pages)])
  }

  method MapEntries(tracked: seq<Issuance>, issuer: string, entries: seq<AccountTx>) returns (batch: seq<IngestTx>)
    ensures batch == KeptOf(tracked, issuer, entries)
  {
    hide Mapped;
    batch := [];
    for n := 0 to |entries|
      invariant batch == KeptOf(tracked, issuer, entries[..n])
    {
      assert entries[..n + 1][..n] == entries[..n];
      var mapped := MapEntry(tracked, issuer, entries[n]);
      if mapped.Some? {
        batch := batch + [mapped.value];
      }
    }
    assert entries[..|entries|] == entries;
  }

  /** One issuer's pages, up to the first that is refused. */
  method SweepIssuer(a: Archive, up: Upstream, issuer: string, range: Range) returns (ok: bool, count: nat)
    requires PagesTell(issuer, up.pages(issuer, range))
    modifies a
    ensures ok <==> Heals(up, issuer, range)
    ensures var pages := up.pages(issuer, range); var written := pages[..Writable(issuer, pages)];
            a.Contents() == HealPages(old(a.Contents()), issuer, written) && count == CountPages(issuer, written)
  {
    hide Page, KeptOf, Tells, RefusesPage, Writable, IsPlan;
    var pages := up.pages(issuer, range);
    count := 0;
    var n := 0;
    while n < |pages|
      invariant n <= Writable(issuer, pages) && count == CountPages(issuer, pages[..n])
      invariant a.Contents() == HealPages(old(a.Contents()), issuer, pages[..n])
    {
      var before := a.Contents();
      assert pages[..n + 1][..n] == pages[..n];
      assert pages[n] in pages;
      var batch := MapEntries(pages[n].tracked, issuer, pages[n].entries);
      EmptyPage(a.Contents(), pages[n].derived, batch);
      WritableIs(issuer, pages, n);
      if |batch| == 0 {
        n := n + 1;
        continue;
      }
      var locks;
      ok, locks := WriteRows(a, pages[n].derived, batch);
      if !ok {
        a.Restore(before);
        return;
      }
      n := n + 1;
      count := count + |batch|;
    }
    assert pages[..n] == pages;
    ok := true;
  }

  lemma EmptyPage(db: Db, derived: seq<Issuance>, batch: seq<IngestTx>)
    ensures batch == [] ==> Page(db, derived, batch) == db && !RefusesPage(derived, batch)
  {
  }

  /** The heal with one issuer at a time; the pool below lets several run at once. */
  method BackfillGap(a: Archive, up: Upstream, range: Range) returns (ok: bool, count: nat)
    requires UpstreamTells(up, range)
    modifies a
    ensures ok <==> Healable(up, up.issuers, range) == |up.issuers|
    ensures a.Contents() == Healed(up, old(a.Contents()), range)
    ensures ok ==> a.Contents() == HealEach(up, old(a.Contents()), up.issuers, range) && count == CountEach(up, up.issuers, range)
  {
    hide HealPages, CountPages, PagesTell, Writable, Healable, Heals;
    count := 0;
    var next := 0;
    while next < |up.issuers|
      invariant next <= Healable(up, up.issuers, range) && count == CountEach(up, up.issuers[..next], range)
      invariant a.Contents() == HealEach(up, old(a.Contents()), up.issuers[..next], range)
    {
      assert up.issuers[..next + 1][..next] == up.issuers[..next];
      assert up.issuers[next] in up.issuers;
      var more;
      ok, more := SweepIssuer(a, up, up.issuers[next], range);
      HealableIs(up, up.issuers, range, next);
      if !ok {
        return;
      }
      AllWritable(up, up.issuers[next], range);
      next := next + 1;
      count := count + more;
    }
    assert up.issuers[..next] == up.issuers;
    ok := true;
  }

  lemma AllWritable(up: Upstream, issuer: string, range: Range)
    requires Heals(up, issuer, range)
    ensures var pages := up.pages(issuer, range); pages[..Writable(issuer, pages)] == pages
  {
  }

  lemma HealedInFull(up: Upstream, db: Db, range: Range)
    requires Healable(up, up.issuers, range) == |up.issuers|
    ensures Healed(up, db, range) == HealEach(up, db, up.issuers, range)
  {
    assert up.issuers[..|up.issuers|] == up.issuers;
  }

  // ---- What a heal leaves stored ----

  /** Nothing stored is lost. */
  ghost predicate Retains(db: Db, after: Db) {
    forall tx :: Absorbed(db, tx) ==> Absorbed(after, tx)
  }

  ghost predicate Remembers(db: Db, after: Db) {
    Retains(db, after) && db.transactions.Keys <= after.transactions.Keys
  }

  lemma PageRetains(db: Db, tracked: seq<Issuance>, txs: seq<IngestTx>)
    ensures Remembers(db, Page(db, tracked, txs)) && Stored(Page(db, tracked, txs), txs)
  {
    hide Absorbed, Page;
    forall tx | Absorbed(db, tx) ensures Absorbed(Page(db, tracked, txs), tx) {
      PageStores(db, tracked, txs, [tx]);
      assert tx in [tx] + txs;
    }
    PageStores(db, tracked, txs, []);
    assert [] + txs == txs;
    PageKeepsHashes(db, tracked, txs);
  }

  lemma PageKeepsHashes(db: Db, tracked: seq<Issuance>, txs: seq<IngestTx>)
    ensures db.transactions.Keys <= Page(db, tracked, txs).transactions.Keys
  {
    hide InsertEach, DeriveEach;
    DeriveEachOnly(InsertEach(db, txs), tracked, txs);
    EachKeepsHashes(db, txs);
  }

  lemma {:induction false} EachKeepsHashes(db: Db, txs: seq<IngestTx>)
    ensures db.transactions.Keys <= InsertEach(db, txs).transactions.Keys
  {
    if txs != [] {
      EachKeepsHashes(db, txs[..|txs| - 1]);
    }
  }

  lemma {:induction false} ArrivalsRemember(db: Db, arrivals: seq<Arrival>)
    ensures Remembers(db, ArriveAll(db, arrivals))
  {
    hide Absorbed, Page, Arrive;
    if arrivals != [] {
      var last := arrivals[|arrivals| - 1];
      var mid := ArriveAll(db, arrivals[..|arrivals| - 1]);
      ArrivalsRemember(db, arrivals[..|arrivals| - 1]);
      ArriveIsPage(mid, last);
      PageRetains(mid, last.hook, [last.tx]);
    }
  }

  // ---- A heal as arrivals ----

  function PageArrivals(issuer: string, pages: seq<Served>): seq<Arrival> {
    if pages == [] then []
    else PageArrivals(issuer, pages[..|pages| - 1]) + Hooked(RowsOn(issuer, pages[|pages| - 1]), pages[|pages| - 1].derived)
  }

  function HealArrivals(up: Upstream, issuers: seq<string>, range: Range): seq<Arrival> {
    if issuers == [] then []
    else
      var issuer := issuers[|issuers| - 1];
      HealArrivals(up, issuers[..|issuers| - 1], range) + PageArrivals(issuer, up.pages(issuer, range))
  }

  lemma {:induction false} HealPagesIsArrivals(db: Db, issuer: string, pages: seq<Served>)
    ensures HealPages(db, issuer, pages) == ArriveAll(db, PageArrivals(issuer, pages))
  {
    hide Page, RowsOn, ArriveAll;
    if pages == [] {
      NoArrivals(db);
    } else {
      var front, last := pages[..|pages| - 1], pages[|pages| - 1];
      HealPagesIsArrivals(db, issuer, front);
      PageIsArrivals(HealPages(db, issuer, front), last.derived, RowsOn(issuer, last));
      ArriveAllAppend(db, PageArrivals(issuer, front), Hooked(RowsOn(issuer, last), last.derived));
    }
  }

  lemma {:induction false} HealIsArrivals(up: Upstream, db: Db, issuers: seq<string>, range: Range)
    ensures HealEach(up, db, issuers, range) == ArriveAll(db, HealArrivals(up, issuers, range))
  {
    hide HealPages, PageArrivals, ArriveAll;
    if issuers == [] {
      NoArrivals(db);
    } else {
      var front, last := issuers[..|issuers| - 1], issuers[|issuers| - 1];
      HealIsArrivals(up, db, front, range);
      HealPagesIsArrivals(HealEach(up, db, front, range), last, up.pages(last, range));
      ArriveAllAppend(db, HealArrivals(up, front, range), PageArrivals(last, up.pages(last, range)));
    }
  }

  lemma {:induction false} PagesCount(issuer: string, pages: seq<Served>)
    ensures CountPages(issuer, pages) == |PageArrivals(issuer, pages)|
  {
    hide RowsOn;
    if pages != [] {
      PagesCount(issuer, pages[..|pages| - 1]);
    }
  }

  /** The count a heal reports is the number of rows that arrive by it. */
  lemma {:induction false} CountIsArrivals(up: Upstream, issuers: seq<string>, range: Range)
    ensures CountEach(up, issuers, range) == |HealArrivals(up, issuers, range)|
  {
    hide CountPages, PageArrivals;
    if issuers != [] {
      var issuer := issuers[|issuers| - 1];
      CountIsArrivals(up, issuers[..|issuers| - 1], range);
      PagesCount(issuer, up.pages(issuer, range));
    }
  }

  /** What arrives by a heal that may be cut short. */
  function HealedArrivals(up: Upstream, range: Range): seq<Arrival> {
    var n := Healable(up, up.issuers, range);
    var done := HealArrivals(up, up.issuers[..n], range);
    if n == |up.issuers| then done
    else
      var pages := up.pages(up.issuers[n], range);
      done + PageArrivals(up.issuers[n], pages[..Writable(up.issuers[n], pages)])
  }

  lemma HealedIsArrivals(up: Upstream, db: Db, range: Range)
    ensures Healed(up, db, range) == ArriveAll(db, HealedArrivals(up, range))
  {
    hide HealEach, HealPages, HealArrivals, PageArrivals, ArriveAll, Healable, Writable;
    var n := Healable(up, up.issuers, range);
    var done := HealEach(up, db, up.issuers[..n], range);
    HealIsArrivals(up, db, up.issuers[..n], range);
    if n < |up.issuers| {
      var pages := up.pages(up.issuers[n], range);
      var part := pages[..Writable(up.issuers[n], pages)];
      HealPagesIsArrivals(done, up.issuers[n], part);
      ArriveAllAppend(db, HealArrivals(up, up.issuers[..n], range), PageArrivals(up.issuers[n], part));
    }
  }

  lemma {:induction false} HealPagesStores(db: Db, issuer: string, pages: seq<Served>)
    ensures Remembers(db, HealPages(db, issuer, pages))
    ensures forall page :: page in pages ==> Stored(HealPages(db, issuer, pages), RowsOn(issuer, page))
  {
    hide Page, RowsOn, Absorbed;
    if pages != [] {
      var front, last := pages[..|pages| - 1], pages[|pages| - 1];
      assert pages == front + [last];
      HealPagesStores(db, issuer, front);
      PageRetains(HealPages(db, issuer, front), last.derived, RowsOn(issuer, last));
    }
  }

  /** Every row kept of any issuer's pages over the range. */
  ghost predicate RangeStored(up: Upstream, db: Db, issuers: seq<string>, range: Range) {
    forall issuer, page :: issuer in issuers && page in up.pages(issuer, range) ==> Stored(db, RowsOn(issuer, page))
  }

  lemma {:induction false} HealStores(up: Upstream, db: Db, issuers: seq<string>, range: Range)
    ensures Remembers(db, HealEach(up, db, issuers, range))
    ensures RangeStored(up, HealEach(up, db, issuers, range), issuers, range)
  {
    hide HealPages, RowsOn, Absorbed;
    if issuers != [] {
      var front, last := issuers[..|issuers| - 1], issuers[|issuers| - 1];
      assert issuers == front + [last];
      HealStores(up, db, front, range);
      HealPagesStores(HealEach(up, db, front, range), last, up.pages(last, range));
    }
  }
}
