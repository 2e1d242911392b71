/** The issuer sweep: one account_tx walk that finds an issuance's holders and backfills them all
    (src/backfill/issuerSweep.ts:117-270). */
module Sweep {
  import opened Options
  import opened Ordering
  import opened Metadata
  import opened Tables
  import opened Writers
  import opened BatchWriter
  import opened Derive
  import opened Rederive
  import opened PagePlans
  import opened Arrivals
  import opened Holders
  import opened Jobs
  import opened Backfill
  import opened Worker

  /** The issuance swept, its issuer, the issuances whose deltas are derived, the issuer's pages as the
      upstream serves them, and the job. */
  datatype Survey = Survey(issuance: Issuance, issuer: string, derived: seq<Issuance>, chain: seq<seq<AccountTx>>, job: int)

  /** The rows kept of a page of the sweep. */
  function Batch(s: Survey, entries: seq<AccountTx>): seq<IngestTx> {
    KeptOf([s.issuance], s.issuer, entries)
  }

  /** The earliest ledger of the page at which each account but the issuer shows. */
  function Noted(firsts: map<string, int>, accounts: set<string>, ledger: int): map<string, int> {
    map a | a in firsts.Keys + accounts ::
      if a in firsts && !(a in accounts && ledger < firsts[a]) then firsts[a] else ledger
  }

  function Firsts(issuer: string, batch: seq<IngestTx>): map<string, int> {
    if batch == [] then map[]
    else
      var tx := batch[|batch| - 1];
      Noted(Firsts(issuer, batch[..|batch| - 1]), Elements(tx.accounts) - {issuer}, tx.row.ledger)
  }

  function ScopeKeys(id: int, accounts: set<string>): set<(string, int)> {
    set a | a in accounts :: (a, id)
  }

  /** Discovered holders join the scope, keeping the earliest ledger; NULL is ignored. */
  function MergeHolders(t: map<(string, int), Option<int>>, id: int, firsts: map<string, int>): map<(string, int), Option<int>> {
    map h | h in t.Keys + ScopeKeys(id, firsts.Keys) ::
      if h.1 == id && h.0 in firsts then Least(Lookup(t, h), Some(firsts[h.0])) else t[h]
  }

  function RecordAll(db: Db, id: int, firsts: map<string, int>): Db {
    db.(accounts := MergeEarliest(db.accounts, firsts), holders := MergeHolders(db.holders, id, firsts))
  }

  // ---- The claim ----

  /** The accounts in scope for the issuance. */
  function InScope(holders: map<(string, int), Option<int>>, id: int): set<string> {
    set h | h in holders && h.1 == id :: h.0
  }

  /** `min(first_acquisition_ledger)`: NULLs are ignored. */
  function Earliest(holders: map<(string, int), Option<int>>, id: int, names: seq<string>): Option<int> {
    if names == [] then None
    else Least(Earliest(holders, id, names[..|names| - 1]), Lookup(holders, (names[|names| - 1], id)))
  }

  function Floor(lo: Option<int>, from: int, to: int): int {
    var floor := if lo.None? || lo.value < from then from else lo.value;
    if floor < to then floor else to
  }

  function ClaimRows(names: seq<string>, floor: int, to: int): (r: seq<Coverage>)
    ensures |r| == |names| && forall k :: 0 <= k < |r| ==> r[k] == Coverage(names[k], floor, to)
  {
    seq(|names|, k requires 0 <= k < |names| => Coverage(names[k], floor, to))
  }

  function Claim(db: Db, id: int, issuer: string, from: int, to: int): Db {
    var names := SortedNames(InScope(db.holders, id));
    var floor := Floor(Earliest(db.holders, id, names), from, to);
    db.(coverage := db.coverage + ClaimRows(names + [issuer], floor, to))
  }

  /** A page's database transaction. */
  function CommitSweep(s: Survey, db: Db, page: nat, highWater: int): Db
    requires page < |s.chain|
  {
    var kept := Batch(s, s.chain[page]);
    var rows := Page(db, s.derived, kept);
    var recorded := RecordAll(rows, s.issuance.id, Firsts(s.issuer, kept));
    var final := page + 1 == |s.chain|;
    var marked := recorded.(jobs := Checkpointed(db.jobs, s.job, if final then None else Some(page + 1), |kept|));
    if final && s.job in db.jobs
    then
      var claimed := Claim(marked, s.issuance.id, s.issuer, From(db.jobs[s.job]), highWater);
      claimed.(jobs := Done(claimed.jobs, s.job))
    else marked
  }

  // ---- The claim's bounds ----

  lemma ClaimBounds(lo: Option<int>, from: int, to: int)
    requires from <= to
    ensures from <= Floor(lo, from, to) <= to
    ensures Floor(lo, from, to) == to || Floor(lo, from, to) == from || lo == Some(Floor(lo, from, to))
  {
  }

  lemma {:induction false} EarliestIsLowest(holders: map<(string, int), Option<int>>, id: int, names: seq<string>, a: string)
    requires a in names && Lookup(holders, (a, id)).Some?
    ensures Earliest(holders, id, names).Some? && Earliest(holders, id, names).value <= Lookup(holders, (a, id)).value
  {
    var n := |names| - 1;
    if names[n] != a {
      assert a in names[..n];
      EarliestIsLowest(holders, id, names[..n], a);
    }
  }

  /** A kept row some holder of which is recorded from that ledger or before is above the claim's floor. */
  ghost predicate Discovered(db: Db, id: int, tx: IngestTx) {
    exists a :: a in tx.accounts && Since(db.holders, id, a, tx.row.ledger)
  }

  predicate Since(holders: map<(string, int), Option<int>>, id: int, a: string, ledger: int) {
    (a, id) in holders && holders[(a, id)].Some? && holders[(a, id)].value <= ledger
  }

  lemma FloorBelowDiscovered(db: Db, id: int, from: int, to: int, tx: IngestTx)
    requires Discovered(db, id, tx) && from <= tx.row.ledger
    ensures Floor(Earliest(db.holders, id, SortedNames(InScope(db.holders, id))), from, to) <= tx.row.ledger
  {
    hide SortedNames, Earliest;
    var a :| a in tx.accounts && Since(db.holders, id, a, tx.row.ledger);
    var names := SortedNames(InScope(db.holders, id));
    assert (a, id) in db.holders && a in InScope(db.holders, id);
    EarliestIsLowest(db.holders, id, names, a);
  }

  // ---- The sweep as it runs ----

  method MapPage(s: Survey, entries: seq<AccountTx>, high: int) returns (batch: seq<IngestTx>, firsts: map<string, int>, highWater: int)
    ensures batch == Batch(s, entries) && firsts == Firsts(s.issuer, batch) && highWater == Highest(batch, high)
  {
    hide Mapped, Noted;
    batch, firsts, highWater := [], map[], high;
    for n := 0 to |entries|
      invariant batch == Batch(s, entries[..n]) && firsts == Firsts(s.issuer, batch) && highWater == Highest(batch, high)
    {
      assert entries[..n + 1][..n] == entries[..n];
      var mapped := MapEntry([s.issuance], s.issuer, entries[n]);
      if mapped.Some? {
        var row := mapped.value;
        assert (batch + [row])[..|batch|] == batch;
        batch := batch + [row];
        if row.row.ledger > highWater {
          highWater := row.row.ledger;
        }
        firsts := NoteAccounts(firsts, row.accounts, s.issuer, row.row.ledger);
      }
    }
    assert entries[..|entries|] == entries;
  }

  method NoteAccounts(firsts: map<string, int>, accounts: seq<string>, issuer: string, ledger: int) returns (r: map<string, int>)
    ensures r == Noted(firsts, Elements(accounts) - {issuer}, ledger)
  {
    r := firsts;
    for n := 0 to |accounts|
      invariant r == Noted(firsts, Elements(accounts[..n]) - {issuer}, ledger)
    {
      assert accounts[..n + 1] == accounts[..n] + [accounts[n]];
      if accounts[n] != issuer {
        if accounts[n] !in r || ledger < r[accounts[n]] {
          r := r[accounts[n] := ledger];
        }
      }
    }
    assert accounts[..|accounts|] == accounts;
  }

  method RecordHolder(a: Archive, id: int, address: string, ledger: int)
    modifies a`accounts, a`holders
    ensures a.accounts == old(a.accounts)[address := Least(Lookup(old(a.accounts), address), Some(ledger))]
    ensures a.holders == old(a.holders)[(address, id) := Least(Lookup(old(a.holders), (address, id)), Some(ledger))]
  {
    a.accounts := a.accounts[address := Least(Lookup(a.accounts, address), Some(ledger))];
    a.holders := a.holders[(address, id) := Least(Lookup(a.holders, (address, id)), Some(ledger))];
  }

  function Only(firsts: map<string, int>, names: set<string>): map<string, int> {
    map a | a in firsts && a in names :: firsts[a]
  }

  lemma AccountsOneMore(t: map<string, Option<int>>, firsts: map<string, int>, done: set<string>, address: string)
    requires address in firsts && address !in done
    ensures MergeEarliest(t, Only(firsts, done + {address})) ==
            var m := MergeEarliest(t, Only(firsts, done)); m[address := Least(Lookup(m, address), Some(firsts[address]))]
  {
    hide Least;
  }

  lemma HoldersOneMore(t: map<(string, int), Option<int>>, id: int, firsts: map<string, int>, done: set<string>, address: string)
    requires address in firsts && address !in done
    ensures MergeHolders(t, id, Only(firsts, done + {address})) ==
            var m := MergeHolders(t, id, Only(firsts, done)); m[(address, id) := Least(Lookup(m, (address, id)), Some(firsts[address]))]
  {
    hide Least, Lookup;
    var few, more := Only(firsts, done), Only(firsts, done + {address});
    assert more == few[address := firsts[address]];
    assert ScopeKeys(id, more.Keys) == ScopeKeys(id, few.Keys) + {(address, id)};
    var m := MergeHolders(t, id, few);
    assert Lookup(m, (address, id)) == Lookup(t, (address, id)) by {
      LookupUntouched(t, id, few, address);
    }
  }

  lemma LookupUntouched(t: map<(string, int), Option<int>>, id: int, firsts: map<string, int>, address: string)
    requires address !in firsts
    ensures Lookup(MergeHolders(t, id, firsts), (address, id)) == Lookup(t, (address, id))
  {
    hide Least;
  }

  lemma RecordNone(db: Db, id: int, firsts: map<string, int>)
    ensures RecordAll(db, id, Only(firsts, {})) == db
  {
  }

  method RecordHolders(a: Archive, id: int, firsts: map<string, int>)
    modifies a`accounts, a`holders
    ensures a.Contents() == RecordAll(old(a.Contents()), id, firsts)
  {
    hide MergeEarliest, MergeHolders, Least, Lookup, SortedNames, Only;
    ghost var start := a.Contents();
    RecordNone(start, id, firsts);
    var left := firsts.Keys;
    assert firsts.Keys - left == {};
    while left != {}
      invariant left <= firsts.Keys && a.Contents() == RecordAll(start, id, Only(firsts, firsts.Keys - left))
      decreases left
    {
      var address := LowestName(left);
      assert address in left;
      AccountsOneMore(start.accounts, firsts, firsts.Keys - left, address);
      HoldersOneMore(start.holders, id, firsts, firsts.Keys - left, address);
      RecordHolder(a, id, address, firsts[address]);
      assert firsts.Keys - (left - {address}) == firsts.Keys - left + {address};
      left := left - {address};
    }
    assert Only(firsts, firsts.Keys) == firsts by {
      OnlyAll(firsts);
    }
    assert firsts.Keys - left == firsts.Keys;
  }

  lemma OnlyAll(firsts: map<string, int>)
    ensures Only(firsts, firsts.Keys) == firsts
  {
  }

  method ClaimCoverage(a: Archive, id: int, issuer: string, from: int, to: int)
    modifies a`coverage
    ensures a.Contents() == Claim(old(a.Contents()), id, issuer, from, to)
  {
    hide SortedNames, Earliest, InScope;
    var names := SortedNames(InScope(a.holders, id));
    var lo := Earliest(a.holders, id, names);
    var floor := if lo.None? then from else if from < lo.value then lo.value else from;
    if to < floor {
      floor := to;
    }
    a.coverage := a.coverage + ClaimRows(names + [issuer], floor, to);
  }

  /** The texts of each page's kept links tell them apart. */
  ghost predicate SurveyTells(s: Survey) {
    forall page :: 0 <= page < |s.chain| ==> Tells(Batch(s, s.chain[page]))
  }

  /** The pages' attempts, given how the environment would let them go: those of a page that the delta writer
      refuses never commit. */
  function Meets(s: Survey, fate: nat -> Fate): nat -> Fate {
    (p: nat) => Facing(fate(p), p < |s.chain| && RefusesPage(s.derived, Batch(s, s.chain[p])))
  }

  method SweepBody(a: Archive, s: Survey, page: nat, batch: seq<IngestTx>, firsts: map<string, int>, highWater: int) returns (ok: bool)
    requires page < |s.chain| && batch == Batch(s, s.chain[page]) && firsts == Firsts(s.issuer, batch)
    requires Tells(batch) && s.job in a.jobs
    modifies a
    ensures ok <==> !RefusesPage(s.derived, batch)
    ensures ok ==> a.Contents() == CommitSweep(s, old(a.Contents()), page, highWater)
  {
    hide Page, Tells, RefusesPage, IsPlan, RecordAll, Claim, Batch, Firsts, Checkpointed, Done;
    var job := a.jobs[s.job];
    ghost var before := a.Contents();
    var locks;
    ok, locks := WriteRows(a, s.derived, batch);
    if !ok {
      return;
    }
    PageFrame(before, s.derived, batch);
    RecordHolders(a, s.issuance.id, firsts);
    RecordFrame(Page(before, s.derived, batch), s.issuance.id, firsts);
    var isFinal := page + 1 == |s.chain|;
    Checkpoint(a, s.job, if isFinal then None else Some(page + 1), |batch|);
    if isFinal {
      ClaimCoverage(a, s.issuance.id, s.issuer, job.fromLedger.Or(0), highWater);
      Complete(a, s.job);
    }
  }

  lemma RecordFrame(db: Db, id: int, firsts: map<string, int>)
    ensures RecordAll(db, id, firsts).jobs == db.jobs && RecordAll(db, id, firsts).coverage == db.coverage
  {
  }

  method SweepPage(a: Archive, s: Survey, page: nat, batch: seq<IngestTx>, firsts: map<string, int>, highWater: int,
                   env: nat -> Attempt, maxRetries: nat) returns (v: Verdict)
    requires page < |s.chain| && batch == Batch(s, s.chain[page]) && firsts == Firsts(s.issuer, batch)
    requires Tells(batch) && s.job in a.jobs
    modifies a
    ensures v == Settle(Met(env, RefusesPage(s.derived, batch)), 0, maxRetries)
    ensures a.Contents() ==
            if v == Applied || v == Unsure then CommitSweep(s, old(a.Contents()), page, highWater) else old(a.Contents())
  {
    hide CommitSweep, Tells, RefusesPage, Batch, Firsts;
    ghost var met := Met(env, RefusesPage(s.derived, batch));
    var attempt := 0;
    while true
      invariant a.Contents() == old(a.Contents()) && attempt <= maxRetries
      invariant Settle(met, attempt, maxRetries) == Settle(met, 0, maxRetries)
      decreases maxRetries - attempt
    {
      var saved := a.Contents();
      var outcome := env(attempt);
      if outcome.Flagged? {
        return Halted;
      }
      assert s.job in a.jobs by {
        assert s.job in a.Contents().jobs;
      }
      var ok := SweepBody(a, s, page, batch, firsts, highWater);
      match Forced(outcome, !ok)
      case Succeeds =>
        return Applied;
      case Unacknowledged =>
        return Unsure;
      case Aborts(retryable) =>
        a.Restore(saved);
        if !retryable || attempt >= maxRetries {
          return Refused;
        }
        attempt := attempt + 1;
    }
  }

  lemma CommitKeepsSweep(s: Survey, db: Db, page: nat, highWater: int)
    requires page < |s.chain| && s.job in db.jobs
    ensures s.job in CommitSweep(s, db, page, highWater).jobs
    ensures CommitSweep(s, db, page, highWater).jobs[s.job].status == if page + 1 == |s.chain| then Completed else Running
    ensures CommitSweep(s, db, page, highWater).jobs[s.job].fromLedger == db.jobs[s.job].fromLedger
    ensures page + 1 < |s.chain| ==> CommitSweep(s, db, page, highWater).coverage == db.coverage
  {
    hide Page, RecordAll, Batch, Firsts, SortedNames, Earliest;
    PageFrame(db, s.derived, Batch(s, s.chain[page]));
    RecordFrame(Page(db, s.derived, Batch(s, s.chain[page])), s.issuance.id, Firsts(s.issuer, Batch(s, s.chain[page])));
  }

  /** What a sweep leaves, from the page it is about to ask for. */
  function Swept(s: Survey, db: Db, page: nat, high: int, fate: nat -> Fate, maxRetries: nat): Ending
    requires page < |s.chain| && s.job in db.jobs
    decreases |s.chain| - page
  {
    if fate(page).Unserved? then Ending(db.(jobs := Fallen(db.jobs, s.job)), false)
    else
      var highWater := Highest(Batch(s, s.chain[page]), high);
      var after := CommitSweep(s, db, page, highWater);
      CommitKeepsSweep(s, db, page, highWater);
      match Settle(fate(page).attempts, 0, maxRetries)
      case Applied => if page + 1 == |s.chain| then Ending(after, true) else Swept(s, after, page + 1, highWater, fate, maxRetries)
      case Unsure => Ending(after.(jobs := Fallen(after.jobs, s.job)), false)
      case Refused => Ending(db.(jobs := Fallen(db.jobs, s.job)), false)
      case Halted => Ending(db, true)
  }

  /** Sweep the issuer from where the job stands. */
  method RunIssuerBackfill(a: Archive, s: Survey, fate: nat -> Fate, maxRetries: nat) returns (ok: bool)
    requires s.job in a.jobs && Position(a.jobs[s.job]) < |s.chain| && SurveyTells(s)
    modifies a
    ensures Ending(a.Contents(), ok) ==
            Swept(s, old(a.Contents()), Position(old(a.jobs)[s.job]), From(old(a.jobs)[s.job]), Meets(s, fate), maxRetries)
  {
    hide CommitSweep, Tells, RefusesPage, Highest, Settle, Batch, Firsts, Met;
    var highWater := a.jobs[s.job].fromLedger.Or(0);
    var page := a.jobs[s.job].marker.Or(0);
    ghost var meets := Meets(s, fate);
    ghost var ending := Swept(s, a.Contents(), page, highWater, meets, maxRetries);
    ok := true;
    while page < |s.chain|
      invariant page <= |s.chain| && s.job in a.jobs && ok
      invariant page < |s.chain| ==> Swept(s, a.Contents(), page, highWater, meets, maxRetries) == ending
      invariant page == |s.chain| ==> Ending(a.Contents(), true) == ending
    {
      if fate(page).Unserved? {
        Fail(a, s.job);
        ok := false;
        return;
      }
      var batch, firsts, high := MapPage(s, s.chain[page], highWater);
      highWater := high;
      CommitKeepsSweep(s, a.Contents(), page, highWater);
      var v := SweepPage(a, s, page, batch, firsts, highWater, fate(page).attempts, maxRetries);
      if v == Halted {
        return;
      }
      if v == Unsure || v == Refused {
        Fail(a, s.job);
        ok := false;
        return;
      }
      page := page + 1;
    }
  }

  // ---- What a sweep claims ----

  /** A sweep that is stopped, or fails before its last page is written, claims nothing. */
  lemma {:induction false} OnlyTheEndClaims(s: Survey, db: Db, page: nat, high: int, fate: nat -> Fate, maxRetries: nat)
    requires page < |s.chain| && s.job in db.jobs
    ensures Swept(s, db, page, high, fate, maxRetries).db.coverage == db.coverage ||
            (Wrote(s, |s.chain| - 1, fate, maxRetries) && forall p :: page <= p < |s.chain| ==> Wrote(s, p, fate, maxRetries))
    decreases |s.chain| - page
  {
    hide CommitSweep, Highest, Settle, Batch;
    var highWater := Highest(Batch(s, s.chain[page]), high);
    CommitKeepsSweep(s, db, page, highWater);
    if Wrote(s, page, fate, maxRetries) && Settle(fate(page).attempts, 0, maxRetries) == Applied && page + 1 < |s.chain| {
      OnlyTheEndClaims(s, CommitSweep(s, db, page, highWater), page + 1, highWater, fate, maxRetries);
    }
  }

  /** The page was served and its transaction took effect. */
  predicate Wrote(s: Survey, page: nat, fate: nat -> Fate, maxRetries: nat) {
    fate(page).Answered? && Settle(fate(page).attempts, 0, maxRetries) in {Applied, Unsure}
  }

  function KeptFrom(s: Survey, page: nat): seq<IngestTx>
    requires page <= |s.chain|
    decreases |s.chain| - page
  {
    if page == |s.chain| then [] else Batch(s, s.chain[page]) + KeptFrom(s, page + 1)
  }

  function KeptUpTo(s: Survey, page: nat): seq<IngestTx>
    requires page <= |s.chain|
  {
    if page == 0 then [] else KeptUpTo(s, page - 1) + Batch(s, s.chain[page - 1])
  }

  lemma {:induction false} HighestOfBoth(xs: seq<IngestTx>, ys: seq<IngestTx>, floor: int)
    ensures Highest(xs + ys, floor) == Highest(ys, Highest(xs, floor))
  {
    if ys == [] {
      assert xs + ys == xs;
    } else {
      assert (xs + ys)[..|xs + ys| - 1] == xs + ys[..|ys| - 1];
      HighestOfBoth(xs, ys[..|ys| - 1], floor);
    }
  }

  /** A kept row shows a holder other than the issuer. */
  ghost predicate HasHolder(s: Survey, tx: IngestTx) {
    exists a :: a in tx.accounts && a != s.issuer
  }

  lemma {:induction false} FirstsCover(issuer: string, batch: seq<IngestTx>, tx: IngestTx, a: string)
    requires tx in batch && a in tx.accounts && a != issuer
    ensures a in Firsts(issuer, batch) && Firsts(issuer, batch)[a] <= tx.row.ledger
  {
    var front, last := batch[..|batch| - 1], batch[|batch| - 1];
    assert batch == front + [last];
    if tx in front {
      FirstsCover(issuer, front, tx, a);
    }
  }

  lemma MergeSince(t: map<(string, int), Option<int>>, id: int, firsts: map<string, int>, a: string, ledger: int)
    requires Since(t, id, a, ledger) || (a in firsts && firsts[a] <= ledger)
    ensures Since(MergeHolders(t, id, firsts), id, a, ledger)
  {
    assert (a, id) in MergeHolders(t, id, firsts);
  }

  lemma CommitHolders(s: Survey, db: Db, page: nat, highWater: int)
    requires page < |s.chain|
    ensures CommitSweep(s, db, page, highWater).holders ==
            MergeHolders(db.holders, s.issuance.id, Firsts(s.issuer, Batch(s, s.chain[page])))
  {
    hide Page, Batch, Firsts, SortedNames, Earliest, MergeHolders;
    PageFrame(db, s.derived, Batch(s, s.chain[page]));
  }

  ghost predicate AllDiscovered(s: Survey, db: Db, txs: seq<IngestTx>) {
    forall tx :: tx in txs ==> Discovered(db, s.issuance.id, tx)
  }

  lemma CommitDiscovers(s: Survey, db: Db, page: nat, highWater: int, known: seq<IngestTx>)
    requires page < |s.chain| && AllDiscovered(s, db, known)
    requires forall tx :: tx in Batch(s, s.chain[page]) ==> HasHolder(s, tx)
    ensures AllDiscovered(s, CommitSweep(s, db, page, highWater), known + Batch(s, s.chain[page]))
  {
    hide CommitSweep, Batch, Firsts, MergeHolders, Since;
    var batch := Batch(s, s.chain[page]);
    var after := CommitSweep(s, db, page, highWater);
    CommitHolders(s, db, page, highWater);
    forall tx | tx in known + batch ensures Discovered(after, s.issuance.id, tx) {
      var a;
      if tx in known {
        a :| a in tx.accounts && Since(db.holders, s.issuance.id, a, tx.row.ledger);
      } else {
        a :| a in tx.accounts && a != s.issuer;
        FirstsCover(s.issuer, batch, tx, a);
      }
      MergeSince(db.holders, s.issuance.id, Firsts(s.issuer, batch), a, tx.row.ledger);
    }
  }

  /** The rows a completed sweep adds to `coverage`: one per account in scope, and the issuer's. */
  ghost predicate ClaimedRange(s: Survey, before: Db, after: Db, floor: int, to: int) {
    after.coverage == before.coverage + ClaimRows(SortedNames(InScope(after.holders, s.issuance.id)) + [s.issuer], floor, to)
  }

  lemma LastCommitClaims(s: Survey, db: Db, page: nat, highWater: int) returns (floor: int)
    requires page + 1 == |s.chain| && s.job in db.jobs
    ensures ClaimedRange(s, db, CommitSweep(s, db, page, highWater), floor, highWater)
    ensures var after := CommitSweep(s, db, page, highWater);
            floor == Floor(Earliest(after.holders, s.issuance.id, SortedNames(InScope(after.holders, s.issuance.id))),
                           From(db.jobs[s.job]), highWater)
  {
    hide Page, Batch, Firsts, SortedNames, Earliest, MergeHolders, MergeEarliest, InScope;
    PageFrame(db, s.derived, Batch(s, s.chain[page]));
    CommitHolders(s, db, page, highWater);
    var after := CommitSweep(s, db, page, highWater);
    floor := Floor(Earliest(after.holders, s.issuance.id, SortedNames(InScope(after.holders, s.issuance.id))),
                   From(db.jobs[s.job]), highWater);
  }

  ghost predicate AllWritten(s: Survey, page: nat, fate: nat -> Fate, maxRetries: nat) {
    forall p :: page <= p < |s.chain| ==> fate(p).Answered? && Settle(fate(p).attempts, 0, maxRetries) == Applied
  }

  /** The upstream serves nothing below the job's start, and every kept row shows a holder. */
  ghost predicate Bounded(s: Survey, from: int, txs: seq<IngestTx>) {
    forall tx :: tx in txs ==> from <= tx.row.ledger && HasHolder(s, tx)
  }

  /** A sweep that goes through to the end, from any page: what it claims, and that no row whose
      discovery is recorded lies below the claim. */
  lemma {:induction false} SweepClaims(s: Survey, db: Db, page: nat, high: int, fate: nat -> Fate, maxRetries: nat,
                                       known: seq<IngestTx>) returns (floor: int)
    requires page < |s.chain| && s.job in db.jobs && AllWritten(s, page, fate, maxRetries)
    requires AllDiscovered(s, db, known) && From(db.jobs[s.job]) <= high
    requires Bounded(s, From(db.jobs[s.job]), known + KeptFrom(s, page))
    ensures var end := Swept(s, db, page, high, fate, maxRetries); var to := Highest(KeptFrom(s, page), high);
            && end.ok && ClaimedRange(s, db, end.db, floor, to) && From(db.jobs[s.job]) <= floor <= to
            && forall tx :: tx in known + KeptFrom(s, page) ==> floor <= tx.row.ledger
    decreases |s.chain| - page
  {
    hide CommitSweep, Highest, Settle, Batch, Discovered, HasHolder, ClaimedRange;
    var from, batch := From(db.jobs[s.job]), Batch(s, s.chain[page]);
    var highWater := Highest(batch, high);
    var after := CommitSweep(s, db, page, highWater);
    assert fate(page).Answered?;
    CommitKeepsSweep(s, db, page, highWater);
    HighestAbove(batch, high);
    KeptOneMore(s, page, known);
    CommitDiscovers(s, db, page, highWater, known);
    HighestOfBoth(batch, KeptFrom(s, page + 1), high);
    if page + 1 == |s.chain| {
      floor := LastCommitClaims(s, db, page, highWater);
      NothingAfter(s, high, page);
      forall tx | tx in known + KeptFrom(s, page) ensures floor <= tx.row.ledger {
        assert tx in known + batch;
        FloorBelowDiscovered(after, s.issuance.id, from, highWater, tx);
      }
    } else {
      floor := SweepClaims(s, after, page + 1, highWater, fate, maxRetries, known + batch);
      SameClaims(s, db, after, Swept(s, after, page + 1, highWater, fate, maxRetries).db, floor, Highest(KeptFrom(s, page), high));
    }
  }

  lemma SameClaims(s: Survey, db: Db, mid: Db, end: Db, floor: int, to: int)
    requires mid.coverage == db.coverage && ClaimedRange(s, mid, end, floor, to)
    ensures ClaimedRange(s, db, end, floor, to)
  {
  }

  lemma KeptOneMore(s: Survey, page: nat, known: seq<IngestTx>)
    requires page < |s.chain|
    ensures known + KeptFrom(s, page) == known + Batch(s, s.chain[page]) + KeptFrom(s, page + 1)
    ensures forall tx :: tx in Batch(s, s.chain[page]) ==> tx in known + KeptFrom(s, page)
    ensures KeptFrom(s, page) == Batch(s, s.chain[page]) + KeptFrom(s, page + 1)
  {
    hide Batch;
  }

  lemma NothingAfter(s: Survey, high: int, page: nat)
    requires page + 1 == |s.chain|
    ensures KeptFrom(s, page) == Batch(s, s.chain[page])
  {
    assert KeptFrom(s, page + 1) == [];
  }

  /** Every stored row of the sweep lies inside the range it claims exactly when none stored before the
      resume is above what the resumed sweep saw. An uninterrupted sweep has none stored before. */
  lemma InsideExactlyWhen(s: Survey, db: Db, page: nat, fate: nat -> Fate, maxRetries: nat, known: seq<IngestTx>) returns (floor: int)
    requires page < |s.chain| && s.job in db.jobs && AllWritten(s, page, fate, maxRetries)
    requires AllDiscovered(s, db, known)
    requires Bounded(s, From(db.jobs[s.job]), known + KeptFrom(s, page))
    ensures var from := From(db.jobs[s.job]); var to := Highest(KeptFrom(s, page), from);
            && ClaimedRange(s, db, Swept(s, db, page, from, fate, maxRetries).db, floor, to)
            && from <= floor <= to
            && (Inside(known + KeptFrom(s, page), floor, to) <==> Highest(known, from) <= to)
            && (known == [] ==> Inside(known + KeptFrom(s, page), floor, to))
  {
    hide Highest, KeptFrom, Swept, ClaimedRange, AllDiscovered, AllWritten;
    var from := From(db.jobs[s.job]);
    floor := SweepClaims(s, db, page, from, fate, maxRetries, known);
    HighestAbove(KeptFrom(s, page), from);
    HighestAbove(known, from);
    var to := Highest(KeptFrom(s, page), from);
    if Highest(known, from) <= to {
      forall tx | tx in known + KeptFrom(s, page) ensures floor <= tx.row.ledger <= to {
      }
    } else {
      var tx :| tx in known && tx.row.ledger == Highest(known, from);
      assert tx in known + KeptFrom(s, page);
    }
  }

  /** The archive after the first `n` pages of a sweep, whatever was seen of ledgers on the way. */
  function CommitsUpTo(s: Survey, db: Db, n: nat, highs: nat -> int): Db
    requires n <= |s.chain|
  {
    if n == 0 then db else CommitSweep(s, CommitsUpTo(s, db, n - 1, highs), n - 1, highs(n - 1))
  }

  lemma {:induction false} PagesAreDiscovered(s: Survey, db: Db, n: nat, highs: nat -> int)
    requires n <= |s.chain| && forall tx :: tx in KeptUpTo(s, n) ==> HasHolder(s, tx)
    ensures AllDiscovered(s, CommitsUpTo(s, db, n, highs), KeptUpTo(s, n))
  {
    hide CommitSweep, Batch, Discovered, HasHolder;
    if n > 0 {
      var known, batch := KeptUpTo(s, n - 1), Batch(s, s.chain[n - 1]);
      assert KeptUpTo(s, n) == known + batch;
      assert forall tx :: tx in known || tx in batch ==> tx in KeptUpTo(s, n);
      PagesAreDiscovered(s, db, n - 1, highs);
      CommitDiscovers(s, CommitsUpTo(s, db, n - 1, highs), n - 1, highs(n - 1), known);
    }
  }

  /** No holder of the issuance is forgotten or moved to a later ledger. */
  ghost predicate HoldersKept(before: Db, after: Db, id: int) {
    forall a, ledger :: Since(before.holders, id, a, ledger) ==> Since(after.holders, id, a, ledger)
  }

  lemma DiscoveredStays(s: Survey, before: Db, after: Db, txs: seq<IngestTx>)
    requires AllDiscovered(s, before, txs) && HoldersKept(before, after, s.issuance.id)
    ensures AllDiscovered(s, after, txs)
  {
    hide Since;
    forall tx | tx in txs ensures Discovered(after, s.issuance.id, tx) {
      var a :| a in tx.accounts && Since(before.holders, s.issuance.id, a, tx.row.ledger);
      assert Since(after.holders, s.issuance.id, a, tx.row.ledger);
    }
  }

  /** A sweep interrupted after some pages and resumed from its cursor covers all it stored, over both runs,
      if and only if no row kept of the earlier pages is above the highest kept of the later ones. */
  lemma ResumedSweepCoversExactlyWhen(s: Survey, start: Db, page: nat, highs: nat -> int, resumed: Db, fate: nat -> Fate, maxRetries: nat)
    returns (floor: int)
    requires page < |s.chain| && HoldersKept(CommitsUpTo(s, start, page, highs), resumed, s.issuance.id)
    requires s.job in resumed.jobs && Position(resumed.jobs[s.job]) == page && AllWritten(s, page, fate, maxRetries)
    requires Bounded(s, From(resumed.jobs[s.job]), KeptUpTo(s, page) + KeptFrom(s, page))
    ensures var from := From(resumed.jobs[s.job]); var to := Highest(KeptFrom(s, page), from);
            && ClaimedRange(s, resumed, Swept(s, resumed, page, from, fate, maxRetries).db, floor, to)
            && from <= floor <= to
            && (Inside(KeptUpTo(s, page) + KeptFrom(s, page), floor, to) <==> Highest(KeptUpTo(s, page), from) <= to)
            && (page == 0 ==> Inside(KeptUpTo(s, page) + KeptFrom(s, page), floor, to))
  {
    hide Highest, KeptFrom, Swept, ClaimedRange, AllDiscovered, AllWritten, HoldersKept, CommitsUpTo, HasHolder;
    assert forall tx :: tx in KeptUpTo(s, page) ==> tx in KeptUpTo(s, page) + KeptFrom(s, page);
    PagesAreDiscovered(s, start, page, highs);
    DiscoveredStays(s, CommitsUpTo(s, start, page, highs), resumed, KeptUpTo(s, page));
    floor := InsideExactlyWhen(s, resumed, page, fate, maxRetries, KeptUpTo(s, page));
  }

  // ---- The scope of the deltas ----

  /** Every delta of the issuance is an in-scope account's. */
  ghost predicate DeltasScoped(db: Db, id: int) {
    forall k :: k in db.deltas && k.2 == id ==> (k.1, id) in db.holders
  }

  /** Some transaction moves the account's balance of the issuance. */
  ghost predicate MovedIn(tracked: seq<Issuance>, txs: seq<IngestTx>, k: (string, string, int)) {
    exists tx, issuance, d ::
      tx in txs && issuance in tracked && issuance.id == k.2 && d in TokenDeltas(issuance.token, tx.row.meta) && d.account == k.1
  }

  lemma {:induction false} NewDeltas(db: Db, tracked: seq<Issuance>, txs: seq<IngestTx>, k: (string, string, int))
    requires k in DeriveEach(db, tracked, txs).deltas
    ensures k in db.deltas || MovedIn(tracked, txs, k)
  {
    hide TokenDeltas, DeriveTx;
    if txs != [] {
      var front, last := txs[..|txs| - 1], txs[|txs| - 1];
      assert txs == front + [last];
      if k in DeriveEach(db, tracked, front).deltas {
        NewDeltas(db, tracked, front, k);
      } else if forall issuance :: issuance in tracked && issuance.id == k.2 ==>
                  forall d :: d in TokenDeltas(issuance.token, last.row.meta) ==> d.account != k.1 {
        DeriveTxElsewhere(DeriveEach(db, tracked, front), tracked, last.hash, last.row.meta, k);
      } else {
        assert last in txs;
      }
    }
  }

  /** The issuer never holds its own token, and every account that moves is named. */
  ghost predicate ForeignHolders(s: Survey, txs: seq<IngestTx>) {
    forall tx, d :: tx in txs && d in TokenDeltas(s.issuance.token, tx.row.meta) ==> d.account != "" && d.account != s.issuer
  }

  /** The sweep keeps the deltas of its issuance within the scope, which is what deletion relies on. */
  lemma SweepScopesDeltas(s: Survey, db: Db, page: nat, highWater: int)
    requires page < |s.chain| && DeltasScoped(db, s.issuance.id)
    requires forall issuance :: issuance in s.derived && issuance.id == s.issuance.id ==> issuance == s.issuance
    requires ForeignHolders(s, Batch(s, s.chain[page]))
    ensures DeltasScoped(CommitSweep(s, db, page, highWater), s.issuance.id)
  {
    hide KeptOf, Firsts, TokenDeltas, InsertEach, DeriveEach, SortedNames, Earliest, IsMapped, MergeEarliest;
    var batch, id := Batch(s, s.chain[page]), s.issuance.id;
    var after := CommitSweep(s, db, page, highWater);
    CommitHolders(s, db, page, highWater);
    InsertEachOnly(db, batch);
    forall k | k in after.deltas && k.2 == id ensures (k.1, id) in after.holders {
      NewDeltas(InsertEach(db, batch), s.derived, batch, k);
      if k !in db.deltas {
        var tx, issuance, d :| tx in batch && issuance in s.derived && issuance.id == k.2
                               && d in TokenDeltas(issuance.token, tx.row.meta) && d.account == k.1;
        MovedIsLinked([s.issuance], s.issuance, s.issuer, s.chain[page], tx, d);
        FirstsCover(s.issuer, batch, tx, k.1);
      }
    }
  }

  // ---- A sweep as arrivals ----

  /** Recording the page's holders changes no account: its rows have seen each of them by then. */
  lemma RecordsNoAccount(t: map<string, Option<int>>, firsts: map<string, int>)
    requires forall a :: a in firsts ==> a in t && t[a].Some? && t[a].value <= firsts[a]
    ensures MergeEarliest(t, firsts) == t
  {
  }

  /** Each first ledger is that of some row of the page. */
  lemma {:induction false} FirstsShown(issuer: string, batch: seq<IngestTx>, a: string)
    requires a in Firsts(issuer, batch)
    ensures exists tx :: tx in batch && a in tx.accounts && tx.row.ledger == Firsts(issuer, batch)[a]
  {
    var front, last := batch[..|batch| - 1], batch[|batch| - 1];
    assert batch == front + [last];
    if a in Firsts(issuer, front) && Firsts(issuer, batch)[a] == Firsts(issuer, front)[a] {
      FirstsShown(issuer, front, a);
      var tx :| tx in front && a in tx.accounts && tx.row.ledger == Firsts(issuer, front)[a];
      assert tx in batch;
    } else {
      assert last in batch;
    }
  }

  /** A page of the sweep ingests exactly its rows, each with the sweep's own hook. */
  lemma SweepPageIsArrivals(s: Survey, db: Db, page: nat, highWater: int)
    requires page < |s.chain|
    ensures SameIngest(CommitSweep(s, db, page, highWater), ArriveAll(db, Hooked(Batch(s, s.chain[page]), s.derived)))
  {
    hide Page, ArriveAll, Batch, Firsts, MergeEarliest, MergeHolders, SortedNames, Earliest, Hooked;
    var batch := Batch(s, s.chain[page]);
    var rows, firsts := Page(db, s.derived, batch), Firsts(s.issuer, batch);
    PageIsArrivals(db, s.derived, batch);
    PageStores(db, s.derived, batch, []);
    assert [] + batch == batch;
    forall a | a in firsts ensures a in rows.accounts && rows.accounts[a].Some? && rows.accounts[a].value <= firsts[a] {
      FirstsShown(s.issuer, batch, a);
    }
    RecordsNoAccount(rows.accounts, firsts);
  }

  /** What arrives by a sweep, as its pages' attempts go. */
  function SweepArrivals(s: Survey, page: nat, fate: nat -> Fate, maxRetries: nat): seq<Arrival>
    requires page < |s.chain|
    decreases |s.chain| - page
  {
    if !Wrote(s, page, fate, maxRetries) then []
    else
      Hooked(Batch(s, s.chain[page]), s.derived)
      + if page + 1 < |s.chain| && Settle(fate(page).attempts, 0, maxRetries) == Applied
        then SweepArrivals(s, page + 1, fate, maxRetries) else []
  }

  /** So a whole sweep, however it ends, is among what can arrive beside any other writer, with a hook that
      holds its own issuance only. */
  lemma {:induction false} SweepIsArrivals(s: Survey, db: Db, page: nat, high: int, fate: nat -> Fate, maxRetries: nat)
    requires page < |s.chain| && s.job in db.jobs
    ensures SameIngest(Swept(s, db, page, high, fate, maxRetries).db, ArriveAll(db, SweepArrivals(s, page, fate, maxRetries)))
    decreases |s.chain| - page
  {
    hide CommitSweep, Highest, Settle, Batch, ArriveAll, Hooked;
    NoArrivals(db);
    if Wrote(s, page, fate, maxRetries) {
      var highWater := Highest(Batch(s, s.chain[page]), high);
      var after, now := CommitSweep(s, db, page, highWater), Hooked(Batch(s, s.chain[page]), s.derived);
      CommitKeepsSweep(s, db, page, highWater);
      SweepPageIsArrivals(s, db, page, highWater);
      if page + 1 < |s.chain| && Settle(fate(page).attempts, 0, maxRetries) == Applied {
        SweepIsArrivals(s, after, page + 1, highWater, fate, maxRetries);
        StepRest(after, db, now, SweepArrivals(s, page + 1, fate, maxRetries));
      } else {
        assert now + [] == now;
      }
    }
  }
}
