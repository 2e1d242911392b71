# A model of the token archive, and what holds of it

The repository keeps an append-only archive of the XRP Ledger transactions that concern some registered
tokens - multi-purpose tokens (MPT) and trust-line currencies (IOU) - and answers questions about
balances and holders from it. Data arrives by issuer sweeps, per-account backfill, a live tail and the
healing of its gaps, in any order, any number of times, across crashes. This project models the archive
and everything that writes it as Dafny programs over one set of tables (`Tables`), and proves that the
answers agree with the ledger whatever brought the data in.

## How it is laid out

- `Options`, `Ordering`, `Metadata`, `Tables`: values, a total order on text, decoded metadata, the tables
  and the class `Archive` that holds them.
- `Hex`, `Currency`: byte and currency-code text.
- `MptDeltas`, `IouDeltas`, `Derive`, `Rederive`, `Arrivals`, `Hooks`: balance deltas from metadata, at ingest and in
  batch. `Nodes`: what one node says, from its raw fields. An arrival is a transaction's rows with the issuances its writer derives; all writers come down to arrivals.
- `Reconstruct`, `Touches`, `History`, `Routes`, `Reconciler`, `SweepAgrees`: the second route to a balance, and the
  proof that the two coincide, by telescoping over histories of create, modify, delete and re-create.
- `Writers`, `BatchWriter`, `Ingest`: row writers, idempotence and order. `Locks`, `PagePlans`, `Deadlocks`: row locks,
  from the lists the writers return.
- `Jobs`, `Backfill`, `BackfillCounts`, `Resumption`, `Worker`, `ClaimLoops`, `Holders`, `Sweep`, `SweepClaim`: resumable ingest. `Backfill` is
  a step system over a fixed chain of pages; `Worker` is the page loop and refines it.
- `Governor`, `Client`: slots, queue and cooldown as a class and as an interleaving of callers.
- `GapTracking`, `Heal`, `HealPool`, `LiveTail`, `TailLedgers`: the live tail and its completeness over whole runs.
- `Traversal`, `Deletion`, `DeletionFrame`, `AccountTx`, `MptHolders`, `LedgerTime`, `Reporting`, `Gateway`: discovery, deletion and the query side.

Each database transaction is one atomic step. Methods are proved against functions on the tables'
values (`Db`); what the source promises is proved about those functions and about runs. A run is a
sequence of events, each possible when it comes; "every run" is every such sequence.

## What turned out not to hold as promised

- The two routes to a balance coincide exactly when each node's earlier balance is the one the previous
  touch of the object left (`History.RoutesAgreeExactlyWhenChained`). The code does not always read it
  so: an MPT modification that does not mention the amount counts as from 0
  (`History.SilentModificationDoubles`), and an object emptied and deleted by one transaction gives no
  delta (`History.EmptiedAndDeletedLineKeepsItsBalance`). Over what a ledger truthfully writes these are the only ways:
  an unmentioned amount of a token that held something, and a deleted object that shows another amount than it held
  (`History.RoutesAgreeExactlyWhenNothingMisread`). An unmentioned 0 is read rightly (`History.FirstReceiptIsRead`).
- Ingest does not keep every issuance's deltas what re-derivation would write: a sweep derives its own issuance
  only, so a transaction it stores first can lack the deltas of another
  (`Hooks.AnothersSweepLeavesGap`). Exactly when they are all there: `Rederive.CurrentExactlyWhen`, and for whole runs
  `Backfill.RunCurrentExactlyWhen` and `LiveTail.TailCurrentExactlyWhen`; re-derivation repairs it (`Rederive.RederiveDerives`).
- A job's count is not always the number of entries stored: two workers on one job, or a lost
  acknowledgement of the last page, count again (`BackfillCounts`). With one runner the exact condition is
  `BackfillCounts.CountsExactlyWhen`.
- The documentation of the sweep's claim says every stored row lies inside the claimed range. After a resume
  that is so exactly when nothing stored before is above what the resumed sweep kept
  (`Sweep.InsideExactlyWhen`, `Sweep.ResumedSweepCoversExactlyWhen`). The same goes for a worker's claim
  (`Worker.ResumedJobCoversExactlyWhen`).
- Deleting an issuance can remove the account row, jobs and coverage of another issuance's issuer
  (`Deletion.ExclusiveIssuerIsPurged`; exactly when, `Deletion.IssuerSurvivesExactlyWhen` and
  `Deletion.JobsSurviveExactlyWhen`).
- A page's transaction as a whole does not ask for rows in one order, only each batch writer does, and two
  pages can deadlock (`Deadlocks.PagesCanDeadlock`). Exactly when a page does: `PagePlans.PlanAscendsExactlyWhen`; exactly
  when two transactions can block each other: `Locks.DeadlockExactlyWhenCrossed`.
- A date range in the itemised changes starts with the ledger in effect at its first date, so it can list
  changes from before that date (`Reporting.ListedByDate`).
- Two currency codes can share a wire key: exactly those of `Currency.WireSharedExactlyWhen`, which differ in trailing
  NULs. `gateway_balances` then reports one of two obligations (`Gateway.SecondOverwritesFirst`); when it reports everything is
  `Gateway.KeyConservedExactlyWhen`. A PostgreSQL text column does not take NUL, so codes read back from one never merge.

## Model

| member | source | states |
|---|---|---|
| `Hex.HexToBytes` | src/util/hex.ts:2-8 | Decoding an even-length hex text gives the byte each pair of digits spells |
| `Hex.BytesToHex` | src/util/hex.ts:11-15 | Encoding gives the upper-case text with two digits per byte |
| `Hex.DecodeOfEncode` | src/util/hex.ts:2-15 | Decoding an encoding gives the bytes back |
| `Hex.EncodeOfDecode` | src/util/hex.ts:2-15 | Encoding a decoding gives the text back, in upper case |
| `Currency.CurrencyToString` | src/xrpl/currency.ts:13-25 | The loop with early exit computes the readable form: bytes up to the first NUL of a 40-digit hex code, anything else as it is |
| `Currency.ReadableOfWire` | src/xrpl/currency.ts:13-38 | A code survives the wire form and back exactly when it has 3 characters, or 1 to 20 ASCII characters without NUL |
| `Currency.WireOfReadable` | src/xrpl/currency.ts:13-38 | A 40-digit hex code survives the reverse, up to letter case, exactly when it is zero-padded ASCII whose text is not 3 characters long |
| `Currency.WireSharedExactlyWhen` | src/xrpl/currency.ts:35-38 | Two codes share a wire form if and only if they are equal, or neither has 3 characters, both have at most 20 bytes, and they differ only in the NULs they end in |
| `Currency.WireInjective` | src/xrpl/currency.ts:35-38 | So codes that do not end in NUL never share one |
| `Currency.TrailingNulCollides` | src/xrpl/currency.ts:35-38 | And a short code and the same code followed by NUL do |
| `Currency.NormalizeCurrency` | src/xrpl/currency.ts:49-58 | Registration refuses exactly the empty input, XRP as text or as the bytes of a 40-digit code, and anything over 20 characters that is not the hex of a text; it stores a short input unchanged, and of a 40-digit code the text its bytes spell up to the first NUL |
| `Currency.PastedHexMatches` | src/xrpl/currency.ts:49-58 | A pasted wire form registers the same code as the readable form, and a stored code is a fixed point |
| `MptDeltas.Derive` | src/reconcile/mptDeltas.ts:28-67 | One pass over the affected nodes collects each token node's balance change, by node kind; what these changes mean is `Touches.DerivedDeltas` |
| `IouDeltas.Derive` | src/reconcile/iou.ts:56-98 | The same for trust lines, signed by the holder's side |
| `Touches.DerivedDeltas` | src/reconcile/mptDeltas.ts:28-67 | The deltas of a transaction are exactly after-minus-before of the objects it touches, non-zero ones only, for both kinds of token |
| `Touches.StatesAreTouches` | src/api/state/reconstruct.ts:37-58 | The states reconstruction reads from the same nodes show, account by account, the same after-balance the deltas use, 0 when deleted |
| `Nodes.LineDeltas` | src/reconcile/iou.ts:25-98 | A trust line spelled in a code's wire form moves the holder by what its balance rose on the low side, fell on the high side; one with neither side the issuer's moves nobody |
| `Nodes.OtherCodeIsIgnored` | src/reconcile/iou.ts:25-54 | A line in another code than the one asked for moves nothing, shows nothing and holds nothing |
| `Nodes.LineShows` | src/reconcile/iou.ts:101-118 | The newest state of a live line shows the holder with the balance as that side sees it, of a deleted one nobody |
| `Nodes.LineHolder` | src/reconcile/incremental.ts:116-156 | Of a line the holder found is the party that is not the issuer, if its name is not blank |
| `Nodes.TokenDelta` | src/reconcile/mptDeltas.ts:28-67 | A token object moves its account by its new amount when created, by the difference to the earlier amount when modified - 0 where none is mentioned - and by minus its amount when deleted |
| `Nodes.TokenShows` | src/api/state/reconstruct.ts:118-136 | The newest state of a live token object lists its account with the amount as it stands, of a deleted one nobody |
| `Nodes.TokenHolder` | src/reconcile/incremental.ts:116-156 | The holder found in a token object is its account |
| `Nodes.OtherTokenIsIgnored` | src/reconcile/mptDeltas.ts:28-47 | An object of another token moves, shows and holds nothing |
| `Nodes.ForeignIsIgnored` | src/reconcile/mptDeltas.ts:28-47 | Nor does a node of another kind |
| `Nodes.RlusdIsRead` | src/xrpl/currency.ts:13-25 | The 40-digit code of RLUSD reads as RLUSD |
| `Reconstruct.LatestObjects` | src/api/state/reconstruct.ts:61-86 | The map-filling loop keeps, per object, what folding the states in reading order keeps |
| `Reconstruct.LatestIsNewest` | src/api/state/reconstruct.ts:61-86 | The object kept for an id, when any state mentions it, is a state of it than which none is newer |
| `Reconstruct.LatestOnePerObject` | src/api/state/reconstruct.ts:61-86 | Each object is kept once |
| `Reconstruct.LatestIgnoresOrder` | src/api/state/reconstruct.ts:61-86 | Objects whose states never tie are found the same from any arrangement of the same states |
| `Reconstruct.TiesDependOnOrder` | src/api/state/reconstruct.ts:61-86 | With a tie the result depends on reading order, so the hypothesis is needed |
| `Reconstruct.ToMptHolders` | src/api/state/reconstruct.ts:118-136 | Holders of live token objects, sorted by account |
| `Reconstruct.ToIouBalances` | src/reconcile/iou.ts:101-118 | Balances of live lines by holder, from the holder's side |
| `History.ChainedTelescopes` | src/reconcile/mptDeltas.ts:49-64 | Over any history of creations, modifications, deletions and re-creations whose nodes take up where the last left off, the deltas sum to the last balance |
| `History.RoutesAgreeExactlyWhenChained` | src/reconcile/iou.ts:79-95 | The sum of deltas is the reconstructed balance after every transaction if and only if each node's earlier balance is the one the previous touch left |
| `History.SilentModificationDoubles` | src/reconcile/mptDeltas.ts:54-56 | In a truthful history, a modified token that held n and whose previous fields do not mention the amount is read as having held 0: it comes out with 2n |
| `History.EmptiedAndDeletedLineKeepsItsBalance` | src/reconcile/iou.ts:89-92 | In a truthful history, a line emptied and deleted by one transaction keeps its old balance in the sums |
| `History.RoutesAgreeExactlyWhenNothingMisread` | src/reconcile/mptDeltas.ts:49-64 | Given a truthful history - real balances behind the nodes, previous fields that mention the earlier amount, and may leave it out where it stayed or, of a token, where it was 0 - the two routes agree after every transaction if and only if no modified token that held something leaves its amount unmentioned and no deleted node shows another amount than the object held; then the sum is the real balance |
| `History.FirstReceiptIsRead` | src/reconcile/mptDeltas.ts:54-56 | The first receipt of a holder that opted in, whose node does not mention the earlier 0, is truthful and not misread: both routes show what is held |
| `History.ReconstructionIsTrue` | src/api/state/reconstruct.ts:37-58 | Over a truthful history the reconstructed balance is the real one, misread nodes or not |
| `History.TwoObjectsOfOneHolder` | src/api/state/reconstruct.ts:118-136 | That a holder has one object is needed: with two, the deltas sum both and the holder list shows the later one |
| `History.SwappedSidesTreble` | src/reconcile/iou.ts:62-95 | So is that the sides of a line stay: a holder that changes sides comes out with three times its balance |
| `History.TwiceInOneTransaction` | src/reconcile/balanceDeltas.ts:111-128 | And that a transaction moves an account once: shown twice, the upsert names one key twice and is refused |
| `Routes.DerivedIsSummed` | src/api/methods/reporting.ts:180-187 | The summed delta rows up to any ledger are the history's deltas up to there |
| `Routes.ReconstructedIsBalance` | src/api/methods/mptHolders.ts:40-52 | The newest state up to any ledger shows the history's balance there, whichever order the rows are read in |
| `Reconciler.CompareBalances` | src/reconcile/reconciler.ts:29-56 | Reports exactly the accounts whose two balances differ, absent counting as 0, ascending |
| `Reconciler.RunMpt` | src/reconcile/reconciler.ts:77-97 | A run throws exactly when an amount does not parse, and otherwise reports exactly the in-scope accounts whose balances by the two routes differ, in order, each with both balances |
| `Reconciler.RunIou` | src/reconcile/reconciler.ts:99-122 | The same for an IOU, which never throws |
| `Reconciler.ReconcileMpt` | src/reconcile/reconciler.ts:77-97 | After any arrivals of a ledger's transactions - fetched whenever and from wherever - that derive the issuance and link each in-scope account at least once, with chained histories, a run over what the queries answer reports nothing |
| `Reconciler.ReconcileIou` | src/reconcile/reconciler.ts:99-122 | So does a run for an IOU |
| `SweepAgrees.SweepMeetsAll` | src/backfill/issuerSweep.ts:117-209 | A sweep that goes through brings every transaction its pages show, with its issuance in the hook and a link to every account the transaction touches |
| `SweepAgrees.SweepFinds` | src/backfill/issuerSweep.ts:117-209 | Each transaction whose nodes show a holder of the token is stored by it, linked to the issuer and to that holder, and has the holder in scope from its ledger or before |
| `SweepAgrees.SweepStoresOnlyShown` | src/backfill/issuerSweep.ts:117-209 | It stores no other: what was not there before is on a page and shows some holder |
| `SweepAgrees.ReconcileSweptMpt` | src/reconcile/reconciler.ts:77-97 | So after an MPT was swept from its start into an archive without transactions, with chained histories, a reconciliation over the scope the sweep recorded reports nothing |
| `SweepAgrees.ReconcileSweptIou` | src/reconcile/reconciler.ts:99-122 | So for an IOU |
| `Reconciler.ArrivalsHoldExactlyWhen` | src/reconcile/incremental.ts:67-90 | After any arrivals - any order, repetition, fetch, account lists and hooks - the archive holds the ledger's transactions and exactly the deltas they give if and only if each that moves the issuance arrived at least once with it in the hook |
| `Reconciler.AnyIngestReconciles` | src/reconcile/reconciler.ts:29-56 | However a ledger's transactions arrive - any order, any repetition, each arrival with its own account list and hook, so long as some arrival derives and some arrival links - at every ledger the summed deltas of an in-scope account equal the balance its reconstructed object shows |
| `Reconciler.MptBalancesAgree` | src/api/methods/reporting.ts:180-187 | So `archive_balance_at` and the MPT holder list agree at every ledger |
| `Reconciler.IouBalancesAgree` | src/reconcile/iou.ts:101-118 | So do the reconstructed line balances, on either side of the line |
| `Writers.InsertTransactionRows` | src/db/repositories/transactions.ts:30-68 | One transaction's rows: its own unless known, its accounts with the earliest ledger, its links, its account rows asked for in ascending order |
| `BatchWriter.FirstOfEachHash` | src/db/repositories/transactions.ts:96-99 | Deduplication keeps the first row of each hash, with the same effect on the table as all of them |
| `BatchWriter.EarliestLedgers` | src/db/repositories/transactions.ts:122-128 | One row per address the batch lists, with its earliest ledger, with the same effect as seeing each in turn, NULL ignored |
| `BatchWriter.DistinctLinks` | src/db/repositories/transactions.ts:138-150 | Each link's text once; every link where the texts tell links apart, else some link of each text |
| `BatchWriter.PlainHashesTell` | src/db/repositories/transactions.ts:142 | They do where no hash contains the separator |
| `BatchWriter.InsertTransactionRowsMany` | src/db/repositories/transactions.ts:88-186 | On any list and archive the batch leaves transactions and accounts as inserting the rows one by one, and the links too where their texts tell them apart; its row locks are exactly the rows it adds and the accounts it lists, in strictly ascending (table, key) order |
| `Ingest.ReingestChangesNothing` | src/db/repositories/transactions.ts:30-68 | Ingesting again any of what was ingested changes nothing |
| `Ingest.LinksAreListed` | src/db/repositories/transactions.ts:30-68 | The links after an ingest are exactly those before and one for each account each transaction lists |
| `Ingest.AnyOrderAnyRepetition` | src/db/repositories/transactions.ts:88-186 | When equal hashes carry equal rows the archive depends only on which transactions arrived |
| `Ingest.AnyOrderAnyFetch` | src/db/repositories/transactions.ts:30-48 | When they agree only in ledger and metadata, as two fetches of one transaction do, so it does but for the other columns |
| `Ingest.FirstPayloadWins` | src/db/repositories/transactions.ts:88-186 | Without that hypothesis the first payload of a hash stays |
| `Ingest.EarliestWins` | src/db/repositories/transactions.ts:88-186 | Each account ends with the earliest ledger any source gave, and with no other |
| `Ingest.EachKeepsForeignKeys` | src/db/repositories/transactions.ts:88-186 | Ingest never leaves a dangling reference |
| `Derive.InsertDeltasMany` | src/reconcile/balanceDeltas.ts:84-129 | Upserts a batch of deltas, or is refused as a whole exactly when a statement names a key twice; of repeated keys in different statements the last row stays; its locks are exactly the accounts it adds and the deltas it names, strictly ascending with distinct keys |
| `Derive.RefusedExactlyWhen` | src/reconcile/balanceDeltas.ts:113-128 | Rows that fit one statement are refused exactly when two of them have one key |
| `Derive.DeltaLocksAscend` | src/reconcile/balanceDeltas.ts:91-113 | Sorted new accounts, then deltas sorted by (hash, address): strictly ascending row locks |
| `Derive.DeriveTxDeltas` | src/reconcile/incremental.ts:67-90 | The ingest hook writes each tracked issuance's deltas of the transaction, and asks for the rows of one delta batch after the other; it fails exactly when one batch is refused, counting the deltas written |
| `Derive.CleanIsNotRefused` | src/reconcile/incremental.ts:67-90 | Metadata that moves each account at most once is never refused |
| `Rederive.PageIsArrivals` | src/backfill/worker.ts:136-139 | A page's rows followed by its deltas is its transactions arriving one by one |
| `Rederive.DerivedExactlyWhen` | src/reconcile/incremental.ts:67-90 | After any sequence of arrivals, each with its own hook, no delta of the issuance is wrong, and a stored transaction's deltas are there if and only if it moves nothing, had them before, or arrived at least once with the issuance in the hook |
| `Rederive.CurrentExactlyWhen` | src/reconcile/incremental.ts:67-90 | So the delta table is what the stored metadata gives if and only if that holds of every stored transaction |
| `Rederive.DeriveBatch` | src/reconcile/deriver.ts:34-71 | Batch re-derivation upserts the rows the in-scope stored transactions give, or, where they are refused, changes nothing; it is not refused where each moves an account once |
| `Rederive.RederiveChangesNothingExactlyWhen` | src/reconcile/deriver.ts:34-71 | Re-deriving over some stored transactions changes nothing if and only if the deltas of all of them are there |
| `Rederive.RederiveDerives` | src/reconcile/deriver.ts:34-71 | It repairs: afterwards they are all there, and still none is wrong |
| `Rederive.DeriveFromNothingIsCurrent` | src/reconcile/deriver.ts:34-71 | Deriving an issuance from nothing gives what ingest would have kept if and only if every stored transaction that moves it is in scope |
| `Hooks.RederiveAfterIngestExactlyWhen` | src/reconcile/deriver.ts:34-71 | After any arrivals re-deriving over in-scope transactions changes nothing if and only if each that moves the issuance had its deltas or arrived with it in the hook |
| `Hooks.AnothersSweepLeavesGap` | src/server.ts:363 | A sweep that derives its own issuance stores a transaction that moves another: the other's deltas lack it, and re-deriving writes a row no ingest had written |
| `Arrivals.ArrivalsAreStored` | src/reconcile/incremental.ts:67-90 | Everything that arrived is stored, with its links, whatever arrived after it |
| `Locks.SomeoneCanStep` | src/db/repositories/transactions.ts:79-87 | Among transactions that ask for rows in ascending order, while one is unfinished some can step: no circular wait |
| `Locks.AllFinish` | src/db/postgres.ts:273-288 | Every run of them is bounded by the rows left to ask for, and stops only when all have finished |
| `Locks.DeadlockExactlyWhenCrossed` | src/db/repositories/transactions.ts:79-87 | Two transactions can come to block each other for good if and only if their plans cross: each reaches a row the other has taken before, with nothing in common till then |
| `Worker.WriteRows` | src/backfill/worker.ts:136-139 | A page's rows and deltas leave what its transactions arriving one by one leave, and the row locks asked for are the page's plan: the batch's, then each delta batch's; it fails exactly when the delta writer refuses some transaction's changes of some tracked issuance |
| `Worker.RefusesExactlyWhen` | src/reconcile/balanceDeltas.ts:113-128 | A page is refused if and only if the rows of one of its transactions for one tracked issuance are |
| `PagePlans.PlanAscendsExactlyWhen` | src/backfill/worker.ts:136-139 | A page's transaction asks for its rows in strictly ascending order if and only if its deltas ascend by hash, account and issuance over the page, only its first delta batch needs accounts that neither archive nor page has, and where it does the page adds no link and lists no account above them |
| `PagePlans.OneIssuanceAscendsExactlyWhen` | src/backfill/worker.ts:136-139 | A page that derives one issuance and knows all accounts it moves does so if and only if the hashes of the transactions that move it ascend |
| `Deadlocks.SweptPageAscendsExactlyWhen` | src/backfill/issuerSweep.ts:168-174 | The rows and deltas of a sweep's page always know them, so they ascend exactly then |
| `Deadlocks.PagesInOrderFinish` | src/db/repositories/transactions.ts:79-87 | Any number of pages in that condition all finish, however they interleave |
| `Deadlocks.PagesCanDeadlock` | src/db/postgres.ts:262-270 | Not all pages are: two workers' pages whose payers pay the same two accounts in opposite orders can block each other for good where the archive does not have those yet |
| `Deadlocks.FourAreALedger` | src/db/postgres.ts:262-270 | Their four transfers are the transactions of one ledger, in order, each holder with one object |
| `Jobs.Checkpoint` | src/db/repositories/backfillJobs.ts:55-67 | Moves the cursor, adds to the count and marks the job running; a deleted job is not there to update |
| `Jobs.Complete` | src/db/repositories/backfillJobs.ts:70-77 | Marks the job completed and clears its cursor |
| `Jobs.Fail` | src/db/repositories/backfillJobs.ts:155-160 | Marks the job failed and leaves the cursor |
| `Jobs.Claim` | src/db/repositories/backfillJobs.ts:119-138 | Takes the waiting job with the least id, marks it running and changes no other, or says there is none |
| `Jobs.ReclaimStale` | src/db/repositories/backfillJobs.ts:144-153 | Puts every running or failed job of the issuance back in the queue, leaves the others, and counts those it put back |
| `Backfill.EveryRun` | src/backfill/worker.ts:105-172 | In every run of any number of workers on one job - crashes before or after a commit, failed fetches, retries, lost acknowledgements, reclaims, stops, other ingest in between - all kept entries of the pages before the cursor are stored and counted; a completed job has the whole chain stored; and a coverage row the run added starts at the job's start, ends at a ledger no higher than the highest served, and was made only once everything was stored |
| `Backfill.EveryEntryIsStored` | src/backfill/worker.ts:105-172 | So, entry by entry: each entry in scope of a page the cursor has passed is stored with its links, each of any page once the job is completed or the run made a claim; and a claim starts at the job's start, the first ledger when it has none |
| `Backfill.StoredWereKept` | src/backfill/worker.ts:105-172 | Along any run nothing is stored but what was there, what other writers brought, and entries in scope of the pages |
| `Resumption.AnyWorkerCompletes` | src/backfill/worker.ts:104-172 | However a run went - crashed, failed or stopped in the middle of a page - any worker can complete the job from there: given up, requeued, claimed, it needs no more than to be served and to write each page from the cursor on |
| `Backfill.RunIsArrivals` | src/backfill/worker.ts:105-172 | In every such run the ingested tables are those of the pages' rows arriving one by one among the others': crashes, retries and lost acknowledgements never leave part of a page |
| `Backfill.RunCurrentExactlyWhen` | src/reconcile/incremental.ts:67-90 | Along every such run, whatever hooks the others have, the deltas of an issuance are those of the stored metadata if and only if each stored transaction that moves it had them or arrived with it in the hook |
| `BackfillCounts.CountIsCommits` | src/db/repositories/backfillJobs.ts:55-67 | In every run the job's count is the rows of the pages committed, each as often as it was |
| `BackfillCounts.CountsExactlyWhen` | src/db/repositories/backfillJobs.ts:55-67 | With one runner at a time the count is the number of entries stored so far if and only if no acknowledgement of a last page was lost (or nothing is kept) |
| `BackfillCounts.CommitsInOrder` | src/backfill/worker.ts:108-166 | With one runner and no such loss each page up to the cursor is committed exactly once, in order |
| `BackfillCounts.TwoWorkersOvercount` | src/backfill/worker.ts:105-172 | Two workers on one job, one started after a reclaim, count a page twice |
| `BackfillCounts.LostAckRecounts` | src/db/postgres.ts:292-315 | One worker counts its last page twice when the acknowledgement is lost and the job retried |
| `Worker.WritePage` | src/db/postgres.ts:273-315 | A page's transaction with its retries takes effect once or not at all, as its last attempt went; one that the delta writer refuses is rolled back and not tried again |
| `Worker.Settles` | src/db/postgres.ts:273-288 | The retry loop ends at the first attempt that is not a retryable abort, or after its last retry |
| `Worker.RunJob` | src/backfill/worker.ts:105-172 | The page loop leaves the archive the protocol's steps leave, page by page, with the attempts at refused pages failing |
| `Worker.RefusedPageBlocks` | src/backfill/worker.ts:105-172 | A job never gets past a refused page: its cursor stays there, it neither completes nor claims coverage |
| `Worker.CleanJobCompletes` | src/backfill/worker.ts:105-172 | A job none of whose pages is refused completes when each page is served and gets through in the end |
| `Worker.ResumedJobCoversExactlyWhen` | src/backfill/worker.ts:105-156 | All kept rows of a job resumed at its cursor lie inside the range it claims if and only if none kept of the pages before is above the last ledger seen on the pages after; uninterrupted, all do |
| `Worker.RanIsRun` | src/backfill/worker.ts:105-172 | A job run is one of the protocol's runs, so all proved of those holds of it |
| `Worker.ServedJobCompletes` | src/backfill/worker.ts:105-172 | When every page is served and goes through in the end, the job completes |
| `ClaimLoops.ClaimedAtMostOnce` | src/backfill/worker.ts:187-211 | In every interleaving of the claim loops no job is claimed twice, only waiting ones are, and in the order of their ids; runs are bounded |
| `ClaimLoops.EveryJobRuns` | src/backfill/worker.ts:187-211 | When all loops have left, each waiting job was claimed exactly once and is completed or failed, processed plus failed is their number, and no other row changed |
| `ClaimLoops.EveryOutcomeStands` | src/backfill/worker.ts:187-211 | A job that ended well is left completed and counted as processed, one that did not is left failed and counted so |
| `ClaimLoops.SomeLoopMoves` | src/backfill/worker.ts:192-207 | Until all have left some loop can move: a failed job blocks nobody |
| `Holders.HoldersInMeta` | src/reconcile/incremental.ts:116-156 | Collects each (issuance, holder) pair the metadata shows, where it first appears |
| `Holders.FindListIs` | src/reconcile/incremental.ts:116-156 | Each pair is listed once, and exactly those some node shows |
| `Holders.FindsAre` | src/reconcile/incremental.ts:116-156 | A pair is found if and only if some node shows it as a holder of that tracked issuance, and so no account of another |
| `Holders.MovedAreHolders` | src/reconcile/incremental.ts:116-156 | Every account whose balance moved is among the holders found |
| `Holders.MappedLinks` | src/backfill/issuerSweep.ts:52-74 | An entry is kept exactly when it shows a holder, and linked to the issuer and exactly the holders shown |
| `Holders.DroppedMovesNothing` | src/backfill/issuerSweep.ts:52-74 | An entry the sweep drops moves no balance of any tracked issuance |
| `Sweep.RecordHolders` | src/backfill/issuerSweep.ts:175-180 | The page's holders join the scope, each with its earliest ledger, NULL ignored |
| `Sweep.ClaimCoverage` | src/backfill/issuerSweep.ts:246-270 | One coverage row per account in scope, in address order, and the issuer's, from the floor that `SweepClaim.SweptClaim` pins |
| `Sweep.ClaimBounds` | src/backfill/issuerSweep.ts:246-270 | The floor lies between the configured start and the high-water mark, and is one of them or the earliest acquisition |
| `Sweep.RunIssuerBackfill` | src/backfill/issuerSweep.ts:117-209 | The sweep loop leaves what the page-by-page transactions, as their attempts went, leave; those of refused pages fail |
| `Sweep.OnlyTheEndClaims` | src/backfill/issuerSweep.ts:161-191 | A sweep that is stopped, or fails before its last page is written, claims nothing |
| `Sweep.SweepClaims` | src/backfill/issuerSweep.ts:246-270 | A sweep that goes through claims a range whose end is the highest ledger it kept, or its start, and below which no discovered row lies |
| `SweepClaim.SweptScope` | src/backfill/issuerSweep.ts:150-209 | A sweep that goes through leaves in scope the accounts there before and those its rows list, the issuer apart, each from the lowest ledger that lists it or the one known before, and other issuances' scopes alone |
| `SweepClaim.RecordedHaveAccounts` | src/backfill/issuerSweep.ts:213-236 | Whoever the sweep records has an account row, first seen at the ledger recorded or where it was seen before |
| `SweepClaim.SweptClaim` | src/backfill/issuerSweep.ts:246-270 | It adds exactly one coverage row for each account in scope and the issuer's, up to the highest ledger kept, from the lowest ledger recorded for an account in scope, bounded by the job's start and that end; from the start when none is recorded |
| `SweepClaim.NothingBeforeFirstHolder` | src/backfill/issuerSweep.ts:253-258 | So nothing before the first holder is claimed |
| `SweepClaim.SweptCursor` | src/backfill/issuerSweep.ts:150-209 | However a sweep goes, the cursor stands behind the pages it wrote, the count has grown by their rows, and the job is completed, failed, running or as it was accordingly |
| `SweepClaim.RefusedPageClaimsNothing` | src/backfill/issuerSweep.ts:200-245 | A sweep that comes to a page the delta writer refuses claims nothing, however its attempts go |
| `SweepClaim.CleanSweepGoesThrough` | src/backfill/issuerSweep.ts:117-245 | One none of whose pages is refused goes through when each is served and gets through in the end |
| `Sweep.InsideExactlyWhen` | src/backfill/issuerSweep.ts:236-270 | Every stored row of the sweep lies inside the claimed range if and only if none stored before a resume is above what the resumed sweep kept; uninterrupted, all do |
| `Sweep.ResumedSweepCoversExactlyWhen` | src/backfill/issuerSweep.ts:236-270 | For a sweep interrupted at any page and resumed there: all its rows lie inside the claim if and only if none of the pages before is above the highest of the pages after |
| `Sweep.SweepIsArrivals` | src/backfill/issuerSweep.ts:117-209 | A sweep, as its attempts go, leaves the ingested tables its pages' rows leave, arriving with the sweep's own hook |
| `Sweep.SweepScopesDeltas` | src/backfill/issuerSweep.ts:168-180 | The sweep keeps every delta of its issuance an in-scope account's |
| `Governor.Gate.TakeSlot` | src/clio/governor.ts:215-223 | Takes a free slot, or queues |
| `Governor.Gate.ReleaseSlot` | src/clio/governor.ts:225-233 | Hands the slot to the first waiter, or frees it |
| `Governor.Gate.Penalize` | src/clio/governor.ts:161-180 | Escalates the backoff and extends the cooldown, never shortens it |
| `Governor.Gate.Reward` | src/clio/governor.ts:187-192 | Resets the escalation only once the cooldown has passed |
| `Governor.SlotsAreConserved` | src/clio/governor.ts:133-153 | In every interleaving of calls, grants, re-checks, releases, penalties, rewards and clock ticks, slots held plus slots granted but not looked at again are the slots in flight, within the limit; while anyone is queued all are taken; the queue is exactly the queued callers |
| `Governor.NoStartDuringCooldown` | src/clio/governor.ts:206-213 | No request starts before the cooldown of any earlier moment of the run has passed |
| `Governor.PenaltyHoldsEveryone` | src/clio/governor.ts:133-180 | After a penalty every request waits out its backoff |
| `Governor.CooldownIsHolds` | src/clio/governor.ts:161-192 | Along any run the cooldown ends when the latest of its penalties' holds does: the first penalty in a row holds for the least backoff, each further one the factor times as long, up to the most |
| `Governor.RowHoldsEveryone` | src/clio/governor.ts:133-180 | After a run from the start and one more penalty no request starts before the hold of that penalty, by its place in the row, is over |
| `Governor.FirstPenaltyHolds` | src/clio/governor.ts:161-180 | After the first penalty of a row none starts before the least backoff is over |
| `Governor.RewardEndsRow` | src/clio/governor.ts:187-192 | A reward past the cooldown makes the next penalty a first one again; one before it does not |
| `Governor.StartsAtOnce` | src/clio/governor.ts:133-153 | Once the cooldown has passed, a call with a free slot starts at once |
| `Governor.FirstWaiterStarts` | src/clio/governor.ts:133-153 | When a slot is released the first waiter has it, and starts once the cooldown has passed |
| `Governor.DefaultHolds` | src/clio/governor.ts:55-62 | With the default options the holds are 1, 2, 4, 8, 16 and 32 seconds, then a minute each |
| `Governor.ServedInOrder` | src/clio/governor.ts:215-233 | Along any run waiters leave only from the front, and later ones stand behind those still waiting |
| `Governor.WaitersWaitForSomeone` | src/clio/governor.ts:225-233 | A queued caller always waits for a slot somebody holds or was just granted |
| `Governor.EveryAbleEventIsPossible` | src/clio/governor.ts:225-233 | No event of a run is ever refused for want of a slot to give back |
| `Governor.ReleaseIsIdempotent` | src/clio/governor.ts:147-152 | Calling a release callback again does nothing |
| `Governor.BackoffEscalates` | src/clio/governor.ts:165-168 | Penalties in a row back off no less each time, up to the maximum |
| `Client.Request` | src/clio/client.ts:68-125 | The retry loop's calls on the governor in order - a slot for each attempt, a penalty with each load signal, a reward with a success - and when it stops: success, an error not to be retried, or the last retry |
| `Client.OneSlotAtATime` | src/clio/client.ts:72-124 | However the attempts go, at no moment is more than one slot held, and in the end none |
| `GapTracking.GapTracker.Observe` | src/livetail/gapTracker.ts:23-36 | One observation: the new position and the gap it reveals |
| `GapTracking.Partition` | src/livetail/gapTracker.ts:23-36 | After any observations the accepted ledgers and the reported gaps together are exactly the interval since the anchor, each ledger in one of them; gaps are non-empty, ascending and disjoint |
| `Heal.BackfillGap` | src/livetail/gapFill.ts:60-128 | Healing a gap pages every issuer over it, each page with what is tracked by then, and counts the rows kept; it fails exactly when a page is refused, and then leaves what it wrote before |
| `Heal.HealStopsExactlyWhen` | src/livetail/gapFill.ts:60-128 | A heal is cut short if and only if the delta writer refuses some page of the gap |
| `Heal.CountIsArrivals` | src/livetail/gapFill.ts:60-128 | The count it reports is the number of rows that arrive by it |
| `Heal.HealStores` | src/livetail/gapFill.ts:60-128 | A heal stores every row kept of every issuer's pages, and loses nothing |
| `Heal.HealIsArrivals` | src/livetail/gapFill.ts:60-128 | A heal is its kept rows arriving one by one with the tail's hook |
| `Heal.HealedIsArrivals` | src/livetail/gapFill.ts:60-128 | So is a heal that is cut short by a refused page |
| `HealPool.PoolHeals` | src/livetail/gapFill.ts:86-146 | The same with several issuers at once, in every interleaving with each other and with everything else |
| `HealPool.RunnerGoesOn` | src/livetail/gapFill.ts:86-146 | A runner that has not left can always go on, unless its next page is refused |
| `HealPool.PoolEnds` | src/livetail/gapFill.ts:86-146 | However a pool interleaves, its runners make one move for each page, two for each issuer and one for each runner, and have all left exactly when these are made; until then, when no page is refused, each can go on |
| `HealPool.PoolIsArrivals` | src/livetail/gapFill.ts:86-146 | Any interleaving of the pool with other writers is a sequence of arrivals |
| `LiveTail.Tail.OnClosed` | src/livetail/liveTail.ts:84-97 | A ledger event: the close time, the tracker, and the heal of the gap before the next event; it fails exactly when the heal does, and keeps what that wrote |
| `LiveTail.Tail.OnDelivered` | src/livetail/liveTail.ts:98-108 | A transaction event: rows and deltas in one step, or neither when the deltas are refused |
| `LiveTail.Tail.Run` | src/livetail/liveTail.ts:81-110 | The event loop handles the events in order until they end, one fails, or it is stopped, and says how many it handled |
| `LiveTail.TailCounts` | src/livetail/liveTail.ts:98-108 | Over a run the tail's count grows by the transactions delivered to it |
| `LiveTail.FailsExactlyWhen` | src/livetail/liveTail.ts:81-110 | Handling an event fails if and only if the delta writer refuses the delivered transaction or a page of the gap to heal |
| `TailLedgers.RunRecords` | src/livetail/liveTail.ts:86-91 | After any run of the tail a ledger has a close time if and only if it had one or an event announced it with one; it is the one it had, or else the first announced |
| `TailLedgers.WindowFollowsTail` | src/api/methods/gatewayBalances.ts:184-222 | So the tail's high-water is at least every ledger so announced, and the window of an issuance covered from before a ledger includes it once the tail announced it or a later one |
| `LiveTail.TailIsComplete` | src/livetail/liveTail.ts:81-110 | Every in-scope transaction of every ledger since the anchor is stored once those of the announced ledgers were delivered; those of skipped ledgers are stored, with their links, by the heals alone |
| `LiveTail.TailIsArrivals` | src/livetail/liveTail.ts:81-110 | A run of the tail, its heals one by one or in a pool and other writers beside it, leaves the ingested tables its arrivals leave |
| `LiveTail.TailCurrentExactlyWhen` | src/livetail/liveTail.ts:98-108 | The deltas of an issuance are those of the stored metadata after such a run, with hooks that grow, if and only if each stored transaction that moves it had them or arrived with it in the hook |
| `Traversal.Traverse` | src/discovery/strategies/traversal.ts:64-94 | The walk finds exactly the accounts reachable from the issuer in the transfer graph, cycles included, reads each history exactly once, terminates, and keeps of each account the lowest known ledger at which it is shown |
| `Traversal.Discover` | src/discovery/fields.ts:34-45 | The result lists them in strictly ascending order |
| `Traversal.RelatedExactlyWhen` | src/discovery/strategies/traversal.ts:27-38 | A transaction concerns a token if and only if it names it, an amount of it is in it, or its metadata has an object of it with an owner |
| `Traversal.PartiesAre` | src/discovery/strategies/traversal.ts:40-52 | It connects exactly its sender, its destination, its holder and the owners of those objects |
| `Traversal.HoldersAreReachable` | src/discovery/strategies/traversal.ts:55-63 | Whoever ever held the token is reachable, when each transfer is in its sender's history |
| `Deletion.FindRemovable` | src/admin/adminApi.ts:382-404 | An account is removed if and only if it holds this issuance and no other, or issues it, issues no other and holds no other |
| `Deletion.Purge` | src/admin/adminApi.ts:389-438 | The deletion's transaction, table by table, and the counts it reports |
| `Deletion.DeleteIssuance` | src/admin/adminApi.ts:369-442 | Null and no change when the issuance does not exist; else the archive without it, with the counts of what went |
| `Deletion.DeletionIsClean` | src/admin/adminApi.ts:407-432 | No dangling reference is left, and no transaction that nothing refers to |
| `Deletion.DeltasSurviveExactlyWhen` | src/admin/adminApi.ts:407-423 | Another issuance's deltas all survive if and only if none is of an account that holds the deleted one alone, or issues it alone and holds no other; no surviving delta changes |
| `Deletion.ScopedDeltasSurvive` | src/admin/adminApi.ts:407-423 | They do when each delta's account is in scope for its issuance |
| `Deletion.BalancesSurvive` | src/admin/adminApi.ts:369-442 | Then every balance of every other issuance, at every ledger, is what it was |
| `Deletion.ReadsSurvive` | src/admin/adminApi.ts:369-442 | The state queries of every other issuance read the same rows, so its holder lists stay |
| `DeletionFrame.CirculatingSurvives` | src/admin/adminApi.ts:369-442 | Where its deltas are of accounts in its scope, what is in circulation of another issuance, whichever accounts are left out, at any ledger, is what it was |
| `DeletionFrame.GroupedSurvives` | src/api/methods/gatewayBalances.ts:93-102 | Then the grouped query answers the same for it |
| `DeletionFrame.WindowSurvives` | src/api/methods/gatewayBalances.ts:184-222 | Another issuance's coverage rows in scope are the same, and its window includes the same ledgers |
| `DeletionFrame.WhatIsLeft` | src/admin/adminApi.ts:369-442 | What is left, table by table: exactly the rows that name neither the issuance nor an account that goes, and the transactions some row still names, each unchanged |
| `Deletion.JobsSurviveExactlyWhen` | src/admin/adminApi.ts:407-423 | A job of another issuance survives, unchanged, if and only if its address is neither; its issuer's sweep job if and only if the issuer is not a holder of the deleted one alone |
| `Deletion.IssuerSurvivesExactlyWhen` | src/admin/adminApi.ts:390-404 | Another issuance's issuer keeps its account row if and only if it is not a holder of the deleted one alone |
| `Deletion.ExclusiveIssuerIsPurged` | src/admin/adminApi.ts:390-404 | An issuer that holds only the deleted issuance does lose its row, jobs and coverage, although its own issuance stays |
| `AccountTx.ClampLimit` | src/api/methods/accountTx.ts:17-21 | A limit between 1 and 400, the default when absent, the truncated number where that lies between them, the nearer end otherwise |
| `AccountTx.Bounds` | src/api/methods/accountTx.ts:93-96 | The window is exactly the ledgers both asked for and covered |
| `AccountTx.MarkerRoundTrip` | src/api/methods/accountTx.ts:30-38 | A printed marker parses back to the cursor it names, whatever the hash contains |
| `AccountTx.MarkerIsRead` | src/api/methods/accountTx.ts:30-38 | What comes before a marker's first colon must read as a ledger and what comes after it must not be empty; anything else is no cursor |
| `AccountTx.PagingIsComplete` | src/api/methods/accountTx.ts:98-123 | Following markers while rows are inserted between pages returns rows in strict order, in either direction, none twice, each a row of some page's moment, and by the end every row there was at the start |
| `AccountTx.HistoryIsComplete` | src/api/methods/accountTx.ts:93-123 | Over an archive that stays as it is, what was returned when no marker is left is exactly the account's transactions in the ledgers asked for and covered |
| `AccountTx.PagesNeeded` | src/api/methods/accountTx.ts:98-123 | With nothing inserted, paging is over after n pages if and only if n is at least one and n pages can hold all rows |
| `AccountTx.IngestAddsRows` | src/db/repositories/transactions.ts:30-68 | Ingest between pages only adds rows to the window |
| `MptHolders.PageIsKeyset` | src/api/methods/mptHolders.ts:54-66 | A page of holders is a keyset page over their object ids, so the same paging results hold |
| `LedgerTime.ResolveAtOrBefore` | src/db/repositories/ledgers.ts:41-48 | The highest recorded ledger closed at or before the time, none exactly when there is none |
| `LedgerTime.AtOrBefore` | src/api/ledgerTime.ts:89-106 | One probe: from the cache when it knows, else from upstream and cached; the cache keeps agreeing with upstream |
| `LedgerTime.LazyResolve` | src/api/ledgerTime.ts:77-126 | The resolver's answer, probes, upstream calls and cache are those of the search over the archive's ledger range |
| `LedgerTime.SearchIsSound` | src/api/ledgerTime.ts:109-125 | Even with unknown close times an answer is a ledger of the range closed at or before the time |
| `LedgerTime.SearchIsExact` | src/api/ledgerTime.ts:109-125 | With known, non-decreasing times the answer is the highest such ledger, null exactly when there is none |
| `LedgerTime.SearchIsShort` | src/api/ledgerTime.ts:109-125 | At most the binary logarithm of the range, rounded down, and one more probe |
| `LedgerTime.RepeatAsksNothing` | src/api/ledgerTime.ts:89-106 | A repeat over probes that have close times asks upstream nothing |
| `LedgerTime.LazyAgreesWithTable` | src/api/ledgerTime.ts:59-126 | It agrees with the table resolver when the table holds exactly the range |
| `LedgerTime.EnsureCloseTimes` | src/api/ledgerTime.ts:22-51 | Each missing ledger is asked for once; those with a close time are filled in, the rest left blank, nothing overwritten |
| `Reporting.ResolveLedger` | src/api/methods/reporting.ts:115-141 | A point in time is the archive's latest ledger, a given number, the ledger in effect at a date, or the fallback, in that order; only a date touches the close-time cache, which keeps agreeing with upstream |
| `Reporting.BalanceQuery` | src/api/methods/reporting.ts:160-206 | The balance query's answers, case by case; a balance is the sum of the account's deltas up to the ledger resolved |
| `Reporting.BalanceAtDateIsExact` | src/api/ledgerTime.ts:73-76 | With known, non-decreasing close times the balance at a date sums precisely the changes of the ledgers closed by then, and there is none when no ledger is that old |
| `Reporting.ItemsAddUp` | src/api/methods/reporting.ts:256-294 | The itemised changes of a ledger range add up to the difference of the balances at its ends |
| `Reporting.ListedByDate` | src/api/methods/reporting.ts:214-246 | A date range lists the ledgers closed after its first date and by its second, and the one in effect at the first, which may have closed before it |
| `Gateway.LatestLedger` | src/api/methods/gatewayBalances.ts:162-170 | The newest ledger the tail processed or a transaction lies in, 0 when there is neither |
| `Gateway.ConservativeCoverage` | src/api/methods/gatewayBalances.ts:184-222 | The window includes exactly the ledgers that some in-scope coverage row exists for, with every in-scope account covered, every row starting at or before them, and every row ending at or after them or the tail having reached them; null when there are none such |
| `Gateway.IncludedExactlyWhen` | src/api/methods/gatewayBalances.ts:184-222 | The same of the window as a value: which ledgers it includes, in terms of the tables alone |
| `Gateway.WindowIsCovered` | src/api/methods/gatewayBalances.ts:184-222 | Before the tail has run every in-scope account has a coverage row containing any ledger of the window, and all its rows contain it |
| `Gateway.RefusedExactlyWhen` | src/api/methods/gatewayBalances.ts:184-222 | The window is refused if and only if an in-scope account has no coverage row, there is none, or one starts after another ends and after the tail |
| `Gateway.CheckCoverage` | src/api/methods/gatewayBalances.ts:69-88 | Passes only when every issuance's window includes the ledger, and names the first whose window does not otherwise |
| `Gateway.GroupedSum` | src/api/methods/gatewayBalances.ts:93-102 | The grouped balances of all but some accounts add up to all the other deltas up to the ledger |
| `Gateway.Tally` | src/api/methods/gatewayBalances.ts:108-120 | The obligation is the total of the rows but the issuer's and the hot wallets'; exactly the hot wallets' non-zero rows are broken out; together they are the total of all rows but the issuer's |
| `Gateway.GatewayBalances` | src/api/methods/gatewayBalances.ts:36-138 | Refuses bad parameters, an issuer without issuances and uncovered ledgers, exactly so; in every success, for every choice of hot wallets, each key reports the last non-zero obligation of its issuances; that, the hot-wallet values and what was overwritten under the key add up to everything the other holders hold; the entries broken out are exactly the hot wallets' balances; nothing is reported outside coverage |
| `Gateway.KeySharedExactlyWhen` | src/api/methods/gatewayBalances.ts:107 | Two of an issuer's currencies share a key if and only if neither has 3 characters, both have at most 20 bytes, and they differ only in the NULs they end in |
| `Gateway.KeyConservedExactlyWhen` | src/api/methods/gatewayBalances.ts:103-123 | With no negative obligation, what a key reports is everything its issuances have if and only if no two of them both owe something |
| `Gateway.AloneIsConserved` | src/api/methods/gatewayBalances.ts:69-124 | An issuance whose currency merges with no other is reported in full under a key of its own, for every choice of hot wallets |
| `Gateway.NulFreeAlone` | src/xrpl/currency.ts:35-38 | Codes that do not end in NUL merge with none of the issuer's others |
| `Gateway.SecondOverwritesFirst` | src/api/methods/gatewayBalances.ts:123 | Two currencies that merge, 5 and 7 owed: the one key they share reports 7 of 12 |

## Left out

- Worker.WriteRows: asks that the texts of a page's links tell them apart, which hex hashes bring about (`BatchWriter.PlainHashesTell`); what the batch writer leaves otherwise is in `BatchWriter.InsertTransactionRowsMany`. Its plan leaves out rows locked by the key-share lock of a foreign key, and the sweep's holder rows and the job row written after.
- Ordering.Lt: compares characters where the source compares UTF-16 code units; the two differ only above U+FFFF, which no hash or address contains.
- ClaimLoops.EveryJobRuns: a job run is one step from claimed to completed or failed; its inner steps are `Backfill.EveryRun`.
- Currency.CurrencyToString: characters above U+FFFF are single characters here and two code units in the source.
- Currency.NormalizeCurrency: starts from the trimmed input.
- AccountTx.MarkerRoundTrip: the runtime's number parser is a parameter, assumed exact on plain decimals up to the largest safe integer.
- Backfill.EveryRun: the page chain upstream does not change during the run, and no deletion of the issuance runs beside it.
- LiveTail.TailIsComplete: a heal that fails ends the run in the source; only runs whose gaps are healed before the next event are considered.
- Heal.BackfillGap: takes the issuers one by one, as with a pool of one; `HealPool` takes several at once and `LiveTail` runs either. What the other runners of a pool still write after one has failed is not modelled.
- Reporting.BalanceQuery: the sum is the query's answer, given as a function; warnings about coverage are not modelled.
- Gateway.GatewayBalances: hot-wallet entries are one list, which the source groups by address; the query answers are given.
- Traversal.Traverse: needs a finite set of accounts closed under the histories, which the ledger's accounts are.
- Governor.BackoffEscalates: the backoff factor is a whole number, as the configuration enforces.
- The query engine: statements that select, group or sort are stated by what they answer (`AccountTx.Answers`, `Gateway.Grouped`, `Routes.Reads`).
- Decoding of binary blobs, transaction hashing, MPT id decoding and address encoding: decoded values are the input; an issuance's issuer is a function given to the deletion. Blobs that do not decode are absent from the reads.
- Decimal text: IOU amounts are reals, since the decimal library and SQL sums are exact; their printed forms are not modelled.
- Warnings, error shapes, method dispatch, dashboard, logging, compaction after a deletion, and the admin coverage summary, which differs from the gateway's by joining only covered accounts: no further property.
- Authorisation and trust-line scans, strategy resolution, account_info and account_lines shaping, issuance lookup by name: one-pass filters.
- Sockets, the reconnecting transport, pools, advisory migration lock, TLS and configuration: input and output.
- The order in which issuers are taken by the heal pool beyond the shared index, and its running count: `HealPool` proves what is stored, `Heal.BackfillGap` counts with one issuer at a time.
