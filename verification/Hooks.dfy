/** Writers derive different issuances: a sweep its own only, the tail those registered by then
    (src/server.ts:363, src/admin/orchestrator.ts:122). What re-derivation finds after them. */
module Hooks {
  import opened Options
  import opened Metadata
  import opened Tables
  import opened Ingest
  import opened Derive
  import opened Rederive
  import opened Arrivals
  import opened History
  import MptDeltas

  /** After any arrivals, re-deriving an issuance over some of the stored transactions - those in scope, say -
      changes nothing if and only if each of them that moves it had its deltas before, or arrived at least
      once with the issuance in its writer's hook. */
  lemma RederiveAfterIngestExactlyWhen(db: Db, arrivals: seq<Arrival>, i: Issuance, rows: string -> TxRow, hashes: seq<string>)
    requires Faithful(db, i) && Copied(rows, db) && AllProper(rows, i, arrivals) && Distinct(hashes)
    requires forall h :: h in hashes ==> h in ArriveAll(db, arrivals).transactions && OneDeltaPerAccount(i.token, rows(h).meta)
    ensures var after := ArriveAll(db, arrivals);
            && (forall h :: h in hashes ==> h in after.transactions)
            && (AddDeltas(after, i.id, BatchRows(after, i.token, hashes)) == after <==>
                forall h :: h in hashes && Moves(i, rows(h).meta) ==> Derived(db, i, h, rows(h).meta) || ArrivedWith(arrivals, h, i))
  {
    hide ArriveAll, Faithful, AllProper, Distinct, OneDeltaPerAccount, BatchRows, AddDeltas, ArrivedWith, TokenDeltas;
    var after := ArriveAll(db, arrivals);
    DerivedExactlyWhen(db, arrivals, i, rows, "");
    forall h | h in hashes
      ensures SameRecord(after.transactions[h], rows(h))
      ensures Derived(after, i, h, rows(h).meta) <==>
              !Moves(i, rows(h).meta) || Derived(db, i, h, rows(h).meta) || ArrivedWith(arrivals, h, i)
    {
      DerivedExactlyWhen(db, arrivals, i, rows, h);
      StillnessIsDerived(after, i, h, rows(h).meta);
    }
    RederiveChangesNothingExactlyWhen(after, i, hashes);
  }

  lemma StillnessIsDerived(db: Db, i: Issuance, h: string, meta: Meta)
    ensures !Moves(i, meta) ==> Derived(db, i, h, meta)
  {
    hide TokenDeltas;
  }

  // ---- A sweep of another issuance ----

  const ONE := Issuance(1, Mpt("M"))
  const TWO := Issuance(2, Mpt("N"))

  /** A holder of both, known to both issuances' scopes, and no transaction yet: the sweep of the first
      started above the ledger in question. */
  function Registered(): Db {
    Db(map[1 := Mpt("M"), 2 := Mpt("N")], map[], map["r" := None], {}, map[("r", 1) := None, ("r", 2) := None], map[], [], map[], map[])
  }

  /** One transaction that moves the holder in both. */
  function Both(): TxRow {
    var first := Wrapper(Some(TokenNode("M", "o", "r", 5, None)), None, None);
    var second := Wrapper(Some(TokenNode("N", "p", "r", 7, None)), None, None);
    TxRow(60, "", Meta(Some([Some(first), Some(second)]), None))
  }

  lemma BothMoves()
    ensures TokenDeltas(ONE.token, Both().meta) == [AccountDelta("r", 5.0)]
    ensures TokenDeltas(TWO.token, Both().meta) == [AccountDelta("r", 7.0)]
  {
    var nodes := Both().meta.Nodes();
    assert nodes[..1] == [nodes[0]] && [nodes[0]][..0] == [] && nodes == [nodes[0]] + [nodes[1]];
    assert MptDeltas.NodeDeltas(nodes[0], "M") == [AccountDelta("r", 5.0)] && MptDeltas.NodeDeltas(nodes[1], "M") == [];
    assert MptDeltas.NodeDeltas(nodes[0], "N") == [] && MptDeltas.NodeDeltas(nodes[1], "N") == [AccountDelta("r", 7.0)];
    assert MptDeltas.DeltasOf([nodes[0]], "M") == [AccountDelta("r", 5.0)];
    assert MptDeltas.DeltasOf([nodes[0]], "N") == [];
  }

  /** The sweep of the second stores it and derives its own issuance only: the transaction is in scope of the
      first, whose deltas now lack it, and re-deriving the first writes a row that no ingest had written. */
  lemma AnothersSweepLeavesGap()
    ensures var after := AfterTwo();
            && "A" in InScopeHashes(after, ONE.id) && "A" in after.transactions
            && Current(after, TWO) && !Current(after, ONE)
            && AddDeltas(after, ONE.id, BatchRows(after, ONE.token, ["A"])) != after
  {
    hide ArriveAll, TokenDeltas, Both, AddDeltas, BatchRows, AfterTwo, Current, Registered, InScopeHashes;
    TwoStores();
    OnlySecondDerived();
    RederiveWrites();
  }

  /** The archive after the sweep of the second. */
  function AfterTwo(): Db {
    ArriveAll(Registered(), [Arrival(IngestTx("A", Both(), ["i", "r"]), [TWO])])
  }

  lemma TwoStores()
    ensures var after := AfterTwo(); "A" in InScopeHashes(after, ONE.id) && "A" in after.transactions
  {
    hide ArriveAll, TokenDeltas, Both;
    var db, arrivals := Registered(), [Arrival(IngestTx("A", Both(), ["i", "r"]), [TWO])];
    assert arrivals[0] in arrivals;
    ArrivalsAreStored(db, arrivals, arrivals[0]);
    ArrivalsFrame(db, arrivals);
    assert ("A", "r") in AfterTwo().links && ("r", ONE.id) in AfterTwo().holders;
  }

  lemma OneArrival(arrivals: seq<Arrival>, rows: string -> TxRow)
    requires arrivals == [Arrival(IngestTx("A", Both(), ["i", "r"]), [TWO])] && forall h :: rows(h) == Both()
    ensures AllProper(rows, ONE, arrivals) && AllProper(rows, TWO, arrivals)
    ensures Faithful(Registered(), ONE) && Faithful(Registered(), TWO) && Copied(rows, Registered())
    ensures !ArrivedWith(arrivals, "A", ONE) && ArrivedWith(arrivals, "A", TWO)
    ensures Moves(ONE, Both().meta) && OneDeltaPerAccount(ONE.token, Both().meta)
  {
    hide TokenDeltas, Both;
    BothMoves();
    assert arrivals[0] in arrivals;
  }

  lemma OnlySecondDerived()
    ensures Current(AfterTwo(), TWO) && !Current(AfterTwo(), ONE)
  {
    hide ArriveAll, TokenDeltas, Both, Faithful, Copied, AllProper, ArrivedWith, Registered, Derived;
    var db, arrivals := Registered(), [Arrival(IngestTx("A", Both(), ["i", "r"]), [TWO])];
    var rows := (h: string) => Both();
    OneArrival(arrivals, rows);
    NothingRegistered();
    NotDerived(db);
    DerivedExactlyWhen(db, arrivals, ONE, rows, "A");
    DerivedExactlyWhen(db, arrivals, TWO, rows, "A");
    CurrentExactlyWhen(db, arrivals, ONE, rows);
    CurrentExactlyWhen(db, arrivals, TWO, rows);
    TwoStores();
    forall h | h in AfterTwo().transactions ensures h == "A" {
      DerivedExactlyWhen(db, arrivals, ONE, rows, h);
    }
  }

  lemma NothingRegistered()
    ensures Registered().transactions == map[] && Registered().deltas == map[]
  {
  }

  lemma RederiveWrites()
    ensures "A" in AfterTwo().transactions
    ensures AddDeltas(AfterTwo(), ONE.id, BatchRows(AfterTwo(), ONE.token, ["A"])) != AfterTwo()
  {
    hide ArriveAll, TokenDeltas, Both, Faithful, Copied, AllProper, ArrivedWith, Registered, Derived, AddDeltas, BatchRows, Moves, OneDeltaPerAccount, InScopeHashes;
    var db, arrivals := Registered(), [Arrival(IngestTx("A", Both(), ["i", "r"]), [TWO])];
    var rows := (h: string) => Both();
    OneArrival(arrivals, rows);
    NothingRegistered();
    NotDerived(db);
    TwoStores();
    RederiveAfterIngestExactlyWhen(db, arrivals, ONE, rows, ["A"]);
  }

  lemma NotDerived(db: Db)
    requires db.deltas == map[]
    ensures !Derived(db, ONE, "A", Both().meta)
  {
    hide TokenDeltas, Both;
    BothMoves();
    assert AccountDelta("r", 5.0) in TokenDeltas(ONE.token, Both().meta);
  }
}
