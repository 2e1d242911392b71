/** The archive's tables (src/db/migrations.ts) as values, and what one row's upsert does to each. */
module Tables {
  import opened Options
  import opened Metadata

  /** A stored transaction. `payload` stands for the columns nothing here looks into; the metadata
      blob is given decoded. */
  datatype TxRow = TxRow(ledger: int, payload: string, meta: Meta)

  /** Two rows of one transaction. The other columns - where it was fetched from, and when - differ with every fetch. */
  predicate SameRecord(a: TxRow, b: TxRow) {
    a.ledger == b.ledger && a.meta == b.meta
  }

  datatype IngestTx = IngestTx(hash: string, row: TxRow, accounts: seq<string>)

  datatype Issuance = Issuance(id: int, token: Token)

  datatype Coverage = Coverage(address: string, fromLedger: int, toLedger: int)

  datatype Status = Pending | Running | Completed | Failed

  datatype Kind = AccountSweep | IssuerSweep

  /** `marker` is the resume cursor; markers are the positions of a fixed upstream page chain. */
  datatype Job = Job(address: string, issuance: int, kind: Kind, fromLedger: Option<int>,
                     marker: Option<nat>, status: Status, txCount: nat)

  datatype Db = Db(
    issuances: map<int, Token>,
    transactions: map<string, TxRow>,
    accounts: map<string, Option<int>>,
    links: set<(string, string)>,
    holders: map<(string, int), Option<int>>,
    deltas: map<(string, string, int), real>,
    coverage: seq<Coverage>,
    jobs: map<int, Job>,
    ledgers: map<int, int>)

  ghost predicate ForeignKeys(db: Db) {
    && (forall l :: l in db.links ==> l.0 in db.transactions && l.1 in db.accounts)
    && (forall d :: d in db.deltas ==> d.0 in db.transactions && d.1 in db.accounts && d.2 in db.issuances)
    && (forall h :: h in db.holders ==> h.0 in db.accounts && h.1 in db.issuances)
    && (forall c :: c in db.coverage ==> c.address in db.accounts)
    && (forall j :: j in db.jobs ==> db.jobs[j].address in db.accounts && db.jobs[j].issuance in db.issuances)
  }

  /** SQL `LEAST`: NULL is ignored. */
  function Least(a: Option<int>, b: Option<int>): Option<int> {
    if a.None? then b else if b.None? then a else if a.value <= b.value then a else b
  }

  function Lookup<K, V>(m: map<K, Option<V>>, k: K): Option<V> {
    if k in m then m[k] else None
  }

  function Elements(xs: seq<string>): (r: set<string>)
    ensures forall x :: x in r <==> x in xs
  {
    set x | x in xs
  }

  /** `INSERT INTO transactions ... ON CONFLICT DO NOTHING`. */
  function PutTx(t: map<string, TxRow>, tx: IngestTx): map<string, TxRow> {
    if tx.hash in t then t else t[tx.hash := tx.row]
  }

  /** `INSERT INTO accounts ... DO UPDATE SET first_seen_ledger = LEAST(...)`, for several addresses. */
  function SeeAccounts(t: map<string, Option<int>>, addresses: set<string>, ledger: int): map<string, Option<int>> {
    map a | a in t.Keys + addresses :: if a in addresses then Least(Lookup(t, a), Some(ledger)) else t[a]
  }

  function LinksOf(hash: string, addresses: set<string>): set<(string, string)> {
    set a | a in addresses :: (hash, a)
  }

  /** One transaction's rows: its own, its accounts' and their links. */
  function InsertOne(db: Db, tx: IngestTx): Db {
    db.(transactions := PutTx(db.transactions, tx),
        accounts := SeeAccounts(db.accounts, Elements(tx.accounts), tx.row.ledger),
        links := db.links + LinksOf(tx.hash, Elements(tx.accounts)))
  }

  /** The transactions of a list inserted one by one. */
  function InsertEach(db: Db, txs: seq<IngestTx>): Db {
    if txs == [] then db else InsertOne(InsertEach(db, txs[..|txs| - 1]), txs[|txs| - 1])
  }

  /** The database: one field per table. Every method that writes says what the tables hold after. */
  class Archive {
    var issuances: map<int, Token>
    var transactions: map<string, TxRow>
    var accounts: map<string, Option<int>>
    var links: set<(string, string)>
    var holders: map<(string, int), Option<int>>
    var deltas: map<(string, string, int), real>
    var coverage: seq<Coverage>
    var jobs: map<int, Job>
    var ledgers: map<int, int>

    function Contents(): Db
      reads this
    {
      Db(issuances, transactions, accounts, links, holders, deltas, coverage, jobs, ledgers)
    }

    /** Roll a failed transaction back. */
    method Restore(db: Db)
      modifies this
      ensures Contents() == db
    {
      issuances := db.issuances;
      transactions := db.transactions;
      accounts := db.accounts;
      links := db.links;
      holders := db.holders;
      deltas := db.deltas;
      coverage := db.coverage;
      jobs := db.jobs;
      ledgers := db.ledgers;
    }
  }
}
