/** `account_tx`: bounds, limits, markers and keyset paging (src/api/methods/accountTx.ts). */
module AccountTx {
  import opened Options
  import opened Ordering
  import opened Tables
  import opened BatchWriter
  import opened Ingest

  const DEFAULT_LIMIT := 200
  const MAX_LIMIT := 400
  const MAX_SAFE_INTEGER := 9007199254740991

  // ---- Limits and bounds ----

  /** `Math.trunc`. */
  function Truncate(x: real): int {
    if x >= 0.0 then x.Floor else -((-x).Floor)
  }

  /** Anything that is not a finite number is absent. */
  function ClampLimit(value: Option<real>): (limit: int)
    ensures 1 <= limit <= MAX_LIMIT
    ensures value.None? ==> limit == DEFAULT_LIMIT
    ensures value.Some? && 1.0 <= value.value < 401.0 ==> limit as real <= value.value < limit as real + 1.0
    ensures value.Some? && value.value < 1.0 ==> limit == 1
    ensures value.Some? && value.value >= 401.0 ==> limit == MAX_LIMIT
  {
    if value.None? then DEFAULT_LIMIT
    else
      var n := Truncate(value.value);
      var low := if n < MAX_LIMIT then n else MAX_LIMIT;
      if low > 1 then low else 1
  }

  datatype Window = Window(lo: int, hi: int)

  predicate Within(w: Window, n: int) {
    w.lo <= n <= w.hi
  }

  /** A negative bound asks for nothing. */
  predicate Asked(reqMin: Option<int>, reqMax: Option<int>, n: int) {
    && (reqMin.Some? && reqMin.value >= 0 ==> reqMin.value <= n)
    && (reqMax.Some? && reqMax.value >= 0 ==> n <= reqMax.value)
  }

  predicate Covered(coverage: Option<Coverage>, n: int) {
    if coverage.Some? then coverage.value.fromLedger <= n <= coverage.value.toLedger else 0 <= n <= MAX_SAFE_INTEGER
  }

  /** The requested range cut down to the account's coverage, when it has one. */
  method Bounds(reqMin: Option<int>, reqMax: Option<int>, coverage: Option<Coverage>) returns (w: Window)
    ensures coverage.Some? ==> coverage.value.fromLedger <= w.lo && w.hi <= coverage.value.toLedger
    ensures forall n :: Within(w, n) <==> Asked(reqMin, reqMax, n) && Covered(coverage, n)
  {
    var covLo, covHi := 0, MAX_SAFE_INTEGER;
    if coverage.Some? {
      covLo, covHi := coverage.value.fromLedger, coverage.value.toLedger;
    }
    var qMin, qMax := covLo, covHi;
    if reqMin.Some? && reqMin.value >= 0 && reqMin.value > covLo {
      qMin := reqMin.value;
    }
    if reqMax.Some? && reqMax.value >= 0 && reqMax.value < covHi {
      qMax := reqMax.value;
    }
    w := Window(qMin, qMax);
  }

  // ---- Markers ----

  datatype Key = Key(ledger: int, hash: string)

  function Digit(n: nat): (c: char)
    requires n < 10
    ensures '0' <= c <= '9'
  {
    '0' + n as char
  }

  function Decimal(n: nat): (s: string)
    ensures s != ""
  {
    if n < 10 then [Digit(n)] else Decimal(n / 10) + [Digit(n % 10)]
  }

  predicate AllDigits(s: string) {
    forall i :: 0 <= i < |s| ==> '0' <= s[i] <= '9'
  }

  function Value(s: string): nat
    requires AllDigits(s)
  {
    if s == "" then 0 else 10 * Value(s[..|s| - 1]) + (s[|s| - 1] as int - '0' as int)
  }

  lemma {:induction false} DecimalReadsBack(n: nat)
    ensures AllDigits(Decimal(n)) && Value(Decimal(n)) == n
  {
    if n >= 10 {
      DecimalReadsBack(n / 10);
      var s := Decimal(n);
      assert s[..|s| - 1] == Decimal(n / 10);
    } else {
      assert Decimal(n)[..0] == "";
    }
  }

  /** The runtime's `Number`, where it gives an integer; exact on plain decimals it can represent. */
  type Numeric = string -> Option<int>

  ghost predicate ReadsDecimals(number: Numeric) {
    forall s :: s != "" && AllDigits(s) && Value(s) <= MAX_SAFE_INTEGER ==> number(s) == Some(Value(s))
  }

  function Colon(s: string): (i: nat)
    ensures i <= |s| && (i < |s| ==> s[i] == ':') && forall j :: 0 <= j < i ==> s[j] != ':'
  {
    if s == "" || s[0] == ':' then 0 else 1 + Colon(s[1..])
  }

  /** An absent or unparseable marker is `None`: paging then starts from the beginning. */
  function ParseMarker(number: Numeric, marker: Option<string>): Option<Key> {
    if marker.None? then None
    else
      var s := marker.value;
      var i := Colon(s);
      if i == |s| then None
      else
        var ledger, hash := number(s[..i]), s[i + 1..];
        if ledger.None? || ledger.value < 0 || hash == "" then None else Some(Key(ledger.value, hash))
  }

  function PrintMarker(k: Key): string
    requires k.ledger >= 0
  {
    Decimal(k.ledger) + ":" + k.hash
  }

  /** A printed marker parses back to the cursor it names, whatever the hash holds. */
  lemma MarkerRoundTrip(number: Numeric, k: Key)
    requires ReadsDecimals(number) && 0 <= k.ledger <= MAX_SAFE_INTEGER && k.hash != ""
    ensures ParseMarker(number, Some(PrintMarker(k))) == Some(k)
  {
    hide Decimal, Value;
    var s, d := PrintMarker(k), Decimal(k.ledger);
    DecimalReadsBack(k.ledger);
    assert s[|d|] == ':' && forall j :: 0 <= j < |d| ==> s[j] == d[j];
    assert Colon(s) == |d|;
    assert s[..|d|] == d && s[|d| + 1..] == k.hash;
  }

  lemma {:induction false} ColonEnds(prefix: string, rest: string)
    requires ':' !in prefix
    ensures Colon(prefix + ":" + rest) == |prefix|
  {
    var s := prefix + ":" + rest;
    if prefix != "" {
      assert s[1..] == prefix[1..] + ":" + rest;
      ColonEnds(prefix[1..], rest);
    }
  }

  /** What comes before the first colon must read as a ledger, what comes after it must not be empty; anything else
      is no cursor. */
  lemma MarkerIsRead(number: Numeric, prefix: string, rest: string)
    requires ':' !in prefix
    ensures ParseMarker(number, Some(prefix + ":" + rest)) ==
            if number(prefix).Some? && number(prefix).value >= 0 && rest != "" then Some(Key(number(prefix).value, rest)) else None
    ensures ParseMarker(number, Some(prefix)) == None && ParseMarker(number, None) == None
  {
    ColonEnds(prefix, rest);
    var s := prefix + ":" + rest;
    assert s[..|prefix|] == prefix && s[|prefix| + 1..] == rest;
  }

  // ---- Pages ----

  /** The row-value comparison of `ORDER BY ledger_index, hash`, in either direction. */
  predicate Past(ascending: bool, x: Key, y: Key) {
    if ascending then Less(x, y) else Less(y, x)
  }

  predicate Less(x: Key, y: Key) {
    x.ledger < y.ledger || (x.ledger == y.ledger && Lt(x.hash, y.hash))
  }

  lemma PastTransitive(ascending: bool, x: Key, y: Key, z: Key)
    requires Past(ascending, x, y) && Past(ascending, y, z)
    ensures Past(ascending, x, z)
  {
    if x.ledger == y.ledger == z.ledger {
      if ascending {
        LtTransitive(x.hash, y.hash, z.hash);
      } else {
        LtTransitive(z.hash, y.hash, x.hash);
      }
    }
  }

  lemma PastIrreflexive(ascending: bool, x: Key)
    ensures !Past(ascending, x, x)
  {
    LtIrreflexive(x.hash);
  }

  lemma PastTotal(ascending: bool, x: Key, y: Key)
    ensures Past(ascending, x, y) || x == y || Past(ascending, y, x)
  {
    LtTotal(x.hash, y.hash);
  }

  ghost predicate InOrder(ascending: bool, keys: seq<Key>) {
    forall i, j :: 0 <= i < j < |keys| ==> Past(ascending, keys[i], keys[j])
  }

  predicate After(ascending: bool, cursor: Option<Key>, k: Key) {
    cursor.None? || Past(ascending, cursor.value, k)
  }

  /** The rows the query ranges over: the account's, within the bounds. */
  function Rows(db: Db, account: string, w: Window): set<Key> {
    set l | l in db.links && l.1 == account && l.0 in db.transactions && Within(w, db.transactions[l.0].ledger)
      :: Key(db.transactions[l.0].ledger, l.0)
  }

  /** What the database answers: the rows past the cursor, in order, at most `limit + 1` of them. */
  ghost predicate Answers(rows: set<Key>, cursor: Option<Key>, ascending: bool, limit: nat, answer: seq<Key>) {
    && InOrder(ascending, answer) && |answer| <= limit + 1
    && (forall k :: k in answer ==> k in rows && After(ascending, cursor, k))
    && (forall k :: k in rows && After(ascending, cursor, k) ==>
          k in answer || (|answer| == limit + 1 && Past(ascending, answer[limit], k)))
  }

  /** Following the markers: what was returned so far, and the next cursor; `done` once none is given. */
  datatype Walk = Walk(keys: seq<Key>, cursor: Option<Key>, done: bool)

  const START := Walk([], None, false)

  function Next(w: Walk, answer: seq<Key>, limit: nat): Walk
    requires limit >= 1
  {
    if w.done then w
    else if |answer| > limit then Walk(w.keys + answer[..limit], Some(answer[limit - 1]), false)
    else Walk(w.keys + answer, w.cursor, true)
  }

  function Follow(answers: seq<seq<Key>>, limit: nat): Walk
    requires limit >= 1
  {
    if answers == [] then START else Next(Follow(answers[..|answers| - 1], limit), answers[|answers| - 1], limit)
  }

  /** Each answer is the database's to the cursor reached, over the rows there were at that moment. */
  ghost predicate Answered(snaps: seq<set<Key>>, answers: seq<seq<Key>>, ascending: bool, limit: nat)
    requires limit >= 1
  {
    && |snaps| == |answers|
    && (forall i, j :: 0 <= i < j < |snaps| ==> snaps[i] <= snaps[j])
    && forall i :: 0 <= i < |answers| && !Follow(answers[..i], limit).done ==>
         Answers(snaps[i], Follow(answers[..i], limit).cursor, ascending, limit, answers[i])
  }

  /** Where a walk stands: what it returned is in order and all of it up to the cursor; no row of `first`
      up to the cursor - or, once done, at all - is missing. */
  ghost predicate Inv(w: Walk, ascending: bool, first: set<Key>) {
    && InOrder(ascending, w.keys)
    && (w.cursor.Some? ==> forall k :: k in w.keys && !w.done ==> !Past(ascending, w.cursor.value, k))
    && (w.cursor.None? && !w.done ==> w.keys == [])
    && (forall k :: k in first && (w.done || !After(ascending, w.cursor, k)) ==> k in w.keys)
  }

  lemma InOrderJoin(ascending: bool, a: seq<Key>, b: seq<Key>)
    requires InOrder(ascending, a) && InOrder(ascending, b)
    requires forall x, y :: x in a && y in b ==> Past(ascending, x, y)
    ensures InOrder(ascending, a + b)
  {
    hide Past;
    forall i, j | 0 <= i < j < |a + b| ensures Past(ascending, (a + b)[i], (a + b)[j]) {
      if i < |a| <= j {
        assert a[i] in a && b[j - |a|] in b;
      }
    }
  }

  lemma BeforeCursor(ascending: bool, w: Walk, first: set<Key>, x: Key, y: Key)
    requires Inv(w, ascending, first) && !w.done && x in w.keys && After(ascending, w.cursor, y)
    ensures Past(ascending, x, y)
  {
    hide Past;
    PastTotal(ascending, x, w.cursor.value);
    if x != w.cursor.value {
      PastTransitive(ascending, x, w.cursor.value, y);
    }
  }

  lemma NextKeepsInv(w: Walk, ascending: bool, first: set<Key>, rows: set<Key>, answer: seq<Key>, limit: nat)
    requires limit >= 1 && Inv(w, ascending, first) && first <= rows
    requires !w.done ==> Answers(rows, w.cursor, ascending, limit, answer)
    ensures Inv(Next(w, answer, limit), ascending, first)
  {
    hide Past, InOrder;
    if !w.done {
      var n := if |answer| > limit then limit else |answer|;
      var page, after := answer[..n], Next(w, answer, limit);
      assert page == answer || n == limit;
      PageInOrder(ascending, answer, n);
      forall x, y | x in w.keys && y in page ensures Past(ascending, x, y) {
        BeforeCursor(ascending, w, first, x, y);
      }
      InOrderJoin(ascending, w.keys, page);
      if after.done {
        assert page == answer;
        forall k | k in first ensures k in after.keys {
        }
      } else {
        var last := answer[limit - 1];
        forall k | k in after.keys ensures !Past(ascending, last, k) {
          NotPastLast(ascending, w, first, answer, limit, k);
        }
        forall k | k in first && !After(ascending, after.cursor, k) ensures k in after.keys {
          if After(ascending, w.cursor, k) {
            WithinPage(ascending, rows, w.cursor, answer, limit, k);
          }
        }
      }
    }
  }

  lemma PageInOrder(ascending: bool, answer: seq<Key>, n: nat)
    requires InOrder(ascending, answer) && n <= |answer|
    ensures InOrder(ascending, answer[..n])
  {
    hide Past;
  }

  lemma NotPastLast(ascending: bool, w: Walk, first: set<Key>, answer: seq<Key>, limit: nat, k: Key)
    requires limit >= 1 && Inv(w, ascending, first) && !w.done && |answer| > limit && InOrder(ascending, answer)
    requires forall x :: x in answer ==> After(ascending, w.cursor, x)
    requires k in w.keys + answer[..limit]
    ensures !Past(ascending, answer[limit - 1], k)
  {
    hide Past;
    var last := answer[limit - 1];
    PastIrreflexive(ascending, k);
    if Past(ascending, last, k) {
      if k in w.keys {
        assert last in answer;
        BeforeCursor(ascending, w, first, k, last);
        PastTransitive(ascending, k, last, k);
      } else {
        var i :| 0 <= i < limit && answer[i] == k;
        if i < limit - 1 {
          PastTransitive(ascending, k, last, k);
        }
      }
    }
  }

  /** A row no further than the page's last row, and past the cursor, is on the page. */
  lemma WithinPage(ascending: bool, rows: set<Key>, cursor: Option<Key>, answer: seq<Key>, limit: nat, k: Key)
    requires limit >= 1 && Answers(rows, cursor, ascending, limit, answer) && |answer| > limit
    requires k in rows && After(ascending, cursor, k) && !Past(ascending, answer[limit - 1], k)
    ensures k in answer[..limit]
  {
    hide Past;
    if k in answer {
      var i :| 0 <= i < |answer| && answer[i] == k;
      assert answer[..limit][if i < limit then i else 0] == answer[if i < limit then i else 0];
    } else {
      PastTransitive(ascending, answer[limit - 1], answer[limit], k);
    }
  }

  lemma {:induction false} WalkKeepsInv(snaps: seq<set<Key>>, answers: seq<seq<Key>>, ascending: bool, limit: nat, first: set<Key>)
    requires limit >= 1 && Answered(snaps, answers, ascending, limit) && (snaps != [] ==> first <= snaps[0])
    ensures Inv(Follow(answers, limit), ascending, first)
    decreases |answers|
  {
    hide Answers, Next, Past, Inv;
    if answers == [] {
      StartInv(ascending, first);
    } else {
      var n := |answers| - 1;
      forall i | 0 <= i < n ensures answers[..n][..i] == answers[..i] {
      }
      assert Answered(snaps[..n], answers[..n], ascending, limit);
      WalkKeepsInv(snaps[..n], answers[..n], ascending, limit, first);
      assert snaps[0] <= snaps[n];
      NextKeepsInv(Follow(answers[..n], limit), ascending, first, snaps[n], answers[n], limit);
    }
  }

  lemma StartInv(ascending: bool, first: set<Key>)
    ensures Inv(START, ascending, first)
  {
  }

  /** Ledgers and, within a ledger, hashes run upwards or downwards, as asked. */
  ghost predicate Runs(ascending: bool, keys: seq<Key>) {
    forall i, j :: 0 <= i < j < |keys| ==>
      var x, y := if ascending then keys[i] else keys[j], if ascending then keys[j] else keys[i];
      x.ledger < y.ledger || (x.ledger == y.ledger && Lt(x.hash, y.hash))
  }

  /** Nothing but rows is returned. */
  lemma {:induction false} OnlyRows(snaps: seq<set<Key>>, answers: seq<seq<Key>>, ascending: bool, limit: nat, rows: set<Key>)
    requires limit >= 1 && Answered(snaps, answers, ascending, limit)
    requires forall i :: 0 <= i < |snaps| ==> snaps[i] <= rows
    ensures forall k :: k in Follow(answers, limit).keys ==> k in rows
    decreases |answers|
  {
    hide Past, InOrder;
    if answers != [] {
      var n := |answers| - 1;
      forall i | 0 <= i < n ensures answers[..n][..i] == answers[..i] {
      }
      assert Answered(snaps[..n], answers[..n], ascending, limit);
      OnlyRows(snaps[..n], answers[..n], ascending, limit, rows);
      if !Follow(answers[..n], limit).done {
        assert Answers(snaps[n], Follow(answers[..n], limit).cursor, ascending, limit, answers[n]);
      }
    }
  }

  /** Following the markers while rows are inserted: what is returned are rows, in strict order, so nothing comes
      twice; and when no marker is given any more every row there was at the start has been returned. */
  lemma PagingIsComplete(snaps: seq<set<Key>>, answers: seq<seq<Key>>, ascending: bool, limit: nat)
    requires limit >= 1 && snaps != [] && Answered(snaps, answers, ascending, limit)
    ensures var w := Follow(answers, limit);
            && Runs(ascending, w.keys)
            && (forall i, j :: 0 <= i < j < |w.keys| ==> w.keys[i] != w.keys[j])
            && (forall k :: k in w.keys ==> k in snaps[|snaps| - 1])
            && (w.done ==> forall k :: k in snaps[0] ==> k in w.keys)
  {
    hide Follow, Lt, Answers;
    WalkKeepsInv(snaps, answers, ascending, limit, snaps[0]);
    OnlyRows(snaps, answers, ascending, limit, snaps[|snaps| - 1]);
    var w := Follow(answers, limit);
    forall i, j | 0 <= i < j < |w.keys| ensures w.keys[i] != w.keys[j] {
      PastIrreflexive(ascending, w.keys[i]);
    }
  }

  /** Over an archive that does not change meanwhile, what has been returned when no marker is given any more is
      exactly the account's transactions in the ledgers asked for and covered. */
  lemma HistoryIsComplete(db: Db, account: string, w: Window, reqMin: Option<int>, reqMax: Option<int>, coverage: Option<Coverage>,
                          answers: seq<seq<Key>>, ascending: bool, limit: nat, k: Key)
    requires limit >= 1 && answers != [] && Answered(seq(|answers|, _ => Rows(db, account, w)), answers, ascending, limit)
    requires Follow(answers, limit).done
    requires forall n :: Within(w, n) <==> Asked(reqMin, reqMax, n) && Covered(coverage, n)
    ensures k in Follow(answers, limit).keys <==>
            && (k.hash, account) in db.links && k.hash in db.transactions && db.transactions[k.hash].ledger == k.ledger
            && (reqMin.Some? && 0 <= reqMin.value ==> reqMin.value <= k.ledger)
            && (reqMax.Some? && 0 <= reqMax.value ==> k.ledger <= reqMax.value)
            && (if coverage.Some? then coverage.value.fromLedger <= k.ledger <= coverage.value.toLedger
                else 0 <= k.ledger <= MAX_SAFE_INTEGER)
  {
    hide Follow, Answers;
    var snaps := seq(|answers|, _ => Rows(db, account, w));
    PagingIsComplete(snaps, answers, ascending, limit);
    assert snaps[0] == Rows(db, account, w) && snaps[|snaps| - 1] == Rows(db, account, w);
    assert k in Rows(db, account, w) <==>
           (k.hash, account) in db.links && k.hash in db.transactions && db.transactions[k.hash].ledger == k.ledger && Within(w, k.ledger);
  }

  /** Ingest between two pages only adds rows. */
  lemma IngestAddsRows(db: Db, txs: seq<IngestTx>, account: string, w: Window)
    ensures Rows(db, account, w) <= Rows(InsertEach(db, txs), account, w)
  {
    hide InsertEach;
    IngestKeepsRows(db, txs);
  }

  lemma {:induction false} IngestKeepsRows(db: Db, txs: seq<IngestTx>)
    ensures db.links <= InsertEach(db, txs).links
    ensures forall h :: h in db.transactions ==> h in InsertEach(db, txs).transactions && InsertEach(db, txs).transactions[h] == db.transactions[h]
  {
    if txs != [] {
      IngestKeepsRows(db, txs[..|txs| - 1]);
    }
  }

  // ---- How many pages ----

  function Left(rows: set<Key>, cursor: Option<Key>, ascending: bool): set<Key> {
    set k | k in rows && After(ascending, cursor, k)
  }

  function Members(keys: seq<Key>): set<Key> {
    set k | k in keys
  }

  lemma {:induction false} AsMany(ascending: bool, keys: seq<Key>)
    requires InOrder(ascending, keys)
    ensures |Members(keys)| == |keys|
  {
    hide Past;
    if keys == [] {
      assert Members(keys) == {};
    } else {
      var front, last := keys[..|keys| - 1], keys[|keys| - 1];
      assert keys == front + [last];
      AsMany(ascending, front);
      if last in front {
        PastIrreflexive(ascending, last);
      }
      assert Members(keys) == Members(front) + {last};
    }
  }

  /** A full page takes exactly `limit` of the rows left, and leaves some; any other page takes them all. */
  lemma PageTakes(rows: set<Key>, cursor: Option<Key>, ascending: bool, limit: nat, answer: seq<Key>)
    requires limit >= 1 && Answers(rows, cursor, ascending, limit, answer)
    ensures |answer| <= limit ==> |Left(rows, cursor, ascending)| == |answer|
    ensures |answer| > limit ==>
              |Left(rows, Some(answer[limit - 1]), ascending)| == |Left(rows, cursor, ascending)| - limit
              && |Left(rows, Some(answer[limit - 1]), ascending)| > 0
  {
    hide Past;
    var left := Left(rows, cursor, ascending);
    if |answer| <= limit {
      AsMany(ascending, answer);
      assert Members(answer) == left;
    } else {
      var page, last := answer[..limit], answer[limit - 1];
      var after := Left(rows, Some(last), ascending);
      PageInOrder(ascending, answer, limit);
      AsMany(ascending, page);
      assert last in answer;
      forall k ensures k in left <==> k in Members(page) || k in after {
        if k in left && k !in after {
          WithinPage(ascending, rows, cursor, answer, limit, k);
        }
        if k in after && cursor.Some? {
          PastTransitive(ascending, cursor.value, last, k);
        }
        if k in Members(page) {
          assert k in answer;
        }
      }
      forall k | k in Members(page) ensures k !in after {
        NotAfterLast(ascending, answer, limit, k);
      }
      assert left == Members(page) + after;
      assert answer[limit] in answer && answer[limit] in after;
    }
  }

  lemma NotAfterLast(ascending: bool, answer: seq<Key>, limit: nat, k: Key)
    requires 1 <= limit <= |answer| && InOrder(ascending, answer) && k in answer[..limit]
    ensures !Past(ascending, answer[limit - 1], k)
  {
    hide Past;
    var last := answer[limit - 1];
    PastIrreflexive(ascending, k);
    var i :| 0 <= i < limit && answer[i] == k;
    if i < limit - 1 && Past(ascending, last, k) {
      PastTransitive(ascending, k, last, k);
    }
  }

  /** How many rows so many full pages hold. */
  function Capacity(pages: nat, limit: nat): nat {
    if pages == 0 then 0 else Capacity(pages - 1, limit) + limit
  }

  lemma {:induction false} CapacityIsProduct(pages: nat, limit: nat)
    ensures Capacity(pages, limit) == pages * limit
  {
    if pages > 0 {
      CapacityIsProduct(pages - 1, limit);
    }
  }

  lemma {:induction false} WalkTakes(rows: set<Key>, answers: seq<seq<Key>>, ascending: bool, limit: nat)
    requires limit >= 1 && Answered(seq(|answers|, _ => rows), answers, ascending, limit)
    ensures var w := Follow(answers, limit); var capacity := Capacity(|answers|, limit);
            && (w.done <==> |answers| >= 1 && |rows| <= capacity)
            && (!w.done ==> |Left(rows, w.cursor, ascending)| == |rows| - capacity)
    decreases |answers|
  {
    hide Answers, Past, Left, Answered;
    if answers == [] {
      AllLeft(rows, ascending);
    } else {
      var n := |answers| - 1;
      Fewer(rows, answers, ascending, limit);
      WalkTakes(rows, answers[..n], ascending, limit);
      var w := Follow(answers[..n], limit);
      if !w.done {
        LastAnswer(rows, answers, ascending, limit);
        PageTakes(rows, w.cursor, ascending, limit, answers[n]);
      }
    }
  }

  lemma LastAnswer(rows: set<Key>, answers: seq<seq<Key>>, ascending: bool, limit: nat)
    requires limit >= 1 && answers != [] && Answered(seq(|answers|, _ => rows), answers, ascending, limit)
    requires !Follow(answers[..|answers| - 1], limit).done
    ensures Answers(rows, Follow(answers[..|answers| - 1], limit).cursor, ascending, limit, answers[|answers| - 1])
  {
    hide Answers, Follow;
    assert seq(|answers|, _ => rows)[|answers| - 1] == rows;
  }

  /** With no row inserted meanwhile, paging is over after n pages exactly when they can hold all the rows:
      it takes the rows divided by the limit, rounded up, and always at least one. */
  lemma PagesNeeded(rows: set<Key>, answers: seq<seq<Key>>, ascending: bool, limit: nat)
    requires limit >= 1 && Answered(seq(|answers|, _ => rows), answers, ascending, limit)
    ensures Follow(answers, limit).done <==> |answers| >= 1 && |rows| <= |answers| * limit
  {
    hide Answered, Follow;
    WalkTakes(rows, answers, ascending, limit);
    CapacityIsProduct(|answers|, limit);
  }

  lemma AllLeft(rows: set<Key>, ascending: bool)
    ensures Left(rows, None, ascending) == rows
  {
  }

  lemma Fewer(rows: set<Key>, answers: seq<seq<Key>>, ascending: bool, limit: nat)
    requires limit >= 1 && answers != [] && Answered(seq(|answers|, _ => rows), answers, ascending, limit)
    ensures Answered(seq(|answers| - 1, _ => rows), answers[..|answers| - 1], ascending, limit)
  {
    hide Answers, Follow;
    var n := |answers| - 1;
    var few, snaps, all := answers[..n], seq(n, _ => rows), seq(|answers|, _ => rows);
    forall i | 0 <= i < n && !Follow(few[..i], limit).done
      ensures Answers(snaps[i], Follow(few[..i], limit).cursor, ascending, limit, few[i])
    {
      assert few[..i] == answers[..i];
      assert all[i] == rows;
    }
  }
}
