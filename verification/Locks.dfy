/** Concurrent batch writes and the row locks they take (src/db/repositories/transactions.ts:79-87,
    src/db/postgres.ts:273-315). */
module Locks {
  import opened Ordering
  import opened Writers
  import opened Options

  /** One database transaction: the rows it will ask for, in order, and how many it has got. It is done
      once it has committed and let everything go. */
  datatype Txn = Txn(plan: seq<RowKey>, got: nat, done: bool)

  type System = seq<Txn>

  predicate Holding(t: Txn, k: RowKey) {
    !t.done && t.got <= |t.plan| && k in t.plan[..t.got]
  }

  /** Nobody else holds the row. */
  predicate Free(s: System, i: int, k: RowKey) {
    forall j :: 0 <= j < |s| && j != i ==> !Holding(s[j], k)
  }

  /** A transaction can take its next row once nobody else holds it; one that has all its rows commits. */
  predicate Enabled(s: System, i: int) {
    && 0 <= i < |s| && !s[i].done && s[i].got <= |s[i].plan|
    && (s[i].got < |s[i].plan| ==> Free(s, i, s[i].plan[s[i].got]))
  }

  function Step(s: System, i: int): System
    requires Enabled(s, i)
  {
    if s[i].got < |s[i].plan| then s[i := s[i].(got := s[i].got + 1)] else s[i := s[i].(done := true)]
  }

  ghost predicate Ordered(s: System) {
    forall i :: 0 <= i < |s| ==> s[i].got <= |s[i].plan| && StrictlyAscending(s[i].plan)
  }

  lemma RowLtIrreflexive(x: RowKey)
    ensures !RowLt(x, x)
  {
    PairLtIrreflexive(x.key);
  }

  lemma RowLtTransitive(x: RowKey, y: RowKey, z: RowKey)
    requires RowLt(x, y) && RowLt(y, z)
    ensures RowLt(x, z)
  {
    if x.table == y.table == z.table && PairLt(x.key, y.key) && PairLt(y.key, z.key) {
      PairLtTransitive(x.key, y.key, z.key);
    }
  }

  predicate Finished(s: System) {
    forall i :: 0 <= i < |s| ==> s[i].done
  }

  lemma StepKeepsOrder(s: System, i: int)
    requires Ordered(s) && Enabled(s, i)
    ensures Ordered(Step(s, i))
  {
    hide StrictlyAscending;
  }

  predicate Waits(s: System, i: int) {
    0 <= i < |s| && !s[i].done && s[i].got < |s[i].plan|
  }

  /** The row a waiting transaction asks for next. */
  function Next(s: System, i: int): RowKey
    requires Waits(s, i)
  {
    s[i].plan[s[i].got]
  }

  /** Following the wait-for edges climbs the row order, so no transaction is met twice: the one asking
      for the highest row is not waiting for anyone. */
  lemma BlockedByHigher(s: System, i: int) returns (j: int)
    requires Ordered(s) && Waits(s, i) && !Enabled(s, i)
    ensures 0 <= j < |s| && !s[j].done
    ensures Waits(s, j) ==> RowLt(Next(s, i), Next(s, j))
  {
    hide RowLt;
    var k := Next(s, i);
    assert !Free(s, i, k);
    j :| 0 <= j < |s| && j != i && Holding(s[j], k);
    var held := s[j].plan[..s[j].got];
    assert k in held;
    var m :| 0 <= m < |held| && held[m] == k;
    assert s[j].plan[m] == k;
  }

  /** Among the unfinished, some transaction can step: no reachable state is a circular wait. */
  lemma {:induction false} SomeoneCanStep(s: System) returns (i: int)
    requires Ordered(s) && !Finished(s)
    ensures Enabled(s, i)
  {
    var first :| 0 <= first < |s| && !s[first].done;
    i := Climb(s, first, Others(s, first));
  }

  predicate Index(s: System, i: int) {
    0 <= i < |s|
  }

  function Others(s: System, i: int): set<int> {
    set j | 0 <= j < |s| && Index(s, j) && j != i
  }

  lemma {:induction false} Climb(s: System, i: int, left: set<int>) returns (r: int)
    requires Ordered(s) && 0 <= i < |s| && !s[i].done
    requires Waits(s, i) ==> forall j :: Waits(s, j) && j !in left ==> j == i || RowLt(Next(s, j), Next(s, i))
    ensures Enabled(s, r)
    decreases left
  {
    if Enabled(s, i) {
      r := i;
    } else {
      var j := BlockedByHigher(s, i);
      if !Waits(s, j) {
        r := j;
      } else {
        RowLtIrreflexive(Next(s, i));
        assert j in left by {
          if j !in left && j != i {
            RowLtTransitive(Next(s, i), Next(s, j), Next(s, i));
          }
        }
        forall k | Waits(s, k) && k !in left - {j} ensures k == j || RowLt(Next(s, k), Next(s, j)) {
          if k != j && k != i {
            RowLtTransitive(Next(s, k), Next(s, i), Next(s, j));
          }
        }
        r := Climb(s, j, left - {j});
      }
    }
  }

  // ---- Every run ends ----

  function Work(s: System): int {
    if s == [] then 0
    else
      var t := s[|s| - 1];
      Work(s[..|s| - 1]) + if t.done then 0 else 1 + |t.plan| - t.got
  }

  lemma {:induction false} WorkBound(s: System)
    requires Ordered(s)
    ensures Work(s) >= 0
  {
    hide StrictlyAscending;
    if s != [] {
      WorkBound(s[..|s| - 1]);
    }
  }

  lemma {:induction false} StepWorks(s: System, i: int)
    requires Enabled(s, i)
    ensures Work(Step(s, i)) == Work(s) - 1
  {
    var n := |s| - 1;
    if i == n {
      assert Step(s, i)[..n] == s[..n];
    } else {
      assert Step(s, i)[..n] == Step(s[..n], i) by {
        assert s[..n][i] == s[i];
        FewerAreFree(s, i);
      }
      FewerAreFree(s, i);
      StepWorks(s[..n], i);
    }
  }

  lemma FewerAreFree(s: System, i: int)
    requires Enabled(s, i) && i < |s| - 1
    ensures Enabled(s[..|s| - 1], i)
  {
    if s[i].got < |s[i].plan| {
      var front, k := s[..|s| - 1], s[i].plan[s[i].got];
      forall j | 0 <= j < |front| && j != i ensures !Holding(front[j], k) {
        assert front[j] == s[j];
      }
    }
  }

  /** A schedule names who steps, in turn; each must be able to. */
  ghost predicate Possible(s: System, schedule: seq<int>)
    decreases |schedule|
  {
    schedule == [] || (Enabled(s, schedule[0]) && Possible(Step(s, schedule[0]), schedule[1..]))
  }

  ghost function After(s: System, schedule: seq<int>): System
    requires Possible(s, schedule)
    decreases |schedule|
  {
    if schedule == [] then s else After(Step(s, schedule[0]), schedule[1..])
  }

  lemma {:induction false} RunStaysOrdered(s: System, schedule: seq<int>)
    requires Possible(s, schedule) && Ordered(s)
    ensures Ordered(After(s, schedule)) && Work(After(s, schedule)) == Work(s) - |schedule|
    decreases |schedule|
  {
    hide Ordered, Work, Step, Enabled;
    if schedule != [] {
      StepKeepsOrder(s, schedule[0]);
      StepWorks(s, schedule[0]);
      RunStaysOrdered(Step(s, schedule[0]), schedule[1..]);
    }
  }

  /** Transactions that each ask for rows in ascending order all finish: a run is never longer than the
      work there is, and where one cannot go on everything is finished. */
  lemma AllFinish(s: System, schedule: seq<int>)
    requires Possible(s, schedule) && Ordered(s)
    ensures |schedule| <= Work(s)
    ensures Finished(After(s, schedule)) || exists i :: Enabled(After(s, schedule), i)
  {
    hide Work, Ordered;
    RunStaysOrdered(s, schedule);
    WorkBound(After(s, schedule));
    if !Finished(After(s, schedule)) {
      var i := SomeoneCanStep(After(s, schedule));
    }
  }

  // ---- Two transactions, in any order of rows ----

  function Two(p: seq<RowKey>, q: seq<RowKey>): System {
    [Txn(p, 0, false), Txn(q, 0, false)]
  }

  ghost predicate Stuck(s: System) {
    !Finished(s) && forall i :: !Enabled(s, i)
  }

  ghost predicate Apart(xs: seq<RowKey>, ys: seq<RowKey>) {
    forall k :: k in xs ==> k !in ys
  }

  /** Each has come to a row the other has taken. */
  ghost predicate CrossedAt(p: seq<RowKey>, q: seq<RowKey>, m: nat, n: nat) {
    m < |p| && n < |q| && p[m] in q[..n] && q[n] in p[..m] && Apart(p[..m], q[..n])
  }

  ghost predicate Crossed(p: seq<RowKey>, q: seq<RowKey>) {
    exists m: nat, n: nat :: m < |p| && n < |q| && CrossedAt(p, q, m, n)
  }

  /** What no step of two transactions undoes: their plans, and that they hold no row both. */
  ghost predicate Exclusive(s: System, p: seq<RowKey>, q: seq<RowKey>) {
    && |s| == 2 && s[0].plan == p && s[1].plan == q && s[0].got <= |p| && s[1].got <= |q|
    && forall k :: !(Holding(s[0], k) && Holding(s[1], k))
  }

  lemma StepStaysExclusive(s: System, p: seq<RowKey>, q: seq<RowKey>, i: int)
    requires Exclusive(s, p, q) && Enabled(s, i)
    ensures Exclusive(Step(s, i), p, q)
  {
    var t := Step(s, i);
    if s[i].got < |s[i].plan| {
      assert s[i].plan[..s[i].got + 1] == s[i].plan[..s[i].got] + [s[i].plan[s[i].got]];
      assert Free(s, i, s[i].plan[s[i].got]);
      forall k ensures Holding(t[i], k) ==> Holding(s[i], k) || k == s[i].plan[s[i].got] {
      }
      assert !Holding(s[1 - i], s[i].plan[s[i].got]);
    }
  }

  lemma {:induction false} RunStaysExclusive(s: System, p: seq<RowKey>, q: seq<RowKey>, schedule: seq<int>)
    requires Exclusive(s, p, q) && Possible(s, schedule)
    ensures Exclusive(After(s, schedule), p, q)
    decreases |schedule|
  {
    hide Exclusive, Enabled, Step;
    if schedule != [] {
      StepStaysExclusive(s, p, q, schedule[0]);
      RunStaysExclusive(Step(s, schedule[0]), p, q, schedule[1..]);
    }
  }

  lemma StuckWaits(s: System, p: seq<RowKey>, q: seq<RowKey>, i: int)
    requires Exclusive(s, p, q) && Stuck(s) && 0 <= i < 2 && !s[i].done
    ensures Waits(s, i) && Holding(s[1 - i], Next(s, i)) && !s[1 - i].done
  {
    assert !Enabled(s, i);
    assert !Free(s, i, Next(s, i));
  }

  lemma StuckIsCrossed(s: System, p: seq<RowKey>, q: seq<RowKey>)
    requires Exclusive(s, p, q) && Stuck(s)
    ensures Crossed(p, q)
  {
    hide Enabled;
    var i :| 0 <= i < |s| && !s[i].done;
    StuckWaits(s, p, q, i);
    StuckWaits(s, p, q, 1 - i);
    var m, n := s[0].got, s[1].got;
    assert p[m] == Next(s, 0) && q[n] == Next(s, 1);
    assert forall k :: k in p[..m] <==> Holding(s[0], k);
    assert forall k :: k in q[..n] <==> Holding(s[1], k);
    assert CrossedAt(p, q, m, n);
  }

  /** `n` steps of one transaction. */
  function Times(i: int, n: nat): (r: seq<int>)
    ensures |r| == n
  {
    if n == 0 then [] else [i] + Times(i, n - 1)
  }

  /** Rows that nobody else holds can be taken one after the other. */
  lemma {:induction false} RunAlone(s: System, i: int, n: nat)
    requires 0 <= i < |s| && !s[i].done && s[i].got + n <= |s[i].plan|
    requires forall k :: k in s[i].plan[s[i].got..s[i].got + n] ==> Free(s, i, k)
    ensures Possible(s, Times(i, n)) && After(s, Times(i, n)) == s[i := s[i].(got := s[i].got + n)]
    decreases n
  {
    hide Holding;
    if n > 0 {
      var t := Step(s, i);
      assert s[i].plan[s[i].got] in s[i].plan[s[i].got..s[i].got + n];
      assert Enabled(s, i);
      forall k | k in t[i].plan[t[i].got..t[i].got + n - 1] ensures Free(t, i, k) {
        assert k in s[i].plan[s[i].got..s[i].got + n];
        OthersUnmoved(s, t, i, k);
      }
      RunAlone(t, i, n - 1);
      assert Times(i, n)[1..] == Times(i, n - 1);
      assert t[i := t[i].(got := t[i].got + (n - 1))] == s[i := s[i].(got := s[i].got + n)];
    }
  }

  lemma OthersUnmoved(s: System, t: System, i: int, k: RowKey)
    requires |t| == |s| && (forall j :: 0 <= j < |s| && j != i ==> t[j] == s[j]) && Free(s, i, k)
    ensures Free(t, i, k)
  {
    hide Holding;
  }

  lemma {:induction false} RunOn(s: System, first: seq<int>, second: seq<int>)
    requires Possible(s, first) && Possible(After(s, first), second)
    ensures Possible(s, first + second) && After(s, first + second) == After(After(s, first), second)
    decreases |first|
  {
    hide Enabled, Step;
    if first == [] {
      assert first + second == second;
    } else {
      RunOn(Step(s, first[0]), first[1..], second);
      assert (first + second)[1..] == first[1..] + second;
    }
  }

  lemma CrossedGetsStuck(p: seq<RowKey>, q: seq<RowKey>, m: nat, n: nat) returns (schedule: seq<int>)
    requires CrossedAt(p, q, m, n)
    ensures Possible(Two(p, q), schedule) && Stuck(After(Two(p, q), schedule))
  {
    hide Possible, After, Enabled;
    var s := Two(p, q);
    FirstIsFree(p, q, m);
    RunAlone(s, 0, m);
    var t: System := [Txn(p, m, false), Txn(q, 0, false)];
    assert s[0 := s[0].(got := m)] == t;
    SecondIsFree(p, q, m, n);
    RunAlone(t, 1, n);
    var u: System := [Txn(p, m, false), Txn(q, n, false)];
    assert t[1 := t[1].(got := n)] == u;
    schedule := Times(0, m) + Times(1, n);
    RunOn(s, Times(0, m), Times(1, n));
    BothBlocked(p, q, m, n);
  }

  lemma FirstIsFree(p: seq<RowKey>, q: seq<RowKey>, m: nat)
    requires m <= |p|
    ensures forall k :: k in p[0..m] ==> Free(Two(p, q), 0, k)
  {
  }

  lemma SecondIsFree(p: seq<RowKey>, q: seq<RowKey>, m: nat, n: nat)
    requires m <= |p| && n <= |q| && Apart(p[..m], q[..n])
    ensures forall k :: k in q[0..n] ==> Free([Txn(p, m, false), Txn(q, 0, false)], 1, k)
  {
    assert q[0..n] == q[..n];
  }

  lemma BothBlocked(p: seq<RowKey>, q: seq<RowKey>, m: nat, n: nat)
    requires CrossedAt(p, q, m, n)
    ensures Stuck([Txn(p, m, false), Txn(q, n, false)])
  {
    var u: System := [Txn(p, m, false), Txn(q, n, false)];
    assert Holding(u[1], p[m]) && Holding(u[0], q[n]);
    assert !Free(u, 0, p[m]) && !Free(u, 1, q[n]);
    assert !u[0].done;
  }

  ghost predicate CanDeadlock(p: seq<RowKey>, q: seq<RowKey>) {
    exists schedule :: Possible(Two(p, q), schedule) && Stuck(After(Two(p, q), schedule))
  }

  /** Two transactions can come to block each other for good if and only if their plans cross. */
  lemma DeadlockExactlyWhenCrossed(p: seq<RowKey>, q: seq<RowKey>)
    ensures CanDeadlock(p, q) <==> Crossed(p, q)
  {
    hide Possible, After, Stuck, CrossedAt;
    if schedule :| Possible(Two(p, q), schedule) && Stuck(After(Two(p, q), schedule)) {
      RunStaysExclusive(Two(p, q), p, q, schedule);
      StuckIsCrossed(After(Two(p, q), schedule), p, q);
    }
    if m: nat, n: nat :| m < |p| && n < |q| && CrossedAt(p, q, m, n) {
      var schedule := CrossedGetsStuck(p, q, m, n);
    }
  }
}
