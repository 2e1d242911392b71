/** The global request governor: slots, a queue handed off directly, and a shared cooldown
    (src/clio/governor.ts:133-233). */
module Governor {
  import opened Options

  /** Times are integers; the backoff factor is a whole number, as the configuration enforces. */
  datatype Limits = Limits(maxConcurrent: nat, minBackoff: nat, maxBackoff: nat, factor: nat)

  /** `waiters` holds the callers whose promise has not been resolved, in order. */
  datatype State = State(inFlight: nat, waiters: seq<nat>, cooldownUntil: int, currentBackoff: nat,
                         consecutive: nat, total: nat)

  const FRESH := State(0, [], 0, 0, 0, 0)

  function Power(base: nat, n: nat): nat {
    if n == 0 then 1 else base * Power(base, n - 1)
  }

  /** The backoff of the n-th penalty in a row. */
  function Backoff(l: Limits, n: nat): nat
    requires n > 0
  {
    var step := l.minBackoff * Power(l.factor, n - 1);
    if step < l.maxBackoff then step else l.maxBackoff
  }

  function Taken(l: Limits, g: State, caller: nat): State {
    if g.inFlight < l.maxConcurrent then g.(inFlight := g.inFlight + 1) else g.(waiters := g.waiters + [caller])
  }

  function Released(g: State): State
    requires g.waiters == [] ==> g.inFlight > 0
  {
    if g.waiters != [] then g.(waiters := g.waiters[1..]) else g.(inFlight := g.inFlight - 1)
  }

  function Penalized(l: Limits, g: State, now: int): State {
    var n := g.consecutive + 1;
    var until := now + Backoff(l, n);
    g.(consecutive := n, total := g.total + 1, currentBackoff := Backoff(l, n),
       cooldownUntil := if until > g.cooldownUntil then until else g.cooldownUntil)
  }

  function Rewarded(g: State, now: int): State {
    if now >= g.cooldownUntil then g.(consecutive := 0, currentBackoff := 0) else g
  }

  class Gate {
    const limits: Limits
    var inFlight: nat
    var waiters: seq<nat>
    var cooldownUntil: int
    var currentBackoff: nat
    var consecutive: nat
    var total: nat

    function Now(): State
      reads this
    {
      State(inFlight, waiters, cooldownUntil, currentBackoff, consecutive, total)
    }

    constructor (l: Limits)
      requires l.maxConcurrent >= 1
      ensures limits == l && Now() == FRESH
    {
      limits := l;
      inFlight, waiters, cooldownUntil, currentBackoff, consecutive, total := 0, [], 0, 0, 0, 0;
    }

    /** Take a free slot, or queue; `granted` says which. */
    method TakeSlot(caller: nat) returns (granted: bool)
      modifies this`inFlight, this`waiters
      ensures Now() == Taken(limits, old(Now()), caller)
      ensures granted <==> old(inFlight) < limits.maxConcurrent
    {
      if inFlight < limits.maxConcurrent {
        inFlight := inFlight + 1;
        return true;
      }
      waiters := waiters + [caller];
      granted := false;
    }

    /** Hand the slot to the first waiter, or free it. */
    method ReleaseSlot() returns (next: Option<nat>)
      requires waiters == [] ==> inFlight > 0
      modifies this`inFlight, this`waiters
      ensures Now() == Released(old(Now()))
      ensures next == if old(waiters) == [] then None else Some(old(waiters)[0])
    {
      if |waiters| > 0 {
        next := Some(waiters[0]);
        waiters := waiters[1..];
      } else {
        inFlight := inFlight - 1;
        next := None;
      }
    }

    method Penalize(now: int)
      modifies this
      ensures Now() == Penalized(limits, old(Now()), now)
    {
      consecutive := consecutive + 1;
      total := total + 1;
      var step := limits.minBackoff * Power(limits.factor, consecutive - 1);
      var backoff := if limits.maxBackoff <= step then limits.maxBackoff else step;
      currentBackoff := backoff;
      var until := now + backoff;
      if until > cooldownUntil {
        cooldownUntil := until;
      }
    }

    method Reward(now: int)
      modifies this
      ensures Now() == Rewarded(old(Now()), now)
    {
      if now >= cooldownUntil {
        consecutive := 0;
        currentBackoff := 0;
      }
    }
  }

  // ---- Callers interleaving ----

  /** Where a caller is inside `acquire`: outside, asleep on the cooldown, woken but without a slot,
      queued, or granted a slot it has not looked at again yet. */
  datatype Caller = Outside | Cooling | Cooled | Queued | Granted

  /** A started request's release callback: when it started, and whether it was called. */
  datatype Ticket = Ticket(start: int, released: bool)

  datatype World = World(gov: State, now: int, callers: seq<Caller>, tickets: seq<Ticket>)

  datatype Event =
    | Calls(i: nat)
    | Wakes(i: nat)
    | Takes(i: nat)
    | Rechecks(i: nat)
    | Releases(t: nat)
    | Penalizes
    | Rewards
    | Passes(time: nat)

  predicate Able(w: World, e: Event) {
    match e
    case Calls(i) => i < |w.callers| && w.callers[i].Outside?
    case Wakes(i) => i < |w.callers| && w.callers[i].Cooling? && w.gov.cooldownUntil <= w.now
    case Takes(i) => i < |w.callers| && w.callers[i].Cooled?
    case Rechecks(i) => i < |w.callers| && w.callers[i].Granted?
    case Releases(t) => t < |w.tickets|
    case _ => true
  }

  function GrantedCount(callers: seq<Caller>): nat {
    if callers == [] then 0 else GrantedCount(callers[..|callers| - 1]) + if callers[|callers| - 1].Granted? then 1 else 0
  }

  function HeldCount(tickets: seq<Ticket>): nat {
    if tickets == [] then 0 else HeldCount(tickets[..|tickets| - 1]) + if tickets[|tickets| - 1].released then 0 else 1
  }

  /** The queue is exactly the queued callers, each once. */
  ghost predicate QueueIs(w: World) {
    && (forall k :: 0 <= k < |w.gov.waiters| ==> w.gov.waiters[k] < |w.callers| && w.callers[w.gov.waiters[k]].Queued?)
    && (forall j, k :: 0 <= j < k < |w.gov.waiters| ==> w.gov.waiters[j] != w.gov.waiters[k])
    && (forall i :: 0 <= i < |w.callers| && w.callers[i].Queued? ==> i in w.gov.waiters)
  }

  /** No slot is lost or freed twice, none is taken beyond the limit, and while someone waits all are taken. */
  ghost predicate Inv(l: Limits, w: World) {
    && w.gov.inFlight == HeldCount(w.tickets) + GrantedCount(w.callers)
    && w.gov.inFlight <= l.maxConcurrent
    && (w.gov.waiters != [] ==> w.gov.inFlight == l.maxConcurrent)
    && QueueIs(w)
  }

  /** A released slot goes to the first waiter, who is granted it. */
  function HandOff(w: World): World
    requires w.gov.waiters == [] ==> w.gov.inFlight > 0
    requires w.gov.waiters != [] ==> w.gov.waiters[0] < |w.callers|
  {
    w.(gov := Released(w.gov), callers := if w.gov.waiters == [] then w.callers else w.callers[w.gov.waiters[0] := Granted])
  }

  /** A slot can be given back: somebody has it. */
  ghost predicate Sound(w: World) {
    && w.gov.inFlight == HeldCount(w.tickets) + GrantedCount(w.callers)
    && forall k :: 0 <= k < |w.gov.waiters| ==> w.gov.waiters[k] < |w.callers|
  }

  ghost function Step(l: Limits, w: World, e: Event): World
    requires Able(w, e) && Sound(w)
  {
    match e
    case Calls(i) => w.(callers := w.callers[i := Cooling])
    case Wakes(i) => w.(callers := w.callers[i := Cooled])
    case Takes(i) =>
      w.(gov := Taken(l, w.gov, i), callers := w.callers[i := if w.gov.inFlight < l.maxConcurrent then Granted else Queued])
    case Rechecks(i) =>
      OneGranted(w.callers, i);
      if w.now < w.gov.cooldownUntil then HandOff(w.(callers := w.callers[i := Cooling]))
      else w.(callers := w.callers[i := Outside], tickets := w.tickets + [Ticket(w.now, false)])
    case Releases(t) =>
      if w.tickets[t].released then w
      else
        OneHeld(w.tickets, t);
        HandOff(w.(tickets := w.tickets[t := w.tickets[t].(released := true)]))
    case Penalizes => w.(gov := Penalized(l, w.gov, w.now))
    case Rewards => w.(gov := Rewarded(w.gov, w.now))
    case Passes(time) => w.(now := w.now + time)
  }

  lemma {:induction false} OneGranted(callers: seq<Caller>, i: nat)
    requires i < |callers| && callers[i].Granted?
    ensures GrantedCount(callers) > 0
  {
    if i < |callers| - 1 {
      OneGranted(callers[..|callers| - 1], i);
    }
  }

  lemma {:induction false} OneHeld(tickets: seq<Ticket>, t: nat)
    requires t < |tickets| && !tickets[t].released
    ensures HeldCount(tickets) > 0
  {
    if t < |tickets| - 1 {
      OneHeld(tickets[..|tickets| - 1], t);
    }
  }

  lemma {:induction false} GrantedMoves(callers: seq<Caller>, i: nat, to: Caller)
    requires i < |callers|
    ensures GrantedCount(callers[i := to]) == GrantedCount(callers) - (if callers[i].Granted? then 1 else 0) + if to.Granted? then 1 else 0
  {
    var n := |callers| - 1;
    if i == n {
      assert callers[i := to][..n] == callers[..n];
    } else {
      assert callers[i := to][..n] == callers[..n][i := to];
      GrantedMoves(callers[..n], i, to);
    }
  }

  lemma {:induction false} HeldFalls(tickets: seq<Ticket>, t: nat)
    requires t < |tickets| && !tickets[t].released
    ensures HeldCount(tickets[t := tickets[t].(released := true)]) == HeldCount(tickets) - 1
  {
    var n := |tickets| - 1;
    var after := tickets[t := tickets[t].(released := true)];
    if t == n {
      assert after[..n] == tickets[..n];
    } else {
      assert after[..n] == tickets[..n][t := tickets[t].(released := true)];
      HeldFalls(tickets[..n], t);
    }
  }

  lemma HeldRises(tickets: seq<Ticket>, start: int)
    ensures HeldCount(tickets + [Ticket(start, false)]) == HeldCount(tickets) + 1
  {
    assert (tickets + [Ticket(start, false)])[..|tickets|] == tickets;
  }

  lemma InvIsSound(l: Limits, w: World)
    requires Inv(l, w)
    ensures Sound(w)
  {
  }

  // ---- One event keeps it ----

  /** Giving back a slot somebody no longer counts. */
  lemma HandOffKeepsInv(l: Limits, w: World)
    requires w.gov.inFlight == HeldCount(w.tickets) + GrantedCount(w.callers) + 1
    requires w.gov.inFlight <= l.maxConcurrent && QueueIs(w)
    requires w.gov.waiters != [] ==> w.gov.inFlight == l.maxConcurrent
    ensures Inv(l, HandOff(w))
  {
    if w.gov.waiters != [] {
      GrantedMoves(w.callers, w.gov.waiters[0], Granted);
      var after := HandOff(w);
      forall i | 0 <= i < |after.callers| && after.callers[i].Queued? ensures i in after.gov.waiters {
        assert i in w.gov.waiters;
        var k :| 0 <= k < |w.gov.waiters| && w.gov.waiters[k] == i;
        assert after.gov.waiters[k - 1] == i;
      }
    }
  }

  lemma TakesKeepsInv(l: Limits, w: World, i: nat)
    requires Inv(l, w) && Able(w, Takes(i))
    ensures Sound(w) && Inv(l, Step(l, w, Takes(i)))
  {
    hide HeldCount, GrantedCount;
    var after := Step(l, w, Takes(i));
    GrantedMoves(w.callers, i, after.callers[i]);
    assert i !in w.gov.waiters;
    forall j | 0 <= j < |after.callers| && after.callers[j].Queued? ensures j in after.gov.waiters {
      assert j == i || j in w.gov.waiters;
      if j == i {
        assert after.gov.waiters[|w.gov.waiters|] == i;
      }
    }
  }

  lemma RechecksKeepsInv(l: Limits, w: World, i: nat)
    requires Inv(l, w) && Able(w, Rechecks(i))
    ensures Sound(w) && Inv(l, Step(l, w, Rechecks(i)))
  {
    hide HeldCount, GrantedCount;
    if w.now < w.gov.cooldownUntil {
      GrantedMoves(w.callers, i, Cooling);
      HandOffKeepsInv(l, w.(callers := w.callers[i := Cooling]));
    } else {
      GrantedMoves(w.callers, i, Outside);
      HeldRises(w.tickets, w.now);
    }
  }

  lemma EventKeepsInv(l: Limits, w: World, e: Event)
    requires Inv(l, w) && Able(w, e)
    ensures Sound(w) && Inv(l, Step(l, w, e))
  {
    hide HeldCount, GrantedCount, Backoff;
    match e {
      case Takes(i) => TakesKeepsInv(l, w, i);
      case Rechecks(i) => RechecksKeepsInv(l, w, i);
      case Releases(t) =>
        if !w.tickets[t].released {
          HeldFalls(w.tickets, t);
          HandOffKeepsInv(l, w.(tickets := w.tickets[t := w.tickets[t].(released := true)]));
        }
      case Calls(i) => GrantedMoves(w.callers, i, Cooling);
      case Wakes(i) => GrantedMoves(w.callers, i, Cooled);
      case _ =>
    }
  }

  // ---- Whole runs ----

  ghost predicate Possible(l: Limits, w: World, run: seq<Event>)
    decreases |run|
  {
    run == [] || (Able(w, run[0]) && Sound(w) && Possible(l, Step(l, w, run[0]), run[1..]))
  }

  ghost function After(l: Limits, w: World, run: seq<Event>): World
    requires Possible(l, w, run)
    decreases |run|
  {
    if run == [] then w else After(l, Step(l, w, run[0]), run[1..])
  }

  ghost predicate Initial(w: World) {
    w.gov == FRESH && w.tickets == [] && forall i :: 0 <= i < |w.callers| ==> w.callers[i].Outside?
  }

  lemma {:induction false} NoneGranted(callers: seq<Caller>)
    requires forall i :: 0 <= i < |callers| ==> !callers[i].Granted?
    ensures GrantedCount(callers) == 0
  {
    if callers != [] {
      NoneGranted(callers[..|callers| - 1]);
    }
  }

  lemma {:induction false} RunKeepsInv(l: Limits, w: World, run: seq<Event>)
    requires Inv(l, w) && Possible(l, w, run)
    ensures Inv(l, After(l, w, run))
    decreases |run|
  {
    hide Inv, Able, Sound, Step;
    if run != [] {
      EventKeepsInv(l, w, run[0]);
      RunKeepsInv(l, Step(l, w, run[0]), run[1..]);
    }
  }

  /** In every run the slots held and the slots granted but not yet looked at again are the slots in
      flight, within the limit; and while anyone is queued all of them are taken. */
  lemma SlotsAreConserved(l: Limits, w: World, run: seq<Event>)
    requires Initial(w) && Possible(l, w, run)
    ensures var end := After(l, w, run);
            && HeldCount(end.tickets) + GrantedCount(end.callers) == end.gov.inFlight <= l.maxConcurrent
            && (end.gov.waiters != [] ==> end.gov.inFlight == l.maxConcurrent)
            && QueueIs(end)
  {
    hide Possible, After;
    NoneGranted(w.callers);
    RunKeepsInv(l, w, run);
  }

  /** Nobody waits for nothing: a queued caller waits for a slot that some request holds or some caller
      has just been granted. */
  lemma WaitersWaitForSomeone(l: Limits, w: World, run: seq<Event>)
    requires Initial(w) && Possible(l, w, run) && l.maxConcurrent >= 1 && After(l, w, run).gov.waiters != []
    ensures var end := After(l, w, run);
            (exists t :: 0 <= t < |end.tickets| && !end.tickets[t].released) ||
            (exists i :: 0 <= i < |end.callers| && end.callers[i].Granted?)
  {
    hide Possible, After, Initial, QueueIs;
    SlotsAreConserved(l, w, run);
    var end := After(l, w, run);
    if forall t :: 0 <= t < |end.tickets| ==> end.tickets[t].released {
      NoneHeld(end.tickets);
      if forall i :: 0 <= i < |end.callers| ==> !end.callers[i].Granted? {
        NoneGranted(end.callers);
      }
    }
  }

  lemma {:induction false} NoneHeld(tickets: seq<Ticket>)
    requires forall t :: 0 <= t < |tickets| ==> tickets[t].released
    ensures HeldCount(tickets) == 0
  {
    if tickets != [] {
      NoneHeld(tickets[..|tickets| - 1]);
    }
  }

  /** A run is always able to go on: no event is refused for want of a slot to give back. */
  lemma EveryAbleEventIsPossible(l: Limits, w: World, run: seq<Event>, e: Event)
    requires Initial(w) && Possible(l, w, run) && Able(After(l, w, run), e)
    ensures Possible(l, After(l, w, run), [e])
  {
    hide Possible, After;
    NoneGranted(w.callers);
    RunKeepsInv(l, w, run);
    var end := After(l, w, run);
    InvIsSound(l, end);
    OneMore(l, end, e);
  }

  lemma OneMore(l: Limits, w: World, e: Event)
    requires Able(w, e) && Sound(w)
    ensures Possible(l, w, [e])
  {
    hide Able, Sound, Step;
    assert [e][1..] == [];
  }

  /** The cooldown never moves back, time never goes back, and no request starts before the cooldown of
      any earlier moment has passed. */
  lemma {:induction false} NoStartDuringCooldown(l: Limits, w: World, run: seq<Event>)
    requires Possible(l, w, run)
    ensures var end := After(l, w, run);
            && w.now <= end.now && w.gov.cooldownUntil <= end.gov.cooldownUntil && |w.tickets| <= |end.tickets|
            && forall t :: |w.tickets| <= t < |end.tickets| ==> w.gov.cooldownUntil <= end.tickets[t].start <= end.now
    decreases |run|
  {
    hide Able, Sound, Step;
    if run != [] {
      var next := Step(l, w, run[0]);
      OneStart(l, w, run[0]);
      NoStartDuringCooldown(l, next, run[1..]);
      SameStarts(l, next, run[1..]);
    }
  }

  lemma OneStart(l: Limits, w: World, e: Event)
    requires Able(w, e) && Sound(w)
    ensures var next := Step(l, w, e);
            && w.now <= next.now && w.gov.cooldownUntil <= next.gov.cooldownUntil
            && |w.tickets| <= |next.tickets| <= |w.tickets| + 1
            && (|next.tickets| > |w.tickets| ==> next.tickets[|w.tickets|].start == w.now && w.gov.cooldownUntil <= w.now)
            && forall t :: 0 <= t < |w.tickets| ==> next.tickets[t].start == w.tickets[t].start
  {
    hide Backoff;
  }

  lemma {:induction false} SameStarts(l: Limits, w: World, run: seq<Event>)
    requires Possible(l, w, run)
    ensures |w.tickets| <= |After(l, w, run).tickets|
    ensures forall t :: 0 <= t < |w.tickets| ==> After(l, w, run).tickets[t].start == w.tickets[t].start
    decreases |run|
  {
    hide Able, Sound, Step;
    if run != [] {
      OneStart(l, w, run[0]);
      SameStarts(l, Step(l, w, run[0]), run[1..]);
    }
  }

  /** So after a penalty every request waits it out. */
  lemma PenaltyHoldsEveryone(l: Limits, w: World, run: seq<Event>)
    requires Sound(w) && Possible(l, Step(l, w, Penalizes), run)
    ensures var end := After(l, Step(l, w, Penalizes), run);
            |w.tickets| <= |end.tickets|
            && forall t :: |w.tickets| <= t < |end.tickets| ==>
                 w.now + Backoff(l, w.gov.consecutive + 1) <= end.tickets[t].start
  {
    hide Backoff, Possible, After;
    NoStartDuringCooldown(l, Step(l, w, Penalizes), run);
  }

  /** The queue is served in order: along any run the callers waiting now leave it only from the front,
      and whoever comes later stands behind those still there. */
  lemma {:induction false} ServedInOrder(l: Limits, w: World, run: seq<Event>) returns (served: nat)
    requires Possible(l, w, run)
    ensures served <= |w.gov.waiters| && w.gov.waiters[served..] <= After(l, w, run).gov.waiters
    decreases |run|
  {
    hide Able, Sound, Step;
    if run == [] {
      served := 0;
    } else {
      var next := Step(l, w, run[0]);
      OneServed(l, w, run[0]);
      var later := ServedInOrder(l, next, run[1..]);
      var q, r := w.gov.waiters, next.gov.waiters;
      if q <= r {
        served := if later <= |q| then later else |q|;
        assert q[served..] <= r[later..] by {
          assert later <= |q| ==> r[later..][..|q| - later] == q[later..];
        }
      } else {
        served := later + 1;
        assert q[served..] == r[later..];
      }
      PrefixTransitive(q[served..], r[later..], After(l, w, run).gov.waiters);
    }
  }

  lemma PrefixTransitive<T>(a: seq<T>, b: seq<T>, c: seq<T>)
    requires a <= b && b <= c
    ensures a <= c
  {
  }

  lemma OneServed(l: Limits, w: World, e: Event)
    requires Able(w, e) && Sound(w)
    ensures w.gov.waiters <= Step(l, w, e).gov.waiters || (w.gov.waiters != [] && Step(l, w, e).gov.waiters == w.gov.waiters[1..])
  {
    hide Backoff;
  }

  /** Calling a release callback again does nothing. */
  lemma ReleaseIsIdempotent(l: Limits, w: World, t: nat)
    requires Inv(l, w) && t < |w.tickets|
    ensures Sound(w)
    ensures var once := Step(l, w, Releases(t)); Sound(once) && t < |once.tickets| && Step(l, once, Releases(t)) == once
  {
    hide HeldCount, GrantedCount;
    EventKeepsInv(l, w, Releases(t));
  }

  // ---- The backoff ----

  lemma Product(base: nat, x: nat)
    requires base >= 1
    ensures x <= base * x
  {
    assert (base - 1) * x >= 0;
  }

  lemma {:induction false} PowerGrows(base: nat, n: nat, m: nat)
    requires base >= 1 && n <= m
    ensures 1 <= Power(base, n) <= Power(base, m)
  {
    if n < m {
      PowerGrows(base, n, m - 1);
      Product(base, Power(base, m - 1));
    } else if n > 0 {
      PowerGrows(base, n - 1, n - 1);
      Product(base, Power(base, n - 1));
    }
  }

  /** Penalties in a row escalate, up to the maximum. */
  lemma BackoffEscalates(l: Limits, n: nat, m: nat)
    requires 0 < n <= m && l.factor >= 1
    ensures Backoff(l, n) <= Backoff(l, m) <= l.maxBackoff
  {
    PowerGrows(l.factor, n - 1, m - 1);
    var p, q := Power(l.factor, n - 1), Power(l.factor, m - 1);
    assert l.minBackoff * p <= l.minBackoff * q;
  }

  /** Once the cooldown has passed a call needs no more than a free slot: it starts at once. */
  lemma StartsAtOnce(l: Limits, w: World, i: nat)
    requires Inv(l, w) && i < |w.callers| && w.callers[i].Outside?
    requires w.gov.cooldownUntil <= w.now && w.gov.inFlight < l.maxConcurrent
    ensures var run := [Calls(i), Wakes(i), Takes(i), Rechecks(i)];
            Possible(l, w, run) && After(l, w, run).tickets == w.tickets + [Ticket(w.now, false)]
  {
    hide HeldCount, GrantedCount, QueueIs, Inv, Sound, Step;
    var w1 := AfterCall(l, w, i);
    var w2 := AfterWake(l, w1, i);
    var w3 := AfterTake(l, w2, i);
    var w4 := AfterRecheck(l, w3, i);
    var run := [Calls(i), Wakes(i), Takes(i), Rechecks(i)];
    assert Possible(l, w4, []) && After(l, w4, []) == w4;
    EventFirst(l, w3, Rechecks(i), []);
    EventFirst(l, w2, Takes(i), [Rechecks(i)]);
    EventFirst(l, w1, Wakes(i), [Takes(i), Rechecks(i)]);
    EventFirst(l, w, Calls(i), [Wakes(i), Takes(i), Rechecks(i)]);
    assert [Takes(i)] + [Rechecks(i)] == [Takes(i), Rechecks(i)];
    assert [Wakes(i)] + [Takes(i), Rechecks(i)] == [Wakes(i), Takes(i), Rechecks(i)];
    assert [Calls(i)] + [Wakes(i), Takes(i), Rechecks(i)] == run;
  }

  lemma EventFirst(l: Limits, w: World, e: Event, rest: seq<Event>)
    requires Able(w, e) && Sound(w) && Possible(l, Step(l, w, e), rest)
    ensures Possible(l, w, [e] + rest) && After(l, w, [e] + rest) == After(l, Step(l, w, e), rest)
  {
    hide Able, Sound, Step;
    assert ([e] + rest)[1..] == rest;
  }

  /** The caller's next state, all else that matters as it was. */
  ghost predicate Advanced(l: Limits, w: World, next: World, i: nat, state: Caller) {
    && Inv(l, next) && i < |next.callers| && next.callers[i] == state && next.now == w.now && next.tickets == w.tickets
    && next.gov.cooldownUntil == w.gov.cooldownUntil
  }

  lemma AfterCall(l: Limits, w: World, i: nat) returns (next: World)
    requires Inv(l, w) && i < |w.callers| && w.callers[i].Outside?
    ensures Able(w, Calls(i)) && Sound(w) && next == Step(l, w, Calls(i)) && Advanced(l, w, next, i, Cooling)
    ensures next.gov.inFlight == w.gov.inFlight
  {
    hide HeldCount, GrantedCount;
    EventKeepsInv(l, w, Calls(i));
    next := Step(l, w, Calls(i));
  }

  lemma AfterWake(l: Limits, w: World, i: nat) returns (next: World)
    requires Inv(l, w) && i < |w.callers| && w.callers[i].Cooling? && w.gov.cooldownUntil <= w.now
    ensures Able(w, Wakes(i)) && Sound(w) && next == Step(l, w, Wakes(i)) && Advanced(l, w, next, i, Cooled)
    ensures next.gov.inFlight == w.gov.inFlight
  {
    hide HeldCount, GrantedCount;
    EventKeepsInv(l, w, Wakes(i));
    next := Step(l, w, Wakes(i));
  }

  lemma AfterTake(l: Limits, w: World, i: nat) returns (next: World)
    requires Inv(l, w) && i < |w.callers| && w.callers[i].Cooled? && w.gov.inFlight < l.maxConcurrent
    ensures Able(w, Takes(i)) && Sound(w) && next == Step(l, w, Takes(i)) && Advanced(l, w, next, i, Granted)
  {
    hide HeldCount, GrantedCount;
    EventKeepsInv(l, w, Takes(i));
    next := Step(l, w, Takes(i));
  }

  lemma AfterRecheck(l: Limits, w: World, i: nat) returns (next: World)
    requires Inv(l, w) && i < |w.callers| && w.callers[i].Granted? && w.gov.cooldownUntil <= w.now
    ensures Able(w, Rechecks(i)) && Sound(w) && next == Step(l, w, Rechecks(i))
    ensures next.tickets == w.tickets + [Ticket(w.now, false)] && next.gov.waiters == w.gov.waiters
  {
    hide HeldCount, GrantedCount;
    EventKeepsInv(l, w, Rechecks(i));
    next := Step(l, w, Rechecks(i));
  }

  /** When a slot is released the first waiter has it, and starts once the cooldown has passed. */
  lemma FirstWaiterStarts(l: Limits, w: World, t: nat, time: nat)
    requires Inv(l, w) && w.gov.waiters != [] && t < |w.tickets| && !w.tickets[t].released
    requires w.gov.cooldownUntil <= w.now + time
    ensures var run, i := [Passes(time), Releases(t), Rechecks(w.gov.waiters[0])], w.gov.waiters[0];
            && Possible(l, w, run) && After(l, w, run).gov.waiters == w.gov.waiters[1..]
            && After(l, w, run).tickets == w.tickets[t := Ticket(w.tickets[t].start, true)] + [Ticket(w.now + time, false)]
  {
    hide HeldCount, GrantedCount, QueueIs, Inv, Sound, Step;
    var i := w.gov.waiters[0];
    var w1 := AfterTime(l, w, time);
    var w2 := AfterRelease(l, w1, t);
    var w3 := AfterRecheck(l, w2, i);
    assert Possible(l, w3, []) && After(l, w3, []) == w3;
    EventFirst(l, w2, Rechecks(i), []);
    EventFirst(l, w1, Releases(t), [Rechecks(i)]);
    EventFirst(l, w, Passes(time), [Releases(t), Rechecks(i)]);
    assert [Releases(t)] + [Rechecks(i)] == [Releases(t), Rechecks(i)];
    assert [Passes(time)] + [Releases(t), Rechecks(i)] == [Passes(time), Releases(t), Rechecks(i)];
  }

  lemma AfterTime(l: Limits, w: World, time: nat) returns (next: World)
    requires Inv(l, w)
    ensures Able(w, Passes(time)) && Sound(w) && next == Step(l, w, Passes(time)) && Inv(l, next)
    ensures next.gov == w.gov && next.tickets == w.tickets && next.now == w.now + time
  {
    hide HeldCount, GrantedCount;
    EventKeepsInv(l, w, Passes(time));
    next := Step(l, w, Passes(time));
  }

  lemma AfterRelease(l: Limits, w: World, t: nat) returns (next: World)
    requires Inv(l, w) && w.gov.waiters != [] && t < |w.tickets| && !w.tickets[t].released
    ensures Able(w, Releases(t)) && Sound(w) && next == Step(l, w, Releases(t)) && Inv(l, next)
    ensures next.gov.waiters == w.gov.waiters[1..] && next.gov.cooldownUntil == w.gov.cooldownUntil && next.now == w.now
    ensures next.tickets == w.tickets[t := Ticket(w.tickets[t].start, true)]
    ensures w.gov.waiters[0] < |next.callers| && next.callers[w.gov.waiters[0]] == Granted
  {
    hide HeldCount, GrantedCount;
    EventKeepsInv(l, w, Releases(t));
    next := Step(l, w, Releases(t));
  }

  // ---- Penalties and rewards along a run ----

  function Capped(l: Limits, backoff: nat): nat {
    if backoff < l.maxBackoff then backoff else l.maxBackoff
  }

  /** How long the k-th penalty in a row holds: the first the least backoff, each further one the factor times as
      long, never longer than the most. */
  function Hold(l: Limits, k: nat): nat {
    if k == 0 then 0 else if k == 1 then Capped(l, l.minBackoff) else Capped(l, l.factor * Hold(l, k - 1))
  }

  /** The penalties in a row at the end of a run: a reward that comes after the cooldown ends the row, one that
      comes before does not. */
  ghost function Row(l: Limits, w: World, run: seq<Event>, k: nat): nat
    requires Possible(l, w, run)
    decreases |run|
  {
    if run == [] then k
    else
      Row(l, Step(l, w, run[0]), run[1..],
          if run[0].Penalizes? then k + 1 else if run[0].Rewards? && w.gov.cooldownUntil <= w.now then 0 else k)
  }

  /** When the last of the holds ends that the run's penalties imposed, or what was there before them. */
  ghost function HoldsEnd(l: Limits, w: World, run: seq<Event>, k: nat, end: int): int
    requires Possible(l, w, run)
    decreases |run|
  {
    if run == [] then end
    else if run[0].Penalizes? then
      var hold := w.now + Hold(l, k + 1);
      HoldsEnd(l, Step(l, w, run[0]), run[1..], k + 1, if hold > end then hold else end)
    else HoldsEnd(l, Step(l, w, run[0]), run[1..], if run[0].Rewards? && w.gov.cooldownUntil <= w.now then 0 else k, end)
  }

  function PenaltiesIn(run: seq<Event>): nat {
    if run == [] then 0 else PenaltiesIn(run[1..]) + if run[0].Penalizes? then 1 else 0
  }

  lemma CappedProduct(l: Limits, x: nat)
    ensures Capped(l, l.factor * Capped(l, x)) == Capped(l, l.factor * x)
  {
    if l.factor >= 1 && x >= l.maxBackoff {
      Product(l.factor, x);
      Product(l.factor, l.maxBackoff);
    }
  }

  lemma {:induction false} HoldIsBackoff(l: Limits, k: nat)
    requires k > 0
    ensures Hold(l, k) == Backoff(l, k)
  {
    if k > 1 {
      HoldIsBackoff(l, k - 1);
      CappedProduct(l, l.minBackoff * Power(l.factor, k - 2));
      Regroup(l.minBackoff, l.factor, Power(l.factor, k - 2));
    }
  }

  lemma Regroup(x: nat, y: nat, z: nat)
    ensures y * (x * z) == x * (y * z)
  {
  }

  /** With the default limits: a second, then twice as long each time, and a minute at most. */
  lemma DefaultHolds()
    ensures var l := Limits(4, 1000, 60000, 2);
            && Hold(l, 1) == 1000 && Hold(l, 2) == 2000 && Hold(l, 3) == 4000 && Hold(l, 4) == 8000
            && Hold(l, 5) == 16000 && Hold(l, 6) == 32000 && Hold(l, 7) == 60000 && Hold(l, 8) == 60000
  {
    var l := Limits(4, 1000, 60000, 2);
    assert Hold(l, 1) == 1000 && Hold(l, 2) == 2000 && Hold(l, 3) == 4000 && Hold(l, 4) == 8000;
    assert Hold(l, 5) == 16000 && Hold(l, 6) == 32000 && Hold(l, 7) == 60000;
  }

  /** The escalation counter is the row, and the backoff shown is that of its last penalty. */
  ghost predicate InRow(l: Limits, g: State, k: nat) {
    g.consecutive == k && g.currentBackoff == Hold(l, k)
  }

  lemma OneEventInRow(l: Limits, w: World, e: Event, k: nat)
    requires Able(w, e) && Sound(w) && InRow(l, w.gov, k)
    ensures var next := Step(l, w, e);
            && InRow(l, next.gov, if e.Penalizes? then k + 1 else if e.Rewards? && w.gov.cooldownUntil <= w.now then 0 else k)
            && next.gov.total == w.gov.total + (if e.Penalizes? then 1 else 0)
            && next.gov.cooldownUntil ==
               if e.Penalizes? && w.now + Hold(l, k + 1) > w.gov.cooldownUntil then w.now + Hold(l, k + 1) else w.gov.cooldownUntil
  {
    hide Backoff, Hold;
    HoldIsBackoff(l, k + 1);
    NoRow(l);
  }

  lemma NoRow(l: Limits)
    ensures Hold(l, 0) == 0
  {
  }

  /** Along any run the cooldown ends exactly when the last hold of its penalties does; the escalation follows
      the penalties in a row; and every penalty is counted. */
  lemma {:induction false} CooldownIsHolds(l: Limits, w: World, run: seq<Event>, k: nat)
    requires Possible(l, w, run) && InRow(l, w.gov, k)
    ensures var end := After(l, w, run);
            && InRow(l, end.gov, Row(l, w, run, k)) && end.gov.total == w.gov.total + PenaltiesIn(run)
            && end.gov.cooldownUntil == HoldsEnd(l, w, run, k, w.gov.cooldownUntil)
    decreases |run|
  {
    hide Able, Sound, Step, InRow, Hold;
    if run != [] {
      OneEventInRow(l, w, run[0], k);
      CooldownIsHolds(l, Step(l, w, run[0]), run[1..],
                      if run[0].Penalizes? then k + 1 else if run[0].Rewards? && w.gov.cooldownUntil <= w.now then 0 else k);
    }
  }

  /** After a run from the start and one more penalty, no request starts before the hold of that penalty is over:
      the least backoff for the first in a row, times the factor for each further one, up to the most. */
  lemma RowHoldsEveryone(l: Limits, w: World, run: seq<Event>, rest: seq<Event>)
    requires Initial(w) && Possible(l, w, run)
    requires var mid := After(l, w, run); Able(mid, Penalizes) && Sound(mid) && Possible(l, Step(l, mid, Penalizes), rest)
    ensures var mid := After(l, w, run); var end := After(l, Step(l, mid, Penalizes), rest);
            |mid.tickets| <= |end.tickets|
            && forall t :: |mid.tickets| <= t < |end.tickets| ==> mid.now + Hold(l, Row(l, w, run, 0) + 1) <= end.tickets[t].start
  {
    hide Possible, After, Hold, Able, Sound, Row, HoldsEnd, Backoff;
    NoRow(l);
    CooldownIsHolds(l, w, run, 0);
    var mid := After(l, w, run);
    OneEventInRow(l, mid, Penalizes, Row(l, w, run, 0));
    NoStartDuringCooldown(l, Step(l, mid, Penalizes), rest);
  }

  /** In particular the first penalty of a row - the first ever, or the first after a reward past the cooldown -
      holds everyone for the least backoff. */
  lemma FirstPenaltyHolds(l: Limits, w: World, rest: seq<Event>)
    requires Sound(w) && InRow(l, w.gov, 0) && Possible(l, Step(l, w, Penalizes), rest)
    ensures var end := After(l, Step(l, w, Penalizes), rest);
            |w.tickets| <= |end.tickets|
            && forall t :: |w.tickets| <= t < |end.tickets| ==> w.now + Capped(l, l.minBackoff) <= end.tickets[t].start
  {
    hide Possible, After, Hold, Backoff;
    OneEventInRow(l, w, Penalizes, 0);
    assert Hold(l, 1) == Capped(l, l.minBackoff) by {
      FirstHold(l);
    }
    NoStartDuringCooldown(l, Step(l, w, Penalizes), rest);
  }

  lemma FirstHold(l: Limits)
    ensures Hold(l, 1) == Capped(l, l.minBackoff)
  {
  }

  /** A reward past the cooldown makes the next penalty a first one again; before it the row goes on. */
  lemma RewardEndsRow(l: Limits, w: World, k: nat)
    requires Sound(w) && InRow(l, w.gov, k)
    ensures InRow(l, Step(l, w, Rewards).gov, if w.gov.cooldownUntil <= w.now then 0 else k)
    ensures Step(l, w, Rewards).gov.cooldownUntil == w.gov.cooldownUntil
  {
    hide Backoff, Hold;
    OneEventInRow(l, w, Rewards, k);
  }
}
