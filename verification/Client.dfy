/** One upstream request with its retries, as the governor sees it (src/clio/client.ts:68-125). */
module Client {
  /** The environment's answer to an attempt; classification of errors is left to it. */
  datatype Reply = Good | Bad(retryable: bool)

  datatype Call = Acquire | Reward | Penalize | Release

  /** What each attempt does between taking a slot and giving it back. */
  function Attempt(reply: Reply): seq<Call> {
    match reply
    case Good => [Acquire, Reward, Release]
    case Bad(retryable) => if retryable then [Acquire, Penalize, Release] else [Acquire, Release]
  }

  predicate GivesUp(reply: Reply, attempt: nat, maxRetries: nat) {
    reply.Bad? && (!reply.retryable || attempt >= maxRetries)
  }

  function Calls(replies: nat -> Reply, attempt: nat, maxRetries: nat): seq<Call>
    decreases maxRetries - attempt
  {
    Attempt(replies(attempt)) +
    if replies(attempt).Good? || GivesUp(replies(attempt), attempt, maxRetries) then [] else Calls(replies, attempt + 1, maxRetries)
  }

  /** So many attempts that met a load signal. */
  function Retried(n: nat): seq<Call> {
    if n == 0 then [] else Retried(n - 1) + [Acquire, Penalize, Release]
  }

  /** A request's calls: every attempt takes a slot and gives it back; all but the last penalize while they hold it;
      the last rewards if it succeeded, penalizes if it met a load signal with no retry left, and does neither
      if its error was none. */
  method Request(replies: nat -> Reply, maxRetries: nat) returns (log: seq<Call>, attempts: nat, ok: bool)
    ensures log == Calls(replies, 0, maxRetries)
    ensures 1 <= attempts <= maxRetries + 1 && (ok <==> replies(attempts - 1).Good?)
    ensures log == Retried(attempts - 1) + if ok then [Acquire, Reward, Release]
                                           else if replies(attempts - 1) == Bad(true) then [Acquire, Penalize, Release]
                                           else [Acquire, Release]
    ensures !ok ==> replies(attempts - 1) == Bad(false) || attempts == maxRetries + 1
    ensures forall n :: 0 <= n < attempts - 1 ==> replies(n) == Bad(true)
  {
    hide Calls;
    var attempt := 0;
    log := [];
    while true
      invariant attempt <= maxRetries && Calls(replies, 0, maxRetries) == log + Calls(replies, attempt, maxRetries)
      invariant forall n :: 0 <= n < attempt ==> replies(n) == Bad(true)
      invariant log == Retried(attempt)
      decreases maxRetries - attempt
    {
      var reply := replies(attempt);
      Unfold(replies, attempt, maxRetries, log);
      var calls := [Acquire];
      match reply {
        case Good =>
          calls := calls + [Reward];
        case Bad(retryable) =>
          if retryable {
            calls := calls + [Penalize];
          }
      }
      calls := calls + [Release];
      assert calls == Attempt(reply);
      log := log + calls;
      if reply.Good? {
        return log, attempt + 1, true;
      }
      if !reply.retryable || attempt >= maxRetries {
        return log, attempt + 1, false;
      }
      attempt := attempt + 1;
    }
  }

  lemma Unfold(replies: nat -> Reply, attempt: nat, maxRetries: nat, log: seq<Call>)
    ensures var head := Attempt(replies(attempt));
            log + Calls(replies, attempt, maxRetries) ==
            log + head + if replies(attempt).Good? || GivesUp(replies(attempt), attempt, maxRetries) then []
                         else Calls(replies, attempt + 1, maxRetries)
  {
    hide Attempt, GivesUp;
  }

  /** Slots held after some calls. */
  function Held(log: seq<Call>): int {
    if log == [] then 0
    else Held(log[..|log| - 1]) + match log[|log| - 1] case Acquire => 1 case Release => -1 case _ => 0
  }

  lemma {:induction false} HeldAdds(a: seq<Call>, b: seq<Call>)
    ensures Held(a + b) == Held(a) + Held(b)
  {
    if b == [] {
      assert a + b == a;
    } else {
      assert (a + b)[..|a + b| - 1] == a + b[..|b| - 1];
      HeldAdds(a, b[..|b| - 1]);
    }
  }

  lemma AttemptHolds(reply: Reply, k: nat)
    requires k <= |Attempt(reply)|
    ensures 0 <= Held(Attempt(reply)[..k]) <= 1
    ensures k == |Attempt(reply)| ==> Held(Attempt(reply)[..k]) == 0
  {
    var calls := Attempt(reply);
    assert calls[..1] == [Acquire] && calls[..0] == [];
    assert Held([Acquire]) == 1 by { assert [Acquire][..0] == []; }
    if |calls| == 3 {
      assert calls[..2][..1] == calls[..1] && calls[..3][..2] == calls[..2];
    } else {
      assert calls[..2][..1] == calls[..1];
    }
  }

  /** However the attempts go, at no moment is more than one slot held, and in the end none is. */
  lemma {:induction false} OneSlotAtATime(replies: nat -> Reply, attempt: nat, maxRetries: nat, k: nat)
    requires attempt <= maxRetries && k <= |Calls(replies, attempt, maxRetries)|
    ensures 0 <= Held(Calls(replies, attempt, maxRetries)[..k]) <= 1
    ensures k == |Calls(replies, attempt, maxRetries)| ==> Held(Calls(replies, attempt, maxRetries)[..k]) == 0
    decreases maxRetries - attempt
  {
    hide Attempt, Held;
    var log, head := Calls(replies, attempt, maxRetries), Attempt(replies(attempt));
    if k <= |head| {
      AttemptHolds(replies(attempt), k);
      assert log[..k] == head[..k];
      if k == |log| {
        assert k == |head|;
      }
    } else {
      var rest := Calls(replies, attempt + 1, maxRetries);
      AttemptHolds(replies(attempt), |head|);
      OneSlotAtATime(replies, attempt + 1, maxRetries, k - |head|);
      assert head[..|head|] == head;
      assert log[..k] == head + rest[..k - |head|];
      HeldAdds(head, rest[..k - |head|]);
    }
  }
}
