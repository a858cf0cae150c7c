/**
 * Posting a request with retries over a network that may lose it either way, to a server
 * that is any function of its state and the number of the attempt.
 */
module Retries {
  import opened Common

  /** What the network does to one attempt; the token request may fail before anything is posted. */
  datatype Network = TokenError(status: Option<int>) | RequestLost | ResponseLost | Delivered

  /** The state after an attempt and the status of the answer. */
  type Server<!D> = (D, nat) -> (D, int)

  const CREATED: int := 201

  /** Storing again changes nothing and is answered alike; any other answer leaves the state alone. */
  ghost predicate Absorbs<D(!new)>(serve: Server<D>, n: nat) {
    && (forall d, i: nat | i < n && serve(d, i).1 != CREATED :: serve(d, i).0 == d)
    && (forall d, i: nat, j: nat | i < n && j < n && serve(d, i).1 == CREATED :: serve(serve(d, i).0, j) == serve(d, i))
  }

  predicate Arrives(n: Network) {
    n == ResponseLost || n == Delivered
  }

  predicate ClientError(status: Option<int>) {
    status.Some? && 400 <= status.value < 500
  }

  /** Error responses raised by the token endpoint have status 400 or more. */
  predicate Legal(network: seq<Network>) {
    forall i | 0 <= i < |network| :: network[i].TokenError? && network[i].status.Some? ==> network[i].status.value >= 400
  }

  /** The status an attempt ends with; None when there is no response. */
  function StatusSeen(n: Network, served: int): Option<int> {
    match n
    case TokenError(status) => status
    case Delivered => Some(served)
    case _ => None
  }

  function Seen<D>(d: D, serve: Server<D>, network: seq<Network>, i: nat): Option<int>
    requires i < |network|
  {
    StatusSeen(network[i], serve(d, i).1)
  }

  function StateAfter<D>(d: D, serve: Server<D>, network: seq<Network>, i: nat): D
    requires i < |network|
  {
    if Arrives(network[i]) then serve(d, i).0 else d
  }

  predicate Stores<D>(d: D, serve: Server<D>, network: seq<Network>, i: nat)
    requires i < |network|
  {
    Arrives(network[i]) && serve(d, i).1 == CREATED
  }

  /** The job tries again unless the status is that of a stored request or of a client error. */
  predicate TriesAgain(seen: Option<int>) {
    seen != Some(CREATED) && !ClientError(seen)
  }

  /** Some attempt from the i-th on is answered 201, and none before it with a client error. */
  predicate Acknowledged<D>(d: D, serve: Server<D>, network: seq<Network>, i: nat)
    requires i <= |network|
    decreases |network| - i
  {
    && i < |network|
    && (Seen(d, serve, network, i) == Some(CREATED)
        || (TriesAgain(Seen(d, serve, network, i)) && Acknowledged(StateAfter(d, serve, network, i), serve, network, i + 1)))
  }

  /** Some attempt that is made, from the i-th on, arrives and is served 201. */
  predicate Stored<D>(d: D, serve: Server<D>, network: seq<Network>, i: nat)
    requires i <= |network|
    decreases |network| - i
  {
    && i < |network|
    && (Stores(d, serve, network, i)
        || (TriesAgain(Seen(d, serve, network, i)) && Stored(StateAfter(d, serve, network, i), serve, network, i + 1)))
  }

  /** How many attempts are made from the i-th on. */
  function Attempts<D>(d: D, serve: Server<D>, network: seq<Network>, i: nat): nat
    requires i <= |network|
    decreases |network| - i
  {
    if i == |network| then 0
    else if TriesAgain(Seen(d, serve, network, i)) then 1 + Attempts(StateAfter(d, serve, network, i), serve, network, i + 1)
    else 1
  }

  /** The state is untouched or exactly as storing the request once leaves it. */
  ghost predicate AppliedOnce<D>(before: D, now: D, serve: Server<D>, n: nat, applied: nat) {
    if applied == 0 then now == before
    else exists j: nat | j < n :: serve(before, j) == (now, CREATED)
  }

  lemma ServeAppliesOnce<D(!new)>(before: D, now: D, serve: Server<D>, n: nat, applied: nat, i: nat)
    requires Absorbs(serve, n) && i < n && AppliedOnce(before, now, serve, n, applied)
    ensures var (after, status) := serve(now, i);
            AppliedOnce(before, after, serve, n, if status == CREATED then applied + 1 else applied)
  {
  }

  // ---- The loop ----------------------------------------------------------------------------------

  /** Where the loop stands before attempt `i`: what was stored so far and what is still to come. */
  ghost predicate SoFar<D>(before: D, now: D, serve: Server<D>, network: seq<Network>, applied: nat, i: nat)
    requires i <= |network|
  {
    && AppliedOnce(before, now, serve, |network|, applied)
    && Acknowledged(before, serve, network, 0) == Acknowledged(now, serve, network, i)
    && Stored(before, serve, network, 0) == (applied > 0 || Stored(now, serve, network, i))
    && Attempts(before, serve, network, 0) == i + Attempts(now, serve, network, i)
  }

  /** How the loop ends: success is reported iff an answer said so, and the request was stored iff some attempt stored it. */
  ghost predicate Ended<D>(before: D, now: D, serve: Server<D>, network: seq<Network>, ok: bool, applied: nat) {
    && AppliedOnce(before, now, serve, |network|, applied)
    && ok == Acknowledged(before, serve, network, 0)
    && (applied > 0) == Stored(before, serve, network, 0)
    && (ok ==> applied > 0)
  }

  /** One POST as the job sees it: `stored` when the server stored the request, `seen` the status that came back. */
  method Attempt<D(!new)>(ghost before: D, now: D, serve: Server<D>, network: seq<Network>, ghost applied: nat, i: nat)
    returns (after: D, stored: bool, seen: Option<int>)
    requires Absorbs(serve, |network|) && Legal(network)
    requires i < |network| && SoFar(before, now, serve, network, applied, i)
    ensures var more := if stored then applied + 1 else applied;
            if TriesAgain(seen) then SoFar(before, after, serve, network, more, i + 1)
            else Ended(before, after, serve, network, seen == Some(CREATED), more) && Attempts(before, serve, network, 0) == i + 1
  {
    var (served, status) := serve(now, i);
    ServeAppliesOnce(before, now, serve, |network|, applied, i);
    after := if Arrives(network[i]) then served else now;
    stored := Arrives(network[i]) && status == CREATED;
    seen := StatusSeen(network[i], status);
  }

  function Pow2(n: nat): nat {
    if n == 0 then 1 else 2 * Pow2(n - 1)
  }

  /** Seconds slept before attempt `i`. */
  function SleptBefore(initial: nat, i: nat): nat {
    if i == 0 then 0 else SleptBefore(initial, i - 1) + initial * Pow2(i - 1)
  }

  /** Seconds slept in `attempts` attempts: there is no wait after the last. */
  function SleptFor(initial: nat, attempts: nat): nat {
    if attempts == 0 then 0 else SleptBefore(initial, attempts - 1)
  }

  method Sleep(initial: nat, i: nat, slept: nat) returns (total: nat)
    requires slept == SleptBefore(initial, i)
    ensures total == SleptBefore(initial, i + 1)
  {
    total := slept + initial * Pow2(i);
  }

  /**
   * Posts until an answer says the request was stored, giving up on 4xx answers and
   * after as many attempts as the network has. `applied` counts how often the server
   * stored the request, `attempts` how many were made.
   */
  method PostWithRetries<D(!new)>(before: D, serve: Server<D>, network: seq<Network>, initialBackoff: nat)
    returns (ok: bool, after: D, applied: nat, attempts: nat, slept: nat, seen: Option<int>)
    requires Absorbs(serve, |network|) && Legal(network)
    ensures attempts == Attempts(before, serve, network, 0)
    ensures ok <==> seen == Some(201)
    ensures attempts < |network| ==> seen == Some(201) || (seen.Some? && 400 <= seen.value < 500)
    ensures Ended(before, after, serve, network, ok, applied)
    ensures applied <= attempts <= |network|
    ensures slept == SleptFor(initialBackoff, attempts)
  {
    after, applied, attempts, slept, seen := before, 0, 0, 0, None;
    while attempts < |network|
      invariant seen != Some(201) && applied <= attempts <= |network| && SoFar(before, after, serve, network, applied, attempts)
      invariant slept == if attempts < |network| then SleptBefore(initialBackoff, attempts) else SleptFor(initialBackoff, attempts)
    {
      var stored;
      after, stored, seen := Attempt(before, after, serve, network, applied, attempts);
      if stored {
        applied := applied + 1;
      }
      attempts := attempts + 1;
      if !TriesAgain(seen) {
        return seen == Some(CREATED), after, applied, attempts, slept, seen;
      }
      if attempts < |network| {
        slept := Sleep(initialBackoff, attempts - 1, slept);
      }
    }
    return false, after, applied, attempts, slept, seen;
  }

  /** The waits add up to initial * (2^i - 1). */
  lemma {:induction false} SleptTotal(initial: nat, i: nat)
    ensures SleptBefore(initial, i) == initial * (Pow2(i) - 1)
  {
    if i > 0 {
      SleptTotal(initial, i - 1);
      assert initial * (2 * Pow2(i - 1) - 1) == initial * Pow2(i - 1) + initial * (Pow2(i - 1) - 1);
    }
  }

  lemma {:induction false} SleptMonotone(initial: nat, i: nat, n: nat)
    requires i <= n
    ensures SleptBefore(initial, i) <= SleptBefore(initial, n)
    decreases n
  {
    if i < n {
      SleptMonotone(initial, i, n - 1);
    }
  }

  /** With n attempts allowed, the job sleeps at most initial * (2^(n-1) - 1). */
  lemma SleptBound(initial: nat, attempts: nat, n: nat)
    requires attempts <= n && n > 0
    ensures SleptFor(initial, attempts) <= initial * (Pow2(n - 1) - 1)
  {
    if attempts > 0 {
      SleptMonotone(initial, attempts - 1, n - 1);
    } else {
      SleptMonotone(initial, 0, n - 1);
    }
    SleptTotal(initial, n - 1);
  }

  // ---- Attempt by attempt ----------------------------------------------------------------------------

  /** An attempt that decides nothing: report, storage and number of attempts are those of the rest, from the given state. */
  ghost predicate GoesOn<D>(d: D, next: D, serve: Server<D>, network: seq<Network>, i: nat, stored: bool)
    requires i < |network|
  {
    && (Acknowledged(d, serve, network, i) <==> Acknowledged(next, serve, network, i + 1))
    && (Stored(d, serve, network, i) <==> stored || Stored(next, serve, network, i + 1))
    && Attempts(d, serve, network, i) == 1 + Attempts(next, serve, network, i + 1)
  }

  /** An attempt that ends the job. */
  ghost predicate Stops<D>(d: D, serve: Server<D>, network: seq<Network>, i: nat, success: bool)
    requires i < |network|
  {
    && (Acknowledged(d, serve, network, i) <==> success)
    && (Stored(d, serve, network, i) <==> success)
    && Attempts(d, serve, network, i) == 1
  }

  /**
   * What each kind of attempt leads to: a delivered 201 ends the job with success, a status
   * from 400 to 499 ends it with failure, and everything else, lost messages, missing
   * responses and 5xx included, is followed by the next attempt.
   */
  lemma AttemptByCases<D>(d: D, serve: Server<D>, network: seq<Network>, i: nat)
    requires i < |network| && Legal(network)
    ensures var (served, status) := serve(d, i);
            match network[i]
            case RequestLost => GoesOn(d, d, serve, network, i, false)
            case ResponseLost => GoesOn(d, served, serve, network, i, status == 201)
            case TokenError(None) => GoesOn(d, d, serve, network, i, false)
            case TokenError(Some(s)) => if 400 <= s < 500 then Stops(d, serve, network, i, false) else GoesOn(d, d, serve, network, i, false)
            case Delivered =>
              if status == 201 then Stops(d, serve, network, i, true)
              else if 400 <= status < 500 then Stops(d, serve, network, i, false)
              else GoesOn(d, served, serve, network, i, false)
  {
  }

  /** Without attempts left nothing is reported or stored. */
  lemma NoAttemptLeft<D>(d: D, serve: Server<D>, network: seq<Network>)
    ensures !Acknowledged(d, serve, network, |network|) && !Stored(d, serve, network, |network|)
    ensures Attempts(d, serve, network, |network|) == 0
  {
  }

  // ---- What decides the outcome ----------------------------------------------------------------------

  /** The attempt at which the job stops when the server stores: the first that is delivered or refused a token for good. */
  function StopsAt(network: seq<Network>, i: nat): (k: nat)
    requires i <= |network|
    ensures i <= k <= |network|
    decreases |network| - i
  {
    if i == |network| || network[i] == Delivered || (network[i].TokenError? && ClientError(network[i].status)) then i
    else StopsAt(network, i + 1)
  }

  predicate EndsDelivered(network: seq<Network>, i: nat)
    requires i <= |network|
  {
    StopsAt(network, i) < |network| && network[StopsAt(network, i)] == Delivered
  }

  predicate LosesAnswer(network: seq<Network>, i: nat)
    requires i <= |network|
  {
    exists j | i <= j < StopsAt(network, i) :: network[j] == ResponseLost
  }

  lemma LosesAnswerNext(network: seq<Network>, i: nat)
    requires i < |network| && StopsAt(network, i) > i
    ensures LosesAnswer(network, i) <==> network[i] == ResponseLost || LosesAnswer(network, i + 1)
  {
  }

  /** All attempts meet the same answer, whatever was stored before: the first state decides. */
  ghost predicate Decided<D>(before: D, serve: Server<D>, n: nat, storable: bool) {
    forall i: nat | i < n :: serve(before, i).1 == CREATED <==> storable
  }

  lemma SameAnswer<D(!new)>(before: D, now: D, serve: Server<D>, n: nat, storable: bool, applied: nat, i: nat)
    requires Absorbs(serve, n) && Decided(before, serve, n, storable) && i < n && AppliedOnce(before, now, serve, n, applied)
    ensures serve(now, i).1 == CREATED <==> storable
  {
  }

  lemma {:induction false} NeverStored<D(!new)>(before: D, serve: Server<D>, network: seq<Network>, i: nat)
    requires Absorbs(serve, |network|) && Legal(network) && Decided(before, serve, |network|, false) && i <= |network|
    ensures !Acknowledged(before, serve, network, i) && !Stored(before, serve, network, i)
    decreases |network| - i
  {
    if i < |network| {
      assert serve(before, i).1 != CREATED;
      NeverStored(before, serve, network, i + 1);
    }
  }

  lemma {:induction false} OutcomeFrom<D(!new)>(before: D, now: D, serve: Server<D>, network: seq<Network>, applied: nat, i: nat)
    requires Absorbs(serve, |network|) && Legal(network) && Decided(before, serve, |network|, true) && i <= |network|
    requires AppliedOnce(before, now, serve, |network|, applied)
    ensures Acknowledged(now, serve, network, i) <==> EndsDelivered(network, i)
    ensures Stored(now, serve, network, i) <==> EndsDelivered(network, i) || LosesAnswer(network, i)
    decreases |network| - i
  {
    if i < |network| {
      SameAnswer(before, now, serve, |network|, true, applied, i);
      if StopsAt(network, i) > i {
        ServeAppliesOnce(before, now, serve, |network|, applied, i);
        var more := if Arrives(network[i]) then applied + 1 else applied;
        OutcomeFrom(before, StateAfter(now, serve, network, i), serve, network, more, i + 1);
        LosesAnswerNext(network, i);
      }
    }
  }

  /**
   * What the job reports and what is stored, from the request and the network alone: it
   * reports success iff the request is storable and the attempt at which it stops is
   * delivered; the request is stored iff it is storable and that attempt is delivered or
   * the answer of an earlier one was lost.
   */
  lemma OutcomeIff<D(!new)>(before: D, serve: Server<D>, network: seq<Network>, storable: bool)
    requires Absorbs(serve, |network|) && Legal(network) && Decided(before, serve, |network|, storable)
    ensures Acknowledged(before, serve, network, 0) <==> storable && EndsDelivered(network, 0)
    ensures Stored(before, serve, network, 0) <==> storable && (EndsDelivered(network, 0) || LosesAnswer(network, 0))
  {
    if storable {
      OutcomeFrom(before, before, serve, network, 0, 0);
    } else {
      NeverStored(before, serve, network, 0);
    }
  }

  lemma {:induction false} StopsDelivered(network: seq<Network>, i: nat, j: nat)
    requires i <= j < |network| && network[j] == Delivered
    requires forall m | i <= m < |network| :: network[m].TokenError? && network[m].status.Some? ==> !(400 <= network[m].status.value < 500)
    ensures EndsDelivered(network, i)
    decreases j - i
  {
    if network[i] != Delivered {
      StopsDelivered(network, i + 1, j);
    }
  }

  /** A storable request is reported as stored when some attempt gets through and none is refused a token with a status from 400 to 499. */
  lemma DeliveredSucceeds<D(!new)>(before: D, serve: Server<D>, network: seq<Network>, j: nat)
    requires Absorbs(serve, |network|) && Legal(network)
    requires forall i: nat | i < |network| :: serve(before, i).1 == 201
    requires j < |network| && network[j] == Delivered
    requires forall m | 0 <= m < |network| :: network[m].TokenError? && network[m].status.Some? ==> !(400 <= network[m].status.value < 500)
    ensures Acknowledged(before, serve, network, 0) && Stored(before, serve, network, 0)
  {
    StopsDelivered(network, 0, j);
    OutcomeIff(before, serve, network, true);
  }
}
