/**
 Trying several addresses within one time budget. Time is real; the attempts are a parameter that says how long each
 takes, within the window it is granted, and how it ends. Bookkeeping takes no time.
 */
module ConnectBudget {
  import opened Common

  type Connection = string

  type Failure = string

  datatype Attempt = Attempt(elapsed: real, result: Result<Connection, Failure>)

  /** An attempt that was made: its address, the window it was granted, and how it went. */
  datatype Try = Try(address: string, window: real, attempt: Attempt)

  datatype Outcome =
    | Connected(connection: Connection)
    | Failed(error: Failure)
    | Expired(last: Option<Failure>)   // the deadline has passed before an attempt
    | NothingTried                     // there is no address and so no error to report

  /** How an attempt on the address of a given position goes when it is granted a window. */
  type Network = (nat, real) -> Attempt

  /** The window ends an attempt that has not ended by itself. */
  ghost predicate Punctual(network: Network) {
    forall i: nat, window: real :: 0.0 < window ==> 0.0 <= network(i, window).elapsed <= window
  }

  function Spent(tries: seq<Try>): real {
    if tries == [] then 0.0 else Spent(tries[..|tries| - 1]) + tries[|tries| - 1].attempt.elapsed
  }

  /** The try of a position is of the address there, and goes as the network has it. */
  predicate TriedAt(network: Network, addresses: seq<string>, tries: seq<Try>, i: nat)
    requires i < |tries| <= |addresses|
  {
    tries[i].address == addresses[i] && tries[i].attempt == network(i, tries[i].window)
  }

  predicate FailedAt(tries: seq<Try>, i: nat)
    requires i < |tries|
  {
    tries[i].attempt.result.Err?
  }

  /** One try of every address so far, in order; all failed but perhaps the last. */
  ghost predicate Tried(network: Network, addresses: seq<string>, tries: seq<Try>) {
    && |tries| <= |addresses|
    && (forall i: nat :: i < |tries| ==> TriedAt(network, addresses, tries, i))
    && (forall i: nat :: i + 1 < |tries| ==> FailedAt(tries, i))
  }

  /** Every try was granted an equal share of the budget or more. */
  ghost predicate FairlyGranted(timeout: real, n: nat, tries: seq<Try>)
    requires 0 < n
  {
    forall i :: 0 <= i < |tries| ==> tries[i].window >= timeout / (n as real)
  }

  /** So many equal windows are what remains. */
  predicate EvenShare(window: real, addresses: int, remaining: real) {
    window * (addresses as real) == remaining
  }

  /** The window of a try is what was left of the budget, divided evenly among the addresses that were left. */
  predicate EvenAt(timeout: real, n: nat, tries: seq<Try>, i: nat)
    requires i < |tries|
  {
    EvenShare(tries[i].window, n - i, timeout - Spent(tries[..i]))
  }

  ghost predicate EvenlyGranted(timeout: real, n: nat, tries: seq<Try>) {
    forall i: nat :: i < |tries| ==> EvenAt(timeout, n, tries, i)
  }

  lemma EvenStays(timeout: real, n: nat, tries: seq<Try>, next: Try, i: nat)
    requires i < |tries| && EvenAt(timeout, n, tries, i)
    ensures EvenAt(timeout, n, tries + [next], i)
  {
    hide EvenShare, Spent;
    assert (tries + [next])[..i] == tries[..i];
  }

  lemma EvenLast(timeout: real, n: nat, tries: seq<Try>, next: Try)
    requires EvenShare(next.window, n - |tries|, timeout - Spent(tries))
    ensures EvenAt(timeout, n, tries + [next], |tries|)
  {
    hide EvenShare, Spent;
    assert (tries + [next])[..|tries|] == tries;
  }

  lemma EvenlyNext(timeout: real, n: nat, tries: seq<Try>, next: Try)
    requires EvenlyGranted(timeout, n, tries)
    requires EvenShare(next.window, n - |tries|, timeout - Spent(tries))
    ensures EvenlyGranted(timeout, n, tries + [next])
  {
    hide EvenAt, EvenShare, Spent;
    EvenLast(timeout, n, tries, next);
    forall i: nat | i < |tries + [next]|
      ensures EvenAt(timeout, n, tries + [next], i)
    {
      if i < |tries| {
        EvenStays(timeout, n, tries, next, i);
      }
    }
  }

  lemma WindowIsShare(timeout: real, n: nat, i: nat, remaining: real)
    requires i < n && (n == 1 ==> remaining == timeout)
    ensures EvenShare(Window(timeout, n, i, remaining), n - i, remaining)
  {
    var left := (n - i) as real;
    assert n == 1 ==> left == 1.0;
    assert remaining / left * left == remaining;
  }

  /** What is left after i tries is at least the share of the others. */
  ghost predicate Covered(timeout: real, n: nat, i: nat, remaining: real) {
    0 < n && i <= n && remaining * (n as real) >= timeout * ((n - i) as real)
  }

  /** A share of what remains covers an equal share of the whole, and leaves enough for the rest. */
  lemma ShareCovers(timeout: real, n: nat, i: nat, remaining: real, elapsed: real)
    requires Covered(timeout, n, i, remaining) && i < n && 0.0 < timeout
    requires 0.0 <= elapsed <= remaining / ((n - i) as real)
    ensures remaining / ((n - i) as real) >= timeout / (n as real) && 0.0 < remaining
    ensures Covered(timeout, n, i + 1, remaining - elapsed) && 0.0 <= remaining - elapsed
  {
    var left, all, share := (n - i) as real, n as real, remaining / ((n - i) as real);
    assert share * left == remaining;
    assert remaining * all == (share * all) * left;
    Cancel(timeout, share * all, left);
    Shares(timeout, share, all);
    assert (remaining - elapsed) * all >= (remaining - share) * all by {
      Scale(remaining - share, remaining - elapsed, all);
    }
    assert remaining - share == share * (left - 1.0);
    assert (remaining - share) * all == (share * all) * (left - 1.0);
    Scale(timeout, share * all, left - 1.0);
    assert 0.0 <= share * (left - 1.0) by {
      Scale(0.0, share, left - 1.0);
    }
  }

  lemma Cancel(a: real, b: real, c: real)
    requires a * c <= b * c && 0.0 < c
    ensures a <= b
  {
  }

  lemma Scale(a: real, b: real, c: real)
    requires a <= b && 0.0 <= c
    ensures a * c <= b * c
  {
  }

  lemma Shares(timeout: real, share: real, all: real)
    requires timeout <= share * all && 1.0 <= all && 0.0 < timeout
    ensures timeout / all <= share && 0.0 < share
  {
    assert timeout / all * all == timeout;
    Cancel(timeout / all, share, all);
    assert 0.0 < timeout / all;
  }

  lemma SpentNext(tries: seq<Try>, next: Try)
    ensures Spent(tries + [next]) == Spent(tries) + next.attempt.elapsed
  {
    assert (tries + [next])[..|tries|] == tries;
  }

  lemma TriedNext(network: Network, addresses: seq<string>, tries: seq<Try>, next: Try)
    requires Tried(network, addresses, tries) && |tries| < |addresses|
    requires next.address == addresses[|tries|] && next.attempt == network(|tries|, next.window)
    requires tries != [] ==> tries[|tries| - 1].attempt.result.Err?
    ensures Tried(network, addresses, tries + [next])
  {
    var tries' := tries + [next];
    assert TriedAt(network, addresses, tries', |tries|);
    forall i: nat | i < |tries|
      ensures TriedAt(network, addresses, tries', i) && FailedAt(tries', i)
    {
      assert TriedAt(network, addresses, tries, i) && (i + 1 < |tries| ==> FailedAt(tries, i));
      assert tries'[i] == tries[i];
    }
  }

  lemma GrantedNext(timeout: real, n: nat, tries: seq<Try>, next: Try)
    requires 0 < n && FairlyGranted(timeout, n, tries) && next.window >= timeout / (n as real)
    ensures FairlyGranted(timeout, n, tries + [next])
  {
  }

  /** The window of the next address: all of the budget for a single one, else a share of what remains. */
  function Window(timeout: real, n: nat, i: nat, remaining: real): real
    requires i < n
  {
    if n == 1 then timeout else remaining / ((n - i) as real)
  }

  /** What has been granted so far, and what is left. */
  ghost predicate Granted(timeout: real, n: nat, i: nat, remaining: real, tries: seq<Try>) {
    && |tries| == i && remaining == timeout - Spent(tries)
    && EvenlyGranted(timeout, n, tries)
    && (n == 1 ==> forall k :: 0 <= k < |tries| ==> tries[k].window == timeout)
  }

  /** What is known before the try of each position, with a positive budget. */
  ghost predicate Ahead(timeout: real, n: nat, i: nat, remaining: real, tries: seq<Try>) {
    && Covered(timeout, n, i, remaining) && 0.0 <= remaining && FairlyGranted(timeout, n, tries)
    && (i == 0 ==> remaining == timeout)
    && Granted(timeout, n, i, remaining, tries)
  }

  lemma GrantedLater(timeout: real, n: nat, i: nat, remaining: real, tries: seq<Try>, next: Try)
    requires Granted(timeout, n, i, remaining, tries) && i < n && (n == 1 ==> remaining == timeout)
    requires next.window == Window(timeout, n, i, remaining)
    ensures Granted(timeout, n, i + 1, remaining - next.attempt.elapsed, tries + [next])
  {
    WindowIsShare(timeout, n, i, remaining);
    EvenlyNext(timeout, n, tries, next);
    SpentNext(tries, next);
    hide EvenlyGranted, EvenShare, Spent;
  }

  lemma AheadAtStart(timeout: real, n: nat)
    requires 0.0 < timeout && 0 < n
    ensures Ahead(timeout, n, 0, timeout, [])
  {
  }

  lemma AheadNext(timeout: real, n: nat, i: nat, remaining: real, tries: seq<Try>, next: Try)
    requires Ahead(timeout, n, i, remaining, tries) && i < n && 0.0 < timeout
    requires next.window == Window(timeout, n, i, remaining) && 0.0 <= next.attempt.elapsed <= next.window
    ensures Ahead(timeout, n, i + 1, remaining - next.attempt.elapsed, tries + [next])
  {
    WholeWindow(timeout, n, i, remaining);
    hide Granted, Covered, FairlyGranted, Window;
    GrantedLater(timeout, n, i, remaining, tries, next);
    ShareCovers(timeout, n, i, remaining, next.attempt.elapsed);
    GrantedNext(timeout, n, tries, next);
  }

  lemma WholeWindow(timeout: real, n: nat, i: nat, remaining: real)
    requires i < n && (n == 1 ==> remaining == timeout)
    ensures Window(timeout, n, i, remaining) == remaining / ((n - i) as real)
  {
    assert n == 1 ==> remaining / 1.0 == timeout;
  }

  lemma WindowPositive(timeout: real, n: nat, i: nat, remaining: real, tries: seq<Try>)
    requires Ahead(timeout, n, i, remaining, tries) && i < n && 0.0 < timeout
    ensures 0.0 < remaining && 0.0 < Window(timeout, n, i, remaining)
  {
    ShareCovers(timeout, n, i, remaining, 0.0) by {
      assert 0.0 <= remaining / ((n - i) as real);
    }
  }

  /**
   Connect to the first address that answers. With a positive budget the deadline is kept, the way out for a passed
   deadline is never taken, and each address that is reached is granted at least an equal share of the budget,
   whatever earlier attempts consumed: what is left of the budget over the number of addresses that are left. A single
   address is granted all of it.
   */
  method ConnectValidatedAddresses(network: Network, addresses: seq<string>, timeout: real, start: real)
    returns (outcome: Outcome, tries: seq<Try>, finished: real)
    requires Punctual(network)
    ensures Tried(network, addresses, tries) && finished == start + Spent(tries)
    ensures outcome.Expired? <==> addresses != [] && timeout <= 0.0
    ensures outcome.NothingTried? <==> addresses == []
    ensures outcome.Connected? ==> tries != [] && tries[|tries| - 1].attempt.result == Ok(outcome.connection)
    ensures outcome.Failed? ==>
              |tries| == |addresses| && tries != [] && tries[|tries| - 1].attempt.result == Err(outcome.error)
    ensures outcome.Expired? || outcome.NothingTried? ==> tries == []
    ensures 0.0 < timeout && addresses != [] ==>
              finished <= start + timeout && FairlyGranted(timeout, |addresses|, tries)
    ensures EvenlyGranted(timeout, |addresses|, tries)
    ensures |addresses| == 1 ==> forall i :: 0 <= i < |tries| ==> tries[i].window == timeout
  {
    var n := |addresses|;
    var now, deadline := start, start + timeout;
    var lastError: Option<Failure> := None;
    tries := [];
    if 0.0 < timeout && 0 < n {
      AheadAtStart(timeout, n);
    }
    assert Tried(network, addresses, []) && Spent([]) == 0.0 && EvenlyGranted(timeout, n, []);
    assert deadline - now == timeout;
    hide Tried, Spent, Ahead, Window, Punctual, EvenlyGranted;
    for index := 0 to n
      invariant |tries| == index && Tried(network, addresses, tries) && now == start + Spent(tries)
      invariant 0 < index ==> 0.0 < timeout && tries[index - 1].attempt.result.Err?
                              && lastError == Some(tries[index - 1].attempt.result.error)
      invariant 0 == index ==> lastError.None? && deadline - now == timeout
      invariant 0.0 < timeout && 0 < n ==> Ahead(timeout, n, index, deadline - now, tries)
    {
      var remaining := deadline - now;
      if 0.0 < timeout {
        WindowPositive(timeout, n, index, remaining, tries);
      }
      if remaining <= 0.0 {
        return Expired(lastError), tries, now;
      }
      var window := Window(timeout, n, index, remaining);
      var attempt := network(index, window);
      Ends(network, index, window);
      var next := Try(addresses[index], window, attempt);
      TriedNext(network, addresses, tries, next);
      SpentNext(tries, next);
      AheadNext(timeout, n, index, remaining, tries, next);
      tries := tries + [next];
      now := now + attempt.elapsed;
      assert deadline - now == remaining - attempt.elapsed;
      match attempt.result {
        case Ok(connection) =>
          InTime(timeout, n, index + 1, deadline - now, tries);
          return Connected(connection), tries, now;
        case Err(error) => lastError := Some(error);
      }
    }
    if lastError.None? {
      return NothingTried, tries, now;
    }
    InTime(timeout, n, n, deadline - now, tries);
    return Failed(lastError.value), tries, now;
  }

  lemma Ends(network: Network, i: nat, window: real)
    requires Punctual(network) && 0.0 < window
    ensures 0.0 <= network(i, window).elapsed <= window
  {
  }

  lemma InTime(timeout: real, n: nat, i: nat, remaining: real, tries: seq<Try>)
    requires 0 < n && Ahead(timeout, n, i, remaining, tries)
    ensures 0.0 <= remaining && FairlyGranted(timeout, n, tries)
    ensures EvenlyGranted(timeout, n, tries)
    ensures n == 1 ==> forall k :: 0 <= k < |tries| ==> tries[k].window == timeout
  {
  }
}
