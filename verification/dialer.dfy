/** `commonDialer`, the bounded retry-until-deadline race, as a sequential
    function over a trace. The trace lists, in order, what each call of the
    dial function would return and the time at which it returns; the timer is
    started at time 0 and fires at `timeout`. The background loop retries every
    failure; a success delivered while the timer has not fired is handed to the
    caller, a success after it has fired is closed; once the timer has fired the
    loop sees the cancellation before its next attempt.

    Two versions are given. `CommonDialerAsWritten` follows the code: when the
    timer fires, the caller blocks handing the cancellation to the loop, so it
    never returns if the loop is gone (it closed a late success and returned)
    or never comes back (an attempt that does not return, which is what the end
    of a trace stands for). `CommonDialer` is the evidently intended behaviour,
    the caller's timeout error whenever the timer wins; the rest of the model
    uses it. */
module Dialer {
  import opened Results
  import opened Net

  /** One call of the dial function: its result and the time it returned. */
  datatype Attempt = Attempt(result: Result<Conn, Error>, finish: nat)

  /** The caller's view of one `commonDialer` call: the connection or error it
      returns, the connections the dialer closed itself, and how many attempts
      of the trace it used. */
  datatype DialResult = DialResult(result: Result<Conn, Error>, closed: seq<Conn>, attempts: nat)

  /** The same view for the code as written, where the call may never return:
      `returned` is `None` when the caller blocks forever. */
  datatype BlockingDialResult = BlockingDialResult(returned: Option<Result<Conn, Error>>, closed: seq<Conn>, attempts: nat)

  /** Attempt `i` is the one that ends the race: every earlier attempt failed
      before the timer fired, and attempt `i` either succeeded or finished
      after the timer fired. */
  ghost predicate Decisive(trace: seq<Attempt>, timeout: nat, i: int) {
    && 0 <= i < |trace|
    && (forall j :: 0 <= j < i ==> trace[j].result.Failure? && trace[j].finish < timeout)
    && (trace[i].result.Success? || trace[i].finish >= timeout)
  }

  /** Every attempt of the trace failed before the timer fired: the trace ran
      out while the loop was still retrying. */
  ghost predicate AllFailEarly(trace: seq<Attempt>, timeout: nat) {
    forall j :: 0 <= j < |trace| ==> trace[j].result.Failure? && trace[j].finish < timeout
  }

  /** Attempt `i` wins: it is decisive, succeeded, and finished before the timer fired. */
  ghost predicate Wins(trace: seq<Attempt>, timeout: nat, i: int) {
    Decisive(trace, timeout, i) && trace[i].result.Success? && trace[i].finish < timeout
  }

  /** `commonDialer(timeout, dialFunc, timeoutErr)` as written. A decisive
      failure after the timer fired meets the caller's cancellation at the top
      of the loop, so the caller returns the timeout error; a decisive success
      after it fired is closed and the loop returns without taking the
      cancellation, and the caller blocks; so it does when the trace ends
      before the race is decided, the loop being stuck in an attempt. */
  function CommonDialerAsWritten(timeout: nat, trace: seq<Attempt>, timeoutErr: Error): (r: BlockingDialResult)
    ensures r.attempts <= |trace|
    ensures r.returned.Some? && r.returned.value.Failure? ==>
              && r.returned.value.error == timeoutErr
              && r.closed == []
              && Decisive(trace, timeout, r.attempts - 1)
              && trace[r.attempts - 1].result.Failure?
    ensures r.returned.Some? && r.returned.value.Success? ==>
              r.closed == [] && Wins(trace, timeout, r.attempts - 1) && r.returned.value == trace[r.attempts - 1].result
    ensures r.returned.None? ==>
              || (&& Decisive(trace, timeout, r.attempts - 1)
                  && |r.closed| == 1
                  && trace[r.attempts - 1].result == Success(r.closed[0])
                  && trace[r.attempts - 1].finish >= timeout)
              || (r.attempts == |trace| && AllFailEarly(trace, timeout) && r.closed == [])
    decreases |trace|
  {
    if trace == [] then
      BlockingDialResult(None, [], 0)
    else if trace[0].finish >= timeout then
      match trace[0].result
      case Success(conn) => BlockingDialResult(None, [conn], 1)
      case Failure(_) => BlockingDialResult(Some(Failure(timeoutErr)), [], 1)
    else if trace[0].result.Success? then
      BlockingDialResult(Some(trace[0].result), [], 1)
    else
      var rest := CommonDialerAsWritten(timeout, trace[1..], timeoutErr);
      assert forall j :: 1 <= j < rest.attempts + 1 ==> trace[j] == trace[1..][j - 1];
      rest.(attempts := rest.attempts + 1)
  }

  /** `commonDialer(timeout, dialFunc, timeoutErr)` as evidently intended:
      whenever the timer wins, the caller gets the timeout error. */
  function CommonDialer(timeout: nat, trace: seq<Attempt>, timeoutErr: Error): (r: DialResult)
    ensures r.attempts <= |trace|
    ensures r.result.Failure? ==> r.result.error == timeoutErr
    ensures r.result.Success? ==> r.closed == [] && Wins(trace, timeout, r.attempts - 1)
    ensures r.result.Success? ==> r.result == trace[r.attempts - 1].result
    ensures |r.closed| <= 1
    ensures r.closed != [] ==>
              && Decisive(trace, timeout, r.attempts - 1)
              && trace[r.attempts - 1].result == Success(r.closed[0])
              && trace[r.attempts - 1].finish >= timeout
    ensures r.result.Failure? ==>
              || (r.attempts > 0 && Decisive(trace, timeout, r.attempts - 1))
              || (r.attempts == |trace| && AllFailEarly(trace, timeout))
    decreases |trace|
  {
    if trace == [] then
      DialResult(Failure(timeoutErr), [], 0)
    else if trace[0].finish >= timeout then
      match trace[0].result
      case Success(conn) => DialResult(Failure(timeoutErr), [conn], 1)
      case Failure(_) => DialResult(Failure(timeoutErr), [], 1)
    else if trace[0].result.Success? then
      DialResult(trace[0].result, [], 1)
    else
      var rest := CommonDialer(timeout, trace[1..], timeoutErr);
      assert forall j :: 1 <= j < rest.attempts + 1 ==> trace[j] == trace[1..][j - 1];
      rest.(attempts := rest.attempts + 1)
  }

  /** Once attempt `i` decides the race, the dialer's result is fixed by that
      attempt alone: its connection if it succeeded in time, otherwise the
      timeout error, with a late connection closed. */
  lemma {:induction false} DecidedBy(timeout: nat, trace: seq<Attempt>, timeoutErr: Error, i: nat)
    requires Decisive(trace, timeout, i)
    ensures var r := CommonDialer(timeout, trace, timeoutErr);
            && r.attempts == i + 1
            && (trace[i].finish < timeout ==> r == DialResult(trace[i].result, [], i + 1))
            && (trace[i].finish >= timeout && trace[i].result.Success? ==>
                  r == DialResult(Failure(timeoutErr), [trace[i].result.value], i + 1))
            && (trace[i].result.Failure? ==> r == DialResult(Failure(timeoutErr), [], i + 1))
  {
    if i > 0 {
      assert trace[0].result.Failure? && trace[0].finish < timeout;
      assert Decisive(trace[1..], timeout, i - 1) by {
        assert forall j :: 0 <= j < i - 1 ==> trace[1..][j] == trace[j + 1];
      }
      DecidedBy(timeout, trace[1..], timeoutErr, i - 1);
    }
  }

  /** A first attempt failing and a second succeeding, both before the
      deadline: the second attempt's connection is delivered. */
  lemma SecondAttemptWins(trace: seq<Attempt>, timeout: nat, timeoutErr: Error)
    requires |trace| >= 2
    requires trace[0].result.Failure? && trace[0].finish < timeout
    requires trace[1].result.Success? && trace[1].finish < timeout
    ensures CommonDialer(timeout, trace, timeoutErr) == DialResult(trace[1].result, [], 2)
  {
    assert Decisive(trace, timeout, 1);
    DecidedBy(timeout, trace, timeoutErr, 1);
  }

  /** When some attempt wins the race, the dialer delivers a connection. */
  lemma AWinnerIsDelivered(timeout: nat, trace: seq<Attempt>, timeoutErr: Error)
    ensures (exists i :: Wins(trace, timeout, i)) ==> CommonDialer(timeout, trace, timeoutErr).result.Success?
  {
    if i :| Wins(trace, timeout, i) {
      DecidedBy(timeout, trace, timeoutErr, i);
    }
  }

  /** An attempt function that keeps failing before the deadline yields exactly
      the caller's timeout error, having closed nothing. */
  lemma AlwaysFailingTimesOut(timeout: nat, trace: seq<Attempt>, timeoutErr: Error)
    requires AllFailEarly(trace, timeout)
    ensures CommonDialer(timeout, trace, timeoutErr) == DialResult(Failure(timeoutErr), [], |trace|)
  {
  }

  /** The dialer delivers connection `c` exactly when some attempt wins the race
      with `c`; every other outcome is the caller's timeout error. */
  lemma DeliversExactlyTheWinner(timeout: nat, trace: seq<Attempt>, timeoutErr: Error, c: Conn)
    ensures CommonDialer(timeout, trace, timeoutErr).result == Success(c) <==>
            exists i :: Wins(trace, timeout, i) && trace[i].result == Success(c)
  {
  }

  /** A success that completes only after the timer fired is closed by the
      dialer and never delivered. As written the call then never returns; as
      intended the caller sees the timeout error. */
  lemma LateSuccessIsClosed(timeout: nat, trace: seq<Attempt>, timeoutErr: Error, i: nat)
    requires Decisive(trace, timeout, i)
    requires trace[i].result.Success? && trace[i].finish >= timeout
    ensures var w := CommonDialerAsWritten(timeout, trace, timeoutErr);
            w.returned == None && w.closed == [trace[i].result.value]
    ensures var r := CommonDialer(timeout, trace, timeoutErr);
            r.result == Failure(timeoutErr) && r.closed == [trace[i].result.value]
  {
    DecidedBy(timeout, trace, timeoutErr, i);
    AsWrittenAgreesWhenItReturns(timeout, trace, timeoutErr);
  }

  /** The code as written and the intended dialer close the same connections
      and use the same attempts; whenever the code returns it returns what the
      intended dialer returns, and it fails to return exactly when a success
      arrives after the timer fired or the trace ends undecided. */
  lemma {:induction false} AsWrittenAgreesWhenItReturns(timeout: nat, trace: seq<Attempt>, timeoutErr: Error)
    ensures var w := CommonDialerAsWritten(timeout, trace, timeoutErr);
            var r := CommonDialer(timeout, trace, timeoutErr);
            && w.closed == r.closed
            && w.attempts == r.attempts
            && (w.returned.Some? ==> w.returned.value == r.result)
            && (w.returned.None? <==> r.closed != [] || AllFailEarly(trace, timeout))
    decreases |trace|
  {
    if trace == [] {
    } else if trace[0].finish >= timeout || trace[0].result.Success? {
      assert !AllFailEarly(trace, timeout);
    } else {
      AsWrittenAgreesWhenItReturns(timeout, trace[1..], timeoutErr);
      AllFailEarlyTail(trace, timeout);
    }
  }

  /** A trace whose first attempt failed early fails early throughout exactly
      when its tail does. */
  lemma AllFailEarlyTail(trace: seq<Attempt>, timeout: nat)
    requires trace != [] && trace[0].result.Failure? && trace[0].finish < timeout
    ensures AllFailEarly(trace, timeout) <==> AllFailEarly(trace[1..], timeout)
  {
    assert forall j :: 1 <= j < |trace| ==> trace[j] == trace[1..][j - 1];
  }

  /** As written, one connection arriving late is enough for the caller to
      block forever, where the intended dialer reports the timeout. */
  lemma LateConnectionBlocksCaller(c: Conn, timeoutErr: Error)
    ensures CommonDialerAsWritten(1, [Attempt(Success(c), 1)], timeoutErr).returned == None
    ensures CommonDialer(1, [Attempt(Success(c), 1)], timeoutErr).result == Failure(timeoutErr)
  {
  }

  /** As written, an attempt function whose failures run past the deadline
      makes the caller return exactly its timeout error. */
  lemma FailurePastDeadlineReturns(timeout: nat, trace: seq<Attempt>, timeoutErr: Error, i: nat)
    requires Decisive(trace, timeout, i) && trace[i].result.Failure?
    ensures CommonDialerAsWritten(timeout, trace, timeoutErr) == BlockingDialResult(Some(Failure(timeoutErr)), [], i + 1)
  {
    DecidedBy(timeout, trace, timeoutErr, i);
    AsWrittenAgreesWhenItReturns(timeout, trace, timeoutErr);
  }

  /** A connection delivered under one deadline is delivered unchanged under
      any later deadline. */
  lemma LaterDeadlineKeepsConnection(timeout: nat, later: nat, trace: seq<Attempt>, timeoutErr: Error)
    requires timeout <= later
    requires CommonDialer(timeout, trace, timeoutErr).result.Success?
    ensures CommonDialer(later, trace, timeoutErr) == CommonDialer(timeout, trace, timeoutErr)
  {
  }
}
