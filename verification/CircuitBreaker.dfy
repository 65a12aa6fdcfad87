/**
 The circuit breaker (`transport/circuit_breaker.rs`) and the retry loop it guards
 (`send_with_retry` in `transport/kdrive_bridge.rs`).

 Clock readings are milliseconds, the recovery timeout and the delays nanoseconds.  Every
 reading of the clock is an input, and unless a lemma says so nothing is assumed of it.
 */
module CircuitBreaker {
  import opened Common

  datatype BreakerState = Closed | Open | HalfOpen

  datatype Breaker = Breaker(threshold: nat, recovery: nat, failures: nat, openedAt: nat)

  const NANOS_PER_MILLI: nat := 1_000_000

  /** The time since `from`, in nanoseconds; none if the clock has gone back. */
  function Elapsed(from: nat, now: nat): nat {
    if now >= from then (now - from) * NANOS_PER_MILLI else 0
  }

  function IsOpen(b: Breaker, now: nat): bool {
    if b.failures < b.threshold then false
    else if b.openedAt == 0 then true
    else Elapsed(b.openedAt, now) < b.recovery
  }

  function StateOf(b: Breaker, now: nat): BreakerState {
    if b.failures < b.threshold then Closed
    else if b.openedAt == 0 then Open
    else if Elapsed(b.openedAt, now) >= b.recovery then HalfOpen
    else Open
  }

  /** A request is refused exactly in the state `Open`. */
  lemma IsOpenAgreesWithState(b: Breaker, now: nat)
    ensures IsOpen(b, now) <==> StateOf(b, now) == Open
  {
  }

  /** The counter is a `u32` and wraps around. */
  function Failed(b: Breaker, now: nat): Breaker {
    var failures := (b.failures + 1) % (U32_MAX + 1);
    b.(failures := failures, openedAt := if failures >= b.threshold then now else b.openedAt)
  }

  function Succeeded(b: Breaker): Breaker {
    b.(failures := 0, openedAt := 0)
  }

  class CircuitBreaker {
    const threshold: nat
    const recovery: nat
    var failureCount: nat
    var openedAt: nat

    function Value(): Breaker
      reads this
    {
      Breaker(threshold, recovery, failureCount, openedAt)
    }

    constructor (threshold: nat, recovery: nat)
      ensures Value() == Breaker(threshold, recovery, 0, 0)
    {
      this.threshold, this.recovery := threshold, recovery;
      failureCount, openedAt := 0, 0;
    }

    method RecordFailure(now: nat)
      modifies this
      ensures Value() == Failed(old(Value()), now)
    {
      failureCount := (failureCount + 1) % (U32_MAX + 1);
      if failureCount >= threshold {
        openedAt := now;
      }
    }

    method RecordSuccess()
      modifies this
      ensures Value() == Succeeded(old(Value()))
    {
      failureCount := 0;
      openedAt := 0;
    }

    method AllowRequest(now: nat) returns (allowed: bool)
      ensures allowed <==> !IsOpen(Value(), now)
    {
      if failureCount < threshold {
        return true;
      }
      if openedAt == 0 {
        return false;
      }
      var elapsed := Elapsed(openedAt, now);
      return elapsed >= recovery;
    }

    method State(now: nat) returns (state: BreakerState)
      ensures state == StateOf(Value(), now)
    {
      if failureCount < threshold {
        return Closed;
      }
      if openedAt == 0 {
        return Open;
      }
      return if Elapsed(openedAt, now) >= recovery then HalfOpen else Open;
    }
  }

  // ---------------------------------------------------------------------------
  // Attempts
  // ---------------------------------------------------------------------------

  datatype Outcome = Status(code: nat) | NetworkError

  /**
   One turn of the retry loop: when the breaker is asked, and, if it allows the request, what
   comes of it and when.
   */
  datatype Attempt = Attempt(start: nat, end: nat, outcome: Outcome)

  predicate IsSuccess(o: Outcome) {
    o.Status? && 200 <= o.code < 300
  }

  /** The breaker and every request sent so far. */
  datatype Log = Log(breaker: Breaker, sent: seq<Attempt>)

  function AfterSend(w: Log, a: Attempt): Log {
    Log(if IsSuccess(a.outcome) then Succeeded(w.breaker) else Failed(w.breaker, a.end), w.sent + [a])
  }

  function Try(w: Log, a: Attempt): Log {
    if IsOpen(w.breaker, a.start) then w else AfterSend(w, a)
  }

  function Run(w: Log, attempts: seq<Attempt>): Log {
    if attempts == [] then w else Try(Run(w, attempts[..|attempts| - 1]), attempts[|attempts| - 1])
  }

  function Start(threshold: nat, recovery: nat): Log {
    Log(Breaker(threshold, recovery, 0, 0), [])
  }

  // ---------------------------------------------------------------------------
  // What the breaker guarantees over a run
  // ---------------------------------------------------------------------------

  /** The failures since the last success. */
  function Streak(sent: seq<Attempt>): nat {
    if sent == [] || IsSuccess(sent[|sent| - 1].outcome) then 0 else 1 + Streak(sent[..|sent| - 1])
  }

  /** The streak as the counter holds it. */
  function Counted(sent: seq<Attempt>): nat {
    Streak(sent) % (U32_MAX + 1)
  }

  /** A request that follows a full streak starts at least the recovery timeout after the failure before it. */
  ghost predicate SpacedAt(threshold: nat, recovery: nat, sent: seq<Attempt>, k: nat)
    requires k < |sent|
  {
    k > 0 && Counted(sent[..k]) >= threshold ==> Elapsed(sent[k - 1].end, sent[k].start) >= recovery
  }

  ghost predicate Tracks(threshold: nat, recovery: nat, w: Log) {
    && w.breaker.threshold == threshold && w.breaker.recovery == recovery
    && w.breaker.failures == Counted(w.sent)
    && (threshold > 0 && Counted(w.sent) >= threshold ==>
          w.sent != [] && w.breaker.openedAt == w.sent[|w.sent| - 1].end)
    && (threshold == 0 ==> w.sent == [] && w.breaker.openedAt == 0)
    && (forall k :: 0 <= k < |w.sent| ==> SpacedAt(threshold, recovery, w.sent, k))
  }

  lemma CountedSnoc(sent: seq<Attempt>, a: Attempt)
    ensures Counted(sent + [a]) == if IsSuccess(a.outcome) then 0 else (Counted(sent) + 1) % (U32_MAX + 1)
  {
    assert (sent + [a])[..|sent|] == sent;
  }

  lemma TryKeepsTracks(threshold: nat, recovery: nat, w: Log, a: Attempt)
    requires Tracks(threshold, recovery, w)
    ensures Tracks(threshold, recovery, Try(w, a))
  {
    if !IsOpen(w.breaker, a.start) {
      CountedSnoc(w.sent, a);
      var sent := w.sent + [a];
      forall k | 0 <= k < |sent|
        ensures SpacedAt(threshold, recovery, sent, k)
      {
        if k < |w.sent| {
          assert SpacedAt(threshold, recovery, w.sent, k) && sent[..k] == w.sent[..k];
        } else {
          assert sent[..k] == w.sent;
        }
      }
    }
  }

  lemma {:induction false} RunTracks(threshold: nat, recovery: nat, attempts: seq<Attempt>)
    ensures Tracks(threshold, recovery, Run(Start(threshold, recovery), attempts))
    decreases |attempts|
  {
    if attempts != [] {
      RunTracks(threshold, recovery, attempts[..|attempts| - 1]);
      var front, last := attempts[..|attempts| - 1], attempts[|attempts| - 1];
      TryKeepsTracks(threshold, recovery, Run(Start(threshold, recovery), front), last);
    }
  }

  /**
   Over every run, on any clock: the counter is the number of failures since the last success,
   and once that is at the threshold, every further request starts at least the recovery
   timeout after the failure before it.
   */
  lemma SendsAreSpaced(threshold: nat, recovery: nat, attempts: seq<Attempt>, k: nat)
    requires 0 < k < |Run(Start(threshold, recovery), attempts).sent|
    ensures var w := Run(Start(threshold, recovery), attempts);
            && w.breaker.failures == Counted(w.sent)
            && (Counted(w.sent[..k]) >= threshold ==> Elapsed(w.sent[k - 1].end, w.sent[k].start) >= recovery)
            && (Counted(w.sent[..k]) >= threshold && recovery > 0 ==>
                  w.sent[k].start * 1_000_000 >= w.sent[k - 1].end * 1_000_000 + recovery)
  {
    RunTracks(threshold, recovery, attempts);
    var w := Run(Start(threshold, recovery), attempts);
    assert SpacedAt(threshold, recovery, w.sent, k);
  }

  /** When the breaker refuses a request, on a clock that reads more than zero. */
  lemma OpenAfterRunIff(threshold: nat, recovery: nat, attempts: seq<Attempt>, now: nat)
    requires threshold > 0 && forall a :: a in attempts ==> a.end > 0
    ensures var w := Run(Start(threshold, recovery), attempts);
            IsOpen(w.breaker, now) <==>
              && Counted(w.sent) >= threshold && w.sent != [] && recovery > 0
              && now * 1_000_000 < w.sent[|w.sent| - 1].end * 1_000_000 + recovery
  {
    RunTracks(threshold, recovery, attempts);
    SentWereAttempts(Start(threshold, recovery), attempts);
  }

  lemma {:induction false} SentWereAttempts(w: Log, attempts: seq<Attempt>)
    ensures forall a :: a in Run(w, attempts).sent ==> a in w.sent || a in attempts
    decreases |attempts|
  {
    if attempts != [] {
      SentWereAttempts(w, attempts[..|attempts| - 1]);
    }
  }

  /** The breaker never sticks open, unless its threshold is zero, and then it never lets a request through. */
  lemma NeverSticksIff(threshold: nat, recovery: nat, attempts: seq<Attempt>)
    requires forall a :: a in attempts ==> a.end > 0
    ensures (exists now :: !IsOpen(Run(Start(threshold, recovery), attempts).breaker, now)) <==> threshold > 0
    ensures threshold == 0 ==> Run(Start(threshold, recovery), attempts).sent == []
  {
    var w := Run(Start(threshold, recovery), attempts);
    RunTracks(threshold, recovery, attempts);
    if threshold > 0 {
      var now := if w.sent == [] then 0 else w.sent[|w.sent| - 1].end + recovery;
      OpenAfterRunIff(threshold, recovery, attempts, now);
      assert !IsOpen(w.breaker, now);
    }
  }

  /** The clock does not go back between the sends. */
  ghost predicate Ordered(sent: seq<Attempt>) {
    forall i {:trigger sent[i]} :: 0 <= i < |sent| ==> sent[i].start <= sent[i].end
  }

  ghost predicate AllFail(sent: seq<Attempt>, lo: nat, hi: nat) {
    forall i {:trigger sent[i]} :: lo <= i < hi < |sent| + 1 ==> !IsSuccess(sent[i].outcome)
  }

  lemma {:induction false} StreakOfFailures(sent: seq<Attempt>, lo: nat, hi: nat)
    requires lo <= hi <= |sent| && AllFail(sent, lo, hi)
    ensures Streak(sent[..hi]) >= hi - lo
    decreases hi
  {
    if lo < hi {
      assert sent[..hi][..hi - 1] == sent[..hi - 1];
      StreakOfFailures(sent, lo, hi - 1);
    }
  }

  /**
   How fast an outage is probed: of the requests from number `lo` on, all of which fail, the
   first `threshold` may follow each other at will, and each one after that costs a recovery
   timeout.
   */
  lemma {:induction false} OutageIsProbedSlowly(
    threshold: nat, recovery: nat, attempts: seq<Attempt>, lo: nat, hi: nat)
    requires threshold > 0
    requires var sent := Run(Start(threshold, recovery), attempts).sent;
             && lo + threshold <= hi < |sent| <= U32_MAX
             && AllFail(sent, lo, hi) && Ordered(sent)
    ensures var sent := Run(Start(threshold, recovery), attempts).sent;
            Elapsed(sent[lo + threshold - 1].end, sent[hi].start) >= (hi - lo - threshold + 1) * recovery
    decreases hi
  {
    var sent := Run(Start(threshold, recovery), attempts).sent;
    StreakOfFailures(sent, lo, hi);
    StreakBound(sent[..hi]);
    SendsAreSpaced(threshold, recovery, attempts, hi);
    var n := hi - lo - threshold;
    assert (n + 1) * recovery == n * recovery + recovery;
    if n > 0 {
      assert n * recovery > 0 <==> recovery > 0;
      OutageIsProbedSlowly(threshold, recovery, attempts, lo, hi - 1);
      ElapsedAdds(sent[lo + threshold - 1].end, sent[hi - 1].start, sent[hi - 1].end, sent[hi].start,
                  n * recovery, recovery);
    }
  }

  lemma ElapsedAdds(a: nat, b: nat, c: nat, d: nat, x: nat, y: nat)
    requires b <= c && Elapsed(a, b) >= x && Elapsed(c, d) >= y && (x > 0 <==> y > 0)
    ensures Elapsed(a, d) >= x + y
  {
  }

  lemma {:induction false} StreakBound(sent: seq<Attempt>)
    ensures Streak(sent) <= |sent|
    decreases |sent|
  {
    if sent != [] {
      StreakBound(sent[..|sent| - 1]);
    }
  }

  // ---------------------------------------------------------------------------
  // The retry loop
  // ---------------------------------------------------------------------------

  datatype TransportError = NoAttemptsMade | BreakerOpen | Network | Auth(code: nat) | Server(code: nat)

  type Response = Result<nat, TransportError>

  function MapHttpError(code: nat): TransportError {
    if code == 401 || code == 403 then Auth(code) else Server(code)
  }

  predicate IsRetryableStatus(code: nat) {
    code == 429 || code >= 500
  }

  function ErrorOf(o: Outcome): TransportError {
    match o
    case NetworkError => Network
    case Status(code) => MapHttpError(code)
  }

  predicate IsRetryable(o: Outcome) {
    o.NetworkError? || IsRetryableStatus(o.code)
  }

  /** Thirty seconds. */
  const MAX_RETRY_DELAY: nat := 30_000 * NANOS_PER_MILLI

  function Pow2(n: nat): nat {
    if n == 0 then 1 else 2 * Pow2(n - 1)
  }

  /** `2u32.saturating_pow(attempt)`. */
  function SaturatingPow2(n: nat): nat {
    if Pow2(n) > U32_MAX then U32_MAX else Pow2(n)
  }

  function Delay(base: nat, attempt: nat): nat {
    if base * SaturatingPow2(attempt) > MAX_RETRY_DELAY then MAX_RETRY_DELAY else base * SaturatingPow2(attempt)
  }

  /** What a turn of the loop decides: to sleep and go on, or to return. */
  datatype Turn = Again | Done(response: Response)

  function TurnOf(b: Breaker, a: Attempt, last: bool): Turn {
    if IsOpen(b, a.start) then Done(Failure(BreakerOpen))
    else if IsSuccess(a.outcome) then Done(Success(a.outcome.code))
    else if IsRetryable(a.outcome) && !last then Again
    else Done(Failure(ErrorOf(a.outcome)))
  }

  datatype Call = Call(log: Log, response: Response, sleeps: seq<nat>)

  /** The turns of the loop from number `i` on, after the given sleeps. */
  function Retry(w: Log, maxRetries: nat, base: nat, net: nat -> Attempt, i: nat, sleeps: seq<nat>): Call
    requires i <= maxRetries
    decreases maxRetries - i
  {
    match TurnOf(w.breaker, net(i), i == maxRetries)
    case Done(response) => Call(Try(w, net(i)), response, sleeps)
    case Again => Retry(Try(w, net(i)), maxRetries, base, net, i + 1, sleeps + [Delay(base, i)])
  }

  class KdriveTransport {
    const breaker: CircuitBreaker
    const maxRetries: nat
    const baseRetryDelay: nat

    constructor (breaker: CircuitBreaker, maxRetries: nat, baseRetryDelay: nat)
      ensures this.breaker == breaker && this.maxRetries == maxRetries && this.baseRetryDelay == baseRetryDelay
    {
      this.breaker, this.maxRetries, this.baseRetryDelay := breaker, maxRetries, baseRetryDelay;
    }

    /** `net` is what the network and the clock will do in each turn; `sent` and `sleeps` are what the call has done. */
    method SendWithRetry(net: nat -> Attempt) returns (response: Response, sent: seq<Attempt>, sleeps: seq<nat>)
      modifies breaker
      ensures Call(Log(breaker.Value(), sent), response, sleeps) ==
              Retry(Log(old(breaker.Value()), []), maxRetries, baseRetryDelay, net, 0, [])
    {
      var lastError := NoAttemptsMade;
      sent, sleeps := [], [];
      ghost var call := Retry(Log(breaker.Value(), []), maxRetries, baseRetryDelay, net, 0, []);
      for i := 0 to maxRetries + 1
        invariant i <= maxRetries
        invariant call == Retry(Log(breaker.Value(), sent), maxRetries, baseRetryDelay, net, i, sleeps)
      {
        var a := net(i);
        var allowed := breaker.AllowRequest(a.start);
        if !allowed {
          return Failure(BreakerOpen), sent, sleeps;
        }
        sent := sent + [a];
        var turn := Settle(a, i);
        if turn.Done? {
          return turn.response, sent, sleeps;
        }
        lastError := ErrorOf(a.outcome);
        sleeps := sleeps + [Delay(baseRetryDelay, i)];
      }
      assert false;
    }

    /** What the reply to a request means for the breaker and for the loop. */
    method Settle(a: Attempt, attempt: nat) returns (turn: Turn)
      requires attempt <= maxRetries && !IsOpen(breaker.Value(), a.start)
      modifies breaker
      ensures breaker.Value() == AfterSend(Log(old(breaker.Value()), []), a).breaker
      ensures turn == TurnOf(old(breaker.Value()), a, attempt == maxRetries)
    {
      match a.outcome
      case Status(code) =>
        if 200 <= code < 300 {
          breaker.RecordSuccess();
          return Done(Success(code));
        }
        var error := MapHttpError(code);
        if IsRetryableStatus(code) && attempt < maxRetries {
          breaker.RecordFailure(a.end);
          return Again;
        }
        breaker.RecordFailure(a.end);
        return Done(Failure(error));
      case NetworkError =>
        breaker.RecordFailure(a.end);
        if attempt < maxRetries {
          return Again;
        }
        return Done(Failure(Network));
    }
  }

  /** The turns of a call as attempts of a run. */
  function Turns(net: nat -> Attempt, from: nat, n: nat): seq<Attempt> {
    seq(n, j requires 0 <= j < n => net(from + j))
  }

  lemma {:induction false} RunConcat(w: Log, x: seq<Attempt>, y: seq<Attempt>)
    ensures Run(w, x + y) == Run(Run(w, x), y)
    decreases |y|
  {
    if y == [] {
      assert x + y == x;
    } else {
      assert (x + y)[..|x + y| - 1] == x + y[..|y| - 1];
      RunConcat(w, x, y[..|y| - 1]);
    }
  }

  function Delays(base: nat, from: nat, n: nat): seq<nat> {
    seq<nat>(n, j requires 0 <= j < n => Delay(base, from + j))
  }

  /** Every one of these turns sends a request and goes on. */
  ghost predicate GoesOn(w: Log, maxRetries: nat, net: nat -> Attempt, from: nat, n: nat) {
    forall j :: 0 <= j < n ==>
      TurnOf(Run(w, Turns(net, from, j)).breaker, net(from + j), from + j == maxRetries) == Again
  }

  lemma FirstTurn(w: Log, net: nat -> Attempt, i: nat, n: nat)
    ensures Turns(net, i, n + 1) == [net(i)] + Turns(net, i + 1, n)
    ensures Run(w, Turns(net, i, n + 1)) == Run(Try(w, net(i)), Turns(net, i + 1, n))
  {
    assert Turns(net, i, n + 1) == [net(i)] + Turns(net, i + 1, n);
    RunConcat(w, [net(i)], Turns(net, i + 1, n));
    assert [net(i)][..0] == [];
  }

  /** The call is the run of its first `n + 1` turns, and the last of them decides the response. */
  ghost predicate Ends(
    w: Log, maxRetries: nat, base: nat, net: nat -> Attempt, i: nat, sleeps: seq<nat>, call: Call, n: nat)
  {
    && call.log == Run(w, Turns(net, i, n + 1))
    && call.sleeps == sleeps + Delays(base, i, n)
    && TurnOf(Run(w, Turns(net, i, n)).breaker, net(i + n), i + n == maxRetries) == Done(call.response)
  }

  lemma EndsFromFirst(
    w: Log, maxRetries: nat, base: nat, net: nat -> Attempt, i: nat, sleeps: seq<nat>, call: Call, m: nat)
    requires Ends(Try(w, net(i)), maxRetries, base, net, i + 1, sleeps + [Delay(base, i)], call, m)
    ensures Ends(w, maxRetries, base, net, i, sleeps, call, m + 1)
  {
    FirstTurn(w, net, i, m);
    FirstTurn(w, net, i, m + 1);
    DelaysStep(base, i, m, sleeps);
  }

  lemma DelaysStep(base: nat, i: nat, m: nat, sleeps: seq<nat>)
    ensures sleeps + [Delay(base, i)] + Delays(base, i + 1, m) == sleeps + Delays(base, i, m + 1)
  {
    assert [Delay(base, i)] + Delays(base, i + 1, m) == Delays(base, i, m + 1);
  }

  lemma EndsAtOnce(w: Log, maxRetries: nat, base: nat, net: nat -> Attempt, i: nat, sleeps: seq<nat>, call: Call)
    requires call.log == Try(w, net(i)) && call.sleeps == sleeps
    requires TurnOf(w.breaker, net(i), i == maxRetries) == Done(call.response)
    ensures Ends(w, maxRetries, base, net, i, sleeps, call, 0)
  {
    assert Turns(net, i, 0) == [];
    FirstTurn(w, net, i, 0);
    assert Turns(net, i + 1, 0) == [];
    assert sleeps + Delays(base, i, 0) == sleeps;
  }

  /**
   A call is a run of attempts, of which all but the last go on after their delay, and the
   last decides the response.
   */
  lemma {:induction false} CallIsRun(w: Log, maxRetries: nat, base: nat, net: nat -> Attempt, i: nat, sleeps: seq<nat>)
    returns (n: nat)
    requires i <= maxRetries
    ensures i + n <= maxRetries
    ensures Ends(w, maxRetries, base, net, i, sleeps, Retry(w, maxRetries, base, net, i, sleeps), n)
    ensures GoesOn(w, maxRetries, net, i, n)
    decreases maxRetries - i
  {
    var call := Retry(w, maxRetries, base, net, i, sleeps);
    if TurnOf(w.breaker, net(i), i == maxRetries) == Again {
      var m := CallIsRun(Try(w, net(i)), maxRetries, base, net, i + 1, sleeps + [Delay(base, i)]);
      n := m + 1;
      EndsFromFirst(w, maxRetries, base, net, i, sleeps, call, m);
      GoesOnFromFirst(w, maxRetries, net, i, m);
    } else {
      n := 0;
      EndsAtOnce(w, maxRetries, base, net, i, sleeps, call);
    }
  }

  lemma GoesOnFromFirst(w: Log, maxRetries: nat, net: nat -> Attempt, i: nat, m: nat)
    requires TurnOf(w.breaker, net(i), i == maxRetries) == Again && GoesOn(Try(w, net(i)), maxRetries, net, i + 1, m)
    ensures GoesOn(w, maxRetries, net, i, m + 1)
  {
    forall j | 0 <= j < m + 1
      ensures TurnOf(Run(w, Turns(net, i, j)).breaker, net(i + j), i + j == maxRetries) == Again
    {
      if j == 0 {
        assert Turns(net, i, 0) == [];
      } else {
        FirstTurn(w, net, i, j - 1);
        assert TurnOf(Run(Try(w, net(i)), Turns(net, i + 1, j - 1)).breaker, net(i + 1 + (j - 1)),
                      i + 1 + (j - 1) == maxRetries) == Again;
      }
    }
  }

  /** What a call has sent when it goes on. */
  lemma {:induction false} SentSoFar(w: Log, maxRetries: nat, net: nat -> Attempt, i: nat, n: nat)
    requires GoesOn(w, maxRetries, net, i, n)
    ensures Run(w, Turns(net, i, n)).sent == w.sent + Turns(net, i, n)
    decreases n
  {
    if n == 0 {
      assert Turns(net, i, 0) == [] && w.sent + [] == w.sent;
    } else {
      SentSoFar(w, maxRetries, net, i, n - 1);
      assert Turns(net, i, n)[..n - 1] == Turns(net, i, n - 1);
      assert TurnOf(Run(w, Turns(net, i, n - 1)).breaker, net(i + (n - 1)), i + (n - 1) == maxRetries) == Again;
      assert w.sent + Turns(net, i, n - 1) + [net(i + (n - 1))] == w.sent + Turns(net, i, n);
    }
  }

  /** The last turn of a call, and the breaker at its start. */
  lemma CallEnds(w: Log, maxRetries: nat, base: nat, net: nat -> Attempt) returns (m: nat, b: Breaker)
    ensures m <= maxRetries && GoesOn(w, maxRetries, net, 0, m)
    ensures var call := Retry(w, maxRetries, base, net, 0, []);
            && TurnOf(b, net(m), m == maxRetries) == Done(call.response)
            && call.sleeps == Delays(base, 0, m)
            && call.log.sent == w.sent + Turns(net, 0, if IsOpen(b, net(m).start) then m else m + 1)
  {
    m := CallIsRun(w, maxRetries, base, net, 0, []);
    b := Run(w, Turns(net, 0, m)).breaker;
    SentSoFar(w, maxRetries, net, 0, m);
    assert [] + Delays(base, 0, m) == Delays(base, 0, m);
    assert Turns(net, 0, m + 1)[..m] == Turns(net, 0, m);
    assert w.sent + Turns(net, 0, m) + [net(m)] == w.sent + Turns(net, 0, m + 1);
  }

  /**
   A call sends between none and `max_retries + 1` requests, one for every turn but for a last
   one that the breaker refuses, and sleeps once per retry.  It never returns the error it
   starts with.
   */
  lemma CallSends(w: Log, maxRetries: nat, base: nat, net: nat -> Attempt) returns (n: nat)
    ensures n <= maxRetries + 1
    ensures var call := Retry(w, maxRetries, base, net, 0, []);
            && call.log.sent == w.sent + Turns(net, 0, n)
            && call.response != Failure(NoAttemptsMade)
            && (call.response == Failure(BreakerOpen) ==> call.sleeps == Delays(base, 0, n))
            && (call.response != Failure(BreakerOpen) ==> n > 0 && call.sleeps == Delays(base, 0, n - 1))
    ensures var call := Retry(w, maxRetries, base, net, 0, []);
            call.response != Failure(BreakerOpen) ==>
              call.response == if IsSuccess(net(n - 1).outcome) then Success(net(n - 1).outcome.code)
                               else Failure(ErrorOf(net(n - 1).outcome))
  {
    var m, b := CallEnds(w, maxRetries, base, net);
    n := if IsOpen(b, net(m).start) then m else m + 1;
  }

  ghost function Sum(xs: seq<nat>): nat {
    if xs == [] then 0 else Sum(xs[..|xs| - 1]) + xs[|xs| - 1]
  }

  lemma {:induction false} DelaysBound(base: nat, n: nat)
    ensures Sum(Delays(base, 0, n)) <= n * MAX_RETRY_DELAY
    decreases n
  {
    if n > 0 {
      DelaysBound(base, n - 1);
      assert Delays(base, 0, n)[..n - 1] == Delays(base, 0, n - 1);
      assert n * MAX_RETRY_DELAY == (n - 1) * MAX_RETRY_DELAY + MAX_RETRY_DELAY;
    }
  }

  /** A call sleeps for at most thirty seconds per retry. */
  lemma SleepIsBounded(w: Log, maxRetries: nat, base: nat, net: nat -> Attempt)
    ensures Sum(Retry(w, maxRetries, base, net, 0, []).sleeps) <= maxRetries * MAX_RETRY_DELAY
  {
    var n := CallIsRun(w, maxRetries, base, net, 0, []);
    assert [] + Delays(base, 0, n) == Delays(base, 0, n);
    DelaysBound(base, n);
    assert n * MAX_RETRY_DELAY <= maxRetries * MAX_RETRY_DELAY;
  }

  lemma {:induction false} Pow2Order(i: nat, j: nat)
    requires i <= j
    ensures 1 <= Pow2(i) <= Pow2(j)
    decreases j
  {
    if i < j {
      Pow2Order(i, j - 1);
    } else if j > 0 {
      Pow2Order(i - 1, j - 1);
    }
  }

  lemma Pow2OfWord()
    ensures Pow2(31) <= U32_MAX < Pow2(32)
  {
    assert Pow2(8) == 0x100;
    assert Pow2(16) == 0x1_0000;
    assert Pow2(24) == 0x100_0000;
    assert Pow2(31) == 0x8000_0000;
  }

  lemma DelayIs(base: nat, i: nat)
    ensures Delay(base, i) == Min(base * SaturatingPow2(i), 30_000_000_000)
    ensures i <= 31 ==> SaturatingPow2(i) == Pow2(i)
    ensures i >= 32 ==> SaturatingPow2(i) == 0xFFFF_FFFF
  {
    Pow2OfWord();
    if i <= 31 {
      Pow2Order(i, 31);
    } else {
      Pow2Order(32, i);
    }
  }

  lemma TwiceCapped(x: nat, y: nat, cap: nat)
    requires y == 2 * x
    ensures Min(y, cap) == Min(2 * Min(x, cap), cap)
  {
  }

  /** The first delay is the base, each further one twice the one before it, and none is above thirty seconds. */
  lemma DelayDoubles(base: nat, i: nat)
    ensures Delay(base, 0) == Min(base, 30_000_000_000)
    ensures i < 31 ==> Delay(base, i + 1) == Min(2 * Delay(base, i), 30_000_000_000)
    ensures i >= 32 ==> Delay(base, i) == Min(base * 0xFFFF_FFFF, 30_000_000_000)
  {
    DelayIs(base, 0);
    DelayIs(base, i);
    if i < 31 {
      DelayIs(base, i + 1);
      ghost var p, x, y := Pow2(i), base * Pow2(i), base * Pow2(i + 1);
      assert y == base * (2 * p) == 2 * x;
      TwiceCapped(x, y, 30_000_000_000);
    }
  }

  /** The delays a call sleeps: they double up to the cap. */
  ghost predicate Doubling(base: nat, sleeps: seq<nat>) {
    && (sleeps != [] ==> sleeps[0] == Min(base, 30_000_000_000))
    && (forall j :: 1 <= j < |sleeps| && j < 32 ==> sleeps[j] == Min(2 * sleeps[j - 1], 30_000_000_000))
    && (forall j :: 32 <= j < |sleeps| ==> sleeps[j] == Min(base * 0xFFFF_FFFF, 30_000_000_000))
  }

  lemma DelaysDouble(base: nat, n: nat)
    ensures Doubling(base, Delays(base, 0, n))
  {
    var sleeps := Delays(base, 0, n);
    DelayDoubles(base, 0);
    forall j | 1 <= j < n
      ensures j < 32 ==> sleeps[j] == Min(2 * sleeps[j - 1], 30_000_000_000)
      ensures j >= 32 ==> sleeps[j] == Min(base * 0xFFFF_FFFF, 30_000_000_000)
    {
      DelayDoubles(base, j - 1);
      DelayDoubles(base, j);
    }
  }

  /** What is sent again while attempts remain: what got no reply, or was throttled, or failed on the server. */
  ghost predicate SentAgain(o: Outcome) {
    o == NetworkError || o == Status(429) || (o.Status? && 500 <= o.code)
  }

  /**
   How a call ends.  Every request but the last was one to send again.  If the breaker has
   not cut the call short, its response is that of the last request, and if that was one to send
   again, all attempts are used up.  Between two requests the call sleeps, twice as long each time.
   */
  lemma CallRetriesExactly(w: Log, maxRetries: nat, base: nat, net: nat -> Attempt) returns (n: nat)
    ensures n <= maxRetries + 1
    ensures var call := Retry(w, maxRetries, base, net, 0, []);
            && call.log.sent == w.sent + Turns(net, 0, n)
            && (forall j :: 0 <= j < n - 1 ==> SentAgain(net(j).outcome))
            && Doubling(base, call.sleeps)
    ensures var call := Retry(w, maxRetries, base, net, 0, []);
            if call.response == Failure(BreakerOpen) then
              n <= maxRetries && |call.sleeps| == n && (n > 0 ==> SentAgain(net(n - 1).outcome))
            else
              && n > 0 && |call.sleeps| == n - 1
              && (SentAgain(net(n - 1).outcome) ==> n == maxRetries + 1)
              && match net(n - 1).outcome
                 case NetworkError => call.response == Failure(Network)
                 case Status(code) =>
                   if 200 <= code <= 299 then call.response == Success(code)
                   else if code in {401, 403} then call.response == Failure(Auth(code))
                   else call.response == Failure(Server(code))
  {
    var m, b := CallEnds(w, maxRetries, base, net);
    DelaysDouble(base, m);
    AllSentAgain(w, maxRetries, net, m);
    n := if IsOpen(b, net(m).start) then m else m + 1;
  }

  lemma AllSentAgain(w: Log, maxRetries: nat, net: nat -> Attempt, n: nat)
    requires GoesOn(w, maxRetries, net, 0, n)
    ensures forall j :: 0 <= j < n ==> SentAgain(net(j).outcome)
  {
    forall j | 0 <= j < n
      ensures SentAgain(net(j).outcome)
    {
      assert TurnOf(Run(w, Turns(net, 0, j)).breaker, net(0 + j), 0 + j == maxRetries) == Again;
    }
  }

  // ---------------------------------------------------------------------------
  // Many calls
  // ---------------------------------------------------------------------------

  datatype Request = Request(maxRetries: nat, base: nat, net: nat -> Attempt)

  function Calls(w: Log, requests: seq<Request>): Log {
    if requests == [] then w
    else
      var last := requests[|requests| - 1];
      Retry(Calls(w, requests[..|requests| - 1]), last.maxRetries, last.base, last.net, 0, []).log
  }

  /** Any number of calls is one run of attempts, so what is true of every run is true of them. */
  lemma {:induction false} CallsAreRun(w: Log, requests: seq<Request>) returns (attempts: seq<Attempt>)
    ensures Calls(w, requests) == Run(w, attempts)
    decreases |requests|
  {
    if requests == [] {
      attempts := [];
    } else {
      var last := requests[|requests| - 1];
      var front := CallsAreRun(w, requests[..|requests| - 1]);
      var n := CallIsRun(Calls(w, requests[..|requests| - 1]), last.maxRetries, last.base, last.net, 0, []);
      attempts := front + Turns(last.net, 0, n + 1);
      RunConcat(w, front, Turns(last.net, 0, n + 1));
    }
  }

  /** Across all calls through one breaker, a request after a full streak of failures waits for the recovery timeout. */
  lemma CallsAreSpaced(threshold: nat, recovery: nat, requests: seq<Request>, k: nat)
    requires 0 < k < |Calls(Start(threshold, recovery), requests).sent|
    ensures var w := Calls(Start(threshold, recovery), requests);
            && w.breaker.failures == Counted(w.sent)
            && (Counted(w.sent[..k]) >= threshold ==> Elapsed(w.sent[k - 1].end, w.sent[k].start) >= recovery)
  {
    var attempts := CallsAreRun(Start(threshold, recovery), requests);
    SendsAreSpaced(threshold, recovery, attempts, k);
  }
}
