/** The reconnect loops of both tunnels, and the handshake the UDP tunnel starts with. Time
    is counted in seconds. */
module Retry {
  import opened Wrappers

  const MAX_ERROR_ATTEMPTS: nat := 5
  const MAX_HANDSHAKE_ATTEMPTS: nat := 5
  const HANDSHAKE_TIMEOUT: nat := 5

  datatype TunnelError =
    | Bind
    | Connect
    | HandshakeTimeout
    | HandshakeFailed(code: nat)
    | AllocateSocketPool
    | Refused(code: nat)

  // ---- The reconnect loop ----

  /** The failures since the last success. */
  function Trailing<T>(outcomes: seq<Result<T, TunnelError>>): nat {
    if outcomes == [] || outcomes[|outcomes| - 1].Success? then 0 else Trailing(outcomes[..|outcomes| - 1]) + 1
  }

  /** The pauses after each attempt: a second, and after a failure one for each in a row. */
  function Pauses<T>(outcomes: seq<Result<T, TunnelError>>): nat {
    if outcomes == [] then 0
    else Pauses(outcomes[..|outcomes| - 1]) + (if Trailing(outcomes) == 0 then 1 else Trailing(outcomes))
  }

  /** What the loop comes to: it goes on through every attempt, and gives up exactly at the
      first five failures in a row, with the last of their errors. */
  ghost predicate GaveUpRightly<T>(outcomes: seq<Result<T, TunnelError>>, result: Option<TunnelError>) {
    && (forall k | 0 <= k < |outcomes| :: Trailing(outcomes[..k]) < 5)
    && (result.Some? <==> Trailing(outcomes) == 5)
    && (result.Some? ==> outcomes[|outcomes| - 1] == Failure(result.value))
  }

  /** One more outcome, and the pause after it. */
  lemma TrailingSnoc<T>(outcomes: seq<Result<T, TunnelError>>, next: Result<T, TunnelError>)
    ensures Trailing(outcomes + [next]) == if next.Success? then 0 else Trailing(outcomes) + 1
    ensures Pauses(outcomes + [next]) ==
            Pauses(outcomes) + if next.Success? then 1 else Trailing(outcomes) + 1
    ensures forall k | 0 <= k <= |outcomes| :: (outcomes + [next])[..k] == outcomes[..k]
  {
    assert (outcomes + [next])[..|outcomes|] == outcomes;
  }

  /** What a reconnect loop knows between attempts: how many failures are in a row, the last
      of their errors, and that there were never five before. */
  ghost predicate Counting<T>(outcomes: seq<Result<T, TunnelError>>, errors: nat, last: Option<TunnelError>) {
    && errors == Trailing(outcomes) <= MAX_ERROR_ATTEMPTS
    && (errors > 0 ==> last.Some? && outcomes != [] && outcomes[|outcomes| - 1] == Failure(last.value))
    && (forall k | 0 <= k < |outcomes| :: Trailing(outcomes[..k]) < MAX_ERROR_ATTEMPTS)
  }

  lemma CountingStep<T>(outcomes: seq<Result<T, TunnelError>>, errors: nat, last: Option<TunnelError>,
                        next: Result<T, TunnelError>)
    requires Counting(outcomes, errors, last) && errors < MAX_ERROR_ATTEMPTS
    ensures if next.Failure? then Counting(outcomes + [next], errors + 1, Some(next.error))
            else Counting(outcomes + [next], 0, last)
    ensures Pauses(outcomes + [next]) == Pauses(outcomes) + if next.Failure? then errors + 1 else 1
  {
    TrailingSnoc(outcomes, next);
    assert outcomes[..|outcomes|] == outcomes;
  }

  lemma NothingCounted<T>()
    ensures Counting<T>([], 0, None) && Pauses<T>([]) == 0
  {
  }

  /** `n` failures in a row are the last `n` outcomes. */
  lemma {:induction false} TrailingMeans<T>(outcomes: seq<Result<T, TunnelError>>)
    ensures Trailing(outcomes) <= |outcomes|
    ensures forall k | |outcomes| - Trailing(outcomes) <= k < |outcomes| :: outcomes[k].Failure?
    ensures Trailing(outcomes) < |outcomes| ==> outcomes[|outcomes| - Trailing(outcomes) - 1].Success?
  {
    if outcomes != [] && outcomes[|outcomes| - 1].Failure? {
      TrailingMeans(outcomes[..|outcomes| - 1]);
    }
  }

  /** The TCP tunnel's loop over the outcomes of `create_tunnel`. The result is `None` while
      the outcomes given do not end it. */
  method StartTunnelServer(outcomes: seq<Result<(), TunnelError>>)
    returns (result: Option<TunnelError>, used: nat, waited: nat)
    ensures used <= |outcomes| && (result.None? ==> used == |outcomes|)
    ensures GaveUpRightly(outcomes[..used], result)
    ensures waited == Pauses(outcomes[..used])
  {
    hide Trailing, Pauses;
    var lastError: Option<TunnelError> := None;
    var attemptErrors := 0;
    used, waited := 0, 0;
    NothingCounted<()>();
    assert outcomes[..0] == [];
    while attemptErrors < MAX_ERROR_ATTEMPTS
      invariant used <= |outcomes|
      invariant Counting(outcomes[..used], attemptErrors, lastError)
      invariant waited == Pauses(outcomes[..used])
      decreases |outcomes| - used
    {
      if used == |outcomes| {
        return None, used, waited;
      }
      CountingStep(outcomes[..used], attemptErrors, lastError, outcomes[used]);
      assert outcomes[..used + 1] == outcomes[..used] + [outcomes[used]];
      if outcomes[used].Failure? {
        lastError := Some(outcomes[used].error);
        attemptErrors := attemptErrors + 1;
        waited := waited + attemptErrors;
      } else {
        attemptErrors := 0;
        waited := waited + 1;
      }
      used := used + 1;
    }
    result := lastError;
  }

  // ---- The handshake ----

  /** What a handshake would come to, left alone: a tunnel id or an error, after some time. */
  datatype Reply = Reply(seconds: nat, result: Result<nat, TunnelError>) {
    function Limited(): Result<nat, TunnelError> {
      if seconds > HANDSHAKE_TIMEOUT then Failure(HandshakeTimeout) else result
    }

    function Taken(): nat {
      if seconds > HANDSHAKE_TIMEOUT then HANDSHAKE_TIMEOUT else seconds
    }
  }

  function Pow2(n: nat): nat {
    if n == 0 then 1 else 2 * Pow2(n - 1)
  }

  /** A reply within five seconds counts as it is, a later one as a timeout after five. */
  lemma LimitedIs(reply: Reply)
    ensures reply.Limited() == if reply.seconds <= 5 then reply.result else Failure(HandshakeTimeout)
    ensures reply.Taken() == if reply.seconds <= 5 then reply.seconds else 5
  {
  }

  /** The time the first `n` attempts wait for their replies. */
  function Waits(replies: nat -> Reply, n: nat): nat {
    if n == 0 then 0 else Waits(replies, n - 1) + replies(n - 1).Taken()
  }

  /** The first attempt to succeed ends the handshake; if the first six fail, so does it,
      with the error of the sixth. */
  ghost predicate HandshakeGives(replies: nat -> Reply, result: Result<nat, TunnelError>, tried: nat) {
    && 1 <= tried <= 6
    && (forall k | 0 <= k < tried - 1 :: replies(k).Limited().Failure?)
    && result == replies(tried - 1).Limited()
    && (result.Failure? ==> tried == 6)
  }

  /** Sleeps double from five seconds, one after every failed attempt: 315 in all if it fails. */
  method AttemptTunnelHandshake(replies: nat -> Reply)
    returns (result: Result<nat, TunnelError>, tried: nat, slept: nat, elapsed: nat)
    ensures HandshakeGives(replies, result, tried)
    ensures slept == 5 * (Pow2(if result.Success? then tried - 1 else tried) - 1)
    ensures result.Failure? ==> slept == 315
    ensures elapsed == slept + Waits(replies, tried)
    ensures slept <= elapsed <= slept + 5 * tried
  {
    var retryCount, retryDelay := 0, 5;
    slept, elapsed := 0, 0;
    while true
      invariant retryCount <= MAX_HANDSHAKE_ATTEMPTS
      invariant forall k | 0 <= k < retryCount :: replies(k).Limited().Failure?
      invariant retryDelay == 5 * Pow2(retryCount) && slept == 5 * (Pow2(retryCount) - 1)
      invariant elapsed == slept + Waits(replies, retryCount) <= slept + 5 * retryCount
      decreases MAX_HANDSHAKE_ATTEMPTS - retryCount
    {
      var reply := replies(retryCount);
      elapsed := elapsed + reply.Taken();
      var lastResult := reply.Limited();
      if lastResult.Success? {
        return lastResult, retryCount + 1, slept, elapsed;
      }
      retryCount := retryCount + 1;
      slept, elapsed := slept + retryDelay, elapsed + retryDelay;
      retryDelay := retryDelay * 2;
      if retryCount > MAX_HANDSHAKE_ATTEMPTS {
        assert Pow2(6) == 64;
        return lastResult, retryCount, slept, elapsed;
      }
    }
  }

  // ---- The UDP tunnel's loop ----

  /** A stage of an attempt: how long it takes the outside, and whether it succeeds. */
  datatype Stage = Stage(seconds: nat, succeeds: bool)

  /** What the outside does in one attempt to create the UDP tunnel, and how long the tunnel
      then runs. */
  datatype Round = Round(bind: Stage, connect: Stage, replies: nat -> Reply, allocate: Stage, runs: nat) {
    /** The time the code sets no limit to. */
    function Outside(): nat {
      bind.seconds + connect.seconds + allocate.seconds + runs
    }
  }

  function TotalOutside(rounds: seq<Round>): nat {
    if rounds == [] then 0 else TotalOutside(rounds[..|rounds| - 1]) + rounds[|rounds| - 1].Outside()
  }

  ghost predicate RoundGives(round: Round, outcome: Result<(), TunnelError>) {
    if !round.bind.succeeds then outcome == Failure(Bind)
    else if !round.connect.succeeds then outcome == Failure(Connect)
    else exists shaken, tried ::
        && HandshakeGives(round.replies, shaken, tried)
        && outcome == (if shaken.Failure? then Failure(shaken.error)
                       else if round.allocate.succeeds then Success(()) else Failure(AllocateSocketPool))
  }

  method CreateUdpTunnel(round: Round) returns (outcome: Result<(), TunnelError>, elapsed: nat)
    ensures RoundGives(round, outcome)
    ensures !round.bind.succeeds ==> outcome == Failure(Bind)
    ensures round.bind.succeeds && !round.connect.succeeds ==> outcome == Failure(Connect)
    ensures elapsed <= 345 + round.Outside()
    ensures outcome.Success? ==> round.Outside() <= elapsed
  {
    elapsed := round.bind.seconds;
    if !round.bind.succeeds {
      return Failure(Bind), elapsed;
    }
    elapsed := elapsed + round.connect.seconds;
    if !round.connect.succeeds {
      return Failure(Connect), elapsed;
    }
    var shaken, tried, slept, taken := AttemptTunnelHandshake(round.replies);
    SleptAtMost(tried);
    assert HandshakeGives(round.replies, shaken, tried);
    elapsed := elapsed + taken;
    if shaken.Failure? {
      return Failure(shaken.error), elapsed;
    }
    elapsed := elapsed + round.allocate.seconds;
    if !round.allocate.succeeds {
      return Failure(AllocateSocketPool), elapsed;
    }
    return Success(()), elapsed + round.runs;
  }

  lemma SleptAtMost(tried: nat)
    requires 1 <= tried <= 6
    ensures Pow2(tried) <= 64 && Pow2(tried - 1) <= 32
  {
    assert Pow2(6) == 64 && Pow2(5) == 32 && Pow2(4) == 16 && Pow2(3) == 8;
  }

  /** The UDP tunnel's loop. Giving up after five failed attempts and no other takes at most
      1740 seconds (six tries of five seconds and 315 of sleep each, and pauses of 15) besides
      the time the outside takes for the stages. */
  method StartUdpTunnelServer(rounds: seq<Round>)
    returns (result: Option<TunnelError>, outcomes: seq<Result<(), TunnelError>>, elapsed: nat)
    ensures |outcomes| <= |rounds| && (result.None? ==> |outcomes| == |rounds|)
    ensures forall k | 0 <= k < |outcomes| :: RoundGives(rounds[k], outcomes[k])
    ensures GaveUpRightly(outcomes, result)
    ensures Pauses(outcomes) <= elapsed <= Pauses(outcomes) + 345 * |outcomes| + TotalOutside(rounds[..|outcomes|])
    ensures result.Some? && |outcomes| == 5 ==> elapsed <= 1740 + TotalOutside(rounds[..5])
  {
    hide Trailing, Pauses, RoundGives, TotalOutside;
    var lastError: Option<TunnelError> := None;
    var attemptErrors := 0;
    outcomes, elapsed := [], 0;
    NothingCounted<()>();
    while attemptErrors < MAX_ERROR_ATTEMPTS
      invariant |outcomes| <= |rounds|
      invariant forall k | 0 <= k < |outcomes| :: RoundGives(rounds[k], outcomes[k])
      invariant Counting(outcomes, attemptErrors, lastError)
      invariant Pauses(outcomes) <= elapsed <=
                Pauses(outcomes) + 345 * |outcomes| + TotalOutside(rounds[..|outcomes|])
      decreases |rounds| - |outcomes|
    {
      if |outcomes| == |rounds| {
        return None, outcomes, elapsed;
      }
      var outcome, taken := CreateUdpTunnel(rounds[|outcomes|]);
      CountingStep(outcomes, attemptErrors, lastError, outcome);
      OutsideSnoc(rounds, |outcomes|);
      if outcome.Failure? {
        lastError := Some(outcome.error);
        attemptErrors := attemptErrors + 1;
        elapsed := elapsed + taken + attemptErrors;
      } else {
        attemptErrors := 0;
        elapsed := elapsed + taken + 1;
      }
      outcomes := outcomes + [outcome];
    }
    result := lastError;
    FivePauses(outcomes);
  }

  lemma OutsideSnoc(rounds: seq<Round>, n: nat)
    requires n < |rounds|
    ensures TotalOutside(rounds[..n + 1]) == TotalOutside(rounds[..n]) + rounds[n].Outside()
  {
    assert rounds[..n + 1][..n] == rounds[..n];
  }

  lemma FivePauses<T>(outcomes: seq<Result<T, TunnelError>>)
    ensures Trailing(outcomes) == |outcomes| == 5 ==> Pauses(outcomes) == 15
  {
    PausesOfFailures(outcomes);
  }

  lemma {:induction false} PausesOfFailures<T>(outcomes: seq<Result<T, TunnelError>>)
    ensures Trailing(outcomes) == |outcomes| ==> 2 * Pauses(outcomes) == |outcomes| * (|outcomes| + 1)
  {
    if outcomes != [] {
      PausesOfFailures(outcomes[..|outcomes| - 1]);
    }
  }
}
