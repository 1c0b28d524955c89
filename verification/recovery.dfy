/**
 The connection-recovery guard `with_milvus_recovery` as a pure function.

 The wrapped operation is given as the outcome of each successive call
 (`op(k)` is what call number `k`, counting from 0, returns or raises), and
 the reconnect probe as the outcome of each probe (`probe(k)` follows the
 failure of call `k`). The probe either lets the loop go on, ends the
 process (the interactive "continue anyway?" refusal, `sys.exit(1)`), or raises
 (the prompt's `input()` meets the end of its input); an error it raises leaves
 the guard at once.
 */
module Recovery {
  import opened Opt
  import opened Text

  /** What one call of the wrapped operation does: return a value or raise with a message. */
  datatype Outcome<+T> = Ok(value: T) | Err(message: string)

  /** What one reconnect probe does. */
  datatype Probe = Proceed | Exit | ProbeRaised(message: string)

  /** The message of the error `input()` raises at the end of its input. */
  const EndOfInput: string := "EOF when reading a line"

  /**
   `_ensure_milvus_connection` inside the retry loop: a reachable server lets the
   loop go on; otherwise the user is asked, and only an answer that lower-cases
   to "y" goes on, any other answer exits, and a prompt with no input left raises.
   */
  function ProbeOutcome(reachable: bool, answer: Option<string>): (p: Probe)
    ensures p == Proceed <==> reachable || (answer.Some? && Lower(answer.value) == "y")
    ensures p == Exit <==> !reachable && answer.Some? && Lower(answer.value) != "y"
    ensures p.ProbeRaised? <==> !reachable && answer.None?
    ensures p.ProbeRaised? ==> p.message == EndOfInput
  {
    if reachable then Proceed
    else match answer
      case None => ProbeRaised(EndOfInput)
      case Some(a) => if Lower(a) == "y" then Proceed else Exit
  }

  /**
   What the guarded call does: returns the operation's value, returns Python's
   `None` (a loop over an empty `range`), re-raises an error, or ends the process.
   */
  datatype Result<+T> = Returned(value: T) | ReturnedNothing | Raised(message: string) | Exited

  /** A guarded call's result and how many operation calls and reconnect probes it made. */
  datatype Run<+T> = Run(result: Result<T>, calls: nat, reconnects: nat)

  /** The default `max_attempts`. */
  const DefaultMaxAttempts: int := 3

  /** An error is worth a retry when its lower-cased text mentions a connectivity symptom. */
  predicate IsConnectionError(message: string) {
    var m := Lower(message);
    Contains(m, "timeout") || Contains(m, "connection") || Contains(m, "connect")
  }

  /** "connection" is redundant among the markers: every message it flags, "connect" flags too. */
  lemma ConnectionMarkerRedundant(message: string)
    ensures IsConnectionError(message) <==> (Contains(Lower(message), "timeout") || Contains(Lower(message), "connect"))
  {
    if Contains(Lower(message), "connection") {
      ContainsPrefix(Lower(message), "connection", "connect");
    }
  }

  /** The pass-through result of one unguarded call. */
  function Lift<T>(o: Outcome<T>): (r: Result<T>)
    ensures o.Ok? ==> r == Returned(o.value)
    ensures o.Err? ==> r == Raised(o.message)
  {
    match o
    case Ok(v) => Returned(v)
    case Err(m) => Raised(m)
  }

  /**
   Call `k` failed with an error the loop retries (for the guard: one with a
   connectivity symptom) and the probe after it let the loop go on.
   */
  predicate RetriedAt<T>(retryable: string -> bool, op: nat -> Outcome<T>, probe: nat -> Probe, k: nat) {
    op(k).Err? && retryable(op(k).message) && probe(k) == Proceed
  }

  /**
   The loop from attempt `k` on, retrying the errors `retryable` admits. The
   contract characterises the run completely: every call but the last failed
   with a retryable error and was followed by a probe that let the loop go on;
   the last call decides the result.
   */
  function Attempt<T>(k: nat, maxAttempts: int, retryable: string -> bool, op: nat -> Outcome<T>, probe: nat -> Probe): (r: Run<T>)
    requires k < maxAttempts
    ensures 1 <= r.calls <= maxAttempts - k
    ensures r.reconnects == r.calls || r.reconnects == r.calls - 1
    ensures forall i :: k <= i < k + r.calls - 1 ==> RetriedAt(retryable, op, probe, i)
    ensures var last := k + r.calls - 1;
      if r.reconnects == r.calls then
        && op(last).Err? && retryable(op(last).message) && last < maxAttempts - 1
        && probe(last) != Proceed
        && r.result == (if probe(last).Exit? then Exited else Raised(probe(last).message))
      else
        match r.result
        case Returned(v) => op(last) == Ok(v)
        case Raised(m) => op(last) == Err(m) && (!retryable(m) || last == maxAttempts - 1)
        case Exited => false
        case ReturnedNothing => false
    decreases maxAttempts - k
  {
    match op(k)
    case Ok(v) => Run(Returned(v), 1, 0)
    case Err(m) =>
      if k < maxAttempts - 1 && retryable(m) then
        match probe(k)
        case Exit => Run(Exited, 1, 1)
        case ProbeRaised(pm) => Run(Raised(pm), 1, 1)
        case Proceed =>
          var rest := Attempt(k + 1, maxAttempts, retryable, op, probe);
          Run(rest.result, rest.calls + 1, rest.reconnects + 1)
      else
        Run(Raised(m), 1, 0)
  }

  /**
   The guarded call. With the skip flag set the operation runs once and its value
   or error passes through unchanged, with no probe; otherwise the retry loop runs
   for at most `maxAttempts` calls, probing only between two calls.
   */
  function Guard<T>(skip: bool, maxAttempts: int, op: nat -> Outcome<T>, probe: nat -> Probe): (r: Run<T>)
    ensures skip ==> r.calls == 1 && r.reconnects == 0 && r.result == Lift(op(0))
    ensures !skip ==> r.calls <= if maxAttempts < 0 then 0 else maxAttempts
    ensures !skip && maxAttempts <= 0 ==> r == Run(ReturnedNothing, 0, 0)
    ensures r.result.ReturnedNothing? ==> !skip && maxAttempts <= 0
    ensures r.calls > 0 ==> r.reconnects == r.calls || r.reconnects == r.calls - 1
    ensures r.result.Exited? ==> !skip && r.calls >= 1 && r.reconnects == r.calls && probe(r.calls - 1) == Exit
    ensures r.result.Returned? ==> r.calls >= 1 && r.reconnects == r.calls - 1 && op(r.calls - 1) == Ok(r.result.value)
    ensures r.result.Raised? ==> (r.calls >= 1 &&
      if r.reconnects == r.calls then !skip && probe(r.calls - 1) == ProbeRaised(r.result.message)
      else op(r.calls - 1) == Err(r.result.message))
  {
    if skip then Run(Lift(op(0)), 1, 0)
    else if maxAttempts <= 0 then Run(ReturnedNothing, 0, 0)
    else Attempt(0, maxAttempts, IsConnectionError, op, probe)
  }

  /** A run preceded by `n` retried calls: `n` more calls and `n` more probes. */
  function After<T>(r: Run<T>, n: nat): Run<T> {
    Run(r.result, r.calls + n, r.reconnects + n)
  }

  /** One retried call: a probe and the loop from the next attempt. */
  lemma RetryStep<T>(k: nat, maxAttempts: int, retryable: string -> bool, op: nat -> Outcome<T>, probe: nat -> Probe)
    requires k + 1 < maxAttempts
    requires RetriedAt(retryable, op, probe, k)
    ensures Attempt(k, maxAttempts, retryable, op, probe) == After(Attempt(k + 1, maxAttempts, retryable, op, probe), 1)
  {
  }

  /** The last allowed call is never retried: its error is re-raised. */
  lemma LastAttemptRaises<T>(maxAttempts: int, retryable: string -> bool, op: nat -> Outcome<T>, probe: nat -> Probe)
    requires 0 < maxAttempts
    requires op(maxAttempts - 1).Err?
    ensures Attempt(maxAttempts - 1, maxAttempts, retryable, op, probe) == Run(Raised(op(maxAttempts - 1).message), 1, 0)
  {
  }

  /** Retried calls only postpone the outcome: the loop from `k` is the loop from `j` after `j - k` retries. */
  lemma {:induction false} RetriesPostpone<T>(k: nat, j: nat, maxAttempts: int, retryable: string -> bool, op: nat -> Outcome<T>, probe: nat -> Probe)
    requires k <= j < maxAttempts
    requires forall i :: k <= i < j ==> RetriedAt(retryable, op, probe, i)
    ensures Attempt(k, maxAttempts, retryable, op, probe) == After(Attempt(j, maxAttempts, retryable, op, probe), j - k)
    decreases j - k
  {
    if k < j {
      RetryStep(k, maxAttempts, retryable, op, probe);
      RetriesPostpone(k + 1, j, maxAttempts, retryable, op, probe);
    }
  }

  /**
   Transparent success: when call `j` succeeds after `j` connectivity failures
   that were each followed by a successful probe, the guard returns exactly call
   `j`'s value and none of the earlier errors.
   */
  lemma TransparentSuccess<T>(maxAttempts: int, op: nat -> Outcome<T>, probe: nat -> Probe, j: nat)
    requires j < maxAttempts
    requires op(j).Ok?
    requires forall i :: 0 <= i < j ==> RetriedAt(IsConnectionError, op, probe, i)
    ensures Guard(false, maxAttempts, op, probe) == Run(Returned(op(j).value), j + 1, j)
  {
    RetriesPostpone(0, j, maxAttempts, IsConnectionError, op, probe);
    assert Guard(false, maxAttempts, op, probe) == Attempt(0, maxAttempts, IsConnectionError, op, probe);
  }

  /**
   No retry on other errors: when call `j` raises an error without a connectivity
   symptom (after `j` retried connectivity failures), the guard re-raises it at
   once and makes no further call.
   */
  lemma NonConnectionErrorRaisedAtOnce<T>(maxAttempts: int, op: nat -> Outcome<T>, probe: nat -> Probe, j: nat)
    requires j < maxAttempts
    requires op(j).Err? && !IsConnectionError(op(j).message)
    requires forall i :: 0 <= i < j ==> RetriedAt(IsConnectionError, op, probe, i)
    ensures Guard(false, maxAttempts, op, probe) == Run(Raised(op(j).message), j + 1, j)
  {
    RetriesPostpone(0, j, maxAttempts, IsConnectionError, op, probe);
    assert Guard(false, maxAttempts, op, probe) == Attempt(0, maxAttempts, IsConnectionError, op, probe);
  }

  /**
   Exhaustion: when every allowed call fails with a connectivity symptom and every
   probe lets the loop go on, the guard makes exactly `maxAttempts` calls, probes
   between them only, and re-raises the last call's error.
   */
  lemma ExhaustedRetriesRaiseLastError<T>(maxAttempts: int, op: nat -> Outcome<T>, probe: nat -> Probe)
    requires 0 < maxAttempts
    requires forall i :: 0 <= i < maxAttempts ==> RetriedAt(IsConnectionError, op, probe, i)
    ensures Guard(false, maxAttempts, op, probe) == Run(Lift(op(maxAttempts - 1)), maxAttempts, maxAttempts - 1)
    ensures Guard(false, maxAttempts, op, probe).result.Raised?
  {
    assert op(maxAttempts - 1).Err? by { assert RetriedAt(IsConnectionError, op, probe, maxAttempts - 1); }
    assert Lift(op(maxAttempts - 1)) == Raised(op(maxAttempts - 1).message);
    LastAttemptRaises(maxAttempts, IsConnectionError, op, probe);
    RetriesPostpone(0, maxAttempts - 1, maxAttempts, IsConnectionError, op, probe);
    assert Guard(false, maxAttempts, op, probe) == Attempt(0, maxAttempts, IsConnectionError, op, probe);
  }

  /**
   A probe that raises ends the guard at once: when call `j` fails with a
   connectivity symptom before the last attempt and its probe raises, the
   guard raises the probe's error, not the operation's, after `j + 1` calls and
   as many probes.
   */
  lemma ProbeErrorEscapes<T>(maxAttempts: int, op: nat -> Outcome<T>, probe: nat -> Probe, j: nat)
    requires j < maxAttempts - 1
    requires op(j).Err? && IsConnectionError(op(j).message) && probe(j).ProbeRaised?
    requires forall i :: 0 <= i < j ==> RetriedAt(IsConnectionError, op, probe, i)
    ensures Guard(false, maxAttempts, op, probe) == Run(Raised(probe(j).message), j + 1, j + 1)
  {
    ProbeRaisesAt(j, maxAttempts, IsConnectionError, op, probe);
    RetriesPostpone(0, j, maxAttempts, IsConnectionError, op, probe);
    assert Guard(false, maxAttempts, op, probe) == Attempt(0, maxAttempts, IsConnectionError, op, probe);
  }

  /** A retryable failure whose probe raises ends the loop with the probe's error. */
  lemma ProbeRaisesAt<T>(k: nat, maxAttempts: int, retryable: string -> bool, op: nat -> Outcome<T>, probe: nat -> Probe)
    requires k < maxAttempts - 1
    requires op(k).Err? && retryable(op(k).message) && probe(k).ProbeRaised?
    ensures Attempt(k, maxAttempts, retryable, op, probe) == Run(Raised(probe(k).message), 1, 1)
  {
  }

  /**
   Unattended, with the server unreachable and no input to answer the prompt,
   the first connectivity failure ends the guarded call with the prompt's
   end-of-input error.
   */
  lemma UnattendedProbeRaises<T>(maxAttempts: int, op: nat -> Outcome<T>, probe: nat -> Probe)
    requires 1 < maxAttempts
    requires op(0).Err? && IsConnectionError(op(0).message)
    requires probe(0) == ProbeOutcome(false, None)
    ensures Guard(false, maxAttempts, op, probe).result == Raised(EndOfInput)
  {
    ProbeErrorEscapes(maxAttempts, op, probe, 0);
  }

  /** The scenario of two connectivity failures then a success with the default bound. */
  lemma SucceedsOnThirdAttempt<T>(op: nat -> Outcome<T>, probe: nat -> Probe)
    requires op(0) == Err("Connection refused") && op(1) == Err("Request TIMEOUT") && op(2).Ok?
    requires probe(0) == Proceed && probe(1) == Proceed
    ensures Guard(false, DefaultMaxAttempts, op, probe).result == Returned(op(2).value)
  {
    RefusedIsConnectionError();
    TimeoutIsConnectionError();
    assert RetriedAt(IsConnectionError, op, probe, 0) && RetriedAt(IsConnectionError, op, probe, 1);
    TransparentSuccess(DefaultMaxAttempts, op, probe, 2);
  }

  /** A refused connection is a connectivity symptom. */
  lemma RefusedIsConnectionError()
    ensures IsConnectionError("Connection refused")
  {
    assert "connect" <= Lower("Connection refused");
    assert Contains(Lower("Connection refused"), "connect");
  }

  /** A timeout is a connectivity symptom, whatever its case. */
  lemma TimeoutIsConnectionError()
    ensures IsConnectionError("Request TIMEOUT")
  {
    assert "timeout" <= Lower("Request TIMEOUT")[8..];
    assert Contains(Lower("Request TIMEOUT"), "timeout");
  }
}
