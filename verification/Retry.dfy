/** The retry wrapper around the database calls, and which failures it repeats. */
module Retry {
  import opened Prelude

  const RETRY_MAX_ATTEMPTS: nat := 3
  const RETRY_INITIAL_DELAY: real := 0.2
  const RETRY_TIME_BUDGET: real := 5.0
  const LOCK_TIMEOUT_CODE: int := 24

  // What the driver raises. Unsent is a server-selection failure, Dropped any other connection failure;
  // TooLarge is the 16 MB limit however it is reported.
  datatype DriverError = Unsent | Dropped | DuplicateKey | OperationFailure(code: int) | TooLarge | OtherDriver

  // The typed errors of cmdb.errors.database the policy and the insert tell apart
  datatype TypedKind =
    | DocumentGet | DocumentAggregation | DatabaseConnection
    | DocumentInsert | InsertDuplicateKey | InsertTooLarge | LockTimeout | Network
    | DocumentUpdate | DocumentDelete

  // An error as it reaches the wrapper: raw, or typed with the driver's error as its cause
  datatype Error = Raw(raw: DriverError) | Typed(kind: TypedKind, cause: Option<DriverError>)

  predicate ReadError(kind: TypedKind) {
    kind in {DocumentGet, DocumentAggregation, DatabaseConnection}
  }

  predicate ConnectionFailure(e: DriverError) {
    e.Unsent? || e.Dropped?
  }

  predicate IsRetryable(error: Error) {
    var cause := match error case Raw(_) => None case Typed(_, c) => c;
    if error == Raw(Unsent) || cause == Some(Unsent) then true
    else if error.Raw? && ConnectionFailure(error.raw) then true
    else if cause.Some? && ConnectionFailure(cause.value) then error.Typed? && ReadError(error.kind)
    else false
  }

  // One attempt: what it comes to, how many of its commands were acknowledged, and whether the database applied the
  // one that failed after those
  datatype Attempt = Attempt(error: Option<Error>, acknowledged: nat, last: bool)

  /** The operation and the clock, attempt by attempt: when a failed one ends, and the jitter drawn after it. */
  datatype Environment = Environment(start: real, attempt: nat -> Attempt, ended: nat -> real, jitter: nat -> real)

  function Delay(i: nat): real {
    if i == 0 then RETRY_INITIAL_DELAY else 2.0 * Delay(i - 1)
  }

  // When the attempt after i would start
  function Resumes(env: Environment, i: nat): real {
    env.ended(i) + Delay(i) + env.jitter(i)
  }

  predicate GoesOn(env: Environment, i: nat) {
    && env.attempt(i).error.Some?
    && i + 1 < RETRY_MAX_ATTEMPTS
    && IsRetryable(env.attempt(i).error.value)
    && Resumes(env, i) < env.start + RETRY_TIME_BUDGET
  }

  /** `used` attempts were made: each but the last was worth another one in time, the last was not. */
  ghost predicate Wrapped(env: Environment, used: nat) {
    && used > 0
    && (forall i :: 0 <= i < used - 1 ==> GoesOn(env, i))
    && !GoesOn(env, used - 1)
  }

  // A fifth of a second before the second attempt, twice that before the third
  function Wait(i: nat): real {
    if i == 0 then 0.2 else 0.4
  }

  lemma Waits()
    ensures Delay(0) == Wait(0) && Delay(1) == Wait(1)
  {
  }

  // Answers the last attempt's own result: its return, or its error unchanged
  method RetryOperation(env: Environment) returns (result: Option<Error>, used: nat)
    ensures Wrapped(env, used) && used <= 3
    ensures result == env.attempt(used - 1).error
    ensures result.Some? && IsRetryable(result.value) ==>
              used == 3 || env.ended(used - 1) + Wait(used - 1) + env.jitter(used - 1) >= env.start + 5.0
    ensures forall i :: 0 <= i < used - 1 ==> env.ended(i) + Wait(i) + env.jitter(i) < env.start + 5.0
  {
    var deadline := env.start + RETRY_TIME_BUDGET;
    var delay := RETRY_INITIAL_DELAY;
    used := 0;
    Waits();
    while true
      invariant used < RETRY_MAX_ATTEMPTS && delay == Delay(used)
      invariant forall i :: 0 <= i < used ==> GoesOn(env, i) && env.ended(i) + Wait(i) + env.jitter(i) < deadline
      decreases RETRY_MAX_ATTEMPTS - used
    {
      assert used == 0 || used == 1 || used == 2;
      assert used < 2 ==> delay == Wait(used);
      result := env.attempt(used).error;
      used := used + 1;
      if result.None? {
        return;
      }
      if used >= RETRY_MAX_ATTEMPTS || !IsRetryable(result.value) {
        return;
      }
      var backoff := delay + env.jitter(used - 1);
      if env.ended(used - 1) + backoff >= deadline {
        return;
      }
      delay := delay * 2.0;
    }
  }

  // ------------------------------------------------------------------ at most once

  predicate Applies(a: Attempt, k: nat) {
    k < a.acknowledged || (k == a.acknowledged && a.last)
  }

  // How often the first n attempts applied the k-th command
  function Effects(env: Environment, n: nat, k: nat): nat {
    if n == 0 then 0 else Effects(env, n - 1, k) + if Applies(env.attempt(n - 1), k) then 1 else 0
  }

  predicate UnsentError(e: Error) {
    e == Raw(Unsent) || (e.Typed? && e.cause == Some(Unsent))
  }

  // The typed errors of the operations that write
  predicate WriteError(kind: TypedKind) {
    kind in {DocumentInsert, InsertDuplicateKey, InsertTooLarge, LockTimeout, Network, DocumentUpdate, DocumentDelete}
  }

  /**
   A write of so many commands as the database layer reports it: its failures are typed as a write's, and a
   command that was not sent had no effect. A dropped one may have had its effect or not, as may any other failure.
   */
  ghost predicate Writes(env: Environment, commands: nat) {
    forall i :: WriteAttempt(env.attempt(i), commands)
  }

  predicate WriteAttempt(a: Attempt, commands: nat) {
    match a.error
    case None => a.acknowledged == commands && !a.last
    case Some(e) =>
      a.acknowledged < commands && e.Typed? && WriteError(e.kind) && (UnsentError(e) ==> !a.last)
  }

  // No two of the first n attempts got anything applied
  ghost predicate BegunOnce(env: Environment, n: nat) {
    forall i, j :: 0 <= i < j < n ==> !(Applies(env.attempt(i), 0) && Applies(env.attempt(j), 0))
  }

  lemma {:induction false} EffectsBounded(env: Environment, n: nat, k: nat)
    ensures Effects(env, n, k) <= Effects(env, n, 0)
    ensures Effects(env, n, 0) == 0 <==> forall i :: 0 <= i < n ==> !Applies(env.attempt(i), 0)
    decreases n
  {
    if n > 0 {
      EffectsBounded(env, n - 1, k);
    }
  }

  lemma {:induction false} FirstCommandOnceIff(env: Environment, n: nat)
    ensures Effects(env, n, 0) <= 1 <==> BegunOnce(env, n)
    decreases n
  {
    if n > 0 {
      FirstCommandOnceIff(env, n - 1);
      EffectsBounded(env, n - 1, 0);
    }
  }

  /** Each command of a call takes effect at most once, exactly when no two of its attempts got anything applied. */
  lemma AtMostOnceIff(env: Environment, used: nat)
    ensures (forall k :: Effects(env, used, k) <= 1) <==> BegunOnce(env, used)
  {
    FirstCommandOnceIff(env, used);
    forall k
      ensures Effects(env, used, k) <= Effects(env, used, 0)
    {
      EffectsBounded(env, used, k);
    }
  }

  /** Whatever mix of failures a write of one command meets, it takes effect at most once, and then in its last attempt. */
  lemma WritesApplyAtMostOnce(env: Environment, used: nat, k: nat)
    requires Writes(env, 1) && Wrapped(env, used)
    ensures Effects(env, used - 1, k) == 0
    ensures Effects(env, used, k) <= 1
  {
    forall i | 0 <= i < used - 1
      ensures !Applies(env.attempt(i), 0)
    {
      assert GoesOn(env, i) && WriteAttempt(env.attempt(i), 1);
    }
    EffectsBounded(env, used - 1, k);
  }

  ghost predicate AppliesAtMostOnce(env: Environment) {
    forall used, k :: Wrapped(env, used) ==> Effects(env, used, k) <= 1
  }

  /** One command is what the retry is made for: a write of more may apply its first ones again, and one does not. */
  lemma SafeIffOneCommand(commands: nat)
    ensures (forall env :: Writes(env, commands) ==> AppliesAtMostOnce(env)) <==> commands <= 1
  {
    if commands > 1 {
      var fails := Attempt(Some(Typed(DocumentInsert, Some(Unsent))), 1, false);
      var env := Environment(0.0, _ => fails, _ => 0.0, _ => 0.0);
      ThreeAttempts(env);
      assert Writes(env, commands) && Effects(env, 1, 0) == 1 && Effects(env, 2, 0) == 2 && Effects(env, 3, 0) == 3;
      assert !AppliesAtMostOnce(env);
    } else {
      forall env, used, k | Writes(env, commands) && Wrapped(env, used)
        ensures Effects(env, used, k) <= 1
      {
        if commands == 1 {
          WritesApplyAtMostOnce(env, used, k);
        } else {
          NoCommandNoEffect(env, used, k);
        }
      }
    }
  }

  lemma NoCommandNoEffect(env: Environment, n: nat, k: nat)
    requires Writes(env, 0)
    ensures Effects(env, n, k) == 0
  {
    forall i | 0 <= i < n
      ensures !Applies(env.attempt(i), 0)
    {
      assert WriteAttempt(env.attempt(i), 0);
    }
    EffectsBounded(env, n, k);
  }

  // An operation that fails at once with an error worth repeating, three times within the budget
  lemma ThreeAttempts(env: Environment)
    requires env.start == 0.0 && forall i :: env.ended(i) == 0.0 && env.jitter(i) == 0.0
    requires forall i :: 0 <= i < 2 ==> env.attempt(i).error.Some? && IsRetryable(env.attempt(i).error.value)
    ensures Wrapped(env, 3)
  {
    assert Delay(0) == 0.2 && Delay(1) == 0.4;
    assert GoesOn(env, 0) && GoesOn(env, 1) && !GoesOn(env, 2);
  }

  // How one failed insert_one is sorted
  function TypedInsertFailure(e: DriverError): Error {
    match e
    case DuplicateKey => Typed(InsertDuplicateKey, Some(e))
    case OperationFailure(code) => Typed(if code == LOCK_TIMEOUT_CODE then LockTimeout else DocumentInsert, Some(e))
    case TooLarge => Typed(InsertTooLarge, Some(e))
    case Unsent => Typed(Network, Some(e))
    case Dropped => Typed(Network, Some(e))
    case OtherDriver => Typed(DocumentInsert, Some(e))
  }

  /** An insert is repeated exactly when insert_one was never sent; only the two transient errors are let through. */
  lemma InsertRepeatedIffUnsent(e: DriverError)
    ensures IsRetryable(TypedInsertFailure(e)) <==> e == Unsent
    ensures TypedInsertFailure(e).kind == Network <==> e == Unsent || e == Dropped
    ensures TypedInsertFailure(e).kind == LockTimeout <==> e == OperationFailure(24)
    ensures TypedInsertFailure(e).kind == InsertDuplicateKey <==> e == DuplicateKey
    ensures TypedInsertFailure(e).kind == InsertTooLarge <==> e == TooLarge
    ensures TypedInsertFailure(e).kind !in {Network, LockTimeout, InsertDuplicateKey, InsertTooLarge} ==>
              TypedInsertFailure(e).kind == DocumentInsert
  {
  }

  // Reserving ids is reported as a read - a DocumentGetError - although it advances the counter
  function ReservationFailure(e: DriverError): Error {
    Typed(DocumentGet, Some(e))
  }

  /**
   A reservation is therefore repeated after a lost acknowledgement too: with three of them the counter
   advances three times for one call. (The ids in between are lost, not handed out twice.)
   */
  lemma ReservationMayApplyThrice()
    ensures exists env: Environment ::
              && (forall i :: env.attempt(i).error == Some(ReservationFailure(Dropped)))
              && Wrapped(env, 3) && Effects(env, 3, 0) == 3
  {
    var env := Environment(0.0, _ => Attempt(Some(ReservationFailure(Dropped)), 0, true), _ => 0.0, _ => 0.0);
    ThreeAttempts(env);
    assert Effects(env, 1, 0) == 1 && Effects(env, 2, 0) == 2 && Effects(env, 3, 0) == 3;
  }

  // A connection dropped in the middle of a command: raised as it is, or behind the error of one that reads
  const REPEATED_IN_DOUBT: set<Error> :=
    {Raw(Dropped), Typed(DocumentGet, Some(Dropped)), Typed(DocumentAggregation, Some(Dropped)),
     Typed(DatabaseConnection, Some(Dropped))}

  // An operation that fails once, at once, and succeeds when repeated
  function FailsOnce(e: Error): Environment {
    Environment(0.0, i => if i == 0 then Attempt(Some(e), 0, false) else Attempt(None, 1, false), _ => 0.0, _ => 0.0)
  }

  /**
   Exactly the errors that one repetition gets over: a command that was never sent, however that is reported, and
   those connections that broke where repeating does no harm.
   */
  lemma SurvivedIff(e: Error)
    ensures Wrapped(FailsOnce(e), 2) <==>
            e == Raw(Unsent) || (e.Typed? && e.cause == Some(Unsent)) || e in REPEATED_IN_DOUBT
  {
    var env := FailsOnce(e);
    assert Delay(0) == 0.2 && !GoesOn(env, 1);
    assert GoesOn(env, 0) <==> IsRetryable(e);
  }

  // A call of one command that always fails in the same way; what was not sent had no effect
  ghost predicate FailsWith(env: Environment, e: Error) {
    forall i :: var a := env.attempt(i); a.error == Some(e) && a.acknowledged == 0 && (UnsentError(e) ==> !a.last)
  }

  /**
   Exactly the errors under which a call may take effect more than once: a connection dropped in the middle of the
   command, raised as it is or behind a read's error.
   */
  lemma ErrorAppliesOnceIff(e: Error)
    ensures (forall env :: FailsWith(env, e) ==> AppliesAtMostOnce(env)) <==>
            e !in REPEATED_IN_DOUBT
  {
    if e in REPEATED_IN_DOUBT {
      var env := Environment(0.0, _ => Attempt(Some(e), 0, true), _ => 0.0, _ => 0.0);
      ThreeAttempts(env);
      assert FailsWith(env, e) && Effects(env, 1, 0) == 1 && Effects(env, 2, 0) == 2 && Effects(env, 3, 0) == 3;
      assert !AppliesAtMostOnce(env);
    } else {
      forall env, used, k | FailsWith(env, e) && Wrapped(env, used)
        ensures Effects(env, used, k) <= 1
      {
        SafeError(env, e, used, k);
      }
    }
  }

  lemma SafeError(env: Environment, e: Error, used: nat, k: nat)
    requires FailsWith(env, e) && Wrapped(env, used)
    requires e !in REPEATED_IN_DOUBT
    ensures Effects(env, used, k) <= 1
  {
    if UnsentError(e) {
      EffectsBounded(env, used, k);
    } else {
      assert env.attempt(0).error == Some(e) && !GoesOn(env, 0);
      assert used == 1;
      EffectsBounded(env, 0, k);
    }
  }
}
