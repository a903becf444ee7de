/**
  The phone's pairing state machine: PIN challenge, lockout after five wrong PINs, token issue.
  The clock and the random PIN and token are inputs.
*/
module Pairing {
  import opened Wrappers
  import opened Bytes

  const MAX_ATTEMPTS: nat := 5
  const LOCKOUT_MS: nat := 30_000
  const PIN_LENGTH: nat := 6

  datatype Phase = IDLE | AWAITING_PIN | PAIRED | LOCKED

  datatype PairingResult = OK | INVALID_PIN | LOCKED_OUT | NOT_AWAITING

  /** What generatePin draws. */
  predicate IsPin(s: string) {
    |s| == PIN_LENGTH && forall i :: 0 <= i < |s| ==> '0' <= s[i] <= '9'
  }

  /** Base64 of 32 random bytes: ASCII without '?'. */
  predicate IsToken(s: string) {
    s != "" && PlainAscii(s)
  }

  predicate PlainAscii(s: string) {
    forall i :: 0 <= i < |s| ==> s[i] < 128 as char && s[i] != '?'
  }

  /** Encoding to US-ASCII replaces what it cannot represent by '?'. */
  function AsciiBytes(s: string): (b: seq<byte>)
    ensures |b| == |s|
  {
    if s == "" then []
    else [if s[0] < 128 as char then s[0] as int else '?' as int] + AsciiBytes(s[1..])
  }

  /** MessageDigest.isEqual on the encodings. */
  predicate SameAscii(a: string, b: string) {
    AsciiBytes(a) == AsciiBytes(b)
  }

  /** Against a PIN or a token the comparison is exact. */
  lemma {:induction false} SameAsciiIsEquality(candidate: string, expected: string)
    requires PlainAscii(expected)
    ensures SameAscii(candidate, expected) <==> candidate == expected
  {
    var a, b := AsciiBytes(candidate), AsciiBytes(expected);
    if candidate != "" && expected != "" {
      assert a[0] == b[0] && a[1..] == b[1..] <==> a == b by {
        assert a == [a[0]] + a[1..] && b == [b[0]] + b[1..];
      }
      SameAsciiIsEquality(candidate[1..], expected[1..]);
      assert candidate == [candidate[0]] + candidate[1..] && expected == [expected[0]] + expected[1..];
    }
  }

  datatype State = State(
    phase: Phase,
    pin: Option<string>,
    token: Option<string>,
    failedAttempts: nat,
    lockUntilMs: int,
    fingerprint: Option<string>)

  const INITIAL: State := State(IDLE, None, None, 0, 0, None)

  /** What every call keeps: a token exists exactly while paired, and a PIN in every phase but IDLE. */
  ghost predicate Inv(s: State) {
    && (s.token.Some? <==> s.phase == PAIRED)
    && (s.phase != IDLE ==> s.pin.Some? && IsPin(s.pin.value))
    && (s.token.Some? ==> IsToken(s.token.value))
    && (s.phase == LOCKED ==> s.failedAttempts >= MAX_ATTEMPTS)
  }

  /** Leaves an expired lockout without clearing the attempt counter. */
  function AfterStart(s: State, fingerprint: string, now: int, newPin: string): (State, Option<string>) {
    if s.phase == LOCKED && now < s.lockUntilMs then (s, None)
    else (s.(phase := AWAITING_PIN, pin := Some(newPin), token := None, fingerprint := Some(fingerprint)), Some(newPin))
  }

  function AfterVerify(s: State, input: string, now: int, newToken: string): (State, PairingResult) {
    if s.phase == LOCKED && now < s.lockUntilMs then (s, LOCKED_OUT)
    else
      var s1 := if s.phase == LOCKED then s.(phase := AWAITING_PIN, failedAttempts := 0) else s;
      if s1.phase != AWAITING_PIN || s1.pin.None? then (s1, NOT_AWAITING)
      else if !SameAscii(input, s1.pin.value) then
        var failed := s1.failedAttempts + 1;
        if failed >= MAX_ATTEMPTS
        then (s1.(failedAttempts := failed, phase := LOCKED, lockUntilMs := now + LOCKOUT_MS), INVALID_PIN)
        else (s1.(failedAttempts := failed), INVALID_PIN)
      else (s1.(token := Some(newToken), phase := PAIRED, failedAttempts := 0), OK)
  }

  predicate TokenAccepted(s: State, candidate: Option<string>) {
    s.token.Some? && candidate.Some? && SameAscii(candidate.value, s.token.value)
  }

  // ---- Runs of calls ----

  datatype Op =
    | Start(fingerprint: string, now: int, newPin: string)
    | Verify(input: string, now: int, newToken: string)
    | Reset

  function Apply(s: State, op: Op): State {
    match op
    case Start(fp, now, pin) => AfterStart(s, fp, now, pin).0
    case Verify(input, now, token) => AfterVerify(s, input, now, token).0
    case Reset => INITIAL
  }

  predicate WellDrawn(op: Op) {
    match op
    case Start(_, _, pin) => IsPin(pin)
    case Verify(_, _, token) => IsToken(token)
    case Reset => true
  }

  function ApplyAll(s: State, ops: seq<Op>): State
    decreases |ops|
  {
    if ops == [] then s else ApplyAll(Apply(s, ops[0]), ops[1..])
  }

  /** Over every run of calls: token non-null exactly in state PAIRED. */
  lemma {:induction false} InvAlways(s: State, ops: seq<Op>)
    requires Inv(s) && forall i :: 0 <= i < |ops| ==> WellDrawn(ops[i])
    ensures Inv(ApplyAll(s, ops))
    decreases |ops|
  {
    if ops != [] { InvAlways(Apply(s, ops[0]), ops[1..]); }
  }

  // ---- The lockout rate ----

  predicate IsInvalid(s: State, op: Op) {
    op.Verify? && AfterVerify(s, op.input, op.now, op.newToken).1 == INVALID_PIN
  }

  predicate IsSuccess(s: State, op: Op) {
    op.Verify? && AfterVerify(s, op.input, op.now, op.newToken).1 == OK
  }

  /** How many wrong PINs a run gets to try. */
  function InvalidPins(s: State, ops: seq<Op>): nat
    decreases |ops|
  {
    if ops == [] then 0 else (if IsInvalid(s, ops[0]) then 1 else 0) + InvalidPins(Apply(s, ops[0]), ops[1..])
  }

  /** No reset, no success, and a clock that never goes back, all within [from, to]. */
  ghost predicate Guessing(s: State, ops: seq<Op>, from: int, to: int)
    decreases |ops|
  {
    if ops == [] then from <= to
    else
      && !ops[0].Reset? && !IsSuccess(s, ops[0])
      && from <= ops[0].now <= to
      && Guessing(Apply(s, ops[0]), ops[1..], ops[0].now, to)
  }

  /** After `locks` lockouts and `wrong` wrong PINs since `start`; `now` is the time of the last call. */
  ghost predicate Paced(s: State, start: int, now: int, wrong: nat, locks: nat) {
    if s.phase == LOCKED then
      && wrong <= MAX_ATTEMPTS * locks
      && (locks > 0 ==> now >= start + LOCKOUT_MS * (locks - 1) && s.lockUntilMs >= start + LOCKOUT_MS * locks)
    else
      && wrong <= MAX_ATTEMPTS * locks + (if s.failedAttempts < MAX_ATTEMPTS then s.failedAttempts else 0)
      && now >= start + LOCKOUT_MS * locks
  }

  lemma {:induction false} PacedStep(s: State, op: Op, start: int, now: int, wrong: nat, locks: nat)
    returns (locks': nat)
    requires Paced(s, start, now, wrong, locks) && start <= now
    requires !op.Reset? && !IsSuccess(s, op) && now <= op.now
    ensures Paced(Apply(s, op), start, op.now, wrong + (if IsInvalid(s, op) then 1 else 0), locks')
  {
    locks' := if IsInvalid(s, op) && Apply(s, op).phase == LOCKED then locks + 1 else locks;
  }

  lemma PacedBound(s: State, start: int, now: int, wrong: nat, locks: nat)
    requires Paced(s, start, now, wrong, locks) && start <= now
    ensures wrong <= MAX_ATTEMPTS * (1 + (now - start) / LOCKOUT_MS)
  {
    var periods := (now - start) / LOCKOUT_MS;
    assert now - start < LOCKOUT_MS * (periods + 1);
    assert locks <= periods + 1;
  }

  lemma {:induction false} PacedRun(s: State, ops: seq<Op>, start: int, now: int, to: int, wrong: nat, locks: nat)
    requires Paced(s, start, now, wrong, locks) && start <= now && Guessing(s, ops, now, to)
    ensures wrong + InvalidPins(s, ops) <= MAX_ATTEMPTS * (1 + (to - start) / LOCKOUT_MS)
    decreases |ops|
  {
    if ops == [] {
      PacedBound(s, start, now, wrong, locks);
      assert (now - start) / LOCKOUT_MS <= (to - start) / LOCKOUT_MS;
    } else {
      var locks' := PacedStep(s, ops[0], start, now, wrong, locks);
      var wrong' := wrong + if IsInvalid(s, ops[0]) then 1 else 0;
      PacedRun(Apply(s, ops[0]), ops[1..], start, ops[0].now, to, wrong', locks');
    }
  }

  /**
    In every window without a reset or a success - from any state, not only a new manager - at most five wrong
    PINs per started 30 seconds are tried, whichever way lockouts are left.
  */
  lemma LockoutRateBound(s: State, ops: seq<Op>, from: int, to: int)
    requires Guessing(s, ops, from, to)
    ensures InvalidPins(s, ops) <= MAX_ATTEMPTS * (1 + (to - from) / LOCKOUT_MS)
  {
    PacedRun(s, ops, from, from, to, 0, 0);
  }

  // ---- How a lockout begins and ends ----

  /** A shown PIN and n wrong ones since the counter was last cleared. */
  ghost predicate Showing(s: State, pin: string, n: nat) {
    s.phase == AWAITING_PIN && s.pin == Some(pin) && IsPin(pin) && s.failedAttempts == n
  }

  /**
    While a PIN is shown, OK is the answer to that PIN alone, and issues the token and clears the counter; any other
    input is counted, and from the fifth on locks for 30 seconds.
  */
  lemma ShownPinVerdict(s: State, pin: string, n: nat, input: string, now: int, newToken: string)
    requires Showing(s, pin, n)
    ensures var (after, verdict) := AfterVerify(s, input, now, newToken);
      && verdict == (if input == pin then OK else INVALID_PIN)
      && after == if input == pin then s.(phase := PAIRED, token := Some(newToken), failedAttempts := 0)
                  else if n < 4 then s.(failedAttempts := n + 1)
                  else s.(failedAttempts := n + 1, phase := LOCKED, lockUntilMs := now + 30_000)
  {
    SameAsciiIsEquality(input, pin);
  }

  /**
    The lockout ends 30 seconds after the fifth wrong PIN and no earlier. Until then every call is refused without
    effect. From then on the shown PIN is accepted, and a wrong one is the first of five; a new pairing may be started
    too, but that does not clear the counter: its first wrong PIN locks again.
  */
  lemma LockoutEndsIff(s: State, pin: string, n: nat, wrong: string, at: int, input: string, later: int,
                       newToken: string, newPin: string)
    requires Showing(s, pin, n) && n >= 4 && wrong != pin && IsPin(newPin)
    ensures var locked := AfterVerify(s, wrong, at, newToken).0;
            var (verified, verdict) := AfterVerify(locked, input, later, newToken);
            var (started, shown) := AfterStart(locked, "", later, newPin);
      if later < at + 30_000 then
        (verified, verdict) == (locked, LOCKED_OUT) && (started, shown) == (locked, None)
      else
        && (verdict == OK <==> input == pin)
        && (input == pin ==>
              verified.phase == PAIRED && verified.token == Some(newToken) && verified.failedAttempts == 0)
        && (input != pin ==> verdict == INVALID_PIN && Showing(verified, pin, 1))
        && shown == Some(newPin) && Showing(started, newPin, n + 1)
        && (input != newPin ==> AfterVerify(started, input, later, newToken).0.phase == LOCKED)
  {
    SameAsciiIsEquality(wrong, pin);
    SameAsciiIsEquality(input, pin);
    SameAsciiIsEquality(input, newPin);
  }

  /** With no PIN out there is nothing to verify, and a pairing stands until a new one is started. */
  lemma NothingToVerify(s: State, input: string, now: int, newToken: string)
    requires s.phase == IDLE || s.phase == PAIRED
    ensures AfterVerify(s, input, now, newToken) == (s, NOT_AWAITING)
  {
  }

  /** Outside a lockout, starting shows the drawn PIN for this client and revokes any token. */
  lemma StartShows(s: State, client: string, now: int, newPin: string)
    requires (s.phase == LOCKED ==> now >= s.lockUntilMs) && IsPin(newPin)
    ensures var (after, shown) := AfterStart(s, client, now, newPin);
      && shown == Some(newPin) && Showing(after, newPin, s.failedAttempts)
      && after.token == None && after.fingerprint == Some(client)
  {
  }

  // ---- The mutable manager ----

  class PairingManager {
    var phase: Phase
    var currentPin: Option<string>
    var authToken: Option<string>
    var failedAttempts: nat
    var lockUntilMs: int
    var pairedClientFingerprint: Option<string>

    constructor ()
      ensures Value() == INITIAL
    {
      phase, currentPin, authToken, failedAttempts := IDLE, None, None, 0;
      lockUntilMs, pairedClientFingerprint := 0, None;
    }

    function Value(): State
      reads this
    {
      State(phase, currentPin, authToken, failedAttempts, lockUntilMs, pairedClientFingerprint)
    }

    method StartPairing(clientFingerprint: string, now: int, newPin: string) returns (pin: Option<string>)
      modifies this
      ensures (Value(), pin) == AfterStart(old(Value()), clientFingerprint, now, newPin)
    {
      if phase == LOCKED && now < lockUntilMs {
        return None;
      }
      phase := AWAITING_PIN;
      currentPin := Some(newPin);
      authToken := None;
      pairedClientFingerprint := Some(clientFingerprint);
      pin := currentPin;
    }

    method VerifyPin(input: string, now: int, newToken: string) returns (result: PairingResult)
      modifies this
      ensures (Value(), result) == AfterVerify(old(Value()), input, now, newToken)
    {
      if phase == LOCKED {
        if now < lockUntilMs {
          return LOCKED_OUT;
        }
        phase := AWAITING_PIN;
        failedAttempts := 0;
      }
      if phase != AWAITING_PIN {
        return NOT_AWAITING;
      }
      var expected := currentPin;
      if expected.None? {
        return NOT_AWAITING;
      }
      if !SameAscii(input, expected.value) {
        failedAttempts := failedAttempts + 1;
        if failedAttempts >= MAX_ATTEMPTS {
          phase := LOCKED;
          lockUntilMs := now + LOCKOUT_MS;
        }
        return INVALID_PIN;
      }
      authToken := Some(newToken);
      phase := PAIRED;
      failedAttempts := 0;
      result := OK;
    }

    method IsTokenValid(candidate: Option<string>) returns (valid: bool)
      ensures valid == TokenAccepted(Value(), candidate)
    {
      if authToken.None? {
        return false;
      }
      valid := candidate.Some? && SameAscii(candidate.value, authToken.value);
    }

    method Reset()
      modifies this
      ensures Value() == INITIAL
    {
      phase, currentPin, authToken, failedAttempts := IDLE, None, None, 0;
      lockUntilMs, pairedClientFingerprint := 0, None;
    }
  }
}
