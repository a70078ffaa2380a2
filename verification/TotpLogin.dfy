/**
 Two-factor login: lockout after repeated failures, the replay check and recovery codes.
 `src/voter_api/services/auth_service.py`, lines 61-205 and 753-866.

 Times are microseconds of a non-decreasing clock. Whether the first factor holds and what
 the TOTP library says about a code are inputs of each login.
 */
module TotpLogin {
  import opened Prelude

  type Instant = int

  const REPLAY_WINDOW: Instant := 30_000_000
  const MINUTE: Instant := 60_000_000
  const CODES_PER_CONFIRMATION := 10

  /** Settings as the configuration admits them: both limits are positive. */
  datatype Settings = Settings(maxAttempts: int, lockoutMinutes: int, encryptionKey: bool) {
    predicate Legal() {
      maxAttempts > 0 && lockoutMinutes > 0
    }

    function Lockout(): Instant {
      lockoutMinutes * MINUTE
    }
  }

  type Batch = s: seq<string> | |s| == CODES_PER_CONFIRMATION witness seq(CODES_PER_CONFIRMATION, i => "")

  /** SHA-256, taken to be injective. */
  datatype Digest = Sha256(raw: string)

  datatype RecoveryCode = RecoveryCode(digest: Digest, usedAt: Option<Instant>)

  datatype Credential = Credential(
    secret: string,
    verified: bool,
    failedAttempts: int,
    lockedUntil: Option<Instant>,
    lastUsedOtp: Option<string>,
    lastUsedOtpAt: Option<Instant>)

  /** What the database holds about one user's second factor. */
  datatype Account = Account(credential: Option<Credential>, codes: seq<RecoveryCode>)

  const NEW_ACCOUNT := Account(None, [])

  datatype Action =
    | Login(firstFactor: bool, code: Option<string>, valid: bool)
    | Enroll(secret: string)
    | Confirm(accepted: bool, issued: Batch)
    | Disable
    | Unlock

  datatype Event = Event(at: Instant, action: Action)

  datatype Outcome =
    | Rejected | PasswordOnly | CodeRequired | Misconfigured
    | BadRecoveryCode | RecoveryCodeUsed
    | StillLocked(until: Instant) | Replayed | WrongCode | LockedOut(until: Instant) | CodeAccepted
    | Enrolled | Confirmed | NotPending | ConfirmationFailed | Disabled | Unlocked

  function Cleared(c: Credential): Credential {
    c.(failedAttempts := 0, lockedUntil := None)
  }

  predicate IsUnused(c: RecoveryCode, d: Digest) {
    c.usedAt.None? && c.digest == d
  }

  predicate Redeemable(codes: seq<RecoveryCode>, d: Digest) {
    exists i :: 0 <= i < |codes| && IsUnused(codes[i], d)
  }

  /** The first unused row with the digest becomes used. */
  function Redeem(codes: seq<RecoveryCode>, d: Digest, at: Instant): (r: seq<RecoveryCode>)
    ensures |r| == |codes|
  {
    if codes == [] then []
    else if IsUnused(codes[0], d) then [codes[0].(usedAt := Some(at))] + codes[1..]
    else [codes[0]] + Redeem(codes[1..], d, at)
  }

  predicate LockedAt(c: Credential, now: Instant) {
    c.lockedUntil.Some? && c.lockedUntil.value > now
  }

  predicate IsReplay(c: Credential, code: string, now: Instant) {
    c.lastUsedOtp == Some(code) && c.lastUsedOtpAt.Some? && now - c.lastUsedOtpAt.value <= REPLAY_WINDOW
  }

  /** The six-digit path, once the credential is known to be verified. */
  function CheckOtp(cfg: Settings, c: Credential, code: string, valid: bool, now: Instant): (Credential, Outcome) {
    if LockedAt(c, now) then (c, StillLocked(c.lockedUntil.value))
    else if IsReplay(c, code, now) then (c, Replayed)
    else if !valid then
      if c.failedAttempts + 1 >= cfg.maxAttempts then
        (c.(failedAttempts := 0, lockedUntil := Some(now + cfg.Lockout())), LockedOut(now + cfg.Lockout()))
      else (c.(failedAttempts := c.failedAttempts + 1), WrongCode)
    else (Cleared(c).(lastUsedOtp := Some(code), lastUsedOtpAt := Some(now)), CodeAccepted)
  }

  function Authenticate(cfg: Settings, a: Account, e: Event): (Account, Outcome)
    requires e.action.Login?
  {
    var login := e.action;
    if !login.firstFactor then (a, Rejected)
    else if a.credential.None? || !a.credential.value.verified then (a, PasswordOnly)
    else if login.code.None? then (a, CodeRequired)
    else if !cfg.encryptionKey then (a, Misconfigured)
    else if |login.code.value| > 6 then
      var d := Sha256(login.code.value);
      if !Redeemable(a.codes, d) then (a, BadRecoveryCode)
      else (Account(Some(Cleared(a.credential.value)), Redeem(a.codes, d, e.at)), RecoveryCodeUsed)
    else
      var (c, outcome) := CheckOtp(cfg, a.credential.value, login.code.value, login.valid, e.at);
      (a.(credential := Some(c)), outcome)
  }

  function Issued(raw: seq<string>): (rows: seq<RecoveryCode>)
    ensures |rows| == |raw|
  {
    seq(|raw|, i requires 0 <= i < |raw| => RecoveryCode(Sha256(raw[i]), None))
  }

  function Step(cfg: Settings, a: Account, e: Event): (Account, Outcome) {
    match e.action
    case Login(_, _, _) => Authenticate(cfg, a, e)
    case Enroll(secret) => (Account(Some(Credential(secret, false, 0, None, None, None)), []), Enrolled)
    case Confirm(accepted, issued) =>
      if a.credential.None? then (a, NotPending)
      else if !accepted then (a, ConfirmationFailed)
      else (Account(Some(a.credential.value.(verified := true)), a.codes + Issued(issued)), Confirmed)
    case Disable => (NEW_ACCOUNT, Disabled)
    case Unlock =>
      (a.(credential := if a.credential.Some? then Some(Cleared(a.credential.value)) else None), Unlocked)
  }

  /** The account after a run, and the outcome of each event. */
  function Run(cfg: Settings, a: Account, es: seq<Event>): (r: (Account, seq<Outcome>))
    ensures |r.1| == |es|
    decreases |es|
  {
    if es == [] then (a, [])
    else
      var (next, o) := Step(cfg, a, es[0]);
      var (last, os) := Run(cfg, next, es[1..]);
      (last, [o] + os)
  }

  /** Events between two instants, on a clock that never runs backwards. */
  ghost predicate Timed(start: Instant, es: seq<Event>, end: Instant) {
    && start <= end
    && (forall i :: 0 <= i < |es| ==> start <= es[i].at <= end)
    && (forall i, j :: 0 <= i < j < |es| ==> es[i].at <= es[j].at)
  }

  // ---------------------------------------------------------------- lockout

  /** In every committed state: fewer than `maxAttempts` failures counted, and none while locked. */
  ghost predicate Sound(cfg: Settings, a: Account, now: Instant) {
    a.credential.Some? ==>
      var c := a.credential.value;
      && 0 <= c.failedAttempts < cfg.maxAttempts
      && (LockedAt(c, now) ==> c.failedAttempts == 0)
  }

  lemma {:induction false} StepSound(cfg: Settings, a: Account, e: Event, now: Instant)
    requires cfg.Legal() && Sound(cfg, a, now) && now <= e.at
    ensures Sound(cfg, Step(cfg, a, e).0, e.at)
  {
  }

  /** Every reachable account is sound at every later instant. */
  lemma {:induction false} RunSound(cfg: Settings, a: Account, es: seq<Event>, start: Instant, now: Instant)
    requires cfg.Legal() && Sound(cfg, a, start) && Timed(start, es, now)
    ensures Sound(cfg, Run(cfg, a, es).0, now)
    decreases |es|
  {
    if es != [] {
      StepSound(cfg, a, es[0], start);
      hide Step, Sound;
      RunSound(cfg, Step(cfg, a, es[0]).0, es[1..], es[0].at, now);
    }
  }

  predicate IsFailure(o: Outcome) {
    o.WrongCode? || o.LockedOut?
  }

  /** Failed login verifications among the outcomes. */
  function Failures(os: seq<Outcome>): nat {
    if os == [] then 0 else (if IsFailure(os[0]) then 1 else 0) + Failures(os[1..])
  }

  /** Failed confirmations are not counted and never lock: any number of them leaves the account as it is. */
  lemma {:induction false} ConfirmationsUncounted(cfg: Settings, a: Account, es: seq<Event>)
    requires a.credential.Some?
    requires forall i :: 0 <= i < |es| ==> es[i].action.Confirm? && !es[i].action.accepted
    ensures Run(cfg, a, es).0 == a && Failures(Run(cfg, a, es).1) == 0
    ensures forall i :: 0 <= i < |es| ==> Run(cfg, a, es).1[i] == ConfirmationFailed
    decreases |es|
  {
    if es != [] {
      var (next, o) := Step(cfg, a, es[0]);
      assert next == a && o == ConfirmationFailed;
      hide Step;
      ConfirmationsUncounted(cfg, a, es[1..]);
      var os, rest := Run(cfg, a, es).1, Run(cfg, a, es[1..]).1;
      assert os == [o] + rest;
      assert os[1..] == rest;
    }
  }

  /** Nothing in the stretch clears the lockout: no accepted login, unlock, enrolment or removal. */
  ghost predicate Undisturbed(es: seq<Event>, os: seq<Outcome>) {
    && (forall i :: 0 <= i < |es| ==> es[i].action.Login? || es[i].action.Confirm?)
    && (forall i :: 0 <= i < |os| ==> !os[i].CodeAccepted? && !os[i].RecoveryCodeUsed?)
  }

  /** How many failures the account can still absorb before `end`. */
  function Budget(cfg: Settings, a: Account, now: Instant, end: Instant): int
    requires cfg.Legal()
  {
    var M, L := cfg.maxAttempts, cfg.Lockout();
    if a.credential.None? then 0
    else if LockedAt(a.credential.value, now) then
      var u := a.credential.value.lockedUntil.value;
      if u > end then 0 else M * ((end - u) / L + 1)
    else M - a.credential.value.failedAttempts + M * ((end - now) / L)
  }

  lemma {:induction false} DivMonotone(x: int, y: int, d: int)
    requires 0 <= x <= y && d > 0
    ensures 0 <= x / d <= y / d
  {
    var p, q := x / d, y / d;
    assert x == d * p + x % d && y == d * q + y % d;
    assert d * (q + 1) == d * q + d;
    if p > q {
      MulMonotone(d, q + 1, p);
    }
    if p < 0 {
      MulMonotone(d, p, -1);
    }
  }

  lemma {:induction false} MulMonotone(m: int, x: int, y: int)
    requires 0 <= m && x <= y
    ensures m * x <= m * y
  {
  }

  lemma {:induction false} DivShift(x: int, d: int)
    requires 0 < d <= x
    ensures (x - d) / d + 1 == x / d
  {
    assert x == d * (x / d) + x % d;
    assert x - d == d * ((x - d) / d) + (x - d) % d;
    var q, r := x / d, (x - d) / d;
    assert d * (q - r - 1) == (x - d) % d - x % d;
    if q - r - 1 >= 1 { MulMonotone(d, 1, q - r - 1); }
    if q - r - 1 <= -1 { MulMonotone(d, q - r - 1, -1); }
  }

  /** Waiting never adds to the budget. */
  lemma {:induction false} BudgetWaits(cfg: Settings, a: Account, now: Instant, later: Instant, end: Instant)
    requires cfg.Legal() && Sound(cfg, a, now) && now <= later <= end
    ensures 0 <= Budget(cfg, a, later, end) <= Budget(cfg, a, now, end)
  {
    var M, L := cfg.maxAttempts, cfg.Lockout();
    DivMonotone(end - later, end - now, L);
    MulMonotone(M, (end - later) / L, (end - now) / L);
    MulMonotone(M, 0, (end - later) / L);
    if a.credential.Some? && LockedAt(a.credential.value, now) {
      var u := a.credential.value.lockedUntil.value;
      if u <= end {
        DivMonotone(0, end - u, L);
        MulMonotone(M, 0, (end - u) / L + 1);
        if u <= later {
          DivMonotone(end - later, end - u, L);
          MulMonotone(M, (end - later) / L + 1, (end - u) / L + 1);
          assert M * ((end - later) / L + 1) == M + M * ((end - later) / L);
        }
      }
    }
  }

  /** An undisturbing step spends one unit of budget when it is a failure and none otherwise. */
  lemma {:induction false} BudgetSpent(cfg: Settings, a: Account, e: Event, end: Instant)
    requires cfg.Legal() && Sound(cfg, a, e.at) && e.at <= end
    requires Undisturbed([e], [Step(cfg, a, e).1])
    ensures var (next, o) := Step(cfg, a, e);
      (if IsFailure(o) then 1 else 0) + Budget(cfg, next, e.at, end) <= Budget(cfg, a, e.at, end)
  {
    assert [e][0].action.Login? || [e][0].action.Confirm?;
    var (next, o) := Step(cfg, a, e);
    assert !([o][0]).CodeAccepted? && !([o][0]).RecoveryCodeUsed?;
    if o.LockedOut? {
      var M, L := cfg.maxAttempts, cfg.Lockout();
      assert a.credential.value.failedAttempts == M - 1;
      DivMonotone(0, end - e.at, L);
      MulMonotone(M, 0, (end - e.at) / L);
      if L <= end - e.at {
        DivShift(end - e.at, L);
      }
    } else if e.action.Confirm? && o.Confirmed? {
      assert Budget(cfg, next, e.at, end) == Budget(cfg, a, e.at, end);
    }
  }

  lemma {:induction false} FailuresWithinBudget(cfg: Settings, a: Account, es: seq<Event>, now: Instant, end: Instant)
    requires cfg.Legal() && Sound(cfg, a, now) && Timed(now, es, end)
    requires Undisturbed(es, Run(cfg, a, es).1)
    ensures Failures(Run(cfg, a, es).1) <= Budget(cfg, a, now, end)
    decreases |es|
  {
    BudgetWaits(cfg, a, now, if es == [] then end else es[0].at, end);
    if es != [] {
      var (next, o) := Step(cfg, a, es[0]);
      var os := Run(cfg, a, es).1;
      assert o == os[0] && os[1..] == Run(cfg, next, es[1..]).1;
      StepSound(cfg, a, es[0], now);
      assert Sound(cfg, a, es[0].at);
      hide Step, Sound, Budget;
      BudgetSpent(cfg, a, es[0], end);
      FailuresWithinBudget(cfg, next, es[1..], es[0].at, end);
    }
  }

  /** M failures at once and M more for every full lockout period. */
  function AttemptBound(cfg: Settings, T: Instant): int
    requires cfg.Legal()
  {
    cfg.maxAttempts * (T / cfg.Lockout() + 1)
  }

  lemma {:induction false} FullBudget(cfg: Settings, a: Account, start: Instant, T: Instant)
    requires cfg.Legal() && T >= 0 && Sound(cfg, a, start)
    ensures Budget(cfg, a, start, start + T) <= AttemptBound(cfg, T)
  {
    var M, L := cfg.maxAttempts, cfg.Lockout();
    DivMonotone(0, T, L);
    MulMonotone(M, 0, T / L + 1);
    assert M * (T / L + 1) == M + M * (T / L);
    if a.credential.Some? && LockedAt(a.credential.value, start) {
      var u := a.credential.value.lockedUntil.value;
      if u <= start + T {
        DivMonotone(start + T - u, T, L);
        MulMonotone(M, (start + T - u) / L + 1, T / L + 1);
      }
    }
  }

  /**
   From any reachable account, a stretch of length T with no accepted login, unlock or
   re-enrolment contains at most M * (floor(T / L) + 1) failed code verifications.
   */
  lemma {:induction false} FailureBound(cfg: Settings, history: seq<Event>, es: seq<Event>, origin: Instant, start: Instant, T: Instant)
    requires cfg.Legal() && Timed(origin, history, start) && Timed(start, es, start + T)
    requires Undisturbed(es, Run(cfg, Run(cfg, NEW_ACCOUNT, history).0, es).1)
    ensures Failures(Run(cfg, Run(cfg, NEW_ACCOUNT, history).0, es).1)
         <= cfg.maxAttempts * (T / (cfg.lockoutMinutes * 60_000_000) + 1)
  {
    assert AttemptBound(cfg, T) == cfg.maxAttempts * (T / (cfg.lockoutMinutes * 60_000_000) + 1);
    var a := Run(cfg, NEW_ACCOUNT, history).0;
    RunSound(cfg, NEW_ACCOUNT, history, origin, start);
    hide Run, Failures, Sound, AttemptBound, Budget, Timed, Undisturbed;
    FailuresWithinBudget(cfg, a, es, start, start + T);
    FullBudget(cfg, a, start, T);
  }

  lemma {:induction false} RunConcat(cfg: Settings, a: Account, x: seq<Event>, y: seq<Event>)
    ensures Run(cfg, a, x + y).0 == Run(cfg, Run(cfg, a, x).0, y).0
    ensures Run(cfg, a, x + y).1 == Run(cfg, a, x).1 + Run(cfg, Run(cfg, a, x).0, y).1
    decreases |x|
  {
    if x == [] {
      assert x + y == y;
    } else {
      var (next, o) := Step(cfg, a, x[0]);
      assert (x + y)[0] == x[0] && (x + y)[1..] == x[1..] + y;
      hide Step;
      RunConcat(cfg, next, x[1..], y);
    }
  }

  lemma {:induction false} FailuresConcat(x: seq<Outcome>, y: seq<Outcome>)
    ensures Failures(x + y) == Failures(x) + Failures(y)
  {
    if x == [] {
      assert x + y == y;
    } else {
      assert (x + y)[0] == x[0] && (x + y)[1..] == x[1..] + y;
      FailuresConcat(x[1..], y);
    }
  }

  function Guess(t: Instant): Event {
    Event(t, Login(true, Some("000000"), false))
  }

  function Burst(t: Instant, k: nat): (es: seq<Event>)
    ensures |es| == k && forall e :: e in es ==> e == Guess(t)
  {
    if k == 0 then [] else [Guess(t)] + Burst(t, k - 1)
  }

  /** `maxAttempts` wrong codes now and again as soon as each lockout ends. */
  function Campaign(cfg: Settings, t: Instant, n: nat): seq<Event>
    requires cfg.Legal()
    decreases n
  {
    Burst(t, cfg.maxAttempts) + if n == 0 then [] else Campaign(cfg, t + cfg.Lockout(), n - 1)
  }

  ghost predicate Guessable(a: Account, t: Instant) {
    a.credential.Some? && var c := a.credential.value;
      c.verified && !LockedAt(c, t) && c.lastUsedOtp.None?
  }

  lemma {:induction false} BurstLocks(cfg: Settings, a: Account, t: Instant, k: nat)
    requires cfg.Legal() && cfg.encryptionKey && Guessable(a, t) && 0 < k
    requires a.credential.value.failedAttempts == cfg.maxAttempts - k
    decreases k
    ensures var (after, os) := Run(cfg, a, Burst(t, k));
      && Failures(os) == k && (forall i :: 0 <= i < k ==> IsFailure(os[i]))
      && after == a.(credential := Some(a.credential.value.(failedAttempts := 0, lockedUntil := Some(t + cfg.Lockout()))))
  {
    var (next, o) := Step(cfg, a, Guess(t));
    assert Burst(t, k)[0] == Guess(t) && Burst(t, k)[1..] == Burst(t, k - 1);
    if k > 1 {
      BurstLocks(cfg, next, t, k - 1);
    } else {
      assert Burst(t, 0) == [];
    }
    var os := Run(cfg, a, Burst(t, k)).1;
    assert os[0] == o && os[1..] == Run(cfg, next, Burst(t, k - 1)).1;
    forall i | 0 <= i < k ensures IsFailure(os[i]) {
      if i > 0 {
        assert os[i] == os[1..][i - 1];
      }
    }
  }

  /** The undisturbed stretch `es` from `t` to `end` contains exactly `n` failures. */
  ghost predicate Spends(cfg: Settings, a: Account, t: Instant, es: seq<Event>, end: Instant, n: int) {
    Timed(t, es, end) && Undisturbed(es, Run(cfg, a, es).1) && Failures(Run(cfg, a, es).1) == n
  }

  lemma {:induction false} TimedConcat(t: Instant, b: seq<Event>, later: Instant, rest: seq<Event>, end: Instant)
    requires Timed(t, b, t) && t <= later && Timed(later, rest, end)
    ensures Timed(t, b + rest, end)
  {
  }

  lemma {:induction false} UndisturbedConcat(b: seq<Event>, bo: seq<Outcome>, rest: seq<Event>, ro: seq<Outcome>)
    requires Undisturbed(b, bo) && Undisturbed(rest, ro)
    ensures Undisturbed(b + rest, bo + ro)
  {
  }

  lemma {:induction false} SpendsConcat(cfg: Settings, a: Account, t: Instant, b: seq<Event>, m: int,
                                        later: Instant, rest: seq<Event>, end: Instant, n: int)
    requires Spends(cfg, a, t, b, t, m) && t <= later && Spends(cfg, Run(cfg, a, b).0, later, rest, end, n)
    ensures Spends(cfg, a, t, b + rest, end, m + n)
  {
    var (mid, os) := Run(cfg, a, b);
    hide Timed, Undisturbed, Run, Failures;
    TimedConcat(t, b, later, rest, end);
    UndisturbedConcat(b, os, rest, Run(cfg, mid, rest).1);
    RunConcat(cfg, a, b, rest);
    FailuresConcat(os, Run(cfg, mid, rest).1);
  }

  /** A full burst spends the whole allowance and leaves the account guessable after the lockout. */
  lemma {:induction false} BurstSpends(cfg: Settings, a: Account, t: Instant)
    requires cfg.Legal() && cfg.encryptionKey && Guessable(a, t) && a.credential.value.failedAttempts == 0
    ensures Spends(cfg, a, t, Burst(t, cfg.maxAttempts), t, cfg.maxAttempts)
    ensures var mid := Run(cfg, a, Burst(t, cfg.maxAttempts)).0;
      Guessable(mid, t + cfg.Lockout()) && mid.credential.value.failedAttempts == 0
  {
    BurstLocks(cfg, a, t, cfg.maxAttempts);
    hide Run, Failures;
    var b := Burst(t, cfg.maxAttempts);
    forall i | 0 <= i < |b| ensures b[i] == Guess(t) {
      assert b[i] in b;
    }
  }

  function CampaignEnd(cfg: Settings, t: Instant, n: nat): Instant {
    t + n * cfg.Lockout()
  }

  function CampaignFailures(cfg: Settings, n: nat): int {
    cfg.maxAttempts * (n + 1)
  }

  lemma {:induction false} FirstPeriod(cfg: Settings, t: Instant)
    requires cfg.Legal()
    ensures Campaign(cfg, t, 0) == Burst(t, cfg.maxAttempts)
    ensures CampaignEnd(cfg, t, 0) == t && CampaignFailures(cfg, 0) == cfg.maxAttempts
  {
  }

  lemma {:induction false} OneMorePeriod(cfg: Settings, t: Instant, n: nat)
    requires cfg.Legal() && n > 0
    ensures var next := t + cfg.Lockout();
      && t <= next && CampaignEnd(cfg, next, n - 1) == CampaignEnd(cfg, t, n)
      && cfg.maxAttempts + CampaignFailures(cfg, n - 1) == CampaignFailures(cfg, n)
      && Campaign(cfg, t, n) == Burst(t, cfg.maxAttempts) + Campaign(cfg, next, n - 1)
  {
    var L := cfg.Lockout();
    assert L + (n - 1) * L == n * L;
  }

  /** The bound is reached: over n full lockout periods M * (n + 1) failures do happen. */
  lemma {:induction false} BoundReached(cfg: Settings, a: Account, t: Instant, n: nat)
    requires cfg.Legal() && cfg.encryptionKey && Guessable(a, t) && a.credential.value.failedAttempts == 0
    ensures Spends(cfg, a, t, Campaign(cfg, t, n), CampaignEnd(cfg, t, n), CampaignFailures(cfg, n))
    decreases n
  {
    hide Run, Burst, Guessable, Spends, Campaign, CampaignEnd, CampaignFailures;
    var b, next := Burst(t, cfg.maxAttempts), t + cfg.Lockout();
    BurstSpends(cfg, a, t);
    if n == 0 {
      FirstPeriod(cfg, t);
    } else {
      OneMorePeriod(cfg, t, n);
      BoundReached(cfg, Run(cfg, a, b).0, next, n - 1);
      SpendsConcat(cfg, a, t, b, cfg.maxAttempts, next, Campaign(cfg, next, n - 1),
                   CampaignEnd(cfg, next, n - 1), CampaignFailures(cfg, n - 1));
    }
  }

  // ---------------------------------------------------------------- who gets in

  /** An unused recovery code. */
  ghost predicate HasUnused(a: Account, code: string) {
    exists i :: 0 <= i < |a.codes| && a.codes[i] == RecoveryCode(Sha256(code), None)
  }

  /** The code was accepted last, and at most 30 seconds ago. */
  predicate JustUsed(c: Credential, code: string, now: Instant) {
    c.lastUsedOtp == Some(code) && match c.lastUsedOtpAt case None => false case Some(at) => now - at <= 30_000_000
  }

  predicate Locked(c: Credential, now: Instant) {
    match c.lockedUntil case None => false case Some(until) => until > now
  }

  /**
   A login gets in exactly when the first factor holds and, for a verified credential, a code
   is given, the key is set and the code passes: a longer one when it is an unused recovery
   code, a six-digit one when it is valid, not just used, and the account is not locked.
   */
  lemma {:induction false} LoginGranted(cfg: Settings, a: Account, e: Event)
    requires e.action.Login?
    ensures var o, login := Step(cfg, a, e).1, e.action;
      (o == PasswordOnly || o == CodeAccepted || o == RecoveryCodeUsed)
      <==> login.firstFactor
           && (a.credential.Some? && a.credential.value.verified ==>
                 login.code.Some? && cfg.encryptionKey
                 && if |login.code.value| > 6 then HasUnused(a, login.code.value)
                    else login.valid && !JustUsed(a.credential.value, login.code.value, e.at) && !Locked(a.credential.value, e.at))
  {
    UnusedIsRedeemable(a, e.action.code.GetOr(""));
    hide Redeemable, HasUnused, Redeem;
  }

  lemma {:induction false} UnusedIsRedeemable(a: Account, code: string)
    ensures Redeemable(a.codes, Sha256(code)) <==> HasUnused(a, code)
  {
    if i :| 0 <= i < |a.codes| && IsUnused(a.codes[i], Sha256(code)) {
      assert a.codes[i] == RecoveryCode(Sha256(code), None);
    }
    if i :| 0 <= i < |a.codes| && a.codes[i] == RecoveryCode(Sha256(code), None) {
      assert IsUnused(a.codes[i], Sha256(code));
    }
  }

  /** What an accepted login leaves: no failures and no lock; a code is remembered, or a recovery code is used up. */
  lemma {:induction false} GrantedLeaves(cfg: Settings, a: Account, e: Event)
    requires e.action.Login?
    ensures var (next, o) := Step(cfg, a, e); var code := e.action.code.GetOr("");
      && (o == PasswordOnly ==> next == a && (a.credential.None? || !a.credential.value.verified))
      && (o == CodeAccepted || o == RecoveryCodeUsed ==>
            next.credential.Some? && next.credential.value.failedAttempts == 0 && next.credential.value.lockedUntil == None
            && a.credential.Some? && next.credential.value.secret == a.credential.value.secret && next.credential.value.verified)
      && (o == CodeAccepted ==>
            next.codes == a.codes && |code| <= 6
            && next.credential.value.lastUsedOtp == Some(code) && next.credential.value.lastUsedOtpAt == Some(e.at))
      && (o == RecoveryCodeUsed ==>
            next.codes == Redeem(a.codes, Sha256(code), e.at) && |code| > 6
            && next.credential.value.lastUsedOtp == a.credential.value.lastUsedOtp
            && next.credential.value.lastUsedOtpAt == a.credential.value.lastUsedOtpAt)
  {
    hide Redeem, Redeemable;
  }

  /**
   Why a login is refused. Only a wrong six-digit code leaves a trace: one more failure, or, at
   the limit, none and a lock for the configured minutes.
   */
  lemma {:induction false} LoginRefused(cfg: Settings, a: Account, e: Event)
    requires e.action.Login?
    ensures var (next, o) := Step(cfg, a, e); var code := e.action.code.GetOr("");
      && (o == Rejected <==> !e.action.firstFactor)
      && (e.action.firstFactor && a.credential.Some? && a.credential.value.verified ==>
            var c := a.credential.value;
            && (o == CodeRequired <==> e.action.code == None)
            && (e.action.code.Some? ==> (
                  && (o == Misconfigured <==> !cfg.encryptionKey)
                  && (cfg.encryptionKey && |code| > 6 ==> (o == BadRecoveryCode <==> !HasUnused(a, code)))
                  && (cfg.encryptionKey && |code| <= 6 ==> (
                        && (Locked(c, e.at) ==> o == StillLocked(c.lockedUntil.value))
                        && (!Locked(c, e.at) && JustUsed(c, code, e.at) ==> o == Replayed)
                        && (!Locked(c, e.at) && !JustUsed(c, code, e.at) && !e.action.valid ==>
                              if c.failedAttempts + 1 < cfg.maxAttempts then
                                o == WrongCode && next == a.(credential := Some(c.(failedAttempts := c.failedAttempts + 1)))
                              else
                                var until := e.at + cfg.lockoutMinutes * 60_000_000;
                                o == LockedOut(until)
                                && next == a.(credential := Some(c.(failedAttempts := 0, lockedUntil := Some(until))))))))))
      && (o in {Rejected, CodeRequired, Misconfigured, BadRecoveryCode, Replayed} || o.StillLocked? ==> next == a)
  {
    UnusedIsRedeemable(a, e.action.code.GetOr(""));
    hide Redeemable, HasUnused, Redeem;
  }

  /** What enrolment, confirmation, removal and unlocking leave of the account. */
  lemma {:induction false} AccountAfter(cfg: Settings, a: Account, e: Event)
    requires !e.action.Login?
    ensures var (next, o) := Step(cfg, a, e);
      match e.action
      case Login(_, _, _) => true
      case Enroll(secret) => o == Enrolled && next == Account(Some(Credential(secret, false, 0, None, None, None)), [])
      case Disable => o == Disabled && next.credential == None && next.codes == []
      case Unlock =>
        && o == Unlocked && next.codes == a.codes && (next.credential.None? <==> a.credential.None?)
        && (a.credential.Some? ==>
              next.credential.value.failedAttempts == 0 && next.credential.value.lockedUntil == None
              && next.credential.value.secret == a.credential.value.secret
              && next.credential.value.verified == a.credential.value.verified
              && next.credential.value.lastUsedOtp == a.credential.value.lastUsedOtp
              && next.credential.value.lastUsedOtpAt == a.credential.value.lastUsedOtpAt)
      case Confirm(accepted, issued) =>
        && (o == NotPending <==> a.credential.None?)
        && (o == Confirmed <==> a.credential.Some? && accepted)
        && (o != Confirmed ==> next == a)
        && (o == Confirmed ==>
              && next.credential == Some(a.credential.value.(verified := true))
              && |next.codes| == |a.codes| + 10 && next.codes[..|a.codes|] == a.codes
              && forall i :: 0 <= i < 10 ==> next.codes[|a.codes| + i] == RecoveryCode(Sha256(issued[i]), None))
  {
  }

  // ---------------------------------------------------------------- replay

  predicate Accepts(e: Event, o: Outcome, code: string) {
    e.action.Login? && o.CodeAccepted? && e.action.code == Some(code)
  }

  lemma {:induction false} AcceptsMeaning(e: Event, o: Outcome, code: string)
    ensures Accepts(e, o, code) <==> o == CodeAccepted && exists first, valid :: e.action == Login(first, Some(code), valid)
  {
    if e.action.Login? && e.action.code == Some(code) {
      assert e.action == Login(e.action.firstFactor, Some(code), e.action.valid);
    }
  }

  /** No enrolment or removal, and no accepted code other than `code`. */
  ghost predicate NoOtherCode(es: seq<Event>, os: seq<Outcome>, code: string) {
    && (forall i :: 0 <= i < |es| ==> !es[i].action.Enroll? && !es[i].action.Disable?)
    && (forall i :: 0 <= i < |es| && i < |os| ==> os[i].CodeAccepted? ==> Accepts(es[i], os[i], code))
  }

  /** The credential remembers that `code` was accepted at `t` or later. */
  ghost predicate Remembers(a: Account, code: string, t: Instant) {
    && a.credential.Some? && a.credential.value.lastUsedOtp == Some(code)
    && a.credential.value.lastUsedOtpAt.Some? && t <= a.credential.value.lastUsedOtpAt.value
  }

  lemma {:induction false} RememberedIsNotReplayed(cfg: Settings, a: Account, es: seq<Event>, code: string, t: Instant, end: Instant)
    requires Remembers(a, code, t) && Timed(t, es, end) && es != []
    requires NoOtherCode(es[..|es| - 1], Run(cfg, a, es).1[..|es| - 1], code)
    requires Accepts(es[|es| - 1], Run(cfg, a, es).1[|es| - 1], code)
    ensures es[|es| - 1].at - t > REPLAY_WINDOW
    decreases |es|
  {
    var (next, o) := Step(cfg, a, es[0]);
    var os := Run(cfg, a, es).1;
    if |es| > 1 {
      assert es[..|es| - 1][0] == es[0] && os[..|es| - 1][0] == o;
      assert Remembers(next, code, t);
      var rest, more := es[1..], Run(cfg, next, es[1..]).1;
      assert os[1..] == more;
      assert rest[..|rest| - 1] == es[..|es| - 1][1..] && more[..|rest| - 1] == os[..|es| - 1][1..];
      hide Step, Remembers, Run, Accepts;
      RememberedIsNotReplayed(cfg, next, rest, code, t, end);
    }
  }

  /**
   Two acceptances of the same code with no different code accepted between them are more
   than 30 seconds apart, whatever recovery logins, failures, lockouts and unlocks intervene.
   */
  lemma {:induction false} ReplaySpacing(cfg: Settings, a: Account, first: Event, es: seq<Event>, code: string, end: Instant)
    requires es != [] && Timed(first.at, es, end)
    requires Accepts(first, Step(cfg, a, first).1, code)
    requires var os := Run(cfg, Step(cfg, a, first).0, es).1;
      NoOtherCode(es[..|es| - 1], os[..|es| - 1], code) && Accepts(es[|es| - 1], os[|es| - 1], code)
    ensures es[|es| - 1].at - first.at > REPLAY_WINDOW
  {
    RememberedIsNotReplayed(cfg, Step(cfg, a, first).0, es, code, first.at, end);
  }

  datatype Acceptance = Acceptance(code: string, at: Instant)

  /** The last code accepted in a run since enrolment or removal; `first` is the one before the run. */
  function LastAccepted(first: Option<Acceptance>, es: seq<Event>, os: seq<Outcome>): Option<Acceptance>
    requires |es| == |os|
  {
    if es == [] then first
    else
      var k := |es| - 1;
      if es[k].action.Enroll? || es[k].action.Disable? then None
      else if es[k].action.Login? && es[k].action.code.Some? && os[k].CodeAccepted? then
        Some(Acceptance(es[k].action.code.value, es[k].at))
      else LastAccepted(first, es[..k], os[..k])
  }

  /** What the credential holds for the replay check. */
  function Memory(a: Account): Option<Acceptance> {
    if a.credential.Some? && a.credential.value.lastUsedOtp.Some? && a.credential.value.lastUsedOtpAt.Some? then
      Some(Acceptance(a.credential.value.lastUsedOtp.value, a.credential.value.lastUsedOtpAt.value))
    else None
  }

  lemma {:induction false} StepMemory(cfg: Settings, a: Account, e: Event)
    ensures Memory(Step(cfg, a, e).0) == LastAccepted(Memory(a), [e], [Step(cfg, a, e).1])
  {
    assert [e][..0] == [] && [Step(cfg, a, e).1][..0] == [];
  }

  lemma {:induction false} RunOne(cfg: Settings, a: Account, e: Event)
    ensures Run(cfg, a, [e]) == (Step(cfg, a, e).0, [Step(cfg, a, e).1])
  {
    hide Step;
    assert [e][1..] == [] && [Step(cfg, a, e).1] + [] == [Step(cfg, a, e).1];
    RunNothing(cfg, Step(cfg, a, e).0);
  }

  lemma {:induction false} RunLast(cfg: Settings, a: Account, es: seq<Event>, e: Event)
    ensures Run(cfg, a, es + [e]).0 == Step(cfg, Run(cfg, a, es).0, e).0
    ensures Run(cfg, a, es + [e]).1 == Run(cfg, a, es).1 + [Step(cfg, Run(cfg, a, es).0, e).1]
  {
    hide Run, Step;
    RunConcat(cfg, a, es, [e]);
    RunOne(cfg, Run(cfg, a, es).0, e);
  }

  /** The credential holds exactly the last acceptance, after every run. */
  lemma {:induction false} RunMemory(cfg: Settings, a: Account, es: seq<Event>)
    ensures Memory(Run(cfg, a, es).0) == LastAccepted(Memory(a), es, Run(cfg, a, es).1)
  {
    hide Step, Memory, Run;
    if es == [] {
      assert Run(cfg, a, es).0 == a by { RunNothing(cfg, a); }
    } else {
      var k := |es| - 1;
      assert es == es[..k] + [es[k]];
      var (mid, os) := Run(cfg, a, es[..k]);
      var o := Step(cfg, mid, es[k]).1;
      RunLast(cfg, a, es[..k], es[k]);
      RunMemory(cfg, a, es[..k]);
      StepMemory(cfg, mid, es[k]);
      assert (os + [o])[..k] == os;
    }
  }

  lemma {:induction false} RunNothing(cfg: Settings, a: Account)
    ensures Run(cfg, a, []) == (a, [])
  {
  }

  /**
   A valid code is refused as replayed exactly when it is the last code accepted and that was
   at most 30 seconds ago; otherwise it is accepted, whether or not it was accepted before.
   */
  lemma {:induction false} ReplayedExactly(cfg: Settings, a: Account, es: seq<Event>, code: string, now: Instant)
    requires cfg.encryptionKey && |code| <= 6
    requires var c := Run(cfg, a, es).0.credential; c.Some? && c.value.verified && !LockedAt(c.value, now)
    ensures var (mid, os) := Run(cfg, a, es);
      var outcome, last := Step(cfg, mid, Event(now, Login(true, Some(code), true))).1, LastAccepted(Memory(a), es, os);
      && (outcome == Replayed <==> last.Some? && last.value.code == code && now - last.value.at <= REPLAY_WINDOW)
      && (outcome != Replayed ==> outcome == CodeAccepted)
  {
    RunMemory(cfg, a, es);
    hide Run, LastAccepted;
  }

  /**
   Only the last code is remembered, and only for 30 seconds: a code can be accepted again
   at once after a different one, and a code that stays valid can be accepted again by itself
   31 seconds later.
   */
  lemma {:induction false} AcceptedTwice(cfg: Settings, a: Account, x: string, y: string, t: Instant)
    requires cfg.encryptionKey && a.credential.Some? && a.credential.value.verified
    requires a.credential.value.lockedUntil.None? && a.credential.value.lastUsedOtp.None?
    requires |x| == 6 && |y| == 6 && x != y
    ensures var second := 1_000_000;
      && Run(cfg, a, [Event(t, Login(true, Some(x), true)), Event(t + second, Login(true, Some(y), true)),
                      Event(t + 2 * second, Login(true, Some(x), true))]).1 == [CodeAccepted, CodeAccepted, CodeAccepted]
      && Run(cfg, a, [Event(t, Login(true, Some(x), true)), Event(t + 31 * second, Login(true, Some(x), true))]).1
         == [CodeAccepted, CodeAccepted]
  {
    var second := 1_000_000;
    var l0, l1, l2 := Event(t, Login(true, Some(x), true)), Event(t + second, Login(true, Some(y), true)), Event(t + 2 * second, Login(true, Some(x), true));
    var l3 := Event(t + 31 * second, Login(true, Some(x), true));
    RunOfThree(cfg, a, l0, l1, l2);
    RunOfThree(cfg, a, l0, l3, l3);
    RunConcat(cfg, a, [l0, l3], [l3]);
    assert [l0, l3] + [l3] == [l0, l3, l3];
    assert Run(cfg, a, [l0, l3]).1 == Run(cfg, a, [l0, l3, l3]).1[..2];
  }

  lemma {:induction false} RunOfThree(cfg: Settings, a: Account, e0: Event, e1: Event, e2: Event)
    ensures Run(cfg, a, [e0, e1, e2]).1
         == var (a1, o0) := Step(cfg, a, e0); var (a2, o1) := Step(cfg, a1, e1); [o0, o1, Step(cfg, a2, e2).1]
  {
    hide Step;
    assert [e0, e1, e2][1..] == [e1, e2] && [e1, e2][1..] == [e2] && [e2][1..] == [];
    var (a1, o0) := Step(cfg, a, e0);
    var (a2, o1) := Step(cfg, a1, e1);
    assert Run(cfg, a2, [e2]).1 == [Step(cfg, a2, e2).1];
    assert Run(cfg, a1, [e1, e2]).1 == [o1] + Run(cfg, a2, [e2]).1;
  }

  // ---------------------------------------------------------------- recovery codes

  /** Unused rows, of one digest or of all. */
  function Unused(codes: seq<RecoveryCode>, d: Option<Digest>): nat {
    if codes == [] then 0
    else (if codes[0].usedAt.None? && (d.None? || codes[0].digest == d.value) then 1 else 0) + Unused(codes[1..], d)
  }

  function CodeOf(e: Event): string {
    if e.action.Login? then e.action.code.GetOr("") else ""
  }

  /** Recovery logins, with one code or with any. */
  function Redemptions(es: seq<Event>, os: seq<Outcome>, d: Option<Digest>): nat
    requires |es| == |os|
  {
    if es == [] then 0
    else (if os[0].RecoveryCodeUsed? && (d.None? || Sha256(CodeOf(es[0])) == d.value) then 1 else 0)
         + Redemptions(es[1..], os[1..], d)
  }

  /** Codes handed out by successful confirmations. */
  function HandedOut(es: seq<Event>, os: seq<Outcome>, d: Option<Digest>): nat
    requires |es| == |os|
  {
    if es == [] then 0
    else (if es[0].action.Confirm? && os[0].Confirmed? then Unused(Issued(es[0].action.issued), d) else 0) + HandedOut(es[1..], os[1..], d)
  }

  function Confirmations(os: seq<Outcome>): nat {
    if os == [] then 0 else (if os[0].Confirmed? then 1 else 0) + Confirmations(os[1..])
  }

  ghost predicate NoReset(es: seq<Event>) {
    forall i :: 0 <= i < |es| ==> !es[i].action.Enroll? && !es[i].action.Disable?
  }

  lemma {:induction false} UnusedConcat(x: seq<RecoveryCode>, y: seq<RecoveryCode>, d: Option<Digest>)
    ensures Unused(x + y, d) == Unused(x, d) + Unused(y, d)
  {
    if x == [] {
      assert x + y == y;
    } else {
      assert (x + y)[0] == x[0] && (x + y)[1..] == x[1..] + y;
      UnusedConcat(x[1..], y, d);
    }
  }

  lemma {:induction false} AllUnused(raw: seq<string>)
    ensures Unused(Issued(raw), None) == |raw|
  {
    if raw != [] {
      assert Issued(raw)[1..] == Issued(raw[1..]);
      AllUnused(raw[1..]);
    }
  }

  /** Redeeming uses up exactly one row of that digest and touches no other. */
  lemma {:induction false} RedeemUsesOne(codes: seq<RecoveryCode>, d: Digest, at: Instant, f: Option<Digest>)
    requires Redeemable(codes, d)
    ensures Unused(Redeem(codes, d, at), f) == Unused(codes, f) - (if f.None? || f.value == d then 1 else 0)
  {
    if !IsUnused(codes[0], d) {
      var i :| 0 <= i < |codes| && IsUnused(codes[i], d);
      assert codes[1..][i - 1] == codes[i];
      RedeemUsesOne(codes[1..], d, at, f);
      assert Redeem(codes, d, at)[1..] == Redeem(codes[1..], d, at);
    } else {
      assert Redeem(codes, d, at)[1..] == codes[1..];
      if f.None? || f.value == d {
        assert Unused(codes, f) == 1 + Unused(codes[1..], f);
      }
    }
  }

  /** Rows keep their digest and their place, and a used row stays as it is. */
  ghost predicate RowsKept(was: seq<RecoveryCode>, now: seq<RecoveryCode>) {
    |was| <= |now| && forall i :: 0 <= i < |was| ==>
      now[i].digest == was[i].digest && (was[i].usedAt.Some? ==> now[i] == was[i])
  }

  lemma {:induction false} RedeemKeeps(codes: seq<RecoveryCode>, d: Digest, at: Instant)
    ensures RowsKept(codes, Redeem(codes, d, at))
  {
    if codes != [] && !IsUnused(codes[0], d) {
      RedeemKeeps(codes[1..], d, at);
      var r := Redeem(codes, d, at);
      forall i | 0 <= i < |codes| ensures r[i].digest == codes[i].digest && (codes[i].usedAt.Some? ==> r[i] == codes[i]) {
        if i > 0 {
          assert r[i] == Redeem(codes[1..], d, at)[i - 1] && codes[i] == codes[1..][i - 1];
        }
      }
    }
  }

  lemma {:induction false} RowsKeptTrans(x: seq<RecoveryCode>, y: seq<RecoveryCode>, z: seq<RecoveryCode>)
    requires RowsKept(x, y) && RowsKept(y, z)
    ensures RowsKept(x, z)
  {
  }

  /** One step's effect on the rows: what it uses up and what it adds. */
  lemma {:induction false} StepCodes(cfg: Settings, a: Account, e: Event, d: Option<Digest>)
    requires !e.action.Enroll? && !e.action.Disable?
    ensures var (next, o) := Step(cfg, a, e);
      && Unused(next.codes, d) + (if o.RecoveryCodeUsed? && (d.None? || Sha256(CodeOf(e)) == d.value) then 1 else 0)
         == Unused(a.codes, d) + (if e.action.Confirm? && o.Confirmed? then Unused(Issued(e.action.issued), d) else 0)
      && |next.codes| == |a.codes| + (if o.Confirmed? then CODES_PER_CONFIRMATION else 0)
      && RowsKept(a.codes, next.codes)
  {
    var (next, o) := Step(cfg, a, e);
    if o.RecoveryCodeUsed? {
      RedeemUsesOne(a.codes, Sha256(e.action.code.value), e.at, d);
      RedeemKeeps(a.codes, Sha256(e.action.code.value), e.at);
    } else if o.Confirmed? {
      UnusedConcat(a.codes, Issued(e.action.issued), d);
    }
  }

  /**
   Over any run without re-enrolment or removal, of each code and of all together: unused
   rows plus recovery logins equals unused rows before plus codes handed out; ten rows are
   added per confirmation; no used row ever becomes unused.
   */
  lemma {:induction false} RecoveryCodesConserved(cfg: Settings, a: Account, es: seq<Event>, d: Option<Digest>)
    requires NoReset(es)
    ensures var (after, os) := Run(cfg, a, es);
      && Unused(after.codes, d) + Redemptions(es, os, d) == Unused(a.codes, d) + HandedOut(es, os, d)
      && |after.codes| == |a.codes| + CODES_PER_CONFIRMATION * Confirmations(os)
      && RowsKept(a.codes, after.codes)
    decreases |es|
  {
    if es != [] {
      var (next, o) := Step(cfg, a, es[0]);
      StepCodes(cfg, a, es[0], d);
      hide Step, RowsKept;
      RecoveryCodesConserved(cfg, next, es[1..], d);
      assert Run(cfg, a, es).1[1..] == Run(cfg, next, es[1..]).1;
      RowsKeptTrans(a.codes, next.codes, Run(cfg, a, es).0.codes);
    }
  }

  /** A code is never redeemed more often than it was handed out since enrolment. */
  lemma {:induction false} RedeemedAtMostAsIssued(cfg: Settings, a: Account, secret: string, at: Instant, es: seq<Event>, raw: string)
    requires NoReset(es)
    ensures var (after, os) := Run(cfg, Step(cfg, a, Event(at, Enroll(secret))).0, es);
      && Redemptions(es, os, Some(Sha256(raw))) <= HandedOut(es, os, Some(Sha256(raw)))
      && |after.codes| == CODES_PER_CONFIRMATION * Confirmations(os)
  {
    RecoveryCodesConserved(cfg, Step(cfg, a, Event(at, Enroll(secret))).0, es, Some(Sha256(raw)));
  }

  // ---------------------------------------------------------------- the service

  type User = nat

  lemma {:induction false} RedeemSkips(codes: seq<RecoveryCode>, d: Digest, at: Instant, i: nat)
    requires i < |codes| && forall j :: 0 <= j < i ==> !IsUnused(codes[j], d)
    ensures IsUnused(codes[i], d) ==> Redeem(codes, d, at) == codes[i := codes[i].(usedAt := Some(at))]
  {
    if i > 0 {
      RedeemSkips(codes[1..], d, at, i - 1);
      assert codes == [codes[0]] + codes[1..];
    } else {
      assert codes == [codes[0]] + codes[1..];
    }
  }

  class TotpService {
    const settings: Settings
    var credentials: map<User, Credential>
    var codes: map<User, seq<RecoveryCode>>

    ghost function AccountOf(u: User): Account
      reads this
    {
      Account(if u in credentials then Some(credentials[u]) else None, if u in codes then codes[u] else [])
    }

    constructor (settings: Settings)
      ensures this.settings == settings && forall u :: AccountOf(u) == NEW_ACCOUNT
    {
      this.settings, credentials, codes := settings, map[], map[];
    }

    /** The user's unused rows are searched in order; the first match is marked used. */
    method RedeemRecoveryCode(u: User, raw: string, now: Instant) returns (ok: bool)
      modifies `codes
      ensures ok == Redeemable(old(AccountOf(u).codes), Sha256(raw))
      ensures AccountOf(u) == old(AccountOf(u)).(codes :=
                if ok then Redeem(old(AccountOf(u).codes), Sha256(raw), now) else old(AccountOf(u).codes))
      ensures forall v :: v != u ==> AccountOf(v) == old(AccountOf(v))
    {
      var rows := if u in codes then codes[u] else [];
      for i := 0 to |rows|
        invariant forall j :: 0 <= j < i ==> !IsUnused(rows[j], Sha256(raw))
        invariant codes == old(codes)
      {
        if IsUnused(rows[i], Sha256(raw)) {
          RedeemSkips(rows, Sha256(raw), now, i);
          codes := codes[u := rows[i := rows[i].(usedAt := Some(now))]];
          return true;
        }
      }
      ok := false;
    }

    /** `authenticate_user` from the first factor on; `valid` is what the TOTP library says of the code. */
    method AuthenticateUser(u: User, firstFactor: bool, code: Option<string>, valid: bool, now: Instant)
      returns (outcome: Outcome)
      modifies this
      ensures (AccountOf(u), outcome)
           == Authenticate(settings, old(AccountOf(u)), Event(now, Login(firstFactor, code, valid)))
      ensures forall v :: v != u ==> AccountOf(v) == old(AccountOf(v))
    {
      if !firstFactor { return Rejected; }
      if u !in credentials || !credentials[u].verified { return PasswordOnly; }
      if code.None? { return CodeRequired; }
      if !settings.encryptionKey { return Misconfigured; }
      var c := credentials[u];
      if |code.value| > 6 {
        hide Redeem, Redeemable;
        var ok := RedeemRecoveryCode(u, code.value, now);
        if !ok { return BadRecoveryCode; }
        credentials := credentials[u := c.(failedAttempts := 0, lockedUntil := None)];
        return RecoveryCodeUsed;
      }
      if c.lockedUntil.Some? && c.lockedUntil.value > now {
        return StillLocked(c.lockedUntil.value);
      }
      if c.lastUsedOtp == code && c.lastUsedOtpAt.Some? && now - c.lastUsedOtpAt.value <= REPLAY_WINDOW {
        return Replayed;
      }
      if !valid {
        c := c.(failedAttempts := c.failedAttempts + 1);
        if c.failedAttempts >= settings.maxAttempts {
          c := c.(lockedUntil := Some(now + settings.Lockout()), failedAttempts := 0);
          credentials := credentials[u := c];
          return LockedOut(c.lockedUntil.value);
        }
        credentials := credentials[u := c];
        return WrongCode;
      }
      credentials := credentials[u := c.(lastUsedOtp := code, lastUsedOtpAt := Some(now), failedAttempts := 0, lockedUntil := None)];
      outcome := CodeAccepted;
    }

    method EnrollTotp(u: User, secret: string, now: Instant)
      modifies this
      ensures AccountOf(u) == Step(settings, old(AccountOf(u)), Event(now, Enroll(secret))).0
      ensures forall v :: v != u ==> AccountOf(v) == old(AccountOf(v))
    {
      credentials, codes := credentials - {u}, codes - {u};
      credentials := credentials[u := Credential(secret, false, 0, None, None, None)];
    }

    /** `confirm_totp`; it adds ten rows each time, also for a credential that is verified already. */
    method ConfirmTotp(u: User, accepted: bool, raw: Batch, now: Instant) returns (outcome: Outcome)
      modifies this
      ensures (AccountOf(u), outcome) == Step(settings, old(AccountOf(u)), Event(now, Confirm(accepted, raw)))
      ensures forall v :: v != u ==> AccountOf(v) == old(AccountOf(v))
    {
      if u !in credentials { return NotPending; }
      if !accepted { return ConfirmationFailed; }
      credentials := credentials[u := credentials[u].(verified := true)];
      for i := 0 to |raw|
        invariant AccountOf(u) == Account(Some(old(credentials)[u].(verified := true)), old(AccountOf(u)).codes + Issued(raw)[..i])
        invariant forall v :: v != u ==> AccountOf(v) == old(AccountOf(v))
      {
        var rows := if u in codes then codes[u] else [];
        codes := codes[u := rows + [RecoveryCode(Sha256(raw[i]), None)]];
        assert Issued(raw)[..i + 1] == Issued(raw)[..i] + [Issued(raw)[i]];
      }
      assert Issued(raw)[..|raw|] == Issued(raw);
      outcome := Confirmed;
    }

    method DisableTotp(u: User)
      modifies this
      ensures AccountOf(u) == NEW_ACCOUNT
      ensures forall v :: v != u ==> AccountOf(v) == old(AccountOf(v))
    {
      credentials, codes := credentials - {u}, codes - {u};
    }

    method UnlockTotp(u: User, now: Instant)
      modifies `credentials
      ensures AccountOf(u) == Step(settings, old(AccountOf(u)), Event(now, Unlock)).0
      ensures forall v :: v != u ==> AccountOf(v) == old(AccountOf(v))
    {
      if u in credentials {
        credentials := credentials[u := credentials[u].(lockedUntil := None, failedAttempts := 0)];
      }
    }

    /** `get_recovery_code_count`. */
    method RecoveryCodeCount(u: User) returns (n: nat)
      ensures n == Unused(AccountOf(u).codes, None)
    {
      var rows := if u in codes then codes[u] else [];
      n := 0;
      for i := 0 to |rows|
        invariant n == Unused(rows[..i], None)
      {
        UnusedConcat(rows[..i], [rows[i]], None);
        assert rows[..i + 1] == rows[..i] + [rows[i]] && [rows[i]][1..] == [];
        if rows[i].usedAt.None? {
          n := n + 1;
        }
      }
      assert rows[..|rows|] == rows;
    }
  }
}
