/** The login lockout: a counter of wrong passwords, a deadline and the clock. */
module Lockout {
  import opened Options

  const LOCK_MS: int := 900000
  const MINUTE_MS: int := 60000

  datatype Account = Account(failedAttempts: nat, lockoutUntil: Option<int>)

  const NEW_ACCOUNT := Account(0, None)

  /** The configured limit as `parseInt` reads it: None is NaN, which no counter ever reaches. */
  type Limit = Option<int>

  /**
   One request on the account.  A login reads the clock when it checks the lock
   and again, not earlier, when it reports or sets a deadline.
   */
  datatype Event =
    | Login(check: int, later: int, matches: bool, twoFactor: bool)
    | Verified2fa(check: int, later: int)

  datatype Answer = Locked(minutesLeft: int) | LockedNow | Invalid | TwoFactorRequired | LoggedIn

  predicate IsLocked(a: Account, now: int) {
    a.lockoutUntil.Some? && a.lockoutUntil.value > now
  }

  /** `Math.ceil(ms / 60000)` */
  function MinutesLeft(ms: int): int {
    (ms + MINUTE_MS - 1) / MINUTE_MS
  }

  predicate Reached(attempts: nat, limit: Limit) {
    limit.Some? && attempts >= limit.value
  }

  function Step(a: Account, e: Event, limit: Limit): (Account, Answer) {
    match e
    case Verified2fa(_, _) => (NEW_ACCOUNT, LoggedIn)
    case Login(check, later, matches, twoFactor) =>
      if IsLocked(a, check) then (a, Locked(MinutesLeft(a.lockoutUntil.value - later)))
      else if !matches then
        if Reached(a.failedAttempts + 1, limit) then (Account(0, Some(later + LOCK_MS)), LockedNow)
        else (Account(a.failedAttempts + 1, None), Invalid)
      else if twoFactor then (a, TwoFactorRequired)
      else (NEW_ACCOUNT, LoggedIn)
  }

  class UserRow {
    var failedLoginAttempts: nat
    var lockoutUntil: Option<int>

    function State(): Account
      reads this
    {
      Account(failedLoginAttempts, lockoutUntil)
    }

    method Login(check: int, later: int, matches: bool, twoFactor: bool, limit: Limit) returns (answer: Answer)
      modifies this
      ensures (State(), answer) == Step(old(State()), Event.Login(check, later, matches, twoFactor), limit)
    {
      if lockoutUntil.Some? && lockoutUntil.value > check {
        return Locked(MinutesLeft(lockoutUntil.value - later));
      }
      if !matches {
        var failedAttempts := failedLoginAttempts + 1;
        var until: Option<int> := None;
        if limit.Some? && failedAttempts >= limit.value {
          until := Some(later + LOCK_MS);
          failedAttempts := 0;
        }
        failedLoginAttempts, lockoutUntil := failedAttempts, until;
        return if until.Some? then LockedNow else Invalid;
      }
      if twoFactor {
        return TwoFactorRequired;
      }
      failedLoginAttempts, lockoutUntil := 0, None;
      return LoggedIn;
    }

    method Verify2fa(check: int, later: int, limit: Limit) returns (answer: Answer)
      modifies this
      ensures (State(), answer) == Step(old(State()), Verified2fa(check, later), limit)
    {
      failedLoginAttempts, lockoutUntil := 0, None;
      return LoggedIn;
    }
  }

  // -------------------------------------------------------------------- runs

  /** The clock never runs backwards, within a request and from one to the next. */
  predicate InOrder(run: seq<Event>, now: int)
    decreases |run|
  {
    run == [] || (now <= run[0].check <= run[0].later && InOrder(run[1..], run[0].later))
  }

  /** A password was compared and found wrong. */
  predicate WrongCompared(a: Account, e: Event) {
    e.Login? && !e.matches && !IsLocked(a, e.check)
  }

  predicate Resets(a: Account, e: Event) {
    e.Verified2fa? || (e.matches && !e.twoFactor && !IsLocked(a, e.check))
  }

  /** Wrong passwords compared with the lock checked in the window lo..hi. */
  function CountWrong(a: Account, run: seq<Event>, limit: Limit, lo: int, hi: int): nat
    decreases |run|
  {
    if run == [] then 0
    else
      (if WrongCompared(a, run[0]) && lo <= run[0].check <= hi then 1 else 0)
      + CountWrong(Step(a, run[0], limit).0, run[1..], limit, lo, hi)
  }

  /** Logins completed in the window; each of them clears counter and deadline. */
  function CountResets(a: Account, run: seq<Event>, limit: Limit, lo: int, hi: int): nat
    decreases |run|
  {
    if run == [] then 0
    else
      (if Resets(a, run[0]) && lo <= run[0].check <= hi then 1 else 0)
      + CountResets(Step(a, run[0], limit).0, run[1..], limit, lo, hi)
  }

  /** A lock in force stands for at most 15 more minutes, with the counter at zero. */
  predicate Sane(a: Account, now: int) {
    IsLocked(a, now) ==> a.failedAttempts == 0 && a.lockoutUntil.value <= now + LOCK_MS
  }

  lemma StepStaysSane(a: Account, e: Event, limit: Limit, now: int)
    requires Sane(a, now) && now <= e.check <= e.later
    ensures Sane(Step(a, e, limit).0, e.later)
  {
  }

  /**
   A login turned away by the lock changes nothing.  It reports the time left in
   minutes, rounded up: at most 15, and at least 1 exactly when the deadline has
   not passed between the two readings of the clock.
   */
  lemma LockedReport(a: Account, e: Event, limit: Limit, now: int)
    requires Sane(a, now) && e.Login? && now <= e.check <= e.later && IsLocked(a, e.check)
    ensures var (a', answer) := Step(a, e, limit);
      && a' == a && answer.Locked? && answer.minutesLeft <= 15
      && (forall k :: 60000 * k >= a.lockoutUntil.value - e.later <==> k >= answer.minutesLeft)
      && (1 <= answer.minutesLeft <==> e.later < a.lockoutUntil.value)
  {
  }

  // ---------------------------------------------------------------- the bound

  /** The attempts left before the next lock. */
  function Remaining(a: Account, m: nat): nat {
    if a.failedAttempts < m then m - a.failedAttempts else 1
  }

  function Max(a: int, b: int): int {
    if a > b then a else b
  }

  /** The earliest moment a password can be compared. */
  function Opening(a: Account, now: int): int {
    if a.lockoutUntil.Some? then Max(now, a.lockoutUntil.value) else now
  }

  /** Full locks that fit between two moments. */
  function Locks(from: int, to: int): nat
    requires from <= to
  {
    (to - from) / LOCK_MS
  }

  /** What may still be compared until hi: the rest of this round, a round per further lock, a round per reset. */
  function Budget(a: Account, m: nat, now: int, hi: int, resets: nat): nat {
    m * resets + if Opening(a, now) > hi then 0 else Remaining(a, m) + m * Locks(Opening(a, now), hi)
  }

  lemma MulMonotone(m: nat, x: nat, y: nat)
    requires x <= y
    ensures m * x <= m * y
  {
  }

  /** A later opening leaves no more budget. */
  lemma LaterIsLess(m: nat, from: int, from': int, hi: int)
    requires from <= from' <= hi
    ensures m * Locks(from', hi) <= m * Locks(from, hi)
    ensures from + LOCK_MS <= from' ==> m * Locks(from', hi) + m <= m * Locks(from, hi)
  {
    MulMonotone(m, Locks(from', hi), Locks(from, hi));
    if from + LOCK_MS <= from' {
      MulMonotone(m, Locks(from', hi) + 1, Locks(from, hi));
    }
  }

  /** One event never gains budget: it pays for the comparison it makes. */
  lemma EventPays(a: Account, e: Event, m: nat, now: int, hi: int, resets: nat)
    requires m >= 1 && Sane(a, now) && now <= e.check <= e.later
    ensures var a' := Step(a, e, Some(m)).0;
      var paid := if WrongCompared(a, e) && e.check <= hi then 1 else 0;
      var spent := if Resets(a, e) && e.check <= hi then 1 else 0;
      paid + Budget(a', m, e.later, hi, resets) <= Budget(a, m, now, hi, resets + spent)
  {
    var a' := Step(a, e, Some(m)).0;
    var open, open' := Opening(a, now), Opening(a', e.later);
    if open' <= hi {
      if open <= open' {
        LaterIsLess(m, open, open', hi);
      } else {
        assert Resets(a, e) && open <= e.check + LOCK_MS;
        if open <= hi {
          MulMonotone(m, Locks(open', hi), Locks(open, hi) + 1);
        }
      }
    }
  }

  lemma {:induction false} WrongWithinBudget(a: Account, run: seq<Event>, m: nat, now: int, lo: int, hi: int)
    requires m >= 1 && Sane(a, now) && InOrder(run, now) && lo <= now
    ensures CountWrong(a, run, Some(m), lo, hi) <= Budget(a, m, now, hi, CountResets(a, run, Some(m), lo, hi))
    decreases |run|
  {
    if run != [] {
      var e := run[0];
      var a' := Step(a, e, Some(m)).0;
      StepStaysSane(a, e, Some(m), now);
      WrongWithinBudget(a', run[1..], m, e.later, lo, hi);
      EventPays(a, e, m, now, hi, CountResets(a', run[1..], Some(m), lo, hi));
    }
  }

  lemma {:induction false} BoundFromOne(a: Account, run: seq<Event>, m: nat, now: int, lo: int, hi: int)
    requires m >= 1 && Sane(a, now) && InOrder(run, now) && lo <= hi
    ensures CountWrong(a, run, Some(m), lo, hi) <= m * ((hi - lo) / LOCK_MS + 1 + CountResets(a, run, Some(m), lo, hi))
    decreases |run|
  {
    if run != [] {
      var e := run[0];
      var a' := Step(a, e, Some(m)).0;
      StepStaysSane(a, e, Some(m), now);
      if e.check < lo {
        BoundFromOne(a', run[1..], m, e.later, lo, hi);
      } else {
        var resets := CountResets(a, run, Some(m), lo, hi);
        assert Sane(a, e.check);
        WrongWithinBudget(a, run, m, e.check, lo, hi);
        BudgetAtMost(a, m, e.check, lo, hi, resets);
      }
    }
  }

  lemma BudgetAtMost(a: Account, m: nat, now: int, lo: int, hi: int, resets: nat)
    requires m >= 1 && lo <= now && lo <= hi
    ensures Budget(a, m, now, hi, resets) <= m * ((hi - lo) / LOCK_MS + 1 + resets)
  {
    var open := Opening(a, now);
    if open <= hi {
      LaterIsLess(m, lo, open, hi);
    }
    assert m * ((hi - lo) / LOCK_MS + 1 + resets) == m * ((hi - lo) / LOCK_MS) + m + m * resets;
  }

  /** The attempts a numeric limit allows: the first wrong password locks already when it is 1 or less. */
  function Allowed(limit: Limit): nat
    requires limit.Some?
  {
    if limit.value > 1 then limit.value else 1
  }

  /** A limit below 1 acts like 1. */
  lemma {:induction false} SmallLimitActsLikeOne(a: Account, run: seq<Event>, limit: Limit, lo: int, hi: int)
    requires limit.Some?
    ensures CountWrong(a, run, limit, lo, hi) == CountWrong(a, run, Some(Allowed(limit)), lo, hi)
    ensures CountResets(a, run, limit, lo, hi) == CountResets(a, run, Some(Allowed(limit)), lo, hi)
    decreases |run|
  {
    if run != [] {
      var a' := Step(a, run[0], limit).0;
      assert a' == Step(a, run[0], Some(Allowed(limit))).0;
      SmallLimitActsLikeOne(a', run[1..], limit, lo, hi);
    }
  }

  /**
   The rate bound, for every limit that is a number.  The wrong passwords compared
   in any window of `hi - lo` milliseconds number at most the allowed attempts for
   each started 15 minutes, plus as many for each completed login in the window.
   */
  lemma LockoutRateBound(a: Account, run: seq<Event>, limit: Limit, now: int, lo: int, hi: int)
    requires limit.Some? && Sane(a, now) && InOrder(run, now) && lo <= hi
    ensures CountWrong(a, run, limit, lo, hi)
      <= Allowed(limit) * ((hi - lo) / LOCK_MS + 1 + CountResets(a, run, limit, lo, hi))
  {
    SmallLimitActsLikeOne(a, run, limit, lo, hi);
    BoundFromOne(a, run, Allowed(limit), now, lo, hi);
  }

  predicate OnlyGuesses(run: seq<Event>) {
    forall e | e in run :: e.Login? && !e.matches
  }

  /** In particular, somebody who never guesses right gets the allowed tries per started 15 minutes. */
  lemma GuessingBound(run: seq<Event>, limit: Limit, now: int, lo: int, hi: int)
    requires limit.Some? && InOrder(run, now) && lo <= hi && OnlyGuesses(run)
    ensures CountWrong(NEW_ACCOUNT, run, limit, lo, hi) <= Allowed(limit) * ((hi - lo) / LOCK_MS + 1)
  {
    LockoutRateBound(NEW_ACCOUNT, run, limit, now, lo, hi);
    NoResets(NEW_ACCOUNT, run, limit, lo, hi);
  }

  lemma {:induction false} NoResets(a: Account, run: seq<Event>, limit: Limit, lo: int, hi: int)
    requires OnlyGuesses(run)
    ensures CountResets(a, run, limit, lo, hi) == 0
    decreases |run|
  {
    if run != [] {
      assert run[0] in run && forall e | e in run[1..] :: e in run;
      NoResets(Step(a, run[0], limit).0, run[1..], limit, lo, hi);
    }
  }

  /** A limit that does not parse as a number switches the lockout off: every guess is compared. */
  lemma {:induction false} UnparsableLimitNeverLocks(a: Account, run: seq<Event>, lo: int, hi: int)
    requires a.lockoutUntil.None?
    requires forall e | e in run :: e.Login? && !e.matches && lo <= e.check <= hi
    ensures CountWrong(a, run, None, lo, hi) == |run|
    decreases |run|
  {
    if run != [] {
      assert run[0] in run && forall e | e in run[1..] :: e in run;
      UnparsableLimitNeverLocks(Step(a, run[0], None).0, run[1..], lo, hi);
    }
  }

  /** n guesses, all at one moment. */
  function Guesses(n: nat, at: int): (run: seq<Event>)
    ensures |run| == n && OnlyGuesses(run) && InOrder(run, at)
    ensures forall e | e in run :: e.check == at
  {
    if n == 0 then [] else [Login(at, at, false, false)] + Guesses(n - 1, at)
  }

  /** No run of guesses has more of them compared in the window. */
  ghost predicate BoundedBy(limit: Limit, lo: int, hi: int, bound: nat) {
    forall run, now | InOrder(run, now) && OnlyGuesses(run) ::
      CountWrong(NEW_ACCOUNT, run, limit, lo, hi) <= bound
  }

  /** Guessing is bounded, in whatever window, exactly when the configured limit is a number. */
  lemma GuessingIsBoundedExactlyWhen(limit: Limit, lo: int, hi: int)
    requires lo <= hi
    ensures (exists bound: nat :: BoundedBy(limit, lo, hi, bound)) <==> limit.Some?
  {
    if limit.Some? {
      var bound: nat := Allowed(limit) * ((hi - lo) / LOCK_MS + 1);
      forall run, now | InOrder(run, now) && OnlyGuesses(run)
        ensures CountWrong(NEW_ACCOUNT, run, limit, lo, hi) <= bound
      {
        GuessingBound(run, limit, now, lo, hi);
      }
      assert BoundedBy(limit, lo, hi, bound);
    } else {
      forall bound: nat ensures !BoundedBy(limit, lo, hi, bound) {
        var run := Guesses(bound + 1, lo);
        UnparsableLimitNeverLocks(NEW_ACCOUNT, run, lo, hi);
        assert InOrder(run, lo) && OnlyGuesses(run) && CountWrong(NEW_ACCOUNT, run, limit, lo, hi) > bound;
      }
    }
  }

  // ------------------------------------------------------------- exact answers

  function After(a: Account, run: seq<Event>, limit: Limit): Account
    decreases |run|
  {
    if run == [] then a else After(Step(a, run[0], limit).0, run[1..], limit)
  }

  /** The answer to the event at position k of a run on a new account. */
  function AnswerAt(run: seq<Event>, limit: Limit, k: nat): Answer
    requires k < |run|
  {
    Step(After(NEW_ACCOUNT, run[..k], limit), run[k], limit).1
  }

  lemma {:induction false} AfterOneMore(a: Account, run: seq<Event>, e: Event, limit: Limit)
    ensures After(a, run + [e], limit) == Step(After(a, run, limit), e, limit).0
    decreases |run|
  {
    if run == [] {
      assert [e][1..] == [] && [] + [e] == [e];
    } else {
      AfterOneMore(Step(a, run[0], limit).0, run[1..], e, limit);
      assert (run + [e])[1..] == run[1..] + [e];
    }
  }

  lemma AfterNext(run: seq<Event>, limit: Limit, k: nat)
    requires k < |run|
    ensures After(NEW_ACCOUNT, run[..k + 1], limit) == Step(After(NEW_ACCOUNT, run[..k], limit), run[k], limit).0
  {
    AfterOneMore(NEW_ACCOUNT, run[..k], run[k], limit);
    assert run[..k + 1] == run[..k] + [run[k]];
  }

  /** Every event of the run is a wrong guess that was compared. */
  predicate AllCompared(run: seq<Event>, limit: Limit) {
    forall k | 0 <= k < |run| :: WrongCompared(After(NEW_ACCOUNT, run[..k], limit), run[k])
  }

  lemma {:induction false} CounterAfter(run: seq<Event>, limit: Limit, k: nat)
    requires AllCompared(run, limit) && k <= |run|
    ensures After(NEW_ACCOUNT, run[..k], limit).failedAttempts == if limit.Some? then k % Allowed(limit) else k
  {
    if k > 0 {
      CounterAfter(run, limit, k - 1);
      AfterNext(run, limit, k - 1);
      if limit.Some? {
        OneMoreModulo(k - 1, Allowed(limit));
      }
    }
  }

  lemma OneMoreModulo(k: nat, m: nat)
    requires m >= 1
    ensures (k + 1) % m == if k % m + 1 == m then 0 else k % m + 1
  {
    var q, r := k / m, k % m;
    if r + 1 == m {
      ModuloOf(k + 1, m, q + 1, 0);
    } else {
      ModuloOf(k + 1, m, q, r + 1);
    }
  }

  lemma ModuloOf(n: nat, m: nat, q: nat, r: nat)
    requires r < m && n == m * q + r
    ensures n % m == r
  {
    var p := n / m;
    if p < q {
      MulMonotone(m, p + 1, q);
    } else if q < p {
      MulMonotone(m, q + 1, p);
    }
  }

  /**
   Of the wrong guesses compared on a new account the n-th locks it exactly when n
   is a multiple of the limit (of 1, if the limit is less; of none, if it is no
   number), with the deadline 15 minutes after its second reading of the clock;
   every other one is just invalid and leaves no deadline.
   */
  lemma NthGuessLocksExactlyWhen(run: seq<Event>, limit: Limit, n: nat)
    requires AllCompared(run, limit) && 1 <= n <= |run|
    ensures var locks := limit.Some? && n % (if limit.value > 1 then limit.value else 1) == 0;
      && AnswerAt(run, limit, n - 1) == (if locks then LockedNow else Invalid)
      && After(NEW_ACCOUNT, run[..n], limit).lockoutUntil
        == if locks then Some(run[n - 1].later + 15 * 60000) else None
  {
    hide After, WrongCompared;
    CounterAfter(run, limit, n - 1);
    AfterNext(run, limit, n - 1);
    ComparedStep(After(NEW_ACCOUNT, run[..n - 1], limit), run[n - 1], limit);
    if limit.Some? {
      LastOfRound(n, Allowed(limit));
    }
  }

  /** What comparing a wrong password does, for a counter below the limit. */
  lemma ComparedStep(a: Account, e: Event, limit: Limit)
    requires WrongCompared(a, e)
    ensures var locks := limit.Some? && a.failedAttempts + 1 >= Allowed(limit);
      Step(a, e, limit) == if locks then (Account(0, Some(e.later + 15 * 60000)), LockedNow)
        else (Account(a.failedAttempts + 1, None), Invalid)
  {
  }

  lemma LastOfRound(n: nat, m: nat)
    requires n >= 1 && m >= 1
    ensures n % m == 0 <==> (n - 1) % m + 1 >= m
  {
    OneMoreModulo(n - 1, m);
  }

  // ------------------------------------------------------------ how locks end

  /** A guess before k set a lock that has not run out at `now`, and no second factor was completed since. */
  ghost predicate LockStands(run: seq<Event>, limit: Limit, k: nat, now: int)
    requires k <= |run|
  {
    exists j | 0 <= j < k :: SetsLock(run, limit, j, k) && run[j].later + 15 * 60000 > now
  }

  predicate SetsLock(run: seq<Event>, limit: Limit, j: nat, k: nat)
    requires j < k <= |run|
  {
    AnswerAt(run, limit, j) == LockedNow && forall i | j < i < k :: run[i].Login?
  }

  /** The deadline an account carries is the one its last lock set. */
  lemma {:induction false} DeadlineWasSet(run: seq<Event>, limit: Limit, k: nat)
    requires k <= |run|
    ensures var until := After(NEW_ACCOUNT, run[..k], limit).lockoutUntil;
      until.Some? ==> exists j | 0 <= j < k :: SetsLock(run, limit, j, k) && run[j].later + 15 * 60000 == until.value
  {
    var until := After(NEW_ACCOUNT, run[..k], limit).lockoutUntil;
    if k > 0 && until.Some? {
      AfterNext(run, limit, k - 1);
      if AnswerAt(run, limit, k - 1) == LockedNow {
        assert SetsLock(run, limit, k - 1, k);
      } else {
        DeadlineWasSet(run, limit, k - 1);
        var j :| 0 <= j < k - 1 && SetsLock(run, limit, j, k - 1) && run[j].later + 15 * 60000 == until.value;
        assert SetsLock(run, limit, j, k);
      }
    }
  }

  lemma {:induction false} LaterInOrder(run: seq<Event>, now: int, i: nat, j: nat)
    requires InOrder(run, now) && i < j < |run|
    ensures now <= run[i].check <= run[i].later <= run[j].check <= run[j].later
    decreases |run|
  {
    if i > 0 {
      LaterInOrder(run[1..], run[0].later, i - 1, j - 1);
    } else if j > 1 {
      LaterInOrder(run[1..], run[0].later, 0, j - 1);
    }
  }

  /** Until its deadline nothing but a second factor moves a lock. */
  lemma {:induction false} LockStays(run: seq<Event>, limit: Limit, start: int, j: nat, k: nat)
    requires InOrder(run, start) && j < k <= |run| && SetsLock(run, limit, j, k)
    requires forall i | j < i < k :: run[i].check < run[j].later + 15 * 60000
    ensures After(NEW_ACCOUNT, run[..k], limit).lockoutUntil == Some(run[j].later + 15 * 60000)
  {
    AfterNext(run, limit, k - 1);
    if j < k - 1 {
      assert SetsLock(run, limit, j, k - 1);
      LockStays(run, limit, start, j, k - 1);
    }
  }

  /** How many guesses before k were just invalid, since the last lock or the last login that went through. */
  function InvalidSince(run: seq<Event>, limit: Limit, k: nat): nat
    requires k <= |run|
  {
    if k == 0 then 0
    else
      match AnswerAt(run, limit, k - 1)
      case Invalid => InvalidSince(run, limit, k - 1) + 1
      case Locked(_) => InvalidSince(run, limit, k - 1)
      case TwoFactorRequired => InvalidSince(run, limit, k - 1)
      case _ => 0
  }

  /**
   The counter counts them; a login that goes through leaves a new account, and being turned
   away or asked on, the same one.
   */
  lemma {:induction false} CounterCounts(run: seq<Event>, limit: Limit, k: nat)
    requires k <= |run|
    ensures After(NEW_ACCOUNT, run[..k], limit).failedAttempts == InvalidSince(run, limit, k)
    ensures k > 0 && AnswerAt(run, limit, k - 1).LoggedIn? ==> After(NEW_ACCOUNT, run[..k], limit) == Account(0, None)
    ensures k > 0 && (AnswerAt(run, limit, k - 1).Locked? || AnswerAt(run, limit, k - 1).TwoFactorRequired?) ==>
      After(NEW_ACCOUNT, run[..k], limit) == After(NEW_ACCOUNT, run[..k - 1], limit)
  {
    if k > 0 {
      CounterCounts(run, limit, k - 1);
      AfterNext(run, limit, k - 1);
    }
  }

  /**
   Every answer of a run on a new account, from the run alone.  A login is turned
   away exactly while a lock set before stands.  A wrong password let through locks
   exactly when it makes the invalid ones since the last lock or login as many as
   the limit; a right one is asked for the second factor exactly when there is one.
   */
  lemma AnswersExactlyWhen(run: seq<Event>, limit: Limit, start: int, k: nat)
    requires InOrder(run, start) && k < |run|
    ensures var e, answer := run[k], AnswerAt(run, limit, k);
      var stands := e.Login? && LockStands(run, limit, k, e.check);
      var reached := limit.Some? && InvalidSince(run, limit, k) + 1 >= limit.value;
      && (answer.Locked? <==> stands)
      && (answer.LockedNow? <==> e.Login? && !stands && !e.matches && reached)
      && (answer.Invalid? <==> e.Login? && !stands && !e.matches && !reached)
      && (answer.TwoFactorRequired? <==> e.Login? && !stands && e.matches && e.twoFactor)
      && (answer.LoggedIn? <==> e.Verified2fa? || (!stands && e.matches && !e.twoFactor))
  {
    var e := run[k];
    CounterCounts(run, limit, k);
    if e.Login? {
      DeadlineWasSet(run, limit, k);
      if LockStands(run, limit, k, e.check) {
        var j :| 0 <= j < k && SetsLock(run, limit, j, k) && run[j].later + 15 * 60000 > e.check;
        forall i | j < i < k ensures run[i].check < run[j].later + 15 * 60000 {
          LaterInOrder(run, start, i, k);
        }
        LockStays(run, limit, start, j, k);
      }
    }
  }

  // ----------------------------------------------------- the bound is attained

  /** Full rounds of wrong guesses, each as soon as the lock of the one before runs out. */
  function Rounds(m: nat, n: nat, at: int): (run: seq<Event>)
    ensures OnlyGuesses(run)
    decreases n
  {
    if n == 0 then [] else Guesses(m, at) + Rounds(m, n - 1, at + LOCK_MS)
  }

  lemma {:induction false} OrderOfGuesses(m: nat, at: int, rest: seq<Event>, next: int)
    requires InOrder(rest, next) && at <= next
    ensures InOrder(Guesses(m, at) + rest, at)
  {
    if m == 0 {
      assert Guesses(m, at) + rest == rest;
      if rest != [] { assert next <= rest[0].check; }
    } else {
      OrderOfGuesses(m - 1, at, rest, next);
      assert (Guesses(m, at) + rest)[1..] == Guesses(m - 1, at) + rest;
    }
  }

  lemma {:induction false} RoundsAreInOrder(m: nat, n: nat, at: int)
    ensures InOrder(Rounds(m, n, at), at)
    decreases n
  {
    if n > 0 {
      RoundsAreInOrder(m, n - 1, at + LOCK_MS);
      OrderOfGuesses(m, at, Rounds(m, n - 1, at + LOCK_MS), at + LOCK_MS);
    }
  }

  /** The rest of a round, from a counter that has m more to go: all are compared, and the last one locks. */
  lemma {:induction false} CountOfRound(a: Account, m: nat, limit: Limit, at: int, rest: seq<Event>, lo: int, hi: int)
    requires limit.Some? && m >= 1 && a.failedAttempts + m == Allowed(limit) && !IsLocked(a, at) && lo <= at <= hi
    ensures CountWrong(a, Guesses(m, at) + rest, limit, lo, hi)
      == m + CountWrong(Account(0, Some(at + LOCK_MS)), rest, limit, lo, hi)
    decreases m
  {
    var run := Guesses(m, at) + rest;
    assert run[0] == Login(at, at, false, false) && run[1..] == Guesses(m - 1, at) + rest;
    var a' := Step(a, run[0], limit).0;
    if m == 1 {
      assert Guesses(0, at) + rest == rest;
    } else {
      CountOfRound(a', m - 1, limit, at, rest, lo, hi);
    }
  }

  lemma {:induction false} CountOfRounds(a: Account, limit: Limit, n: nat, at: int, lo: int, hi: int)
    requires limit.Some? && a.failedAttempts == 0 && !IsLocked(a, at) && lo <= at
    requires n > 0 ==> at + (n - 1) * LOCK_MS <= hi
    ensures CountWrong(a, Rounds(Allowed(limit), n, at), limit, lo, hi) == Allowed(limit) * n
    decreases n
  {
    if n > 0 {
      var m := Allowed(limit);
      assert (n - 1) * LOCK_MS >= 0;
      CountOfRound(a, m, limit, at, Rounds(m, n - 1, at + LOCK_MS), lo, hi);
      assert (n - 1) * LOCK_MS == LOCK_MS + (n - 2) * LOCK_MS;
      CountOfRounds(Account(0, Some(at + LOCK_MS)), limit, n - 1, at + LOCK_MS, lo, hi);
      assert m * n == m + m * (n - 1);
    }
  }

  /** The bound is exact: for every limit that is a number, in every window, some run of guesses attains it. */
  lemma GuessingBoundIsExact(limit: Limit, lo: int, hi: int, bound: nat)
    requires limit.Some? && lo <= hi
    ensures BoundedBy(limit, lo, hi, bound)
      <==> (if limit.value > 1 then limit.value else 1) * ((hi - lo) / (15 * 60000) + 1) <= bound
  {
    var n: nat := (hi - lo) / LOCK_MS + 1;
    var run := Rounds(Allowed(limit), n, lo);
    assert (n - 1) * LOCK_MS <= hi - lo;
    RoundsAreInOrder(Allowed(limit), n, lo);
    CountOfRounds(NEW_ACCOUNT, limit, n, lo, lo, hi);
    forall other, now | InOrder(other, now) && OnlyGuesses(other)
      ensures CountWrong(NEW_ACCOUNT, other, limit, lo, hi) <= Allowed(limit) * n
    {
      GuessingBound(other, limit, now, lo, hi);
    }
    assert InOrder(run, lo) && OnlyGuesses(run);
  }
}
