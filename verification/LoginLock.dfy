/**
 * The lock on password sign-in (apps/api/src/routes/auth.ts, lines 134-274), for one account that
 * has a password. Login handlers run one at a time; `gate` is the clock when a handler compares
 * it with the lock, `now` the clock when it writes a new one, both in milliseconds.
 */
module LoginLock {

  const MAX_FAILED_ATTEMPTS: nat := 5
  const LOCKOUT_DURATION: nat := 15 * 60 * 1000

  import opened Options

  datatype Lock = Lock(failures: nat, lockedUntil: Option<int>)

  datatype Attempt = Attempt(gate: int, now: int, valid: bool)

  datatype Reply = Locked | LockedNow | Invalid | SignedIn

  predicate IsLocked(l: Lock, gate: int) {
    l.lockedUntil.Some? && l.lockedUntil.value > gate
  }

  /** The attempt reaches the comparison with the stored password. */
  predicate Verifies(l: Lock, a: Attempt) {
    !IsLocked(l, a.gate)
  }

  function Step(l: Lock, a: Attempt): Lock {
    if !Verifies(l, a) then l
    else if a.valid then Lock(0, None)
    else Lock(l.failures + 1,
              if l.failures + 1 >= MAX_FAILED_ATTEMPTS then Some(a.now + LOCKOUT_DURATION) else None)
  }

  class Account {
    var failedLoginAttempts: nat
    var lockedUntil: Option<int>

    constructor ()
      ensures Lock(failedLoginAttempts, lockedUntil) == Lock(0, None)
    {
      failedLoginAttempts, lockedUntil := 0, None;
    }

    method Login(a: Attempt) returns (reply: Reply)
      modifies this
      ensures Lock(failedLoginAttempts, lockedUntil) == Step(old(Lock(failedLoginAttempts, lockedUntil)), a)
      ensures reply.Locked? <==> old(IsLocked(Lock(failedLoginAttempts, lockedUntil), a.gate))
      ensures reply.Locked? ==> failedLoginAttempts == old(failedLoginAttempts) && lockedUntil == old(lockedUntil)
      ensures reply.SignedIn? ==> failedLoginAttempts == 0 && lockedUntil == None
      ensures !reply.Locked? && !reply.SignedIn? ==>
                && failedLoginAttempts == old(failedLoginAttempts) + 1
                && lockedUntil == if reply.LockedNow? then Some(a.now + LOCKOUT_DURATION) else None
      ensures reply.SignedIn? <==> a.valid && !old(IsLocked(Lock(failedLoginAttempts, lockedUntil), a.gate))
      ensures reply.LockedNow? <==> && !a.valid && !old(IsLocked(Lock(failedLoginAttempts, lockedUntil), a.gate))
                                    && IsLocked(Lock(failedLoginAttempts, lockedUntil), a.now)
      ensures reply.LockedNow? <==> && !reply.Locked? && !reply.SignedIn?
                                    && failedLoginAttempts >= MAX_FAILED_ATTEMPTS
    {
      if lockedUntil.Some? && lockedUntil.value > a.gate {
        return Locked;
      }
      if !a.valid {
        failedLoginAttempts := failedLoginAttempts + 1;
        if failedLoginAttempts >= MAX_FAILED_ATTEMPTS {
          lockedUntil := Some(a.now + LOCKOUT_DURATION);
          return LockedNow;
        }
        lockedUntil := None;
        return Invalid;
      }
      if failedLoginAttempts > 0 || lockedUntil.Some? {
        failedLoginAttempts := 0;
        lockedUntil := None;
      }
      reply := SignedIn;
    }
  }

  // ----- Runs -----

  function After(l: Lock, attempts: seq<Attempt>): Lock {
    if attempts == [] then l else Step(After(l, attempts[..|attempts| - 1]), attempts[|attempts| - 1])
  }

  /** The attempts whose password was compared and found wrong, in order. */
  function Wrong(l: Lock, attempts: seq<Attempt>): seq<Attempt> {
    if attempts == [] then []
    else
      var rest := attempts[..|attempts| - 1];
      var last := attempts[|attempts| - 1];
      Wrong(l, rest) + if Verifies(After(l, rest), last) && !last.valid then [last] else []
  }

  ghost predicate ClockAdvances(attempts: seq<Attempt>) {
    && (forall i :: 0 <= i < |attempts| ==> attempts[i].gate <= attempts[i].now)
    && (forall i, j :: 0 <= i < j < |attempts| ==> attempts[i].now <= attempts[j].gate)
  }

  /** No attempt was compared with the password and matched it. */
  ghost predicate NeverSignsIn(l: Lock, attempts: seq<Attempt>) {
    forall i :: 0 <= i < |attempts| && attempts[i].valid ==> !Verifies(After(l, attempts[..i]), attempts[i])
  }

  /** From the sixth on, wrong attempts are a whole lock apart. */
  ghost predicate Spaced(w: seq<Attempt>) {
    forall n :: MAX_FAILED_ATTEMPTS <= n < |w| ==> w[n - 1].now + LOCKOUT_DURATION <= w[n].gate <= w[n].now
  }

  lemma {:induction false} WrongAttemptsAreSpaced(l: Lock, attempts: seq<Attempt>)
    requires l.failures == 0 && ClockAdvances(attempts) && NeverSignsIn(l, attempts)
    ensures var w := Wrong(l, attempts);
            && After(l, attempts).failures == |w| && Spaced(w)
            && (|w| >= MAX_FAILED_ATTEMPTS ==>
                  After(l, attempts).lockedUntil == Some(w[|w| - 1].now + LOCKOUT_DURATION))
    decreases |attempts|
  {
    if attempts != [] {
      var rest := attempts[..|attempts| - 1];
      forall i | 0 <= i < |rest| ensures attempts[..i] == rest[..i] {}
      WrongAttemptsAreSpaced(l, rest);
    }
  }

  /** How many of them came through by time `t`. */
  function CountBy(w: seq<Attempt>, t: int): nat {
    if w == [] then 0
    else CountBy(w[..|w| - 1], t) + if w[|w| - 1].gate <= t then 1 else 0
  }

  lemma {:induction false} SpacedSince(w: seq<Attempt>, n: nat)
    requires Spaced(w) && MAX_FAILED_ATTEMPTS <= n < |w|
    ensures w[MAX_FAILED_ATTEMPTS - 1].now + (n + 1 - MAX_FAILED_ATTEMPTS) * LOCKOUT_DURATION <= w[n].gate
  {
    if n > MAX_FAILED_ATTEMPTS {
      SpacedSince(w, n - 1);
    }
  }

  lemma {:induction false} CountIsBounded(w: seq<Attempt>, t: int, bound: nat)
    requires forall n :: bound <= n < |w| ==> w[n].gate > t
    ensures CountBy(w, t) <= bound
    ensures CountBy(w, t) <= |w|
  {
    if w != [] {
      CountIsBounded(w[..|w| - 1], t, bound);
    }
  }

  /**
   * The bound. Without a sign-in, at most five wrong passwords are compared by the time `t5` the
   * fifth was recorded, and from then on at most one more for every full lock that has passed.
   */
  lemma WrongPasswordsAreBounded(l: Lock, attempts: seq<Attempt>, t: int)
    requires l.failures == 0 && ClockAdvances(attempts) && NeverSignsIn(l, attempts)
    ensures var w := Wrong(l, attempts);
            |w| >= MAX_FAILED_ATTEMPTS && t >= w[MAX_FAILED_ATTEMPTS - 1].now ==>
              CountBy(w, t) <= MAX_FAILED_ATTEMPTS + (t - w[MAX_FAILED_ATTEMPTS - 1].now) / LOCKOUT_DURATION
  {
    hide Wrong, CountBy, Spaced, ClockAdvances, NeverSignsIn;
    var w := Wrong(l, attempts);
    WrongAttemptsAreSpaced(l, attempts);
    if |w| >= MAX_FAILED_ATTEMPTS && t >= w[MAX_FAILED_ATTEMPTS - 1].now {
      var t5 := w[MAX_FAILED_ATTEMPTS - 1].now;
      var locks := (t - t5) / LOCKOUT_DURATION;
      forall n | MAX_FAILED_ATTEMPTS + locks <= n < |w| ensures w[n].gate > t {
        SpacedSince(w, n);
        WholeLocks(t - t5, n + 1 - MAX_FAILED_ATTEMPTS);
      }
      CountIsBounded(w, t, MAX_FAILED_ATTEMPTS + locks);
    }
  }

  lemma WholeLocks(elapsed: nat, n: nat)
    requires n > elapsed / LOCKOUT_DURATION
    ensures n * LOCKOUT_DURATION > elapsed
  {
  }

  lemma {:induction false} AfterMore(l: Lock, first: seq<Attempt>, more: seq<Attempt>)
    ensures After(l, first + more) == After(After(l, first), more)
    decreases |more|
  {
    if more == [] {
      assert first + more == first;
    } else {
      assert (first + more)[..|first + more| - 1] == first + more[..|more| - 1];
      AfterMore(l, first, more[..|more| - 1]);
    }
  }

  /**
   * A sign-in clears everything: whatever came before it, the attempts after it are answered as if
   * they were the first, and the bound holds for them from there on.
   */
  lemma SignInStartsAnew(l: Lock, attempts: seq<Attempt>, k: nat, t: int)
    requires k < |attempts| && attempts[k].valid && Verifies(After(l, attempts[..k]), attempts[k])
    requires ClockAdvances(attempts) && NeverSignsIn(Lock(0, None), attempts[k + 1..])
    ensures After(l, attempts) == After(Lock(0, None), attempts[k + 1..])
    ensures var w := Wrong(Lock(0, None), attempts[k + 1..]);
            |w| >= MAX_FAILED_ATTEMPTS && t >= w[MAX_FAILED_ATTEMPTS - 1].now ==>
              CountBy(w, t) <= MAX_FAILED_ATTEMPTS + (t - w[MAX_FAILED_ATTEMPTS - 1].now) / LOCKOUT_DURATION
  {
    hide Wrong, CountBy, NeverSignsIn;
    var first, more := attempts[..k + 1], attempts[k + 1..];
    assert attempts == first + more && first[..k] == attempts[..k];
    AfterMore(l, first, more);
    assert After(l, first) == Lock(0, None);
    WrongPasswordsAreBounded(Lock(0, None), more, t);
  }

  // ----- The bound is reached -----

  /** When the n-th of the most frequent wrong passwords arrives: five at once, then one per lock. */
  function Moment(n: nat): nat {
    if n < MAX_FAILED_ATTEMPTS then 0 else (n + 1 - MAX_FAILED_ATTEMPTS) * LOCKOUT_DURATION
  }

  function Relentless(n: nat): seq<Attempt> {
    if n == 0 then [] else Relentless(n - 1) + [Attempt(Moment(n - 1), Moment(n - 1), false)]
  }

  lemma OneMore(l: Lock, attempts: seq<Attempt>, a: Attempt)
    ensures After(l, attempts + [a]) == Step(After(l, attempts), a)
    ensures Wrong(l, attempts + [a]) ==
            Wrong(l, attempts) + if Verifies(After(l, attempts), a) && !a.valid then [a] else []
  {
    assert (attempts + [a])[..|attempts|] == attempts;
  }

  /** Every one of these attempts is compared, so the bound cannot be lowered. */
  lemma {:induction false} BoundIsReached(n: nat)
    ensures Wrong(Lock(0, None), Relentless(n)) == Relentless(n)
    ensures After(Lock(0, None), Relentless(n)) ==
            Lock(n, if n < MAX_FAILED_ATTEMPTS then None else Some(Moment(n)))
  {
    hide After, Wrong;
    if n > 0 {
      BoundIsReached(n - 1);
      OneMore(Lock(0, None), Relentless(n - 1), Attempt(Moment(n - 1), Moment(n - 1), false));
    } else {
      NothingYet(Lock(0, None));
    }
  }

  lemma NothingYet(l: Lock)
    ensures After(l, []) == l && Wrong(l, []) == []
  {
  }

  lemma MomentsAdvance(n: nat)
    requires n > 0
    ensures n > 1 ==> Moment(n - 2) <= Moment(n - 1)
  {
  }

  lemma {:induction false} AllCount(n: nat, t: int)
    requires n > 0 ==> Moment(n - 1) <= t
    ensures CountBy(Relentless(n), t) == n
  {
    hide Moment;
    if n > 0 {
      MomentsAdvance(n);
      AllCount(n - 1, t);
      assert Relentless(n)[..|Relentless(n)| - 1] == Relentless(n - 1);
    }
  }

  /** With equality for every number of locks. */
  lemma BoundIsExact(locks: nat)
    ensures var n := MAX_FAILED_ATTEMPTS + locks;
            var t := locks * LOCKOUT_DURATION;
            CountBy(Wrong(Lock(0, None), Relentless(n)), t) == MAX_FAILED_ATTEMPTS + t / LOCKOUT_DURATION
  {
    hide Wrong, CountBy, Relentless;
    BoundIsReached(MAX_FAILED_ATTEMPTS + locks);
    AllCount(MAX_FAILED_ATTEMPTS + locks, locks * LOCKOUT_DURATION);
  }
}
