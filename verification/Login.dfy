/** Login throttling: a counter per identifier and address, and a lock that doubles per failure. */
module Login {
  import opened Options

  /** Seconds on the server's clock. */
  type Time = int

  const WINDOW := 60

  datatype Settings = Settings(maxAttempts: int, base: int, cap: int, perMinute: int) {
    predicate Valid() {
      maxAttempts >= 1 && base >= 1 && cap >= 1 && perMinute >= 1
    }
  }

  // ------------------------------------------------------------------------- rate limit

  datatype Counter = Counter(start: Time, count: nat)

  /** One attempt against the counter of its pair; a counter whose window has passed starts again. */
  function Counted(c: Option<Counter>, now: Time): Counter {
    if c.None? || c.value.start < now - WINDOW then Counter(now, 1) else c.value.(count := c.value.count + 1)
  }

  /** The first attempt of a window is let through without looking at the limit. */
  predicate LetThrough(c: Option<Counter>, now: Time, limit: int) {
    c.None? || c.value.start < now - WINDOW || c.value.count + 1 <= limit
  }

  function CounterAfter(times: seq<Time>): Option<Counter> {
    if times == [] then None else Some(Counted(CounterAfter(times[..|times| - 1]), times[|times| - 1]))
  }

  /** Attempts let through from `a` to `b`, both included. */
  function Through(times: seq<Time>, limit: int, a: Time, b: Time): nat {
    if times == [] then 0
    else
      var before := times[..|times| - 1];
      var t := times[|times| - 1];
      Through(before, limit, a, b) + if a <= t <= b && LetThrough(CounterAfter(before), t, limit) then 1 else 0
  }

  predicate InOrder(times: seq<Time>) {
    forall i, j :: 0 <= i < j < |times| ==> times[i] <= times[j]
  }

  /** How many of a window's attempts got through. */
  function Passed(count: nat, limit: int): int {
    if count <= limit then count else limit
  }

  /** What is known while the span from `a` is being filled. */
  predicate SpanInv(c: Option<Counter>, through: nat, limit: int, a: Time) {
    if c.None? then through == 0
    else
      && c.value.count >= 1
      && through <= Passed(c.value.count, limit) + (if c.value.start < a then -1 else limit - 1)
  }

  lemma {:induction false} SpanFills(times: seq<Time>, limit: int, a: Time)
    requires InOrder(times) && limit >= 1 && forall t :: t in times ==> t <= a + WINDOW
    ensures SpanInv(CounterAfter(times), Through(times, limit, a, a + WINDOW), limit, a)
    decreases |times|
  {
    if times != [] {
      var n := |times| - 1;
      assert times[n] in times && forall t :: t in times[..n] ==> t in times;
      SpanFills(times[..n], limit, a);
      NoneBefore(times[..n], limit, a);
      CounterStartsInThePast(times[..n]);
    }
  }

  lemma {:induction false} NoneBefore(times: seq<Time>, limit: int, a: Time)
    requires InOrder(times)
    ensures times != [] && times[|times| - 1] < a ==> Through(times, limit, a, a + WINDOW) == 0
    decreases |times|
  {
    if times != [] {
      NoneBefore(times[..|times| - 1], limit, a);
    }
  }

  lemma {:induction false} CounterStartsInThePast(times: seq<Time>)
    requires InOrder(times)
    ensures times != [] ==> CounterAfter(times).value.start <= times[|times| - 1]
    decreases |times|
  {
    if times != [] {
      CounterStartsInThePast(times[..|times| - 1]);
    }
  }

  /** In any sixty seconds fewer than twice the limit of one pair's attempts get through. */
  lemma {:induction false} SpanIsBounded(times: seq<Time>, limit: int, a: Time)
    requires InOrder(times) && limit >= 1
    ensures Through(times, limit, a, a + WINDOW) <= 2 * limit - 1
    decreases |times|
  {
    if times != [] && times[|times| - 1] > a + WINDOW {
      SpanIsBounded(times[..|times| - 1], limit, a);
    } else {
      SpanFills(times, limit, a);
    }
  }

  function Repeated(t: Time, n: nat): seq<Time> {
    seq(n, _ => t)
  }

  lemma {:induction false} Burst(times: seq<Time>, t: Time, n: nat, limit: int, a: Time, b: Time)
    requires times != [] && a <= t <= b && CounterAfter(times).value.start >= t - WINDOW
    requires CounterAfter(times).value.count + n <= limit
    ensures CounterAfter(times + Repeated(t, n))
        == Some(CounterAfter(times).value.(count := CounterAfter(times).value.count + n))
    ensures Through(times + Repeated(t, n), limit, a, b) == Through(times, limit, a, b) + n
    decreases n
  {
    var all := times + Repeated(t, n);
    if n == 0 {
      assert all == times;
    } else {
      Burst(times, t, n - 1, limit, a, b);
      assert all[..|all| - 1] == times + Repeated(t, n - 1);
    }
  }

  /** The bound is attained: a burst at the end of one window and another at the start of the next. */
  lemma BoundIsSharp(limit: int)
    requires limit >= 1
    ensures exists times :: InOrder(times) && Through(times, limit, 1, 1 + WINDOW) == 2 * limit - 1
  {
    var first := [0] + Repeated(WINDOW, limit - 1);
    assert [0][..0] == [];
    assert CounterAfter([0]) == Some(Counter(0, 1)) && Through([0], limit, 1, 1 + WINDOW) == 0;
    Burst([0], WINDOW, limit - 1, limit, 1, 1 + WINDOW);
    var next := first + [WINDOW + 1];
    assert next[..|next| - 1] == first;
    assert CounterAfter(next) == Some(Counter(WINDOW + 1, 1));
    assert Through(next, limit, 1, 1 + WINDOW) == limit;
    Burst(next, WINDOW + 1, limit - 1, limit, 1, 1 + WINDOW);
    assert InOrder(next + Repeated(WINDOW + 1, limit - 1));
  }

  // ----------------------------------------------------------------------------- lockout

  datatype Account = Account(active: bool, twoFactor: bool, failed: nat, lockedUntil: Option<Time>)

  datatype Code = Missing | Wrong | Right

  /** One login attempt as the account sees it. */
  datatype Try = Try(now: Time, passwordOk: bool, code: Code)

  datatype Outcome = Success | RateLimited | NoSuchAccount | Disabled | Locked | WrongPassword | NeedsCode | WrongCode

  function Pow2(n: nat): nat {
    if n == 0 then 1 else 2 * Pow2(n - 1)
  }

  /** Seconds of lock after this many failures. */
  function LockoutSeconds(failed: nat, s: Settings): int {
    var over := if failed < s.maxAttempts then 0 else failed - s.maxAttempts;
    var delay := s.base * Pow2(over);
    if delay < s.cap then delay else s.cap
  }

  function FailedOnce(account: Account, now: Time, s: Settings): Account {
    var failed := account.failed + 1;
    account.(failed := failed,
             lockedUntil :=
               if failed >= s.maxAttempts then Some(now + LockoutSeconds(failed, s)) else account.lockedUntil)
  }

  function Attempted(account: Account, t: Try, s: Settings): (Account, Outcome) {
    if !account.active then (account, Disabled)
    else if account.lockedUntil.Some? && account.lockedUntil.value > t.now then (account, Locked)
    else if !t.passwordOk then (FailedOnce(account, t.now, s), WrongPassword)
    else if account.twoFactor && t.code == Missing then (account, NeedsCode)
    else if account.twoFactor && t.code == Wrong then (FailedOnce(account, t.now, s), WrongCode)
    else (account.(failed := 0, lockedUntil := None), Success)
  }

  /** The attempt got as far as its password. */
  predicate Considered(outcome: Outcome) {
    outcome == Success || outcome == WrongPassword || outcome == NeedsCode || outcome == WrongCode
  }

  predicate IsFailure(outcome: Outcome) {
    outcome == WrongPassword || outcome == WrongCode
  }

  datatype Pair = Pair(identifier: string, address: string)

  class LoginDesk {
    var counters: map<Pair, Counter>
    var accounts: map<string, Account>
    const settings: Settings

    constructor (settings: Settings)
      ensures counters == map[] && accounts == map[] && this.settings == settings
    {
      counters, accounts, this.settings := map[], map[], settings;
    }

    function CounterOf(pair: Pair): Option<Counter>
      reads this
    {
      if pair in counters then Some(counters[pair]) else None
    }

    method CheckRateLimit(pair: Pair, now: Time) returns (allowed: bool)
      modifies this`counters
      ensures counters == old(counters)[pair := Counted(old(CounterOf(pair)), now)]
      ensures allowed == LetThrough(old(CounterOf(pair)), now, settings.perMinute)
    {
      if pair !in counters || counters[pair].start < now - WINDOW {
        counters := counters[pair := Counter(now, 1)];
        return true;
      }
      counters := counters[pair := counters[pair].(count := counters[pair].count + 1)];
      return counters[pair].count <= settings.perMinute;
    }

    method RegisterFailure(identifier: string, now: Time)
      requires identifier in accounts
      modifies this`accounts
      ensures accounts == old(accounts)[identifier := FailedOnce(old(accounts)[identifier], now, settings)]
    {
      var account := accounts[identifier];
      account := account.(failed := account.failed + 1);
      if account.failed >= settings.maxAttempts {
        account := account.(lockedUntil := Some(now + LockoutSeconds(account.failed, settings)));
      }
      accounts := accounts[identifier := account];
    }

    /** The attempt is counted first, whoever it names. */
    method Authenticate(pair: Pair, t: Try) returns (outcome: Outcome)
      modifies this
      ensures counters == old(counters)[pair := Counted(old(CounterOf(pair)), t.now)]
      // who is turned away before the password is looked at
      ensures outcome == RateLimited <==>
                && pair in old(counters) && t.now <= old(counters)[pair].start + WINDOW
                && old(counters)[pair].count >= settings.perMinute
      ensures outcome == NoSuchAccount <==> outcome != RateLimited && pair.identifier !in old(accounts)
      ensures outcome == Disabled <==>
                outcome != RateLimited && pair.identifier in old(accounts) && !old(accounts)[pair.identifier].active
      ensures outcome == Locked <==>
                && outcome != RateLimited && pair.identifier in old(accounts) && old(accounts)[pair.identifier].active
                && old(accounts)[pair.identifier].lockedUntil.Some?
                && old(accounts)[pair.identifier].lockedUntil.value > t.now
      // what the password and the code decide
      ensures outcome == WrongPassword <==> Considered(outcome) && !t.passwordOk
      ensures outcome == NeedsCode <==>
                Considered(outcome) && t.passwordOk && old(accounts)[pair.identifier].twoFactor && t.code == Missing
      ensures outcome == WrongCode <==>
                Considered(outcome) && t.passwordOk && old(accounts)[pair.identifier].twoFactor && t.code == Wrong
      ensures outcome == Success <==>
                && Considered(outcome) && t.passwordOk
                && (old(accounts)[pair.identifier].twoFactor ==> t.code == Right)
      // what becomes of the accounts
      ensures !IsFailure(outcome) && outcome != Success ==> accounts == old(accounts)
      ensures outcome == Success ==>
                accounts == old(accounts)[pair.identifier :=
                  old(accounts)[pair.identifier].(failed := 0, lockedUntil := None)]
      ensures IsFailure(outcome) ==>
                var was := old(accounts)[pair.identifier];
                accounts == old(accounts)[pair.identifier :=
                  was.(failed := was.failed + 1,
                       lockedUntil := if was.failed + 1 < settings.maxAttempts then was.lockedUntil
                                      else Some(t.now + LockoutSeconds(was.failed + 1, settings)))]
      ensures Considered(outcome) || outcome == Disabled || outcome == Locked ==>
                && pair.identifier in old(accounts)
                && pair.identifier in accounts
                && (accounts[pair.identifier], outcome) == Attempted(old(accounts)[pair.identifier], t, settings)
    {
      var allowed := CheckRateLimit(pair, t.now);
      if !allowed {
        return RateLimited;
      }
      if pair.identifier !in accounts {
        return NoSuchAccount;
      }
      var account := accounts[pair.identifier];
      assert accounts[pair.identifier := account] == accounts;
      if !account.active {
        return Disabled;
      }
      if account.lockedUntil.Some? && account.lockedUntil.value > t.now {
        return Locked;
      }
      if !t.passwordOk {
        RegisterFailure(pair.identifier, t.now);
        return WrongPassword;
      }
      if account.twoFactor {
        if t.code == Missing {
          return NeedsCode;
        }
        if t.code == Wrong {
          RegisterFailure(pair.identifier, t.now);
          return WrongCode;
        }
      }
      accounts := accounts[pair.identifier := account.(failed := 0, lockedUntil := None)];
      return Success;
    }
  }

  // ----------------------------------------------------------------- runs of failures

  /** The delay is the base at the threshold, doubles with each further failure, and stops at the cap. */
  lemma LockoutDoubles(failed: nat, s: Settings)
    requires s.Valid()
    ensures LockoutSeconds(failed, s) <= s.cap
    ensures failed <= s.maxAttempts ==> LockoutSeconds(failed, s) == (if s.base < s.cap then s.base else s.cap)
    ensures failed >= s.maxAttempts ==>
              LockoutSeconds(failed + 1, s) ==
              if 2 * LockoutSeconds(failed, s) < s.cap then 2 * LockoutSeconds(failed, s) else s.cap
  {
    if failed >= s.maxAttempts {
      var n := failed - s.maxAttempts;
      assert s.base * Pow2(n + 1) == 2 * (s.base * Pow2(n));
    }
  }

  function AccountAfter(account: Account, tries: seq<Try>, s: Settings): Account {
    if tries == [] then account
    else Attempted(AccountAfter(account, tries[..|tries| - 1], s), tries[|tries| - 1], s).0
  }

  /** When the failures of a run happened. */
  function FailureTimes(account: Account, tries: seq<Try>, s: Settings): seq<Time> {
    if tries == [] then []
    else
      var before := tries[..|tries| - 1];
      var t := tries[|tries| - 1];
      FailureTimes(account, before, s) +
      if IsFailure(Attempted(AccountAfter(account, before, s), t, s).1) then [t.now] else []
  }

  predicate NeverSucceeds(account: Account, tries: seq<Try>, s: Settings) {
    tries == [] ||
    (NeverSucceeds(account, tries[..|tries| - 1], s) &&
     Attempted(AccountAfter(account, tries[..|tries| - 1], s), tries[|tries| - 1], s).1 != Success)
  }

  /** Every failure is counted, and from the threshold on it locks the account for its delay. */
  lemma {:induction false} FailuresLock(account: Account, tries: seq<Try>, s: Settings)
    requires s.Valid() && account.failed == 0 && account.lockedUntil == None && NeverSucceeds(account, tries, s)
    ensures var after := AccountAfter(account, tries, s);
            var times := FailureTimes(account, tries, s);
            && after.active == account.active && after.failed == |times|
            && (|times| < s.maxAttempts ==> after.lockedUntil == None)
            && (|times| >= s.maxAttempts ==> after.lockedUntil == Some(times[|times| - 1] + LockoutSeconds(|times|, s)))
    decreases |tries|
  {
    if tries != [] {
      FailuresLock(account, tries[..|tries| - 1], s);
    }
  }

  /** An active account turns an attempt away exactly while its last failure's delay runs. */
  lemma LockedIff(account: Account, tries: seq<Try>, t: Try, s: Settings)
    requires s.Valid() && account == Account(true, account.twoFactor, 0, None) && NeverSucceeds(account, tries, s)
    ensures var times := FailureTimes(account, tries, s);
            Attempted(AccountAfter(account, tries, s), t, s).1 == Locked <==>
            |times| >= s.maxAttempts && t.now < times[|times| - 1] + LockoutSeconds(|times|, s)
  {
    FailuresLock(account, tries, s);
  }

  lemma {:induction false} FailuresAreSpaced(account: Account, tries: seq<Try>, s: Settings, i: nat)
    requires s.Valid() && account.failed == 0 && account.lockedUntil == None && NeverSucceeds(account, tries, s)
    requires s.maxAttempts <= i < |FailureTimes(account, tries, s)|
    ensures var times := FailureTimes(account, tries, s);
            times[i] >= times[i - 1] + LockoutSeconds(i, s)
    decreases |tries|
  {
    var before := tries[..|tries| - 1];
    FailuresLock(account, before, s);
    if i < |FailureTimes(account, before, s)| {
      FailuresAreSpaced(account, before, s, i);
    }
  }

  function Delays(j: nat, s: Settings): int {
    if j == 0 then 0
    else
      var delay := s.base * Pow2(j - 1);
      Delays(j - 1, s) + if delay < s.cap then delay else s.cap
  }

  /**
   Guessing is slow however the attempts are timed: without a success, the failure `j` places after
   the one that reaches the threshold comes at least the sum of the first `j` doubling, capped
   delays later.
   */
  lemma {:induction false} GuessingIsThrottled(account: Account, tries: seq<Try>, s: Settings, j: nat)
    requires s.Valid() && account.failed == 0 && account.lockedUntil == None && NeverSucceeds(account, tries, s)
    requires s.maxAttempts - 1 + j < |FailureTimes(account, tries, s)|
    ensures var times := FailureTimes(account, tries, s);
            times[s.maxAttempts - 1 + j] >= times[s.maxAttempts - 1] + Delays(j, s)
    decreases j
  {
    if j > 0 {
      GuessingIsThrottled(account, tries, s, j - 1);
      FailuresAreSpaced(account, tries, s, s.maxAttempts - 1 + j);
    }
  }
}
