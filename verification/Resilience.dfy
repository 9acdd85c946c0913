/**
 Token bucket and circuit breaker, each proved over every run of calls.

 The clock is a parameter of every call. Where a result needs it, the clock is required never to
 run backwards, which is what a monotonic clock promises.
 */
module Resilience {
  import opened Common

  function Min(a: real, b: real): real { if a <= b then a else b }
  function Max(a: real, b: real): real { if a >= b then a else b }

  // ----- Token bucket

  datatype Bucket = Bucket(capacity: real, rate: real, tokens: real, updatedAt: real)

  function Refill(b: Bucket, now: real): Bucket {
    b.(tokens := Min(b.capacity, b.tokens + Max(0.0, now - b.updatedAt) * b.rate), updatedAt := now)
  }

  function Acquire(b: Bucket, now: real, tokens: real): (Bucket, bool) {
    var r := Refill(b, now);
    if r.tokens < tokens then (r, false) else (r.(tokens := r.tokens - tokens), true)
  }

  class RateLimiter {
    const capacity: real
    const perSecond: real
    var tokens: real
    var updatedAt: real

    constructor (capacity: nat, perSecond: real, now: real)
      requires capacity >= 1
      ensures Level() == Bucket(capacity as real, perSecond, capacity as real, now)
    {
      this.capacity, this.perSecond := capacity as real, perSecond;
      tokens, updatedAt := capacity as real, now;
    }

    /** Building a limiter fails on a capacity below one. */
    static method Build(capacity: int, perSecond: real, now: real) returns (limiter: Option<RateLimiter>)
      ensures limiter.Some? <==> capacity >= 1
      ensures limiter.Some? ==>
                fresh(limiter.value)
                  && limiter.value.Level() == Bucket(capacity as real, perSecond, capacity as real, now)
    {
      if capacity < 1 {
        return None;
      }
      var built := new RateLimiter(capacity, perSecond, now);
      return Some(built);
    }

    function Level(): Bucket
      reads this
    {
      Bucket(capacity, perSecond, tokens, updatedAt)
    }

    method RefillTokens(now: real)
      modifies this
      ensures Level() == Refill(old(Level()), now)
    {
      var elapsed := Max(0.0, now - updatedAt);
      updatedAt := now;
      tokens := Min(capacity, tokens + elapsed * perSecond);
    }

    method Available(now: real) returns (available: real)
      modifies this
      ensures Level() == Refill(old(Level()), now) && available == tokens
    {
      RefillTokens(now);
      available := tokens;
    }

    method TryAcquire(now: real, amount: real) returns (granted: bool)
      modifies this
      ensures (Level(), granted) == Acquire(old(Level()), now, amount)
    {
      RefillTokens(now);
      if tokens < amount {
        return false;
      }
      tokens := tokens - amount;
      return true;
    }
  }

  /** A call on the limiter: try to take tokens, or only look. */
  datatype Use = Take(now: real, amount: real) | Look(now: real)

  ghost predicate Ticks(from: real, uses: seq<Use>)
    decreases |uses|
  {
    uses == [] || (from <= uses[0].now && Ticks(uses[0].now, uses[1..]))
  }

  function UseBucket(b: Bucket, u: Use): (Bucket, real) {
    match u
    case Take(now, amount) => (var (after, ok) := Acquire(b, now, amount); (after, if ok then amount else 0.0))
    case Look(now) => (Refill(b, now), 0.0)
  }

  function AfterUses(b: Bucket, uses: seq<Use>): Bucket
    decreases |uses|
  {
    if uses == [] then b else AfterUses(UseBucket(b, uses[0]).0, uses[1..])
  }

  /** Tokens granted by the calls made between the instants `s` and `e`. */
  function GrantedWithin(b: Bucket, uses: seq<Use>, s: real, e: real): real
    decreases |uses|
  {
    if uses == [] then 0.0
    else
      var (after, granted) := UseBucket(b, uses[0]);
      (if s <= uses[0].now <= e then granted else 0.0) + GrantedWithin(after, uses[1..], s, e)
  }

  ghost predicate Sound(b: Bucket) { b.rate >= 0.0 && 0.0 <= b.tokens <= b.capacity }

  ghost predicate NonNegative(uses: seq<Use>) {
    forall i :: 0 <= i < |uses| && uses[i].Take? ==> uses[i].amount >= 0.0
  }

  /** The level never leaves the range from empty to full, whatever is asked and whenever. */
  lemma {:induction false} LevelStaysInRange(b: Bucket, uses: seq<Use>)
    requires Sound(b) && NonNegative(uses)
    ensures Sound(AfterUses(b, uses))
    decreases |uses|
  {
    if uses != [] {
      StepStaysSound(b, uses[0]);
      LevelStaysInRange(UseBucket(b, uses[0]).0, uses[1..]);
    }
  }

  lemma StepStaysSound(b: Bucket, u: Use)
    requires Sound(b) && (u.Take? ==> u.amount >= 0.0)
    ensures Sound(UseBucket(b, u).0)
  {
    ProductNonNegative(Max(0.0, u.now - b.updatedAt), b.rate);
  }

  lemma ProductNonNegative(x: real, y: real)
    requires x >= 0.0 && y >= 0.0
    ensures x * y >= 0.0
  {
  }

  /** Tokens that flow in between two instants. */
  ghost function Inflow(rate: real, from: real, to: real): real { (to - from) * rate }

  lemma InflowSplits(rate: real, from: real, mid: real, to: real)
    requires rate >= 0.0 && from <= mid <= to
    ensures Inflow(rate, from, to) == Inflow(rate, from, mid) + Inflow(rate, mid, to)
    ensures Inflow(rate, from, mid) >= 0.0 && Inflow(rate, mid, to) >= 0.0
  {
    ProductNonNegative(mid - from, rate);
    ProductNonNegative(to - mid, rate);
    assert (to - from) * rate == (mid - from) * rate + (to - mid) * rate;
  }

  /** What may still be granted up to `e`, given the bucket as it stands. */
  ghost function Allowance(b: Bucket, s: real, e: real): real {
    if b.updatedAt > e then 0.0
    else if b.updatedAt >= s then b.tokens + Inflow(b.rate, b.updatedAt, e)
    else b.capacity + Inflow(b.rate, s, e)
  }

  lemma AllowanceNonNegative(b: Bucket, s: real, e: real)
    requires Sound(b) && s <= e
    ensures Allowance(b, s, e) >= 0.0
  {
    if b.updatedAt <= e {
      InflowSplits(b.rate, Max(b.updatedAt, s), e, e);
    }
  }

  /** Refilling never adds to the allowance. */
  lemma RefillKeepsAllowance(b: Bucket, now: real, s: real, e: real)
    requires Sound(b) && s <= e && b.updatedAt <= now
    ensures Allowance(Refill(b, now), s, e) <= Allowance(b, s, e)
  {
    if now > e {
      AllowanceNonNegative(b, s, e);
    } else if s <= b.updatedAt {
      InflowSplits(b.rate, b.updatedAt, now, e);
    } else if s <= now {
      InflowSplits(b.rate, s, now, e);
    }
  }

  lemma {:induction false} GrantsWithinAllowance(b: Bucket, uses: seq<Use>, s: real, e: real)
    requires Sound(b) && NonNegative(uses) && Ticks(b.updatedAt, uses) && s <= e
    ensures GrantedWithin(b, uses, s, e) <= Allowance(b, s, e)
    decreases |uses|
  {
    if uses == [] {
      AllowanceNonNegative(b, s, e);
    } else {
      StepStaysSound(b, uses[0]);
      RefillKeepsAllowance(b, uses[0].now, s, e);
      GrantsWithinAllowance(UseBucket(b, uses[0]).0, uses[1..], s, e);
    }
  }

  lemma AllowanceBounded(b: Bucket, s: real, e: real)
    requires Sound(b) && s <= e
    ensures Allowance(b, s, e) <= b.capacity + Inflow(b.rate, s, e)
  {
    InflowSplits(b.rate, s, e, e);
    if s <= b.updatedAt <= e {
      InflowSplits(b.rate, s, b.updatedAt, e);
    }
  }

  /** A burst is allowed, a sustained excess is not: in any interval at most a full bucket plus the refill. */
  lemma GrantsBounded(b: Bucket, uses: seq<Use>, s: real, e: real)
    requires Sound(b) && NonNegative(uses) && Ticks(b.updatedAt, uses) && s <= e
    ensures GrantedWithin(b, uses, s, e) <= b.capacity + Inflow(b.rate, s, e)
  {
    GrantsWithinAllowance(b, uses, s, e);
    AllowanceBounded(b, s, e);
  }

  /** Tokens granted along a run. */
  function Total(b: Bucket, uses: seq<Use>): real
    decreases |uses|
  {
    if uses == [] then 0.0
    else
      var (after, granted) := UseBucket(b, uses[0]);
      granted + Total(after, uses[1..])
  }

  ghost function Until(from: real, uses: seq<Use>): real { if uses == [] then from else Last(uses).now }

  /** What a bucket that was full at the `i`-th use would hold at `e`, less what was granted from that use on. */
  ghost function FullAt(b: Bucket, uses: seq<Use>, i: nat, e: real): real
    requires i < |uses|
    decreases |uses|
  {
    if i == 0 then b.capacity + Inflow(b.rate, uses[0].now, e) - Total(b, uses)
    else FullAt(UseBucket(b, uses[0]).0, uses[1..], i - 1, e)
  }

  /** What the bucket would hold at `e` if it had no brim, less what was granted. */
  ghost function Uncapped(b: Bucket, uses: seq<Use>, e: real): real {
    b.tokens + Inflow(b.rate, b.updatedAt, e) - Total(b, uses)
  }

  ghost function LevelAt(b: Bucket, uses: seq<Use>, e: real): real { Refill(AfterUses(b, uses), e).tokens }

  /**
   `level` is below none of the accounts and equal to one: what came in, less what was granted,
   since the brim last mattered.
   */
  ghost predicate Balances(level: real, b: Bucket, uses: seq<Use>, e: real) {
    && level <= b.capacity && level <= Uncapped(b, uses, e)
    && (forall i :: 0 <= i < |uses| ==> level <= FullAt(b, uses, i, e))
    && (|| level == b.capacity || level == Uncapped(b, uses, e)
        || exists i :: 0 <= i < |uses| && level == FullAt(b, uses, i, e))
  }

  lemma UseLevel(b: Bucket, u: Use)
    requires Sound(b) && b.updatedAt <= u.now
    ensures var (after, granted) := UseBucket(b, u);
            && after.capacity == b.capacity && after.rate == b.rate && after.updatedAt == u.now
            && after.tokens + granted == Min(b.capacity, b.tokens + Inflow(b.rate, b.updatedAt, u.now))
  {
  }

  lemma BalancesNext(level: real, b: Bucket, uses: seq<Use>, e: real)
    requires uses != [] && Sound(b) && b.updatedAt <= uses[0].now <= e
    requires Balances(level, UseBucket(b, uses[0]).0, uses[1..], e)
    ensures Balances(level, b, uses, e)
  {
    var after, rest := UseBucket(b, uses[0]).0, uses[1..];
    UseLevel(b, uses[0]);
    InflowSplits(b.rate, b.updatedAt, uses[0].now, e);
    assert Uncapped(after, rest, e) == Min(FullAt(b, uses, 0, e), Uncapped(b, uses, e));
    forall i | 0 <= i < |uses| ensures level <= FullAt(b, uses, i, e) {
      assert i > 0 ==> FullAt(b, uses, i, e) == FullAt(after, rest, i - 1, e);
    }
    if i :| 0 <= i < |rest| && level == FullAt(after, rest, i, e) {
      assert level == FullAt(b, uses, i + 1, e);
    }
  }

  /**
   The exact level after every run with a non-decreasing clock: capacity, inflow and grants account
   for every token. Refused takes and looks cost nothing.
   */
  lemma {:induction false} LevelExact(b: Bucket, uses: seq<Use>, e: real)
    requires Sound(b) && NonNegative(uses) && Ticks(b.updatedAt, uses) && Until(b.updatedAt, uses) <= e
    ensures Balances(LevelAt(b, uses, e), b, uses, e)
    decreases |uses|
  {
    if uses != [] {
      var u, rest := uses[0], uses[1..];
      StepStaysSound(b, u);
      UseLevel(b, u);
      UntilTicks(u.now, rest);
      assert Until(b.updatedAt, uses) == Until(u.now, rest);
      LevelExact(UseBucket(b, u).0, rest, e);
      BalancesNext(LevelAt(b, uses, e), b, uses, e);
    }
  }

  lemma {:induction false} UntilTicks(from: real, uses: seq<Use>)
    requires Ticks(from, uses)
    ensures from <= Until(from, uses)
    decreases |uses|
  {
    if uses != [] {
      UntilTicks(uses[0].now, uses[1..]);
      assert Until(from, uses) == Until(uses[0].now, uses[1..]);
    }
  }

  ghost predicate Short(b: Bucket, uses: seq<Use>, e: real, amount: real) {
    || b.capacity < amount || Uncapped(b, uses, e) < amount
    || exists i :: 0 <= i < |uses| && FullAt(b, uses, i, e) < amount
  }

  /**
   A take is refused, after any run, exactly when one of these accounts is short of it: no other
   call is ever turned away.
   */
  lemma RefusedIff(b: Bucket, uses: seq<Use>, now: real, amount: real)
    requires Sound(b) && NonNegative(uses) && Ticks(b.updatedAt, uses) && Until(b.updatedAt, uses) <= now
    ensures !Acquire(AfterUses(b, uses), now, amount).1 <==> Short(b, uses, now, amount)
  {
    var level := LevelAt(b, uses, now);
    LevelExact(b, uses, now);
  }

  /** Nothing along the run took a token. */
  ghost predicate Idle(b: Bucket, uses: seq<Use>)
    decreases |uses|
  {
    uses == [] || (UseBucket(b, uses[0]).1 == 0.0 && Idle(UseBucket(b, uses[0]).0, uses[1..]))
  }

  lemma RefillTwice(b: Bucket, mid: real, e: real)
    requires Sound(b) && b.updatedAt <= mid <= e
    ensures Refill(Refill(b, mid), e) == Refill(b, e)
  {
    InflowSplits(b.rate, b.updatedAt, mid, e);
  }

  /** However often a bucket is asked in vain, it ends up as if it had been left alone. */
  lemma {:induction false} AskingIsFree(b: Bucket, uses: seq<Use>, e: real)
    requires Sound(b) && NonNegative(uses) && Ticks(b.updatedAt, uses) && Until(b.updatedAt, uses) <= e && Idle(b, uses)
    ensures Refill(AfterUses(b, uses), e) == Refill(b, e)
    decreases |uses|
  {
    if uses != [] {
      var u, rest := uses[0], uses[1..];
      StepStaysSound(b, u);
      UntilTicks(u.now, rest);
      assert Until(b.updatedAt, uses) == Until(u.now, rest);
      AskingIsFree(UseBucket(b, u).0, rest, e);
      assert UseBucket(b, u).0 == Refill(b, u.now);
      RefillTwice(b, u.now, e);
    }
  }

  /** A clock that went back adds nothing and takes nothing; the bucket just counts on from there. */
  lemma ClockBackAddsNothing(b: Bucket, now: real)
    requires Sound(b) && now <= b.updatedAt
    ensures Refill(b, now) == b.(updatedAt := now)
  {
  }

  // ----- Circuit breaker

  datatype BreakerState = Closed | Open | HalfOpen

  datatype Breaker = Breaker(threshold: nat, reset: real, failures: nat, openedAt: Option<real>, halfOpen: bool)

  function StateAt(b: Breaker, now: real): BreakerState {
    if b.openedAt.None? then Closed
    else if now - b.openedAt.value >= b.reset then HalfOpen
    else Open
  }

  function Allow(b: Breaker, now: real): (Breaker, bool) {
    match StateAt(b, now)
    case Closed => (b, true)
    case Open => (b, false)
    case HalfOpen => if b.halfOpen then (b, false) else (b.(halfOpen := true), true)
  }

  function Success(b: Breaker): Breaker { b.(failures := 0, openedAt := None, halfOpen := false) }

  function Failure(b: Breaker, now: real): Breaker {
    if b.halfOpen then b.(openedAt := Some(now), halfOpen := false)
    else
      var counted := b.(failures := b.failures + 1);
      if counted.failures >= b.threshold && b.openedAt.None? then counted.(openedAt := Some(now)) else counted
  }

  function NewBreaker(threshold: nat, reset: real): Breaker { Breaker(threshold, reset, 0, None, false) }

  class CircuitBreaker {
    const threshold: nat
    const reset: real
    var failures: nat
    var openedAt: Option<real>
    var halfOpen: bool

    constructor (threshold: nat, reset: real)
      requires threshold >= 1
      ensures Snapshot() == NewBreaker(threshold, reset)
    {
      this.threshold, this.reset := threshold, reset;
      failures, openedAt, halfOpen := 0, None, false;
    }

    /** Building a breaker fails on a threshold below one. */
    static method Build(threshold: int, reset: real) returns (breaker: Option<CircuitBreaker>)
      ensures breaker.Some? <==> threshold >= 1
      ensures breaker.Some? ==> fresh(breaker.value) && breaker.value.Snapshot() == NewBreaker(threshold, reset)
    {
      if threshold < 1 {
        return None;
      }
      var built := new CircuitBreaker(threshold, reset);
      return Some(built);
    }

    function Snapshot(): Breaker
      reads this
    {
      Breaker(threshold, reset, failures, openedAt, halfOpen)
    }

    method State(now: real) returns (state: BreakerState)
      ensures state == StateAt(Snapshot(), now)
    {
      if openedAt.None? {
        return Closed;
      }
      if now - openedAt.value >= reset {
        return HalfOpen;
      }
      return Open;
    }

    method AllowCall(now: real) returns (allowed: bool)
      modifies this
      ensures (Snapshot(), allowed) == Allow(old(Snapshot()), now)
    {
      var state := State(now);
      if state == Closed {
        return true;
      }
      if state == Open {
        return false;
      }
      if halfOpen {
        return false;
      }
      halfOpen := true;
      return true;
    }

    method RecordSuccess()
      modifies this
      ensures Snapshot() == Success(old(Snapshot()))
    {
      failures, openedAt, halfOpen := 0, None, false;
    }

    method RecordFailure(now: real)
      modifies this
      ensures Snapshot() == Failure(old(Snapshot()), now)
    {
      if halfOpen {
        openedAt, halfOpen := Some(now), false;
        return;
      }
      failures := failures + 1;
      if failures >= threshold && openedAt.None? {
        openedAt := Some(now);
      }
    }
  }

  /** What an observer of one breaker sees: questions with their answers, and recorded results. */
  datatype Event = Asked(now: real, granted: bool) | Succeeded | Failed(now: real)

  function Front<T>(h: seq<T>): seq<T>
    requires h != []
  {
    h[..|h| - 1]
  }

  function Replay(initial: Breaker, h: seq<Event>): Breaker {
    if h == [] then initial
    else
      match Last(h)
      case Asked(now, _) => Allow(Replay(initial, Front(h)), now).0
      case Succeeded => Success(Replay(initial, Front(h)))
      case Failed(now) => Failure(Replay(initial, Front(h)), now)
  }

  /** Every answer in the history is the one the breaker gave. */
  ghost predicate Genuine(initial: Breaker, h: seq<Event>) {
    h == [] || (Genuine(initial, Front(h)) &&
                (Last(h).Asked? ==> Last(h).granted == Allow(Replay(initial, Front(h)), Last(h).now).1))
  }

  /** Failures recorded since the last success. */
  function Strikes(h: seq<Event>): nat {
    if h == [] || Last(h).Succeeded? then 0
    else Strikes(Front(h)) + if Last(h).Failed? then 1 else 0
  }

  /** A call was let through while tripped and has not been reported on yet. */
  ghost predicate ProbeOutstanding(h: seq<Event>, threshold: nat) {
    h != [] && Last(h).Asked?
      && (ProbeOutstanding(Front(h), threshold) || (Last(h).granted && Strikes(Front(h)) >= threshold))
  }

  /** When the circuit last opened: the failure that reached the threshold, or that answered a probe. */
  ghost function Opening(h: seq<Event>, threshold: nat): Option<real> {
    if h == [] || Last(h).Succeeded? then None
    else if Last(h).Failed? && (Strikes(h) == threshold || ProbeOutstanding(Front(h), threshold)) then Some(Last(h).now)
    else Opening(Front(h), threshold)
  }

  /** The breaker's fields are exactly these facts about its history. */
  lemma {:induction false} BreakerRefinesHistory(threshold: nat, reset: real, h: seq<Event>)
    requires threshold >= 1 && Genuine(NewBreaker(threshold, reset), h)
    ensures var b := Replay(NewBreaker(threshold, reset), h);
            && b.threshold == threshold && b.reset == reset
            && b.openedAt == Opening(h, threshold)
            && b.halfOpen == ProbeOutstanding(h, threshold)
            && (b.openedAt.None? <==> Strikes(h) < threshold)
            && (b.openedAt.None? ==> b.failures == Strikes(h) && !b.halfOpen)
    decreases |h|
  {
    if h != [] {
      BreakerRefinesHistory(threshold, reset, Front(h));
    }
  }

  /**
   The answer to a question depends on the history alone: granted while fewer than `threshold`
   failures followed the last success; otherwise only `reset` after the last opening, and only
   when no probe is still out.
   */
  lemma AnswerFromHistory(threshold: nat, reset: real, h: seq<Event>, now: real)
    requires threshold >= 1 && Genuine(NewBreaker(threshold, reset), h)
    ensures Allow(Replay(NewBreaker(threshold, reset), h), now).1 <==>
            || Strikes(h) < threshold
            || (Opening(h, threshold).Some? && now - Opening(h, threshold).value >= reset
               && !ProbeOutstanding(h, threshold))
  {
    BreakerRefinesHistory(threshold, reset, h);
  }

  lemma {:induction false} GenuinePrefix(initial: Breaker, h: seq<Event>, i: nat)
    requires Genuine(initial, h) && i <= |h|
    ensures Genuine(initial, h[..i])
    decreases |h|
  {
    if i < |h| {
      GenuinePrefix(initial, Front(h), i);
      assert Front(h)[..i] == h[..i];
    } else {
      assert h[..i] == h;
    }
  }

  /** Once tripped, at most one call is let through between two recorded results. */
  lemma OneProbeBetweenRecords(threshold: nat, reset: real, h: seq<Event>, i: nat, j: nat)
    requires threshold >= 1 && Genuine(NewBreaker(threshold, reset), h)
    requires i < j < |h| && h[i].Asked? && h[i].granted && h[j].Asked? && h[j].granted
    requires Strikes(h[..i]) >= threshold
    ensures exists k :: i < k < j && !h[k].Asked?
  {
    if forall k :: i < k < j ==> h[k].Asked? {
      StillOutstanding(h, threshold, i, j);
      GenuinePrefix(NewBreaker(threshold, reset), h, j + 1);
      assert Front(h[..j + 1]) == h[..j];
      GenuinePrefix(NewBreaker(threshold, reset), h, j);
      AnswerFromHistory(threshold, reset, h[..j], h[j].now);
    }
  }

  lemma {:induction false} StillOutstanding(h: seq<Event>, threshold: nat, i: nat, j: nat)
    requires i < j <= |h| && h[i].Asked? && h[i].granted && Strikes(h[..i]) >= threshold
    requires forall k :: i < k < j ==> h[k].Asked?
    ensures ProbeOutstanding(h[..j], threshold) && Strikes(h[..j]) >= threshold
    decreases j
  {
    assert Front(h[..j]) == h[..j - 1];
    if j > i + 1 {
      StillOutstanding(h, threshold, i, j - 1);
    }
  }
}
