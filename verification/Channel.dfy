/**
 A resilient notification channel: the breaker is asked first, then the limiter.

 A half-open probe is spent by the breaker before the limiter is consulted, so a rate-limited
 probe would never be reported on and the channel would refuse for ever. Whether that can happen
 is settled here, exactly, for every configuration.
 */
module Channel {
  import opened Common
  import opened Resilience

  datatype Link = Link(bucket: Bucket, breaker: Breaker)

  datatype Verdict = Admitted | CircuitOpen | RateLimited

  /** The result of a real attempt. Refusals are returned by the guard and never recorded. */
  datatype SendResult = Delivered | Undelivered

  /** The breaker reads the clock at `asked`; if it allows the call, the limiter reads it again at `taken`. */
  function Guard(l: Link, asked: real, taken: real): (Link, Verdict) {
    var (breaker, allowed) := Allow(l.breaker, asked);
    if !allowed then (l.(breaker := breaker), CircuitOpen)
    else
      var (bucket, granted) := Acquire(l.bucket, taken, 1.0);
      (Link(bucket, breaker), if granted then Admitted else RateLimited)
  }

  function Record(l: Link, now: real, result: SendResult): Link {
    l.(breaker := if result == Delivered then Success(l.breaker) else Failure(l.breaker, now))
  }

  /** A channel's limiter holds one minute's worth of messages and refills at that rate. */
  function NewLink(perMinute: nat, threshold: nat, reset: real, now: real): Link {
    Link(Bucket(perMinute as real, perMinute as real / 60.0, perMinute as real, now), NewBreaker(threshold, reset))
  }

  class ResilientChannel {
    const limiter: RateLimiter
    const circuit: CircuitBreaker

    constructor (perMinute: nat, threshold: nat, reset: real, now: real)
      requires perMinute >= 1 && threshold >= 1
      ensures View() == NewLink(perMinute, threshold, reset, now)
      ensures fresh(limiter) && fresh(circuit)
    {
      limiter := new RateLimiter(perMinute, perMinute as real / 60.0, now);
      circuit := new CircuitBreaker(threshold, reset);
    }

    function View(): Link
      reads limiter, circuit
    {
      Link(limiter.Level(), circuit.Snapshot())
    }

    /** Asking whether the channel is usable leaves the probe where it is. */
    method IsAvailable(now: real) returns (available: bool)
      ensures available <==> StateAt(circuit.Snapshot(), now) != Open
    {
      var state := circuit.State(now);
      available := state != Open;
    }

    method GuardSend(asked: real, taken: real) returns (verdict: Verdict)
      modifies limiter, circuit
      ensures (View(), verdict) == Guard(old(View()), asked, taken)
    {
      var allowed := circuit.AllowCall(asked);
      if !allowed {
        return CircuitOpen;
      }
      var granted := limiter.TryAcquire(taken, 1.0);
      if !granted {
        return RateLimited;
      }
      return Admitted;
    }

    method RecordResult(now: real, result: SendResult)
      modifies circuit
      ensures View() == Record(old(View()), now, result)
    {
      if result == Delivered {
        circuit.RecordSuccess();
      } else {
        circuit.RecordFailure(now);
      }
    }
  }

  // ----- Any interleaving of guards and records

  datatype Op = Ask(asked: real, taken: real) | Report(now: real, result: SendResult)

  function Begin(op: Op): real { if op.Ask? then op.asked else op.now }

  function End(op: Op): real { if op.Ask? then op.taken else op.now }

  function Apply(l: Link, op: Op): Link {
    match op
    case Ask(asked, taken) => Guard(l, asked, taken).0
    case Report(now, result) => Record(l, now, result)
  }

  function ApplyAll(l: Link, ops: seq<Op>): Link {
    if ops == [] then l else Apply(ApplyAll(l, Front(ops)), Last(ops))
  }

  ghost predicate Monotone(start: real, ops: seq<Op>) {
    && (forall i :: 0 <= i < |ops| ==> start <= Begin(ops[i]) <= End(ops[i]))
    && (forall i, j :: 0 <= i < j < |ops| ==> End(ops[i]) <= Begin(ops[j]))
  }

  /**
   While the circuit is open and no probe is out, the limiter has not been touched since the
   opening: the breaker refuses before the limiter is reached.
   */
  ghost predicate Undisturbed(l: Link, clock: real) {
    && Sound(l.bucket) && l.bucket.updatedAt <= clock
    && (l.breaker.halfOpen ==> l.breaker.openedAt.Some?)
    && (l.breaker.openedAt.Some? ==> l.breaker.openedAt.value <= clock)
    && (l.breaker.openedAt.Some? && !l.breaker.halfOpen ==> l.bucket.updatedAt <= l.breaker.openedAt.value)
  }

  ghost predicate SameSettings(a: Link, b: Link) {
    && a.bucket.capacity == b.bucket.capacity && a.bucket.rate == b.bucket.rate
    && a.breaker.threshold == b.breaker.threshold && a.breaker.reset == b.breaker.reset
  }

  lemma ApplyKeepsUndisturbed(l: Link, op: Op, clock: real)
    requires Undisturbed(l, clock) && clock <= Begin(op) <= End(op)
    ensures Undisturbed(Apply(l, op), End(op)) && SameSettings(l, Apply(l, op))
  {
    if op.Ask? {
      StepStaysSound(l.bucket, Take(op.taken, 1.0));
    }
  }

  lemma {:induction false} AlwaysUndisturbed(l: Link, ops: seq<Op>, start: real)
    requires Undisturbed(l, start) && Monotone(start, ops)
    ensures Undisturbed(ApplyAll(l, ops), LatestTime(start, ops))
    ensures SameSettings(l, ApplyAll(l, ops))
    decreases |ops|
  {
    if ops != [] {
      AlwaysUndisturbed(l, Front(ops), start);
      ApplyKeepsUndisturbed(ApplyAll(l, Front(ops)), Last(ops), LatestTime(start, Front(ops)));
    }
  }

  /** At least one token fits, and at least one flows back during a reset period. */
  ghost predicate Provisioned(l: Link) { l.bucket.capacity >= 1.0 && l.breaker.reset * l.bucket.rate >= 1.0 }

  lemma EnoughRefill(idle: real, reset: real, rate: real)
    requires rate >= 0.0 && reset * rate >= 1.0 && idle >= reset
    ensures Max(0.0, idle) * rate >= 1.0
  {
    var waited := Max(0.0, idle);
    ProductNonNegative(waited - reset, rate);
    assert waited * rate == (waited - reset) * rate + reset * rate;
  }

  /** With a token's worth of refill per reset period, a granted probe always finds its token. */
  lemma ProbeFindsToken(l: Link, asked: real, taken: real, clock: real)
    requires Undisturbed(l, clock) && clock <= asked <= taken
    requires Provisioned(l)
    requires StateAt(l.breaker, asked) == HalfOpen && !l.breaker.halfOpen
    ensures Guard(l, asked, taken).1 == Admitted
  {
    assert taken - l.bucket.updatedAt >= l.breaker.reset;
    EnoughRefill(taken - l.bucket.updatedAt, l.breaker.reset, l.bucket.rate);
  }

  ghost function LatestTime(start: real, ops: seq<Op>): real { if ops == [] then start else End(Last(ops)) }

  lemma HalfOpenGuard(at: Link, asked: real, taken: real, clock: real)
    requires Undisturbed(at, clock) && clock <= asked <= taken
    requires Provisioned(at) && StateAt(at.breaker, asked) == HalfOpen
    ensures Guard(at, asked, taken).1 == if at.breaker.halfOpen then CircuitOpen else Admitted
  {
    if !at.breaker.halfOpen {
      ProbeFindsToken(at, asked, taken, clock);
    }
  }

  lemma SameProvision(a: Link, b: Link)
    requires SameSettings(a, b) && Provisioned(a)
    ensures Provisioned(b)
  {
  }

  /** For every interleaving of guards and records: a probe granted by the breaker is never refused by the limiter. */
  lemma ProbeNeverRateLimited(l: Link, ops: seq<Op>, start: real, asked: real, taken: real, at: Link)
    requires Undisturbed(l, start) && Monotone(start, ops) && LatestTime(start, ops) <= asked <= taken
    requires Provisioned(l)
    requires at == ApplyAll(l, ops) && StateAt(at.breaker, asked) == HalfOpen
    ensures Guard(at, asked, taken).1 == if at.breaker.halfOpen then CircuitOpen else Admitted
  {
    AlwaysUndisturbed(l, ops, start);
    SameProvision(l, at);
    HalfOpenGuard(at, asked, taken, LatestTime(start, ops));
  }

  /** Calls admitted so far that have not been recorded yet. */
  function Pending(l: Link, ops: seq<Op>): int {
    if ops == [] then 0
    else
      Pending(l, Front(ops)) +
      match Last(ops)
      case Ask(asked, taken) => if Guard(ApplyAll(l, Front(ops)), asked, taken).1 == Admitted then 1 else 0
      case Report(_, _) => -1
  }

  /** Only admitted calls are recorded, each once. */
  ghost predicate Accountable(l: Link, ops: seq<Op>)
    decreases |ops|
  {
    Pending(l, ops) >= 0 && (ops == [] || Accountable(l, Front(ops)))
  }

  lemma MonotoneFront(start: real, ops: seq<Op>)
    requires ops != [] && Monotone(start, ops)
    ensures Monotone(start, Front(ops)) && LatestTime(start, Front(ops)) <= Begin(Last(ops)) <= End(Last(ops))
  {
  }

  /**
   For every interleaving of guards and records above the bound: while a probe is out, some admitted
   call has not been recorded yet. So no interleaving is stuck once all admitted calls are recorded.
   */
  lemma {:induction false} ProbeIsPending(l: Link, ops: seq<Op>, start: real)
    requires Undisturbed(l, start) && Monotone(start, ops) && Provisioned(l)
    requires !l.breaker.halfOpen && Accountable(l, ops)
    ensures ApplyAll(l, ops).breaker.halfOpen ==> Pending(l, ops) > 0
    decreases |ops|
  {
    if ops != [] {
      var front, op, at := Front(ops), Last(ops), ApplyAll(l, Front(ops));
      MonotoneFront(start, ops);
      ProbeIsPending(l, front, start);
      assert Pending(l, front) >= 0;
      if op.Ask? && StateAt(at.breaker, op.asked) == HalfOpen {
        ProbeNeverRateLimited(l, front, start, op.asked, op.taken, at);
      }
    }
  }

  // ----- One message after another

  /** A send: the guard reads the clock at `at` and `taken`; if it admits, the attempt is recorded at `done`. */
  datatype Message = Message(at: real, taken: real, done: real, result: SendResult)

  function SendOne(l: Link, m: Message): (Link, Verdict) {
    var (guarded, verdict) := Guard(l, m.at, m.taken);
    (if verdict == Admitted then Record(guarded, m.done, m.result) else guarded, verdict)
  }

  function SendAll(l: Link, messages: seq<Message>): Link
    decreases |messages|
  {
    if messages == [] then l else SendAll(SendOne(l, messages[0]).0, messages[1..])
  }

  ghost predicate InOrder(start: real, messages: seq<Message>)
    decreases |messages|
  {
    messages == [] || (&& start <= messages[0].at <= messages[0].taken <= messages[0].done
                       && InOrder(messages[0].done, messages[1..]))
  }

  function Clock(start: real, messages: seq<Message>): real { if messages == [] then start else Last(messages).done }

  lemma SendKeepsUndisturbed(l: Link, m: Message, clock: real)
    requires Undisturbed(l, clock) && clock <= m.at <= m.taken <= m.done
    ensures Undisturbed(SendOne(l, m).0, m.done) && SameSettings(l, SendOne(l, m).0)
  {
    ApplyKeepsUndisturbed(l, Ask(m.at, m.taken), clock);
    ApplyKeepsUndisturbed(Guard(l, m.at, m.taken).0, Report(m.done, m.result), m.taken);
  }

  /** Between messages a spent probe means the probe was refused: nobody will ever report on it. */
  ghost predicate Stuck(l: Link) { l.breaker.halfOpen && l.breaker.openedAt.Some? }

  /** A stuck channel refuses every later message, whenever it comes. */
  lemma {:induction false} StuckForever(l: Link, messages: seq<Message>, asked: real, taken: real)
    requires Stuck(l)
    ensures SendAll(l, messages) == l && Guard(SendAll(l, messages), asked, taken).1 == CircuitOpen
    decreases |messages|
  {
    if messages != [] {
      StuckForever(l, messages[1..], asked, taken);
    }
  }

  lemma {:induction false} NeverStuck(l: Link, messages: seq<Message>, start: real)
    requires Undisturbed(l, start) && InOrder(start, messages) && !l.breaker.halfOpen
    requires Provisioned(l)
    ensures !SendAll(l, messages).breaker.halfOpen
    ensures Undisturbed(SendAll(l, messages), Clock(start, messages)) && SameSettings(l, SendAll(l, messages))
    decreases |messages|
  {
    if messages != [] {
      var m := messages[0];
      SendKeepsUndisturbed(l, m, start);
      if StateAt(l.breaker, m.at) == HalfOpen {
        ProbeFindsToken(l, m.at, m.taken, start);
      }
      NeverStuck(SendOne(l, m).0, messages[1..], m.done);
    }
  }

  // ----- How a badly tuned channel gets stuck

  lemma {:induction false} SendAllAppend(l: Link, a: seq<Message>, b: seq<Message>, start: real)
    requires InOrder(start, a) && InOrder(Clock(start, a), b)
    ensures SendAll(l, a + b) == SendAll(SendAll(l, a), b)
    ensures InOrder(start, a + b) && Clock(start, a + b) == Clock(Clock(start, a), b)
    decreases |a|
  {
    if a == [] {
      assert a + b == b;
    } else {
      SendAllAppend(SendOne(l, a[0]).0, a[1..], b, a[0].done);
      assert (a + b)[1..] == a[1..] + b;
    }
  }

  /** `k` messages delivered at one instant take `k` tokens. */
  lemma {:induction false} Drain(l: Link, k: nat, now: real) returns (messages: seq<Message>)
    requires l.breaker.openedAt.None? && !l.breaker.halfOpen && l.breaker.failures == 0
    requires l.bucket.updatedAt == now && k as real <= l.bucket.tokens <= l.bucket.capacity
    ensures InOrder(now, messages) && Clock(now, messages) == now
    ensures SendAll(l, messages) == l.(bucket := l.bucket.(tokens := l.bucket.tokens - k as real))
    decreases k
  {
    if k == 0 {
      messages := [];
    } else {
      var m := Message(now, now, now, Delivered);
      var next := l.(bucket := l.bucket.(tokens := l.bucket.tokens - 1.0));
      assert SendOne(l, m).0 == next;
      var rest := Drain(next, k - 1, now);
      messages := [m] + rest;
      assert messages[1..] == rest;
    }
  }

  /** `k` failures, each as soon as one token is back, trip the breaker with the bucket empty. */
  lemma {:induction false} Trip(l: Link, k: nat, now: real, step: real) returns (messages: seq<Message>)
    requires l.breaker.openedAt.None? && !l.breaker.halfOpen && k >= 1 && l.breaker.failures + k == l.breaker.threshold
    requires l.bucket.updatedAt == now && l.bucket.tokens == 0.0 && l.bucket.capacity >= 1.0
    requires step >= 0.0 && step * l.bucket.rate == 1.0
    ensures InOrder(now, messages)
    ensures var end := SendAll(l, messages);
            && SameSettings(l, end) && !end.breaker.halfOpen
            && end.bucket.tokens == 0.0 && end.bucket.updatedAt == Clock(now, messages)
            && end.breaker.openedAt == Some(Clock(now, messages))
    decreases k
  {
    var t := now + step;
    var m := Message(t, t, t, Undelivered);
    assert (t - now) * l.bucket.rate == 1.0 by { assert t - now == step; }
    var next := SendOne(l, m).0;
    assert next.bucket == l.bucket.(updatedAt := t);
    if k == 1 {
      messages := [m];
      assert messages[1..] == [];
      assert SendAll(l, messages) == next;
    } else {
      var rest := Trip(next, k - 1, t, step);
      messages := [m] + rest;
      assert messages[1..] == rest;
    }
  }

  lemma SixtyTimes(total: real, gain: real)
    requires total == 60.0 * gain && total < 60.0
    ensures gain < 1.0
  {
  }

  lemma PerMinute(n: real, rate: real, reset: real)
    requires n == rate * 60.0
    ensures n * reset == 60.0 * (reset * rate)
  {
  }

  /** Less than one message per reset period is less than one token per reset period. */
  lemma ShortReset(n: real, rate: real, reset: real, wait: real, gain: real)
    requires n == rate * 60.0 && n * reset < 60.0
    requires wait == Max(0.0, reset) && gain == wait * rate
    ensures gain < 1.0
  {
    if reset > 0.0 {
      PerMinute(n, rate, reset);
      SixtyTimes(n * reset, gain);
    }
  }

  lemma LevelAfter(up: real, at: real, rate: real, wait: real, gain: real, level: real)
    requires at == up + wait && wait >= 0.0 && gain == wait * rate && gain < 1.0
    requires level == 0.0 + Max(0.0, at - up) * rate
    ensures level < 1.0
  {
    assert Max(0.0, at - up) == wait;
  }

  /** Waiting out the reset period brings in `gain`, which is less than one token. */
  ghost predicate Underprovisioned(l: Link, gain: real) {
    gain == Max(0.0, l.breaker.reset) * l.bucket.rate && gain < 1.0
  }

  lemma ShortResetUnderprovisions(perMinute: nat, threshold: nat, reset: real, start: real, l: Link, gain: real)
    requires perMinute as real * reset < 60.0
    requires SameSettings(NewLink(perMinute, threshold, reset, start), l) && gain == Max(0.0, reset) * l.bucket.rate
    ensures Underprovisioned(l, gain)
  {
    ShortReset(perMinute as real, l.bucket.rate, reset, Max(0.0, reset), gain);
  }

  /** An empty bucket at the opening leaves the probe of a short reset without a token. */
  lemma ShortResetStrandsProbe(l: Link, tripped: real, gain: real, at: real)
    requires l.breaker.openedAt == Some(tripped) && !l.breaker.halfOpen
    requires l.bucket.tokens == 0.0 && l.bucket.updatedAt == tripped && l.bucket.capacity >= 1.0
    requires Underprovisioned(l, gain) && at == tripped + Max(0.0, l.breaker.reset)
    ensures var probe := [Message(at, at, at, Delivered)];
            InOrder(tripped, probe) && Stuck(SendAll(l, probe))
  {
    LevelAfter(tripped, at, l.bucket.rate, Max(0.0, l.breaker.reset), gain,
               l.bucket.tokens + Max(0.0, at - l.bucket.updatedAt) * l.bucket.rate);
    var probe := [Message(at, at, at, Delivered)];
    assert probe[1..] == [];
    assert SendAll(l, probe) == SendOne(l, probe[0]).0;
  }

  lemma TripEmpty(perMinute: nat, threshold: nat, reset: real, start: real) returns (messages: seq<Message>)
    requires perMinute >= 1 && threshold >= 1
    ensures InOrder(start, messages)
    ensures var l := NewLink(perMinute, threshold, reset, start);
            var end := SendAll(l, messages);
            && SameSettings(l, end) && !end.breaker.halfOpen
            && end.bucket.tokens == 0.0 && end.bucket.updatedAt == Clock(start, messages)
            && end.breaker.openedAt == Some(Clock(start, messages))
  {
    var l := NewLink(perMinute, threshold, reset, start);
    var n := perMinute as real;
    var drained := Drain(l, perMinute, start);
    assert 60.0 / n * (n / 60.0) == 1.0;
    var failing := Trip(SendAll(l, drained), threshold, start, 60.0 / n);
    SendAllAppend(l, drained, failing, start);
    messages := drained + failing;
  }

  /** Below the bound every channel has a history that leaves it stuck, whatever its threshold. */
  lemma GetsStuck(perMinute: nat, threshold: nat, reset: real, start: real) returns (messages: seq<Message>)
    requires perMinute >= 1 && threshold >= 1
    requires perMinute as real * reset < 60.0
    ensures InOrder(start, messages) && Stuck(SendAll(NewLink(perMinute, threshold, reset, start), messages))
  {
    var l := NewLink(perMinute, threshold, reset, start);
    var history := TripEmpty(perMinute, threshold, reset, start);
    var open, tripped := SendAll(l, history), Clock(start, history);
    var gain := Max(0.0, reset) * open.bucket.rate;
    ShortResetUnderprovisions(perMinute, threshold, reset, start, open, gain);
    var at := tripped + Max(0.0, reset);
    ShortResetStrandsProbe(open, tripped, gain, at);
    var probe := [Message(at, at, at, Delivered)];
    SendAllAppend(l, history, probe, start);
    messages := history + probe;
  }

  ghost predicate CanStick(l: Link, start: real) {
    exists messages :: InOrder(start, messages) && Stuck(SendAll(l, messages))
  }

  /**
   A channel can never get stuck, whatever is sent and whenever, if and only if at least one
   message's worth of tokens flows back during one reset period.
   */
  lemma NeverStuckIff(perMinute: nat, threshold: nat, reset: real, start: real)
    requires perMinute >= 1 && threshold >= 1
    ensures !CanStick(NewLink(perMinute, threshold, reset, start), start) <==> perMinute as real * reset >= 60.0
  {
    var l := NewLink(perMinute, threshold, reset, start);
    if perMinute as real * reset >= 60.0 {
      ProvisionedFromStart(perMinute, threshold, reset, start);
      forall messages | InOrder(start, messages) ensures !Stuck(SendAll(l, messages)) {
        NeverStuck(l, messages, start);
      }
    } else {
      var messages := GetsStuck(perMinute, threshold, reset, start);
      assert Stuck(SendAll(l, messages));
    }
  }

  lemma RestedLinkAdmits(l: Link, clock: real, now: real, taken: real)
    requires Undisturbed(l, clock) && !l.breaker.halfOpen && Provisioned(l)
    requires clock + l.breaker.reset <= now <= taken && clock <= now
    ensures Guard(l, now, taken).1 == Admitted
  {
    if l.breaker.openedAt.None? {
      EnoughRefill(taken - l.bucket.updatedAt, l.breaker.reset, l.bucket.rate);
    } else {
      ProbeFindsToken(l, now, taken, clock);
    }
  }

  lemma ProvisionedFromStart(perMinute: nat, threshold: nat, reset: real, start: real)
    requires perMinute >= 1 && perMinute as real * reset >= 60.0
    ensures Provisioned(NewLink(perMinute, threshold, reset, start)) && reset >= 0.0
  {
    var n := perMinute as real;
    PerMinute(n, n / 60.0, reset);
    if reset < 0.0 {
      ProductNonNegative(n, -reset);
    }
  }

  /** After any history, a channel above the bound admits the next message once it has rested for the reset period. */
  lemma AdmitsAfterRest(perMinute: nat, threshold: nat, reset: real, start: real, messages: seq<Message>, now: real,
                        taken: real)
    requires perMinute >= 1 && threshold >= 1 && perMinute as real * reset >= 60.0 && InOrder(start, messages)
    requires Clock(start, messages) + reset <= now <= taken
    ensures Guard(SendAll(NewLink(perMinute, threshold, reset, start), messages), now, taken).1 == Admitted
  {
    var l := NewLink(perMinute, threshold, reset, start);
    ProvisionedFromStart(perMinute, threshold, reset, start);
    NeverStuck(l, messages, start);
    SameProvision(l, SendAll(l, messages));
    RestedLinkAdmits(SendAll(l, messages), Clock(start, messages), now, taken);
  }
}
