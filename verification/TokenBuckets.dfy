/**
  The token bucket of the in-memory rate limiter: exact real-valued tokens, whole nanoseconds of time.

  `Level` is the value of one bucket; the class `TokenBucket` is the object the source updates in place.
  Beyond what one call computes, the module proves what a caller can rely on: how long a refused request
  has to wait (both directions), and how many requests any run of interleaved steps lets through.
 */
module TokenBuckets {
  import opened Numbers

  // Capacity is this many seconds' worth of refill.
  const BURST_MULTIPLIER: real := 2.0

  // Configured rates are positive whole numbers of requests per second.
  type Rate = r: real | r >= 1.0 witness 1.0

  datatype Level = Level(tokens: real, last: int)

  function Capacity(rate: Rate): real {
    rate * BURST_MULTIPLIER
  }

  function Full(rate: Rate, now: int): Level {
    Level(Capacity(rate), now)
  }

  // Tokens a bucket earns over `elapsed` nanoseconds.
  function Earned(rate: Rate, elapsed: int): real {
    elapsed as real / SECOND as real * rate
  }

  function Refill(rate: Rate, b: Level, now: int): Level {
    if now > b.last then Level(MinReal(Capacity(rate), b.tokens + Earned(rate, now - b.last)), now) else b
  }

  // How long until one whole token is there: the exact time truncated to a nanosecond, plus one millisecond.
  function WaitFor(rate: Rate, tokens: real): int {
    ((1.0 - tokens) / rate * SECOND as real).Floor + MILLISECOND
  }

  // The level after an attempt to take one token, and the wait imposed (0 when the token was taken).
  function Consume(rate: Rate, b: Level, now: int): (Level, int) {
    var r := Refill(rate, b, now);
    if r.tokens >= 1.0 then (r.(tokens := r.tokens - 1.0), 0) else (r, WaitFor(rate, r.tokens))
  }

  function Refund(rate: Rate, b: Level): Level {
    b.(tokens := MinReal(Capacity(rate), b.tokens + 1.0))
  }

  ghost predicate WellFormed(rate: Rate, b: Level) {
    0.0 <= b.tokens <= Capacity(rate)
  }

  // ---------------------------------------------------------------- arithmetic of refilling

  lemma EarnedAdds(rate: Rate, x: int, y: int)
    ensures Earned(rate, x + y) == Earned(rate, x) + Earned(rate, y)
  {
    var a, b := x as real / SECOND as real, y as real / SECOND as real;
    assert (x + y) as real / SECOND as real == a + b;
    assert (a + b) * rate == a * rate + b * rate;
  }

  lemma EarnedGrows(rate: Rate, x: int, y: int)
    requires x <= y
    ensures Earned(rate, x) <= Earned(rate, y)
  {
    EarnedAdds(rate, x, y - x);
    assert (y - x) as real / SECOND as real * rate >= 0.0;
  }

  // Two seconds of rest fill any bucket.
  lemma RestFills(rate: Rate, b: Level, now: int)
    requires WellFormed(rate, b) && b.last + 2 * SECOND <= now
    ensures Refill(rate, b, now) == Full(rate, now)
  {
    EarnedGrows(rate, 2 * SECOND, now - b.last);
    assert Earned(rate, 2 * SECOND) == 2.0 * rate;
  }

  lemma RefillKeeps(rate: Rate, b: Level, now: int)
    requires WellFormed(rate, b)
    ensures WellFormed(rate, Refill(rate, b, now))
    ensures b.tokens <= Refill(rate, b, now).tokens
  {
    if now > b.last { EarnedGrows(rate, 0, now - b.last); }
  }

  // Refilling in two stages is refilling once.
  lemma RefillTwice(rate: Rate, b: Level, t1: int, t2: int)
    requires WellFormed(rate, b) && t1 <= t2
    ensures Refill(rate, Refill(rate, b, t1), t2) == Refill(rate, b, t2)
  {
    if b.last < t1 < t2 {
      EarnedAdds(rate, t1 - b.last, t2 - t1);
      EarnedGrows(rate, 0, t2 - t1);
      EarnedGrows(rate, 0, t1 - b.last);
    }
  }

  // The level can rise by no more than what the elapsed time earns.
  lemma RefillBounded(rate: Rate, b: Level, t1: int, t2: int)
    requires WellFormed(rate, b) && t1 <= t2
    ensures Refill(rate, b, t2).tokens <= Refill(rate, b, t1).tokens + Earned(rate, t2 - t1)
  {
    RefillTwice(rate, b, t1, t2);
    EarnedGrows(rate, 0, t2 - t1);
    var r := Refill(rate, b, t1);
    if t2 > r.last { EarnedGrows(rate, t2 - r.last, t2 - t1); }
  }

  // ---------------------------------------------------------------- what a refusal promises

  lemma WaitEarns(rate: Rate, tokens: real, d: int)
    requires 0.0 <= tokens < 1.0
    ensures d >= WaitFor(rate, tokens) ==> tokens + Earned(rate, d) >= 1.0
    ensures d < WaitFor(rate, tokens) - MILLISECOND ==> tokens + Earned(rate, d) < 1.0
    ensures WaitFor(rate, tokens) >= MILLISECOND
  {
    var exact := (1.0 - tokens) / rate * SECOND as real;
    assert (1.0 - tokens) / rate > 0.0;
    assert exact > 0.0;
    assert exact / SECOND as real == (1.0 - tokens) / rate;
    assert exact / SECOND as real * rate == 1.0 - tokens;
    if d as real >= exact {
      assert d as real / SECOND as real >= exact / SECOND as real;
      assert d as real / SECOND as real * rate >= exact / SECOND as real * rate;
    } else {
      assert d as real / SECOND as real < exact / SECOND as real;
      assert d as real / SECOND as real * rate < exact / SECOND as real * rate;
    }
  }

  /** A refused caller that comes back, with no one else having touched the bucket, is served after the wait
      it was told and refused again if it comes more than a millisecond (and one nanosecond) early. */
  lemma WaitIsSufficientAndTight(rate: Rate, b: Level, now: int, later: int)
    requires WellFormed(rate, b) && b.last <= now <= later
    requires Consume(rate, b, now).1 > 0
    ensures later >= now + Consume(rate, b, now).1 ==> Consume(rate, Consume(rate, b, now).0, later).1 == 0
    ensures later < now + Consume(rate, b, now).1 - MILLISECOND ==> Consume(rate, Consume(rate, b, now).0, later).1 > 0
  {
    RefillKeeps(rate, b, now);
    var r := Refill(rate, b, now);
    assert r.last == now;
    WaitEarns(rate, r.tokens, later - now);
    RefillKeeps(rate, r, later);
    var again := Refill(rate, r, later);
    if again.tokens < 1.0 { WaitEarns(rate, again.tokens, 0); }
  }

  // ---------------------------------------------------------------- interleaved requests on one bucket

  /** One atomic step on one bucket. A request takes a token, is then in flight while the other bucket
      decides, and either keeps the token (it is admitted) or gives it back. */
  datatype Op = Take(now: int) | Keep | GiveBack

  // What one bucket and the requests in flight on it look like.
  datatype Track = Track(level: Level, inFlight: nat)

  ghost predicate Enabled(tr: Track, op: Op) {
    op.Take? || tr.inFlight > 0
  }

  function Apply(rate: Rate, tr: Track, op: Op): Track
    requires Enabled(tr, op)
  {
    match op
    case Take(now) =>
      var (level, wait) := Consume(rate, tr.level, now);
      Track(level, if wait == 0 then tr.inFlight + 1 else tr.inFlight)
    case Keep => tr.(inFlight := tr.inFlight - 1)
    case GiveBack => Track(Refund(rate, tr.level), tr.inFlight - 1)
  }

  ghost predicate Runs(rate: Rate, tr: Track, ops: seq<Op>)
    decreases |ops|
  {
    ops == [] || (Enabled(tr, ops[0]) && Runs(rate, Apply(rate, tr, ops[0]), ops[1..]))
  }

  function After(rate: Rate, tr: Track, ops: seq<Op>): Track
    requires Runs(rate, tr, ops)
    decreases |ops|
  {
    if ops == [] then tr else After(rate, Apply(rate, tr, ops[0]), ops[1..])
  }

  function Admitted(ops: seq<Op>): nat {
    if ops == [] then 0 else (if ops[0].Keep? then 1 else 0) + Admitted(ops[1..])
  }

  ghost predicate Within(ops: seq<Op>, from: int, to: int) {
    forall i :: 0 <= i < |ops| && ops[i].Take? ==> from <= ops[i].now <= to
  }

  lemma ConsumeKeeps(rate: Rate, b: Level, now: int)
    requires WellFormed(rate, b)
    ensures WellFormed(rate, Consume(rate, b, now).0)
    ensures Consume(rate, b, now).1 >= 0
    ensures Consume(rate, b, now).1 == 0 <==> Refill(rate, b, now).tokens >= 1.0
  {
    RefillKeeps(rate, b, now);
    var t := Refill(rate, b, now).tokens;
    if t < 1.0 { WaitEarns(rate, t, 0); }
  }

  lemma {:induction false} RunsKeep(rate: Rate, tr: Track, ops: seq<Op>)
    requires WellFormed(rate, tr.level) && Runs(rate, tr, ops)
    ensures WellFormed(rate, After(rate, tr, ops).level)
    decreases |ops|
  {
    if ops != [] {
      if ops[0].Take? { ConsumeKeeps(rate, tr.level, ops[0].now); }
      RunsKeep(rate, Apply(rate, tr, ops[0]), ops[1..]);
    }
  }

  // What a bucket can still grant to requests whose clock readings lie between `from` and `to`: its level at `from`
  // and the refill of what is left of the interval. A level stamped by a later reading earns only from there on.
  function Stock(rate: Rate, b: Level, from: int, to: int): real {
    Refill(rate, b, from).tokens + Earned(rate, Max(0, to - Max(b.last, from)))
  }

  lemma StockBounded(rate: Rate, b: Level, from: int, to: int)
    requires WellFormed(rate, b) && from <= to
    ensures 0.0 <= Stock(rate, b, from, to) <= Refill(rate, b, from).tokens + Earned(rate, to - from)
    ensures Refill(rate, b, from).tokens <= Capacity(rate)
  {
    RefillKeeps(rate, b, from);
    var left := Max(0, to - Max(b.last, from));
    EarnedGrows(rate, 0, left);
    EarnedGrows(rate, left, to - from);
  }

  // A reading from before the interval takes nothing beyond what the bucket holds when the interval begins.
  lemma StockStale(rate: Rate, b: Level, now: int, from: int, to: int)
    requires WellFormed(rate, b) && now <= from <= to
    ensures Stock(rate, Consume(rate, b, now).0, from, to) <= Stock(rate, b, from, to)
  {
    ConsumeKeeps(rate, b, now);
    RefillTwice(rate, b, now, from);
    var r := Refill(rate, b, now);
    if from > r.last { EarnedGrows(rate, 0, from - r.last); }
  }

  // Refilling at a reading of the interval does not add to the stock, in whatever order readings come.
  lemma StockRefilled(rate: Rate, b: Level, from: int, now: int, to: int)
    requires WellFormed(rate, b) && from <= now <= to
    ensures Stock(rate, Refill(rate, b, now), from, to) <= Stock(rate, b, from, to)
    ensures Refill(rate, b, now).last >= from
  {
    if now > b.last {
      var since := Max(b.last, from);
      EarnedAdds(rate, now - since, to - now);
      EarnedGrows(rate, 0, now - since);
      if b.last < from { EarnedAdds(rate, from - b.last, now - from); }
    }
  }

  lemma StockTaken(rate: Rate, b: Level, from: int, now: int, to: int)
    requires WellFormed(rate, b) && from <= now <= to
    ensures var (level, wait) := Consume(rate, b, now);
            Stock(rate, level, from, to) + (if wait == 0 then 1.0 else 0.0) <= Stock(rate, b, from, to)
  {
    ConsumeKeeps(rate, b, now);
    StockRefilled(rate, b, from, now, to);
  }

  lemma StockRefunded(rate: Rate, b: Level, from: int, to: int)
    requires WellFormed(rate, b)
    ensures WellFormed(rate, Refund(rate, b))
    ensures Stock(rate, Refund(rate, b), from, to) <= Stock(rate, b, from, to) + 1.0
  {
    RefundRaisesByOne(rate, b, from);
  }

  /** Admissions are paid for: by the tokens held at the start, by what the elapsed time earns, and by the
      requests already in flight at the start less those still in flight at the end. The clock readings of the
      requests lie in the interval but reach the bucket in any order. */
  lemma AdmissionsArePaid(rate: Rate, tr: Track, ops: seq<Op>, from: int, to: int)
    requires WellFormed(rate, tr.level) && Runs(rate, tr, ops)
    requires Within(ops, from, to) && from <= to
    ensures Admitted(ops) as real + After(rate, tr, ops).inFlight as real
         <= Refill(rate, tr.level, from).tokens + Earned(rate, to - from) + tr.inFlight as real
  {
    StockPays(rate, tr, ops, from, to);
    StockBounded(rate, tr.level, from, to);
  }

  lemma {:induction false} StockPays(rate: Rate, tr: Track, ops: seq<Op>, from: int, to: int)
    requires WellFormed(rate, tr.level) && Runs(rate, tr, ops)
    requires Within(ops, from, to) && from <= to
    ensures Admitted(ops) as real + After(rate, tr, ops).inFlight as real
         <= Stock(rate, tr.level, from, to) + tr.inFlight as real
    decreases |ops|
  {
    if ops == [] {
      StockBounded(rate, tr.level, from, to);
    } else {
      var next := Apply(rate, tr, ops[0]);
      assert Within(ops[1..], from, to);
      match ops[0] {
        case Take(now) =>
          ConsumeKeeps(rate, tr.level, now);
          StockTaken(rate, tr.level, from, now, to);
        case Keep =>
        case GiveBack => StockRefunded(rate, tr.level, from, to);
      }
      StockPays(rate, next, ops[1..], from, to);
    }
  }

  lemma RefundRaisesByOne(rate: Rate, b: Level, now: int)
    requires WellFormed(rate, b)
    ensures WellFormed(rate, Refund(rate, b))
    ensures Refill(rate, Refund(rate, b), now).tokens <= Refill(rate, b, now).tokens + 1.0
  {
    if now > b.last { EarnedGrows(rate, 0, now - b.last); }
  }

  /** The burst bound under every interleaving of takes, admissions and refunds of concurrent requests:
      after any history, an interval admits at most its capacity, its refill, and the requests that were
      already in flight when it began. */
  lemma InterleavedBurstBound(rate: Rate, start: int, history: seq<Op>, window: seq<Op>, from: int, to: int)
    requires Runs(rate, Track(Full(rate, start), 0), history)
    requires Runs(rate, After(rate, Track(Full(rate, start), 0), history), window)
    requires Within(window, from, to) && from <= to
    ensures Admitted(window) as real
         <= Capacity(rate) + Earned(rate, to - from)
          + After(rate, Track(Full(rate, start), 0), history).inFlight as real
  {
    var tr := After(rate, Track(Full(rate, start), 0), history);
    RunsKeep(rate, Track(Full(rate, start), 0), history);
    StockBounded(rate, tr.level, from, to);
    AdmissionsArePaid(rate, tr, window, from, to);
  }

  // ---------------------------------------------------------------- exactly when the plain burst bound holds

  // From this state on, no interval admits more than capacity and refill, takes reading the clock within it.
  ghost predicate WithinBurst(rate: Rate, tr: Track) {
    forall window, from, to :: Runs(rate, tr, window) && Within(window, from, to) && from <= to ==>
      Admitted(window) as real <= Capacity(rate) + Earned(rate, to - from)
  }

  /** After any history, the plain burst bound on takes that read the clock within the interval holds from then on if
      and only if no request is in flight: a pending refund can always be used, within one instant, to admit one
      request more than the capacity. */
  lemma BurstBoundExactly(rate: Rate, start: int, history: seq<Op>)
    requires Runs(rate, Track(Full(rate, start), 0), history)
    ensures var tr := After(rate, Track(Full(rate, start), 0), history);
            WithinBurst(rate, tr) <==> tr.inFlight == 0
  {
    var tr := After(rate, Track(Full(rate, start), 0), history);
    RunsKeep(rate, Track(Full(rate, start), 0), history);
    if tr.inFlight == 0 {
      forall window, from, to | Runs(rate, tr, window) && Within(window, from, to) && from <= to
        ensures Admitted(window) as real <= Capacity(rate) + Earned(rate, to - from)
      {
        InterleavedBurstBound(rate, start, history, window, from, to);
      }
    } else {
      var window, from := RefundBeatsTheBound(rate, tr);
      assert Earned(rate, from - from) == 0.0;
    }
  }

  // Rest until the bucket is full, spend it, give the token in flight back, and spend that.
  lemma RefundBeatsTheBound(rate: Rate, tr: Track) returns (window: seq<Op>, from: int)
    requires WellFormed(rate, tr.level) && tr.inFlight > 0
    ensures Runs(rate, tr, window) && Within(window, from, from)
    ensures Admitted(window) as real > Capacity(rate)
  {
    from := tr.level.last + 2 * SECOND;
    RestFills(rate, tr.level, from);
    var n := Capacity(rate).Floor;
    var left := Capacity(rate) - n as real;
    var after := Track(Level(left, from), tr.inFlight);
    var refunded := Track(Level(left + 1.0, from), tr.inFlight - 1);
    assert Apply(rate, after, GiveBack) == refunded;
    var last := SpendThen(rate, refunded, 1, from, []);
    window := [GiveBack] + last;
    assert window[1..] == last;
    assert Runs(rate, after, window) && Admitted(window) == 1;
    window := SpendThen(rate, tr, n, from, window);
  }

  // `n` requests served at one instant, and then `rest`.
  lemma {:induction false} SpendThen(rate: Rate, tr: Track, n: nat, now: int, rest: seq<Op>) returns (ops: seq<Op>)
    requires var r := Refill(rate, tr.level, now);
             && r.last == now && r.tokens >= n as real
             && (n == 0 ==> Runs(rate, tr, rest))
             && Runs(rate, Track(Level(r.tokens - n as real, now), tr.inFlight), rest)
    requires Within(rest, now, now)
    ensures Runs(rate, tr, ops) && Within(ops, now, now) && Admitted(ops) == n + Admitted(rest)
    decreases n
  {
    if n == 0 {
      ops := rest;
    } else {
      var r := Refill(rate, tr.level, now);
      var taken := Track(Level(r.tokens - 1.0, now), tr.inFlight + 1);
      var kept := Track(taken.level, tr.inFlight);
      assert Refill(rate, kept.level, now) == kept.level;
      var more := SpendThen(rate, kept, n - 1, now, rest);
      var tail := [Keep] + more;
      assert tail[1..] == more && Runs(rate, taken, tail);
      ops := [Take(now)] + tail;
      assert ops[1..] == tail;
    }
  }

  // ---------------------------------------------------------------- the bucket object

  class TokenBucket {
    var tokens: real
    const rate: Rate
    var lastRefill: int

    ghost function Value(): Level
      reads this
    {
      Level(tokens, lastRefill)
    }

    constructor (rate: Rate, now: int)
      ensures Value() == Full(rate, now) && this.rate == rate
    {
      this.rate := rate;
      tokens, lastRefill := rate * BURST_MULTIPLIER, now;
    }

    method Take(now: int) returns (wait: int)
      modifies this
      ensures (Value(), wait) == Consume(rate, old(Value()), now)
    {
      var elapsed := now - lastRefill;
      if elapsed > 0 {
        tokens := tokens + elapsed as real / SECOND as real * rate;
        if tokens > rate * BURST_MULTIPLIER { tokens := rate * BURST_MULTIPLIER; }
        lastRefill := now;
      }
      if tokens >= 1.0 {
        tokens := tokens - 1.0;
        return 0;
      }
      var need := 1.0 - tokens;
      return (need / rate * SECOND as real).Floor + MILLISECOND;
    }

    method GiveBack()
      modifies this
      ensures Value() == Refund(rate, old(Value()))
    {
      tokens := tokens + 1.0;
      if tokens > rate * BURST_MULTIPLIER { tokens := rate * BURST_MULTIPLIER; }
    }
  }
}
