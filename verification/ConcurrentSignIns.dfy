/**
  Sign-in attempts on one address that overlap: each is checked, is in flight while its credentials are verified, and
  is then recorded by its outcome, with at most so many in flight at a time. The guard cannot refuse an attempt that it
  has let through already, so a cooldown that starts meanwhile does not stop it.
 */
module ConcurrentSignIns {
  import opened Wrappers
  import opened Reputation

  datatype State = State(entry: Option<Entry>, inFlight: nat)

  const START := State(None, 0)

  datatype Act =
    | Attempt(now: int)     // checked; in flight if no cooldown runs
    | Fail(now: int)        // one in flight turns out unauthorized
    | Succeed(now: int)     // one in flight succeeds
    | End(now: int)         // one in flight ends otherwise
    | Clean(now: int)       // the janitor

  // At most `limit` attempts are in flight.
  predicate Enabled(limit: nat, s: State, a: Act) {
    if a.Attempt? then s.inFlight < limit || MemPenalty(s.entry, a.now) > 0
    else a.Clean? || s.inFlight > 0
  }

  function Next(c: Config, s: State, a: Act): State
    requires a.Attempt? || a.Clean? || s.inFlight > 0
  {
    match a
    case Attempt(now) => if MemPenalty(s.entry, now) > 0 then s else s.(inFlight := s.inFlight + 1)
    case Fail(now) => State(Some(MemFailure(c, s.entry, now).0), s.inFlight - 1)
    case Succeed(_) => State(None, s.inFlight - 1)
    case End(_) => s.(inFlight := s.inFlight - 1)
    case Clean(now) => s.(entry := MemStep(c, s.entry, Sweep(now)).0)
  }

  ghost predicate Runs(c: Config, limit: nat, s: State, acts: seq<Act>)
    decreases |acts|
  {
    acts == [] || (Enabled(limit, s, acts[0]) && Runs(c, limit, Next(c, s, acts[0]), acts[1..]))
  }

  function After(c: Config, limit: nat, s: State, acts: seq<Act>): State
    requires Runs(c, limit, s, acts)
    decreases |acts|
  {
    if acts == [] then s else After(c, limit, Next(c, s, acts[0]), acts[1..])
  }

  // One attempt from its check to its record.
  function Alone(e: Option<Entry>, check: int, record: int, outcome: Outcome): seq<Act> {
    if MemPenalty(e, check) > 0 then [Attempt(check)]
    else match outcome
      case Unauthorized => [Attempt(check), Fail(record)]
      case Succeeded => [Attempt(check), Succeed(record)]
      case Other => [Attempt(check), End(record)]
  }

  /** An attempt that overlaps no other leaves the record exactly as the sequential guard does. */
  lemma AloneIsTheGuard(c: Config, limit: nat, s: State, check: int, record: int, outcome: Outcome)
    requires s.inFlight == 0 < limit
    ensures var acts := Alone(s.entry, check, record, outcome);
            && Runs(c, limit, s, acts)
            && After(c, limit, s, acts) == State(MemGuard(c, s.entry, SignIn(check, record, outcome)).0, 0)
  {
    var acts := Alone(s.entry, check, record, outcome);
    var s1 := Next(c, s, Attempt(check));
    if |acts| == 2 {
      var s2 := Next(c, s1, acts[1]);
      assert acts[1..] == [acts[1]] && acts[1..][1..] == [];
      assert Runs(c, limit, s2, []) && After(c, limit, s2, []) == s2;
      assert After(c, limit, s1, acts[1..]) == s2;
    } else {
      assert acts[1..] == [] && After(c, limit, s1, []) == s1;
    }
  }

  ghost predicate InTime(acts: seq<Act>, from: int) {
    acts == [] || (from <= acts[0].now && InTime(acts[1..], acts[0].now))
  }

  function Finish(acts: seq<Act>, from: int): int {
    if acts == [] then from else Finish(acts[1..], acts[0].now)
  }

  function Failures(acts: seq<Act>): nat {
    if acts == [] then 0 else (if acts[0].Fail? then 1 else 0) + Failures(acts[1..])
  }

  ghost predicate NoSuccess(acts: seq<Act>) {
    forall a <- acts :: !a.Succeed?
  }

  // ---------------------------------------------------------------- how many failures are still to come

  // `limit` failures at a time, as often as blocks fit into `span`.
  ghost function Volleys(limit: nat, block: int, span: int): nat
    requires block > 0
    decreases if span < 0 then 0 else span + 1
  {
    if span < 0 then 0 else limit + Volleys(limit, block, span - block)
  }

  lemma {:induction false} VolleysGrow(limit: nat, block: int, span: int, longer: int)
    requires block > 0 && span <= longer
    ensures Volleys(limit, block, span) <= Volleys(limit, block, longer)
    decreases if longer < 0 then 0 else longer + 1
  {
    if span >= 0 { VolleysGrow(limit, block, span - block, longer - block); }
  }

  lemma {:induction false} VolleysCount(limit: nat, block: int, span: int, q: nat)
    requires block > 0 && q * block <= span < (q + 1) * block
    ensures Volleys(limit, block, span) == (q + 1) * limit
    decreases q
  {
    if q > 0 {
      assert (q - 1) * block == q * block - block && (q + 1) * block == q * block + block;
      VolleysCount(limit, block, span - block, q - 1);
      assert (q + 1) * limit == q * limit + limit;
    } else {
      assert (0 + 1) * block == block && (0 + 1) * limit == limit;
    }
  }

  // What the record guarantees from a failure of the interval on.
  ghost predicate Kept(c: Config, limit: nat, s: State, now: int, to: int) {
    && s.inFlight <= limit && s.entry.Some?
    && var e := s.entry.value;
       && e.count >= 1 && e.seen <= now && to <= e.seen + c.retention
       && (e.count >= BlockCount(c) ==> e.until == Some(e.seen + c.block))
  }

  // Failures still to come: the counts below the block, and then, once a block runs, those in flight, and a volley for
  // every block that can still pass.
  ghost function ToCome(c: Config, limit: nat, s: State, now: int, to: int): int
    requires Positive(c) && s.entry.Some?
  {
    var e := s.entry.value;
    if e.count < BlockCount(c) then BlockCount(c) - 1 - e.count + Volleys(limit, c.block, to - now)
    else if now < e.seen + c.block then s.inFlight + Volleys(limit, c.block, to - (e.seen + c.block))
    else Volleys(limit, c.block, to - now)
  }

  lemma FailCounts(c: Config, limit: nat, s: State, a: Act, now: int, to: int)
    requires Positive(c) && Kept(c, limit, s, now, to) && a.Fail? && s.inFlight > 0 && now <= a.now <= to
    ensures var s' := Next(c, s, a);
            Kept(c, limit, s', a.now, to) && 1 + ToCome(c, limit, s', a.now, to) <= ToCome(c, limit, s, now, to)
  {
    var e := s.entry.value;
    VolleysGrow(limit, c.block, to - a.now, to - now);
    if e.count >= BlockCount(c) {
      VolleysGrow(limit, c.block, to - (a.now + c.block), to - (e.seen + c.block));
    }
  }

  lemma OtherCounts(c: Config, limit: nat, s: State, a: Act, now: int, to: int)
    requires Positive(c) && Kept(c, limit, s, now, to) && Enabled(limit, s, a) && now <= a.now <= to
    requires a.Attempt? || a.End? || a.Clean?
    ensures var s' := Next(c, s, a);
            Kept(c, limit, s', a.now, to) && ToCome(c, limit, s', a.now, to) <= ToCome(c, limit, s, now, to)
  {
    var e := s.entry.value;
    VolleysGrow(limit, c.block, to - a.now, to - now);
    if e.count >= BlockCount(c) && a.now >= e.seen + c.block {
      VolleysGrow(limit, c.block, to - a.now, to - (e.seen + c.block));
    }
  }

  lemma {:induction false} FinishIsLast(acts: seq<Act>, from: int)
    requires InTime(acts, from)
    ensures from <= Finish(acts, from)
  {
    if acts != [] { FinishIsLast(acts[1..], acts[0].now); }
  }

  lemma {:induction false} CountedFailures(c: Config, limit: nat, s: State, acts: seq<Act>, from: int, to: int)
    requires Positive(c) && Kept(c, limit, s, from, to) && Runs(c, limit, s, acts)
    requires InTime(acts, from) && Finish(acts, from) <= to && NoSuccess(acts)
    ensures Failures(acts) <= ToCome(c, limit, s, from, to)
    decreases |acts|
  {
    FinishIsLast(acts, from);
    if acts != [] {
      var a := acts[0];
      FinishIsLast(acts[1..], a.now);
      assert a in acts;
      if a.Fail? { FailCounts(c, limit, s, a, from, to); } else { OtherCounts(c, limit, s, a, from, to); }
      CountedFailures(c, limit, Next(c, s, a), acts[1..], a.now, to);
    } else {
      VolleysGrow(limit, c.block, -1, to - from);
    }
  }

  // ---------------------------------------------------------------- before the first failure of the interval

  ghost predicate Sane(c: Config, limit: nat, s: State, now: int) {
    && s.inFlight <= limit
    && (s.entry.Some? ==> s.entry.value.count >= 1 && s.entry.value.seen <= now)
  }

  lemma StepIsSane(c: Config, limit: nat, s: State, a: Act, now: int)
    requires Positive(c) && Sane(c, limit, s, now) && Enabled(limit, s, a) && now <= a.now
    ensures Sane(c, limit, Next(c, s, a), a.now)
  {
  }

  lemma FirstFailure(c: Config, limit: nat, s: State, a: Act, now: int, to: int)
    requires Positive(c) && Sane(c, limit, s, now) && a.Fail? && s.inFlight > 0
    requires now <= a.now <= to <= a.now + c.retention
    ensures var s' := Next(c, s, a);
            && Kept(c, limit, s', a.now, to)
            && 1 + ToCome(c, limit, s', a.now, to) <= BlockCount(c) - 1 + Volleys(limit, c.block, to - now)
  {
    VolleysGrow(limit, c.block, to - a.now, to - now);
  }

  lemma {:induction false} AnyFailures(c: Config, limit: nat, s: State, acts: seq<Act>, start: int, from: int, to: int)
    requires Positive(c) && Sane(c, limit, s, from) && Runs(c, limit, s, acts)
    requires InTime(acts, from) && Finish(acts, from) <= to && NoSuccess(acts)
    requires start <= from && to <= start + c.retention
    ensures Failures(acts) <= BlockCount(c) - 1 + Volleys(limit, c.block, to - from)
    decreases |acts|
  {
    FinishIsLast(acts, from);
    if acts != [] {
      var a := acts[0];
      FinishIsLast(acts[1..], a.now);
      assert a in acts;
      if a.Fail? {
        FirstFailure(c, limit, s, a, from, to);
        CountedFailures(c, limit, Next(c, s, a), acts[1..], a.now, to);
      } else {
        StepIsSane(c, limit, s, a, from);
        AnyFailures(c, limit, Next(c, s, a), acts[1..], start, a.now, to);
        VolleysGrow(limit, c.block, to - a.now, to - from);
      }
    }
  }

  lemma {:induction false} RunIsSane(c: Config, limit: nat, s: State, acts: seq<Act>, from: int)
    requires Positive(c) && Sane(c, limit, s, from) && Runs(c, limit, s, acts) && InTime(acts, from)
    ensures Sane(c, limit, After(c, limit, s, acts), Finish(acts, from))
    decreases |acts|
  {
    if acts != [] {
      StepIsSane(c, limit, s, acts[0], from);
      RunIsSane(c, limit, Next(c, s, acts[0]), acts[1..], acts[0].now);
    }
  }

  /**
    With at most `limit` attempts in flight, after any history, an interval within the retention and without a success
    sees at most threshold + delays - 1 + limit * (length / block + 1) failures.
   */
  lemma ConcurrentFailureBound(c: Config, limit: nat, history: seq<Act>, inside: seq<Act>,
                               start: int, from: int, to: int)
    requires Positive(c) && Runs(c, limit, START, history) && Runs(c, limit, After(c, limit, START, history), inside)
    requires InTime(history, start) && Finish(history, start) <= from
    requires InTime(inside, from) && Finish(inside, from) <= to <= from + c.retention && NoSuccess(inside)
    ensures Failures(inside) <= c.threshold + |c.delays| - 1 + ((to - from) / c.block + 1) * limit
  {
    RunIsSane(c, limit, START, history, start);
    FinishIsLast(inside, from);
    AnyFailures(c, limit, After(c, limit, START, history), inside, from, from, to);
    VolleysDivide(limit, c.block, to - from);
  }

  lemma VolleysDivide(limit: nat, block: int, span: int)
    requires block > 0 && span >= 0
    ensures Volleys(limit, block, span) == (span / block + 1) * limit
  {
    var q, r := span / block, span % block;
    assert span == q * block + r && 0 <= r < block;
    assert (q + 1) * block == q * block + block;
    VolleysCount(limit, block, span, q);
  }
}
