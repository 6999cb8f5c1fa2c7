/**
  Concurrent requests on the two-level limiter, step by step: a request reads the clock, locates its buckets under
  the limiter's lock, and then takes from each bucket under that bucket's own lock. Requests interleave between any
  two steps and reach a bucket in any order of their clock readings.
 */
module ConcurrentLimit {
  import opened Numbers
  import opened TokenBuckets
  import Limit = RateLimit

  type Uuid = Limit.Uuid
  const NIL: Uuid := Limit.NIL

  datatype Phase = Arrived | Located | UserTaken | WorkspaceRefused | Done(admitted: bool)

  datatype Thread = Thread(ws: Uuid, user: Uuid, now: int, phase: Phase)

  datatype State = State(users: map<Uuid, Level>, work: map<Uuid, Level>, threads: seq<Thread>)

  const START := State(map[], map[], [])

  datatype Step =
    | Arrive(ws: Uuid, user: Uuid, now: int)
    | Locate(i: nat)
    | TakeUser(i: nat)
    | TakeWorkspace(i: nat)
    | GiveBack(i: nat)

  predicate At(s: State, i: nat, phase: Phase) {
    i < |s.threads| && s.threads[i].phase == phase
  }

  predicate Enabled(s: State, st: Step) {
    match st
    case Arrive(_, _, _) => true
    case Locate(i) => At(s, i, Arrived)
    case TakeUser(i) => At(s, i, Located)
    case TakeWorkspace(i) => At(s, i, UserTaken)
    case GiveBack(i) => At(s, i, WorkspaceRefused)
  }

  function Move(s: State, i: nat, phase: Phase): State
    requires i < |s.threads|
  {
    s.(threads := s.threads[i := s.threads[i].(phase := phase)])
  }

  function Next(rates: Limit.Rates, s: State, st: Step): State
    requires Enabled(s, st)
  {
    match st
    case Arrive(ws, user, now) => s.(threads := s.threads + [Thread(ws, user, now, Arrived)])
    case Locate(i) =>
      var t := s.threads[i];
      Move(s, i, Located)
      .(users := s.users[t.user := Limit.Lookup(s.users, rates.user, t.user, t.now)],
        work := if t.ws == NIL then s.work else s.work[t.ws := Limit.Lookup(s.work, rates.work, t.ws, t.now)])
    case TakeUser(i) =>
      var t := s.threads[i];
      var (b, wait) := Consume(rates.user, Limit.Lookup(s.users, rates.user, t.user, t.now), t.now);
      Move(s, i, if wait > 0 then Done(false) else if t.ws == NIL then Done(true) else UserTaken)
      .(users := s.users[t.user := b])
    case TakeWorkspace(i) =>
      var t := s.threads[i];
      var (b, wait) := Consume(rates.work, Limit.Lookup(s.work, rates.work, t.ws, t.now), t.now);
      Move(s, i, if wait > 0 then WorkspaceRefused else Done(true)).(work := s.work[t.ws := b])
    case GiveBack(i) =>
      var t := s.threads[i];
      Move(s, i, Done(false))
      .(users := s.users[t.user := Refund(rates.user, Limit.Lookup(s.users, rates.user, t.user, t.now))])
  }

  ghost predicate Runs(rates: Limit.Rates, s: State, steps: seq<Step>)
    decreases |steps|
  {
    steps == [] || (Enabled(s, steps[0]) && Runs(rates, Next(rates, s, steps[0]), steps[1..]))
  }

  function After(rates: Limit.Rates, s: State, steps: seq<Step>): State
    requires Runs(rates, s, steps)
    decreases |steps|
  {
    if steps == [] then s else After(rates, Next(rates, s, steps[0]), steps[1..])
  }

  // ---------------------------------------------------------------- counting requests

  // A level of the limiter: one user across workspaces, or one workspace across users.
  datatype Scope = OfUser(user: Uuid) | OfWorkspace(ws: Uuid)

  predicate InScope(scope: Scope, t: Thread) {
    match scope
    case OfUser(user) => t.user == user
    case OfWorkspace(ws) => t.ws == ws
  }

  // Has still to take from the bucket of this level.
  predicate ToTake(scope: Scope, t: Thread) {
    InScope(scope, t) && (t.phase == Arrived || t.phase == Located || (scope.OfWorkspace? && t.phase == UserTaken))
  }

  // Holds a token of the user, to be kept or given back.
  predicate Holds(scope: Scope, t: Thread) {
    scope.OfUser? && InScope(scope, t) && (t.phase == UserTaken || t.phase == WorkspaceRefused)
  }

  // Not decided yet at this level.
  predicate Pending(scope: Scope, t: Thread) {
    ToTake(scope, t) || Holds(scope, t)
  }

  // A pending request that may still weigh on an interval from `from` on: it read the clock before the interval, or
  // it holds a token of the user.
  predicate Weighs(scope: Scope, from: int, t: Thread) {
    (ToTake(scope, t) && t.now < from) || Holds(scope, t)
  }

  function Count(threads: seq<Thread>, p: Thread -> bool): nat {
    if threads == [] then 0
    else Count(threads[..|threads| - 1], p) + if p(threads[|threads| - 1]) then 1 else 0
  }

  function IsAdmitted(scope: Scope): Thread -> bool {
    t => InScope(scope, t) && t.phase == Done(true)
  }

  function IsPending(scope: Scope): Thread -> bool {
    t => Pending(scope, t)
  }

  function IsHolding(scope: Scope): Thread -> bool {
    t => Holds(scope, t)
  }

  function IsWeighing(scope: Scope, from: int): Thread -> bool {
    t => Weighs(scope, from, t)
  }

  function Admitted(scope: Scope, s: State): nat {
    Count(s.threads, IsAdmitted(scope))
  }

  function InFlight(scope: Scope, s: State): nat {
    Count(s.threads, IsPending(scope))
  }

  function Held(scope: Scope, s: State): nat {
    Count(s.threads, IsHolding(scope))
  }

  function Weight(scope: Scope, from: int, s: State): nat {
    Count(s.threads, IsWeighing(scope, from))
  }

  lemma {:induction false} CountUpdate(threads: seq<Thread>, i: nat, t: Thread, p: Thread -> bool)
    requires i < |threads|
    ensures Count(threads[i := t], p) + (if p(threads[i]) then 1 else 0) == Count(threads, p) + if p(t) then 1 else 0
    decreases |threads|
  {
    var n := |threads| - 1;
    if i < n {
      assert threads[i := t][..n] == threads[..n][i := t];
      CountUpdate(threads[..n], i, t, p);
    } else {
      assert threads[i := t][..n] == threads[..n];
    }
  }

  lemma CountAppend(threads: seq<Thread>, t: Thread, p: Thread -> bool)
    ensures Count(threads + [t], p) == Count(threads, p) + if p(t) then 1 else 0
  {
    assert (threads + [t])[..|threads|] == threads;
  }

  lemma {:induction false} CountImplies(threads: seq<Thread>, p: Thread -> bool, q: Thread -> bool)
    requires forall t :: p(t) ==> q(t)
    ensures Count(threads, p) <= Count(threads, q)
  {
    if threads != [] { CountImplies(threads[..|threads| - 1], p, q); }
  }

  // ---------------------------------------------------------------- what a level can still grant

  function RateOf(rates: Limit.Rates, scope: Scope): Rate {
    if scope.OfUser? then rates.user else rates.work
  }

  function IdOf(scope: Scope): Uuid {
    if scope.OfUser? then scope.user else scope.ws
  }

  function BucketsOf(s: State, scope: Scope): map<Uuid, Level> {
    if scope.OfUser? then s.users else s.work
  }

  // The stock of a bucket; one that is not stored yet will be created full.
  function Supply(rates: Limit.Rates, scope: Scope, s: State, from: int, to: int): real {
    var buckets, rate := BucketsOf(s, scope), RateOf(rates, scope);
    if IdOf(scope) in buckets then Stock(rate, buckets[IdOf(scope)], from, to)
    else Capacity(rate) + Earned(rate, to - from)
  }

  ghost predicate LevelsOk(rates: Limit.Rates, s: State) {
    && (forall id <- s.users :: WellFormed(rates.user, s.users[id]))
    && (forall id <- s.work :: WellFormed(rates.work, s.work[id]))
  }

  // Clock readings lie before the end of the interval.
  ghost predicate ReadBy(s: State, to: int) {
    forall i :: 0 <= i < |s.threads| ==> s.threads[i].now <= to
  }

  lemma StepKeeps(rates: Limit.Rates, s: State, st: Step)
    requires LevelsOk(rates, s) && Enabled(s, st)
    ensures LevelsOk(rates, Next(rates, s, st))
  {
    match st {
      case TakeUser(i) =>
        var t := s.threads[i];
        ConsumeKeeps(rates.user, Limit.Lookup(s.users, rates.user, t.user, t.now), t.now);
      case TakeWorkspace(i) =>
        var t := s.threads[i];
        ConsumeKeeps(rates.work, Limit.Lookup(s.work, rates.work, t.ws, t.now), t.now);
      case _ =>
    }
  }

  lemma FullSupply(rate: Rate, from: int, now: int, to: int)
    requires from <= to && now <= to
    ensures Stock(rate, Full(rate, now), from, to) <= Capacity(rate) + Earned(rate, to - from)
  {
    StockBounded(rate, Full(rate, now), from, to);
  }

  // The bucket a step works on, created full if need be, holds no more than the supply of its level.
  lemma Looked(rates: Limit.Rates, scope: Scope, s: State, from: int, now: int, to: int)
    requires LevelsOk(rates, s) && from <= to && now <= to
    ensures var b := Limit.Lookup(BucketsOf(s, scope), RateOf(rates, scope), IdOf(scope), now);
            && WellFormed(RateOf(rates, scope), b)
            && Stock(RateOf(rates, scope), b, from, to) <= Supply(rates, scope, s, from, to)
  {
    FullSupply(RateOf(rates, scope), from, now, to);
  }

  // Taking from a bucket: a reading of the interval pays for its token, an earlier one adds nothing.
  lemma TakePays(rate: Rate, b: Level, from: int, now: int, to: int)
    requires WellFormed(rate, b) && from <= to && now <= to
    ensures var (level, wait) := Consume(rate, b, now);
            && wait >= 0
            && Stock(rate, level, from, to) + (if now >= from && wait == 0 then 1.0 else 0.0)
               <= Stock(rate, b, from, to)
  {
    ConsumeKeeps(rate, b, now);
    if now >= from { StockTaken(rate, b, from, now, to); } else { StockStale(rate, b, now, from, to); }
  }

  // Admitted requests, requests that still weigh and the supply: no step adds to their sum.
  function Account(rates: Limit.Rates, scope: Scope, s: State, from: int, to: int): real {
    (Admitted(scope, s) + Weight(scope, from, s)) as real + Supply(rates, scope, s, from, to)
  }

  lemma MoveCounts(scope: Scope, from: int, s: State, i: nat, s': State)
    requires i < |s.threads| && i < |s'.threads| && s'.threads == s.threads[i := s'.threads[i]]
    ensures var (t, t') := (s.threads[i], s'.threads[i]);
            && Admitted(scope, s') + (if InScope(scope, t) && t.phase == Done(true) then 1 else 0)
               == Admitted(scope, s) + (if InScope(scope, t') && t'.phase == Done(true) then 1 else 0)
            && Weight(scope, from, s') + (if Weighs(scope, from, t) then 1 else 0)
               == Weight(scope, from, s) + (if Weighs(scope, from, t') then 1 else 0)
  {
    CountUpdate(s.threads, i, s'.threads[i], IsAdmitted(scope));
    CountUpdate(s.threads, i, s'.threads[i], IsWeighing(scope, from));
  }

  lemma StepPays(rates: Limit.Rates, scope: Scope, s: State, st: Step, from: int, to: int)
    requires LevelsOk(rates, s) && ReadBy(s, to) && Enabled(s, st) && from <= to
    requires scope != OfWorkspace(NIL) && (st.Arrive? ==> from <= st.now <= to)
    ensures Account(rates, scope, Next(rates, s, st), from, to) <= Account(rates, scope, s, from, to)
  {
    var s' := Next(rates, s, st);
    match st {
      case Arrive(ws, user, now) =>
        CountAppend(s.threads, Thread(ws, user, now, Arrived), IsAdmitted(scope));
        CountAppend(s.threads, Thread(ws, user, now, Arrived), IsWeighing(scope, from));
      case Locate(i) =>
        MoveCounts(scope, from, s, i, s');
        Looked(rates, scope, s, from, s.threads[i].now, to);
      case TakeUser(i) => TakeUserPays(rates, scope, s, i, from, to);
      case TakeWorkspace(i) => TakeWorkspacePays(rates, scope, s, i, from, to);
      case GiveBack(i) =>
        MoveCounts(scope, from, s, i, s');
        var t := s.threads[i];
        Looked(rates, OfUser(t.user), s, from, t.now, to);
        StockRefunded(rates.user, Limit.Lookup(s.users, rates.user, t.user, t.now), from, to);
    }
  }

  lemma TakeUserPays(rates: Limit.Rates, scope: Scope, s: State, i: nat, from: int, to: int)
    requires LevelsOk(rates, s) && ReadBy(s, to) && Enabled(s, TakeUser(i)) && from <= to && scope != OfWorkspace(NIL)
    ensures Account(rates, scope, Next(rates, s, TakeUser(i)), from, to) <= Account(rates, scope, s, from, to)
  {
    var t := s.threads[i];
    MoveCounts(scope, from, s, i, Next(rates, s, TakeUser(i)));
    Looked(rates, OfUser(t.user), s, from, t.now, to);
    TakePays(rates.user, Limit.Lookup(s.users, rates.user, t.user, t.now), from, t.now, to);
  }

  lemma TakeWorkspacePays(rates: Limit.Rates, scope: Scope, s: State, i: nat, from: int, to: int)
    requires LevelsOk(rates, s) && ReadBy(s, to) && Enabled(s, TakeWorkspace(i)) && from <= to
    requires scope != OfWorkspace(NIL)
    ensures Account(rates, scope, Next(rates, s, TakeWorkspace(i)), from, to) <= Account(rates, scope, s, from, to)
  {
    var t := s.threads[i];
    MoveCounts(scope, from, s, i, Next(rates, s, TakeWorkspace(i)));
    Looked(rates, OfWorkspace(t.ws), s, from, t.now, to);
    TakePays(rates.work, Limit.Lookup(s.work, rates.work, t.ws, t.now), from, t.now, to);
  }

  // ---------------------------------------------------------------- the bounds over every interleaving

  // The requests that arrive read the clock between `from` and `to`.
  ghost predicate Within(steps: seq<Step>, from: int, to: int) {
    forall i :: 0 <= i < |steps| && steps[i].Arrive? ==> from <= steps[i].now <= to
  }

  lemma {:induction false} RunPays(rates: Limit.Rates, scope: Scope, s: State, steps: seq<Step>, from: int, to: int)
    requires LevelsOk(rates, s) && ReadBy(s, to) && Runs(rates, s, steps) && Within(steps, from, to) && from <= to
    requires scope != OfWorkspace(NIL)
    ensures Account(rates, scope, After(rates, s, steps), from, to) <= Account(rates, scope, s, from, to)
    ensures LevelsOk(rates, After(rates, s, steps))
    decreases |steps|
  {
    if steps != [] {
      StepKeeps(rates, s, steps[0]);
      StepPays(rates, scope, s, steps[0], from, to);
      assert Within(steps[1..], from, to) by {
        forall i | 0 <= i < |steps[1..]| && steps[1..][i].Arrive? ensures from <= steps[1..][i].now <= to {
          assert steps[1..][i] == steps[i + 1];
        }
      }
      RunPays(rates, scope, Next(rates, s, steps[0]), steps[1..], from, to);
    }
  }

  // The requests that arrive read the clock by `last`.
  ghost predicate ArriveBy(steps: seq<Step>, last: int) {
    forall i :: 0 <= i < |steps| && steps[i].Arrive? ==> steps[i].now <= last
  }

  lemma {:induction false} RunKeeps(rates: Limit.Rates, s: State, steps: seq<Step>, last: int)
    requires LevelsOk(rates, s) && ReadBy(s, last) && Runs(rates, s, steps) && ArriveBy(steps, last)
    ensures LevelsOk(rates, After(rates, s, steps)) && ReadBy(After(rates, s, steps), last)
    decreases |steps|
  {
    if steps != [] {
      StepKeeps(rates, s, steps[0]);
      assert ArriveBy(steps[1..], last) by {
        forall i | 0 <= i < |steps[1..]| && steps[1..][i].Arrive? ensures steps[1..][i].now <= last {
          assert steps[1..][i] == steps[i + 1];
        }
      }
      RunKeeps(rates, Next(rates, s, steps[0]), steps[1..], last);
    }
  }

  /**
    Both levels, every interleaving: the requests of one user, and of one workspace, that become admitted during an
    interval number at most capacity, refill, and the requests still undecided at that level when it began.
   */
  lemma ConcurrentBurstBound(rates: Limit.Rates, scope: Scope, history: seq<Step>,
                             window: seq<Step>, from: int, to: int)
    requires scope != OfWorkspace(NIL) && from <= to
    requires Runs(rates, START, history) && ArriveBy(history, from)
    requires Runs(rates, After(rates, START, history), window) && Within(window, from, to)
    ensures var before := After(rates, START, history);
            (Admitted(scope, After(rates, before, window)) - Admitted(scope, before)) as real
            <= Capacity(RateOf(rates, scope)) + Earned(RateOf(rates, scope), to - from)
               + InFlight(scope, before) as real
  {
    var before := After(rates, START, history);
    RunKeeps(rates, START, history, from);
    RunPays(rates, scope, before, window, from, to);
    CountImplies(before.threads, IsWeighing(scope, from), IsPending(scope));
    SupplyBounded(rates, scope, before, from, to);
    SupplyBounded(rates, scope, After(rates, before, window), from, to);
  }

  lemma SupplyBounded(rates: Limit.Rates, scope: Scope, s: State, from: int, to: int)
    requires LevelsOk(rates, s) && from <= to
    ensures 0.0 <= Supply(rates, scope, s, from, to) <=
            Capacity(RateOf(rates, scope)) + Earned(RateOf(rates, scope), to - from)
  {
    var rate := RateOf(rates, scope);
    EarnedGrows(rate, 0, to - from);
    if IdOf(scope) in BucketsOf(s, scope) { StockBounded(rate, BucketsOf(s, scope)[IdOf(scope)], from, to); }
  }

  // ---------------------------------------------------------------- exactly when the plain bound holds

  // The bucket of this level as a request that read the clock at `now` finds it.
  function Found(rates: Limit.Rates, scope: Scope, s: State, now: int): Level {
    Refill(RateOf(rates, scope), Limit.Lookup(BucketsOf(s, scope), RateOf(rates, scope), IdOf(scope), now), now)
  }

  // A request that can bring this level above its plain bound: it holds a token, or it finds one at its own reading.
  predicate Beats(rates: Limit.Rates, scope: Scope, s: State, t: Thread) {
    Holds(scope, t) || (ToTake(scope, t) && Found(rates, scope, s, t.now).tokens >= 1.0)
  }

  // From this state on, no interval that begins after all readings so far admits more than capacity and refill.
  ghost predicate PlainBound(rates: Limit.Rates, scope: Scope, s: State) {
    forall window, from, to ::
      Runs(rates, s, window) && ReadBy(s, from) && Within(window, from, to) && from <= to ==>
        (Admitted(scope, After(rates, s, window)) - Admitted(scope, s)) as real
        <= Capacity(RateOf(rates, scope)) + Earned(RateOf(rates, scope), to - from)
  }

  // What keeps the plain bound: a reading of the interval has reached the bucket, or no token is held and readings from
  // before the interval find none.
  ghost predicate Paid(rates: Limit.Rates, scope: Scope, s: State, from: int) {
    Stamped(scope, s, from) || NoneEarly(rates, scope, s, from)
  }

  predicate Stamped(scope: Scope, s: State, from: int) {
    IdOf(scope) in BucketsOf(s, scope) && BucketsOf(s, scope)[IdOf(scope)].last >= from
  }

  ghost predicate NoneEarly(rates: Limit.Rates, scope: Scope, s: State, from: int) {
    forall i :: 0 <= i < |s.threads| ==>
      !Holds(scope, s.threads[i]) && !FindsEarly(rates, scope, s, from, s.threads[i])
  }

  ghost predicate FindsEarly(rates: Limit.Rates, scope: Scope, s: State, from: int, t: Thread) {
    ToTake(scope, t) && t.now < from && Found(rates, scope, s, t.now).tokens >= 1.0
  }

  // Admitted requests, tokens held and the supply.
  function PlainAccount(rates: Limit.Rates, scope: Scope, s: State, from: int, to: int): real {
    (Admitted(scope, s) + Held(scope, s)) as real + Supply(rates, scope, s, from, to)
  }

  lemma MoveHeld(scope: Scope, s: State, i: nat, s': State)
    requires i < |s.threads| && i < |s'.threads| && s'.threads == s.threads[i := s'.threads[i]]
    ensures Held(scope, s') + (if Holds(scope, s.threads[i]) then 1 else 0)
         == Held(scope, s) + (if Holds(scope, s'.threads[i]) then 1 else 0)
  {
    CountUpdate(s.threads, i, s'.threads[i], IsHolding(scope));
  }

  // A take from a bucket stamped `from` or later, or at a reading of the interval, spends the token it takes; one that
  // finds no token takes none.
  lemma TakeSpends(rate: Rate, b: Level, from: int, now: int, to: int)
    requires WellFormed(rate, b) && from <= to && now <= to
    requires b.last >= from || now >= from || Refill(rate, b, now).tokens < 1.0
    ensures var (level, wait) := Consume(rate, b, now);
            && wait >= 0
            && Stock(rate, level, from, to) + (if wait == 0 then 1.0 else 0.0) <= Stock(rate, b, from, to)
            && (b.last >= from || now >= from ==> level.last >= from)
            && (Refill(rate, b, now).tokens < 1.0 ==> wait > 0 && level == Refill(rate, b, now))
  {
    ConsumeKeeps(rate, b, now);
    if now >= from {
      StockTaken(rate, b, from, now, to);
    } else if b.last < from {
      StockStale(rate, b, now, from, to);
    }
    if Refill(rate, b, now).tokens < 1.0 { WaitEarns(rate, Refill(rate, b, now).tokens, 0); }
  }

  // Where one reading found no token, a refusal leaves none for any other that found none.
  lemma RefusedFindsNone(rate: Rate, b: Level, now: int, other: int)
    requires WellFormed(rate, b)
    requires Refill(rate, b, now).tokens < 1.0 && Refill(rate, b, other).tokens < 1.0
    ensures Refill(rate, Refill(rate, b, now), other).tokens < 1.0
  {
    if now <= other { RefillTwice(rate, b, now, other); }
  }

  // ---------------------------------------------------------------- the undecided requests cannot be left out

  predicate SameThread(t: Thread, t': Thread) {
    t' == t.(phase := t'.phase)
  }

  // The requests counted as admitted or holding.
  function Counted(scope: Scope, t: Thread): nat {
    (if InScope(scope, t) && t.phase == Done(true) then 1 else 0) + (if Holds(scope, t) then 1 else 0)
  }

  // A request moves on without touching the bucket of this level.
  lemma PlainElsewhere(rates: Limit.Rates, scope: Scope, s: State, i: nat, s': State, from: int, to: int)
    requires Paid(rates, scope, s, from)
    requires i < |s.threads| && i < |s'.threads| && s'.threads == s.threads[i := s'.threads[i]]
    requires var (t, t') := (s.threads[i], s'.threads[i]);
             && SameThread(t, t') && Counted(scope, t') <= Counted(scope, t)
             && (Holds(scope, t') ==> Holds(scope, t)) && (ToTake(scope, t') ==> ToTake(scope, t))
    requires var (b, b', id) := (BucketsOf(s, scope), BucketsOf(s', scope), IdOf(scope));
             (id in b' <==> id in b) && (id in b ==> b'[id] == b[id])
    ensures PlainAccount(rates, scope, s', from, to) <= PlainAccount(rates, scope, s, from, to)
    ensures Paid(rates, scope, s', from)
  {
    MoveCounts(scope, from, s, i, s');
    MoveHeld(scope, s, i, s');
    forall k | 0 <= k < |s'.threads| && FindsEarly(rates, scope, s', from, s'.threads[k])
      ensures FindsEarly(rates, scope, s, from, s.threads[k])
    {
      assert Found(rates, scope, s', s'.threads[k].now) == Found(rates, scope, s, s.threads[k].now);
    }
  }

  // A request takes from the bucket of this level, or is refused by it.
  lemma PlainTake(rates: Limit.Rates, scope: Scope, s: State, i: nat, s': State, from: int, to: int)
    requires LevelsOk(rates, s) && ReadBy(s, to) && from <= to && Paid(rates, scope, s, from)
    requires i < |s.threads| && i < |s'.threads| && s'.threads == s.threads[i := s'.threads[i]]
    requires var (t, t') := (s.threads[i], s'.threads[i]);
             var b := Limit.Lookup(BucketsOf(s, scope), RateOf(rates, scope), IdOf(scope), t.now);
             && ToTake(scope, t) && SameThread(t, t') && !ToTake(scope, t')
             && Counted(scope, t') == (if Consume(RateOf(rates, scope), b, t.now).1 == 0 then 1 else 0)
             && BucketsOf(s', scope) == BucketsOf(s, scope)[IdOf(scope) := Consume(RateOf(rates, scope), b, t.now).0]
    ensures PlainAccount(rates, scope, s', from, to) <= PlainAccount(rates, scope, s, from, to)
    ensures Paid(rates, scope, s', from)
  {
    var t, rate := s.threads[i], RateOf(rates, scope);
    var b := Limit.Lookup(BucketsOf(s, scope), rate, IdOf(scope), t.now);
    Looked(rates, scope, s, from, t.now, to);
    FindsOrPays(rates, scope, s, i, from);
    TakeSpends(rate, b, from, t.now, to);
    MoveCounts(scope, from, s, i, s');
    MoveHeld(scope, s, i, s');
    if b.last < from && t.now < from {
      forall k | 0 <= k < |s'.threads|
        ensures !Holds(scope, s'.threads[k]) && !FindsEarly(rates, scope, s', from, s'.threads[k])
      {
        if k != i && ToTake(scope, s.threads[k]) && s.threads[k].now < from {
          assert !FindsEarly(rates, scope, s, from, s.threads[k]);
          RefusedFindsNone(rate, b, t.now, s.threads[k].now);
        }
      }
    }
  }

  // The request about to take reaches a stamped bucket, reads the clock within the interval, or finds no token.
  lemma FindsOrPays(rates: Limit.Rates, scope: Scope, s: State, i: nat, from: int)
    requires Paid(rates, scope, s, from) && i < |s.threads| && ToTake(scope, s.threads[i])
    ensures var now := s.threads[i].now;
            var b := Limit.Lookup(BucketsOf(s, scope), RateOf(rates, scope), IdOf(scope), now);
            && (b.last >= from || now >= from || Refill(RateOf(rates, scope), b, now).tokens < 1.0)
            && (b.last < from && now < from ==> IdOf(scope) in BucketsOf(s, scope) && NoneEarly(rates, scope, s, from))
  {
    assert Stamped(scope, s, from) || !FindsEarly(rates, scope, s, from, s.threads[i]);
  }

  lemma PlainLocate(rates: Limit.Rates, scope: Scope, s: State, i: nat, from: int, to: int)
    requires LevelsOk(rates, s) && ReadBy(s, to) && from <= to && Paid(rates, scope, s, from)
    requires scope != OfWorkspace(NIL) && Enabled(s, Locate(i)) && InScope(scope, s.threads[i])
    ensures var s' := Next(rates, s, Locate(i));
            && PlainAccount(rates, scope, s', from, to) <= PlainAccount(rates, scope, s, from, to)
            && Paid(rates, scope, s', from)
  {
    var t, s' := s.threads[i], Next(rates, s, Locate(i));
    if IdOf(scope) in BucketsOf(s, scope) {
      PlainElsewhere(rates, scope, s, i, s', from, to);
    } else {
      FindsOrPays(rates, scope, s, i, from);
      Looked(rates, scope, s, from, t.now, to);
      MoveCounts(scope, from, s, i, s');
      MoveHeld(scope, s, i, s');
    }
  }

  lemma PlainGiveBack(rates: Limit.Rates, scope: Scope, s: State, i: nat, from: int, to: int)
    requires LevelsOk(rates, s) && from <= to && Paid(rates, scope, s, from)
    requires scope.OfUser? && Enabled(s, Step.GiveBack(i)) && InScope(scope, s.threads[i])
    ensures var s' := Next(rates, s, Step.GiveBack(i));
            && PlainAccount(rates, scope, s', from, to) <= PlainAccount(rates, scope, s, from, to)
            && Paid(rates, scope, s', from)
  {
    var s' := Next(rates, s, Step.GiveBack(i));
    assert Holds(scope, s.threads[i]);
    MoveCounts(scope, from, s, i, s');
    MoveHeld(scope, s, i, s');
    StockRefunded(rates.user, s.users[scope.user], from, to);
  }

  lemma PlainArrive(rates: Limit.Rates, scope: Scope, s: State, st: Step, from: int, to: int)
    requires Paid(rates, scope, s, from) && st.Arrive? && from <= st.now
    ensures var s' := Next(rates, s, st);
            && PlainAccount(rates, scope, s', from, to) == PlainAccount(rates, scope, s, from, to)
            && Paid(rates, scope, s', from)
  {
    var t, s' := Thread(st.ws, st.user, st.now, Arrived), Next(rates, s, st);
    CountAppend(s.threads, t, IsAdmitted(scope));
    CountAppend(s.threads, t, IsHolding(scope));
    forall k | 0 <= k < |s'.threads| && FindsEarly(rates, scope, s', from, s'.threads[k])
      ensures k < |s.threads| && FindsEarly(rates, scope, s, from, s.threads[k])
    {
      assert Found(rates, scope, s', s'.threads[k].now) == Found(rates, scope, s, s'.threads[k].now);
    }
  }

  lemma PlainTakeUser(rates: Limit.Rates, scope: Scope, s: State, i: nat, from: int, to: int)
    requires LevelsOk(rates, s) && ReadBy(s, to) && from <= to && Paid(rates, scope, s, from)
    requires scope != OfWorkspace(NIL) && Enabled(s, TakeUser(i))
    ensures var s' := Next(rates, s, TakeUser(i));
            && PlainAccount(rates, scope, s', from, to) <= PlainAccount(rates, scope, s, from, to)
            && Paid(rates, scope, s', from)
  {
    var s' := Next(rates, s, TakeUser(i));
    if scope == OfUser(s.threads[i].user) {
      UserWaits(rates, s, i);
      PlainTake(rates, scope, s, i, s', from, to);
    } else {
      PlainElsewhere(rates, scope, s, i, s', from, to);
    }
  }

  lemma PlainTakeWorkspace(rates: Limit.Rates, scope: Scope, s: State, i: nat, from: int, to: int)
    requires LevelsOk(rates, s) && ReadBy(s, to) && from <= to && Paid(rates, scope, s, from)
    requires scope != OfWorkspace(NIL) && Enabled(s, TakeWorkspace(i))
    ensures var s' := Next(rates, s, TakeWorkspace(i));
            && PlainAccount(rates, scope, s', from, to) <= PlainAccount(rates, scope, s, from, to)
            && Paid(rates, scope, s', from)
  {
    var s' := Next(rates, s, TakeWorkspace(i));
    if scope == OfWorkspace(s.threads[i].ws) {
      WorkspaceWaits(rates, s, i);
      PlainTake(rates, scope, s, i, s', from, to);
    } else {
      PlainElsewhere(rates, scope, s, i, s', from, to);
    }
  }

  lemma PlainStep(rates: Limit.Rates, scope: Scope, s: State, st: Step, from: int, to: int)
    requires LevelsOk(rates, s) && ReadBy(s, to) && Enabled(s, st) && from <= to && Paid(rates, scope, s, from)
    requires scope != OfWorkspace(NIL) && (st.Arrive? ==> from <= st.now <= to)
    ensures var s' := Next(rates, s, st);
            && PlainAccount(rates, scope, s', from, to) <= PlainAccount(rates, scope, s, from, to)
            && Paid(rates, scope, s', from) && ReadBy(s', to)
  {
    var s' := Next(rates, s, st);
    match st {
      case Arrive(_, _, _) => PlainArrive(rates, scope, s, st, from, to);
      case Locate(i) =>
        if InScope(scope, s.threads[i]) {
          PlainLocate(rates, scope, s, i, from, to);
        } else {
          PlainElsewhere(rates, scope, s, i, s', from, to);
        }
      case TakeUser(i) => PlainTakeUser(rates, scope, s, i, from, to);
      case TakeWorkspace(i) => PlainTakeWorkspace(rates, scope, s, i, from, to);
      case GiveBack(i) =>
        if scope == OfUser(s.threads[i].user) {
          PlainGiveBack(rates, scope, s, i, from, to);
        } else {
          PlainElsewhere(rates, scope, s, i, s', from, to);
        }
    }
  }

  lemma UserWaits(rates: Limit.Rates, s: State, i: nat)
    requires LevelsOk(rates, s) && i < |s.threads|
    ensures var t := s.threads[i];
            Consume(rates.user, Limit.Lookup(s.users, rates.user, t.user, t.now), t.now).1 >= 0
  {
    var t := s.threads[i];
    ConsumeKeeps(rates.user, Limit.Lookup(s.users, rates.user, t.user, t.now), t.now);
  }

  lemma WorkspaceWaits(rates: Limit.Rates, s: State, i: nat)
    requires LevelsOk(rates, s) && i < |s.threads|
    ensures var t := s.threads[i];
            Consume(rates.work, Limit.Lookup(s.work, rates.work, t.ws, t.now), t.now).1 >= 0
  {
    var t := s.threads[i];
    ConsumeKeeps(rates.work, Limit.Lookup(s.work, rates.work, t.ws, t.now), t.now);
  }

  lemma {:induction false} PlainRun(rates: Limit.Rates, scope: Scope, s: State, steps: seq<Step>, from: int, to: int)
    requires LevelsOk(rates, s) && ReadBy(s, to) && Runs(rates, s, steps) && Within(steps, from, to) && from <= to
    requires scope != OfWorkspace(NIL) && Paid(rates, scope, s, from)
    ensures PlainAccount(rates, scope, After(rates, s, steps), from, to) <= PlainAccount(rates, scope, s, from, to)
    ensures LevelsOk(rates, After(rates, s, steps))
    decreases |steps|
  {
    if steps != [] {
      StepKeeps(rates, s, steps[0]);
      PlainStep(rates, scope, s, steps[0], from, to);
      assert Within(steps[1..], from, to) by {
        forall i | 0 <= i < |steps[1..]| && steps[1..][i].Arrive? ensures from <= steps[1..][i].now <= to {
          assert steps[1..][i] == steps[i + 1];
        }
      }
      PlainRun(rates, scope, Next(rates, s, steps[0]), steps[1..], from, to);
    }
  }

  lemma {:induction false} CountNone(threads: seq<Thread>, p: Thread -> bool)
    requires forall i :: 0 <= i < |threads| ==> !p(threads[i])
    ensures Count(threads, p) == 0
  {
    if threads != [] { CountNone(threads[..|threads| - 1], p); }
  }

  // Where no request can beat it, the plain bound holds.
  lemma PlainBoundHolds(rates: Limit.Rates, scope: Scope, s: State)
    requires LevelsOk(rates, s) && scope != OfWorkspace(NIL)
    requires forall i :: 0 <= i < |s.threads| ==> !Beats(rates, scope, s, s.threads[i])
    ensures PlainBound(rates, scope, s)
  {
    forall window, from, to | Runs(rates, s, window) && ReadBy(s, from) && Within(window, from, to) && from <= to
      ensures (Admitted(scope, After(rates, s, window)) - Admitted(scope, s)) as real
           <= Capacity(RateOf(rates, scope)) + Earned(RateOf(rates, scope), to - from)
    {
      assert Paid(rates, scope, s, from);
      PlainRun(rates, scope, s, window, from, to);
      CountNone(s.threads, IsHolding(scope));
      SupplyBounded(rates, scope, s, from, to);
      SupplyBounded(rates, scope, After(rates, s, window), from, to);
    }
  }

  lemma {:induction false} RunsAppend(rates: Limit.Rates, s: State, a: seq<Step>, b: seq<Step>)
    requires Runs(rates, s, a) && Runs(rates, After(rates, s, a), b)
    ensures Runs(rates, s, a + b) && After(rates, s, a + b) == After(rates, After(rates, s, a), b)
    decreases |a|
  {
    if a == [] {
      assert a + b == b;
    } else {
      assert (a + b)[1..] == a[1..] + b;
      RunsAppend(rates, Next(rates, s, a[0]), a[1..], b);
    }
  }

  // A run extended by one step.
  lemma Extend(rates: Limit.Rates, s: State, steps: seq<Step>, st: Step) returns (r: seq<Step>)
    requires Runs(rates, s, steps) && Enabled(After(rates, s, steps), st)
    ensures r == steps + [st] && Runs(rates, s, r) && After(rates, s, r) == Next(rates, After(rates, s, steps), st)
  {
    r := steps + [st];
    assert [st][1..] == [];
    RunsAppend(rates, s, steps, [st]);
  }

  // An undisturbed request up to its attempt at the user's level.
  lemma AloneTakesUser(rates: Limit.Rates, s: State, ws: Uuid, user: Uuid, now: int) returns (steps: seq<Step>)
    ensures Runs(rates, s, steps)
    ensures var (b, wait) := Consume(rates.user, Limit.Lookup(s.users, rates.user, user, now), now);
            After(rates, s, steps) ==
              State(s.users[user := b],
                    if ws == NIL then s.work else s.work[ws := Limit.Lookup(s.work, rates.work, ws, now)],
                    s.threads + [Thread(ws, user, now, if wait > 0 then Done(false)
                                                       else if ws == NIL then Done(true) else UserTaken)])
  {
    var i, u := |s.threads|, Limit.Lookup(s.users, rates.user, user, now);
    var (b, wait) := Consume(rates.user, u, now);
    var work := if ws == NIL then s.work else s.work[ws := Limit.Lookup(s.work, rates.work, ws, now)];
    var phase := if wait > 0 then Done(false) else if ws == NIL then Done(true) else UserTaken;
    var arrived := s.(threads := s.threads + [Thread(ws, user, now, Arrived)]);
    var located := State(s.users[user := u], work, s.threads + [Thread(ws, user, now, Located)]);
    var taken := State(s.users[user := b], work, s.threads + [Thread(ws, user, now, phase)]);
    assert located.users[user := b] == taken.users;
    steps := Prepend(rates, located, TakeUser(i), taken, []);
    steps := Prepend(rates, arrived, Locate(i), located, steps);
    steps := Prepend(rates, s, Arrive(ws, user, now), arrived, steps);
  }

  // The rest of it, from a user's token on.
  lemma AloneTakesWorkspace(rates: Limit.Rates, s: State, i: nat) returns (steps: seq<Step>)
    requires At(s, i, UserTaken) && s.threads[i].user in s.users && s.threads[i].ws in s.work
    ensures Runs(rates, s, steps)
    ensures var t := s.threads[i]; var (b, wait) := Consume(rates.work, s.work[t.ws], t.now);
            After(rates, s, steps) ==
              State(if wait > 0 then s.users[t.user := Refund(rates.user, s.users[t.user])] else s.users,
                    s.work[t.ws := b], s.threads[i := t.(phase := Done(wait <= 0))])
  {
    var t := s.threads[i];
    var (b, wait) := Consume(rates.work, s.work[t.ws], t.now);
    var work := s.work[t.ws := b];
    var next := State(s.users, work, s.threads[i := t.(phase := if wait > 0 then WorkspaceRefused else Done(true))]);
    steps := [];
    if wait > 0 {
      var last := State(s.users[t.user := Refund(rates.user, s.users[t.user])], work,
                        s.threads[i := t.(phase := Done(false))]);
      steps := Prepend(rates, next, Step.GiveBack(i), last, []);
    }
    steps := Prepend(rates, s, TakeWorkspace(i), next, steps);
  }

  /** A request that no other disturbs leaves both levels as the limiter's one-step answer does, and is let through
      exactly when that answer imposes no wait. */
  lemma AloneIsReserve(rates: Limit.Rates, s: State, touched: map<Uuid, int>, ws: Uuid, user: Uuid, now: int)
    returns (steps: seq<Step>)
    requires LevelsOk(rates, s)
    ensures Runs(rates, s, steps)
    ensures var (after, r) := Limit.Reserve(rates, Limit.State(s.users, s.work, touched), ws, user, now);
            After(rates, s, steps) ==
              State(after.users, after.work, s.threads + [Thread(ws, user, now, Done(r.wait == 0))])
  {
    var u := Limit.Lookup(s.users, rates.user, user, now);
    ConsumeKeeps(rates.user, u, now);
    steps := AloneTakesUser(rates, s, ws, user, now);
    var taken, b := After(rates, s, steps), Consume(rates.user, u, now).0;
    assert s.users[user := u][user := b] == s.users[user := b];
    if Consume(rates.user, u, now).1 == 0 && ws != NIL {
      ConsumeKeeps(rates.work, taken.work[ws], now);
      var more := AloneTakesWorkspace(rates, taken, |s.threads|);
      RunsAppend(rates, s, steps, more);
      steps := steps + more;
    }
  }

  // The state after one more request, undisturbed, has been admitted at both levels.
  function Served(rates: Limit.Rates, s: State, ws: Uuid, user: Uuid, now: int): State {
    State(s.users[user := Consume(rates.user, Limit.Lookup(s.users, rates.user, user, now), now).0],
          s.work[ws := Consume(rates.work, Limit.Lookup(s.work, rates.work, ws, now), now).0],
          s.threads + [Thread(ws, user, now, Done(true))])
  }

  function ServeSteps(i: nat, ws: Uuid, user: Uuid, now: int): seq<Step> {
    [Arrive(ws, user, now), Locate(i), TakeUser(i), TakeWorkspace(i)]
  }

  lemma ServeOnce(rates: Limit.Rates, s: State, ws: Uuid, user: Uuid, now: int)
    requires ws != NIL
    requires Consume(rates.user, Limit.Lookup(s.users, rates.user, user, now), now).1 == 0
    requires Consume(rates.work, Limit.Lookup(s.work, rates.work, ws, now), now).1 == 0
    ensures var steps := ServeSteps(|s.threads|, ws, user, now);
            Runs(rates, s, steps) && After(rates, s, steps) == Served(rates, s, ws, user, now)
  {
    var i := |s.threads|;
    var u, w := Limit.Lookup(s.users, rates.user, user, now), Limit.Lookup(s.work, rates.work, ws, now);
    var u', w' := Consume(rates.user, u, now).0, Consume(rates.work, w, now).0;
    var arrived := s.(threads := s.threads + [Thread(ws, user, now, Arrived)]);
    var located := State(s.users[user := u], s.work[ws := w], s.threads + [Thread(ws, user, now, Located)]);
    var taken := State(s.users[user := u'], s.work[ws := w], s.threads + [Thread(ws, user, now, UserTaken)]);
    assert located.users[user := u'] == taken.users && taken.work[ws := w'] == s.work[ws := w'];
    var steps := Prepend(rates, taken, TakeWorkspace(i), Served(rates, s, ws, user, now), []);
    steps := Prepend(rates, located, TakeUser(i), taken, steps);
    steps := Prepend(rates, arrived, Locate(i), located, steps);
    steps := Prepend(rates, s, Arrive(ws, user, now), arrived, steps);
    assert steps == ServeSteps(i, ws, user, now);
  }

  lemma Prepend(rates: Limit.Rates, s: State, st: Step, next: State, steps: seq<Step>) returns (r: seq<Step>)
    requires Enabled(s, st) && Next(rates, s, st) == next && Runs(rates, next, steps)
    ensures r == [st] + steps && Runs(rates, s, r) && After(rates, s, r) == After(rates, next, steps)
  {
    r := [st] + steps;
    assert r[1..] == steps;
  }

  lemma Serve(rates: Limit.Rates, s: State, steps: seq<Step>, ws: Uuid, user: Uuid, now: int) returns (r: seq<Step>)
    requires Runs(rates, s, steps) && ws != NIL
    requires var t := After(rates, s, steps);
             && Consume(rates.user, Limit.Lookup(t.users, rates.user, user, now), now).1 == 0
             && Consume(rates.work, Limit.Lookup(t.work, rates.work, ws, now), now).1 == 0
    ensures Runs(rates, s, r) && After(rates, s, r) == Served(rates, After(rates, s, steps), ws, user, now)
    ensures r == steps + ServeSteps(|After(rates, s, steps).threads|, ws, user, now)
    ensures Admitted(OfUser(user), After(rates, s, r)) == Admitted(OfUser(user), After(rates, s, steps)) + 1
  {
    var t := After(rates, s, steps);
    CountAppend(t.threads, Thread(ws, user, now, Done(true)), IsAdmitted(OfUser(user)));
    ServeOnce(rates, t, ws, user, now);
    r := steps + ServeSteps(|t.threads|, ws, user, now);
    RunsAppend(rates, s, steps, ServeSteps(|t.threads|, ws, user, now));
  }

  const SLOW := Limit.Rates(1.0, 1.0)

  // At one request per second and level: workspace 1 is drained by user 2, and a request of user 1 for it is held
  // up between its two tokens.
  lemma HeldUp() returns (history: seq<Step>)
    ensures Runs(SLOW, START, history) && ArriveBy(history, 2 * SECOND)
    ensures IsHeldUp(After(SLOW, START, history))
  {
    var drained := Drained();
    var s := After(SLOW, START, drained);
    history := Extend(SLOW, START, drained, Arrive(1, 1, 0));
    history := Extend(SLOW, START, history, Locate(2));
    history := Extend(SLOW, START, history, TakeUser(2));
  }

  ghost predicate IsHeldUp(s: State) {
    && 1 in s.users && s.users[1] == Level(1.0, 0) && s.work == map[1 := Level(0.0, 0)]
    && |s.threads| == 3 && s.threads[2] == Thread(1, 1, 0, UserTaken)
  }

  lemma Drained() returns (history: seq<Step>)
    ensures Runs(SLOW, START, history) && ArriveBy(history, 2 * SECOND)
    ensures var s := After(SLOW, START, history);
            s.users == map[2 := Level(0.0, 0)] && s.work == map[1 := Level(0.0, 0)] && |s.threads| == 2
  {
    history := Serve(SLOW, START, [], 1, 2, 0);
    assert After(SLOW, START, history).users == map[2 := Level(1.0, 0)];
    assert After(SLOW, START, history).work == map[1 := Level(1.0, 0)];
    history := Serve(SLOW, START, history, 1, 2, 0);
  }

  /**
    The undecided requests cannot be left out of the bound: the request held up is refused by its workspace and its
    token, given back two seconds later to a bucket full again and spent, admits a third request of user 1 within one
    instant, at a capacity of two. The workspace's own bucket makes the refusal.
   */
  lemma HeldUpRefundBeatsTheBound()
    ensures exists history: seq<Step>, window: seq<Step> ::
      && Runs(SLOW, START, history) && ArriveBy(history, 2 * SECOND)
      && var s := After(SLOW, START, history);
         && Runs(SLOW, s, window) && Within(window, 2 * SECOND, 2 * SECOND)
         && (Admitted(OfUser(1), After(SLOW, s, window)) - Admitted(OfUser(1), s)) as real >
            Capacity(1.0) + Earned(1.0, 0)
  {
    assert Earned(1.0, 0) == 0.0;
    var history := HeldUp();
    var s := After(SLOW, START, history);
    var w := Burst(s);
  }

  // Two requests spend the bucket, the request held up is refused and gives its token back, a third spends it.
  lemma Burst(s: State) returns (w: seq<Step>)
    requires IsHeldUp(s)
    ensures Runs(SLOW, s, w) && Within(w, 2 * SECOND, 2 * SECOND)
    ensures Admitted(OfUser(1), After(SLOW, s, w)) == Admitted(OfUser(1), s) + 3
  {
    var t := 2 * SECOND;
    assert Earned(1.0, t) == 2.0;
    w := Serve(SLOW, s, [], 2, 1, t);
    assert After(SLOW, s, w).users[1] == Level(1.0, t) && After(SLOW, s, w).work[2] == Level(1.0, t);
    w := Serve(SLOW, s, w, 2, 1, t);
    var spent := After(SLOW, s, w);
    assert spent.users[1] == Level(0.0, t) && spent.work[1] == Level(0.0, 0) && 3 !in spent.work;
    w := Refused(s, w, spent);
    w := Serve(SLOW, s, w, 3, 1, t);
  }

  lemma Refused(s: State, steps: seq<Step>, spent: State) returns (w: seq<Step>)
    requires Runs(SLOW, s, steps) && After(SLOW, s, steps) == spent && Within(steps, 2 * SECOND, 2 * SECOND)
    requires |spent.threads| > 2 && spent.threads[2] == Thread(1, 1, 0, UserTaken)
    requires 1 in spent.users && spent.users[1] == Level(0.0, 2 * SECOND) &&
             1 in spent.work && spent.work[1] == Level(0.0, 0)
    ensures Runs(SLOW, s, w) && Within(w, 2 * SECOND, 2 * SECOND)
    ensures After(SLOW, s, w) == State(spent.users[1 := Level(1.0, 2 * SECOND)], spent.work,
                                       spent.threads[2 := Thread(1, 1, 0, Done(false))])
    ensures Admitted(OfUser(1), After(SLOW, s, w)) == Admitted(OfUser(1), spent)
  {
    CountUpdate(spent.threads, 2, Thread(1, 1, 0, Done(false)), IsAdmitted(OfUser(1)));
    assert WaitFor(1.0, 0.0) > 0;
    w := Extend(SLOW, s, steps, TakeWorkspace(2));
    w := Extend(SLOW, s, w, Step.GiveBack(2));
    assert spent.work[1 := Level(0.0, 0)] == spent.work;
  }

  // ---------------------------------------------------------------- every request that can beat the bound does

  // A run to `t` whose arrivals all read the clock at `at`.
  ghost predicate Leads(rates: Limit.Rates, s: State, steps: seq<Step>, t: State, at: int) {
    Runs(rates, s, steps) && After(rates, s, steps) == t && Within(steps, at, at)
  }

  lemma LeadsOn(rates: Limit.Rates, s: State, a: seq<Step>, t: State, b: seq<Step>, u: State, at: int)
    requires Leads(rates, s, a, t, at) && Leads(rates, t, b, u, at)
    ensures Leads(rates, s, a + b, u, at)
  {
    RunsAppend(rates, s, a, b);
  }

  lemma GoOn(rates: Limit.Rates, s: State, a: seq<Step>, t: State, st: Step, at: int) returns (r: seq<Step>)
    requires Leads(rates, s, a, t, at) && Enabled(t, st) && (st.Arrive? ==> st.now == at)
    ensures Leads(rates, s, r, Next(rates, t, st), at)
  {
    r := Extend(rates, s, a, st);
  }

  // The state after one more request without a workspace has been admitted.
  function ServedAlone(rates: Limit.Rates, s: State, user: Uuid, now: int): State {
    State(s.users[user := Consume(rates.user, Limit.Lookup(s.users, rates.user, user, now), now).0],
          s.work, s.threads + [Thread(NIL, user, now, Done(true))])
  }

  lemma ServeAlone(rates: Limit.Rates, s: State, user: Uuid, at: int) returns (w: seq<Step>)
    requires Consume(rates.user, Limit.Lookup(s.users, rates.user, user, at), at).1 == 0
    ensures Leads(rates, s, w, ServedAlone(rates, s, user, at), at)
  {
    var i, u := |s.threads|, Limit.Lookup(s.users, rates.user, user, at);
    var arrived := s.(threads := s.threads + [Thread(NIL, user, at, Arrived)]);
    var located := State(s.users[user := u], s.work, s.threads + [Thread(NIL, user, at, Located)]);
    w := Prepend(rates, located, TakeUser(i), ServedAlone(rates, s, user, at), []);
    w := Prepend(rates, arrived, Locate(i), located, w);
    w := Prepend(rates, s, Arrive(NIL, user, at), arrived, w);
  }

  lemma {:induction false} ServeAloneMany(rates: Limit.Rates, s: State, user: Uuid, n: nat, at: int)
    returns (w: seq<Step>, t: State)
    requires var b := Found(rates, OfUser(user), s, at); b.last == at && b.tokens >= n as real
    ensures Leads(rates, s, w, t, at) && Admitted(OfUser(user), t) == Admitted(OfUser(user), s) + n
    ensures n == 0 ==> t == s
    ensures n > 0 ==>
      user in t.users && t.users[user] == Level(Found(rates, OfUser(user), s, at).tokens - n as real, at)
    ensures |t.threads| >= |s.threads| && t.threads[..|s.threads|] == s.threads
    decreases n
  {
    if n == 0 {
      w, t := [], s;
    } else {
      var first := ServeAlone(rates, s, user, at);
      var s1 := ServedAlone(rates, s, user, at);
      CountAppend(s.threads, Thread(NIL, user, at, Done(true)), IsAdmitted(OfUser(user)));
      var rest, end := ServeAloneMany(rates, s1, user, n - 1, at);
      LeadsOn(rates, s, first, s1, rest, end, at);
      assert end.threads[..|s.threads|] == end.threads[..|s1.threads|][..|s.threads|];
      w, t := first + rest, end;
    }
  }

  // A bucket of this level, if stored, was stamped by `x`.
  ghost predicate StampedBy(buckets: map<Uuid, Level>, id: Uuid, x: int) {
    id in buckets ==> buckets[id].last <= x
  }

  // Two seconds after the last stamp the bucket is full.
  lemma Rested(rates: Limit.Rates, scope: Scope, s: State, x: int, at: int)
    requires LevelsOk(rates, s) && StampedBy(BucketsOf(s, scope), IdOf(scope), x) && x + 2 * SECOND <= at
    ensures Found(rates, scope, s, at) == Full(RateOf(rates, scope), at)
  {
    if IdOf(scope) in BucketsOf(s, scope) {
      RestFills(RateOf(rates, scope), BucketsOf(s, scope)[IdOf(scope)], at);
    }
  }

  function StepsLeft(phase: Phase): nat {
    match phase case Arrived => 3 case Located => 2 case UserTaken => 1 case _ => 0
  }

  // A request that can beat the bound of its user takes its token and asks its workspace: it is admitted, or refused
  // with its token still to be given back.
  lemma {:induction false} AskWorkspace(rates: Limit.Rates, s: State, i: nat, x: int, at: int)
    returns (w: seq<Step>, t: State)
    requires LevelsOk(rates, s) && i < |s.threads| && s.threads[i].now <= x
    requires Beats(rates, OfUser(s.threads[i].user), s, s.threads[i]) && StampedBy(s.users, s.threads[i].user, x)
    ensures Leads(rates, s, w, t, at) && LevelsOk(rates, t) && StampedBy(t.users, s.threads[i].user, x)
    ensures |t.threads| == |s.threads| && t.threads[i] == s.threads[i].(phase := t.threads[i].phase)
    ensures var scope := OfUser(s.threads[i].user);
            || (t.threads[i].phase == Done(true) && Admitted(scope, t) == Admitted(scope, s) + 1)
            || (t.threads[i].phase == WorkspaceRefused && Admitted(scope, t) == Admitted(scope, s))
    decreases StepsLeft(s.threads[i].phase)
  {
    var phase, scope := s.threads[i].phase, OfUser(s.threads[i].user);
    if phase == WorkspaceRefused {
      w, t := [], s;
    } else {
      var st := if phase == Arrived then Locate(i) else if phase == Located then TakeUser(i) else TakeWorkspace(i);
      var s1 := Next(rates, s, st);
      StepKeeps(rates, s, st);
      MoveCounts(scope, at, s, i, s1);
      WorkspaceWaits(rates, s, i);
      AskStep(rates, s, i, x, st);
      w := GoOn(rates, s, [], s, st, at);
      t := s1;
      if s1.threads[i].phase != Done(true) {
        var rest, end := AskWorkspace(rates, s1, i, x, at);
        LeadsOn(rates, s, w, s1, rest, end, at);
        w, t := w + rest, end;
      }
    }
  }

  // One step of it leaves the request able to beat the bound, or admitted.
  lemma AskStep(rates: Limit.Rates, s: State, i: nat, x: int, st: Step)
    requires LevelsOk(rates, s) && i < |s.threads| && s.threads[i].now <= x
    requires Beats(rates, OfUser(s.threads[i].user), s, s.threads[i]) && StampedBy(s.users, s.threads[i].user, x)
    requires Enabled(s, st) && (st == Locate(i) || st == TakeUser(i) || st == TakeWorkspace(i))
    ensures var s1 := Next(rates, s, st);
            && StampedBy(s1.users, s.threads[i].user, x)
            && (s1.threads[i].phase == Done(true) || Beats(rates, OfUser(s.threads[i].user), s1, s1.threads[i]))
            && (s1.threads[i].phase == Done(true) || StepsLeft(s1.threads[i].phase) < StepsLeft(s.threads[i].phase))
  {
  }

  // No plain bound for a user with such a request.
  lemma UserBoundBeaten(rates: Limit.Rates, s: State, i: nat)
    requires LevelsOk(rates, s) && i < |s.threads| && Beats(rates, OfUser(s.threads[i].user), s, s.threads[i])
    ensures !PlainBound(rates, OfUser(s.threads[i].user), s)
  {
    var user, scope := s.threads[i].user, OfUser(s.threads[i].user);
    var x := Latest(s.threads, if user in s.users then s.users[user].last else 0);
    var at, n := x + 2 * SECOND, Capacity(rates.user).Floor;
    var w, t := AskWorkspace(rates, s, i, x, at);
    Rested(rates, scope, t, x, at);
    var more, u := ServeAloneMany(rates, t, user, n, at);
    LeadsOn(rates, s, w, t, more, u, at);
    w := w + more;
    if t.threads[i].phase == WorkspaceRefused {
      var left := Capacity(rates.user) - n as real;
      assert u.threads[i] == u.threads[..|t.threads|][i];
      w := GoOn(rates, s, w, u, Step.GiveBack(i), at);
      var back := Next(rates, u, Step.GiveBack(i));
      MoveCounts(scope, at, u, i, back);
      assert back.users[user] == Level(left + 1.0, at);
      more, t := ServeAloneMany(rates, back, user, 1, at);
      LeadsOn(rates, s, w, back, more, t, at);
      w, u := w + more, t;
    }
    assert Admitted(scope, u) == Admitted(scope, s) + n + 1;
    TooMany(rates, scope, s, w, u, at);
  }

  lemma TooMany(rates: Limit.Rates, scope: Scope, s: State, w: seq<Step>, t: State, at: int)
    requires Leads(rates, s, w, t, at) && ReadBy(s, at)
    requires Admitted(scope, t) == Admitted(scope, s) + Capacity(RateOf(rates, scope)).Floor + 1
    ensures !PlainBound(rates, scope, s)
  {
    assert Earned(RateOf(rates, scope), at - at) == 0.0;
    assert Within(w, at, at) && Runs(rates, s, w);
  }

  function Latest(threads: seq<Thread>, floor: int): (x: int)
    ensures x >= floor && forall i :: 0 <= i < |threads| ==> threads[i].now <= x
  {
    if threads == [] then floor
    else
      var n := |threads| - 1;
      var x := Latest(threads[..n], floor);
      assert forall i :: 0 <= i < n ==> threads[i] == threads[..n][i];
      Max(x, threads[n].now)
  }

  lemma {:induction false} FreshUser(users: set<Uuid>) returns (u: Uuid)
    ensures u != NIL && u !in users && forall v <- users :: v < u
  {
    u := 1;
    if users != {} {
      var v :| v in users;
      var above := FreshUser(users - {v});
      u := if v < above then above else v + 1;
      assert forall k <- users :: k == v || k in users - {v};
    }
  }

  // `n` requests for one workspace at one instant, each of a user not seen before.
  lemma {:induction false} ServeNewUsers(rates: Limit.Rates, s: State, ws: Uuid, n: nat, at: int)
    returns (w: seq<Step>, t: State)
    requires ws != NIL
    requires var b := Found(rates, OfWorkspace(ws), s, at); b.last == at && b.tokens >= n as real
    ensures Leads(rates, s, w, t, at) && Admitted(OfWorkspace(ws), t) == Admitted(OfWorkspace(ws), s) + n
    decreases n
  {
    if n == 0 {
      w, t := [], s;
    } else {
      var user := FreshUser(s.users.Keys);
      ServeOnce(rates, s, ws, user, at);
      var first, s1 := ServeSteps(|s.threads|, ws, user, at), Served(rates, s, ws, user, at);
      CountAppend(s.threads, Thread(ws, user, at, Done(true)), IsAdmitted(OfWorkspace(ws)));
      assert Leads(rates, s, first, s1, at);
      var rest, end := ServeNewUsers(rates, s1, ws, n - 1, at);
      LeadsOn(rates, s, first, s1, rest, end, at);
      w, t := first + rest, end;
    }
  }

  // A request that finds a token of its workspace gets a token of its user, after a rest and behind another request of
  // that user if it has none yet, and is admitted.
  lemma {:induction false} AdmitEarly(rates: Limit.Rates, s: State, i: nat, x: int, at: int)
    returns (w: seq<Step>, t: State)
    requires LevelsOk(rates, s) && i < |s.threads| && s.threads[i].ws != NIL
    requires s.threads[i].now <= x && x + 2 * SECOND <= at
    requires Beats(rates, OfWorkspace(s.threads[i].ws), s, s.threads[i])
    requires StampedBy(s.users, s.threads[i].user, x) && StampedBy(s.work, s.threads[i].ws, x)
    ensures Leads(rates, s, w, t, at) && LevelsOk(rates, t) && StampedBy(t.work, s.threads[i].ws, x)
    ensures Admitted(OfWorkspace(s.threads[i].ws), t) == Admitted(OfWorkspace(s.threads[i].ws), s) + 1
    decreases StepsLeft(s.threads[i].phase)
  {
    var phase, scope := s.threads[i].phase, OfWorkspace(s.threads[i].ws);
    if phase == UserTaken {
      w := GoOn(rates, s, [], s, TakeWorkspace(i), at);
      t := Next(rates, s, TakeWorkspace(i));
      StepKeeps(rates, s, TakeWorkspace(i));
      MoveCounts(scope, at, s, i, t);
    } else if phase == Arrived {
      w := GoOn(rates, s, [], s, Locate(i), at);
      var s1 := Next(rates, s, Locate(i));
      StepKeeps(rates, s, Locate(i));
      MoveCounts(scope, at, s, i, s1);
      var rest, end := AdmitEarly(rates, s1, i, x, at);
      LeadsOn(rates, s, w, s1, rest, end, at);
      w, t := w + rest, end;
    } else {
      var s1;
      w, s1 := TakeBehind(rates, s, i, x, at);
      w := GoOn(rates, s, w, s1, TakeWorkspace(i), at);
      t := Next(rates, s1, TakeWorkspace(i));
      StepKeeps(rates, s1, TakeWorkspace(i));
      MoveCounts(scope, at, s1, i, t);
    }
  }

  // A located request takes its user's token right behind another request of that user.
  lemma TakeBehind(rates: Limit.Rates, s: State, i: nat, x: int, at: int) returns (w: seq<Step>, t: State)
    requires LevelsOk(rates, s) && i < |s.threads| && s.threads[i].phase == Located && s.threads[i].ws != NIL
    requires s.threads[i].now <= x && x + 2 * SECOND <= at && StampedBy(s.users, s.threads[i].user, x)
    ensures Leads(rates, s, w, t, at) && LevelsOk(rates, t) && t.work == s.work
    ensures i < |t.threads| && t.threads[i] == s.threads[i].(phase := UserTaken)
    ensures Admitted(OfWorkspace(s.threads[i].ws), t) == Admitted(OfWorkspace(s.threads[i].ws), s)
  {
    var user, scope := s.threads[i].user, OfWorkspace(s.threads[i].ws);
    Rested(rates, OfUser(user), s, x, at);
    w := ServeAlone(rates, s, user, at);
    var s1 := ServedAlone(rates, s, user, at);
    CountAppend(s.threads, Thread(NIL, user, at, Done(true)), IsAdmitted(scope));
    ConsumeKeeps(rates.user, Limit.Lookup(s.users, rates.user, user, at), at);
    w := GoOn(rates, s, w, s1, TakeUser(i), at);
    t := Next(rates, s1, TakeUser(i));
    StepKeeps(rates, s1, TakeUser(i));
    MoveCounts(scope, at, s1, i, t);
  }

  // No plain bound for a workspace with such a request.
  lemma WorkspaceBoundBeaten(rates: Limit.Rates, s: State, i: nat)
    requires LevelsOk(rates, s) && i < |s.threads| && s.threads[i].ws != NIL
    requires Beats(rates, OfWorkspace(s.threads[i].ws), s, s.threads[i])
    ensures !PlainBound(rates, OfWorkspace(s.threads[i].ws), s)
  {
    var user, ws, scope := s.threads[i].user, s.threads[i].ws, OfWorkspace(s.threads[i].ws);
    var x := Latest(s.threads, Max(if user in s.users then s.users[user].last else 0,
                                      if ws in s.work then s.work[ws].last else 0));
    var at, n := x + 2 * SECOND, Capacity(rates.work).Floor;
    var w, t := AdmitEarly(rates, s, i, x, at);
    Rested(rates, scope, t, x, at);
    var more, u := ServeNewUsers(rates, t, ws, n, at);
    LeadsOn(rates, s, w, t, more, u, at);
    TooMany(rates, scope, s, w + more, u, at);
  }

  lemma BoundBeaten(rates: Limit.Rates, scope: Scope, s: State, i: nat)
    requires LevelsOk(rates, s) && scope != OfWorkspace(NIL)
    requires i < |s.threads| && Beats(rates, scope, s, s.threads[i])
    ensures !PlainBound(rates, scope, s)
  {
    match scope {
      case OfUser(_) => UserBoundBeaten(rates, s, i);
      case OfWorkspace(_) => WorkspaceBoundBeaten(rates, s, i);
    }
  }

  lemma PlainBoundIff(rates: Limit.Rates, scope: Scope, s: State)
    requires LevelsOk(rates, s) && scope != OfWorkspace(NIL)
    ensures PlainBound(rates, scope, s) <==> forall i :: 0 <= i < |s.threads| ==> !Beats(rates, scope, s, s.threads[i])
  {
    if i :| 0 <= i < |s.threads| && Beats(rates, scope, s, s.threads[i]) {
      BoundBeaten(rates, scope, s, i);
    } else {
      PlainBoundHolds(rates, scope, s);
    }
  }

  lemma {:induction false} LevelsHold(rates: Limit.Rates, s: State, steps: seq<Step>)
    requires LevelsOk(rates, s) && Runs(rates, s, steps)
    ensures LevelsOk(rates, After(rates, s, steps))
    decreases |steps|
  {
    if steps != [] {
      StepKeeps(rates, s, steps[0]);
      LevelsHold(rates, Next(rates, s, steps[0]), steps[1..]);
    }
  }

  /**
    Both levels, every reachable state: from then on no interval admits more than capacity and refill if and only if no
    request of that level can beat the bound: none holds a token of the user between its two buckets, and none has
    still to take from the bucket with a clock reading at which it finds a token there.
   */
  lemma PlainBoundExactly(rates: Limit.Rates, scope: Scope, history: seq<Step>)
    requires scope != OfWorkspace(NIL) && Runs(rates, START, history)
    ensures var s := After(rates, START, history);
            PlainBound(rates, scope, s) <==> forall i :: 0 <= i < |s.threads| ==> !Beats(rates, scope, s, s.threads[i])
  {
    LevelsHold(rates, START, history);
    PlainBoundIff(rates, scope, After(rates, START, history));
  }
}
