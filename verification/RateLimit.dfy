/**
  The two-level in-memory rate limiter: one bucket per user, one per workspace, and a janitor that evicts
  idle buckets. `State` is the value of the limiter and `Reserve` and `Evict` are its two steps; the class
  `RateLimiter` does them in place. Over every run the module proves that eviction cannot be observed, that
  each user and each workspace stays within its burst bound, and what a refusal costs and promises.
 */
module RateLimit {
  import opened Numbers
  import opened TokenBuckets

  type Uuid = nat
  const NIL: Uuid := 0

  const DEFAULT_USER_RATE: int := 100
  const DEFAULT_WORKSPACE_RATE: int := 1000
  const JANITOR_WINDOW: int := 300 * SECOND

  datatype Rates = Rates(user: Rate, work: Rate)

  // What the caller is told: how long to wait (0: admitted), whole tokens left, and the refill time in unix seconds.
  datatype Reservation = Reservation(wait: int, remaining: int, reset: int)

  datatype State = State(users: map<Uuid, Level>, work: map<Uuid, Level>, touched: map<Uuid, int>)

  const EMPTY := State(map[], map[], map[])

  // A bucket that is not stored is created full.
  function Lookup(buckets: map<Uuid, Level>, rate: Rate, id: Uuid, now: int): Level {
    if id in buckets then buckets[id] else Full(rate, now)
  }

  function Reserved(rate: Rate, b: Level, wait: int, now: int): Reservation {
    var remaining := if b.tokens.Floor < 0 then 0 else b.tokens.Floor;
    var deficit := Capacity(rate) - b.tokens;
    var resetIn := if deficit > 0.0 then (deficit / rate * SECOND as real).Floor else SECOND;
    Reservation(wait, remaining, (now + resetIn) / SECOND)
  }

  function Touch(touched: map<Uuid, int>, ws: Uuid, user: Uuid, now: int): map<Uuid, int> {
    if ws != NIL then touched[user := now][ws := now] else touched[user := now]
  }

  // Both buckets found or created, and stamped.
  function Located(rates: Rates, s: State, ws: Uuid, user: Uuid, now: int): State {
    State(s.users[user := Lookup(s.users, rates.user, user, now)],
          if ws != NIL then s.work[ws := Lookup(s.work, rates.work, ws, now)] else s.work,
          Touch(s.touched, ws, user, now))
  }

  function TakeUser(rates: Rates, s: State, user: Uuid, now: int): (State, int)
    requires user in s.users
  {
    var (b, wait) := Consume(rates.user, s.users[user], now);
    (s.(users := s.users[user := b]), wait)
  }

  function TakeWorkspace(rates: Rates, s: State, ws: Uuid, now: int): (State, int)
    requires ws in s.work
  {
    var (b, wait) := Consume(rates.work, s.work[ws], now);
    (s.(work := s.work[ws := b]), wait)
  }

  function ReturnUser(rates: Rates, s: State, user: Uuid): State
    requires user in s.users
  {
    s.(users := s.users[user := Refund(rates.user, s.users[user])])
  }

  // One request.
  function Reserve(rates: Rates, s: State, ws: Uuid, user: Uuid, now: int): (State, Reservation) {
    Decided(rates, Located(rates, s, ws, user, now), ws, user, now)
  }

  // The user's bucket first; only if it grants a token, the workspace's; a workspace refusal gives the user's token
  // back.
  function Decided(rates: Rates, s: State, ws: Uuid, user: Uuid, now: int): (State, Reservation)
    requires user in s.users && (ws != NIL ==> ws in s.work)
  {
    var (s1, wait) := TakeUser(rates, s, user, now);
    if wait > 0 then (s1, Reserved(rates.user, s1.users[user], wait, now))
    else if ws == NIL then (s1, Reserved(rates.user, s1.users[user], 0, now))
    else
      var (s2, wsWait) := TakeWorkspace(rates, s1, ws, now);
      var s3 := if wsWait > 0 then ReturnUser(rates, s2, user) else s2;
      (s3, Reserved(rates.user, s3.users[user], if wsWait > 0 then wsWait else 0, now))
  }

  // Every entry not touched within the last two windows goes.
  function Idle(s: State, now: int): set<Uuid> {
    set id | id in s.touched && s.touched[id] <= now - 2 * JANITOR_WINDOW
  }

  function Evict(s: State, now: int): State {
    State(s.users - Idle(s, now), s.work - Idle(s, now), s.touched - Idle(s, now))
  }

  // ---------------------------------------------------------------- runs

  datatype Event = Request(ws: Uuid, user: Uuid, now: int) | Tick(now: int)

  function Step(rates: Rates, s: State, e: Event): State {
    match e
    case Request(ws, user, now) => Reserve(rates, s, ws, user, now).0
    case Tick(now) => Evict(s, now)
  }

  function Final(rates: Rates, s: State, es: seq<Event>): State
    decreases |es|
  {
    if es == [] then s else Final(rates, Step(rates, s, es[0]), es[1..])
  }

  // The answers a run gives, in order.
  function Replies(rates: Rates, s: State, es: seq<Event>): seq<Reservation>
    decreases |es|
  {
    if es == [] then []
    else
      var here := if es[0].Request? then [Reserve(rates, s, es[0].ws, es[0].user, es[0].now).1] else [];
      here + Replies(rates, Step(rates, s, es[0]), es[1..])
  }

  ghost predicate Ordered(es: seq<Event>, from: int) {
    es == [] || (from <= es[0].now && Ordered(es[1..], es[0].now))
  }

  function Last(es: seq<Event>, from: int): int {
    if es == [] then from else Last(es[1..], es[0].now)
  }

  function WithoutTicks(es: seq<Event>): seq<Event> {
    if es == [] then [] else (if es[0].Tick? then [] else [es[0]]) + WithoutTicks(es[1..])
  }

  // ---------------------------------------------------------------- what every step keeps

  ghost predicate SideOk(buckets: map<Uuid, Level>, rate: Rate, touched: map<Uuid, int>, now: int) {
    forall id <- buckets :: WellFormed(rate, buckets[id]) && id in touched && buckets[id].last <= touched[id] <= now
  }

  ghost predicate Ok(rates: Rates, s: State, now: int) {
    SideOk(s.users, rates.user, s.touched, now) && SideOk(s.work, rates.work, s.touched, now)
  }

  lemma SidePut(buckets: map<Uuid, Level>, rate: Rate, touched: map<Uuid, int>, now: int, id: Uuid, b: Level)
    requires SideOk(buckets, rate, touched, now) && WellFormed(rate, b) && id in touched && b.last <= touched[id] <= now
    ensures SideOk(buckets[id := b], rate, touched, now)
  {
  }

  lemma LocatedKeeps(rates: Rates, s: State, ws: Uuid, user: Uuid, from: int, now: int)
    requires Ok(rates, s, from) && from <= now
    ensures Ok(rates, Located(rates, s, ws, user, now), now)
    ensures var touched := Located(rates, s, ws, user, now).touched;
            user in touched && touched[user] == now && (ws != NIL ==> ws in touched && touched[ws] == now)
  {
  }

  lemma ReserveKeeps(rates: Rates, s: State, ws: Uuid, user: Uuid, from: int, now: int)
    requires Ok(rates, s, from) && from <= now
    ensures Ok(rates, Reserve(rates, s, ws, user, now).0, now)
  {
    var at := Located(rates, s, ws, user, now);
    LocatedKeeps(rates, s, ws, user, from, now);
    ConsumeKeeps(rates.user, at.users[user], now);
    var (s1, wait) := TakeUser(rates, at, user, now);
    SidePut(at.users, rates.user, at.touched, now, user, s1.users[user]);
    if wait <= 0 && ws != NIL {
      ConsumeKeeps(rates.work, at.work[ws], now);
      var (s2, _) := TakeWorkspace(rates, s1, ws, now);
      SidePut(at.work, rates.work, at.touched, now, ws, s2.work[ws]);
      RefundRaisesByOne(rates.user, s1.users[user], now);
      SidePut(s1.users, rates.user, at.touched, now, user, Refund(rates.user, s1.users[user]));
    }
  }

  lemma StepKeeps(rates: Rates, s: State, e: Event, from: int)
    requires Ok(rates, s, from) && from <= e.now
    ensures Ok(rates, Step(rates, s, e), e.now)
  {
    if e.Request? { ReserveKeeps(rates, s, e.ws, e.user, from, e.now); }
  }

  lemma {:induction false} RunKeeps(rates: Rates, s: State, es: seq<Event>, from: int)
    requires Ok(rates, s, from) && Ordered(es, from)
    ensures Ok(rates, Final(rates, s, es), Last(es, from))
    decreases |es|
  {
    if es != [] {
      StepKeeps(rates, s, es[0], from);
      RunKeeps(rates, Step(rates, s, es[0]), es[1..], es[0].now);
    }
  }

  // ---------------------------------------------------------------- what a run can see of a bucket

  // The level a request at `now` finds, stored or not.
  function Seen(buckets: map<Uuid, Level>, rate: Rate, id: Uuid, now: int): Level {
    Refill(rate, Lookup(buckets, rate, id, now), now)
  }

  ghost predicate Agree(a: map<Uuid, Level>, b: map<Uuid, Level>, rate: Rate, now: int) {
    forall id :: Seen(a, rate, id, now) == Seen(b, rate, id, now)
  }

  lemma SeenLater(buckets: map<Uuid, Level>, rate: Rate, touched: map<Uuid, int>, id: Uuid, now: int, later: int)
    requires SideOk(buckets, rate, touched, now) && now <= later
    ensures Seen(buckets, rate, id, later) == Refill(rate, Seen(buckets, rate, id, now), later)
    ensures WellFormed(rate, Seen(buckets, rate, id, now))
    ensures Seen(buckets, rate, id, now).last == now
  {
    var b := Lookup(buckets, rate, id, now);
    RefillKeeps(rate, b, now);
    RefillTwice(rate, b, now, later);
    EarnedGrows(rate, 0, later - now);
  }

  // A whole request depends on, and changes, nothing but what it sees of its own two buckets.
  lemma ReserveSees(rates: Rates, s: State, ws: Uuid, user: Uuid, now: int)
    requires Ok(rates, s, now)
    ensures var (s', r) := Reserve(rates, s, ws, user, now);
            var u := Seen(s.users, rates.user, user, now);
            var w := Seen(s.work, rates.work, ws, now);
            var grant := u.tokens >= 1.0 && (ws == NIL || w.tokens >= 1.0);
            && r.wait >= 0 && (r.wait == 0 <==> grant)
            && Seen(s'.users, rates.user, user, now) == (if grant then u.(tokens := u.tokens - 1.0) else u)
            && (ws != NIL ==> Seen(s'.work, rates.work, ws, now) == if grant then w.(tokens := w.tokens - 1.0) else w)
            && (forall id | id != user :: Seen(s'.users, rates.user, id, now) == Seen(s.users, rates.user, id, now))
            && (forall id | id != ws || ws == NIL ::
                  Seen(s'.work, rates.work, id, now) == Seen(s.work, rates.work, id, now))
            && r == Reserved(rates.user, Seen(s'.users, rates.user, user, now),
                             if grant then 0
                             else if u.tokens < 1.0 then WaitFor(rates.user, u.tokens)
                             else WaitFor(rates.work, w.tokens), now)
  {
    SeenLater(s.users, rates.user, s.touched, user, now, now);
    SeenLater(s.work, rates.work, s.touched, ws, now, now);
    ConsumeKeeps(rates.user, Lookup(s.users, rates.user, user, now), now);
    ConsumeKeeps(rates.work, Lookup(s.work, rates.work, ws, now), now);
  }

  // Eviction leaves what later requests see of every bucket as it was.
  lemma EvictSees(rates: Rates, s: State, now: int)
    requires Ok(rates, s, now)
    ensures Agree(Evict(s, now).users, s.users, rates.user, now)
    ensures Agree(Evict(s, now).work, s.work, rates.work, now)
  {
    forall id ensures Seen(Evict(s, now).users, rates.user, id, now) == Seen(s.users, rates.user, id, now) {
      if id in s.users && id in Idle(s, now) { RestFills(rates.user, s.users[id], now); }
    }
    forall id ensures Seen(Evict(s, now).work, rates.work, id, now) == Seen(s.work, rates.work, id, now) {
      if id in s.work && id in Idle(s, now) { RestFills(rates.work, s.work[id], now); }
    }
  }

  lemma AgreeLater(a: State, b: State, rates: Rates, now: int, later: int)
    requires Ok(rates, a, now) && Ok(rates, b, now) && now <= later
    requires Agree(a.users, b.users, rates.user, now) && Agree(a.work, b.work, rates.work, now)
    ensures Agree(a.users, b.users, rates.user, later) && Agree(a.work, b.work, rates.work, later)
  {
    forall id ensures Seen(a.users, rates.user, id, later) == Seen(b.users, rates.user, id, later)
                   && Seen(a.work, rates.work, id, later) == Seen(b.work, rates.work, id, later) {
      SeenLater(a.users, rates.user, a.touched, id, now, later);
      SeenLater(b.users, rates.user, b.touched, id, now, later);
      SeenLater(a.work, rates.work, a.touched, id, now, later);
      SeenLater(b.work, rates.work, b.touched, id, now, later);
    }
  }

  lemma OkLater(rates: Rates, s: State, now: int, later: int)
    requires Ok(rates, s, now) && now <= later
    ensures Ok(rates, s, later)
  {
  }

  // ---------------------------------------------------------------- eviction is invisible

  lemma SameReserve(rates: Rates, a: State, b: State, e: Event)
    requires e.Request? && Ok(rates, a, e.now) && Ok(rates, b, e.now)
    requires Agree(a.users, b.users, rates.user, e.now) && Agree(a.work, b.work, rates.work, e.now)
    ensures Reserve(rates, a, e.ws, e.user, e.now).1 == Reserve(rates, b, e.ws, e.user, e.now).1
    ensures Agree(Step(rates, a, e).users, Step(rates, b, e).users, rates.user, e.now)
    ensures Agree(Step(rates, a, e).work, Step(rates, b, e).work, rates.work, e.now)
  {
    ReserveSees(rates, a, e.ws, e.user, e.now);
    ReserveSees(rates, b, e.ws, e.user, e.now);
    var a', b' := Step(rates, a, e), Step(rates, b, e);
    assert Seen(a.users, rates.user, e.user, e.now) == Seen(b.users, rates.user, e.user, e.now);
    assert Seen(a.work, rates.work, e.ws, e.now) == Seen(b.work, rates.work, e.ws, e.now);
    forall id ensures Seen(a'.users, rates.user, id, e.now) == Seen(b'.users, rates.user, id, e.now) {
      if id != e.user {
        assert Seen(a.users, rates.user, id, e.now) == Seen(b.users, rates.user, id, e.now);
      }
    }
    forall id ensures Seen(a'.work, rates.work, id, e.now) == Seen(b'.work, rates.work, id, e.now) {
      if id != e.ws || e.ws == NIL {
        assert Seen(a.work, rates.work, id, e.now) == Seen(b.work, rates.work, id, e.now);
      }
    }
  }

  lemma {:induction false} SameReplies(rates: Rates, a: State, b: State, es: seq<Event>, from: int)
    requires Ok(rates, a, from) && Ok(rates, b, from) && Ordered(es, from)
    requires Agree(a.users, b.users, rates.user, from) && Agree(a.work, b.work, rates.work, from)
    ensures Replies(rates, a, es) == Replies(rates, b, WithoutTicks(es))
    decreases |es|
  {
    if es != [] {
      var e, now, rest := es[0], es[0].now, es[1..];
      OkLater(rates, a, from, now);
      OkLater(rates, b, from, now);
      AgreeLater(a, b, rates, from, now);
      StepKeeps(rates, a, e, from);
      var a' := Step(rates, a, e);
      if e.Tick? {
        EvictSees(rates, a, now);
        assert Agree(a'.users, b.users, rates.user, now) by {
          forall id ensures Seen(a'.users, rates.user, id, now) == Seen(b.users, rates.user, id, now) {
            assert Seen(a'.users, rates.user, id, now) == Seen(a.users, rates.user, id, now);
          }
        }
        assert Agree(a'.work, b.work, rates.work, now) by {
          forall id ensures Seen(a'.work, rates.work, id, now) == Seen(b.work, rates.work, id, now) {
            assert Seen(a'.work, rates.work, id, now) == Seen(a.work, rates.work, id, now);
          }
        }
        SameReplies(rates, a', b, rest, now);
        assert WithoutTicks(es) == WithoutTicks(rest) && Replies(rates, a, es) == Replies(rates, a', rest);
      } else {
        StepKeeps(rates, b, e, from);
        SameReserve(rates, a, b, e);
        SameReplies(rates, a', Step(rates, b, e), rest, now);
        assert WithoutTicks(es) == [e] + WithoutTicks(rest) && ([e] + WithoutTicks(rest))[1..] == WithoutTicks(rest);
      }
    }
  }

  /** Running the janitor, as often and whenever it likes, changes no answer: neither who is admitted nor any
      wait, remaining budget or reset time. */
  lemma EvictionIsInvisible(rates: Rates, es: seq<Event>, from: int)
    requires Ordered(es, from)
    ensures Replies(rates, EMPTY, es) == Replies(rates, EMPTY, WithoutTicks(es))
  {
    SameReplies(rates, EMPTY, EMPTY, es, from);
  }

  // ---------------------------------------------------------------- the burst bounds

  // Requests of one user, and of one workspace, that a run admits.
  function AdmittedUser(rates: Rates, s: State, es: seq<Event>, user: Uuid): nat
    decreases |es|
  {
    if es == [] then 0
    else
      var e := es[0];
      var here := e.Request? && e.user == user && Reserve(rates, s, e.ws, e.user, e.now).1.wait == 0;
      (if here then 1 else 0) + AdmittedUser(rates, Step(rates, s, e), es[1..], user)
  }

  function AdmittedWorkspace(rates: Rates, s: State, es: seq<Event>, ws: Uuid): nat
    decreases |es|
  {
    if es == [] then 0
    else
      var e := es[0];
      var here := e.Request? && e.ws == ws && Reserve(rates, s, e.ws, e.user, e.now).1.wait == 0;
      (if here then 1 else 0) + AdmittedWorkspace(rates, Step(rates, s, e), es[1..], ws)
  }

  // One event at `now`: an admission spends a token of the bucket it is seen in, nothing else changes it.
  lemma StepPays(rates: Rates, s: State, e: Event, user: Uuid, ws: Uuid)
    requires Ok(rates, s, e.now)
    ensures var s' := Step(rates, s, e);
            var admitted := e.Request? && Reserve(rates, s, e.ws, e.user, e.now).1.wait == 0;
            && Seen(s'.users, rates.user, user, e.now).tokens
               == Seen(s.users, rates.user, user, e.now).tokens - (if admitted && e.user == user then 1.0 else 0.0)
            && (ws != NIL ==>
                  Seen(s'.work, rates.work, ws, e.now).tokens
                  == Seen(s.work, rates.work, ws, e.now).tokens - (if admitted && e.ws == ws then 1.0 else 0.0))
  {
    if e.Tick? {
      EvictSees(rates, s, e.now);
      assert Seen(Step(rates, s, e).users, rates.user, user, e.now) == Seen(s.users, rates.user, user, e.now);
      assert Seen(Step(rates, s, e).work, rates.work, ws, e.now) == Seen(s.work, rates.work, ws, e.now);
    } else {
      ReserveSees(rates, s, e.ws, e.user, e.now);
    }
  }

  // What is seen of a bucket rises by no more than what the time between earns.
  lemma SeenRises(buckets: map<Uuid, Level>, rate: Rate, touched: map<Uuid, int>, id: Uuid, from: int, to: int)
    requires SideOk(buckets, rate, touched, from) && from <= to
    ensures Seen(buckets, rate, id, to).tokens <= Seen(buckets, rate, id, from).tokens + Earned(rate, to - from)
    ensures 0.0 <= Seen(buckets, rate, id, from).tokens <= Capacity(rate)
  {
    SeenLater(buckets, rate, touched, id, from, to);
    RefillBounded(rate, Seen(buckets, rate, id, from), from, to);
  }

  // One event and the time since the last: an admission is paid for by the level and the refill.
  lemma StepPaysSince(rates: Rates, s: State, e: Event, user: Uuid, ws: Uuid, from: int)
    requires Ok(rates, s, from) && from <= e.now
    ensures Ok(rates, Step(rates, s, e), e.now)
    ensures var s' := Step(rates, s, e);
            var admitted := e.Request? && Reserve(rates, s, e.ws, e.user, e.now).1.wait == 0;
            && (if admitted && e.user == user then 1.0 else 0.0) + Seen(s'.users, rates.user, user, e.now).tokens
               <= Seen(s.users, rates.user, user, from).tokens + Earned(rates.user, e.now - from)
            && (ws != NIL ==>
                  (if admitted && e.ws == ws then 1.0 else 0.0) + Seen(s'.work, rates.work, ws, e.now).tokens
                  <= Seen(s.work, rates.work, ws, from).tokens + Earned(rates.work, e.now - from))
  {
    SeenRises(s.users, rates.user, s.touched, user, from, e.now);
    SeenRises(s.work, rates.work, s.touched, ws, from, e.now);
    OkLater(rates, s, from, e.now);
    StepKeeps(rates, s, e, from);
    StepPays(rates, s, e, user, ws);
  }

  // Admissions spend what is seen at the start and what is earned on the way; the rest is still there at the end.
  lemma {:induction false} UserPays(rates: Rates, s: State, es: seq<Event>, user: Uuid, from: int, to: int)
    requires Ok(rates, s, from) && Ordered(es, from) && Last(es, from) <= to
    ensures AdmittedUser(rates, s, es, user) as real + Seen(Final(rates, s, es).users, rates.user, user, to).tokens
         <= Seen(s.users, rates.user, user, from).tokens + Earned(rates.user, to - from)
    decreases |es|
  {
    if es == [] {
      SeenRises(s.users, rates.user, s.touched, user, from, to);
    } else {
      var now := es[0].now;
      StepPaysSince(rates, s, es[0], user, NIL, from);
      LastIsLatest(es[1..], now);
      UserPays(rates, Step(rates, s, es[0]), es[1..], user, now, to);
      EarnedAdds(rates.user, now - from, to - now);
    }
  }

  lemma {:induction false} WorkspacePays(rates: Rates, s: State, es: seq<Event>, ws: Uuid, from: int, to: int)
    requires ws != NIL && Ok(rates, s, from) && Ordered(es, from) && Last(es, from) <= to
    ensures AdmittedWorkspace(rates, s, es, ws) as real + Seen(Final(rates, s, es).work, rates.work, ws, to).tokens
         <= Seen(s.work, rates.work, ws, from).tokens + Earned(rates.work, to - from)
    decreases |es|
  {
    if es == [] {
      SeenRises(s.work, rates.work, s.touched, ws, from, to);
    } else {
      var now := es[0].now;
      StepPaysSince(rates, s, es[0], NIL, ws, from);
      LastIsLatest(es[1..], now);
      WorkspacePays(rates, Step(rates, s, es[0]), es[1..], ws, now, to);
      EarnedAdds(rates.work, now - from, to - now);
    }
  }

  lemma {:induction false} LastIsLatest(es: seq<Event>, from: int)
    requires Ordered(es, from)
    ensures from <= Last(es, from)
  {
    if es != [] { LastIsLatest(es[1..], es[0].now); }
  }

  lemma {:induction false} FinalIsOk(rates: Rates, s: State, history: seq<Event>, start: int, from: int)
    requires Ok(rates, s, start) && Ordered(history, start) && Last(history, start) <= from
    ensures Ok(rates, Final(rates, s, history), from)
  {
    RunKeeps(rates, s, history, start);
    OkLater(rates, Final(rates, s, history), Last(history, start), from);
  }

  /** Whatever happened before, the requests of one user admitted between `from` and `to` number at most the
      capacity plus the refill of that interval, across all workspaces and whatever the janitor does. */
  lemma UserBurstBound(rates: Rates, history: seq<Event>, window: seq<Event>, user: Uuid,
                       start: int, from: int, to: int)
    requires Ordered(history, start) && Last(history, start) <= from
    requires Ordered(window, from) && Last(window, from) <= to
    ensures AdmittedUser(rates, Final(rates, EMPTY, history), window, user) as real
         <= Capacity(rates.user) + Earned(rates.user, to - from)
  {
    var s := Final(rates, EMPTY, history);
    FinalIsOk(rates, EMPTY, history, start, from);
    UserPays(rates, s, window, user, from, to);
    SeenRises(s.users, rates.user, s.touched, user, from, from);
    FinalIsOk(rates, s, window, from, to);
    var f := Final(rates, s, window);
    SeenRises(f.users, rates.user, f.touched, user, to, to);
  }

  lemma WorkspaceBurstBound(rates: Rates, history: seq<Event>, window: seq<Event>, ws: Uuid,
                            start: int, from: int, to: int)
    requires ws != NIL && Ordered(history, start) && Last(history, start) <= from
    requires Ordered(window, from) && Last(window, from) <= to
    ensures AdmittedWorkspace(rates, Final(rates, EMPTY, history), window, ws) as real
         <= Capacity(rates.work) + Earned(rates.work, to - from)
  {
    var s := Final(rates, EMPTY, history);
    FinalIsOk(rates, EMPTY, history, start, from);
    WorkspacePays(rates, s, window, ws, from, to);
    SeenRises(s.work, rates.work, s.touched, ws, from, from);
    FinalIsOk(rates, s, window, from, to);
    var f := Final(rates, s, window);
    SeenRises(f.work, rates.work, f.touched, ws, to, to);
  }

  // ---------------------------------------------------------------- what a refusal means

  /** A refused request costs nothing: every bucket is seen as before. And coming back after the wait it was
      told, undisturbed, it is granted by the bucket that refused it; if that was the workspace's, it is admitted. */
  lemma RefusalIsFreeAndHonest(rates: Rates, s: State, ws: Uuid, user: Uuid, now: int, later: int)
    requires Ok(rates, s, now) && now <= later
    ensures var (s', r) := Reserve(rates, s, ws, user, now);
            r.wait > 0 ==>
              && Agree(s'.users, s.users, rates.user, now) && Agree(s'.work, s.work, rates.work, now)
              && (later >= now + r.wait ==>
                    && Seen(s'.users, rates.user, user, later).tokens >= 1.0
                    && (Seen(s.users, rates.user, user, now).tokens >= 1.0 ==>
                          Reserve(rates, s', ws, user, later).1.wait == 0))
  {
    var (s', r) := Reserve(rates, s, ws, user, now);
    ReserveSees(rates, s, ws, user, now);
    ReserveKeeps(rates, s, ws, user, now, now);
    SeenLater(s'.users, rates.user, s'.touched, user, now, later);
    SeenLater(s'.work, rates.work, s'.touched, ws, now, later);
    var u, w := Seen(s'.users, rates.user, user, now), Seen(s'.work, rates.work, ws, now);
    RefillKeeps(rates.user, u, later);
    if r.wait == 0 || later < now + r.wait {
    } else if u.tokens < 1.0 {
      WaitEarns(rates.user, u.tokens, later - now);
    } else {
      WaitEarns(rates.work, w.tokens, later - now);
      OkLater(rates, s', now, later);
      ReserveSees(rates, s', ws, user, later);
    }
  }

  // ---------------------------------------------------------------- what the answer's headers mean

  // `n` tokens in a row, at one instant.
  predicate CanTake(rate: Rate, b: Level, n: nat, now: int)
    decreases n
  {
    n == 0 || (Consume(rate, b, now).1 == 0 && CanTake(rate, Consume(rate, b, now).0, n - 1, now))
  }

  lemma {:induction false} CanTakeExactly(rate: Rate, b: Level, n: nat, now: int)
    requires WellFormed(rate, b) && b.last >= now
    ensures CanTake(rate, b, n, now) <==> n as real <= b.tokens
    decreases n
  {
    ConsumeKeeps(rate, b, now);
    if n > 0 && b.tokens >= 1.0 { CanTakeExactly(rate, Consume(rate, b, now).0, n - 1, now); }
  }

  // A bucket stamped `now` that is short of `deficit` is full once the time to earn it, truncated, is over by a
  // nanosecond, and not before.
  lemma FillsUp(rate: Rate, b: Level, now: int, later: int)
    requires WellFormed(rate, b) && b.last == now <= later
    ensures var resetIn := ((Capacity(rate) - b.tokens) / rate * SECOND as real).Floor;
            && (later > now + resetIn ==> Refill(rate, b, later).tokens == Capacity(rate))
            && (later < now + resetIn ==> Refill(rate, b, later).tokens < Capacity(rate))
  {
    EarnsExactly(rate, Capacity(rate) - b.tokens, later - now);
    if later > now {
      assert Refill(rate, b, later).tokens == MinReal(Capacity(rate), b.tokens + Earned(rate, later - now));
    }
  }

  lemma EarnsExactly(rate: Rate, deficit: real, d: int)
    requires deficit >= 0.0
    ensures d as real >= deficit / rate * SECOND as real <==> Earned(rate, d) >= deficit
    ensures deficit / rate * SECOND as real >= 0.0
  {
    var exact := deficit / rate * SECOND as real;
    assert deficit / rate >= 0.0;
    assert exact / SECOND as real == deficit / rate;
    assert exact / SECOND as real * rate == deficit;
    if d as real >= exact {
      assert d as real / SECOND as real >= exact / SECOND as real;
      assert d as real / SECOND as real * rate >= exact / SECOND as real * rate;
    } else {
      assert d as real / SECOND as real < exact / SECOND as real;
      assert d as real / SECOND as real * rate < exact / SECOND as real * rate;
    }
  }

  // A reset is never before the current second, and at most two seconds ahead.
  lemma ResetIsNear(rate: Rate, b: Level, wait: int, now: int)
    requires WellFormed(rate, b)
    ensures var r := Reserved(rate, b, wait, now);
            && now < (r.reset + 1) * SECOND && r.reset * SECOND <= now + 2 * SECOND
            && (b.tokens == Capacity(rate) ==> now < r.reset * SECOND <= now + SECOND)
  {
    var deficit := Capacity(rate) - b.tokens;
    EarnsExactly(rate, deficit, 2 * SECOND);
    assert Earned(rate, 2 * SECOND) == 2.0 * rate;
  }

  /**
    What every answer tells its caller: exactly `remaining` further tokens can be had of the user's bucket at once;
    undisturbed, the bucket is full again when second `reset` is over, and unless it is full already, not before that
    second begins. A full bucket's reset is the next full second, and no reset is in the past or more than two seconds
    ahead.
   */
  lemma AnswerMeans(rates: Rates, s: State, ws: Uuid, user: Uuid, now: int, n: nat, later: int)
    requires Ok(rates, s, now) && now <= later
    ensures var (s', r) := Reserve(rates, s, ws, user, now);
            && (CanTake(rates.user, Seen(s'.users, rates.user, user, now), n, now) <==> n <= r.remaining)
            && (later >= (r.reset + 1) * SECOND ==>
                  Seen(s'.users, rates.user, user, later).tokens == Capacity(rates.user))
            && (later < r.reset * SECOND && Seen(s'.users, rates.user, user, now).tokens < Capacity(rates.user) ==>
                  Seen(s'.users, rates.user, user, later).tokens < Capacity(rates.user))
            && (Seen(s'.users, rates.user, user, now).tokens == Capacity(rates.user) ==>
                  now < r.reset * SECOND <= now + SECOND)
            && now < (r.reset + 1) * SECOND && r.reset * SECOND <= now + 2 * SECOND
  {
    var (s', r) := Reserve(rates, s, ws, user, now);
    ReserveSees(rates, s, ws, user, now);
    ReserveKeeps(rates, s, ws, user, now, now);
    SeenLater(s'.users, rates.user, s'.touched, user, now, later);
    var b := Seen(s'.users, rates.user, user, now);
    CanTakeExactly(rates.user, b, n, now);
    FillsUp(rates.user, b, now, later);
    EarnsExactly(rates.user, Capacity(rates.user) - b.tokens, 0);
    ResetIsNear(rates.user, b, r.wait, now);
    if b.tokens == Capacity(rates.user) { RefillKeeps(rates.user, b, later); }
  }

  // ---------------------------------------------------------------- the limiter object

  class RateLimiter {
    const rates: Rates
    var users: map<Uuid, TokenBucket>
    var work: map<Uuid, TokenBucket>
    var touched: map<Uuid, int>
    ghost var state: State  // the value of the three maps

    // No bucket is shared, each refills at its level's rate, and `state` is what they hold.
    ghost predicate Valid()
      reads this, users.Values, work.Values
    {
      && users.Keys == state.users.Keys && work.Keys == state.work.Keys && touched == state.touched
      && (forall id <- users :: users[id].rate == rates.user && users[id].Value() == state.users[id])
      && (forall id <- work :: work[id].rate == rates.work && work[id].Value() == state.work[id])
      && (forall i <- users, j <- users :: users[i] == users[j] ==> i == j)
      && (forall i <- work, j <- work :: work[i] == work[j] ==> i == j)
      && (forall i <- users, j <- work :: users[i] != work[j])
    }

    // Buckets that were not there before are new objects.
    twostate predicate OnlyNew()
      reads this
    {
      && (forall id <- users :: users[id] in old(users.Values) || fresh(users[id]))
      && (forall id <- work :: work[id] in old(work.Values) || fresh(work[id]))
    }

    constructor (perUser: int, perWorkspace: int)
      ensures Valid() && state == EMPTY
      ensures rates.user == (if perUser > 0 then perUser else 100) as real
      ensures rates.work == (if perWorkspace > 0 then perWorkspace else 1000) as real
    {
      rates := Rates((if perUser > 0 then perUser else DEFAULT_USER_RATE) as real,
                     (if perWorkspace > 0 then perWorkspace else DEFAULT_WORKSPACE_RATE) as real);
      users, work, touched := map[], map[], map[];
      state := EMPTY;
    }

    method Request(ws: Uuid, user: Uuid, now: int) returns (r: Reservation)
      requires Valid()
      modifies this, users.Values, work.Values
      ensures Valid() && OnlyNew()
      ensures (state, r) == Reserve(rates, old(state), ws, user, now)
    {
      Locate(ws, user, now);
      r := Spend(ws, user, now);
    }

    // The part under the limiter's lock: find or create both buckets, and stamp them.
    method Locate(ws: Uuid, user: Uuid, now: int)
      requires Valid()
      modifies this
      ensures Valid() && OnlyNew() && state == Located(rates, old(state), ws, user, now)
    {
      FindUser(user, now);
      if ws != NIL { FindWorkspace(ws, now); }
      Stamp(ws, user, now);
    }

    // Both buckets located, take from them.
    method Spend(ws: Uuid, user: Uuid, now: int) returns (r: Reservation)
      requires Valid() && user in users && (ws != NIL ==> ws in work)
      modifies this`state, users.Values, work.Values
      ensures Valid() && (state, r) == Decided(rates, old(state), ws, user, now)
    {
      var wait := Take(user, now);
      if wait > 0 {
        r := Answer(users[user], wait, now);
        return;
      }
      if ws != NIL {
        wait := TakeWork(ws, now);
        if wait > 0 {
          GiveBack(user);
          r := Answer(users[user], wait, now);
          return;
        }
      }
      r := Answer(users[user], 0, now);
    }

    method FindUser(user: Uuid, now: int)
      requires Valid()
      modifies this`users, this`state
      ensures Valid() && OnlyNew() && user in users
      ensures state == old(state).(users := old(state).users[user := Lookup(old(state).users, rates.user, user, now)])
    {
      if user !in users {
        var b := new TokenBucket(rates.user, now);
        users := users[user := b];
      }
      state := state.(users := state.users[user := Lookup(state.users, rates.user, user, now)]);
    }

    method FindWorkspace(ws: Uuid, now: int)
      requires Valid()
      modifies this`work, this`state
      ensures Valid() && OnlyNew() && ws in work
      ensures state == old(state).(work := old(state).work[ws := Lookup(old(state).work, rates.work, ws, now)])
    {
      if ws !in work {
        var b := new TokenBucket(rates.work, now);
        work := work[ws := b];
      }
      state := state.(work := state.work[ws := Lookup(state.work, rates.work, ws, now)]);
    }

    method Stamp(ws: Uuid, user: Uuid, now: int)
      requires Valid()
      modifies this`touched, this`state
      ensures Valid() && state == old(state).(touched := Touch(old(state).touched, ws, user, now))
    {
      touched := touched[user := now];
      if ws != NIL { touched := touched[ws := now]; }
      state := state.(touched := touched);
    }

    method Take(user: Uuid, now: int) returns (wait: int)
      requires Valid() && user in users
      modifies this`state, users[user]
      ensures Valid() && (state, wait) == TakeUser(rates, old(state), user, now)
    {
      wait := users[user].Take(now);
      state := state.(users := state.users[user := users[user].Value()]);
    }

    method TakeWork(ws: Uuid, now: int) returns (wait: int)
      requires Valid() && ws in work
      modifies this`state, work[ws]
      ensures Valid() && (state, wait) == TakeWorkspace(rates, old(state), ws, now)
    {
      wait := work[ws].Take(now);
      state := state.(work := state.work[ws := work[ws].Value()]);
    }

    method GiveBack(user: Uuid)
      requires Valid() && user in users
      modifies this`state, users[user]
      ensures Valid() && state == ReturnUser(rates, old(state), user)
    {
      users[user].GiveBack();
      state := state.(users := state.users[user := users[user].Value()]);
    }

    method Answer(u: TokenBucket, wait: int, now: int) returns (r: Reservation)
      requires u.rate == rates.user
      ensures r == Reserved(rates.user, u.Value(), wait, now)
    {
      var deficit := u.rate * BURST_MULTIPLIER - u.tokens;
      var remaining := u.tokens.Floor;
      if remaining < 0 { remaining := 0; }
      var resetIn := SECOND;
      if deficit > 0.0 { resetIn := (deficit / u.rate * SECOND as real).Floor; }
      r := Reservation(wait, remaining, (now + resetIn) / SECOND);
    }

    // One tick of the janitor.
    method Sweep(now: int)
      requires Valid()
      modifies this
      ensures Valid() && state == Evict(old(state), now)
    {
      var threshold := now - 2 * JANITOR_WINDOW;
      var todo := touched.Keys;
      ghost var before := state;
      SweepStarts(before, now, todo);
      while todo != {}
        invariant Valid() && todo <= before.touched.Keys && state == Swept(before, now, todo)
        decreases |todo|
      {
        var id :| id in todo;
        SweepGoesOn(before, now, todo, id);
        if touched[id] <= threshold { Drop(id); }
        todo := todo - {id};
      }
      SweepEnds(before, now);
    }

    method Drop(id: Uuid)
      requires Valid()
      modifies this
      ensures Valid() && state == Dropped(old(state), {id})
      ensures users == old(users) - {id} && work == old(work) - {id}
    {
      touched, users, work := touched - {id}, users - {id}, work - {id};
      state := Dropped(state, {id});
    }
  }

  ghost function Dropped(s: State, ids: set<Uuid>): State {
    State(s.users - ids, s.work - ids, s.touched - ids)
  }

  // A sweep that has still to visit `todo`.
  ghost function Swept(s: State, now: int, todo: set<Uuid>): State {
    Dropped(s, Idle(s, now) - todo)
  }

  predicate IdleFor(s: State, id: Uuid, now: int, span: int) {
    id in s.touched && s.touched[id] <= now - span
  }

  /** A tick drops exactly what has been idle for ten minutes, and keeps the rest as it is. */
  lemma EvictMeans(s: State, now: int)
    ensures var s' := Evict(s, now); forall id ::
              && (id in s'.users <==> id in s.users && !IdleFor(s, id, now, 600 * SECOND))
              && (id in s'.work <==> id in s.work && !IdleFor(s, id, now, 600 * SECOND))
              && (id in s'.touched <==> id in s.touched && !IdleFor(s, id, now, 600 * SECOND))
              && (id in s'.users ==> s'.users[id] == s.users[id])
              && (id in s'.work ==> s'.work[id] == s.work[id])
              && (id in s'.touched ==> s'.touched[id] == s.touched[id])
  {
    forall id ensures id in Idle(s, now) <==> IdleFor(s, id, now, 600 * SECOND) {}
  }

  lemma SweepStarts(s: State, now: int, todo: set<Uuid>)
    requires todo == s.touched.Keys
    ensures Swept(s, now, todo) == s
  {
    assert Idle(s, now) - todo == {};
  }

  lemma SweepGoesOn(s: State, now: int, todo: set<Uuid>, id: Uuid)
    requires id in todo && todo <= s.touched.Keys
    ensures id in Swept(s, now, todo).touched && Swept(s, now, todo).touched[id] == s.touched[id]
    ensures Swept(s, now, todo - {id})
         == if id in Idle(s, now) then Dropped(Swept(s, now, todo), {id}) else Swept(s, now, todo)
  {
    if id in Idle(s, now) {
      assert Idle(s, now) - (todo - {id}) == (Idle(s, now) - todo) + {id};
      DropTwice(s, Idle(s, now) - todo, id);
    } else {
      assert Idle(s, now) - (todo - {id}) == Idle(s, now) - todo;
    }
  }

  lemma SweepEnds(s: State, now: int)
    ensures Swept(s, now, {}) == Evict(s, now)
  {
    assert Idle(s, now) - {} == Idle(s, now);
  }

  lemma DropTwice(s: State, ids: set<Uuid>, id: Uuid)
    ensures Dropped(Dropped(s, ids), {id}) == Dropped(s, ids + {id})
  {
  }
}
