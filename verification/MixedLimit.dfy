/**
  The shared limiter over runs in which Redis comes and goes: some requests are decided by the script's reply, others
  by the in-memory limiter of the server, whether or not the script ran for them.
 */
module MixedLimit {
  import opened TokenBuckets
  import Limit = RateLimit
  import Redis = RedisRateLimit

  // One request at `now`, decided locally at `local` if the exchange gives no reply; or a tick of the local janitor.
  datatype Call =
    | Request(ws: Redis.Uuid, user: Redis.Uuid, exchange: Redis.Exchange, now: int, local: int)
    | Tick(now: int)

  datatype State = State(shared: Redis.Run, local: Limit.State)

  const START := State(Redis.START, Limit.EMPTY)

  // How the two limiters name the same ids.
  ghost predicate Naming(id: Redis.Uuid -> Limit.Uuid) {
    forall w: Redis.Uuid :: id(w) == Limit.NIL <==> w == Redis.NIL
  }

  // Both limiters are configured with the same rates.
  predicate Configured(rates: Redis.Rates) {
    rates.user >= 1 && rates.work >= 1
  }

  function LocalRates(rates: Redis.Rates): Limit.Rates
    requires Configured(rates)
  {
    Limit.Rates(rates.user as real, rates.work as real)
  }

  function ToRedis(c: Call): seq<Redis.Request> {
    if c.Request? && !c.exchange.NotRun? then [Redis.Request(c.ws, c.user, c.now)] else []
  }

  function ToLocal(id: Redis.Uuid -> Limit.Uuid, c: Call): seq<Limit.Event> {
    if c.Tick? then [Limit.Event.Tick(c.now)]
    else if c.exchange.Answered? then []
    else [Limit.Event.Request(id(c.ws), id(c.user), c.local)]
  }

  function Step(rates: Redis.Rates, id: Redis.Uuid -> Limit.Uuid, s: State, c: Call): State
    requires Configured(rates)
  {
    State(Redis.Final(rates, s.shared, ToRedis(c)), Limit.Final(LocalRates(rates), s.local, ToLocal(id, c)))
  }

  predicate LetThrough(rates: Redis.Rates, id: Redis.Uuid -> Limit.Uuid, s: State, c: Call)
    requires Configured(rates) && c.Request?
  {
    if c.exchange.Answered? then Redis.RunScript(rates, s.shared.store, c.ws, c.user, c.now).1.status == Redis.Allowed
    else Limit.Reserve(LocalRates(rates), s.local, id(c.ws), id(c.user), c.local).1.wait == 0
  }

  /** One request of a mixed run leaves both limiters as `RedisRateLimit.Reserve` does: a script that ran has counted
      it, whether or not its reply arrived, and without a reply the local limiter has decided. */
  lemma RequestMeans(rates: Redis.Rates, id: Redis.Uuid -> Limit.Uuid, s: State, c: Call)
    requires Configured(rates) && c.Request?
    ensures var s' := Step(rates, id, s, c);
            && s'.shared.store == (if c.exchange.NotRun? then s.shared.store
                                   else Redis.RunScript(rates, s.shared.store, c.ws, c.user, c.now).0)
            && s'.local == (if c.exchange.Answered? then s.local
                            else Limit.Reserve(LocalRates(rates), s.local, id(c.ws), id(c.user), c.local).0)
  {
    var qs, es := ToRedis(c), ToLocal(id, c);
    assert qs != [] ==> qs[1..] == [];
    assert es != [] ==> es[1..] == [];
    if qs != [] {
      assert Redis.Final(rates, s.shared, qs) == Redis.Final(rates, Redis.Step(rates, s.shared, qs[0]), []);
    }
    if es != [] {
      var next := Limit.Step(LocalRates(rates), s.local, es[0]);
      assert Limit.Final(LocalRates(rates), s.local, es) == Limit.Final(LocalRates(rates), next, []);
    }
  }

  predicate InScope(scope: Redis.Scope, c: Call) {
    c.Request? && Redis.InScope(scope, Redis.Request(c.ws, c.user, c.now))
  }

  function Final(rates: Redis.Rates, id: Redis.Uuid -> Limit.Uuid, s: State, cs: seq<Call>): State
    requires Configured(rates)
    decreases |cs|
  {
    if cs == [] then s else Final(rates, id, Step(rates, id, s, cs[0]), cs[1..])
  }

  // The requests of one user of a workspace, or of a workspace, that are let through.
  function Admitted(rates: Redis.Rates, id: Redis.Uuid -> Limit.Uuid, s: State, cs: seq<Call>, scope: Redis.Scope): nat
    requires Configured(rates)
    decreases |cs|
  {
    if cs == [] then 0
    else
      (if InScope(scope, cs[0]) && LetThrough(rates, id, s, cs[0]) then 1 else 0)
      + Admitted(rates, id, Step(rates, id, s, cs[0]), cs[1..], scope)
  }

  function End(c: Call): int {
    if c.Tick? then c.now else c.local
  }

  // On one clock: the local decision comes after the exchange.
  ghost predicate Ordered(cs: seq<Call>, from: int) {
    cs == [] || (from <= cs[0].now <= End(cs[0]) && Ordered(cs[1..], End(cs[0])))
  }

  function Last(cs: seq<Call>, from: int): int {
    if cs == [] then from else Last(cs[1..], End(cs[0]))
  }

  // ---------------------------------------------------------------- the two limiters' shares

  function RedisShare(cs: seq<Call>): seq<Redis.Request> {
    if cs == [] then [] else ToRedis(cs[0]) + RedisShare(cs[1..])
  }

  function LocalShare(id: Redis.Uuid -> Limit.Uuid, cs: seq<Call>): seq<Limit.Event> {
    if cs == [] then [] else ToLocal(id, cs[0]) + LocalShare(id, cs[1..])
  }

  lemma {:induction false} RedisShareOrdered(cs: seq<Call>, from: int, lower: int)
    requires Ordered(cs, from) && lower <= from
    ensures Redis.Ordered(RedisShare(cs), lower) && Redis.Last(RedisShare(cs), lower) <= Last(cs, from)
    decreases |cs|
  {
    if cs == [] {
    } else if ToRedis(cs[0]) == [] {
      assert RedisShare(cs) == RedisShare(cs[1..]);
      RedisShareOrdered(cs[1..], End(cs[0]), lower);
    } else {
      RedisShareOrdered(cs[1..], End(cs[0]), cs[0].now);
      assert RedisShare(cs)[1..] == RedisShare(cs[1..]);
    }
  }

  lemma {:induction false} LocalShareOrdered(id: Redis.Uuid -> Limit.Uuid, cs: seq<Call>, from: int, lower: int)
    requires Ordered(cs, from) && lower <= from
    ensures Limit.Ordered(LocalShare(id, cs), lower) && Limit.Last(LocalShare(id, cs), lower) <= Last(cs, from)
    decreases |cs|
  {
    if cs == [] {
    } else if ToLocal(id, cs[0]) == [] {
      assert LocalShare(id, cs) == LocalShare(id, cs[1..]);
      LocalShareOrdered(id, cs[1..], End(cs[0]), lower);
    } else {
      LocalShareOrdered(id, cs[1..], End(cs[0]), End(cs[0]));
      assert LocalShare(id, cs)[1..] == LocalShare(id, cs[1..]);
    }
  }

  // Each limiter sees its own share of a run and nothing else.
  lemma {:induction false} SharesRun(rates: Redis.Rates, id: Redis.Uuid -> Limit.Uuid, s: State, cs: seq<Call>)
    requires Configured(rates)
    ensures Final(rates, id, s, cs).shared == Redis.Final(rates, s.shared, RedisShare(cs))
    ensures Final(rates, id, s, cs).local == Limit.Final(LocalRates(rates), s.local, LocalShare(id, cs))
    decreases |cs|
  {
    if cs != [] {
      SharesRun(rates, id, Step(rates, id, s, cs[0]), cs[1..]);
      RedisFinalOn(rates, s.shared, ToRedis(cs[0]), RedisShare(cs[1..]));
      LocalFinalOn(LocalRates(rates), s.local, ToLocal(id, cs[0]), LocalShare(id, cs[1..]));
    }
  }

  lemma RedisFinalOn(rates: Redis.Rates, r: Redis.Run, a: seq<Redis.Request>, b: seq<Redis.Request>)
    requires |a| <= 1
    ensures Redis.Final(rates, r, a + b) == Redis.Final(rates, Redis.Final(rates, r, a), b)
  {
    if a == [] { assert a + b == b; } else { assert (a + b)[1..] == b && a[1..] == []; }
  }

  lemma LocalFinalOn(rates: Limit.Rates, s: Limit.State, a: seq<Limit.Event>, b: seq<Limit.Event>)
    requires |a| <= 1
    ensures Limit.Final(rates, s, a + b) == Limit.Final(rates, Limit.Final(rates, s, a), b)
  {
    if a == [] { assert a + b == b; } else { assert (a + b)[1..] == b && a[1..] == []; }
  }

  function LocalAdmitted(rates: Redis.Rates, id: Redis.Uuid -> Limit.Uuid, s: Limit.State, es: seq<Limit.Event>,
                         scope: Redis.Scope): nat
    requires Configured(rates)
  {
    match scope
    case OfUser(_, user) => Limit.AdmittedUser(LocalRates(rates), s, es, id(user))
    case OfWorkspace(ws) => Limit.AdmittedWorkspace(LocalRates(rates), s, es, id(ws))
  }

  // What is let through was let through by the script or by the local limiter.
  lemma {:induction false} SharesAdmit(rates: Redis.Rates, id: Redis.Uuid -> Limit.Uuid, s: State, cs: seq<Call>,
                                       scope: Redis.Scope)
    requires Configured(rates)
    ensures Admitted(rates, id, s, cs, scope)
         <= Redis.AllowedCount(rates, s.shared, RedisShare(cs), scope)
            + LocalAdmitted(rates, id, s.local, LocalShare(id, cs), scope)
    decreases |cs|
  {
    if cs != [] {
      SharesAdmit(rates, id, Step(rates, id, s, cs[0]), cs[1..], scope);
      RedisCounts(rates, s, cs, scope);
      LocalCounts(rates, id, s, cs, scope);
    }
  }

  lemma RedisCounts(rates: Redis.Rates, s: State, cs: seq<Call>, scope: Redis.Scope)
    requires cs != []
    ensures var c, rest := cs[0], Redis.Final(rates, s.shared, ToRedis(cs[0]));
            Redis.AllowedCount(rates, s.shared, RedisShare(cs), scope)
            == Redis.AllowedCount(rates, rest, RedisShare(cs[1..]), scope)
               + if ToRedis(c) != [] && Redis.LetThrough(rates, s.shared, ToRedis(c)[0], scope) then 1 else 0
  {
    if ToRedis(cs[0]) != [] {
      assert RedisShare(cs)[1..] == RedisShare(cs[1..]) && ToRedis(cs[0])[1..] == [];
    } else {
      assert RedisShare(cs) == RedisShare(cs[1..]);
    }
  }

  lemma LocalCounts(rates: Redis.Rates, id: Redis.Uuid -> Limit.Uuid, s: State, cs: seq<Call>, scope: Redis.Scope)
    requires Configured(rates) && cs != []
    ensures var c, rest := cs[0], Limit.Final(LocalRates(rates), s.local, ToLocal(id, cs[0]));
            LocalAdmitted(rates, id, s.local, LocalShare(id, cs), scope)
            >= LocalAdmitted(rates, id, rest, LocalShare(id, cs[1..]), scope)
               + if InScope(scope, c) && !c.exchange.Answered? && LetThrough(rates, id, s, c) then 1 else 0
  {
    if ToLocal(id, cs[0]) != [] {
      assert LocalShare(id, cs)[1..] == LocalShare(id, cs[1..]) && ToLocal(id, cs[0])[1..] == [];
    } else {
      assert LocalShare(id, cs) == LocalShare(id, cs[1..]);
    }
  }

  // ---------------------------------------------------------------- the bound over any run

  /**
    However Redis fails and recovers: after any history, one user of a workspace, and the workspace as a whole, is let
    through in a half-open interval at most the two limiters' bounds together.
   */
  lemma MixedIntervalBound(rates: Redis.Rates, id: Redis.Uuid -> Limit.Uuid, history: seq<Call>, inside: seq<Call>,
                           scope: Redis.Scope, start: int, from: int, length: int)
    requires Configured(rates) && Naming(id) && scope != Redis.OfWorkspace(Redis.NIL)
    requires Ordered(history, start) && Last(history, start) <= from
    requires Ordered(inside, from) && Last(inside, from) < from + length
    ensures var rate := Redis.RateOf(rates, scope);
            Admitted(rates, id, Final(rates, id, START, history), inside, scope) as real
            <= ((Redis.Ceiling(length) + 1) * rate) as real + Capacity(rate as real) + Earned(rate as real, length)
  {
    var s := Final(rates, id, START, history);
    SharesRun(rates, id, START, history);
    SharesAdmit(rates, id, s, inside, scope);
    RedisShareOrdered(history, start, start);
    RedisShareOrdered(inside, from, from);
    LocalShareOrdered(id, history, start, start);
    LocalShareOrdered(id, inside, from, from);
    Redis.IntervalBound(rates, RedisShare(history), RedisShare(inside), scope, start, from, length);
    var h, w, to := LocalShare(id, history), LocalShare(id, inside), from + length;
    LastIsLatest(inside, from);
    match scope {
      case OfUser(_, user) => Limit.UserBurstBound(LocalRates(rates), h, w, id(user), start, from, to);
      case OfWorkspace(ws) => Limit.WorkspaceBurstBound(LocalRates(rates), h, w, id(ws), start, from, to);
    }
  }

  lemma {:induction false} LastIsLatest(cs: seq<Call>, from: int)
    requires Ordered(cs, from)
    ensures from <= Last(cs, from)
  {
    if cs != [] { LastIsLatest(cs[1..], End(cs[0])); }
  }
}
