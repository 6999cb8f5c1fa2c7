/**
  The brute-force guard: failed sign-ins per client address and an escalating cooldown, kept either in a Redis
  hash advanced by one atomic script or in an in-memory map swept by a janitor. Times are whole milliseconds.

  `MemFailure` and `RedisFailure` are one failure on the value of one address's record. The module proves that
  the two keep the same cooldowns, for which histories, and how many failures the guard lets through.
 */
module Reputation {

  import opened Numbers
  import opened Wrappers

  const DEFAULT_THRESHOLD: nat := 5
  const DEFAULT_BLOCK: nat := 900_000
  const DEFAULT_RETENTION: nat := 86_400_000
  const DEFAULT_DELAYS: seq<nat> := [1_000, 5_000, 30_000]

  // All durations in milliseconds.
  datatype Config = Config(threshold: int, block: int, retention: int, delays: seq<int>)

  // The effective settings: unset values replaced by the defaults.
  function WithDefaults(c: Config): (r: Config)
    ensures Positive(r)
    ensures r.threshold == (if c.threshold > 0 then c.threshold else 5)
    ensures r.block == (if c.block > 0 then c.block else 15 * 60 * 1000)
    ensures r.retention == (if c.retention > 0 then c.retention else 24 * 60 * 60 * 1000)
    ensures r.delays == (if c.delays != [] then c.delays else [1000, 5000, 30_000])
  {
    Config(if c.threshold <= 0 then DEFAULT_THRESHOLD else c.threshold,
           if c.block <= 0 then DEFAULT_BLOCK else c.block,
           if c.retention <= 0 then DEFAULT_RETENTION else c.retention,
           if c.delays == [] then DEFAULT_DELAYS else c.delays)
  }

  // Settings as the guard holds them.
  ghost predicate Positive(c: Config) {
    c.threshold > 0 && c.block > 0 && c.retention > 0 && c.delays != []
  }

  // Settings in milliseconds, with delays that delay.
  ghost predicate Usable(c: Config) {
    Positive(c) && forall d <- c.delays :: d > 0
  }

  // Settings in whole seconds, the unit of times to live in Redis.
  ghost predicate Sound(c: Config) {
    && Usable(c)
    && c.block % 1000 == 0 && c.retention % 1000 == 0
    && forall d <- c.delays :: d % 1000 == 0
  }

  // The cooldown that the count-th failure brings.
  function Cooldown(c: Config, count: int): int {
    if count < c.threshold then 0
    else if count - c.threshold < |c.delays| then c.delays[count - c.threshold]
    else c.block
  }

  // ---------------------------------------------------------------- in memory

  datatype Entry = Entry(count: int, until: Option<int>, seen: int)

  function MemPenalty(e: Option<Entry>, now: int): int {
    match e
    case Some(Entry(_, Some(until), _)) => if until > now then until - now else 0
    case _ => 0
  }

  function MemFailure(c: Config, e: Option<Entry>, now: int): (Entry, int) {
    var e := match e
             case Some(x) => (if now - x.seen > c.retention then Entry(0, None, now) else x)
             case None => Entry(0, None, now);
    var p := Cooldown(c, e.count + 1);
    (Entry(e.count + 1, if p > 0 then Some(now + p) else e.until, now), if p > 0 then p else 0)
  }

  // The janitor drops an entry that is past its cooldown and idle beyond the retention.
  predicate Droppable(c: Config, e: Entry, now: int) {
    (match e.until case Some(until) => now > until case None => true) && now - e.seen > c.retention
  }

  // ---------------------------------------------------------------- in Redis

  // The hash of one address; a missing count counts from zero, and no expiry means it stays.
  datatype Hash = Hash(count: int, until: Option<int>, expires: Option<int>)

  // Whether a key is already gone at the very millisecond its time to live ends is up to Redis: `eager`.
  function Alive(eager: bool, h: Option<Hash>, now: int): Option<Hash> {
    match h
    case Some(Hash(_, _, Some(expires))) => if now > expires || (eager && now == expires) then None else h
    case _ => h
  }

  function RedisPenalty(eager: bool, h: Option<Hash>, now: int): int {
    match Alive(eager, h, now)
    case Some(Hash(_, Some(until), _)) => if until > now then until - now else 0
    case _ => 0
  }

  // EXPIRE with a whole number of seconds; zero or less deletes the key.
  function Expire(h: Option<Hash>, now: int, seconds: int): Option<Hash> {
    match h
    case Some(x) => if seconds <= 0 then None else Some(x.(expires := Some(now + seconds * 1000)))
    case None => None
  }

  // The script: HINCRBY, EXPIRE, and for a cooldown HSET and, if it outlasts the retention, EXPIRE again.
  function RedisFailure(c: Config, eager: bool, h: Option<Hash>, now: int): (Option<Hash>, int) {
    var seconds := c.retention / 1000;
    var counted := match Alive(eager, h, now) case Some(x) => x.(count := x.count + 1) case None => Hash(1, None, None);
    var kept := Expire(Some(counted), now, seconds);
    var p := Cooldown(c, counted.count);
    if p > 0 then
      var stamped := match kept case Some(x) => x.(until := Some(now + p)) case None => Hash(0, Some(now + p), None);
      var cooldown := (p + 999) / 1000;
      (if cooldown > seconds then Expire(Some(stamped), now, cooldown) else Some(stamped), p)
    else (kept, 0)
  }

  // ---------------------------------------------------------------- histories of one address

  // What happens to one address: a failure recorded, a check, a success, or a sweep of the janitor.
  datatype Event = Failure(now: int) | Check(now: int) | Success(now: int) | Sweep(now: int)

  function MemStep(c: Config, e: Option<Entry>, ev: Event): (Option<Entry>, int) {
    match ev
    case Failure(now) => var (x, p) := MemFailure(c, e, now); (Some(x), p)
    case Check(now) => (e, MemPenalty(e, now))
    case Success(_) => (None, 0)
    case Sweep(now) => (if e.Some? && Droppable(c, e.value, now) then None else e, 0)
  }

  function RedisStep(c: Config, eager: bool, h: Option<Hash>, ev: Event): (Option<Hash>, int) {
    match ev
    case Failure(now) => RedisFailure(c, eager, h, now)
    case Check(now) => (h, RedisPenalty(eager, h, now))
    case Success(_) => (None, 0)
    case Sweep(_) => (h, 0)
  }

  // The cooldowns a history reports, event by event.
  function MemReplies(c: Config, e: Option<Entry>, evs: seq<Event>): seq<int>
    decreases |evs|
  {
    if evs == [] then [] else [MemStep(c, e, evs[0]).1] + MemReplies(c, MemStep(c, e, evs[0]).0, evs[1..])
  }

  function RedisReplies(c: Config, eager: bool, h: Option<Hash>, evs: seq<Event>): seq<int>
    decreases |evs|
  {
    if evs == [] then []
    else [RedisStep(c, eager, h, evs[0]).1] + RedisReplies(c, eager, RedisStep(c, eager, h, evs[0]).0, evs[1..])
  }

  ghost predicate Ordered(evs: seq<Event>, from: int) {
    evs == [] || (from <= evs[0].now && Ordered(evs[1..], evs[0].now))
  }

  // No event falls on the very millisecond at which the hash expires.
  ghost predicate NoTies(c: Config, eager: bool, h: Option<Hash>, evs: seq<Event>)
    decreases |evs|
  {
    evs == [] || (!Tied(h, evs[0].now) && NoTies(c, eager, RedisStep(c, eager, h, evs[0]).0, evs[1..]))
  }

  ghost predicate Tied(h: Option<Hash>, now: int) {
    h.Some? && h.value.expires == Some(now)
  }

  // ---------------------------------------------------------------- how the two records correspond

  // How long the hash lives that the count-th failure has written: the retention in whole seconds, or the cooldown
  // rounded up to whole seconds if that is longer.
  function Lifetime(c: Config, count: int): int {
    var seconds, p := c.retention / 1000, Cooldown(c, count);
    var cooldown := (p + 999) / 1000;
    1000 * if p > 0 && cooldown > seconds then cooldown else seconds
  }

  // Every failure brings the same cooldown.
  ghost predicate Constant(c: Config) {
    forall n :: n >= 1 ==> Cooldown(c, n) == c.block
  }

  // Every hash lives as long as the map remembers, to the millisecond.
  ghost predicate LifetimesFit(c: Config) {
    c.retention >= 1000 && forall n :: n >= 1 ==> LifetimeFits(c, n)
  }

  predicate LifetimeFits(c: Config, n: int) {
    Lifetime(c, n) == c.retention || Lifetime(c, n) == c.retention + 1
  }

  // No cooldown outlasts the retention.
  ghost predicate CooldownsFit(c: Config) {
    forall n :: Cooldown(c, n) <= c.retention
  }

  lemma CooldownUsable(c: Config, count: int)
    requires Usable(c)
    ensures Cooldown(c, count) >= 0 && (count < c.threshold <==> Cooldown(c, count) == 0)
    ensures Cooldown(c, count) <= Lifetime(c, count) && Lifetime(c, count) >= 0
    ensures c.retention >= 1000 || Cooldown(c, count) > 0 ==> Lifetime(c, count) > 0
  {
    if count >= c.threshold && count - c.threshold < |c.delays| {
      assert c.delays[count - c.threshold] in c.delays;
    }
  }

  // Whole seconds are not rounded, down or up.
  lemma WholeSeconds(ms: int)
    requires ms % 1000 == 0
    ensures ms / 1000 * 1000 == ms && (ms + 999) / 1000 * 1000 == ms
  {
  }

  // In whole seconds, a hash lives through the retention and through its cooldown, and no longer.
  lemma LifetimeSound(c: Config, count: int)
    requires Sound(c)
    ensures Lifetime(c, count) == Max(c.retention, Cooldown(c, count))
    ensures Cooldown(c, count) % 1000 == 0
  {
    CooldownUsable(c, count);
    WholeSeconds(c.retention);
    if count >= c.threshold && count - c.threshold < |c.delays| {
      assert c.delays[count - c.threshold] in c.delays;
    }
    WholeSeconds(Cooldown(c, count));
  }

  // The cooldown that a failure counted `count` at `seen` has started.
  function UntilOf(c: Config, count: int, seen: int): Option<int> {
    if Cooldown(c, count) > 0 then Some(seen + Cooldown(c, count)) else None
  }

  // The two were written by the same last failure; while the hash lives, they bring the same next cooldown. When all
  // cooldowns are alike the counts do not matter, and the map may have forgotten first.
  ghost predicate Match(c: Config, eager: bool, e: Option<Entry>, h: Option<Hash>, now: int) {
    && (e.Some? ==>
          && e.value.seen <= now && e.value.count >= 1 && e.value.until == UntilOf(c, e.value.count, e.value.seen)
          && h.Some? && h.value.expires == Some(e.value.seen + Lifetime(c, e.value.count)))
    && match Alive(eager, h, now)
       case Some(x) =>
         && x.count >= 0 && (if e.Some? then x.until == e.value.until else x.until.Some? && x.until.value <= now)
         && (Constant(c) || (e.Some? && x.count == e.value.count))
       case None => true
  }

  // Both remember the last failure or both have forgotten it; and the map is not swept before the hash expires.
  ghost predicate Fair(c: Config, e: Option<Entry>, ev: Event) {
    e.Some? && !Constant(c) ==>
      var idle, lifetime := ev.now - e.value.seen, Lifetime(c, e.value.count);
      && (ev.Failure? ==> idle == lifetime || (idle > c.retention <==> idle > lifetime))
      && (ev.Sweep? && Droppable(c, e.value, ev.now) ==> idle >= lifetime)
  }

  ghost predicate AllFair(c: Config, e: Option<Entry>, evs: seq<Event>)
    decreases |evs|
  {
    evs == [] || (Fair(c, e, evs[0]) && AllFair(c, MemStep(c, e, evs[0]).0, evs[1..]))
  }

  // Where times to live can be kept at all, or counts do not matter.
  ghost predicate Countable(c: Config) {
    Usable(c) && (c.retention >= 1000 || Constant(c))
  }

  lemma MatchLater(c: Config, eager: bool, e: Option<Entry>, h: Option<Hash>, now: int, later: int)
    requires Match(c, eager, e, h, now) && now <= later
    ensures Match(c, eager, e, h, later)
  {
  }

  // One failure on a hash: what it counts, answers and keeps.
  lemma RedisFailureIs(c: Config, eager: bool, h: Option<Hash>, now: int)
    requires Usable(c) && (Alive(eager, h, now).Some? ==> Alive(eager, h, now).value.count >= 0)
    ensures var x := Alive(eager, h, now);
            var n := 1 + if x.Some? then x.value.count else 0;
            var (next, reply) := RedisFailure(c, eager, h, now);
            && reply == Cooldown(c, n)
            && (c.retention >= 1000 || Cooldown(c, n) > 0 ==>
                  && next.Some? && next.value.expires == Some(now + Lifetime(c, n))
                  && next.value.count == (if c.retention >= 1000 then n else 0)
                  && next.value.until == (if Cooldown(c, n) > 0 then UntilOf(c, n, now)
                                          else if x.Some? then x.value.until else None))
            && (c.retention < 1000 && Cooldown(c, n) <= 0 ==> next == None)
  {
    var x := Alive(eager, h, now);
    CooldownUsable(c, 1 + if x.Some? then x.value.count else 0);
  }

  // A fair failure is the same failure to both, or its count does not matter.
  lemma SameCount(c: Config, eager: bool, e: Option<Entry>, h: Option<Hash>, now: int)
    requires Countable(c) && Match(c, eager, e, h, now) && Fair(c, e, Failure(now)) && !Tied(h, now)
    ensures Remembered(c, e, now) >= 0 && Counted(eager, h, now) >= 0
    ensures Constant(c) || Remembered(c, e, now) == Counted(eager, h, now)
    ensures Remembered(c, e, now) > 0 ==> e.Some? && Remembered(c, e, now) == e.value.count
    ensures Cooldown(c, Remembered(c, e, now) + 1) == Cooldown(c, Counted(eager, h, now) + 1) >= 0
    ensures Lifetime(c, Remembered(c, e, now) + 1) == Lifetime(c, Counted(eager, h, now) + 1)
  {
    var n, m := Remembered(c, e, now) + 1, Counted(eager, h, now) + 1;
    if e.Some? { CooldownUsable(c, e.value.count); }
    CooldownUsable(c, n);
    if Constant(c) { assert Cooldown(c, m) == c.block && Cooldown(c, n) == c.block; }
  }

  // How many failures the map remembers at `now`.
  function Remembered(c: Config, e: Option<Entry>, now: int): int {
    if e.Some? && now - e.value.seen <= c.retention then e.value.count else 0
  }

  // How many failures the hash counts at `now`.
  function Counted(eager: bool, h: Option<Hash>, now: int): int {
    var x := Alive(eager, h, now); if x.Some? then x.value.count else 0
  }

  lemma MemFailureIs(c: Config, e: Option<Entry>, now: int)
    requires Usable(c)
    requires e.Some? ==> e.value.count >= 1 && e.value.until == UntilOf(c, e.value.count, e.value.seen)
    ensures var n := Remembered(c, e, now) + 1;
            MemFailure(c, e, now) == (Entry(n, UntilOf(c, n, now), now), Cooldown(c, n))
  {
    CooldownUsable(c, Remembered(c, e, now) + 1);
    if e.Some? { CooldownUsable(c, e.value.count); }
  }

  lemma FailureMatches(c: Config, eager: bool, e: Option<Entry>, h: Option<Hash>, now: int)
    requires Countable(c) && Match(c, eager, e, h, now) && Fair(c, e, Failure(now)) && !Tied(h, now)
    ensures MemFailure(c, e, now).1 == RedisFailure(c, eager, h, now).1
    ensures Match(c, eager, Some(MemFailure(c, e, now).0), RedisFailure(c, eager, h, now).0, now)
  {
    var n := Remembered(c, e, now) + 1;
    SameCount(c, eager, e, h, now);
    MemFailureIs(c, e, now);
    RedisFailureIs(c, eager, h, now);
    CooldownUsable(c, n);
    if Constant(c) {
      assert Cooldown(c, n) == c.block;
    } else if Cooldown(c, n) == 0 && Alive(eager, h, now).Some? {
      CooldownUsable(c, e.value.count);
    }
  }

  lemma SweepMatches(c: Config, eager: bool, e: Option<Entry>, h: Option<Hash>, now: int)
    requires Countable(c) && Match(c, eager, e, h, now) && Fair(c, e, Sweep(now)) && !Tied(h, now)
    ensures Match(c, eager, MemStep(c, e, Sweep(now)).0, h, now)
  {
    if e.Some? && Droppable(c, e.value, now) {
      if Constant(c) { assert Cooldown(c, e.value.count) == c.block; }
    }
  }

  lemma {:induction false} FairHistoriesAgree(c: Config, eager: bool, e: Option<Entry>,
                                              h: Option<Hash>, evs: seq<Event>, from: int)
    requires Countable(c) && Match(c, eager, e, h, from) && Ordered(evs, from)
    requires AllFair(c, e, evs) && NoTies(c, eager, h, evs)
    ensures MemReplies(c, e, evs) == RedisReplies(c, eager, h, evs)
    decreases |evs|
  {
    if evs != [] {
      var ev := evs[0];
      MatchLater(c, eager, e, h, from, ev.now);
      match ev {
        case Failure(now) => FailureMatches(c, eager, e, h, now);
        case Sweep(now) => SweepMatches(c, eager, e, h, now);
        case Check(now) => SamePenalty(c, eager, e, h, now);
        case Success(_) =>
      }
      FairHistoriesAgree(c, eager, MemStep(c, e, ev).0, RedisStep(c, eager, h, ev).0, evs[1..], ev.now);
    }
  }

  lemma SamePenalty(c: Config, eager: bool, e: Option<Entry>, h: Option<Hash>, now: int)
    requires Usable(c) && Match(c, eager, e, h, now)
    ensures MemPenalty(e, now) == RedisPenalty(eager, h, now) >= 0
  {
    if e.Some? { CooldownUsable(c, e.value.count); }
  }

  // If every hash lives as long as the map remembers, or all cooldowns are alike, every history is fair.
  lemma {:induction false} AlwaysFair(c: Config, e: Option<Entry>, evs: seq<Event>)
    requires LifetimesFit(c) || Constant(c)
    requires e.Some? ==> e.value.count >= 1
    ensures AllFair(c, e, evs)
    decreases |evs|
  {
    if evs != [] {
      if e.Some? && !Constant(c) { assert LifetimeFits(c, e.value.count); }
      AlwaysFair(c, MemStep(c, e, evs[0]).0, evs[1..]);
    }
  }

  // ---------------------------------------------------------------- exactly when the two agree

  // The two report the same cooldowns on every history whatever.
  ghost predicate AgreeAlways(c: Config, eager: bool) {
    forall evs: seq<Event>, from: int ::
      Ordered(evs, from) && NoTies(c, eager, None, evs) ==>
        MemReplies(c, None, evs) == RedisReplies(c, eager, None, evs)
  }

  function Failures(n: nat, now: int): seq<Event> {
    if n == 0 then [] else [Failure(now)] + Failures(n - 1, now)
  }

  function MemAfter(c: Config, e: Option<Entry>, evs: seq<Event>): Option<Entry>
    decreases |evs|
  {
    if evs == [] then e else MemAfter(c, MemStep(c, e, evs[0]).0, evs[1..])
  }

  function RedisAfter(c: Config, eager: bool, h: Option<Hash>, evs: seq<Event>): Option<Hash>
    decreases |evs|
  {
    if evs == [] then h else RedisAfter(c, eager, RedisStep(c, eager, h, evs[0]).0, evs[1..])
  }

  lemma {:induction false} MemAppend(c: Config, e: Option<Entry>, a: seq<Event>, b: seq<Event>)
    ensures MemReplies(c, e, a + b) == MemReplies(c, e, a) + MemReplies(c, MemAfter(c, e, a), b)
    ensures |MemReplies(c, e, a)| == |a|
    decreases |a|
  {
    if a == [] {
      assert a + b == b;
    } else {
      assert (a + b)[1..] == a[1..] + b;
      MemAppend(c, MemStep(c, e, a[0]).0, a[1..], b);
    }
  }

  lemma {:induction false} RedisAppend(c: Config, eager: bool, h: Option<Hash>, a: seq<Event>, b: seq<Event>)
    ensures RedisReplies(c, eager, h, a + b)
         == RedisReplies(c, eager, h, a) + RedisReplies(c, eager, RedisAfter(c, eager, h, a), b)
    ensures |RedisReplies(c, eager, h, a)| == |a|
    decreases |a|
  {
    if a == [] {
      assert a + b == b;
    } else {
      assert (a + b)[1..] == a[1..] + b;
      RedisAppend(c, eager, RedisStep(c, eager, h, a[0]).0, a[1..], b);
    }
  }

  lemma {:induction false} NoTiesAppend(c: Config, eager: bool, h: Option<Hash>, a: seq<Event>, b: seq<Event>)
    requires NoTies(c, eager, h, a) && NoTies(c, eager, RedisAfter(c, eager, h, a), b)
    ensures NoTies(c, eager, h, a + b)
    decreases |a|
  {
    if a == [] {
      assert a + b == b;
    } else {
      assert (a + b)[1..] == a[1..] + b;
      NoTiesAppend(c, eager, RedisStep(c, eager, h, a[0]).0, a[1..], b);
    }
  }

  // `n` failures at one instant: the count goes up by `n`, and the last reply is the cooldown for that count.
  lemma {:induction false} MemBurst(c: Config, e: Option<Entry>, n: nat, now: int)
    requires Usable(c) && n >= 1
    ensures var total := n + Remembered(c, e, now);
            && |MemReplies(c, e, Failures(n, now))| == n
            && MemReplies(c, e, Failures(n, now))[n - 1] == Cooldown(c, total)
            && var x := MemAfter(c, e, Failures(n, now)); x.Some? && x.value.seen == now && x.value.count == total
    decreases n
  {
    var next := MemFailure(c, e, now).0;
    CooldownUsable(c, next.count);
    var evs := Failures(n, now);
    assert evs[1..] == Failures(n - 1, now);
    if n > 1 { MemBurst(c, Some(next), n - 1, now); }
  }

  lemma RedisOnce(c: Config, eager: bool, h: Option<Hash>, now: int)
    requires Usable(c) && c.retention >= 1000 && Counted(eager, h, now) >= 0
    ensures var n := 1 + Counted(eager, h, now);
            var (next, reply) := RedisFailure(c, eager, h, now);
            && reply == Cooldown(c, n) && next.Some? && next.value.count == n
            && next.value.expires == Some(now + Lifetime(c, n))
            && !Tied(next, now) && Counted(eager, next, now) == n
  {
    RedisFailureIs(c, eager, h, now);
    CooldownUsable(c, 1 + Counted(eager, h, now));
  }

  lemma {:induction false} RedisBurst(c: Config, eager: bool, h: Option<Hash>, n: nat, now: int)
    requires Usable(c) && c.retention >= 1000 && n >= 1
    requires !Tied(h, now) && Counted(eager, h, now) >= 0
    ensures var total := n + Counted(eager, h, now);
            && |RedisReplies(c, eager, h, Failures(n, now))| == n
            && RedisReplies(c, eager, h, Failures(n, now))[n - 1] == Cooldown(c, total)
            && NoTies(c, eager, h, Failures(n, now))
            && var x := RedisAfter(c, eager, h, Failures(n, now));
               x.Some? && x.value.count == total && x.value.expires == Some(now + Lifetime(c, total))
    decreases n
  {
    RedisOnce(c, eager, h, now);
    var evs := Failures(n, now);
    assert evs[1..] == Failures(n - 1, now);
    if n > 1 { RedisBurst(c, eager, RedisFailure(c, eager, h, now).0, n - 1, now); }
  }

  // Two bursts, the second off the instant at which the hash of the first expires, are answered alike.
  lemma BurstsAgree(c: Config, eager: bool, k: nat, n: nat, later: int)
    requires Usable(c) && c.retention >= 1000 && AgreeAlways(c, eager) && k >= 1 && n >= 1
    requires 0 <= later && later != Lifetime(c, k)
    ensures var a, b := Failures(k, 0), Failures(n, later);
            MemReplies(c, None, a + b) == RedisReplies(c, eager, None, a + b)
  {
    var a, b := Failures(k, 0), Failures(n, later);
    RedisBurst(c, eager, None, k, 0);
    RedisBurst(c, eager, RedisAfter(c, eager, None, a), n, later);
    NoTiesAppend(c, eager, None, a, b);
    BurstOrdered(k, 0, 0, b, n, later);
  }

  // What each answers last: the map forgets after the retention, the hash when it expires.
  lemma MemTwoBursts(c: Config, k: nat, n: nat, later: int)
    requires Usable(c) && k >= 1 && n >= 1
    ensures var replies := MemReplies(c, None, Failures(k, 0) + Failures(n, later));
            |replies| == k + n && replies[k + n - 1] == Cooldown(c, if later > c.retention then n else k + n)
  {
    var a := Failures(k, 0);
    MemBurst(c, None, k, 0);
    MemBurst(c, MemAfter(c, None, a), n, later);
    MemAppend(c, None, a, Failures(n, later));
  }

  lemma RedisTwoBursts(c: Config, eager: bool, k: nat, n: nat, later: int)
    requires Usable(c) && c.retention >= 1000 && k >= 1 && n >= 1 && later != Lifetime(c, k)
    ensures var replies := RedisReplies(c, eager, None, Failures(k, 0) + Failures(n, later));
            |replies| == k + n && replies[k + n - 1] == Cooldown(c, if later > Lifetime(c, k) then n else k + n)
  {
    var a := Failures(k, 0);
    RedisBurst(c, eager, None, k, 0);
    RedisBurst(c, eager, RedisAfter(c, eager, None, a), n, later);
    RedisAppend(c, eager, None, a, Failures(n, later));
  }

  // `k` failures at time 0 and `n` more at a time when one of the two has forgotten them and the other has not.
  lemma TwoBursts(c: Config, eager: bool, k: nat, n: nat)
    requires Usable(c) && c.retention >= 1000 && AgreeAlways(c, eager) && k >= 1 && n >= 1 && !LifetimeFits(c, k)
    ensures Cooldown(c, n) == Cooldown(c, k + n)
  {
    var later := if Lifetime(c, k) > c.retention + 1 then c.retention + 1 else c.retention;
    MemTwoBursts(c, k, n, later);
    RedisTwoBursts(c, eager, k, n, later);
    BurstsAgree(c, eager, k, n, later);
  }

  lemma {:induction false} BurstOrdered(k: nat, now: int, from: int, b: seq<Event>, n: nat, later: int)
    requires from <= now <= later && b == Failures(n, later)
    ensures Ordered(Failures(k, now) + b, from)
    ensures |Failures(k, now)| == k
    decreases k + n
  {
    if k > 0 {
      BurstOrdered(k - 1, now, now, b, n, later);
      assert (Failures(k, now) + b)[1..] == Failures(k - 1, now) + b;
    } else if n > 0 {
      assert Failures(0, now) + b == b && b[1..] == Failures(n - 1, later);
      BurstOrdered(0, later, later, b[1..], n - 1, later);
      assert Failures(0, later) + b[1..] == b[1..];
    }
  }

  lemma {:induction false} Repeats(c: Config, eager: bool, k: nat, n: nat, j: nat)
    requires Usable(c) && c.retention >= 1000 && AgreeAlways(c, eager) && k >= 1 && n >= 1 && !LifetimeFits(c, k)
    ensures Cooldown(c, n) == Cooldown(c, n + j * k)
  {
    if j > 0 {
      Repeats(c, eager, k, n, j - 1);
      TwoBursts(c, eager, k, n + (j - 1) * k);
      assert k + (n + (j - 1) * k) == n + j * k;
    }
  }

  lemma AgreementNeeds(c: Config, eager: bool, k: nat)
    requires Usable(c) && c.retention >= 1000 && AgreeAlways(c, eager) && k >= 1 && !LifetimeFits(c, k)
    ensures Constant(c)
  {
    var j := c.threshold + |c.delays|;
    Spread(j, k);
    var far := j * k;
    forall n | n >= 1 ensures Cooldown(c, n) == c.block {
      Repeats(c, eager, k, n, j);
      assert Cooldown(c, n) == Cooldown(c, n + far);
    }
  }

  lemma Spread(j: nat, k: nat)
    requires k >= 1
    ensures j * k >= j
  {
  }

  // With a retention under a second the hash never counts beyond one.
  lemma {:induction false} ShortBurst(c: Config, eager: bool, h: Option<Hash>, n: nat, now: int)
    requires Usable(c) && c.retention < 1000 && n >= 1
    requires !Tied(h, now) && Counted(eager, h, now) == 0
    ensures |RedisReplies(c, eager, h, Failures(n, now))| == n
    ensures RedisReplies(c, eager, h, Failures(n, now))[n - 1] == Cooldown(c, 1)
    ensures NoTies(c, eager, h, Failures(n, now))
    decreases n
  {
    RedisFailureIs(c, eager, h, now);
    CooldownUsable(c, 1);
    var evs := Failures(n, now);
    assert evs[1..] == Failures(n - 1, now);
    if n > 1 { ShortBurst(c, eager, RedisFailure(c, eager, h, now).0, n - 1, now); }
  }

  lemma ShortNeeds(c: Config, eager: bool)
    requires Usable(c) && c.retention < 1000 && AgreeAlways(c, eager)
    ensures Constant(c)
  {
    forall n: nat | n >= 1 ensures Cooldown(c, n) == Cooldown(c, 1) {
      var evs := Failures(n, 0);
      MemBurst(c, None, n, 0);
      ShortBurst(c, eager, None, n, 0);
      BurstOrdered(n, 0, 0, [], 0, 0);
      assert evs + [] == evs;
      assert MemReplies(c, None, evs) == RedisReplies(c, eager, None, evs);
    }
    assert Cooldown(c, c.threshold + |c.delays|) == c.block;
  }

  lemma AgreementSuffices(c: Config, eager: bool, evs: seq<Event>, from: int)
    requires Usable(c) && (LifetimesFit(c) || Constant(c))
    requires Ordered(evs, from) && NoTies(c, eager, None, evs)
    ensures MemReplies(c, None, evs) == RedisReplies(c, eager, None, evs)
  {
    AlwaysFair(c, None, evs);
    FairHistoriesAgree(c, eager, None, None, evs, from);
  }

  /** Over arbitrary histories, failures recorded mid-cooldown included, the script and the map report the same
      cooldowns if and only if every hash lives as long as the map remembers, to the millisecond, or every failure
      brings the same cooldown. */
  lemma AgreementExactly(c: Config, eager: bool)
    requires Usable(c)
    ensures AgreeAlways(c, eager) <==> LifetimesFit(c) || Constant(c)
  {
    if AgreeAlways(c, eager) && !LifetimesFit(c) {
      if c.retention < 1000 {
        ShortNeeds(c, eager);
      } else {
        var k :| k >= 1 && !LifetimeFits(c, k);
        AgreementNeeds(c, eager, k);
      }
    }
    if LifetimesFit(c) || Constant(c) {
      forall evs: seq<Event>, from: int | Ordered(evs, from) && NoTies(c, eager, None, evs)
        ensures MemReplies(c, None, evs) == RedisReplies(c, eager, None, evs)
      {
        AgreementSuffices(c, eager, evs, from);
      }
    }
  }

  /** In whole seconds that is: no cooldown outlasts the retention, or all are alike. */
  lemma AgreementInWholeSeconds(c: Config, eager: bool)
    requires Sound(c)
    ensures AgreeAlways(c, eager) <==> CooldownsFit(c) || Constant(c)
  {
    AgreementExactly(c, eager);
    forall n ensures Lifetime(c, n) == Max(c.retention, Cooldown(c, n)) && Cooldown(c, n) % 1000 == 0 {
      LifetimeSound(c, n);
    }
    if LifetimesFit(c) {
      forall n ensures Cooldown(c, n) <= c.retention {
        if n >= 1 { assert LifetimeFits(c, n); }
      }
    }
    if CooldownsFit(c) {
      forall n | n >= 1 ensures LifetimeFits(c, n) { assert Cooldown(c, n) <= c.retention; }
    }
  }

  // ---------------------------------------------------------------- the schedule of cooldowns

  // Failures only, in order, each at most `gap` after the one before.
  ghost predicate Steady(evs: seq<Event>, gap: int) {
    && (forall ev <- evs :: ev.Failure?)
    && (forall i :: 0 < i < |evs| ==> evs[i - 1].now <= evs[i].now <= evs[i - 1].now + gap)
  }

  lemma SteadyRest(evs: seq<Event>, gap: int)
    requires evs != [] && Steady(evs, gap)
    ensures Steady(evs[1..], gap) && evs[0].Failure?
    ensures |evs| > 1 ==> evs[0].now <= evs[1..][0].now <= evs[0].now + gap
  {
    assert evs[0] in evs;
    forall i | 0 < i < |evs[1..]| ensures evs[1..][i - 1].now <= evs[1..][i].now <= evs[1..][i - 1].now + gap {
      assert evs[1..][i] == evs[i + 1] && evs[1..][i - 1] == evs[i];
    }
  }

  lemma {:induction false} MemEscalates(c: Config, e: Option<Entry>, evs: seq<Event>, n: nat)
    requires Usable(c) && Steady(evs, c.retention) && 1 <= n <= |evs|
    requires e.Some? ==>
      && e.value.count >= 1 && e.value.until == UntilOf(c, e.value.count, e.value.seen)
      && evs[0].now <= e.value.seen + c.retention
    ensures var count := n + if e.Some? then e.value.count else 0;
            && |MemReplies(c, e, evs)| == |evs| && MemReplies(c, e, evs)[n - 1] == Cooldown(c, count)
            && MemAfter(c, e, evs[..n]) == Some(Entry(count, UntilOf(c, count, evs[n - 1].now), evs[n - 1].now))
    decreases n
  {
    SteadyRest(evs, c.retention);
    MemFailureIs(c, e, evs[0].now);
    MemAppend(c, e, evs, []);
    assert evs[..n][1..] == evs[1..][..n - 1];
    if n > 1 { MemEscalates(c, MemStep(c, e, evs[0]).0, evs[1..], n - 1); }
  }

  /** From a clean record, with failures in order and each within the retention of the one before: the first
      threshold - 1 bring no cooldown, the next ones the delays in their order, and all later ones the block; and that
      long, counted from the failure, the address is held off. */
  lemma MemSchedule(c: Config, evs: seq<Event>, n: nat, now: int)
    requires Usable(c) && Steady(evs, c.retention) && 1 <= n <= |evs| && evs[n - 1].now <= now
    ensures var replies := MemReplies(c, None, evs);
            && |replies| == |evs|
            && (n < c.threshold ==> replies[n - 1] == 0)
            && (c.threshold <= n < c.threshold + |c.delays| ==> replies[n - 1] == c.delays[n - c.threshold])
            && (n >= c.threshold + |c.delays| ==> replies[n - 1] == c.block)
            && MemPenalty(MemAfter(c, None, evs[..n]), now) == Max(0, evs[n - 1].now + replies[n - 1] - now)
  {
    MemEscalates(c, None, evs, n);
    CooldownUsable(c, n);
  }

  // A hash that the last failure, the `count`-th, left at `now`.
  function Left(c: Config, count: int, now: int): Hash {
    Hash(count, UntilOf(c, count, now), Some(now + Lifetime(c, count)))
  }

  // The failure after, while the hash keeps its count.
  lemma RedisGoesOn(c: Config, eager: bool, count: nat, before: int, now: int)
    requires Usable(c) && c.retention >= 1000 && before <= now
    requires now <= before + c.retention / 1000 * 1000 - if eager then 1 else 0
    ensures var h := if count == 0 then None else Some(Left(c, count, before));
            RedisFailure(c, eager, h, now) == (Some(Left(c, count + 1, now)), Cooldown(c, count + 1))
  {
    var h := if count == 0 then None else Some(Left(c, count, before));
    CooldownUsable(c, count);
    CooldownUsable(c, count + 1);
    assert Alive(eager, h, now) == h;
    RedisFailureIs(c, eager, h, now);
  }

  lemma RedisUnfolds(c: Config, eager: bool, h: Option<Hash>, evs: seq<Event>, n: nat)
    requires 1 <= n <= |evs|
    ensures var (next, reply) := RedisStep(c, eager, h, evs[0]);
            && RedisReplies(c, eager, h, evs) == [reply] + RedisReplies(c, eager, next, evs[1..])
            && |RedisReplies(c, eager, h, evs)| == |evs|
            && RedisAfter(c, eager, h, evs[..n]) == RedisAfter(c, eager, next, evs[1..][..n - 1])
  {
    RedisAppend(c, eager, h, evs, []);
    assert evs[..n][1..] == evs[1..][..n - 1];
  }

  lemma {:induction false} RedisEscalates(c: Config, eager: bool, gap: int, count: nat, before: int,
                                          evs: seq<Event>, n: nat)
    requires Usable(c) && c.retention >= 1000 && 1 <= n <= |evs|
    requires gap == c.retention / 1000 * 1000 - if eager then 1 else 0
    requires Steady(evs, gap) && before <= evs[0].now <= before + gap
    ensures var h := if count == 0 then None else Some(Left(c, count, before));
            && |RedisReplies(c, eager, h, evs)| == |evs|
            && RedisReplies(c, eager, h, evs)[n - 1] == Cooldown(c, count + n)
            && RedisAfter(c, eager, h, evs[..n]) == Some(Left(c, count + n, evs[n - 1].now))
    decreases n
  {
    var h := if count == 0 then None else Some(Left(c, count, before));
    var rest, next := evs[1..], Left(c, count + 1, evs[0].now);
    SteadyRest(evs, gap);
    RedisGoesOn(c, eager, count, before, evs[0].now);
    RedisUnfolds(c, eager, h, evs, n);
    assert RedisStep(c, eager, h, evs[0]) == (Some(next), Cooldown(c, count + 1));
    if n > 1 { RedisEscalates(c, eager, gap, count + 1, evs[0].now, rest, n - 1); }
  }

  /** The same schedule for the hash in Redis, for failures so close together that it keeps its count. */
  lemma RedisSchedule(c: Config, eager: bool, evs: seq<Event>, n: nat, now: int)
    requires Usable(c) && c.retention >= 1000 && 1 <= n <= |evs| && evs[n - 1].now <= now
    requires Steady(evs, c.retention / 1000 * 1000 - if eager then 1 else 0)
    ensures var replies := RedisReplies(c, eager, None, evs);
            && |replies| == |evs|
            && (n < c.threshold ==> replies[n - 1] == 0)
            && (c.threshold <= n < c.threshold + |c.delays| ==> replies[n - 1] == c.delays[n - c.threshold])
            && (n >= c.threshold + |c.delays| ==> replies[n - 1] == c.block)
            && RedisPenalty(eager, RedisAfter(c, eager, None, evs[..n]), now)
               == Max(0, evs[n - 1].now + replies[n - 1] - now)
  {
    RedisEscalates(c, eager, c.retention / 1000 * 1000 - if eager then 1 else 0, 0, evs[0].now, evs, n);
    CooldownUsable(c, n);
  }

  /** After any history a check reports what is left of the cooldown, and changes nothing. */
  lemma CheckTells(c: Config, eager: bool, e: Option<Entry>, h: Option<Hash>, evs: seq<Event>, now: int)
    ensures MemReplies(c, e, evs + [Check(now)]) == MemReplies(c, e, evs) + [MemPenalty(MemAfter(c, e, evs), now)]
    ensures RedisReplies(c, eager, h, evs + [Check(now)])
         == RedisReplies(c, eager, h, evs) + [RedisPenalty(eager, RedisAfter(c, eager, h, evs), now)]
    ensures MemStep(c, e, Check(now)).0 == e && RedisStep(c, eager, h, Check(now)).0 == h
  {
    MemAppend(c, e, evs, [Check(now)]);
    RedisAppend(c, eager, h, evs, [Check(now)]);
    assert [Check(now)][1..] == [];
  }

  /** Sweeping cannot be observed: an address whose record the janitor has dropped is answered from then on as it would
      have been with the record. */
  lemma {:induction false} SweepIsInvisible(c: Config, e: Entry, evs: seq<Event>, now: int)
    requires Droppable(c, e, now) && Ordered(evs, now)
    ensures MemReplies(c, MemStep(c, Some(e), Sweep(now)).0, evs) == MemReplies(c, Some(e), evs)
    decreases |evs|
  {
    if evs != [] && !evs[0].Failure? && !evs[0].Success? {
      assert Droppable(c, e, evs[0].now);
      SweepIsInvisible(c, e, evs[1..], evs[0].now);
    }
  }

  // ---------------------------------------------------------------- the guard around sign-in

  datatype Outcome = Unauthorized | Succeeded | Other

  // One sign-in attempt, checked at `check` and, if let through, recorded at `record`; or a sweep.
  datatype Act = SignIn(check: int, record: int, outcome: Outcome) | Janitor(now: int)

  // Throttled attempts are told how long to wait; others the cooldown their failure started, if any.
  datatype Verdict = Throttled(wait: int) | LetThrough(cooldown: int) | Swept

  function MemGuard(c: Config, e: Option<Entry>, a: Act): (Option<Entry>, Verdict) {
    match a
    case Janitor(now) => (MemStep(c, e, Sweep(now)).0, Swept)
    case SignIn(check, record, outcome) =>
      if MemPenalty(e, check) > 0 then (e, Throttled(MemPenalty(e, check)))
      else match outcome
        case Unauthorized => var (x, p) := MemFailure(c, e, record); (Some(x), LetThrough(p))
        case Succeeded => (None, LetThrough(0))
        case Other => (e, LetThrough(0))
  }

  function RedisGuard(c: Config, eager: bool, h: Option<Hash>, a: Act): (Option<Hash>, Verdict) {
    match a
    case Janitor(now) => (h, Swept)
    case SignIn(check, record, outcome) =>
      if RedisPenalty(eager, h, check) > 0 then (h, Throttled(RedisPenalty(eager, h, check)))
      else match outcome
        case Unauthorized => var (x, p) := RedisFailure(c, eager, h, record); (x, LetThrough(p))
        case Succeeded => (None, LetThrough(0))
        case Other => (h, LetThrough(0))
  }

  function MemVerdicts(c: Config, e: Option<Entry>, acts: seq<Act>): seq<Verdict>
    decreases |acts|
  {
    if acts == [] then [] else [MemGuard(c, e, acts[0]).1] + MemVerdicts(c, MemGuard(c, e, acts[0]).0, acts[1..])
  }

  function RedisVerdicts(c: Config, eager: bool, h: Option<Hash>, acts: seq<Act>): seq<Verdict>
    decreases |acts|
  {
    if acts == [] then []
    else [RedisGuard(c, eager, h, acts[0]).1] + RedisVerdicts(c, eager, RedisGuard(c, eager, h, acts[0]).0, acts[1..])
  }

  function Begin(a: Act): int { if a.Janitor? then a.now else a.check }
  function End(a: Act): int { if a.Janitor? then a.now else a.record }

  // One attempt at a time: each begins when the one before is done.
  ghost predicate OneAtATime(acts: seq<Act>, from: int) {
    acts == [] || (from <= Begin(acts[0]) <= End(acts[0]) && OneAtATime(acts[1..], End(acts[0])))
  }

  ghost predicate NoTiedActs(c: Config, eager: bool, h: Option<Hash>, acts: seq<Act>)
    decreases |acts|
  {
    acts == [] || (!Tied(h, End(acts[0])) && NoTiedActs(c, eager, RedisGuard(c, eager, h, acts[0]).0, acts[1..]))
  }

  // What the guard needs of the settings: every hash lives as long as the map remembers, or exactly through a cooldown
  // that outlasts the retention, in which the guard lets nothing be recorded.
  ghost predicate GuardFits(c: Config) {
    Countable(c) && (Constant(c) || forall n :: n >= 1 ==> LifetimeFits(c, n) || OutlastsExactly(c, n))
  }

  predicate OutlastsExactly(c: Config, n: int) {
    Lifetime(c, n) == Cooldown(c, n) > c.retention
  }

  lemma WholeSecondsFit(c: Config)
    requires Sound(c)
    ensures GuardFits(c)
  {
    forall n | n >= 1 ensures LifetimeFits(c, n) || OutlastsExactly(c, n) {
      LifetimeSound(c, n);
    }
  }

  /** Behind the guard, with one attempt in flight per address, the two give the same verdict on every attempt; so in
      whole-second settings, whatever the block duration and delays are, as long as nothing happens at the very instant
      a hash expires. */
  lemma {:induction false} GuardsAgree(c: Config, eager: bool, e: Option<Entry>,
                                       h: Option<Hash>, acts: seq<Act>, from: int)
    requires GuardFits(c) && Match(c, eager, e, h, from)
    requires OneAtATime(acts, from) && NoTiedActs(c, eager, h, acts)
    ensures MemVerdicts(c, e, acts) == RedisVerdicts(c, eager, h, acts)
    decreases |acts|
  {
    if acts != [] {
      GuardStep(c, eager, e, h, acts[0], from);
      GuardsAgree(c, eager, MemGuard(c, e, acts[0]).0, RedisGuard(c, eager, h, acts[0]).0, acts[1..], End(acts[0]));
    }
  }

  // One attempt: the same verdict, and records that still correspond.
  lemma GuardStep(c: Config, eager: bool, e: Option<Entry>, h: Option<Hash>, a: Act, from: int)
    requires GuardFits(c) && Match(c, eager, e, h, from)
    requires from <= Begin(a) <= End(a) && !Tied(h, End(a))
    ensures MemPenalty(e, Begin(a)) == RedisPenalty(eager, h, Begin(a)) >= 0
    ensures MemGuard(c, e, a).1 == RedisGuard(c, eager, h, a).1
    ensures Match(c, eager, MemGuard(c, e, a).0, RedisGuard(c, eager, h, a).0, End(a))
  {
    MatchLater(c, eager, e, h, from, Begin(a));
    SamePenalty(c, eager, e, h, Begin(a));
    MatchLater(c, eager, e, h, from, End(a));
    if a.Janitor? {
      GuardIsFair(c, e, a.now, a.now, Sweep(a.now));
      SweepMatches(c, eager, e, h, a.now);
    } else if a.outcome.Unauthorized? && MemPenalty(e, a.check) == 0 {
      GuardIsFair(c, e, a.check, a.record, Failure(a.record));
      FailureMatches(c, eager, e, h, a.record);
    }
  }

  // A failure that the guard let through, and a sweep, are fair.
  lemma GuardIsFair(c: Config, e: Option<Entry>, check: int, record: int, ev: Event)
    requires GuardFits(c) && check <= record && ev.now == record
    requires e.Some? ==> e.value.count >= 1 && e.value.until == UntilOf(c, e.value.count, e.value.seen)
    requires (ev.Failure? && MemPenalty(e, check) == 0) || ev.Sweep?
    ensures Fair(c, e, ev)
  {
    if e.Some? && !Constant(c) {
      var n := e.value.count;
      CooldownUsable(c, n);
      assert LifetimeFits(c, n) || OutlastsExactly(c, n);
    }
  }

  // ---------------------------------------------------------------- how many failures get through

  function FailuresThrough(c: Config, e: Option<Entry>, acts: seq<Act>): nat
    decreases |acts|
  {
    if acts == [] then 0
    else
      var through := acts[0].SignIn? && acts[0].outcome.Unauthorized? && MemPenalty(e, acts[0].check) == 0;
      (if through then 1 else 0) + FailuresThrough(c, MemGuard(c, e, acts[0]).0, acts[1..])
  }

  ghost predicate NoSuccess(acts: seq<Act>) {
    forall i :: 0 <= i < |acts| && acts[i].SignIn? ==> acts[i].outcome != Succeeded
  }

  lemma NoSuccessRest(acts: seq<Act>)
    requires acts != [] && NoSuccess(acts)
    ensures NoSuccess(acts[1..])
  {
    forall i | 0 <= i < |acts[1..]| && acts[1..][i].SignIn? ensures acts[1..][i].outcome != Succeeded {
      assert acts[1..][i] == acts[i + 1];
    }
  }

  function Finish(acts: seq<Act>, from: int): int {
    if acts == [] then from else Finish(acts[1..], End(acts[0]))
  }

  // The first count that brings the block.
  function BlockCount(c: Config): int {
    c.threshold + |c.delays|
  }

  // How many failures a block apart fit into `span`.
  ghost function Blocks(block: int, span: int): nat
    requires block > 0
    decreases if span < 0 then 0 else span + 1
  {
    if span < 0 then 0 else 1 + Blocks(block, span - block)
  }

  lemma {:induction false} BlocksGrow(block: int, span: int, longer: int)
    requires block > 0 && span <= longer
    ensures Blocks(block, span) <= Blocks(block, longer)
    decreases if span < 0 then 0 else span + 1
  {
    if span >= 0 { BlocksGrow(block, span - block, longer - block); }
  }

  lemma {:induction false} BlocksQuotient(block: int, span: int, q: nat)
    requires block > 0 && q * block <= span < (q + 1) * block
    ensures Blocks(block, span) == q + 1
    decreases q
  {
    if q == 0 {
      assert Blocks(block, span - block) == 0;
    } else {
      assert (q - 1) * block == q * block - block && (q + 1) * block == q * block + block;
      assert q * block >= block;
      BlocksQuotient(block, span - block, q - 1);
    }
  }

  lemma {:induction false} FinishIsLast(acts: seq<Act>, from: int)
    requires OneAtATime(acts, from)
    ensures from <= Finish(acts, from)
  {
    if acts != [] { FinishIsLast(acts[1..], End(acts[0])); }
  }

  // After a failure inside the interval nothing is forgotten any more: below the block count each failure uses up
  // one of the counts left, from there on each waits out a block.
  lemma {:induction false} CountedFailures(c: Config, e: Entry, acts: seq<Act>, from: int, to: int)
    requires Positive(c) && OneAtATime(acts, from) && Finish(acts, from) <= to && NoSuccess(acts)
    requires e.count >= 1 && from >= e.seen && to <= e.seen + c.retention
    requires e.count >= BlockCount(c) ==> e.until.Some?
    ensures FailuresThrough(c, Some(e), acts) <=
            if e.count < BlockCount(c) then BlockCount(c) - e.count + Blocks(c.block, to - from) - 1
            else Blocks(c.block, to - Max(from, e.until.value))
    decreases |acts|
  {
    FinishIsLast(acts, from);
    if acts != [] {
      var a, rest := acts[0], acts[1..];
      FinishIsLast(rest, End(a));
      NoSuccessRest(acts);
      BlocksGrow(c.block, to - End(a), to - from);
      if a.SignIn? && a.outcome.Unauthorized? && MemPenalty(Some(e), a.check) == 0 {
        var next := MemFailure(c, Some(e), a.record).0;
        assert next.count == e.count + 1;
        CountedFailures(c, next, rest, a.record, to);
        if e.count >= BlockCount(c) { BlocksGrow(c.block, to - a.record, to - Max(from, e.until.value)); }
      } else {
        CountedFailures(c, e, rest, End(a), to);
        if e.count >= BlockCount(c) {
          BlocksGrow(c.block, to - Max(End(a), e.until.value), to - Max(from, e.until.value));
        }
      }
    }
  }

  ghost predicate Kept(c: Config, e: Option<Entry>, now: int) {
    e.Some? ==> e.value.count >= 1 && e.value.seen <= now && (e.value.count >= BlockCount(c) ==> e.value.until.Some?)
  }

  // Before the first failure of the interval, whatever was remembered.
  lemma {:induction false} AnyFailures(c: Config, e: Option<Entry>, acts: seq<Act>, from: int, to: int, start: int)
    requires Positive(c) && OneAtATime(acts, from) && Finish(acts, from) <= to && NoSuccess(acts)
    requires start <= from && to <= start + c.retention
    requires Kept(c, e, from)
    ensures FailuresThrough(c, e, acts) <= BlockCount(c) + Blocks(c.block, to - from) - 1
    decreases |acts|
  {
    FinishIsLast(acts, from);
    if acts != [] {
      var a, rest := acts[0], acts[1..];
      FinishIsLast(rest, End(a));
      NoSuccessRest(acts);
      BlocksGrow(c.block, to - End(a), to - from);
      if a.SignIn? && a.outcome.Unauthorized? && MemPenalty(e, a.check) == 0 {
        var next := MemFailure(c, e, a.record).0;
        CountedFailures(c, next, rest, a.record, to);
      } else {
        AnyFailures(c, MemGuard(c, e, a).0, rest, End(a), to, start);
      }
    } else {
      BlocksGrow(c.block, -1, to - from);
    }
  }

  function GuardAfter(c: Config, e: Option<Entry>, acts: seq<Act>): Option<Entry>
    decreases |acts|
  {
    if acts == [] then e else GuardAfter(c, MemGuard(c, e, acts[0]).0, acts[1..])
  }

  lemma {:induction false} GuardKeeps(c: Config, e: Option<Entry>, acts: seq<Act>, from: int)
    requires Positive(c) && Kept(c, e, from) && OneAtATime(acts, from)
    ensures Kept(c, GuardAfter(c, e, acts), Finish(acts, from))
    decreases |acts|
  {
    if acts != [] { GuardKeeps(c, MemGuard(c, e, acts[0]).0, acts[1..], End(acts[0])); }
  }

  /** After any history at all, in an interval no longer than the retention and without a success, at most
      threshold + delays + (length / block) failed attempts are let through. */
  lemma FailureBound(c: Config, history: seq<Act>, inside: seq<Act>, start: int, from: int, to: int)
    requires Positive(c)
    requires OneAtATime(history, start) && Finish(history, start) <= from
    requires OneAtATime(inside, from) && Finish(inside, from) <= to && NoSuccess(inside)
    requires from <= to <= from + c.retention
    ensures FailuresThrough(c, GuardAfter(c, None, history), inside) <= c.threshold + |c.delays| + (to - from) / c.block
  {
    GuardKeeps(c, None, history, start);
    AnyFailures(c, GuardAfter(c, None, history), inside, from, to, from);
    BlocksDivide(c.block, to - from);
  }

  function RedisFailuresThrough(c: Config, eager: bool, h: Option<Hash>, acts: seq<Act>): nat
    decreases |acts|
  {
    if acts == [] then 0
    else
      var through := acts[0].SignIn? && acts[0].outcome.Unauthorized? && RedisPenalty(eager, h, acts[0].check) == 0;
      (if through then 1 else 0) + RedisFailuresThrough(c, eager, RedisGuard(c, eager, h, acts[0]).0, acts[1..])
  }

  function RedisGuardAfter(c: Config, eager: bool, h: Option<Hash>, acts: seq<Act>): Option<Hash>
    decreases |acts|
  {
    if acts == [] then h else RedisGuardAfter(c, eager, RedisGuard(c, eager, h, acts[0]).0, acts[1..])
  }

  lemma {:induction false} GuardsStayMatched(c: Config, eager: bool, e: Option<Entry>,
                                           h: Option<Hash>, acts: seq<Act>, from: int)
    requires GuardFits(c) && Match(c, eager, e, h, from)
    requires OneAtATime(acts, from) && NoTiedActs(c, eager, h, acts)
    ensures Match(c, eager, GuardAfter(c, e, acts), RedisGuardAfter(c, eager, h, acts), Finish(acts, from))
    ensures RedisFailuresThrough(c, eager, h, acts) == FailuresThrough(c, e, acts)
    decreases |acts|
  {
    if acts != [] {
      GuardStep(c, eager, e, h, acts[0], from);
      GuardsStayMatched(c, eager, MemGuard(c, e, acts[0]).0, RedisGuard(c, eager, h, acts[0]).0,
                        acts[1..], End(acts[0]));
    }
  }

  /** The same bound for the hash in Redis, where the guards agree, so in whole-second settings, and with nothing
      recorded at the very instant a hash expires. */
  lemma RedisFailureBound(c: Config, eager: bool, history: seq<Act>, inside: seq<Act>, start: int, from: int, to: int)
    requires GuardFits(c)
    requires OneAtATime(history, start) && Finish(history, start) <= from && NoTiedActs(c, eager, None, history)
    requires OneAtATime(inside, from) && Finish(inside, from) <= to && NoSuccess(inside)
    requires NoTiedActs(c, eager, RedisGuardAfter(c, eager, None, history), inside)
    requires from <= to <= from + c.retention
    ensures RedisFailuresThrough(c, eager, RedisGuardAfter(c, eager, None, history), inside)
         <= c.threshold + |c.delays| + (to - from) / c.block
  {
    GuardsStayMatched(c, eager, None, None, history, start);
    var e, h := GuardAfter(c, None, history), RedisGuardAfter(c, eager, None, history);
    MatchLater(c, eager, e, h, Finish(history, start), from);
    GuardsStayMatched(c, eager, e, h, inside, from);
    FailureBound(c, history, inside, start, from, to);
  }

  lemma BlocksDivide(block: int, span: int)
    requires block > 0 && span >= 0
    ensures Blocks(block, span) == span / block + 1
  {
    var q, r := span / block, span % block;
    assert span == q * block + r && 0 <= r < block;
    assert (q + 1) * block == q * block + block;
    BlocksQuotient(block, span, q);
  }

  // ---------------------------------------------------------------- the two stores

  class MemoryStore {
    var entries: map<string, Entry>

    ghost function At(ip: string): Option<Entry>
      reads this
    {
      if ip in entries then Some(entries[ip]) else None
    }

    constructor ()
      ensures entries == map[]
    {
      entries := map[];
    }

    method Penalty(ip: string, now: int) returns (wait: int)
      ensures wait == MemPenalty(At(ip), now)
    {
      if ip !in entries { return 0; }
      match entries[ip].until {
        case Some(until) => wait := if until - now > 0 then until - now else 0;
        case None => wait := 0;
      }
    }

    method RecordFailure(c: Config, ip: string, now: int) returns (wait: int)
      modifies this
      ensures At(ip) == Some(MemFailure(c, old(At(ip)), now).0) && wait == MemFailure(c, old(At(ip)), now).1
      ensures forall other | other != ip :: At(other) == old(At(other))
      ensures ip in entries && entries[ip].seen == now
      ensures entries[ip].count == 1 + if old(ip in entries && now - entries[ip].seen <= c.retention)
                                       then old(entries[ip].count) else 0
      ensures var n := entries[ip].count;
              wait == Max(0, if n < c.threshold then 0
                             else if n < c.threshold + |c.delays| then c.delays[n - c.threshold] else c.block)
      ensures wait > 0 ==> entries[ip].until == Some(now + wait)
    {
      var e := Entry(0, None, now);
      if ip in entries && !(now - entries[ip].seen > c.retention) { e := entries[ip]; }
      e := e.(count := e.count + 1, seen := now);
      var penalty := 0;
      if e.count >= c.threshold {
        var idx := e.count - c.threshold;
        penalty := if idx < |c.delays| then c.delays[idx] else c.block;
      }
      if penalty > 0 { e := e.(until := Some(now + penalty)); }
      entries := entries[ip := e];
      wait := if penalty > 0 then penalty else 0;
    }

    method Reset(ip: string)
      modifies this
      ensures entries == old(entries) - {ip}
    {
      entries := entries - {ip};
    }

    // One tick of the janitor.
    method Sweep(c: Config, now: int)
      modifies this
      ensures forall ip :: At(ip) == MemStep(c, old(At(ip)), Event.Sweep(now)).0
      ensures forall ip :: ip in entries <==>
        && ip in old(entries)
        && var e := old(entries)[ip];
           now - e.seen <= c.retention || (e.until.Some? && now <= e.until.value)
    {
      var todo := entries.Keys;
      while todo != {}
        invariant todo <= entries.Keys <= old(entries).Keys
        invariant forall ip <- entries :: entries[ip] == old(entries)[ip]
        invariant forall ip <- old(entries) :: ip in entries <==> ip in todo || !Droppable(c, old(entries)[ip], now)
        decreases |todo|
      {
        var ip :| ip in todo;
        todo := todo - {ip};
        if Droppable(c, entries[ip], now) { entries := entries - {ip}; }
      }
    }

    // One attempt through the guard: refused while a cooldown runs, otherwise recorded by its outcome.
    method Attempt(c: Config, ip: string, check: int, record: int, outcome: Outcome) returns (v: Verdict)
      requires check <= record
      modifies this
      ensures (At(ip), v) == MemGuard(c, old(At(ip)), SignIn(check, record, outcome))
      ensures forall other | other != ip :: At(other) == old(At(other))
      ensures var held := MemPenalty(old(At(ip)), check); held > 0 ==> v == Throttled(held) && entries == old(entries)
      ensures MemPenalty(old(At(ip)), check) <= 0 ==>
        && v.LetThrough?
        && (outcome.Succeeded? ==> v.cooldown == 0 && entries == old(entries) - {ip})
        && (outcome.Other? ==> v.cooldown == 0 && entries == old(entries))
        && (outcome.Unauthorized? ==> At(ip) == Some(MemFailure(c, old(At(ip)), record).0))
    {
      var wait := Penalty(ip, check);
      if wait > 0 { return Throttled(wait); }
      v := LetThrough(0);
      match outcome {
        case Unauthorized =>
          var cooldown := RecordFailure(c, ip, record);
          v := LetThrough(cooldown);
        case Succeeded => Reset(ip);
        case Other =>
      }
    }
  }

  class HashStore {
    const eager: bool
    var hashes: map<string, Hash>

    ghost function At(key: string): Option<Hash>
      reads this
    {
      if key in hashes then Some(hashes[key]) else None
    }

    constructor (eager: bool)
      ensures this.eager == eager && hashes == map[]
    {
      this.eager, hashes := eager, map[];
    }

    method IncrementCount(key: string, now: int) returns (count: int)
      modifies this
      ensures At(key) == Some(match Alive(eager, old(At(key)), now)
                              case Some(x) => x.(count := x.count + 1) case None => Hash(1, None, None))
      ensures count == hashes[key].count && hashes == old(hashes)[key := hashes[key]]
    {
      var h := Hash(0, None, None);
      if key in hashes {
        match hashes[key].expires {
          case Some(expires) => if !(now > expires || (eager && now == expires)) { h := hashes[key]; }
          case None => h := hashes[key];
        }
      }
      count := h.count + 1;
      hashes := hashes[key := h.(count := count)];
    }

    method ExpireIn(key: string, now: int, seconds: int)
      requires key in hashes
      modifies this
      ensures At(key) == Expire(old(At(key)), now, seconds)
      ensures hashes - {key} == old(hashes) - {key}
    {
      if seconds <= 0 {
        hashes := hashes - {key};
      } else {
        hashes := hashes[key := hashes[key].(expires := Some(now + seconds * 1000))];
      }
    }

    method SetUntil(key: string, until: int)
      modifies this
      ensures At(key) == Some(match old(At(key))
                              case Some(x) => x.(until := Some(until)) case None => Hash(0, Some(until), None))
      ensures hashes - {key} == old(hashes) - {key}
    {
      var h := if key in hashes then hashes[key].(until := Some(until)) else Hash(0, Some(until), None);
      hashes := hashes[key := h];
    }

    method Run(c: Config, key: string, now: int) returns (wait: int)
      modifies this
      ensures (At(key), wait) == RedisFailure(c, eager, old(At(key)), now)
      ensures hashes - {key} == old(hashes) - {key}
      ensures var n := 1 + Counted(eager, old(At(key)), now);
              wait == Max(0, if n < c.threshold then 0
                             else if n < c.threshold + |c.delays| then c.delays[n - c.threshold] else c.block)
      ensures wait > 0 ==> key in hashes && hashes[key].until == Some(now + wait)
    {
      var seconds := c.retention / 1000;
      var count := IncrementCount(key, now);
      ExpireIn(key, now, seconds);
      var penalty := 0;
      if count >= c.threshold {
        var idx := count - c.threshold;
        penalty := if idx < |c.delays| then c.delays[idx] else c.block;
      }
      wait := 0;
      if penalty > 0 {
        wait := penalty;
        SetUntil(key, now + penalty);
        var cooldown := (penalty + 999) / 1000;
        if cooldown > seconds { ExpireIn(key, now, cooldown); }
      }
    }
  }
}
