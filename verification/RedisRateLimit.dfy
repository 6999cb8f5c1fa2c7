/**
  The shared rate limiter: one counter per user and window, one per workspace and window, advanced by a script
  that Redis runs atomically and given a time to live of two windows.

  `RunScript` is the script on a value of the store; `CounterStore` runs it in place, command by command. The
  properties are about every run of requests at non-decreasing times on one clock, from an empty store.
 */
module RedisRateLimit {
  import opened Decimals
  import opened Numbers
  import opened Wrappers
  import Limit = RateLimit

  const TTL: int := 2 * SECOND

  // The printed form of a UUID: 36 characters, none of them a colon.
  type Uuid = s: string | |s| == 36 && ':' !in s witness NIL
  const NIL: string := "00000000-0000-0000-0000-000000000000"

  datatype Rates = Rates(user: nat, work: nat)

  datatype Key = UserKey(ws: Uuid, user: Uuid, window: int) | WorkspaceKey(ws: Uuid, window: int)

  // The string under which Redis holds the counter.
  function Text(k: Key): string {
    match k
    case UserKey(ws, user, window) => "rl:" + ws + ":" + user + ":" + Int(window)
    case WorkspaceKey(ws, window) => "rl:ws:" + ws + ":" + Int(window)
  }

  // The two kinds differ at character 5: inside a UUID, or the colon after "ws".
  lemma KindsDiffer(ws: Uuid, user: Uuid, window: int, ws': Uuid, window': int)
    ensures Text(UserKey(ws, user, window)) != Text(WorkspaceKey(ws', window'))
  {
    assert Text(UserKey(ws, user, window))[5] == ws[2];
    assert Text(WorkspaceKey(ws', window'))[5] == ':';
  }

  lemma UserTextInjective(a: Key, b: Key)
    requires a.UserKey? && b.UserKey? && Text(a) == Text(b)
    ensures a == b
  {
    var s := Text(a);
    assert s[3..39] == a.ws && s[3..39] == b.ws;
    assert s[40..76] == a.user && s[40..76] == b.user;
    assert s[77..] == Int(a.window) && s[77..] == Int(b.window);
    IntInjective(a.window, b.window);
  }

  lemma WorkspaceTextInjective(a: Key, b: Key)
    requires a.WorkspaceKey? && b.WorkspaceKey? && Text(a) == Text(b)
    ensures a == b
  {
    var s := Text(a);
    assert s[6..42] == a.ws && s[6..42] == b.ws;
    assert s[43..] == Int(a.window) && s[43..] == Int(b.window);
    IntInjective(a.window, b.window);
  }

  /** No two counters share a Redis key, in particular no user counter and workspace counter. */
  lemma TextInjective(a: Key, b: Key)
    requires Text(a) == Text(b)
    ensures a == b
  {
    match (a, b) {
      case (UserKey(_, _, _), UserKey(_, _, _)) => UserTextInjective(a, b);
      case (WorkspaceKey(_, _), WorkspaceKey(_, _)) => WorkspaceTextInjective(a, b);
      case (UserKey(ws, user, window), WorkspaceKey(ws', window')) => KindsDiffer(ws, user, window, ws', window');
      case (WorkspaceKey(ws', window'), UserKey(ws, user, window)) => KindsDiffer(ws, user, window, ws', window');
    }
  }

  // ---------------------------------------------------------------- the store and the script

  datatype Counter = Counter(count: int, expires: int)

  type Store = map<Key, Counter>

  // What a command at `now` finds under a key: an expired counter is gone.
  function Count(store: Store, k: Key, now: int): int {
    if k in store && now < store[k].expires then store[k].count else 0
  }

  // INCR followed by EXPIRE.
  function Bump(store: Store, k: Key, now: int): Store {
    store[k := Counter(Count(store, k, now) + 1, now + TTL)]
  }

  // DECR keeps the time to live.
  function Unbump(store: Store, k: Key, now: int): Store {
    store[k := Counter(Count(store, k, now) - 1, if k in store then store[k].expires else now + TTL)]
  }

  datatype Status = Allowed | UserDenied | WorkspaceDenied

  datatype Reply = Reply(status: Status, userCount: int, workspaceCount: int)

  function Window(now: int): int {
    now / SECOND
  }

  function RunScript(rates: Rates, store: Store, ws: Uuid, user: Uuid, now: int): (Store, Reply) {
    var userKey, workspaceKey := UserKey(ws, user, Window(now)), WorkspaceKey(ws, Window(now));
    var s1 := Bump(store, userKey, now);
    var u := Count(s1, userKey, now);
    if u > rates.user then (s1, Reply(UserDenied, u, 0))
    else if ws == NIL then (s1, Reply(Allowed, u, 0))
    else
      var s2 := Bump(s1, workspaceKey, now);
      var w := Count(s2, workspaceKey, now);
      if w > rates.work then (Unbump(s2, userKey, now), Reply(WorkspaceDenied, u - 1, w))
      else (s2, Reply(Allowed, u, w))
  }

  // ---------------------------------------------------------------- runs

  datatype Request = Request(ws: Uuid, user: Uuid, now: int)

  // The store together with the record of what was let through, per counter.
  datatype Run = Run(store: Store, allowed: map<Key, nat>)

  const START := Run(map[], map[])

  function Tally(allowed: map<Key, nat>, k: Key): nat {
    if k in allowed then allowed[k] else 0
  }

  function Record(allowed: map<Key, nat>, k: Key): map<Key, nat> {
    allowed[k := Tally(allowed, k) + 1]
  }

  function Step(rates: Rates, r: Run, q: Request): Run {
    var (store, reply) := RunScript(rates, r.store, q.ws, q.user, q.now);
    var byUser := Record(r.allowed, UserKey(q.ws, q.user, Window(q.now)));
    var byBoth := if q.ws == NIL then byUser else Record(byUser, WorkspaceKey(q.ws, Window(q.now)));
    Run(store, if reply.status == Allowed then byBoth else r.allowed)
  }

  function Final(rates: Rates, r: Run, qs: seq<Request>): Run
    decreases |qs|
  {
    if qs == [] then r else Final(rates, Step(rates, r, qs[0]), qs[1..])
  }

  ghost predicate Ordered(qs: seq<Request>, from: int) {
    qs == [] || (from <= qs[0].now && Ordered(qs[1..], qs[0].now))
  }

  function Last(qs: seq<Request>, from: int): int {
    if qs == [] then from else Last(qs[1..], qs[0].now)
  }

  function Budget(rates: Rates, k: Key): nat {
    if k.UserKey? then rates.user else rates.work
  }

  // ---------------------------------------------------------------- what every run keeps

  // A stored counter outlives its window by a full window; the tally of the current window is its counter, cut
  // off at the budget; older tallies are within budget and there are none for windows to come.
  ghost predicate KeyOk(rates: Rates, r: Run, k: Key, now: int) {
    && Tally(r.allowed, k) <= Budget(rates, k)
    && (k !in r.store ==> Tally(r.allowed, k) == 0)
    && (k in r.store ==>
          var c := r.store[k];
          && k.window <= Window(now) && (k.window + 2) * SECOND <= c.expires && c.count >= 0
          && (k.window == Window(now) ==> Tally(r.allowed, k) == Min(c.count, Budget(rates, k))))
  }

  ghost predicate Ok(rates: Rates, r: Run, now: int) {
    forall k :: KeyOk(rates, r, k, now)
  }

  lemma WindowLater(now: int, later: int)
    requires now <= later
    ensures Window(now) <= Window(later)
  {
  }

  lemma OkLater(rates: Rates, r: Run, now: int, later: int)
    requires Ok(rates, r, now) && now <= later
    ensures Ok(rates, r, later)
  {
    WindowLater(now, later);
    forall k ensures KeyOk(rates, r, k, later) { assert KeyOk(rates, r, k, now); }
  }

  // Within its window a counter is never expired, so the tally is what the script counts.
  lemma AliveInWindow(rates: Rates, r: Run, k: Key, now: int)
    requires Ok(rates, r, now) && k.window == Window(now)
    ensures Count(r.store, k, now) == if k in r.store then r.store[k].count else 0
    ensures Tally(r.allowed, k) == Min(Count(r.store, k, now), Budget(rates, k))
    ensures Count(r.store, k, now) >= 0
  {
    assert KeyOk(rates, r, k, now);
    assert now < (Window(now) + 1) * SECOND;
  }

  // What one request does to the store: a budget refuses exactly when its counter has reached it; only a
  // workspace refusal takes the user's increment back, and a user refusal never touches the workspace counter. A
  // counter is gone two seconds after its last increment.
  lemma ScriptSays(rates: Rates, store: Store, ws: Uuid, user: Uuid, now: int)
    ensures var (userKey, workspaceKey) := (UserKey(ws, user, Window(now)), WorkspaceKey(ws, Window(now)));
            var (u, w) := (Count(store, userKey, now), Count(store, workspaceKey, now));
            var (after, reply) := RunScript(rates, store, ws, user, now);
            && reply.status == (if u >= rates.user then UserDenied
                                else if ws != NIL && w >= rates.work then WorkspaceDenied
                                else Allowed)
            && userKey in after
            && after[userKey] == Counter(if reply.status == WorkspaceDenied then u else u + 1, now + 2 * SECOND)
            && reply.userCount == after[userKey].count
            && reply.workspaceCount == (if ws == NIL || reply.status == UserDenied then 0 else w + 1)
            && (if ws == NIL || reply.status == UserDenied then after == store[userKey := after[userKey]]
                else after == store[userKey := after[userKey]][workspaceKey := Counter(w + 1, now + 2 * SECOND)])
            && forall later :: Count(after, userKey, later) ==
                               if later < now + 2 * SECOND then after[userKey].count else 0
  {
    var userKey, workspaceKey := UserKey(ws, user, Window(now)), WorkspaceKey(ws, Window(now));
    var s1 := Bump(store, userKey, now);
    var s2 := Bump(s1, workspaceKey, now);
    var s3 := Unbump(s2, userKey, now);
    var u := Count(store, userKey, now);
    assert s3 == store[userKey := Counter(u, now + TTL)][workspaceKey := s2[workspaceKey]];
  }

  // The record grows by one, for the user and for the workspace, exactly when the request is let through.
  lemma StepTallies(rates: Rates, r: Run, q: Request, k: Key)
    ensures var userKey, workspaceKey := UserKey(q.ws, q.user, Window(q.now)), WorkspaceKey(q.ws, Window(q.now));
            var ok := RunScript(rates, r.store, q.ws, q.user, q.now).1.status == Allowed;
            Tally(Step(rates, r, q).allowed, k)
            == Tally(r.allowed, k) + if ok && (k == userKey || (q.ws != NIL && k == workspaceKey)) then 1 else 0
  {
  }

  lemma StepKeeps(rates: Rates, r: Run, q: Request, from: int)
    requires Ok(rates, r, from) && from <= q.now
    ensures Ok(rates, Step(rates, r, q), q.now)
  {
    OkLater(rates, r, from, q.now);
    forall k ensures KeyOk(rates, Step(rates, r, q), k, q.now) {
      StepKeepsKey(rates, r, q, k);
    }
  }

  lemma StepKeepsKey(rates: Rates, r: Run, q: Request, k: Key)
    requires Ok(rates, r, q.now)
    ensures KeyOk(rates, Step(rates, r, q), k, q.now)
  {
    var userKey, workspaceKey := UserKey(q.ws, q.user, Window(q.now)), WorkspaceKey(q.ws, Window(q.now));
    AliveInWindow(rates, r, userKey, q.now);
    AliveInWindow(rates, r, workspaceKey, q.now);
    ScriptSays(rates, r.store, q.ws, q.user, q.now);
    StepTallies(rates, r, q, k);
    assert Window(q.now) * SECOND <= q.now;
    assert KeyOk(rates, r, k, q.now);
  }

  lemma {:induction false} RunKeeps(rates: Rates, r: Run, qs: seq<Request>, from: int)
    requires Ok(rates, r, from) && Ordered(qs, from)
    ensures Ok(rates, Final(rates, r, qs), Last(qs, from))
    decreases |qs|
  {
    if qs != [] {
      StepKeeps(rates, r, qs[0], from);
      RunKeeps(rates, Step(rates, r, qs[0]), qs[1..], qs[0].now);
    }
  }

  /** In every reachable state, what has been let through in the current window is the counter cut off at the
      budget, for every user and every workspace; so no counter expires or restarts inside its own window. */
  lemma AllowedIsCounterCutOff(rates: Rates, qs: seq<Request>, from: int, now: int, k: Key)
    requires Ordered(qs, from) && Last(qs, from) <= now && k.window == Window(now)
    ensures var r := Final(rates, START, qs);
            Tally(r.allowed, k) == Min(Count(r.store, k, now), Budget(rates, k))
  {
    RunKeeps(rates, START, qs, from);
    OkLater(rates, Final(rates, START, qs), Last(qs, from), now);
    AliveInWindow(rates, Final(rates, START, qs), k, now);
  }

  // ---------------------------------------------------------------- users sum to the workspace

  // What the counters at `now` say the users in `users` were allowed: each counter cut off at the user budget.
  ghost function CountersTotal(rates: Rates, store: Store, ws: Uuid, now: int, users: set<Uuid>): int {
    if users == {} then 0
    else
      var u :| u in users;
      Min(Count(store, UserKey(ws, u, Window(now)), now), rates.user)
      + CountersTotal(rates, store, ws, now, users - {u})
  }

  // What the users in `users` were allowed in one workspace and window.
  ghost function UsersTotal(allowed: map<Key, nat>, ws: Uuid, window: int, users: set<Uuid>): nat {
    if users == {} then 0
    else
      var u :| u in users;
      Tally(allowed, UserKey(ws, u, window)) + UsersTotal(allowed, ws, window, users - {u})
  }

  lemma {:induction false} UsersTotalPick(allowed: map<Key, nat>, ws: Uuid, window: int, users: set<Uuid>, u: Uuid)
    requires u in users
    ensures UsersTotal(allowed, ws, window, users)
         == Tally(allowed, UserKey(ws, u, window)) + UsersTotal(allowed, ws, window, users - {u})
    decreases |users|
  {
    var p :| p in users &&
      UsersTotal(allowed, ws, window, users) == Tally(allowed, UserKey(ws, p, window))
        + UsersTotal(allowed, ws, window, users - {p});
    if p != u {
      UsersTotalPick(allowed, ws, window, users - {p}, u);
      UsersTotalPick(allowed, ws, window, users - {u}, p);
      assert users - {p} - {u} == users - {u} - {p};
    }
  }

  lemma {:induction false} UsersTotalSame(a: map<Key, nat>, b: map<Key, nat>, ws: Uuid, window: int, users: set<Uuid>)
    requires forall u <- users :: Tally(a, UserKey(ws, u, window)) == Tally(b, UserKey(ws, u, window))
    ensures UsersTotal(a, ws, window, users) == UsersTotal(b, ws, window, users)
    decreases |users|
  {
    if users != {} {
      var u :| u in users;
      UsersTotalPick(a, ws, window, users, u);
      UsersTotalPick(b, ws, window, users, u);
      UsersTotalSame(a, b, ws, window, users - {u});
    }
  }

  lemma {:induction false} TotalsAgree(rates: Rates, r: Run, qs: seq<Request>, ws: Uuid, window: int, users: set<Uuid>)
    requires ws != NIL && forall i | 0 <= i < |qs| && qs[i].ws == ws :: qs[i].user in users
    requires UsersTotal(r.allowed, ws, window, users) == Tally(r.allowed, WorkspaceKey(ws, window))
    ensures var r' := Final(rates, r, qs);
            UsersTotal(r'.allowed, ws, window, users) == Tally(r'.allowed, WorkspaceKey(ws, window))
    decreases |qs|
  {
    if qs != [] {
      var q := qs[0];
      var a, b := r.allowed, Step(rates, r, q).allowed;
      forall k ensures Tally(b, k) == Tally(a, k) || k == UserKey(q.ws, q.user, Window(q.now))
        || k == WorkspaceKey(q.ws, Window(q.now))
      {
        StepTallies(rates, r, q, k);
      }
      StepTallies(rates, r, q, WorkspaceKey(ws, window));
      if q.ws == ws {
        StepTallies(rates, r, q, UserKey(ws, q.user, window));
        UsersTotalPick(a, ws, window, users, q.user);
        UsersTotalPick(b, ws, window, users, q.user);
        UsersTotalSame(a, b, ws, window, users - {q.user});
      } else {
        UsersTotalSame(a, b, ws, window, users);
      }
      forall i | 0 <= i < |qs[1..]| && qs[1..][i].ws == ws ensures qs[1..][i].user in users {
        assert qs[i + 1].user in users;
      }
      TotalsAgree(rates, Step(rates, r, q), qs[1..], ws, window, users);
    }
  }

  // Over every run the record balances, in every window.
  lemma RecordBalances(rates: Rates, qs: seq<Request>, ws: Uuid, window: int, users: set<Uuid>)
    requires ws != NIL && forall i | 0 <= i < |qs| && qs[i].ws == ws :: qs[i].user in users
    ensures var allowed := Final(rates, START, qs).allowed;
            UsersTotal(allowed, ws, window, users) == Tally(allowed, WorkspaceKey(ws, window))
  {
    NothingYet(ws, window, users);
    TotalsAgree(rates, START, qs, ws, window, users);
  }

  lemma {:induction false} CountersAreRecord(rates: Rates, r: Run, ws: Uuid, now: int, users: set<Uuid>)
    requires Ok(rates, r, now)
    ensures CountersTotal(rates, r.store, ws, now, users) == UsersTotal(r.allowed, ws, Window(now), users)
    decreases |users|
  {
    if users != {} {
      var u :| u in users && CountersTotal(rates, r.store, ws, now, users)
        == Min(Count(r.store, UserKey(ws, u, Window(now)), now), rates.user)
           + CountersTotal(rates, r.store, ws, now, users - {u});
      AliveInWindow(rates, r, UserKey(ws, u, Window(now)), now);
      UsersTotalPick(r.allowed, ws, Window(now), users, u);
      CountersAreRecord(rates, r, ws, now, users - {u});
    }
  }

  /**
    Conservation on the counters: in every reachable state, the current counters of a workspace's users, each cut off
    at the user budget, add up to the workspace's counter cut off at its own, although a refused user leaves no trace
    on the workspace's counter and a user's counter is decremented when the workspace refuses.
   */
  lemma UsersSumToWorkspace(rates: Rates, qs: seq<Request>, ws: Uuid, from: int, now: int, users: set<Uuid>)
    requires ws != NIL && forall i | 0 <= i < |qs| && qs[i].ws == ws :: qs[i].user in users
    requires Ordered(qs, from) && Last(qs, from) <= now
    ensures var store := Final(rates, START, qs).store;
            CountersTotal(rates, store, ws, now, users)
            == Min(Count(store, WorkspaceKey(ws, Window(now)), now), rates.work)
  {
    var r := Final(rates, START, qs);
    RunKeeps(rates, START, qs, from);
    OkLater(rates, r, Last(qs, from), now);
    RecordBalances(rates, qs, ws, Window(now), users);
    CountersAreRecord(rates, r, ws, now, users);
    AliveInWindow(rates, r, WorkspaceKey(ws, Window(now)), now);
  }

  lemma {:induction false} NothingYet(ws: Uuid, window: int, users: set<Uuid>)
    ensures UsersTotal(START.allowed, ws, window, users) == 0
    decreases |users|
  {
    if users != {} {
      var u :| u in users;
      UsersTotalPick(START.allowed, ws, window, users, u);
      NothingYet(ws, window, users - {u});
    }
  }

  // ---------------------------------------------------------------- the bound over any interval

  // One user of a workspace, or the whole workspace.
  datatype Scope = OfUser(ws: Uuid, user: Uuid) | OfWorkspace(ws: Uuid)

  function KeyOf(scope: Scope, window: int): Key {
    match scope
    case OfUser(ws, user) => UserKey(ws, user, window)
    case OfWorkspace(ws) => WorkspaceKey(ws, window)
  }

  predicate InScope(scope: Scope, q: Request) {
    q.ws == scope.ws && (scope.OfUser? ==> q.user == scope.user)
  }

  function RateOf(rates: Rates, scope: Scope): nat {
    Budget(rates, KeyOf(scope, 0))
  }

  predicate LetThrough(rates: Rates, r: Run, q: Request, scope: Scope) {
    InScope(scope, q) && RunScript(rates, r.store, q.ws, q.user, q.now).1.status == Allowed
  }

  function AllowedCount(rates: Rates, r: Run, qs: seq<Request>, scope: Scope): nat
    decreases |qs|
  {
    if qs == [] then 0
    else
      (if LetThrough(rates, r, qs[0], scope) then 1 else 0) + AllowedCount(rates, Step(rates, r, qs[0]), qs[1..], scope)
  }

  // `windows` full budgets.
  ghost function Budgets(rate: nat, windows: nat): nat {
    if windows == 0 then 0 else rate + Budgets(rate, windows - 1)
  }

  lemma {:induction false} BudgetsGrow(rate: nat, few: nat, many: nat)
    requires few <= many
    ensures Budgets(rate, few) <= Budgets(rate, many)
    ensures few < many ==> Budgets(rate, few) + rate <= Budgets(rate, many)
  {
    if few < many { BudgetsGrow(rate, few, many - 1); }
  }

  lemma {:induction false} BudgetsProduct(rate: nat, windows: nat)
    ensures Budgets(rate, windows) == windows * rate
  {
    if windows > 0 {
      BudgetsProduct(rate, windows - 1);
      assert windows * rate == (windows - 1) * rate + rate;
    }
  }

  // One request adds to the record of its window what it is let through; a new window starts at nothing.
  lemma WindowStep(rates: Rates, r: Run, q: Request, scope: Scope, from: int)
    requires scope != OfWorkspace(NIL) && Ok(rates, r, from) && from <= q.now
    ensures Ok(rates, Step(rates, r, q), q.now) && Window(from) <= Window(q.now)
    ensures Tally(Step(rates, r, q).allowed, KeyOf(scope, Window(q.now)))
         == Tally(r.allowed, KeyOf(scope, Window(q.now))) + if LetThrough(rates, r, q, scope) then 1 else 0
    ensures Tally(r.allowed, KeyOf(scope, Window(from))) <= RateOf(rates, scope)
    ensures Window(from) < Window(q.now) ==> Tally(r.allowed, KeyOf(scope, Window(q.now))) == 0
  {
    WindowLater(from, q.now);
    StepKeeps(rates, r, q, from);
    StepTallies(rates, r, q, KeyOf(scope, Window(q.now)));
    assert KeyOk(rates, r, KeyOf(scope, Window(from)), from);
    assert KeyOk(rates, r, KeyOf(scope, Window(q.now)), from);
  }

  // What is left of the current window's budget, and a full budget for every later window.
  lemma {:induction false} WindowsPay(rates: Rates, r: Run, qs: seq<Request>, scope: Scope, from: int, last: int)
    requires scope != OfWorkspace(NIL)
    requires Ok(rates, r, from) && Ordered(qs, from) && Window(Last(qs, from)) <= last
    ensures Window(from) <= last
    ensures AllowedCount(rates, r, qs, scope) + Tally(r.allowed, KeyOf(scope, Window(from)))
         <= Budgets(RateOf(rates, scope), last - Window(from) + 1)
    decreases |qs|
  {
    var rate := RateOf(rates, scope);
    if qs == [] {
      assert KeyOk(rates, r, KeyOf(scope, Window(from)), from);
      WindowLater(from, Last(qs, from));
      BudgetsGrow(rate, 1, last - Window(from) + 1);
    } else {
      var q := qs[0];
      WindowStep(rates, r, q, scope, from);
      WindowsPay(rates, Step(rates, r, q), qs[1..], scope, q.now, last);
      Carried(rate, Window(from), Window(q.now), last,
              Tally(r.allowed, KeyOf(scope, Window(from))), Tally(r.allowed, KeyOf(scope, Window(q.now))),
              AllowedCount(rates, r, qs, scope));
    }
  }

  // Budgets of the windows from `w` on pay for `count` requests; then those from an earlier window on pay for them and
  // for what that window had let through before.
  lemma Carried(rate: nat, earlier: int, w: int, last: int, before: nat, tally: nat, count: nat)
    requires earlier <= w <= last && before <= rate
    requires if earlier == w then before == tally else tally == 0
    requires count + tally <= Budgets(rate, last - w + 1)
    ensures count + before <= Budgets(rate, last - earlier + 1)
  {
    BudgetsGrow(rate, last - w + 1, last - earlier + 1);
  }

  lemma {:induction false} LastIsLatest(qs: seq<Request>, from: int)
    requires Ordered(qs, from)
    ensures from <= Last(qs, from)
  {
    if qs != [] { LastIsLatest(qs[1..], qs[0].now); }
  }

  function Ceiling(length: int): int {
    (length + SECOND - 1) / SECOND
  }

  /** Whatever happened before, one user of a workspace, and the workspace as a whole, is let through at most (length
      rounded up to whole seconds, plus one) times its rate in any half-open interval `[from, from + length)`. */
  lemma IntervalBound(rates: Rates, history: seq<Request>, inside: seq<Request>,
                      scope: Scope, start: int, from: int, length: int)
    requires scope != OfWorkspace(NIL)
    requires Ordered(history, start) && Last(history, start) <= from
    requires Ordered(inside, from) && Last(inside, from) < from + length
    ensures AllowedCount(rates, Final(rates, START, history), inside, scope)
         <= (Ceiling(length) + 1) * RateOf(rates, scope)
  {
    var r, rate := Final(rates, START, history), RateOf(rates, scope);
    RunKeeps(rates, START, history, start);
    OkLater(rates, r, Last(history, start), from);
    LastIsLatest(inside, from);
    var last := Window(from + length - 1);
    WindowLater(Last(inside, from), from + length - 1);
    WindowsPay(rates, r, inside, scope, from, last);
    WindowsIn(from, length);
    BudgetsGrow(rate, last - Window(from) + 1, Ceiling(length) + 1);
    BudgetsProduct(rate, Ceiling(length) + 1);
  }

  // An interval meets at most one window more than its length in seconds, rounded up.
  lemma WindowsIn(from: int, length: int)
    requires length > 0
    ensures Window(from + length - 1) - Window(from) <= Ceiling(length)
  {
    var a := Window(from);
    assert a * SECOND <= from < (a + 1) * SECOND;
    assert length <= Ceiling(length) * SECOND;
  }

  // ---------------------------------------------------------------- the store object and the limiter

  class CounterStore {
    var counters: Store

    constructor ()
      ensures counters == map[]
    {
      counters := map[];
    }

    // INCR, then EXPIRE.
    method Incr(k: Key, now: int) returns (value: int)
      modifies this
      ensures value == Count(old(counters), k, now) + 1 == Count(counters, k, now)
      ensures counters == Bump(old(counters), k, now)
    {
      if k in counters && now < counters[k].expires { value := counters[k].count + 1; } else { value := 1; }
      counters := counters[k := Counter(value, now + TTL)];
    }

    method Decr(k: Key, now: int)
      modifies this
      ensures counters == Unbump(old(counters), k, now)
    {
      counters := counters[k := Counter((if k in counters && now < counters[k].expires
                                         then counters[k].count else 0) - 1,
                                        if k in counters then counters[k].expires else now + TTL)];
    }

    method Run(rates: Rates, ws: Uuid, user: Uuid, now: int) returns (reply: Reply)
      modifies this
      ensures (counters, reply) == RunScript(rates, old(counters), ws, user, now)
    {
      var userKey, workspaceKey := UserKey(ws, user, Window(now)), WorkspaceKey(ws, Window(now));
      var u := Incr(userKey, now);
      if u > rates.user { return Reply(UserDenied, u, 0); }
      if ws != NIL {
        var w := Incr(workspaceKey, now);
        if w > rates.work {
          Decr(userKey, now);
          return Reply(WorkspaceDenied, u - 1, w);
        }
        return Reply(Allowed, u, w);
      }
      return Reply(Allowed, u, 0);
    }
  }

  // How the exchange with Redis ends: with the script's reply, with an error after the script ran, or before it did.
  datatype Exchange = Answered | ReplyLost | NotRun

  // What a caller is told: a refused one waits until a millisecond after the window's end, or for a millisecond if that
  // is over already; what remains is never negative; and the window's end is the next full second.
  ghost predicate Told(rates: Rates, reply: Reply, now: int, until: int, r: Limit.Reservation) {
    && r.remaining == Max(0, rates.user - reply.userCount)
    && now < r.reset * SECOND <= now + SECOND
    && r.wait == if reply.status == Allowed then 0 else Max(r.reset * SECOND, until) + MILLISECOND - until
  }

  method Tell(rates: Rates, reply: Reply, now: int, until: int) returns (r: Limit.Reservation)
    ensures Told(rates, reply, now, until, r)
  {
    var bucket := now / SECOND;
    var bucketEnd := (bucket + 1) * SECOND;
    var remaining := rates.user - reply.userCount;
    if remaining < 0 { remaining := 0; }
    if reply.status == Allowed { return Limit.Reservation(0, remaining, bucket + 1); }
    var wait := bucketEnd - until;
    if wait < 0 { wait := 0; }
    return Limit.Reservation(wait + MILLISECOND, remaining, bucket + 1);
  }

  /** One request against the shared counters; `until` is the clock when the wait is computed. Without a usable reply
      the in-memory limiter of this server decides at `local`, and a script that ran all the same has counted the
      request. */
  method Reserve(store: CounterStore, fallback: Limit.RateLimiter, rates: Rates, ws: Uuid, user: Uuid,
                 exchange: Exchange, now: int, until: int, wsId: Limit.Uuid, userId: Limit.Uuid, local: int)
    returns (r: Limit.Reservation)
    requires fallback.Valid() && (wsId == Limit.NIL <==> ws == NIL)
    modifies store, fallback, fallback.users.Values, fallback.work.Values
    ensures fallback.Valid()
    ensures exchange.NotRun? ==> store.counters == old(store.counters)
    ensures !exchange.NotRun? ==> store.counters == RunScript(rates, old(store.counters), ws, user, now).0
    ensures !exchange.Answered? ==>
      (fallback.state, r) == Limit.Reserve(fallback.rates, old(fallback.state), wsId, userId, local)
    ensures exchange.Answered? ==> fallback.state == old(fallback.state)
    ensures exchange.Answered? ==> Told(rates, RunScript(rates, old(store.counters), ws, user, now).1, now, until, r)
  {
    var reply := Ask(store, rates, ws, user, exchange, now);
    match reply {
      case Some(value) => r := Tell(rates, value, now, until);
      case None => r := fallback.Request(wsId, userId, local);
    }
  }

  // The exchange: a reply, or none although the script may have run.
  method Ask(store: CounterStore, rates: Rates, ws: Uuid, user: Uuid, exchange: Exchange, now: int)
    returns (reply: Option<Reply>)
    modifies store
    ensures exchange.NotRun? ==> store.counters == old(store.counters)
    ensures !exchange.NotRun? ==> store.counters == RunScript(rates, old(store.counters), ws, user, now).0
    ensures reply == if exchange.Answered? then Some(RunScript(rates, old(store.counters), ws, user, now).1) else None
  {
    if exchange.NotRun? { return None; }
    var value := store.Run(rates, ws, user, now);
    return if exchange.Answered? then Some(value) else None;
  }
}
