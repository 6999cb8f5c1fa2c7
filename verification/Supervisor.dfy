/**
  The supervisor of one child process: it restarts the child with a delay that doubles up to a cap and falls back to
  the minimum after a stable life. Times are nanoseconds.
 */
module Supervisor {
  import opened Numbers

  const RESTART_BACKOFF_MIN := SECOND
  const RESTART_BACKOFF_MAX := 30 * SECOND
  const RESTART_STABLE_AFTER := 60 * SECOND

  datatype Cut = Never | WhileRunning | WhileWaiting

  // One life of the child: how long it ran, by how much the timer overran, and whether a shutdown cut it.
  datatype Life = Life(ran: nat, late: nat, cut: Cut)

  function Wait(backoff: nat, ran: nat): nat {
    if ran >= RESTART_STABLE_AFTER then RESTART_BACKOFF_MIN else backoff
  }

  function Doubled(backoff: nat): nat {
    if 2 * backoff > RESTART_BACKOFF_MAX then RESTART_BACKOFF_MAX else 2 * backoff
  }

  // The next start, and the delay from which the wait after it is taken.
  function NextStart(t: int, backoff: nat, life: Life): int {
    t + life.ran + Wait(backoff, life.ran) + life.late
  }

  function NextBackoff(backoff: nat, life: Life): nat {
    Doubled(Wait(backoff, life.ran))
  }

  // When the child is started, from time `t` on; the shutdown comes within the last life or right after it.
  function Starts(t: int, backoff: nat, lives: seq<Life>): (r: seq<int>)
    ensures |r| <= |lives| && (lives != [] ==> r != [] && r[0] == t)
    decreases |lives|
  {
    if lives == [] then []
    else if lives[0].cut != Never then [t]
    else [t] + Starts(NextStart(t, backoff, lives[0]), NextBackoff(backoff, lives[0]), lives[1..])
  }

  lemma StartsFrom(t: int, backoff: nat, lives: seq<Life>, i: nat)
    requires i < |lives|
    ensures Starts(t, backoff, lives[i..]) == if lives[i].cut != Never then [t]
              else [t] + Starts(NextStart(t, backoff, lives[i]), NextBackoff(backoff, lives[i]), lives[i + 1..])
  {
    assert lives[i..][1..] == lives[i + 1..];
  }

  lemma Shift(a: seq<int>, x: int, rest: seq<int>)
    ensures a + ([x] + rest) == (a + [x]) + rest
    ensures rest == [] ==> a + ([x] + rest) == a + [x]
  {}

  method SuperviseChild(t0: int, lives: seq<Life>) returns (starts: seq<int>)
    ensures starts == Starts(t0, RESTART_BACKOFF_MIN, lives)
  {
    var backoff: nat := RESTART_BACKOFF_MIN;
    var now, i := t0, 0;
    starts := [];
    ghost var ahead := Starts(now, backoff, lives);
    assert lives[0..] == lives;
    while i < |lives|
      invariant i <= |lives| && ahead == Starts(now, backoff, lives[i..])
      invariant starts + ahead == Starts(t0, RESTART_BACKOFF_MIN, lives)
    {
      StartsFrom(now, backoff, lives, i);
      ghost var started, before, rest := now, backoff, ahead[1..];
      Shift(starts, now, rest);
      starts := starts + [now];
      now := now + lives[i].ran;
      if lives[i].cut == WhileRunning { return; }
      if lives[i].ran >= RESTART_STABLE_AFTER {
        backoff := RESTART_BACKOFF_MIN;
      }
      if lives[i].cut == WhileWaiting { return; }
      now := now + backoff + lives[i].late;
      backoff := backoff * 2;
      if backoff > RESTART_BACKOFF_MAX {
        backoff := RESTART_BACKOFF_MAX;
      }
      assert now == NextStart(started, before, lives[i]) && backoff == NextBackoff(before, lives[i]);
      ahead := rest;
      i := i + 1;
    }
  }

  // ---------------------------------------------------------------- when the next life starts

  /** A life of a minute or more is followed by a start one second, and what the timer overran, after its end. */
  lemma {:induction false} StableLifeResets(t: int, backoff: nat, lives: seq<Life>, i: nat)
    requires i + 1 < |Starts(t, backoff, lives)| && lives[i].ran >= 60 * SECOND
    ensures var starts := Starts(t, backoff, lives);
            starts[i + 1] == starts[i] + lives[i].ran + SECOND + lives[i].late
    decreases i
  {
    if i > 0 {
      StableLifeResets(NextStart(t, backoff, lives[0]), NextBackoff(backoff, lives[0]), lives[1..], i - 1);
    }
  }

  /** No life is started after one that the shutdown cut, and every other but the last is followed by one. */
  lemma {:induction false} CutIsLast(t: int, backoff: nat, lives: seq<Life>, i: nat)
    requires i < |Starts(t, backoff, lives)|
    ensures i + 1 < |Starts(t, backoff, lives)| <==> lives[i].cut == Never && i + 1 < |lives|
    decreases i
  {
    if i > 0 { CutIsLast(NextStart(t, backoff, lives[0]), NextBackoff(backoff, lives[0]), lives[1..], i - 1); }
  }

  function Pow2(n: nat): nat {
    if n == 0 then 1 else 2 * Pow2(n - 1)
  }

  // From a delay of 2^n seconds, capped at 30, every further short life doubles it.
  lemma {:induction false} ShortLives(t: int, n: nat, lives: seq<Life>, i: nat)
    requires i + 1 < |Starts(t, Min(Pow2(n), 30) * SECOND, lives)|
    requires forall k :: 0 <= k <= i ==> lives[k].ran < 60 * SECOND
    ensures var starts := Starts(t, Min(Pow2(n), 30) * SECOND, lives);
            starts[i + 1] == starts[i] + lives[i].ran + Min(Pow2(n + i), 30) * SECOND + lives[i].late
    decreases i
  {
    var backoff := Min(Pow2(n), 30) * SECOND;
    if i > 0 {
      assert NextBackoff(backoff, lives[0]) == Min(Pow2(n + 1), 30) * SECOND;
      ShortLives(NextStart(t, backoff, lives[0]), n + 1, lives[1..], i - 1);
    }
  }

  lemma {:induction false} StartsResume(t: int, backoff: nat, lives: seq<Life>, i: nat) returns (u: int, next: nat)
    requires i + 1 < |Starts(t, backoff, lives)|
    ensures Starts(t, backoff, lives)[i + 1..] == Starts(u, next, lives[i + 1..])
    ensures lives[i].ran >= RESTART_STABLE_AFTER ==> next == 2 * SECOND
    decreases i
  {
    u, next := NextStart(t, backoff, lives[0]), NextBackoff(backoff, lives[0]);
    var all, rest := Starts(t, backoff, lives), Starts(u, next, lives[1..]);
    assert all == [t] + rest;
    if i == 0 {
      assert all[1..] == rest;
    } else {
      u, next := StartsResume(u, next, lives[1..], i - 1);
      assert all[i + 1..] == rest[i..];
      assert lives[1..][i..] == lives[i + 1..];
    }
  }

  /** The k-th life in a row that is shorter than a minute is followed by a start min(2^(k - 1), 30) seconds after its
      end, counted from the first life, and min(2^k, 30) seconds, counted from a stable life. */
  lemma ShortLivesBackOff(t: int, lives: seq<Life>, first: nat, k: nat)
    requires k >= 1 && first + k < |Starts(t, RESTART_BACKOFF_MIN, lives)|
    requires first == 0 || lives[first - 1].ran >= 60 * SECOND
    requires forall j :: first <= j < first + k ==> lives[j].ran < 60 * SECOND
    ensures var starts, i := Starts(t, RESTART_BACKOFF_MIN, lives), first + k - 1;
            var delay := Min(Pow2(if first == 0 then k - 1 else k), 30) * SECOND;
            starts[i + 1] == starts[i] + lives[i].ran + delay + lives[i].late
  {
    if first == 0 {
      ShortLives(t, 0, lives, k - 1);
    } else {
      var u, next := StartsResume(t, RESTART_BACKOFF_MIN, lives, first - 1);
      var starts := Starts(t, RESTART_BACKOFF_MIN, lives);
      assert starts[first..][k - 1] == starts[first + k - 1] && starts[first..][k] == starts[first + k];
      assert Pow2(1) == 2;
      ShortLives(u, 1, lives[first..], k - 1);
    }
  }

  // The delays the supervisor can have: 1, 2, 4, 8, 16 and 30 seconds.
  predicate Reached(backoff: nat) {
    backoff in {SECOND, 2 * SECOND, 4 * SECOND, 8 * SECOND, 16 * SECOND, 30 * SECOND}
  }

  // Five times the time that restarts from this delay on can at most save against one start in 18.2 seconds.
  function Credit(backoff: nat): nat {
    if backoff == SECOND then 300 * SECOND
    else if backoff == 2 * SECOND then 214 * SECOND
    else if backoff == 4 * SECOND then 133 * SECOND
    else if backoff == 8 * SECOND then 62 * SECOND
    else if backoff == 16 * SECOND then 11 * SECOND
    else 0
  }

  lemma GapPays(backoff: nat, life: Life)
    requires Reached(backoff)
    ensures var wait := Wait(backoff, life.ran);
            Reached(Doubled(wait)) &&
            91 * SECOND + Credit(Doubled(wait)) <= 5 * (life.ran + wait + life.late) + Credit(backoff)
  {}

  lemma {:induction false} StartsPay(t: int, backoff: nat, lives: seq<Life>, j: nat)
    requires Reached(backoff) && j < |Starts(t, backoff, lives)|
    ensures 91 * SECOND * j <= 5 * (Starts(t, backoff, lives)[j] - t) + Credit(backoff)
    decreases j
  {
    if j > 0 {
      var wait := Wait(backoff, lives[0].ran);
      var next := t + lives[0].ran + wait + lives[0].late;
      GapPays(backoff, lives[0]);
      StartsPay(next, Doubled(wait), lives[1..], j - 1);
      assert Starts(t, backoff, lives)[j] == Starts(next, Doubled(wait), lives[1..])[j - 1];
    }
  }

  lemma {:induction false} WindowPays(t: int, backoff: nat, lives: seq<Life>, i: nat, j: nat)
    requires Reached(backoff) && i <= j < |Starts(t, backoff, lives)|
    ensures 91 * SECOND * (j - i) <= 5 * (Starts(t, backoff, lives)[j] - Starts(t, backoff, lives)[i]) + 300 * SECOND
    decreases i
  {
    if i == 0 {
      StartsPay(t, backoff, lives, j);
    } else {
      var wait := Wait(backoff, lives[0].ran);
      var next := t + lives[0].ran + wait + lives[0].late;
      GapPays(backoff, lives[0]);
      WindowPays(next, Doubled(wait), lives[1..], i - 1, j - 1);
    }
  }

  /**
    Over every pattern of crashes, clean exits and stable lives: `n` starts within `span` of each other satisfy
    91 (n - 1) <= 5 span / second + 300, and so n <= 6 + span / 15 seconds.
   */
  lemma RestartBound(t: int, lives: seq<Life>, i: nat, j: nat)
    requires i <= j < |Starts(t, RESTART_BACKOFF_MIN, lives)|
    ensures var starts := Starts(t, RESTART_BACKOFF_MIN, lives); var span, n := starts[j] - starts[i], j - i + 1;
            91 * SECOND * (n - 1) <= 5 * span + 300 * SECOND && n <= 6 + span / (15 * SECOND)
  {
    WindowPays(t, RESTART_BACKOFF_MIN, lives, i, j);
    var starts := Starts(t, RESTART_BACKOFF_MIN, lives);
    FifteenSeconds(starts[j] - starts[i], j - i + 1);
  }

  lemma FifteenSeconds(span: int, n: int)
    requires n >= 1 && 91 * SECOND * (n - 1) <= 5 * span + 300 * SECOND
    ensures n <= 6 + span / (15 * SECOND)
  {
    var q := span / (15 * SECOND);
    assert span < 15 * SECOND * q + 15 * SECOND;
  }

  // The pattern that restarts most: crash at once until the delay passes 16 seconds, then live just long enough to
  // reset it.
  function Worst(rounds: nat): seq<Life> {
    var crash := Life(0, 0, Never);
    [crash, crash, crash, crash, crash] + WorstRounds(rounds)
  }

  function WorstRounds(rounds: nat): seq<Life> {
    var crash, stable := Life(0, 0, Never), Life(RESTART_STABLE_AFTER, 0, Never);
    if rounds == 0 then [stable] else [stable, crash, crash, crash, crash] + WorstRounds(rounds - 1)
  }

  /** The bound is met with equality, for arbitrarily long windows. */
  lemma RestartBoundIsTight(t: int, rounds: nat)
    ensures var starts := Starts(t, RESTART_BACKOFF_MIN, Worst(rounds)); var n := 6 + 5 * rounds;
            |starts| == n && 91 * SECOND * (n - 1) == 5 * (starts[n - 1] - starts[0]) + 300 * SECOND
  {
    FiveCrashes(t, RESTART_BACKOFF_MIN, WorstRounds(rounds));
    WorstRoundsRun(t + 31 * SECOND, rounds);
  }

  lemma FiveCrashes(t: int, backoff: nat, w: seq<Life>)
    requires backoff == SECOND
    ensures var crash := Life(0, 0, Never);
            Starts(t, backoff, [crash, crash, crash, crash, crash] + w)
            == [t, t + SECOND, t + 3 * SECOND, t + 7 * SECOND, t + 15 * SECOND]
               + Starts(t + 31 * SECOND, 30 * SECOND, w)
  {
    var crash := Life(0, 0, Never);
    assert [crash, crash, crash, crash, crash] + w == [crash] + ([crash, crash, crash, crash] + w);
    OneCrash(t, backoff, [crash, crash, crash, crash] + w);
    FourCrashes(t + SECOND, w);
  }

  lemma FourCrashes(t: int, w: seq<Life>)
    ensures var crash := Life(0, 0, Never);
            Starts(t, 2 * SECOND, [crash, crash, crash, crash] + w)
            == [t, t + 2 * SECOND, t + 6 * SECOND, t + 14 * SECOND] + Starts(t + 30 * SECOND, 30 * SECOND, w)
  {
    var crash := Life(0, 0, Never);
    assert [crash, crash, crash, crash] + w == [crash, crash] + ([crash, crash] + w);
    TwoCrashes(t, 2 * SECOND, [crash, crash] + w);
    TwoCrashes(t + 6 * SECOND, 8 * SECOND, w);
  }

  lemma TwoCrashes(t: int, backoff: nat, w: seq<Life>)
    ensures var crash := Life(0, 0, Never);
            Starts(t, backoff, [crash, crash] + w)
            == [t, t + backoff] + Starts(t + backoff + Doubled(backoff), Doubled(Doubled(backoff)), w)
  {
    var crash := Life(0, 0, Never);
    assert [crash, crash] + w == [crash] + ([crash] + w);
    OneCrash(t, backoff, [crash] + w);
    OneCrash(t + backoff, Doubled(backoff), w);
  }

  lemma OneCrash(t: int, backoff: nat, w: seq<Life>)
    ensures Starts(t, backoff, [Life(0, 0, Never)] + w) == [t] + Starts(t + backoff, Doubled(backoff), w)
  {
    assert ([Life(0, 0, Never)] + w)[1..] == w;
  }

  lemma OneStable(t: int, w: seq<Life>)
    ensures Starts(t, 30 * SECOND, [Life(RESTART_STABLE_AFTER, 0, Never)] + w)
         == [t] + Starts(t + 61 * SECOND, 2 * SECOND, w)
  {
    assert ([Life(RESTART_STABLE_AFTER, 0, Never)] + w)[1..] == w;
  }

  lemma {:induction false} WorstRoundsRun(t: int, rounds: nat)
    ensures var starts := Starts(t, 30 * SECOND, WorstRounds(rounds));
            |starts| == 1 + 5 * rounds && starts[5 * rounds] == t + 91 * SECOND * rounds
    decreases rounds
  {
    var w := WorstRounds(rounds);
    if rounds == 0 {
      assert w[1..] == [];
    } else {
      var rest, crash, stable := WorstRounds(rounds - 1), Life(0, 0, Never), Life(RESTART_STABLE_AFTER, 0, Never);
      assert w == [stable] + ([crash, crash, crash, crash] + rest);
      OneStable(t, [crash, crash, crash, crash] + rest);
      FourCrashes(t + 61 * SECOND, rest);
      WorstRoundsRun(t + 91 * SECOND, rounds - 1);
    }
  }

  /** A child is never given up: after every uncut life the next start comes within 30 seconds and what the timer
      overran. */
  lemma {:induction false} RestartIsPrompt(t: int, backoff: nat, lives: seq<Life>, i: nat)
    requires Reached(backoff) && i + 1 < |lives| && forall k :: 0 <= k <= i ==> lives[k].cut == Never
    ensures i + 1 < |Starts(t, backoff, lives)|
    ensures var ended := Starts(t, backoff, lives)[i] + lives[i].ran;
            ended + RESTART_BACKOFF_MIN <= Starts(t, backoff, lives)[i + 1] - lives[i].late
               <= ended + RESTART_BACKOFF_MAX
    decreases i
  {
    var wait := Wait(backoff, lives[0].ran);
    var next := t + lives[0].ran + wait + lives[0].late;
    GapPays(backoff, lives[0]);
    if i > 0 { RestartIsPrompt(next, Doubled(wait), lives[1..], i - 1); }
  }
}
