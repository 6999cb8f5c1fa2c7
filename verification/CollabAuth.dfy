/**
  The authorization lifetime of a collaboration socket: the read pump validates tokens pushed in-band and hands
  them over a one-slot channel, the auth pump applies them and re-checks the authorization on every tick.

  `Decide` and `Accept` are the two pure decisions, given what the stores and the issuer answer; the two pumps are
  one state machine of atomic steps. The theorems hold for every interleaving of the two.
 */
module CollabAuth {
  import opened Numbers
  import opened Sequences
  import opened Wrappers

  type Uuid = nat

  const CLOSE_REAUTH_REQUIRED: int := 4002
  const CLOSE_SESSION_REVOKED: int := 4001
  const REAUTH_INTERVAL: int := 30 * SECOND

  // What of the connection's authorization a refresh may change.
  datatype Token = Token(issuedAt: int, expiresAt: int, hasExpiry: bool, sessionId: string, raw: string)

  // Fixed at the upgrade.
  datatype Principal = Principal(workspace: Uuid, user: Uuid, userAgent: string, clientIp: string)

  datatype AuthState = AuthState(principal: Principal, token: Token)

  // ---------------------------------------------------------------- the periodic check

  datatype RevocationAnswer = Revoked | NotRevoked | StoreError
  datatype SessionAnswer = Valid | SessionNotFound | SessionAnomaly | SessionError
  datatype IssuerAnswer = Verified | Unavailable | Rejected

  // What the configured checkers would answer; None where none is wired.
  datatype Answers = Answers(checker: Option<RevocationAnswer>, validator: Option<SessionAnswer>,
                             reverifier: Option<IssuerAnswer>)

  datatype Decision = Holds | Transient | Close(code: int, reason: string)

  // Expiry first, then revocation, session, issuer; the first to object decides.
  function Decide(st: AuthState, now: int, a: Answers): Decision {
    if st.token.hasExpiry && now > st.token.expiresAt then Close(CLOSE_REAUTH_REQUIRED, "token expired")
    else if a.checker == Some(StoreError) then Transient
    else if a.checker == Some(Revoked) then Close(CLOSE_SESSION_REVOKED, "session revoked")
    else
      var session := if st.token.sessionId != "" then a.validator else None;
      if session == Some(SessionNotFound) then Close(CLOSE_SESSION_REVOKED, "session revoked")
      else if session == Some(SessionAnomaly) then Close(CLOSE_SESSION_REVOKED, "device changed")
      else if session == Some(SessionError) then Transient
      else
        var issuer := if st.token.raw != "" then a.reverifier else None;
        if issuer == Some(Unavailable) then Transient
        else if issuer == Some(Rejected) then Close(CLOSE_REAUTH_REQUIRED, "token reverification failed")
        else Holds
  }

  predicate Expired(t: Token, now: int) {
    t.hasExpiry && now > t.expiresAt
  }

  // Some store or the issuer could not answer.
  ghost predicate Outage(a: Answers) {
    a.checker == Some(StoreError) || a.validator == Some(SessionError) || a.reverifier == Some(Unavailable)
  }

  // What the checkers object, each by itself.
  ghost predicate NotListed(a: Answers) {
    a.checker == None || a.checker == Some(NotRevoked)
  }

  ghost predicate SessionSays(t: Token, a: Answers, answer: SessionAnswer) {
    t.sessionId != "" && a.validator == Some(answer)
  }

  ghost predicate SessionStands(t: Token, a: Answers) {
    t.sessionId == "" || a.validator == None || a.validator == Some(Valid)
  }

  ghost predicate IssuerSays(t: Token, a: Answers, answer: IssuerAnswer) {
    t.raw != "" && a.reverifier == Some(answer)
  }

  /** What each outcome means, to the reason it is closed with. An expired token closes whatever the stores answer; an
      outage alone never closes, and a check that ends in a transient error had no definite objection before it;
      permanent closing needs a definite answer that the session is revoked, gone or on another device; holding means
      nothing objected. */
  lemma DecisionMeans(st: AuthState, now: int, a: Answers)
    ensures var d, t := Decide(st, now, a), st.token;
            var expired, listed := t.hasExpiry && now > t.expiresAt, !NotListed(a);
            && (d == Close(4002, "token expired") <==> expired)
            && (d == Close(4001, "session revoked") <==>
                  !expired && (a.checker == Some(Revoked) || (!listed && SessionSays(t, a, SessionNotFound))))
            && (d == Close(4001, "device changed") <==> !expired && !listed && SessionSays(t, a, SessionAnomaly))
            && (d == Close(4002, "token reverification failed") <==>
                  !expired && !listed && SessionStands(t, a) && IssuerSays(t, a, Rejected))
            && (d.Transient? <==>
                  !expired && (|| a.checker == Some(StoreError)
                               || (!listed && SessionSays(t, a, SessionError))
                               || (!listed && SessionStands(t, a) && IssuerSays(t, a, Unavailable))))
            && (d.Holds? <==>
                  && !expired && !listed && SessionStands(t, a)
                  && (t.raw == "" || a.reverifier == None || a.reverifier == Some(Verified)))
            && (d.Transient? ==> Outage(a))
  {
    if a.checker.Some? { match a.checker.value { case Revoked => case NotRevoked => case StoreError => } }
    if a.validator.Some? {
      match a.validator.value { case Valid => case SessionNotFound => case SessionAnomaly => case SessionError => }
    }
    if a.reverifier.Some? { match a.reverifier.value { case Verified => case Unavailable => case Rejected => } }
    DifferentReasons();
  }

  lemma DifferentReasons()
    ensures "token expired" != "session revoked" && "token expired" != "device changed"
    ensures "token expired" != "token reverification failed" && "session revoked" != "device changed"
    ensures "session revoked" != "token reverification failed" && "device changed" != "token reverification failed"
  {
    assert |"token expired"| == 13 && |"session revoked"| == 15 && |"device changed"| == 14;
    assert |"token reverification failed"| == 27;
  }

  // ---------------------------------------------------------------- accepting a pushed token

  // What the refresher makes of a raw token: an error, or a token of some principal.
  datatype Validated =
    | Invalid
    | For(workspace: Uuid, user: Uuid, issuedAt: int, expiresAt: int, hasExpiry: bool, sessionId: string)

  function Accept(p: Principal, raw: string, v: Validated): Option<Token> {
    if raw == "" then None
    else match v
      case Invalid => None
      case For(ws, user, issuedAt, expiresAt, hasExpiry, sessionId) =>
        if ws != p.workspace || user != p.user then None
        else Some(Token(issuedAt, expiresAt, hasExpiry, sessionId, raw))
  }

  function ApplyRefresh(st: AuthState, t: Token): AuthState {
    st.(token := t)
  }

  // ---------------------------------------------------------------- the two pumps

  // The read pump is idle, has found a pushed token good, or has emptied the slot and is about to send.
  datatype ReadPump = Idle | Checked(good: Token) | Drained(pending: Token)

  // `accepted` and `applied` record, in order, the tokens the read pump began to hand over and the auth pump applied;
  // `closedWith` is the decision that closed the socket.
  datatype Socket = Socket(st: AuthState, slot: Option<Token>, reader: ReadPump, closedWith: Option<Decision>,
                           accepted: seq<Token>, applied: seq<Token>)

  datatype Step =
    | Push(raw: string, v: Validated)   // a frame is validated
    | Drain                             // a stale pending token, if any, is drained
    | Send                              // the non-blocking send that follows
    | Receive                           // the auth pump takes the slot
    | Tick(now: int, a: Answers)        // the auth pump re-checks

  ghost predicate Enabled(s: Socket, step: Step) {
    match step
    case Push(_, _) => s.reader.Idle?
    case Drain => s.reader.Checked?
    case Send => s.reader.Drained?
    case Receive => s.slot.Some? && s.closedWith.None?
    case Tick(_, _) => s.closedWith.None?
  }

  function Next(s: Socket, step: Step): Socket
    requires Enabled(s, step)
  {
    match step
    case Push(raw, v) =>
      (match Accept(s.st.principal, raw, v)
       case None => s
       case Some(t) => s.(reader := Checked(t)))
    case Drain => s.(slot := None, reader := Drained(s.reader.good), accepted := s.accepted + [s.reader.good])
    case Send => s.(slot := if s.slot.None? then Some(s.reader.pending) else s.slot, reader := Idle)
    case Receive => s.(slot := None, st := ApplyRefresh(s.st, s.slot.value), applied := s.applied + [s.slot.value])
    case Tick(now, a) =>
      var d := Decide(s.st, now, a);
      if d.Close? then s.(closedWith := Some(d)) else s
  }

  function Start(st: AuthState): Socket {
    Socket(st, None, Idle, None, [], [])
  }

  ghost predicate Runs(s: Socket, steps: seq<Step>)
    decreases |steps|
  {
    steps == [] || (Enabled(s, steps[0]) && Runs(Next(s, steps[0]), steps[1..]))
  }

  function After(s: Socket, steps: seq<Step>): Socket
    requires Runs(s, steps)
    decreases |steps|
  {
    if steps == [] then s else After(Next(s, steps[0]), steps[1..])
  }

  // ---------------------------------------------------------------- the hand-off

  ghost function Newest(s: Socket): Token
    requires s.accepted != []
  {
    s.accepted[|s.accepted| - 1]
  }

  // The newest accepted token is about to be sent, or in the slot, or the last one applied; between draining and
  // sending the slot is empty; and tokens are applied in the order they were accepted.
  ghost predicate HandOff(s: Socket) {
    && (s.reader.Drained? ==> s.slot.None? && s.accepted != [] && s.reader.pending == Newest(s))
    && (!s.reader.Drained? && s.accepted != [] ==>
          s.slot == Some(Newest(s)) || (s.slot.None? && s.applied != [] && s.applied[|s.applied| - 1] == Newest(s)))
    && (s.slot.Some? ==> s.accepted != [] && s.slot.value == Newest(s))
    && InOrder(s)
    && (s.applied != [] ==> s.st.token == s.applied[|s.applied| - 1])
  }

  // The newest accepted token, while it is still to come, is not among those applied.
  ghost predicate InOrder(s: Socket) {
    if ToCome(s) then s.accepted != [] && Subsequence(s.applied, s.accepted[..|s.accepted| - 1])
    else Subsequence(s.applied, s.accepted)
  }

  predicate ToCome(s: Socket) {
    s.reader.Drained? || s.slot.Some?
  }

  // Without the newest, or with it.
  lemma AppliedInOrder(s: Socket)
    requires InOrder(s)
    ensures Subsequence(s.applied, s.accepted)
    ensures ToCome(s) ==> Subsequence(s.applied + [Newest(s)], s.accepted)
  {
    if ToCome(s) {
      SubsequenceAppend(s.applied, s.accepted[..|s.accepted| - 1], Newest(s));
      assert s.accepted[..|s.accepted| - 1] + [Newest(s)] == s.accepted;
    }
  }

  lemma DrainStep(s: Socket)
    requires HandOff(s) && Enabled(s, Drain)
    ensures HandOff(Next(s, Drain))
  {
    AppliedInOrder(s);
    assert Next(s, Drain).accepted[..|s.accepted|] == s.accepted;
  }

  lemma ReceiveStep(s: Socket)
    requires HandOff(s) && Enabled(s, Receive)
    ensures HandOff(Next(s, Receive))
  {
    AppliedInOrder(s);
  }

  lemma HandOffStep(s: Socket, step: Step)
    requires HandOff(s) && Enabled(s, step)
    ensures HandOff(Next(s, step))
    ensures step.Send? ==> Next(s, step).slot == Some(Newest(s))
  {
    match step {
      case Drain => DrainStep(s);
      case Receive => ReceiveStep(s);
      case _ => assert ToCome(Next(s, step)) == ToCome(s);
    }
  }

  /** Under every interleaving the hand-off loses nothing that matters: whenever the read pump is not in the middle of
      it, the newest token handed over is in the slot or is the one being enforced, and the tokens applied so far are a
      selection of the accepted ones in order. */
  lemma {:induction false} HandOffHolds(s: Socket, steps: seq<Step>)
    requires HandOff(s) && Runs(s, steps)
    ensures HandOff(After(s, steps))
    decreases |steps|
  {
    if steps != [] {
      HandOffStep(s, steps[0]);
      HandOffHolds(Next(s, steps[0]), steps[1..]);
    }
  }

  lemma NewestIsNeverLost(st: AuthState, steps: seq<Step>)
    requires Runs(Start(st), steps)
    ensures var s := After(Start(st), steps);
            && Subsequence(s.applied, s.accepted)
            && (!s.reader.Drained? && s.accepted != [] ==> s.slot == Some(Newest(s)) || s.st.token == Newest(s))
            && (s.applied == [] ==> s.accepted == [] || s.slot.Some? || s.reader.Drained?)
  {
    HandOffHolds(Start(st), steps);
    AppliedInOrder(After(Start(st), steps));
  }

  // ---------------------------------------------------------------- authorization over a run

  /** A pushed token is accepted exactly when it is non-empty, valid and of the socket's own principal; a rejected
      one changes nothing at all. */
  lemma RejectionChangesNothing(s: Socket, raw: string, v: Validated)
    requires s.reader.Idle?
    ensures var s' := Next(s, Push(raw, v));
            var good := raw != "" && v.For? && v.workspace == s.st.principal.workspace && v.user == s.st.principal.user;
            && (!good ==> s' == s)
            && (good ==> s' == s.(reader := Checked(Token(v.issuedAt, v.expiresAt, v.hasExpiry, v.sessionId, raw)))
                         && Next(s', Drain).accepted == s.accepted + [s'.reader.good])
  {
  }

  // What holds of every socket reached: still the same principal, and closed only by a closing decision.
  lemma {:induction false} PrincipalIsFixed(s: Socket, steps: seq<Step>)
    requires Runs(s, steps)
    ensures After(s, steps).st.principal == s.st.principal
    ensures s.closedWith.Some? ==> After(s, steps).closedWith == s.closedWith && After(s, steps).st == s.st
    decreases |steps|
  {
    if steps != [] { PrincipalIsFixed(Next(s, steps[0]), steps[1..]); }
  }

  // Some tick of the run closed the socket, and it was a definite decision, never an outage.
  lemma {:induction false} OnlyDecisionsClose(s: Socket, steps: seq<Step>)
    requires s.closedWith.None? && Runs(s, steps) && After(s, steps).closedWith.Some?
    ensures exists i :: 0 <= i < |steps| && steps[i].Tick? && Runs(s, steps[..i])
              && After(s, steps).closedWith == Some(Decide(After(s, steps[..i]).st, steps[i].now, steps[i].a))
              && Decide(After(s, steps[..i]).st, steps[i].now, steps[i].a).Close?
    decreases |steps|
  {
    var s' := Next(s, steps[0]);
    if s'.closedWith.Some? {
      PrincipalIsFixed(s', steps[1..]);
      assert steps[..0] == [];
    } else {
      OnlyDecisionsClose(s', steps[1..]);
      var i :| 0 <= i < |steps[1..]| && steps[1..][i].Tick? && Runs(s', steps[1..][..i])
        && After(s', steps[1..]).closedWith == Some(
               Decide(After(s', steps[1..][..i]).st, steps[1..][i].now, steps[1..][i].a))
        && Decide(After(s', steps[1..][..i]).st, steps[1..][i].now, steps[1..][i].a).Close?;
      assert steps[..i + 1][1..] == steps[1..][..i] && steps[..i + 1][0] == steps[0];
      assert steps[i + 1] == steps[1..][i];
    }
  }

  // ---------------------------------------------------------------- how long a socket lives

  // A step and when it happens.
  datatype Timed = Timed(at: int, step: Step)

  // A socket with its clock: the time of the last step and of the last tick (at first, of the upgrade), when the token
  // last found good was validated, when the newest token handed over was, and by how much the enforced token had missed
  // the last tick: no tick has checked it yet, and it had been validated that long before the last one, which still
  // found its predecessor.
  datatype Life = Life(socket: Socket, clock: int, lastTick: int, checkedAt: int, acceptedAt: int, missed: int)

  function Opened(st: AuthState, at: int): Life {
    Life(Start(st), at, at, at, at, 0)
  }

  // Steps happen in the order of time. While the socket is open, ticks are never more than one interval apart; and a
  // pushed token that is valid has not expired when it is validated.
  ghost predicate Happens(l: Life, t: Timed) {
    && Enabled(l.socket, t.step)
    && l.clock <= t.at && (l.socket.closedWith.None? ==> t.at <= l.lastTick + REAUTH_INTERVAL)
    && (t.step.Tick? ==> t.step.now == t.at)
    && (t.step.Push? && t.step.v.For? && t.step.v.hasExpiry ==> t.at <= t.step.v.expiresAt)
  }

  function Lived(l: Life, t: Timed): Life
    requires Enabled(l.socket, t.step)
  {
    var s := Next(l.socket, t.step);
    Life(s, t.at,
         if t.step.Tick? then t.at else l.lastTick,
         if t.step.Push? then t.at else l.checkedAt,
         if t.step.Drain? then l.checkedAt else l.acceptedAt,
         match t.step
         case Receive => if l.lastTick > l.acceptedAt then l.lastTick - l.acceptedAt else 0
         case Tick(_, _) => 0
         case _ => l.missed)
  }

  ghost predicate Lives(l: Life, ts: seq<Timed>)
    decreases |ts|
  {
    ts == [] || (Happens(l, ts[0]) && Lives(Lived(l, ts[0]), ts[1..]))
  }

  function AfterLife(l: Life, ts: seq<Timed>): Life
    requires Lives(l, ts)
    decreases |ts|
  {
    if ts == [] then l else AfterLife(Lived(l, ts[0]), ts[1..])
  }

  // A token that is to come, in the slot or about to be sent, was unexpired when accepted, and the enforced one was
  // unexpired at the last tick less what it missed it by.
  ghost predicate LifeOk(l: Life) {
    HandOff(l.socket) && TimesOk(l)
  }

  ghost predicate TimesOk(l: Life) {
    && l.lastTick <= l.clock && l.checkedAt <= l.clock && l.acceptedAt <= l.clock
    && (l.socket.reader.Checked? && l.socket.reader.good.hasExpiry ==> l.checkedAt <= l.socket.reader.good.expiresAt)
    && l.missed >= 0 && (l.missed > 0 ==> l.socket.applied != [])
    && (l.socket.accepted != [] && Newest(l.socket).hasExpiry ==> l.acceptedAt <= Newest(l.socket).expiresAt)
    && (l.socket.closedWith.None? ==> !Expired(l.socket.st.token, l.lastTick - l.missed))
  }

  // A step's times, given what the hand-off keeps of the slot.
  lemma TimesStep(l: Life, t: Timed)
    requires TimesOk(l) && Happens(l, t)
    requires l.socket.slot.Some? ==> l.socket.accepted != [] && l.socket.slot.value == Newest(l.socket)
    ensures TimesOk(Lived(l, t))
  {
    match t.step {
      case Tick(now, a) => DecisionMeans(l.socket.st, now, a);
      case _ =>
    }
  }

  lemma LifeStep(l: Life, t: Timed)
    requires LifeOk(l) && Happens(l, t)
    ensures LifeOk(Lived(l, t))
  {
    HandOffStep(l.socket, t.step);
    TimesStep(l, t);
  }

  lemma {:induction false} LifeHolds(l: Life, ts: seq<Timed>)
    requires LifeOk(l) && Lives(l, ts)
    ensures LifeOk(AfterLife(l, ts))
    decreases |ts|
  {
    if ts != [] {
      LifeStep(l, ts[0]);
      LifeHolds(Lived(l, ts[0]), ts[1..]);
    }
  }

  /**
    Over every run of pushes, hand-offs, ticks and outages: a socket that is open at `now`, with no tick overdue,
    enforces a token that expired at most one interval ago, and what the token missed the last tick by. So it outlives
    by at most one interval a token that a tick has checked, that was accepted since the last tick, or that it opened
    with, whatever the stores answer.
   */
  lemma NoSocketOutlivesItsToken(st: AuthState, start: int, ts: seq<Timed>, now: int)
    requires !Expired(st.token, start) && Lives(Opened(st, start), ts)
    requires var l := AfterLife(Opened(st, start), ts); l.clock <= now <= l.lastTick + REAUTH_INTERVAL
    ensures var l := AfterLife(Opened(st, start), ts);
            && l.missed >= 0
            && (l.socket.closedWith.None? ==> !Expired(l.socket.st.token, now - 30 * SECOND - l.missed))
            && (l.missed > 0 ==>
                  l.socket.applied != [] && l.socket.st.token == l.socket.applied[|l.socket.applied| - 1])
            && (l.socket.applied == [] ==> l.socket.st == st)
  {
    LifeHolds(Opened(st, start), ts);
    UntouchedToken(Opened(st, start), ts);
  }

  lemma {:induction false} UntouchedToken(l: Life, ts: seq<Timed>)
    requires Lives(l, ts)
    ensures |AfterLife(l, ts).socket.applied| >= |l.socket.applied|
    ensures AfterLife(l, ts).socket.applied == l.socket.applied ==> AfterLife(l, ts).socket.st == l.socket.st
    decreases |ts|
  {
    if ts != [] { UntouchedToken(Lived(l, ts[0]), ts[1..]); }
  }

  // A tick later than the expiry of the token it finds enforced closes the socket, for good.
  lemma ExpiredTickCloses(l: Life, at: int, a: Answers, ts: seq<Timed>)
    requires Happens(l, Timed(at, Tick(at, a))) && Expired(l.socket.st.token, at)
    requires Lives(Lived(l, Timed(at, Tick(at, a))), ts)
    ensures AfterLife(Lived(l, Timed(at, Tick(at, a))), ts).socket.closedWith ==
      Some(Close(CLOSE_REAUTH_REQUIRED, "token expired"))
  {
    StaysClosed(Lived(l, Timed(at, Tick(at, a))), ts);
  }

  lemma {:induction false} StaysClosed(l: Life, ts: seq<Timed>)
    requires Lives(l, ts) && l.socket.closedWith.Some?
    ensures AfterLife(l, ts).socket.closedWith == l.socket.closedWith
    decreases |ts|
  {
    if ts != [] { StaysClosed(Lived(l, ts[0]), ts[1..]); }
  }

  // Expired more than one interval ago.
  predicate LongExpired(t: Token, now: int) {
    Expired(t, now - REAUTH_INTERVAL)
  }

  // An open socket outlives its enforced token by no more than one interval, until the next tick is due.
  ghost predicate OneInterval(l: Life) {
    l.socket.closedWith.None? ==>
      forall now :: l.clock <= now <= l.lastTick + REAUTH_INTERVAL ==> !LongExpired(l.socket.st.token, now)
  }

  ghost predicate AlwaysOneInterval(l: Life, ts: seq<Timed>)
    requires Lives(l, ts)
    decreases |ts|
  {
    OneInterval(l) && (ts != [] ==> AlwaysOneInterval(Lived(l, ts[0]), ts[1..]))
  }

  // No token is received that had expired by the last tick already.
  ghost predicate NoneReceivedLate(l: Life, ts: seq<Timed>)
    requires Lives(l, ts)
    decreases |ts|
  {
    ts != [] ==>
      && (ts[0].step.Receive? ==> !Expired(l.socket.slot.value, l.lastTick))
      && NoneReceivedLate(Lived(l, ts[0]), ts[1..])
  }

  /** Over every run: a socket always keeps to one interval if and only if no token is received that had expired by the
      last tick already. */
  lemma {:induction false} OneIntervalExactly(l: Life, ts: seq<Timed>)
    requires LifeOk(l) && Lives(l, ts) && OneInterval(l)
    requires l.socket.closedWith.None? ==> l.clock <= l.lastTick + REAUTH_INTERVAL
    ensures AlwaysOneInterval(l, ts) <==> NoneReceivedLate(l, ts)
    decreases |ts|
  {
    if ts != [] {
      var l' := Lived(l, ts[0]);
      LifeStep(l, ts[0]);
      OneIntervalStep(l, ts[0]);
      if OneInterval(l') { OneIntervalExactly(l', ts[1..]); }
    }
  }

  lemma OneIntervalMeans(l: Life)
    requires l.socket.closedWith.None? ==> l.clock <= l.lastTick + REAUTH_INTERVAL
    ensures OneInterval(l) <==> (l.socket.closedWith.None? ==> !Expired(l.socket.st.token, l.lastTick))
  {
    if l.socket.closedWith.None? && OneInterval(l) {
      var due := l.lastTick + REAUTH_INTERVAL;
      assert !LongExpired(l.socket.st.token, due);
    }
  }

  // Receiving a token is the only step after which a socket may no longer keep to one interval.
  lemma OneIntervalStep(l: Life, t: Timed)
    requires LifeOk(l) && Happens(l, t) && OneInterval(l)
    requires l.socket.closedWith.None? ==> l.clock <= l.lastTick + REAUTH_INTERVAL
    ensures var l' := Lived(l, t);
            && (l'.socket.closedWith.None? ==> l'.clock <= l'.lastTick + REAUTH_INTERVAL)
            && (OneInterval(l') <==> (t.step.Receive? ==> !Expired(l.socket.slot.value, l.lastTick)))
  {
    OneIntervalMeans(l);
    OneIntervalMeans(Lived(l, t));
    match t.step {
      case Tick(now, a) => DecisionMeans(l.socket.st, now, a);
      case _ =>
    }
  }

  // A run that leaves the socket open until the next tick, an interval and `more` after its token expired.
  ghost predicate OutlivesBy(l: Life, ts: seq<Timed>, more: int) {
    && Lives(l, ts)
    && var f := AfterLife(l, ts);
       && f.socket.closedWith.None? && f.missed == more && f.socket.st.token.hasExpiry
       && f.lastTick + REAUTH_INTERVAL == f.socket.st.token.expiresAt + REAUTH_INTERVAL + more
  }

  /** The time in the slot cannot be left out: for every wait across a tick, up to an interval, there is a run whose
      socket is open exactly that much, and an interval, after its token expired. */
  lemma WaitingCounts(p: Principal, wait: int)
    requires 0 <= wait <= REAUTH_INTERVAL
    ensures exists ts :: OutlivesBy(Opened(AuthState(p, Token(0, 0, false, "", "")), 0), ts, wait)
  {
    var pushed := REAUTH_INTERVAL - wait;
    var l0 := Opened(AuthState(p, Token(0, 0, false, "", "")), 0);
    var token := Token(0, pushed, true, "", "raw");
    var push := Timed(pushed, Push("raw", For(p.workspace, p.user, 0, pushed, true, "")));
    var send := Timed(pushed, Send);
    var tick := Timed(REAUTH_INTERVAL, Tick(REAUTH_INTERVAL, Answers(None, None, None)));
    var receive := Timed(REAUTH_INTERVAL, Receive);
    var l1 := Lived(l0, push);
    assert l1.socket.reader == Checked(token) && l1.checkedAt == pushed by { assert "raw" != ""; }
    var drain := Timed(pushed, Drain);
    var d := Lived(l1, drain);
    var l2 := Lived(d, send);
    var l3 := Lived(l2, tick);
    assert l2.socket.slot == Some(token) && l3 == l2.(clock := REAUTH_INTERVAL, lastTick := REAUTH_INTERVAL);
    var l4 := Lived(l3, receive);
    assert l4.socket.st.token == token && l4.missed == wait && AfterLife(l4, []) == l4;
    var ts := LivesLonger(l3, receive, []);
    ts := LivesLonger(l2, tick, ts);
    ts := LivesLonger(d, send, ts);
    ts := LivesLonger(l1, drain, ts);
    ts := LivesLonger(l0, push, ts);
    assert OutlivesBy(l0, ts, wait);
  }

  lemma LivesLonger(l: Life, t: Timed, ts: seq<Timed>) returns (r: seq<Timed>)
    requires Happens(l, t) && Lives(Lived(l, t), ts)
    ensures r == [t] + ts && Lives(l, r) && AfterLife(l, r) == AfterLife(Lived(l, t), ts)
  {
    r := [t] + ts;
    assert r[1..] == ts;
  }

  // ---------------------------------------------------------------- the two pumps in place

  class CollabSocket {
    var st: AuthState
    var slot: Option<Token>

    constructor (st: AuthState)
      ensures this.st == st && slot == None
    {
      this.st, slot := st, None;
    }

    // The read pump's turn on a pushed token, undisturbed: drain a stale pending one, then send.
    method Push(raw: string, v: Validated) returns (accepted: bool)
      modifies this`slot
      ensures var r := Accept(st.principal, raw, v);
              accepted == r.Some? && slot == if r.Some? then r else old(slot)
    {
      match Accept(st.principal, raw, v) {
        case None => accepted := false;
        case Some(t) =>
          accepted := true;
          if slot.Some? { slot := None; }
          if slot.None? { slot := Some(t); }
      }
    }

    // The auth pump's receive: empties the slot and advances everything but the principal.
    method Receive()
      requires slot.Some?
      modifies this
      ensures slot == None && st == AuthState(old(st).principal, old(slot).value)
    {
      st := st.(token := slot.value);
      slot := None;
    }

    // The auth pump's tick; the stores are asked in order and only as far as needed.
    method Tick(now: int, a: Answers) returns (d: Decision)
      ensures d == Decide(st, now, a)
    {
      if st.token.hasExpiry && now > st.token.expiresAt { return Close(CLOSE_REAUTH_REQUIRED, "token expired"); }
      if a.checker.Some? {
        match a.checker.value {
          case StoreError => return Transient;
          case Revoked => return Close(CLOSE_SESSION_REVOKED, "session revoked");
          case NotRevoked =>
        }
      }
      if a.validator.Some? && st.token.sessionId != "" {
        match a.validator.value {
          case Valid =>
          case SessionNotFound => return Close(CLOSE_SESSION_REVOKED, "session revoked");
          case SessionAnomaly => return Close(CLOSE_SESSION_REVOKED, "device changed");
          case SessionError => return Transient;
        }
      }
      if a.reverifier.Some? && st.token.raw != "" {
        match a.reverifier.value {
          case Verified =>
          case Unavailable => return Transient;
          case Rejected => return Close(CLOSE_REAUTH_REQUIRED, "token reverification failed");
        }
      }
      return Holds;
    }
  }
}
