/**
  Upload confirmation: concurrent, retried and interrupted confirm requests over one database.

  `ConfirmVersion` is the atomic transaction. A request is a thread of atomic steps that any other request, a file
  deletion or a crash may interleave; the theorems are about every such run, from any initial database.
 */
module UploadConfirm {
  import opened Wrappers

  type Id = nat

  // Size and current version follow the last fresh confirm; `live` is false once soft-deleted.
  datatype File = File(workspace: Id, live: bool, current: Option<Id>, size: int)

  datatype Version = Version(file: Id, objectKey: string, size: int)

  datatype Database = Database(files: map<Id, File>, versions: map<Id, Version>)

  // What a confirm names; the version id is the one embedded in the object key.
  datatype Request = Request(workspace: Id, file: Id, version: Id, objectKey: string, size: int)

  // ---------------------------------------------------------------- the database operations

  predicate FileVisible(db: Database, workspace: Id, file: Id) {
    file in db.files && db.files[file].workspace == workspace && db.files[file].live
  }

  // The replay probe: the row exists, is visible in the workspace, and is of this file.
  predicate IsReplay(db: Database, r: Request) {
    && r.version in db.versions
    && FileVisible(db, r.workspace, db.versions[r.version].file)
    && db.versions[r.version].file == r.file
  }

  datatype Confirmed = Fresh | Replayed | NotFound | VersionConflict

  // The transaction: insert unless the id exists; only a fresh insert moves the file on.
  function ConfirmVersion(db: Database, r: Request): (Database, Confirmed) {
    if !FileVisible(db, r.workspace, r.file) then (db, NotFound)
    else if r.version in db.versions then
      var row := db.versions[r.version];
      (db, if row.file != r.file || row.objectKey != r.objectKey then VersionConflict else Replayed)
    else
      (Database(db.files[r.file := db.files[r.file].(current := Some(r.version), size := r.size)],
                db.versions[r.version := Version(r.file, r.objectKey, r.size)]), Fresh)
  }

  // ---------------------------------------------------------------- threads

  datatype Status =
    | Succeeded | FileMissing | ProbeFailed | OverQuota | Conflict | ConfirmFailed | ReloadFailed | Crashed

  // Where a request stands; `next` is the side effect due next, `ran` how many a request that ended has run.
  datatype Phase =
    | Fetched
    | Probed(replay: bool)
    | Cleared
    | Committed(inserted: bool)
    | Running(inserted: bool, next: nat)
    | Done(status: Status, ran: nat)

  function Ended(status: Status): Phase {
    Done(status, 0)
  }

  // How many side effects a request at this point has run.
  function Ran(p: Phase): nat {
    match p
    case Running(_, next) => next
    case Done(_, ran) => ran
    case _ => 0
  }

  // The side effects of a fresh confirm, in order.
  datatype Effect = Activity | Billing | Jobs | Webhook
  const EFFECTS: seq<Effect> := [Activity, Billing, Jobs, Webhook]

  datatype Thread = Thread(request: Request, phase: Phase)

  // `ledger` counts the side effects that ran, per version; `owner` records which thread inserted a version.
  datatype State = State(db: Database, threads: seq<Thread>, ledger: multiset<(Id, Effect)>, owner: map<Id, nat>)

  // How the confirm transaction ends for its caller: normally, rolled back, or committed with the answer lost.
  datatype Ending = Answered | RolledBack | AnswerLost

  datatype Step =
    | Begin(request: Request)
    | Probe(i: nat, fails: bool)
    | Quota(i: nat, within: bool)
    | Confirm(i: nat, ending: Ending)
    | Reload(i: nat, fails: bool)
    | RunEffect(i: nat)
    | Crash(i: nat)
    | Delete(file: Id)

  function PhaseOf(s: State, i: nat): Phase {
    if i < |s.threads| then s.threads[i].phase else Ended(Crashed)
  }

  ghost predicate Enabled(s: State, st: Step) {
    match st
    case Begin(_) => true
    case Probe(i, _) => PhaseOf(s, i) == Fetched
    case Quota(i, _) => PhaseOf(s, i) == Probed(false)
    case Confirm(i, _) => PhaseOf(s, i) == Cleared || PhaseOf(s, i) == Probed(true)
    case Reload(i, _) => PhaseOf(s, i).Committed?
    case RunEffect(i) => PhaseOf(s, i).Running?
    case Crash(i) => !PhaseOf(s, i).Done?
    case Delete(file) => file in s.db.files
  }

  function Move(s: State, i: nat, p: Phase): State
    requires i < |s.threads|
  {
    s.(threads := s.threads[i := s.threads[i].(phase := p)])
  }

  function ConfirmStep(s: State, i: nat, ending: Ending): State
    requires i < |s.threads|
  {
    var r := s.threads[i].request;
    if ending == RolledBack then Move(s, i, Ended(ConfirmFailed))
    else
      var (db, outcome) := ConfirmVersion(s.db, r);
      var s' := s.(db := db, owner := if outcome == Fresh then s.owner[r.version := i] else s.owner);
      Move(s', i,
           if outcome == NotFound then Ended(FileMissing)
           else if outcome == VersionConflict then Ended(Conflict)
           else if ending == AnswerLost then Ended(ConfirmFailed)
           else Committed(outcome == Fresh))
  }

  function Next(s: State, st: Step): State
    requires Enabled(s, st)
  {
    match st
    case Begin(r) =>
      var phase := if FileVisible(s.db, r.workspace, r.file) then Fetched else Ended(FileMissing);
      s.(threads := s.threads + [Thread(r, phase)])
    case Probe(i, fails) =>
      Move(s, i, if fails then Ended(ProbeFailed) else Probed(IsReplay(s.db, s.threads[i].request)))
    case Quota(i, within) => Move(s, i, if within then Cleared else Ended(OverQuota))
    case Confirm(i, ending) => ConfirmStep(s, i, ending)
    case Reload(i, fails) =>
      var r := s.threads[i].request;
      Move(s, i, if fails || !FileVisible(s.db, r.workspace, r.file) then Ended(ReloadFailed)
                 else Running(PhaseOf(s, i).inserted, 0))
    case RunEffect(i) =>
      var p := PhaseOf(s, i);
      if p.inserted && p.next < |EFFECTS| then
        Move(s, i, Running(true, p.next + 1))
        .(ledger := s.ledger + multiset{(s.threads[i].request.version, EFFECTS[p.next])})
      else Move(s, i, Done(Succeeded, p.next))
    case Crash(i) => Move(s, i, Done(Crashed, Ran(PhaseOf(s, i))))
    case Delete(file) => s.(db := s.db.(files := s.db.files[file := s.db.files[file].(live := false)]))
  }

  ghost predicate Runs(s: State, steps: seq<Step>)
    decreases |steps|
  {
    steps == [] || (Enabled(s, steps[0]) && Runs(Next(s, steps[0]), steps[1..]))
  }

  function After(s: State, steps: seq<Step>): State
    requires Runs(s, steps)
    decreases |steps|
  {
    if steps == [] then s else After(Next(s, steps[0]), steps[1..])
  }

  function Start(db: Database): State {
    State(db, [], multiset{}, map[])
  }

  // ---------------------------------------------------------------- what every step keeps

  // A thread that inserted its version and has not answered yet.
  ghost predicate Owes(p: Phase) {
    (p.Committed? && p.inserted) || (p.Running? && p.inserted)
  }

  // How many of its side effects an owner has run.
  ghost predicate RanUpTo(s: State, v: Id, n: nat) {
    forall k :: 0 <= k < |EFFECTS| ==> s.ledger[(v, EFFECTS[k])] == if k < n then 1 else 0
  }

  // The ledger of an inserted version is what its owner has run.
  ghost predicate OwnerOk(s: State, v: Id)
    requires v in s.owner
  {
    && v in s.db.versions && s.owner[v] < |s.threads| && s.threads[s.owner[v]].request.version == v
    && match s.threads[s.owner[v]].phase
       case Committed(inserted) => inserted && RanUpTo(s, v, 0)
       case Running(inserted, next) => inserted && next <= |EFFECTS| && RanUpTo(s, v, next)
       case Done(status, ran) => ran <= |EFFECTS| && RanUpTo(s, v, ran) && (status == Succeeded ==> ran == |EFFECTS|)
       case _ => false
  }

  ghost predicate LedgerOk(s: State) {
    && (forall v <- s.owner :: OwnerOk(s, v))
    && (forall v: Id :: v !in s.owner ==> RanUpTo(s, v, 0))
    && (forall i :: 0 <= i < |s.threads| && Owes(s.threads[i].phase) ==>
          s.threads[i].request.version in s.owner && s.owner[s.threads[i].request.version] == i)
  }

  // Steps of other threads and of other versions leave an owner alone.
  lemma LedgerStep(s: State, st: Step)
    requires LedgerOk(s) && Enabled(s, st)
    ensures LedgerOk(Next(s, st))
  {
    var s' := Next(s, st);
    forall v | v in s'.owner ensures OwnerOk(s', v) { OwnerStep(s, st, v); }
    forall v: Id | v !in s'.owner ensures RanUpTo(s', v, 0) { UnownedStep(s, st, v); }
    forall i | 0 <= i < |s'.threads| && Owes(s'.threads[i].phase)
      ensures s'.threads[i].request.version in s'.owner && s'.owner[s'.threads[i].request.version] == i
    {
      OwesStep(s, st, i);
    }
  }

  lemma OwnerStep(s: State, st: Step, v: Id)
    requires LedgerOk(s) && Enabled(s, st) && v in Next(s, st).owner
    ensures OwnerOk(Next(s, st), v)
  {
    if v !in s.owner {
      OwnerBegins(s, st, v);
    } else {
      assert OwnerOk(s, v);
      if st.RunEffect? && Owes(PhaseOf(s, st.i)) {
        OwnerRuns(s, st, v);
      } else {
        OwnerRests(s, st, v);
      }
    }
  }

  lemma OwnerBegins(s: State, st: Step, v: Id)
    requires LedgerOk(s) && Enabled(s, st) && v !in s.owner && v in Next(s, st).owner
    ensures OwnerOk(Next(s, st), v)
  {
    assert RanUpTo(s, v, 0);
    assert RanUpTo(Next(s, st), v, 0);
  }

  // No side effect of `v` runs.
  lemma OwnerRests(s: State, st: Step, v: Id)
    requires Enabled(s, st) && v in s.owner && OwnerOk(s, v) && !(st.RunEffect? && Owes(PhaseOf(s, st.i)))
    ensures v in Next(s, st).owner && OwnerOk(Next(s, st), v)
  {
    SameLedger(s, Next(s, st), v);
    match st {
      case Confirm(i, ending) => assert v in s.db.versions;
      case _ =>
    }
  }

  lemma SameLedger(s: State, s': State, v: Id)
    requires forall k :: 0 <= k < |EFFECTS| ==> s'.ledger[(v, EFFECTS[k])] == s.ledger[(v, EFFECTS[k])]
    ensures forall n: nat :: RanUpTo(s, v, n) ==> RanUpTo(s', v, n)
  {
  }

  lemma OwnerRuns(s: State, st: Step, v: Id)
    requires LedgerOk(s) && Enabled(s, st) && v in s.owner && OwnerOk(s, v)
    requires st.RunEffect? && Owes(PhaseOf(s, st.i))
    ensures OwnerOk(Next(s, st), v)
  {
    var s', p := Next(s, st), PhaseOf(s, st.i);
    assert s.owner[s.threads[st.i].request.version] == st.i;
    if s.owner[v] != st.i {
      assert s.threads[st.i].request.version != v;
      SameLedger(s, s', v);
    } else {
      assert s.threads[st.i].request.version == v;
      if p.next < |EFFECTS| { assert RanUpTo(s', v, p.next + 1); } else { assert RanUpTo(s', v, p.next); }
    }
  }

  lemma UnownedStep(s: State, st: Step, v: Id)
    requires LedgerOk(s) && Enabled(s, st) && v !in Next(s, st).owner
    ensures RanUpTo(Next(s, st), v, 0)
  {
    assert RanUpTo(s, v, 0);
  }

  lemma OwesStep(s: State, st: Step, i: nat)
    requires LedgerOk(s) && Enabled(s, st) && i < |Next(s, st).threads| && Owes(Next(s, st).threads[i].phase)
    ensures var s' := Next(s, st);
            s'.threads[i].request.version in s'.owner && s'.owner[s'.threads[i].request.version] == i
  {
  }

  lemma {:induction false} LedgerHolds(s: State, steps: seq<Step>)
    requires LedgerOk(s) && Runs(s, steps)
    ensures LedgerOk(After(s, steps))
    decreases |steps|
  {
    if steps != [] {
      LedgerStep(s, steps[0]);
      LedgerHolds(Next(s, steps[0]), steps[1..]);
    }
  }

  // ---------------------------------------------------------------- the side effects of an upload

  function Place(e: Effect): nat {
    match e case Activity => 0 case Billing => 1 case Jobs => 2 case Webhook => 3
  }

  // Every side effect of this version has run once.
  ghost predicate AllOnce(s: State, v: Id) {
    forall e: Effect :: s.ledger[(v, e)] == 1
  }

  // The inserting confirm has ended.
  ghost predicate OwnerDone(s: State, v: Id) {
    v in s.owner && PhaseOf(s, s.owner[v]).Done?
  }

  /** Under any interleaving of first confirms, duplicates, retries, deletions and crashes, each side effect runs at
      most once per version, and only for a version this run inserted; as many of them as the inserting confirm got
      to, so all of them if it answered success. */
  lemma SideEffectsOnce(db: Database, steps: seq<Step>, v: Id, e: Effect)
    requires Runs(Start(db), steps)
    ensures var s := After(Start(db), steps);
            && s.ledger[(v, e)] <= 1
            && (v !in s.owner ==> s.ledger[(v, e)] == 0)
            && (v in s.owner ==> v in s.db.versions && v !in db.versions)
            && (v in s.owner ==> (s.ledger[(v, e)] == 1 <==> Place(e) < Ran(PhaseOf(s, s.owner[v]))))
            && (v in s.owner && PhaseOf(s, s.owner[v]).Done? && PhaseOf(s, s.owner[v]).status == Succeeded ==>
                  s.ledger[(v, e)] == 1)
  {
    var s := After(Start(db), steps);
    StartOk(db);
    LedgerHolds(Start(db), steps);
    OwnedIsNew(Start(db), steps, v, db);
    LedgerSays(s, v, e);
  }

  lemma StartOk(db: Database)
    ensures LedgerOk(Start(db))
  {
    forall u: Id ensures RanUpTo(Start(db), u, 0) {}
  }

  lemma LedgerSays(s: State, v: Id, e: Effect)
    requires LedgerOk(s)
    ensures s.ledger[(v, e)] == if v in s.owner && Place(e) < Ran(PhaseOf(s, s.owner[v])) then 1 else 0
    ensures v in s.owner ==> OwnerOk(s, v) && Ran(PhaseOf(s, s.owner[v])) <= |EFFECTS|
  {
    assert EFFECTS[Place(e)] == e;
    if v in s.owner { assert OwnerOk(s, v); } else { assert RanUpTo(s, v, 0); }
  }

  // One step leaves an owner that has ended where it is.
  lemma OwnerStaysDone(s: State, st: Step, v: Id)
    requires LedgerOk(s) && Enabled(s, st) && OwnerDone(s, v)
    ensures var s' := Next(s, st);
            OwnerDone(s', v) && s'.owner[v] == s.owner[v] && PhaseOf(s', s'.owner[v]) == PhaseOf(s, s.owner[v])
  {
    assert OwnerOk(s, v);
  }

  /** Once the confirm that inserted a version has ended, however it ended, nothing that happens afterwards runs any
      of the version's side effects: a retry is answered and makes up for nothing. */
  lemma {:induction false} RetryCannotMakeUp(s: State, steps: seq<Step>, v: Id, e: Effect)
    requires LedgerOk(s) && OwnerDone(s, v) && Runs(s, steps)
    ensures var s' := After(s, steps);
            && OwnerDone(s', v) && PhaseOf(s', s'.owner[v]) == PhaseOf(s, s.owner[v])
            && s'.ledger[(v, e)] == s.ledger[(v, e)]
    decreases |steps|
  {
    if steps != [] {
      var s' := Next(s, steps[0]);
      LedgerStep(s, steps[0]);
      OwnerStaysDone(s, steps[0], v);
      LedgerSays(s, v, e);
      LedgerSays(s', v, e);
      RetryCannotMakeUp(s', steps[1..], v, e);
    }
  }

  // Whatever happens from here on, the version ends up with every side effect run exactly once.
  ghost predicate ExactlyOnce(s: State, v: Id) {
    forall steps :: Runs(s, steps) && OwnerDone(After(s, steps), v) ==> AllOnce(After(s, steps), v)
  }

  /** From any reachable state, the side effects of an inserted version are certain to run exactly once if and only if
      its inserting confirm has got past the last of them already: until then it can be cut short, and once it has
      been, no continuation makes up for it. */
  lemma ExactlyOnceExactly(db: Database, before: seq<Step>, v: Id)
    requires Runs(Start(db), before) && v in After(Start(db), before).owner
    ensures var s := After(Start(db), before);
            ExactlyOnce(s, v) <==> Ran(PhaseOf(s, s.owner[v])) == |EFFECTS|
  {
    var s := After(Start(db), before);
    StartOk(db);
    LedgerHolds(Start(db), before);
    LedgerSays(s, v, Webhook);
    if Ran(PhaseOf(s, s.owner[v])) == |EFFECTS| {
      forall steps | Runs(s, steps) && OwnerDone(After(s, steps), v) ensures AllOnce(After(s, steps), v) {
        forall e: Effect ensures After(s, steps).ledger[(v, e)] == 1 { OnceIsKept(s, steps, v, e); }
      }
    } else {
      var steps := CutShort(s, v);
      LedgerHolds(s, steps);
      LedgerSays(After(s, steps), v, Webhook);
      assert After(s, steps).ledger[(v, Webhook)] == 0;
    }
  }

  // An inserting confirm that has not got past its last side effect can end, or has ended, where it is.
  lemma CutShort(s: State, v: Id) returns (steps: seq<Step>)
    requires LedgerOk(s) && v in s.owner
    ensures Runs(s, steps) && OwnerDone(After(s, steps), v)
    ensures var f := After(s, steps); Ran(PhaseOf(f, f.owner[v])) == Ran(PhaseOf(s, s.owner[v]))
  {
    assert OwnerOk(s, v);
    if OwnerDone(s, v) {
      steps := [];
    } else {
      steps := [Crash(s.owner[v])];
      assert steps[1..] == [] && Runs(Next(s, steps[0]), []);
      assert After(s, steps) == Next(s, steps[0]);
    }
  }

  // What has run stays run.
  lemma {:induction false} OnceIsKept(s: State, steps: seq<Step>, v: Id, e: Effect)
    requires LedgerOk(s) && Runs(s, steps) && v in s.owner && Ran(PhaseOf(s, s.owner[v])) == |EFFECTS|
    ensures After(s, steps).ledger[(v, e)] == 1
    decreases |steps|
  {
    LedgerSays(s, v, e);
    if steps != [] {
      LedgerStep(s, steps[0]);
      RanStays(s, steps[0], v);
      OnceIsKept(Next(s, steps[0]), steps[1..], v, e);
    }
  }

  lemma RanStays(s: State, st: Step, v: Id)
    requires LedgerOk(s) && Enabled(s, st) && v in s.owner && Ran(PhaseOf(s, s.owner[v])) == |EFFECTS|
    ensures v in Next(s, st).owner && Ran(PhaseOf(Next(s, st), Next(s, st).owner[v])) == |EFFECTS|
  {
    assert OwnerOk(s, v);
  }

  lemma {:induction false} OwnedIsNew(s: State, steps: seq<Step>, v: Id, db: Database)
    requires Runs(s, steps) && (v in s.owner ==> v !in db.versions) && db.versions.Keys <= s.db.versions.Keys
    ensures v in After(s, steps).owner ==> v !in db.versions
    decreases |steps|
  {
    if steps != [] { OwnedIsNew(Next(s, steps[0]), steps[1..], v, db); }
  }

  /** Being cut short does happen to every first confirm: one that fails between its commit and its side effects
      leaves a retry that is answered with success, and no side effect has run. */
  lemma FirstConfirmCanBeCutShort(db: Database, r: Request)
    requires FileVisible(db, r.workspace, r.file) && r.version !in db.versions
    ensures exists steps :: Runs(Start(db), steps)
              && var s := After(Start(db), steps);
                 |s.threads| == 2 && s.threads[1] == Thread(r, Ended(Succeeded))
                 && r.version in s.owner && s.ledger == multiset{}
  {
    var done, t0 := ConfirmVersion(db, r).0, Thread(r, Ended(ReloadFailed));
    var own: map<Id, nat> := map[r.version := 0];
    var w := RetryRuns(done, r, t0, own);
    w := CutShortRuns(db, r, own, w);
  }

  // A retry of a committed version, after a first request that ended: it succeeds and leaves the ledger alone.
  lemma RetryRuns(db: Database, r: Request, first: Thread, own: map<Id, nat>) returns (w: seq<Step>)
    requires FileVisible(db, r.workspace, r.file) && IsReplay(db, r) && db.versions[r.version].objectKey == r.objectKey
    ensures Runs(State(db, [first], multiset{}, own), w)
    ensures After(State(db, [first], multiset{}, own), w)
         == State(db, [first, Thread(r, Ended(Succeeded))], multiset{}, own)
  {
    var none: multiset<(Id, Effect)> := multiset{};
    var s4 := State(db, [first, Thread(r, Running(false, 0))], none, own);
    var s3 := State(db, [first, Thread(r, Committed(false))], none, own);
    var s2 := State(db, [first, Thread(r, Probed(true))], none, own);
    var s1 := State(db, [first, Thread(r, Fetched)], none, own);
    w := Prepend(s4, RunEffect(1), State(db, [first, Thread(r, Ended(Succeeded))], none, own), []);
    w := Prepend(s3, Reload(1, false), s4, w);
    w := Prepend(s2, Confirm(1, Answered), s3, w);
    w := Prepend(s1, Probe(1, false), s2, w);
    w := Prepend(State(db, [first], none, own), Begin(r), s1, w);
  }

  // A first confirm that commits and then fails to reload the file, followed by `rest`.
  lemma CutShortRuns(db: Database, r: Request, own: map<Id, nat>, rest: seq<Step>) returns (w: seq<Step>)
    requires FileVisible(db, r.workspace, r.file) && r.version !in db.versions && own == map[r.version := 0]
    requires Runs(State(ConfirmVersion(db, r).0, [Thread(r, Ended(ReloadFailed))], multiset{}, own), rest)
    ensures Runs(Start(db), w)
    ensures After(Start(db), w)
         == After(State(ConfirmVersion(db, r).0, [Thread(r, Ended(ReloadFailed))], multiset{}, own), rest)
  {
    var none: multiset<(Id, Effect)> := multiset{};
    var done := ConfirmVersion(db, r).0;
    var s4 := State(done, [Thread(r, Committed(true))], none, own);
    var s3 := State(db, [Thread(r, Cleared)], none, map[]);
    var s2 := State(db, [Thread(r, Probed(false))], none, map[]);
    var s1 := State(db, [Thread(r, Fetched)], none, map[]);
    w := Prepend(s4, Reload(0, true), State(done, [Thread(r, Ended(ReloadFailed))], none, own), rest);
    w := Prepend(s3, Confirm(0, Answered), s4, w);
    w := Prepend(s2, Quota(0, true), s3, w);
    w := Prepend(s1, Probe(0, false), s2, w);
    w := Prepend(Start(db), Begin(r), s1, w);
  }

  lemma Prepend(s: State, st: Step, next: State, steps: seq<Step>) returns (r: seq<Step>)
    requires Enabled(s, st) && Runs(next, steps)
    requires var n := Next(s, st);
             n.db == next.db && n.threads == next.threads && n.ledger == next.ledger && n.owner == next.owner
    ensures r == [st] + steps && Runs(s, r) && After(s, r) == After(next, steps)
  {
    r := [st] + steps;
    assert r[1..] == steps;
  }

  // ---------------------------------------------------------------- retries and the quota

  // Every version row of `db` is in `later` as it was, and every file is, in its workspace.
  ghost predicate RowsKept(db: Database, later: Database) {
    && (forall v <- db.versions :: v in later.versions && later.versions[v] == db.versions[v])
    && (forall f <- db.files :: f in later.files && later.files[f].workspace == db.files[f].workspace)
  }

  lemma RowsStayStep(s: State, st: Step)
    requires Enabled(s, st)
    ensures RowsKept(s.db, Next(s, st).db)
  {
    match st {
      case Confirm(i, ending) =>
        assert Next(s, st).db == s.db || Next(s, st).db == ConfirmVersion(s.db, s.threads[i].request).0;
      case Delete(file) => assert Next(s, st).db.versions == s.db.versions;
      case _ => assert Next(s, st).db == s.db;
    }
  }

  // Committed rows and a file's workspace never change.
  lemma {:induction false} RowsStay(s: State, steps: seq<Step>)
    requires Runs(s, steps)
    ensures RowsKept(s.db, After(s, steps).db)
    decreases |steps|
  {
    if steps != [] {
      var next := Next(s, steps[0]);
      RowsStayStep(s, steps[0]);
      RowsStay(next, steps[1..]);
      assert forall v <- s.db.versions :: v in next.db.versions;
      assert forall f <- s.db.files :: f in next.db.files;
    }
  }

  // A thread past a positive probe never comes to the quota check.
  lemma {:induction false} PastTheQuota(s: State, steps: seq<Step>, i: nat)
    requires Runs(s, steps) && i < |s.threads|
    requires s.threads[i].phase == Probed(true) || s.threads[i].phase.Committed? || s.threads[i].phase.Running?
          || (s.threads[i].phase.Done? && s.threads[i].phase.status != OverQuota)
    ensures PhaseOf(After(s, steps), i) != Ended(OverQuota)
    decreases |steps|
  {
    if steps != [] { PastTheQuota(Next(s, steps[0]), steps[1..], i); }
  }

  // The request can still end over quota.
  ghost predicate MayEndOverQuota(s: State, i: nat) {
    exists steps :: Runs(s, steps) && PhaseOf(After(s, steps), i) == Ended(OverQuota)
  }

  /** A request about to probe can be rejected for quota if and only if the probe does not find its version row, of
      the same file, in a file that is visible. */
  lemma QuotaRejectionExactly(s: State, i: nat)
    requires PhaseOf(s, i) == Fetched
    ensures MayEndOverQuota(Next(s, Probe(i, false)), i) <==> !IsReplay(s.db, s.threads[i].request)
  {
    var s' := Next(s, Probe(i, false));
    if IsReplay(s.db, s.threads[i].request) {
      forall steps | Runs(s', steps) ensures PhaseOf(After(s', steps), i) != Ended(OverQuota) {
        PastTheQuota(s', steps, i);
      }
    } else {
      var w := Prepend(s', Quota(i, false), Next(s', Quota(i, false)), []);
    }
  }

  /** So a retry of a committed version of the same file is never rejected for quota, whatever ran in between, as
      long as the file has not been deleted by the time of its probe. */
  lemma RetryOfCommittedIsNeverOverQuota(s: State, before: seq<Step>, i: nat, after: seq<Step>)
    requires Runs(s, before) && PhaseOf(After(s, before), i) == Fetched
    requires var r := After(s, before).threads[i].request;
             && r.version in s.db.versions && s.db.versions[r.version].file == r.file
             && FileVisible(After(s, before).db, r.workspace, r.file)
    requires Runs(Next(After(s, before), Probe(i, false)), after)
    ensures PhaseOf(After(Next(After(s, before), Probe(i, false)), after), i) != Ended(OverQuota)
  {
    RowsStay(s, before);
    QuotaRejectionExactly(After(s, before), i);
  }

  // ---------------------------------------------------------------- the record of an upload

  // A file's size is that of its current version, and that version is its own.
  ghost predicate SizesOk(db: Database) {
    forall f <- db.files :: db.files[f].current.Some? ==>
      var v := db.files[f].current.value;
      v in db.versions && db.versions[v].file == f && db.versions[v].size == db.files[f].size
  }

  /** Every run keeps files pointing at their own versions with the right size; and a confirm of an existing version
      changes nothing, so a late retry can neither roll a file back nor rewrite what was recorded. */
  lemma {:induction false} RecordsStayRight(s: State, steps: seq<Step>)
    requires SizesOk(s.db) && Runs(s, steps)
    ensures SizesOk(After(s, steps).db)
    decreases |steps|
  {
    if steps != [] { RecordsStayRight(Next(s, steps[0]), steps[1..]); }
  }

  lemma ConfirmMeans(db: Database, r: Request)
    ensures var (after, outcome) := ConfirmVersion(db, r);
            && (outcome == NotFound <==>
                  !(r.file in db.files && db.files[r.file].workspace == r.workspace && db.files[r.file].live))
            && (outcome == Fresh <==> outcome != NotFound && r.version !in db.versions)
            && (outcome == Replayed <==> IsReplay(db, r) && db.versions[r.version].objectKey == r.objectKey)
            && (outcome != Fresh ==> after == db)
            && (outcome == Fresh ==>
                  IsReplay(after, r) && after.files[r.file].current == Some(r.version)
                  && after.files[r.file].size == r.size && after.files[r.file].live
                  && after.versions == db.versions[r.version := Version(r.file, r.objectKey, r.size)])
            && (forall f <- db.files :: f != r.file ==> f in after.files && after.files[f] == db.files[f])
            && (SizesOk(db) ==> SizesOk(after))
  {
  }

  lemma {:induction false} DeletedStaysDeleted(s: State, steps: seq<Step>, f: Id, v: Id)
    requires Runs(s, steps) && f in s.db.files && !s.db.files[f].live
    ensures var db := After(s, steps).db;
            && f in db.files && db.files[f] == s.db.files[f]
            && (v in db.versions && db.versions[v].file == f ==> v in s.db.versions)
    decreases |steps|
  {
    if steps != [] {
      RowsStayStep(s, steps[0]);
      RowsStay(Next(s, steps[0]), steps[1..]);
      DeletedStaysDeleted(Next(s, steps[0]), steps[1..], f, v);
    }
  }

  /** Deleting a file is final: whatever confirms are under way or still to come, none adds a version to it or changes
      anything else about it, and a request that begins afterwards finds no file. */
  lemma DeletionIsFinal(s: State, f: Id, steps: seq<Step>, v: Id, r: Request)
    requires f in s.db.files && Runs(Next(s, Delete(f)), steps) && r.file == f
    ensures var t := After(Next(s, Delete(f)), steps);
            && f in t.db.files && t.db.files[f] == s.db.files[f].(live := false)
            && (v in t.db.versions && t.db.versions[v].file == f ==> v in s.db.versions)
            && PhaseOf(Next(t, Begin(r)), |t.threads|) == Ended(FileMissing)
  {
    DeletedStaysDeleted(Next(s, Delete(f)), steps, f, v);
  }

  // Whether thread `i`, having come this far, can tell its caller the truth.
  ghost predicate Truthful(s: State, i: nat)
    requires i < |s.threads|
  {
    var r, p := s.threads[i].request, s.threads[i].phase;
    var mine := r.version in s.owner && s.owner[r.version] == i;
    && (p.Committed? || p.Running? || (p.Done? && p.status in {Succeeded, ReloadFailed}) ==>
          && r.version in s.db.versions
          && s.db.versions[r.version].file == r.file && s.db.versions[r.version].objectKey == r.objectKey)
    && (mine ==>
          || p.Committed? || p.Running?
          || (p.Done? && p.status in {Succeeded, ReloadFailed, ConfirmFailed, Crashed}))
  }

  lemma ConfirmTruthful(s: State, j: nat, ending: Ending, i: nat)
    requires LedgerOk(s) && Enabled(s, Confirm(j, ending)) && i < |s.threads| && Truthful(s, i)
    ensures Truthful(Next(s, Confirm(j, ending)), i)
  {
    RowsStayStep(s, Confirm(j, ending));
    assert i != j ==> Next(s, Confirm(j, ending)).threads[i] == s.threads[i];
  }

  lemma TruthfulStep(s: State, st: Step, i: nat)
    requires LedgerOk(s) && Enabled(s, st) && i < |Next(s, st).threads|
    requires i < |s.threads| ==> Truthful(s, i)
    ensures Truthful(Next(s, st), i)
  {
    if i >= |s.threads| {
      assert forall v <- s.owner :: OwnerOk(s, v);
    } else if st.Confirm? {
      ConfirmTruthful(s, st.i, st.ending, i);
    } else {
      RowsStayStep(s, st);
    }
  }

  lemma {:induction false} AllTruthful(s: State, steps: seq<Step>)
    requires LedgerOk(s) && Runs(s, steps) && forall i :: 0 <= i < |s.threads| ==> Truthful(s, i)
    ensures forall i :: 0 <= i < |After(s, steps).threads| ==> Truthful(After(s, steps), i)
    decreases |steps|
  {
    if steps != [] {
      LedgerStep(s, steps[0]);
      forall i | 0 <= i < |Next(s, steps[0]).threads| ensures Truthful(Next(s, steps[0]), i) {
        TruthfulStep(s, steps[0], i);
      }
      AllTruthful(Next(s, steps[0]), steps[1..]);
    }
  }

  /** What an answer is worth, in every run: success means that the version is recorded under the object key that was
      confirmed, and a missing file, a failed probe, a quota rejection or a conflict that this request inserted
      nothing. */
  lemma AnswersAreTrue(db: Database, steps: seq<Step>, i: nat)
    requires Runs(Start(db), steps) && i < |After(Start(db), steps).threads|
    requires After(Start(db), steps).threads[i].phase.Done?
    ensures var s := After(Start(db), steps); var r, status := s.threads[i].request, s.threads[i].phase.status;
            && (status == Succeeded ==>
                  && r.version in s.db.versions
                  && s.db.versions[r.version].file == r.file && s.db.versions[r.version].objectKey == r.objectKey)
            && (status in {FileMissing, ProbeFailed, OverQuota, Conflict} ==>
                  !(r.version in s.owner && s.owner[r.version] == i))
  {
    StartOk(db);
    AllTruthful(Start(db), steps);
    assert Truthful(After(Start(db), steps), i);
  }

  /** How a request that meets a failure goes on: it ends there and then. A transaction that was rolled back leaves no
      trace; one whose answer was lost has committed all the same. */
  lemma FailuresEnd(s: State, i: nat)
    requires i < |s.threads|
    ensures PhaseOf(s, i) == Fetched ==> Next(s, Probe(i, true)) == Move(s, i, Ended(ProbeFailed))
    ensures PhaseOf(s, i) in {Cleared, Probed(true)} ==>
      && Next(s, Confirm(i, RolledBack)) == Move(s, i, Ended(ConfirmFailed))
      && var (t, kept) := (Next(s, Confirm(i, AnswerLost)), Next(s, Confirm(i, Answered)));
         && PhaseOf(t, i).Done? && PhaseOf(t, i).status in {ConfirmFailed, FileMissing, Conflict}
         && t.db == kept.db && t.owner == kept.owner && t.ledger == s.ledger == kept.ledger
    ensures PhaseOf(s, i).Committed? ==>
      var r := s.threads[i].request;
      && Next(s, Reload(i, true)) == Move(s, i, Ended(ReloadFailed))
      && (Next(s, Reload(i, false)) == Move(s, i, Ended(ReloadFailed)) <==> !FileVisible(s.db, r.workspace, r.file))
  {
    assert PhaseOf(Move(s, i, Ended(ReloadFailed)), i) == Ended(ReloadFailed);
  }

  // ---------------------------------------------------------------- one request, undisturbed

  function Joined(s: State, r: Request, phase: Phase): State {
    s.(threads := s.threads + [Thread(r, phase)])
  }

  lemma JoinedMoves(s: State, r: Request, from: Phase, to: Phase)
    ensures var j := Joined(s, r, from); var i := |s.threads|;
            PhaseOf(j, i) == from && j.threads[i].request == r && Move(j, i, to) == Joined(s, r, to)
  {
  }

  // The side effects still due.
  function Due(v: Id, n: nat): multiset<(Id, Effect)>
    requires n <= |EFFECTS|
    decreases |EFFECTS| - n
  {
    if n == |EFFECTS| then multiset{} else multiset{(v, EFFECTS[n])} + Due(v, n + 1)
  }

  lemma EffectRuns(s: State, r: Request, n: nat)
    requires n < |EFFECTS|
    ensures var j := Joined(s, r, Running(true, n));
            var ran := s.(ledger := s.ledger + multiset{(r.version, EFFECTS[n])});
            && Enabled(j, RunEffect(|s.threads|))
            && Next(j, RunEffect(|s.threads|)) == Joined(ran, r, Running(true, n + 1))
            && ran.ledger + Due(r.version, n + 1) == s.ledger + Due(r.version, n)
  {
    JoinedMoves(s, r, Running(true, n), Running(true, n + 1));
    assert Due(r.version, n) == multiset{(r.version, EFFECTS[n])} + Due(r.version, n + 1);
  }

  lemma {:induction false} EffectsRun(s: State, r: Request, n: nat) returns (w: seq<Step>)
    requires n <= |EFFECTS|
    ensures Runs(Joined(s, r, Running(true, n)), w)
    ensures After(Joined(s, r, Running(true, n)), w)
         == Joined(s.(ledger := s.ledger + Due(r.version, n)), r, Done(Succeeded, |EFFECTS|))
    decreases |EFFECTS| - n
  {
    var i := |s.threads|;
    if n == |EFFECTS| {
      JoinedMoves(s, r, Running(true, n), Done(Succeeded, n));
      w := Prepend(Joined(s, r, Running(true, n)), RunEffect(i), Joined(s, r, Done(Succeeded, n)), []);
    } else {
      var ran := s.(ledger := s.ledger + multiset{(r.version, EFFECTS[n])});
      w := EffectsRun(ran, r, n + 1);
      EffectRuns(s, r, n);
      w := Prepend(Joined(s, r, Running(true, n)), RunEffect(i), Joined(ran, r, Running(true, n + 1)), w);
    }
  }

  // From the commit on, the file visible.
  lemma CommittedRuns(s: State, r: Request, inserted: bool) returns (w: seq<Step>)
    requires FileVisible(s.db, r.workspace, r.file)
    ensures Runs(Joined(s, r, Committed(inserted)), w)
    ensures After(Joined(s, r, Committed(inserted)), w) ==
              if inserted then Joined(s.(ledger := s.ledger + Due(r.version, 0)), r, Done(Succeeded, |EFFECTS|))
              else Joined(s, r, Ended(Succeeded))
  {
    var i := |s.threads|;
    if inserted {
      w := EffectsRun(s, r, 0);
    } else {
      JoinedMoves(s, r, Running(false, 0), Ended(Succeeded));
      w := Prepend(Joined(s, r, Running(false, 0)), RunEffect(i), Joined(s, r, Ended(Succeeded)), []);
    }
    JoinedMoves(s, r, Committed(inserted), Running(inserted, 0));
    w := Prepend(Joined(s, r, Committed(inserted)), Reload(i, false), Joined(s, r, Running(inserted, 0)), w);
  }

  // From the confirm transaction on, the file visible.
  lemma ConfirmRuns(s: State, r: Request, phase: Phase) returns (w: seq<Step>)
    requires FileVisible(s.db, r.workspace, r.file) && (phase == Cleared || phase == Probed(true))
    ensures Runs(Joined(s, r, phase), w)
    ensures var (db, outcome) := ConfirmVersion(s.db, r);
            After(Joined(s, r, phase), w) ==
              if outcome == Fresh then
                Joined(s.(db := db, owner := s.owner[r.version := |s.threads|], ledger := s.ledger + Due(r.version, 0)),
                       r, Done(Succeeded, |EFFECTS|))
              else Joined(s, r, Ended(if outcome == Replayed then Succeeded else Conflict))
  {
    var i := |s.threads|;
    var (db, outcome) := ConfirmVersion(s.db, r);
    var s' := s.(db := db, owner := if outcome == Fresh then s.owner[r.version := i] else s.owner);
    if outcome == VersionConflict {
      w := Prepend(Joined(s, r, phase), Confirm(i, Answered), Joined(s, r, Ended(Conflict)), []);
    } else {
      w := CommittedRuns(s', r, outcome == Fresh);
      w := Prepend(Joined(s, r, phase), Confirm(i, Answered), Joined(s', r, Committed(outcome == Fresh)), w);
    }
  }

  // How an undisturbed request ends, `within` being what the quota check answers.
  ghost predicate Outcome(s: State, r: Request, within: bool, after: State) {
    var v := r.version;
    if !FileVisible(s.db, r.workspace, r.file) then after == Joined(s, r, Ended(FileMissing))
    else if IsReplay(s.db, r) then
      after == Joined(s, r, Ended(if s.db.versions[v].objectKey == r.objectKey then Succeeded else Conflict))
    else if !within then after == Joined(s, r, Ended(OverQuota))
    else if v in s.db.versions then after == Joined(s, r, Ended(Conflict))
    else
      && after.db == ConfirmVersion(s.db, r).0 && after.threads == s.threads + [Thread(r, Done(Succeeded, 4))]
      && after.ledger == s.ledger + multiset{(v, Activity), (v, Billing), (v, Jobs), (v, Webhook)}
      && after.owner == s.owner[v := |s.threads|]
  }

  lemma QuotaRuns(s: State, r: Request, within: bool) returns (w: seq<Step>)
    requires FileVisible(s.db, r.workspace, r.file) && !IsReplay(s.db, r)
    ensures Runs(Joined(s, r, Probed(false)), w)
    ensures Outcome(s, r, within, After(Joined(s, r, Probed(false)), w))
  {
    var i := |s.threads|;
    if within {
      w := ConfirmRuns(s, r, Cleared);
      AllDue(r.version);
      JoinedMoves(s, r, Probed(false), Cleared);
      w := Prepend(Joined(s, r, Probed(false)), Quota(i, true), Joined(s, r, Cleared), w);
    } else {
      JoinedMoves(s, r, Probed(false), Ended(OverQuota));
      w := Prepend(Joined(s, r, Probed(false)), Quota(i, false), Joined(s, r, Ended(OverQuota)), []);
    }
  }

  /** A request that nothing disturbs and nothing fails: a replay is answered without the quota check, a first confirm
      is rejected exactly when that check says so, and one that inserts runs the four side effects. */
  lemma Undisturbed(s: State, r: Request, within: bool) returns (w: seq<Step>)
    ensures Runs(s, w) && Outcome(s, r, within, After(s, w))
  {
    if !FileVisible(s.db, r.workspace, r.file) {
      w := Prepend(s, Begin(r), Joined(s, r, Ended(FileMissing)), []);
    } else {
      if IsReplay(s.db, r) { w := ConfirmRuns(s, r, Probed(true)); } else { w := QuotaRuns(s, r, within); }
      var probed := Joined(s, r, Probed(IsReplay(s.db, r)));
      JoinedMoves(s, r, Fetched, Probed(IsReplay(s.db, r)));
      w := Prepend(Joined(s, r, Fetched), Probe(|s.threads|, false), probed, w);
      w := Prepend(s, Begin(r), Joined(s, r, Fetched), w);
    }
  }

  lemma AllDue(v: Id)
    ensures Due(v, 0) == multiset{(v, Activity), (v, Billing), (v, Jobs), (v, Webhook)}
  {
    assert Due(v, 4) == multiset{};
    assert Due(v, 3) == multiset{(v, Webhook)};
    assert Due(v, 2) == multiset{(v, Jobs), (v, Webhook)};
    assert Due(v, 1) == multiset{(v, Billing), (v, Jobs), (v, Webhook)};
  }

  class Handler {
    var db: Database
    var ledger: seq<(Id, Effect)>

    constructor (db: Database)
      ensures this.db == db && ledger == []
    {
      this.db, ledger := db, [];
    }

    // One request from start to end; `within` is what the quota check would answer.
    method ConfirmUpload(r: Request, within: bool) returns (status: Status)
      modifies this
      ensures (status == FileMissing <==> !FileVisible(old(db), r.workspace, r.file))
      ensures IsReplay(old(db), r) ==>
                status == (if old(db).versions[r.version].objectKey == r.objectKey then Succeeded else Conflict)
                && db == old(db) && ledger == old(ledger)
      ensures FileVisible(old(db), r.workspace, r.file) && !IsReplay(old(db), r) && !within ==>
                status == OverQuota && db == old(db) && ledger == old(ledger)
      ensures FileVisible(old(db), r.workspace, r.file) && !IsReplay(old(db), r) && within ==>
                if r.version in old(db).versions then status == Conflict && db == old(db) && ledger == old(ledger)
                else status == Succeeded && db == ConfirmVersion(old(db), r).0
                     && ledger == old(ledger)
                     + [(r.version, Activity), (r.version, Billing), (r.version, Jobs), (r.version, Webhook)]
      ensures status == FileMissing ==> db == old(db) && ledger == old(ledger)
    {
      if !FileVisible(db, r.workspace, r.file) { return FileMissing; }
      if !IsReplay(db, r) {
        if !within { return OverQuota; }
      }
      var (after, outcome) := ConfirmVersion(db, r);
      db := after;
      if outcome == NotFound { return FileMissing; }
      if outcome == VersionConflict { return Conflict; }
      if outcome == Fresh {
        ledger := ledger + [(r.version, Activity)];
        ledger := ledger + [(r.version, Billing)];
        ledger := ledger + [(r.version, Jobs)];
        ledger := ledger + [(r.version, Webhook)];
      }
      return Succeeded;
    }
  }
}
