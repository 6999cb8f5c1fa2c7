/**
  The audit archive of one workspace: archivers that upload, record and then delete batches of rows and may crash
  between any two of these, and the restore that reads the cold tier back.

  The archive is a state machine over any number of archiver runs; the restore is two methods with loops. Together:
  no row is ever lost, and a restore returns exactly the archived rows of its range, each once, in time order.
 */
module AuditArchive {
  import opened Wrappers
  import opened Decimals
  import opened Strings

  // ---------------------------------------------------------------- time and its year-month

  type Year = y: nat | y < 10_000
  type Month = m: nat | 1 <= m <= 12 witness 1

  // A UTC timestamp: year, month, and nanoseconds into the month.
  datatype Instant = Instant(year: Year, month: Month, offset: nat)

  predicate Before(a: Instant, b: Instant) {
    a.year < b.year || (a.year == b.year && (a.month < b.month || (a.month == b.month && a.offset < b.offset)))
  }

  predicate InRange(at: Instant, from: Instant, to: Instant) {
    !Before(at, from) && !Before(to, at)
  }

  function Pad(n: nat, width: nat): string {
    if width == 0 then "" else Pad(n / 10, width - 1) + [Digit(n % 10)]
  }

  // "YYYY-MM".
  function YearMonth(at: Instant): string {
    Pad(at.year, 4) + "-" + Pad(at.month, 2)
  }

  // String order: by the first character that differs.
  predicate Less(a: string, b: string) {
    if a == [] || b == [] then a == [] && b != []
    else a[0] < b[0] || (a[0] == b[0] && Less(a[1..], b[1..]))
  }

  lemma {:induction false} LessExtend(a: string, b: string, u: string, v: string)
    requires |a| == |b| && Less(a, b)
    ensures Less(a + u, b + v)
  {
    assert (a + u)[1..] == a[1..] + u && (b + v)[1..] == b[1..] + v;
    if a[0] == b[0] { LessExtend(a[1..], b[1..], u, v); }
  }

  lemma {:induction false} LessAfter(a: string, u: string, v: string)
    requires Less(u, v)
    ensures Less(a + u, a + v)
  {
    if a == [] {
      assert a + u == u && a + v == v;
    } else {
      assert (a + u)[1..] == a[1..] + u && (a + v)[1..] == a[1..] + v;
      LessAfter(a[1..], u, v);
    }
  }

  lemma {:induction false} LessOneWay(a: string, b: string)
    requires Less(a, b)
    ensures a != b && !Less(b, a)
  {
    if a != [] && a[0] == b[0] { LessOneWay(a[1..], b[1..]); }
  }

  function Pow10(n: nat): nat {
    if n == 0 then 1 else 10 * Pow10(n - 1)
  }

  lemma {:induction false} PadLess(m: nat, n: nat, width: nat)
    requires m < n < Pow10(width)
    ensures Less(Pad(m, width), Pad(n, width))
    ensures |Pad(m, width)| == |Pad(n, width)| == width
    decreases width
  {
    PadWidth(m / 10, width - 1);
    PadWidth(n / 10, width - 1);
    if m / 10 < n / 10 {
      PadLess(m / 10, n / 10, width - 1);
      LessExtend(Pad(m / 10, width - 1), Pad(n / 10, width - 1), [Digit(m % 10)], [Digit(n % 10)]);
    } else {
      LessAfter(Pad(m / 10, width - 1), [Digit(m % 10)], [Digit(n % 10)]);
    }
  }

  lemma {:induction false} PadWidth(n: nat, width: nat)
    ensures |Pad(n, width)| == width && forall c <- Pad(n, width) :: IsDigit(c)
  {
    if width > 0 { PadWidth(n / 10, width - 1); }
  }

  lemma YearMonthShape(at: Instant)
    ensures |YearMonth(at)| == 7 && '/' !in YearMonth(at)
  {
    PadWidth(at.year, 4);
    PadWidth(at.month, 2);
  }

  /** Comparing year-month strings is comparing year and month, and time order is that and then the offset. */
  lemma YearMonthOrder(a: Instant, b: Instant)
    ensures Less(YearMonth(a), YearMonth(b)) <==> a.year < b.year || (a.year == b.year && a.month < b.month)
    ensures YearMonth(a) == YearMonth(b) <==> a.year == b.year && a.month == b.month
    ensures Before(a, b) <==>
      Less(YearMonth(a), YearMonth(b)) || (YearMonth(a) == YearMonth(b) && a.offset < b.offset)
  {
    LessIrreflexive(YearMonth(a));
    if a.year < b.year || (a.year == b.year && a.month < b.month) {
      YearMonthLess(a, b);
    } else if b.year < a.year || b.month < a.month {
      YearMonthLess(b, a);
      LessOneWay(YearMonth(b), YearMonth(a));
    }
  }

  lemma {:induction false} LessIrreflexive(a: string)
    ensures !Less(a, a)
  {
    if a != [] { LessIrreflexive(a[1..]); }
  }

  lemma YearMonthLess(a: Instant, b: Instant)
    requires a.year < b.year || (a.year == b.year && a.month < b.month)
    ensures Less(YearMonth(a), YearMonth(b))
  {
    assert Pow10(4) == 10 * Pow10(3) && Pow10(3) == 10 * Pow10(2) && Pow10(2) == 10 * Pow10(1) && Pow10(1) == 10;
    if a.year < b.year {
      PadLess(a.year, b.year, 4);
      LessExtend(Pad(a.year, 4), Pad(b.year, 4), "-" + Pad(a.month, 2), "-" + Pad(b.month, 2));
      assert YearMonth(a) == Pad(a.year, 4) + ("-" + Pad(a.month, 2)) &&
           YearMonth(b) == Pad(b.year, 4) + ("-" + Pad(b.month, 2));
    } else {
      PadLess(a.month, b.month, 2);
      LessAfter(Pad(a.year, 4) + "-", Pad(a.month, 2), Pad(b.month, 2));
    }
  }

  // ---------------------------------------------------------------- rows, objects, archivers

  datatype Entry = Entry(id: nat, at: Instant, body: string)

  function ObjectKey(prefix: string, yearMonth: string, batch: string): string {
    prefix + yearMonth + "/" + batch + ".jsonl.gz"
  }

  // One archiver run, between its steps on one batch.
  datatype Archiver =
    | Idle
    | Fetched(batch: seq<Entry>, yearMonth: string)
    | Uploaded(batch: seq<Entry>)
    | Recorded(batch: seq<Entry>)

  // `ever` is every row ever written.
  datatype State = State(hot: set<Entry>, objects: map<string, seq<Entry>>,
                         archivers: map<nat, Archiver>, ever: set<Entry>)

  const EMPTY := State({}, map[], map[], {})

  function At(s: State, w: nat): Archiver {
    if w in s.archivers then s.archivers[w] else Idle
  }

  function Archived(objects: map<string, seq<Entry>>): set<Entry> {
    set k, e | k in objects && e in objects[k] :: e
  }

  datatype Step =
    | Write(e: Entry)                                        // the application logs a row
    | Fetch(w: nat, batch: seq<Entry>, yearMonth: string)    // a page of one month's hot rows
    | Put(w: nat, batchId: string)                           // upload under a fresh id
    | PutFails(w: nat, batchId: string, landed: bool)        // an error, whether or not the object got there
    | RecordRun(w: nat)
    | Delete(w: nat)
    | Crash(w: nat)                                          // or any error that ends the batch

  ghost predicate Enabled(prefix: string, s: State, st: Step) {
    match st
    case Write(e) => forall x <- s.ever :: x.id != e.id
    case Fetch(w, batch, ym) =>
      At(s, w) == Idle && batch != [] && forall e <- batch :: e in s.hot && YearMonth(e.at) == ym
    case Put(w, id) => At(s, w).Fetched? && ObjectKey(prefix, At(s, w).yearMonth, id) !in s.objects
    case PutFails(w, id, _) => At(s, w).Fetched? && ObjectKey(prefix, At(s, w).yearMonth, id) !in s.objects
    case RecordRun(w) => At(s, w).Uploaded?
    case Delete(w) => At(s, w).Recorded?
    case Crash(w) => true
  }

  function Next(prefix: string, s: State, st: Step): State
    requires Enabled(prefix, s, st)
  {
    match st
    case Write(e) => s.(hot := s.hot + {e}, ever := s.ever + {e})
    case Fetch(w, batch, ym) => s.(archivers := s.archivers[w := Fetched(batch, ym)])
    case Put(w, id) =>
      s.(objects := s.objects[ObjectKey(prefix, At(s, w).yearMonth, id) := At(s, w).batch],
         archivers := s.archivers[w := Uploaded(At(s, w).batch)])
    case PutFails(w, id, landed) =>
      s.(objects := if landed
                    then s.objects[ObjectKey(prefix, At(s, w).yearMonth, id) := At(s, w).batch] else s.objects,
         archivers := s.archivers[w := Idle])
    case RecordRun(w) => s.(archivers := s.archivers[w := Recorded(At(s, w).batch)])
    case Delete(w) =>
      var ids := set e | e in At(s, w).batch :: e.id;
      s.(hot := (set e | e in s.hot && e.id !in ids), archivers := s.archivers[w := Idle])
    case Crash(w) => s.(archivers := s.archivers[w := Idle])
  }

  ghost predicate Runs(prefix: string, s: State, steps: seq<Step>)
    decreases |steps|
  {
    steps == [] || (Enabled(prefix, s, steps[0]) && Runs(prefix, Next(prefix, s, steps[0]), steps[1..]))
  }

  function After(prefix: string, s: State, steps: seq<Step>): State
    requires Runs(prefix, s, steps)
    decreases |steps|
  {
    if steps == [] then s else After(prefix, Next(prefix, s, steps[0]), steps[1..])
  }

  // ---------------------------------------------------------------- what every step keeps

  // An object lies under its rows' year-month.
  ghost predicate Shelved(prefix: string, key: string, entries: seq<Entry>) {
    exists ym, id :: key == ObjectKey(prefix, ym, id) && forall e <- entries :: YearMonth(e.at) == ym
  }

  ghost predicate ArchiverOk(s: State, a: Archiver) {
    match a
    case Idle => true
    case Fetched(batch, ym) => forall e <- batch :: e in s.ever && YearMonth(e.at) == ym
    case Uploaded(batch) => forall e <- batch :: e in s.ever && e in Archived(s.objects)
    case Recorded(batch) => forall e <- batch :: e in s.ever && e in Archived(s.objects)
  }

  ghost predicate Ok(prefix: string, s: State) {
    && (forall x <- s.ever, y <- s.ever :: x.id == y.id ==> x == y)
    && s.hot <= s.ever && Archived(s.objects) <= s.ever
    && s.ever <= s.hot + Archived(s.objects)
    && (forall k <- s.objects :: Shelved(prefix, k, s.objects[k]))
    && (forall w: nat :: ArchiverOk(s, At(s, w)))
  }

  lemma ArchivedGrows(objects: map<string, seq<Entry>>, key: string, batch: seq<Entry>)
    requires key !in objects
    ensures Archived(objects[key := batch]) == Archived(objects) + set e | e in batch
  {
    var after := objects[key := batch];
    forall e | e in Archived(objects) ensures e in Archived(after) {
      var k :| k in objects && e in objects[k];
      assert k in after && e in after[k];
    }
    forall e | e in batch ensures e in Archived(after) {
      assert key in after && e in after[key];
    }
  }

  lemma PutKeeps(prefix: string, s: State, w: nat, id: string, next: Archiver)
    requires Ok(prefix, s) && At(s, w).Fetched? && ObjectKey(prefix, At(s, w).yearMonth, id) !in s.objects
    requires next == Idle || next == Uploaded(At(s, w).batch)
    ensures Ok(prefix, s.(
      objects := s.objects[ObjectKey(prefix, At(s, w).yearMonth, id) := At(s, w).batch],
      archivers := s.archivers[w := next]))
  {
    var key, batch := ObjectKey(prefix, At(s, w).yearMonth, id), At(s, w).batch;
    var t := s.(objects := s.objects[key := batch], archivers := s.archivers[w := next]);
    ArchivedGrows(s.objects, key, batch);
    assert ArchiverOk(s, At(s, w));
    forall v: nat ensures ArchiverOk(t, At(t, v)) {
      assert ArchiverOk(s, At(s, v));
      assert v != w ==> At(t, v) == At(s, v);
    }
    assert Shelved(prefix, key, batch);
  }

  lemma DeleteKeeps(prefix: string, s: State, w: nat)
    requires Ok(prefix, s) && At(s, w).Recorded?
    ensures Ok(prefix, Next(prefix, s, Delete(w)))
  {
    var t, batch := Next(prefix, s, Delete(w)), At(s, w).batch;
    assert ArchiverOk(s, At(s, w));
    forall e | e in s.ever ensures e in t.hot + Archived(t.objects) {
      if e in s.hot && e !in t.hot {
        assert e.id in set x | x in batch :: x.id;
        var x :| x in batch && x.id == e.id;
        assert x in s.ever && x == e;
      }
    }
    forall v: nat ensures ArchiverOk(t, At(t, v)) {
      assert ArchiverOk(s, At(s, v));
      assert v != w ==> At(t, v) == At(s, v);
    }
  }

  lemma StepKeeps(prefix: string, s: State, st: Step)
    requires Ok(prefix, s) && Enabled(prefix, s, st)
    ensures Ok(prefix, Next(prefix, s, st)) && s.ever <= Next(prefix, s, st).ever
  {
    match st {
      case Put(w, id) => PutKeeps(prefix, s, w, id, Uploaded(At(s, w).batch));
      case PutFails(w, id, landed) =>
        if landed { PutKeeps(prefix, s, w, id, Idle); } else { QuietKeeps(prefix, s, st, w); }
      case Delete(w) => DeleteKeeps(prefix, s, w);
      case Write(e) =>
        var t := Next(prefix, s, st);
        forall v: nat ensures ArchiverOk(t, At(t, v)) { assert ArchiverOk(s, At(s, v)); }
      case Fetch(w, _, _) => QuietKeeps(prefix, s, st, w);
      case RecordRun(w) => QuietKeeps(prefix, s, st, w);
      case Crash(w) => QuietKeeps(prefix, s, st, w);
    }
  }

  // Steps that touch neither tier.
  lemma QuietKeeps(prefix: string, s: State, st: Step, w: nat)
    requires Ok(prefix, s) && Enabled(prefix, s, st)
    requires (st.Fetch? && st.w == w) || (st.RecordRun? && st.w == w) || (st.Crash? && st.w == w)
          || (st.PutFails? && st.w == w && !st.landed)
    ensures Ok(prefix, Next(prefix, s, st))
  {
    var t := Next(prefix, s, st);
    assert ArchiverOk(s, At(s, w));
    forall v: nat ensures ArchiverOk(t, At(t, v)) {
      assert ArchiverOk(s, At(s, v));
      assert v != w ==> At(t, v) == At(s, v);
    }
  }

  lemma {:induction false} RunKeeps(prefix: string, s: State, steps: seq<Step>)
    requires Ok(prefix, s) && Runs(prefix, s, steps)
    ensures Ok(prefix, After(prefix, s, steps))
    decreases |steps|
  {
    if steps != [] {
      StepKeeps(prefix, s, steps[0]);
      RunKeeps(prefix, Next(prefix, s, steps[0]), steps[1..]);
    }
  }

  lemma {:induction false} WritesAreKept(prefix: string, s: State, steps: seq<Step>, e: Entry)
    requires Ok(prefix, s) && Runs(prefix, s, steps) && (e in s.ever || Write(e) in steps)
    ensures e in After(prefix, s, steps).ever
    decreases |steps|
  {
    if steps != [] {
      StepKeeps(prefix, s, steps[0]);
      assert steps == [steps[0]] + steps[1..];
      WritesAreKept(prefix, Next(prefix, s, steps[0]), steps[1..], e);
    }
  }

  /** However archivers interleave, fail and crash, every row ever written is in the hot table or in the archive. */
  lemma NoRowLost(prefix: string, steps: seq<Step>)
    requires Runs(prefix, EMPTY, steps)
    ensures Ok(prefix, After(prefix, EMPTY, steps))
    ensures forall e :: Write(e) in steps ==> e in After(prefix, EMPTY, steps).ever
    ensures forall e <- After(prefix, EMPTY, steps).ever ::
      e in After(prefix, EMPTY, steps).hot || e in Archived(After(prefix, EMPTY, steps).objects)
  {
    RunKeeps(prefix, EMPTY, steps);
    forall e | Write(e) in steps ensures e in After(prefix, EMPTY, steps).ever {
      WritesAreKept(prefix, EMPTY, steps, e);
    }
  }

  /** One batch without a failure: its rows, and they alone, leave the hot table, and lie in the archive. */
  lemma BatchMoves(prefix: string, s: State, w: nat, batch: seq<Entry>, yearMonth: string, id: string)
    requires Ok(prefix, s) && Enabled(prefix, s, Fetch(w, batch, yearMonth))
    requires ObjectKey(prefix, yearMonth, id) !in s.objects
    ensures var steps := [Fetch(w, batch, yearMonth), Put(w, id), RecordRun(w), Delete(w)];
            && Runs(prefix, s, steps)
            && var t := After(prefix, s, steps);
               && At(t, w) == Idle && t.ever == s.ever
               && (forall e :: e in t.hot <==> e in s.hot && e !in batch)
               && (forall e :: e in Archived(t.objects) <==> e in Archived(s.objects) || e in batch)
  {
    var s1 := Next(prefix, s, Fetch(w, batch, yearMonth));
    var s2 := Next(prefix, s1, Put(w, id));
    var s3 := Next(prefix, s2, RecordRun(w));
    var t := Next(prefix, s3, Delete(w));
    ArchivedGrows(s.objects, ObjectKey(prefix, yearMonth, id), batch);
    var ids := set e | e in batch :: e.id;
    forall e | e in s.hot ensures e.id in ids <==> e in batch {
      if e.id in ids {
        var x :| x in batch && x.id == e.id;
        assert x in s.ever && e in s.ever;
      }
    }
    assert [Fetch(w, batch, yearMonth), Put(w, id), RecordRun(w), Delete(w)][1..]
        == [Put(w, id), RecordRun(w), Delete(w)];
    assert [Put(w, id), RecordRun(w), Delete(w)][1..] == [RecordRun(w), Delete(w)];
    assert [RecordRun(w), Delete(w)][1..] == [Delete(w)] && [Delete(w)][1..] == [];
    assert Runs(prefix, t, []) && After(prefix, t, []) == t;
    assert Runs(prefix, s3, [Delete(w)]) && After(prefix, s3, [Delete(w)]) == t;
    assert Runs(prefix, s2, [RecordRun(w), Delete(w)]) && After(prefix, s2, [RecordRun(w), Delete(w)]) == t;
  }

  /** Wherever a run was when it crashed, the rows it left hot can be archived by starting over. */
  lemma RetryAfterCrash(prefix: string, s: State, w: nat, batch: seq<Entry>, yearMonth: string, id: string)
    requires Ok(prefix, s) && batch != [] && forall e <- batch :: e in s.hot && YearMonth(e.at) == yearMonth
    requires ObjectKey(prefix, yearMonth, id) !in s.objects
    ensures var steps := [Crash(w)] + [Fetch(w, batch, yearMonth), Put(w, id), RecordRun(w), Delete(w)];
            && Runs(prefix, s, steps)
            && var t := After(prefix, s, steps);
               && t.ever == s.ever && (forall e :: e in t.hot <==> e in s.hot && e !in batch)
               && (forall e :: e in Archived(t.objects) <==> e in Archived(s.objects) || e in batch)
  {
    var crashed := Next(prefix, s, Crash(w));
    var steps := [Fetch(w, batch, yearMonth), Put(w, id), RecordRun(w), Delete(w)];
    StepKeeps(prefix, s, Crash(w));
    BatchMoves(prefix, crashed, w, batch, yearMonth, id);
    assert ([Crash(w)] + steps)[1..] == steps;
  }

  // ---------------------------------------------------------------- the month filter

  // Whether a key's second segment is a year-month of the range.
  predicate Overlaps(prefix: string, key: string, fromMonth: string, toMonth: string) {
    var rest := TrimPrefix(key, prefix);
    var idx := IndexByte(rest, '/');
    idx > 0 && |rest[..idx]| == 7 && !Less(rest[..idx], fromMonth) && !Less(toMonth, rest[..idx])
  }

  lemma KeyMonth(prefix: string, ym: string, id: string)
    requires ym != [] && '/' !in ym
    ensures var rest := TrimPrefix(ObjectKey(prefix, ym, id), prefix);
            IndexByte(rest, '/') == |ym| && rest[..|ym|] == ym
  {
    assert ObjectKey(prefix, ym, id) == prefix + (ym + ['/'] + (id + ".jsonl.gz"));
    assert TrimPrefix(ObjectKey(prefix, ym, id), prefix) == ym + ['/'] + (id + ".jsonl.gz");
    IndexAfter(ym, '/', id + ".jsonl.gz");
  }

  /** The string filter never drops an object that holds a row of the range. */
  lemma FilterKeepsRange(prefix: string, key: string, entries: seq<Entry>, e: Entry, from: Instant, to: Instant)
    requires Shelved(prefix, key, entries) && e in entries && InRange(e.at, from, to)
    ensures Overlaps(prefix, key, YearMonth(from), YearMonth(to))
  {
    var ym, id :| key == ObjectKey(prefix, ym, id) && forall x <- entries :: YearMonth(x.at) == ym;
    YearMonthShape(e.at);
    KeyMonth(prefix, ym, id);
    YearMonthOrder(e.at, from);
    YearMonthOrder(to, e.at);
  }

  /** A key passes exactly if a seven-character segment of the range follows the prefix. */
  lemma OverlapsMeans(prefix: string, key: string, fromMonth: string, toMonth: string)
    ensures Overlaps(prefix, key, fromMonth, toMonth) <==>
              var rest := TrimPrefix(key, prefix);
              && |rest| > 7 && rest[7] == '/' && '/' !in rest[..7]
              && !Less(rest[..7], fromMonth) && !Less(toMonth, rest[..7])
  {
    var rest := TrimPrefix(key, prefix);
    if |rest| > 7 && rest[7] == '/' && '/' !in rest[..7] {
      assert rest == rest[..7] + ['/'] + rest[8..];
      IndexAfter(rest[..7], '/', rest[8..]);
    }
  }

  /** Of the objects an archiver writes it reads exactly those whose month is not before the range's first or after its
      last. */
  lemma FilterMeans(prefix: string, at: Instant, id: string, from: Instant, to: Instant)
    ensures Overlaps(prefix, ObjectKey(prefix, YearMonth(at), id), YearMonth(from), YearMonth(to)) <==>
              && (from.year < at.year || (from.year == at.year && from.month <= at.month))
              && (at.year < to.year || (at.year == to.year && at.month <= to.month))
  {
    YearMonthShape(at);
    KeyMonth(prefix, YearMonth(at), id);
    YearMonthOrder(at, from);
    YearMonthOrder(to, at);
  }

  // ---------------------------------------------------------------- sorting

  ghost predicate WeakOrder<T(!new)>(less: (T, T) -> bool) {
    && (forall a, b :: less(a, b) ==> !less(b, a))
    && (forall a, b, c :: !less(b, a) && !less(c, b) ==> !less(c, a))
  }

  ghost predicate SortedBy<T(!new)>(s: seq<T>, less: (T, T) -> bool) {
    forall i, j :: 0 <= i < j < |s| ==> !less(s[j], s[i])
  }

  lemma Place<T(!new)>(r: seq<T>, k: nat, x: T, less: (T, T) -> bool)
    requires WeakOrder(less) && SortedBy(r, less) && k <= |r|
    requires (forall j :: 0 <= j < k ==> less(r[j], x)) && (k < |r| ==> !less(r[k], x))
    ensures SortedBy(r[..k] + [x] + r[k..], less)
    ensures multiset(r[..k] + [x] + r[k..]) == multiset(r) + multiset{x}
  {
    assert r == r[..k] + r[k..];
    var t := r[..k] + [x] + r[k..];
    forall i, j | 0 <= i < j < |t| ensures !less(t[j], t[i]) {
      if i < k {
        if j == k { assert less(r[i], x); } else { assert t[i] == r[i] && t[j] == r[if j < k then j else j - 1]; }
      } else if i == k {
        assert t[j] == r[j - 1];
        assert j - 1 > k ==> !less(r[j - 1], r[k]);
      } else {
        assert t[i] == r[i - 1] && t[j] == r[j - 1];
      }
    }
  }

  // A library sort: it promises a sorted rearrangement, and nothing about the order of equals.
  method Sort<T(!new)>(s: seq<T>, less: (T, T) -> bool) returns (r: seq<T>)
    requires WeakOrder(less)
    ensures multiset(r) == multiset(s) && SortedBy(r, less)
  {
    r := [];
    for i := 0 to |s|
      invariant multiset(r) == multiset(s[..i]) && SortedBy(r, less)
    {
      var k := 0;
      while k < |r| && less(r[k], s[i])
        invariant 0 <= k <= |r| && forall j :: 0 <= j < k ==> less(r[j], s[i])
      {
        k := k + 1;
      }
      Place(r, k, s[i], less);
      assert s[..i + 1] == s[..i] + [s[i]];
      r := r[..k] + [s[i]] + r[k..];
    }
    assert s[..|s|] == s;
  }

  lemma {:induction false} LessChain(a: string, b: string, c: string)
    requires !Less(b, a) && !Less(c, b)
    ensures !Less(c, a)
  {
    if a != [] && b != [] && c != [] && a[0] == b[0] == c[0] { LessChain(a[1..], b[1..], c[1..]); }
  }

  lemma OrdersAreWeak()
    ensures WeakOrder(Less) && WeakOrder((x: Entry, y: Entry) => Before(x.at, y.at))
  {
    forall a, b | Less(a, b) ensures !Less(b, a) { LessOneWay(a, b); }
    forall a, b, c | !Less(b, a) && !Less(c, b) ensures !Less(c, a) { LessChain(a, b, c); }
  }

  // ---------------------------------------------------------------- restore

  function Overlapping(prefix: string, listing: seq<string>, fromMonth: string, toMonth: string): seq<string> {
    if listing == [] then []
    else
      var key := listing[|listing| - 1];
      Overlapping(prefix, listing[..|listing| - 1], fromMonth, toMonth)
      + if Overlaps(prefix, key, fromMonth, toMonth) then [key] else []
  }

  method ListOverlapping(prefix: string, listing: seq<string>, from: Instant, to: Instant) returns (keys: seq<string>)
    ensures multiset(keys) == multiset(Overlapping(prefix, listing, YearMonth(from), YearMonth(to)))
    ensures SortedBy(keys, Less)
  {
    var fromMonth, toMonth := YearMonth(from), YearMonth(to);
    keys := [];
    for i := 0 to |listing|
      invariant keys == Overlapping(prefix, listing[..i], fromMonth, toMonth)
    {
      assert listing[..i + 1][..i] == listing[..i];
      var rest := TrimPrefix(listing[i], prefix);
      var idx := IndexByte(rest, '/');
      if idx <= 0 { continue; }
      var ym := rest[..idx];
      if |ym| != 7 { continue; }
      if Less(ym, fromMonth) || Less(toMonth, ym) { continue; }
      keys := keys + [listing[i]];
    }
    assert listing[..|listing|] == listing;
    OrdersAreWeak();
    keys := Sort(keys, Less);
  }

  // The rows of the objects, in the order they are read; `read` holds the objects that can be read and decoded.
  function Rows(read: map<string, seq<Entry>>, keys: seq<string>): seq<Entry>
    requires forall k <- keys :: k in read
  {
    if keys == [] then [] else Rows(read, keys[..|keys| - 1]) + read[keys[|keys| - 1]]
  }

  function Ids(rows: seq<Entry>): set<nat> {
    set e | e in rows :: e.id
  }

  // The rows of the range, each id where it first occurs.
  function Canonical(rows: seq<Entry>, from: Instant, to: Instant): seq<Entry> {
    if rows == [] then []
    else
      var e, before := rows[|rows| - 1], Canonical(rows[..|rows| - 1], from, to);
      if InRange(e.at, from, to) && e.id !in Ids(before) then before + [e] else before
  }

  // The inner loop: the rows of one object, after the rows `done` of those before it.
  method AddRows(out0: seq<Entry>, seen0: set<nat>, body: seq<Entry>,
                 from: Instant, to: Instant, ghost done: seq<Entry>)
    returns (out: seq<Entry>, seen: set<nat>)
    requires out0 == Canonical(done, from, to) && seen0 == Ids(out0)
    ensures out == Canonical(done + body, from, to) && seen == Ids(out)
  {
    out, seen := out0, seen0;
    assert done + body[..0] == done;
    for j := 0 to |body|
      invariant out == Canonical(done + body[..j], from, to) && seen == Ids(out)
    {
      assert (done + body[..j + 1])[..|done| + j] == done + body[..j];
      var e := body[j];
      if Before(e.at, from) || Before(to, e.at) { continue; }
      if e.id in seen { continue; }
      seen := seen + {e.id};
      out := out + [e];
    }
    assert body[..|body|] == body;
  }

  method FetchAndDedupe(read: map<string, seq<Entry>>, keys: seq<string>, from: Instant, to: Instant)
    returns (r: Option<seq<Entry>>)
    ensures r == None <==> exists k <- keys :: k !in read
    ensures r.Some? ==> multiset(r.value) == multiset(Canonical(Rows(read, keys), from, to))
    ensures r.Some? ==> SortedBy(r.value, (x: Entry, y: Entry) => Before(x.at, y.at))
  {
    var seen: set<nat> := {};
    var out: seq<Entry> := [];
    for i := 0 to |keys|
      invariant forall k <- keys[..i] :: k in read
      invariant out == Canonical(Rows(read, keys[..i]), from, to) && seen == Ids(out)
    {
      if keys[i] !in read { return None; }
      out, seen := AddRows(out, seen, read[keys[i]], from, to, Rows(read, keys[..i]));
      assert keys[..i + 1][..i] == keys[..i];
    }
    assert keys[..|keys|] == keys;
    OrdersAreWeak();
    out := Sort(out, (x: Entry, y: Entry) => Before(x.at, y.at));
    r := Some(out);
  }

  // What a restore that succeeds writes out.
  ghost predicate Restored(prefix: string, listing: seq<string>, read: map<string, seq<Entry>>,
                           from: Instant, to: Instant, out: seq<Entry>) {
    && SortedBy(out, (x: Entry, y: Entry) => Before(x.at, y.at))
    && exists keys :: KeysRead(prefix, listing, read, from, to, keys) &&
         multiset(out) == multiset(Canonical(Rows(read, keys), from, to))
  }

  ghost predicate KeysRead(prefix: string, listing: seq<string>, read: map<string, seq<Entry>>,
                           from: Instant, to: Instant, keys: seq<string>) {
    && multiset(keys) == multiset(Overlapping(prefix, listing, YearMonth(from), YearMonth(to)))
    && forall k <- keys :: k in read
  }

  // `listing` is what the bucket lists under the workspace's prefix.
  method Restore(prefix: string, listing: seq<string>, read: map<string, seq<Entry>>, from: Instant, to: Instant)
    returns (r: Option<seq<Entry>>)
    ensures r.Some? <==>
      Before(from, to) && forall k <- Overlapping(prefix, listing, YearMonth(from), YearMonth(to)) :: k in read
    ensures r.Some? ==> Restored(prefix, listing, read, from, to, r.value)
  {
    if !Before(from, to) { return None; }
    var keys := ListOverlapping(prefix, listing, from, to);
    assert forall k :: k in keys <==> k in multiset(keys);
    assert forall k :: k in keys <==> k in Overlapping(prefix, listing, YearMonth(from), YearMonth(to));
    r := FetchAndDedupe(read, keys, from, to);
  }

  lemma {:induction false} OverlappingMeans(prefix: string, listing: seq<string>, fromMonth: string, toMonth: string)
    ensures forall k :: k in Overlapping(prefix, listing, fromMonth, toMonth) <==>
      k in listing && Overlaps(prefix, k, fromMonth, toMonth)
  {
    if listing != [] {
      var n := |listing| - 1;
      OverlappingMeans(prefix, listing[..n], fromMonth, toMonth);
      assert listing == listing[..n] + [listing[n]];
    }
  }

  lemma {:induction false} RowsMean(read: map<string, seq<Entry>>, keys: seq<string>)
    requires forall k <- keys :: k in read
    ensures forall e :: e in Rows(read, keys) <==> exists k <- keys :: e in read[k]
  {
    if keys != [] {
      var n := |keys| - 1;
      RowsMean(read, keys[..n]);
      assert keys == keys[..n] + [keys[n]];
    }
  }

  ghost predicate DistinctIds(rows: seq<Entry>) {
    forall i, j :: 0 <= i < j < |rows| ==> rows[i].id != rows[j].id
  }

  // The first row of the range with its id.
  ghost predicate FirstOfId(rows: seq<Entry>, i: nat, from: Instant, to: Instant)
    requires i < |rows|
  {
    InRange(rows[i].at, from, to) &&
    forall j :: 0 <= j < i && InRange(rows[j].at, from, to) ==> rows[j].id != rows[i].id
  }

  /** Of the rows with one id, deduplication keeps the one that is read first. */
  lemma {:induction false} FirstIsKept(rows: seq<Entry>, i: nat, from: Instant, to: Instant)
    requires i < |rows| && FirstOfId(rows, i, from, to)
    ensures rows[i] in Canonical(rows, from, to)
    decreases |rows|
  {
    var n := |rows| - 1;
    var before := Canonical(rows[..n], from, to);
    if i < n {
      FirstIsKept(rows[..n], i, from, to);
      assert rows[i] in before;
    } else {
      CanonicalMeans(rows[..n], from, to);
      forall e <- before ensures e.id != rows[n].id {
        assert e in rows[..n] && InRange(e.at, from, to);
      }
      assert rows[n].id !in Ids(before);
    }
  }

  /** Deduplication keeps every id of the range once, and every row whose id has one value. */
  lemma {:induction false} CanonicalMeans(rows: seq<Entry>, from: Instant, to: Instant)
    ensures DistinctIds(Canonical(rows, from, to))
    ensures forall e <- Canonical(rows, from, to) :: e in rows && InRange(e.at, from, to)
    ensures forall e <- rows :: InRange(e.at, from, to) ==> e.id in Ids(Canonical(rows, from, to))
  {
    if rows != [] {
      var n := |rows| - 1;
      CanonicalMeans(rows[..n], from, to);
      assert rows == rows[..n] + [rows[n]];
      var before := Canonical(rows[..n], from, to);
      forall i | 0 <= i < |before| ensures before[i].id in Ids(before) {}
      assert Ids(before) <= Ids(Canonical(rows, from, to));
    }
  }

  lemma {:induction false} DistinctIdsOnce(a: seq<Entry>, x: Entry)
    requires DistinctIds(a)
    ensures multiset(a)[x] <= 1
  {
    if a != [] {
      var n := |a| - 1;
      assert a == a[..n] + [a[n]];
      DistinctIdsOnce(a[..n], x);
      assert a[n] !in a[..n];
    }
  }

  lemma {:induction false} TwoPlaces(b: seq<Entry>, i: nat, j: nat)
    requires i < j < |b| && b[i] == b[j]
    ensures multiset(b)[b[i]] >= 2
  {
    assert b == b[..j] + [b[j]] + b[j + 1..];
    assert b[i] in b[..j];
  }

  lemma DistinctIdsPermute(a: seq<Entry>, b: seq<Entry>)
    requires DistinctIds(a) && multiset(a) == multiset(b)
    ensures DistinctIds(b)
  {
    forall i, j | 0 <= i < j < |b| ensures b[i].id != b[j].id {
      DistinctIdsOnce(a, b[i]);
      if b[i] == b[j] { TwoPlaces(b, i, j); }
      assert b[i] in multiset(a) && b[j] in multiset(a);
    }
  }

  lemma RestoredIsArchived(prefix: string, s: State, listing: seq<string>, from: Instant, to: Instant, out: seq<Entry>)
    requires Ok(prefix, s) && (forall k :: k in listing <==> k in s.objects)
    requires Restored(prefix, listing, s.objects, from, to, out)
    ensures DistinctIds(out) && forall e :: e in out <==> e in Archived(s.objects) && InRange(e.at, from, to)
  {
    var keys :| KeysRead(prefix, listing, s.objects, from, to, keys) &&
      multiset(out) == multiset(Canonical(Rows(s.objects, keys), from, to));
    RestoredRows(prefix, s, listing, keys, from, to);
    var rows, c := Rows(s.objects, keys), Canonical(Rows(s.objects, keys), from, to);
    CanonicalMeans(rows, from, to);
    DistinctIdsPermute(c, out);
    assert forall e :: (e in out <==> e in multiset(out)) && (e in c <==> e in multiset(c));
    forall e ensures e in c <==> e in Archived(s.objects) && InRange(e.at, from, to) {
      if e in Archived(s.objects) && InRange(e.at, from, to) {
        assert e.id in Ids(c);
        var x :| x in c && x.id == e.id;
        assert x in s.ever && e in s.ever;
      }
    }
  }

  /**
    Over any archive that archivers with failures and crashes can leave behind, a restore gives exactly the archived
    rows of its range, each id once and in time order, although objects overlap and only some months are read.
   */
  lemma RestoreIsExact(prefix: string, steps: seq<Step>, listing: seq<string>,
                       from: Instant, to: Instant, out: seq<Entry>)
    requires Runs(prefix, EMPTY, steps)
    requires forall k :: k in listing <==> k in After(prefix, EMPTY, steps).objects
    requires Restored(prefix, listing, After(prefix, EMPTY, steps).objects, from, to, out)
    ensures DistinctIds(out) && forall i, j :: 0 <= i < j < |out| ==> !Before(out[j].at, out[i].at)
    ensures forall e :: e in out <==>
      e in Archived(After(prefix, EMPTY, steps).objects) && !Before(e.at, from) && !Before(to, e.at)
  {
    NoRowLost(prefix, steps);
    RestoredIsArchived(prefix, After(prefix, EMPTY, steps), listing, from, to, out);
    forall e: Entry ensures InRange(e.at, from, to) <==> !Before(e.at, from) && !Before(to, e.at) {}
  }

  // The objects that pass the filter hold every archived row of the range.
  lemma RestoredRows(prefix: string, s: State, listing: seq<string>, keys: seq<string>, from: Instant, to: Instant)
    requires Ok(prefix, s)
    requires forall k :: k in listing <==> k in s.objects
    requires KeysRead(prefix, listing, s.objects, from, to, keys)
    ensures forall e <- Rows(s.objects, keys) :: e in Archived(s.objects)
    ensures forall e <- Archived(s.objects) :: InRange(e.at, from, to) ==> e in Rows(s.objects, keys)
  {
    var chosen := Overlapping(prefix, listing, YearMonth(from), YearMonth(to));
    OverlappingMeans(prefix, listing, YearMonth(from), YearMonth(to));
    RowsMean(s.objects, keys);
    assert forall k :: (k in keys <==> k in multiset(keys)) && (k in chosen <==> k in multiset(chosen));
    forall e | e in Archived(s.objects) && InRange(e.at, from, to) ensures e in Rows(s.objects, keys) {
      var k :| k in s.objects && e in s.objects[k];
      FilterKeepsRange(prefix, k, s.objects[k], e, from, to);
      assert k in keys;
    }
  }

  /** Together: after any run, a row of the range is still hot or the restore returns it. */
  lemma RestorePlusHotIsEverything(prefix: string, steps: seq<Step>, listing: seq<string>,
                                   from: Instant, to: Instant, out: seq<Entry>)
    requires Runs(prefix, EMPTY, steps)
    requires forall k :: k in listing <==> k in After(prefix, EMPTY, steps).objects
    requires Restored(prefix, listing, After(prefix, EMPTY, steps).objects, from, to, out)
    ensures forall e <- After(prefix, EMPTY, steps).ever :: InRange(e.at, from, to) ==>
      e in out || e in After(prefix, EMPTY, steps).hot
  {
    NoRowLost(prefix, steps);
    RestoreIsExact(prefix, steps, listing, from, to, out);
  }
}
