/**
  The entry names of a bulk download: a name already in the archive gets a number before its extension, and the loop
  that prepares the entries threads one record of names used through all of them.
 */
module ZipNames {
  import opened Decimals

  // The part of the last path element from its last dot on.
  function Ext(name: string): string {
    if name == [] || name[|name| - 1] == '/' then ""
    else if name[|name| - 1] == '.' then "."
    else
      var ext := Ext(name[..|name| - 1]);
      if ext == "" then "" else ext + [name[|name| - 1]]
  }

  // An extension is a suffix.
  lemma {:induction false} ExtIsSuffix(name: string)
    ensures |Ext(name)| <= |name| && name[|name| - |Ext(name)|..] == Ext(name)
    decreases |name|
  {
    if name != [] && name[|name| - 1] != '/' && name[|name| - 1] != '.' {
      var n := |name| - 1;
      var ext := Ext(name[..n]);
      ExtIsSuffix(name[..n]);
      if ext != "" { SuffixGrows(name, ext); }
    }
  }

  lemma SuffixGrows(name: string, ext: string)
    requires name != [] && |ext| < |name| && name[..|name| - 1][|name| - 1 - |ext|..] == ext
    ensures name[|name| - |ext + [name[|name| - 1]]|..] == ext + [name[|name| - 1]]
  {
    var n := |name| - 1;
    assert name == name[..n] + [name[n]];
  }

  // It is empty, or starts with its only dot, and holds no slash.
  lemma {:induction false} ExtCharacters(name: string)
    ensures Ext(name) != "" ==> Ext(name)[0] == '.' && '.' !in Ext(name)[1..] && '/' !in Ext(name)
    decreases |name|
  {
    if name != [] && name[|name| - 1] != '/' && name[|name| - 1] != '.' {
      var n := |name| - 1;
      var ext := Ext(name[..n]);
      ExtCharacters(name[..n]);
      if ext != "" { assert (ext + [name[n]])[1..] == ext[1..] + [name[n]]; }
    }
  }

  /** A name has an extension exactly if a dot follows its last slash; it is what follows from the last dot on. */
  lemma {:induction false} ExtMeans(name: string)
    ensures Ext(name) != "" <==> exists i :: 0 <= i < |name| && name[i] == '.' && '/' !in name[i..]
    ensures Stem(name) + Ext(name) == name
    ensures Ext(name) != "" ==> Ext(name)[0] == '.' && '.' !in Ext(name)[1..] && '/' !in Ext(name)
    decreases |name|
  {
    ExtIsSuffix(name);
    ExtCharacters(name);
    if name != [] {
      var n := |name| - 1;
      assert name[n..] == [name[n]];
      ExtMeans(name[..n]);
      forall i | 0 <= i < n ensures name[i..] == name[..n][i..] + [name[n]] {}
    }
  }

  function Stem(name: string): string {
    ExtIsSuffix(name);
    name[..|name| - |Ext(name)|]
  }

  function Number(n: int): string {
    " (" + Int(n) + ")"
  }

  function Candidate(name: string, n: int): string {
    Stem(name) + Number(n) + Ext(name)
  }

  lemma CandidateInjective(name: string, m: int, n: int)
    requires Candidate(name, m) == Candidate(name, n)
    ensures m == n
  {
    var a, b := Candidate(name, m), Candidate(name, n);
    var k, e := |Stem(name)|, |Ext(name)|;
    assert a[k..|a| - e] == Number(m) && b[k..|b| - e] == Number(n);
    assert Number(m)[2..|Number(m)| - 1] == Int(m) && Number(n)[2..|Number(n)| - 1] == Int(n);
    IntInjective(m, n);
  }

  lemma CandidateIsLonger(name: string, n: int)
    ensures |Candidate(name, n)| > |name|
  {
    ExtIsSuffix(name);
  }

  lemma {:induction false} ExtAfter(stem: string, ext: string)
    requires ext != "" && ext[0] == '.' && '.' !in ext[1..] && '/' !in ext
    ensures Ext(stem + ext) == ext
    decreases |ext|
  {
    var n := |ext| - 1;
    assert (stem + ext)[..|stem + ext| - 1] == stem + ext[..n];
    if n > 0 {
      assert ext[n] == ext[1..][n - 1];
      assert ext[..n][1..] == ext[1..][..n - 1];
      ExtAfter(stem, ext[..n]);
    }
  }

  lemma {:induction false} NoExtAfter(stem: string, tail: string)
    requires Ext(stem) == "" && '.' !in tail && '/' !in tail
    ensures Ext(stem + tail) == ""
    decreases |tail|
  {
    if tail == [] {
      assert stem + tail == stem;
    } else {
      var n := |tail| - 1;
      assert (stem + tail)[..|stem + tail| - 1] == stem + tail[..n];
      NoExtAfter(stem, tail[..n]);
    }
  }

  /** A numbered name has the extension of the name it stands for. */
  lemma ExtensionIsKept(name: string, n: int)
    ensures Ext(Candidate(name, n)) == Ext(name)
  {
    ExtIsSuffix(name);
    ExtCharacters(name);
    NumberIsPlain(n);
    if Ext(name) == "" {
      assert Candidate(name, n) == name + Number(n);
      NoExtAfter(name, Number(n));
    } else {
      ExtAfter(Stem(name) + Number(n), Ext(name));
    }
  }

  lemma NumberIsPlain(n: int)
    ensures '.' !in Number(n) && '/' !in Number(n)
  {
    ReadIntBack(n);
    assert !IsDigit('.') && !IsDigit('/');
  }

  // ---------------------------------------------------------------- the name a file gets

  // The names from the `n`-th candidate on that are in use.
  ghost function Taken(used: set<string>, name: string, n: int): set<string> {
    set k <- used | exists m: int :: n <= m && k == Candidate(name, m)
  }

  lemma TakenShrinks(used: set<string>, name: string, n: int)
    requires Candidate(name, n) in used
    ensures |Taken(used, name, n + 1)| < |Taken(used, name, n)|
  {
    var c := Candidate(name, n);
    forall m: int | n + 1 <= m ensures c != Candidate(name, m) {
      if c == Candidate(name, m) { CandidateInjective(name, n, m); }
    }
    assert c in Taken(used, name, n) && c !in Taken(used, name, n + 1);
    assert Taken(used, name, n + 1) <= Taken(used, name, n) - {c};
    Smaller(Taken(used, name, n + 1), Taken(used, name, n) - {c});
  }

  lemma {:induction false} Smaller<T>(a: set<T>, b: set<T>)
    requires a <= b
    ensures |a| <= |b|
  {
    if a != {} {
      var x :| x in a;
      Smaller(a - {x}, b - {x});
    }
  }

  lemma TakenBound(used: set<string>, name: string, n: int)
    requires name in used
    ensures |Taken(used, name, n)| < |used|
  {
    forall m: int ensures Candidate(name, m) != name { CandidateIsLonger(name, m); }
    Smaller(Taken(used, name, n), used - {name});
  }

  // The first number from `n` on whose candidate is free.
  ghost function FirstFree(used: set<string>, name: string, n: int): (m: int)
    ensures n <= m && Candidate(name, m) !in used
    ensures forall k :: n <= k < m ==> Candidate(name, k) in used
    decreases |Taken(used, name, n)|
  {
    if Candidate(name, n) !in used then n
    else
      TakenShrinks(used, name, n);
      FirstFree(used, name, n + 1)
  }

  // The first free number comes before more than all the names have been tried.
  lemma {:induction false} FreeIsNear(used: set<string>, name: string, n: int)
    requires name in used
    ensures FirstFree(used, name, n) - n < |used|
    ensures FirstFree(used, name, n) - n <= |Taken(used, name, n)|
    decreases |Taken(used, name, n)|
  {
    TakenBound(used, name, n);
    if Candidate(name, n) in used {
      TakenShrinks(used, name, n);
      FreeIsNear(used, name, n + 1);
    }
  }

  // The name a file gets, and what is recorded, given the names recorded so far and the next number to try for each.
  ghost function NameFor(seen: map<string, int>, name: string): string {
    if name !in seen then name else Candidate(name, FirstFree(seen.Keys, name, seen[name]))
  }

  ghost function Recorded(seen: map<string, int>, name: string): map<string, int> {
    if name !in seen then seen[name := 1]
    else
      var m := FirstFree(seen.Keys, name, seen[name]);
      seen[name := m + 1][Candidate(name, m) := 1]
  }

  class SeenNames {
    var seen: map<string, int>

    constructor ()
      ensures seen == map[]
    {
      seen := map[];
    }

    /** `tries` counts the candidates formed: never more than there were names. */
    method Dedupe(name: string) returns (entry: string, ghost tries: nat)
      modifies this
      ensures entry == NameFor(old(seen), name) && seen == Recorded(old(seen), name)
      ensures tries <= |old(seen)|
    {
      tries := 0;
      if name !in seen {
        seen := seen[name := 1];
        return name, 0;
      }
      var ext, stem := Ext(name), Stem(name);
      ghost var used, first := seen.Keys, seen[name];
      ghost var free := FirstFree(used, name, first);
      FreeIsNear(used, name, first);
      while true
        invariant name in seen && first <= seen[name] <= free && seen == old(seen)[name := seen[name]]
        invariant tries == seen[name] - first
        decreases free - seen[name]
      {
        var n := seen[name];
        var candidate := stem + Number(n) + ext;
        tries := tries + 1;
        assert candidate == Candidate(name, n);
        assert candidate in used <==> n < free;
        seen := seen[name := n + 1];
        if candidate !in seen {
          seen := seen[candidate := 1];
          return candidate, tries;
        }
      }
    }
  }

  // ---------------------------------------------------------------- a whole archive

  ghost function Names(seen: map<string, int>, names: seq<string>): (r: seq<string>)
    ensures |r| == |names|
    decreases |names|
  {
    if names == [] then [] else [NameFor(seen, names[0])] + Names(Recorded(seen, names[0]), names[1..])
  }

  ghost function RecordedAll(seen: map<string, int>, names: seq<string>): map<string, int>
    decreases |names|
  {
    if names == [] then seen else RecordedAll(Recorded(seen, names[0]), names[1..])
  }

  /** One file: its name is new, is recorded and nothing is forgotten; it is the file's own exactly if that is not in
      use. */
  lemma NameIsNew(seen: map<string, int>, name: string)
    ensures NameFor(seen, name) !in seen && Recorded(seen, name).Keys == seen.Keys + {NameFor(seen, name)}
    ensures NameFor(seen, name) == name <==> name !in seen
    ensures Ext(NameFor(seen, name)) == Ext(name)
  {
    if name in seen {
      var m := FirstFree(seen.Keys, name, seen[name]);
      CandidateIsLonger(name, m);
      ExtensionIsKept(name, m);
    }
  }

  /** Every archive: entry names differ from each other and from every earlier name, whatever the files are called. */
  lemma {:induction false} NamesAreDistinct(seen: map<string, int>, names: seq<string>)
    ensures forall i, j :: 0 <= i < j < |names| ==> Names(seen, names)[i] != Names(seen, names)[j]
    ensures forall i :: 0 <= i < |names| ==>
      Names(seen, names)[i] !in seen && Ext(Names(seen, names)[i]) == Ext(names[i])
    ensures RecordedAll(seen, names).Keys == seen.Keys + set n | n in Names(seen, names)
    decreases |names|
  {
    if names != [] {
      NameIsNew(seen, names[0]);
      NamesAreDistinct(Recorded(seen, names[0]), names[1..]);
    }
  }

  /** A file keeps its own name exactly when no earlier entry took it. */
  lemma {:induction false} VerbatimExactly(seen: map<string, int>, names: seq<string>, i: nat)
    requires i < |names|
    ensures Names(seen, names)[i] == names[i] <==> names[i] !in seen && names[i] !in Names(seen, names)[..i]
    decreases |names|
  {
    NameIsNew(seen, names[0]);
    if i > 0 {
      VerbatimExactly(Recorded(seen, names[0]), names[1..], i - 1);
      assert Names(seen, names)[..i] == [NameFor(seen, names[0])]
        + Names(Recorded(seen, names[0]), names[1..])[..i - 1];
    } else {
      assert Names(seen, names)[..0] == [];
    }
  }

  // A numbered name that has been given was the next one free: all before it are recorded.
  ghost predicate Counted(seen: map<string, int>) {
    forall name <- seen :: seen[name] >= 1 && forall k :: 1 <= k < seen[name] ==> Candidate(name, k) in seen
  }

  lemma RecordedCounts(seen: map<string, int>, name: string)
    requires Counted(seen)
    ensures Counted(Recorded(seen, name))
  {
    NameIsNew(seen, name);
    if name in seen {
      var m, after := FirstFree(seen.Keys, name, seen[name]), Recorded(seen, name);
      CandidateIsLonger(name, m);
      forall other <- after ensures after[other] >= 1 {}
      forall other, k | other in after && 1 <= k < after[other] ensures Candidate(other, k) in after {
        if other == name { assert k < seen[name] || k == m || Candidate(name, k) in seen.Keys; }
      }
    }
  }

  // `entry` is the file's name with the least number, from 1 on, that the names in `used` leave free.
  ghost predicate LeastFree(used: set<string>, name: string, entry: string) {
    exists m: int ::
      && 1 <= m && entry == Stem(name) + " (" + Int(m) + ")" + Ext(name) && entry !in used
      && forall k :: 1 <= k < m ==> Stem(name) + " (" + Int(k) + ")" + Ext(name) in used
  }

  lemma NameForIsLeast(seen: map<string, int>, name: string)
    requires Counted(seen) && name in seen
    ensures LeastFree(seen.Keys, name, NameFor(seen, name))
  {
    var m := FirstFree(seen.Keys, name, seen[name]);
    assert Candidate(name, m) == Stem(name) + " (" + Int(m) + ")" + Ext(name);
    forall k | 1 <= k < m ensures Stem(name) + " (" + Int(k) + ")" + Ext(name) in seen.Keys {
      assert Candidate(name, k) == Stem(name) + " (" + Int(k) + ")" + Ext(name);
    }
  }

  ghost function AsSet(names: seq<string>): set<string> {
    set n | n in names
  }

  lemma UsedSoFar(seen: map<string, int>, names: seq<string>, i: nat)
    requires 1 <= i < |names|
    ensures var all, after := Names(seen, names), Recorded(seen, names[0]);
            && all[i] == Names(after, names[1..])[i - 1]
            && seen.Keys + AsSet(all[..i]) == after.Keys + AsSet(Names(after, names[1..])[..i - 1])
  {
    NameIsNew(seen, names[0]);
    var all, rest := Names(seen, names), Names(Recorded(seen, names[0]), names[1..]);
    assert all == [NameFor(seen, names[0])] + rest;
    assert all[..i] == [all[0]] + rest[..i - 1];
  }

  lemma {:induction false} NumbersGoOn(seen: map<string, int>, names: seq<string>, i: nat)
    requires Counted(seen) && i < |names|
    ensures var entry, used := Names(seen, names)[i], seen.Keys + AsSet(Names(seen, names)[..i]);
            if names[i] in used then LeastFree(used, names[i], entry) else entry == names[i]
    decreases |names|
  {
    if i == 0 {
      assert seen.Keys + AsSet(Names(seen, names)[..0]) == seen.Keys;
      if names[0] in seen { NameForIsLeast(seen, names[0]); }
    } else {
      RecordedCounts(seen, names[0]);
      NumbersGoOn(Recorded(seen, names[0]), names[1..], i - 1);
      UsedSoFar(seen, names, i);
    }
  }

  /** In every archive a file whose name is taken gets the least number, from 1 on, that no earlier entry has taken. */
  lemma NumberIsLeast(names: seq<string>, i: nat)
    requires i < |names|
    ensures var entry, earlier := Names(map[], names)[i], AsSet(Names(map[], names)[..i]);
            if names[i] in earlier then LeastFree(earlier, names[i], entry) else entry == names[i]
  {
    NumbersGoOn(map[], names, i);
    var none: map<string, int>, earlier := map[], AsSet(Names(map[], names)[..i]);
    assert none.Keys + earlier == earlier;
  }

  lemma {:induction false} NamesExtend(seen: map<string, int>, names: seq<string>, name: string)
    ensures Names(seen, names + [name]) == Names(seen, names) + [NameFor(RecordedAll(seen, names), name)]
    ensures RecordedAll(seen, names + [name]) == Recorded(RecordedAll(seen, names), name)
    decreases |names|
  {
    if names == [] {
      assert names + [name] == [name] && [name][1..] == [];
    } else {
      assert (names + [name])[1..] == names[1..] + [name];
      NamesExtend(Recorded(seen, names[0]), names[1..], name);
    }
  }

  // ---------------------------------------------------------------- preparing the entries

  const MAX_BULK_ITEMS := 100
  const MAX_BULK_DOWNLOAD_BYTES := 0x4000_0000

  datatype Error = BadId | NoAccess | NoFile | NoVersion | Quarantined | TooLarge | NoneAsked | TooMany

  // What looking a requested file up gives: its current version, or why it cannot be had.
  datatype Lookup = Refused(error: Error) | Found(name: string, objectKey: string, size: nat)

  datatype Item = Item(name: string, objectKey: string, size: nat)

  datatype Outcome = Failed(error: Error) | Prepared(items: seq<Item>, total: nat)

  function FileNames(files: seq<Lookup>): seq<string>
    requires forall f <- files :: f.Found?
  {
    seq(|files|, i requires 0 <= i < |files| => files[i].name)
  }

  function Total(files: seq<Lookup>): nat
    requires forall f <- files :: f.Found?
  {
    if files == [] then 0 else Total(files[..|files| - 1]) + files[|files| - 1].size
  }

  // Whether everything asked for so far can be had within the cap.
  predicate Fits(files: seq<Lookup>) {
    (forall f <- files :: f.Found?) && Total(files) <= 1_073_741_824
  }

  // The first file that cannot be had, or that passes the cap, and the answer it gets.
  predicate StopsAt(files: seq<Lookup>, i: nat, error: Error) {
    && i < |files| && Fits(files[..i]) && !Fits(files[..i + 1])
    && error == if files[i].Refused? then files[i].error else TooLarge
  }

  // One entry a file, in order, under the name the file gets.
  ghost predicate EntriesOf(files: seq<Lookup>, items: seq<Item>)
    requires forall f <- files :: f.Found?
  {
    && |items| == |files|
    && forall i :: 0 <= i < |files| ==>
         items[i] == Item(Names(map[], FileNames(files))[i], files[i].objectKey, files[i].size)
  }

  lemma EntriesExtend(files: seq<Lookup>, items: seq<Item>, f: Lookup)
    requires (forall g <- files :: g.Found?) && EntriesOf(files, items) && f.Found?
    ensures forall g <- files + [f] :: g.Found?
    ensures RecordedAll(map[], FileNames(files + [f])) == Recorded(RecordedAll(map[], FileNames(files)), f.name)
    ensures EntriesOf(files + [f],
            items + [Item(NameFor(RecordedAll(map[], FileNames(files)), f.name), f.objectKey, f.size)])
  {
    assert FileNames(files + [f]) == FileNames(files) + [f.name];
    NamesExtend(map[], FileNames(files), f.name);
  }

  method PrepareItems(files: seq<Lookup>) returns (r: Outcome)
    ensures r.Prepared? <==> 0 < |files| <= 100 && Fits(files)
    ensures r.Prepared? ==> r.total == Total(files) && EntriesOf(files, r.items)
    ensures r.Prepared? ==> forall i, j :: 0 <= i < j < |files| ==> r.items[i].name != r.items[j].name
    ensures r.Failed? && 0 < |files| <= 100 ==> exists i :: StopsAt(files, i, r.error)
    ensures files == [] ==> r == Failed(NoneAsked)
    ensures |files| > 100 ==> r == Failed(TooMany)
  {
    if files == [] { return Failed(NoneAsked); }
    if |files| > MAX_BULK_ITEMS { return Failed(TooMany); }
    var items: seq<Item>, total := [], 0;
    var names := new SeenNames();
    for i := 0 to |files|
      invariant fresh(names) && Fits(files[..i]) && total == Total(files[..i]) && EntriesOf(files[..i], items)
      invariant names.seen == RecordedAll(map[], FileNames(files[..i]))
    {
      assert files[..i + 1] == files[..i] + [files[i]];
      FitsOneMore(files[..i], files[i]);
      var f := files[i];
      if f.Refused? {
        UnfitFrom(files, i);
        assert StopsAt(files, i, f.error);
        return Failed(f.error);
      }
      total := total + f.size;
      if total > MAX_BULK_DOWNLOAD_BYTES {
        UnfitFrom(files, i);
        assert StopsAt(files, i, TooLarge);
        return Failed(TooLarge);
      }
      EntriesExtend(files[..i], items, f);
      var entry, tries := names.Dedupe(f.name);
      items := items + [Item(entry, f.objectKey, f.size)];
    }
    assert files[..|files|] == files;
    NamesAreDistinct(map[], FileNames(files));
    r := Prepared(items, total);
  }

  lemma FitsOneMore(files: seq<Lookup>, f: Lookup)
    requires Fits(files)
    ensures Fits(files + [f]) <==> f.Found? && Total(files) + f.size <= MAX_BULK_DOWNLOAD_BYTES
    ensures f.Found? ==> (forall g <- files + [f] :: g.Found?) && Total(files + [f]) == Total(files) + f.size
  {
    assert f in files + [f] && (files + [f])[..|files|] == files;
  }

  // More files never fit where fewer do not.
  lemma {:induction false} UnfitFrom(files: seq<Lookup>, i: nat)
    requires i < |files| && !Fits(files[..i + 1])
    ensures !Fits(files)
    decreases |files|
  {
    var n := |files| - 1;
    assert files[..|files|] == files;
    if i < n {
      assert files[..n][..i + 1] == files[..i + 1];
      UnfitFrom(files[..n], i);
      assert forall f <- files[..n] :: f in files;
      if forall f <- files :: f.Found? { assert Total(files) == Total(files[..n]) + files[n].size; }
    }
  }
}
