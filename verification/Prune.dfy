/** `prune`: which recognised entries stay, and what is counted as removed. */
module Prune {
  import opened Wrappers
  import opened Decimal

  datatype Entry = Entry(path: string, fetchedAt: int, size: nat)

  predicate IsV2Path(path: string) { |path| >= 9 && path[..9] == "cache/v2/" }

  /** Newest first, then version 2 first, then by path. */
  predicate Before(a: Entry, b: Entry) {
    || a.fetchedAt > b.fetchedAt
    || (a.fetchedAt == b.fetchedAt
        && ((IsV2Path(a.path) && !IsV2Path(b.path))
            || (IsV2Path(a.path) == IsV2Path(b.path) && Less(a.path, b.path))))
  }

  lemma BeforeIsStrictOrder(a: Entry, b: Entry, c: Entry)
    ensures !(Before(a, b) && Before(b, a))
    ensures a.path != b.path ==> Before(a, b) || Before(b, a)
    ensures Before(a, b) && Before(b, c) ==> Before(a, c)
  {
    LessTotal(a.path, b.path);
    if Less(a.path, b.path) && Less(b.path, c.path) { LessTransitive(a.path, b.path, c.path); }
  }

  // ---------------------------------------------------------------- sorting

  function Insert(e: Entry, s: seq<Entry>): seq<Entry> {
    if s == [] || Before(e, s[0]) then [e] + s else [s[0]] + Insert(e, s[1..])
  }

  function Sort(s: seq<Entry>): seq<Entry> {
    if s == [] then [] else Insert(s[0], Sort(s[1..]))
  }

  predicate PathsDiffer(s: seq<Entry>) { forall i, j :: 0 <= i < j < |s| ==> s[i].path != s[j].path }

  predicate InOrder(s: seq<Entry>) { forall i, j :: 0 <= i < j < |s| ==> Before(s[i], s[j]) }

  lemma {:induction false} InsertKeeps(e: Entry, s: seq<Entry>)
    requires InOrder(s) && forall x :: x in s ==> x.path != e.path
    ensures InOrder(Insert(e, s)) && multiset(Insert(e, s)) == multiset(s) + multiset{e}
  {
    hide Before;
    if s != [] {
      BeforeIsStrictOrder(e, s[0], s[0]);
      if Before(e, s[0]) {
        forall j | 0 <= j < |s| ensures Before(e, s[j]) { if j > 0 { BeforeIsStrictOrder(e, s[0], s[j]); } }
      } else {
        InsertKeeps(e, s[1..]);
        assert s == [s[0]] + s[1..];
        var t := Insert(e, s[1..]);
        forall j | 0 <= j < |t| ensures Before(s[0], t[j]) {
          assert t[j] in multiset(t);
          assert t[j] == e || t[j] in s[1..];
        }
      }
    }
  }

  lemma {:induction false} SortSorts(s: seq<Entry>)
    requires PathsDiffer(s)
    ensures InOrder(Sort(s)) && multiset(Sort(s)) == multiset(s)
  {
    hide Before;
    if s != [] {
      SortSorts(s[1..]);
      assert s == [s[0]] + s[1..];
      forall x | x in Sort(s[1..]) ensures x.path != s[0].path {
        assert x in multiset(Sort(s[1..]));
        assert x in s[1..];
      }
      InsertKeeps(s[0], Sort(s[1..]));
    }
  }

  // ---------------------------------------------------------------- what to remove

  predicate Aged(e: Entry, olderThan: Option<int>) { olderThan.Some? && e.fetchedAt < olderThan.value }

  function Paths(s: seq<Entry>): set<string> { set e | e in s :: e.path }

  function AgedPaths(s: seq<Entry>, olderThan: Option<int>): set<string> {
    set e | e in s && Aged(e, olderThan) :: e.path
  }

  function Drop(s: seq<Entry>, n: nat): seq<Entry> { if n <= |s| then s[n..] else [] }

  /** The two sets are taken from all entries, each on its own. */
  function ToRemove(entries: seq<Entry>, olderThan: Option<int>, maxEntries: Option<nat>): set<string> {
    AgedPaths(entries, olderThan) + (if maxEntries.Some? then Paths(Drop(Sort(entries), maxEntries.value)) else {})
  }

  /** How many of the ordered entries stay: the leading ones that are not aged, capped. */
  function KeepCount(sorted: seq<Entry>, olderThan: Option<int>, maxEntries: Option<nat>): (n: nat)
    ensures n <= |sorted|
  {
    if sorted == [] || Aged(sorted[0], olderThan) || maxEntries == Some(0) then 0
    else 1 + KeepCount(sorted[1..], olderThan, if maxEntries.Some? then Some(maxEntries.value - 1) else None)
  }

  lemma {:induction false} KeepCountSplits(sorted: seq<Entry>, olderThan: Option<int>, maxEntries: Option<nat>)
    requires InOrder(sorted)
    ensures var n := KeepCount(sorted, olderThan, maxEntries);
            && (maxEntries.Some? ==> n <= maxEntries.value)
            && (forall k :: 0 <= k < n ==> !Aged(sorted[k], olderThan))
            && (forall k :: n <= k < |sorted| ==>
                  Aged(sorted[k], olderThan) || (maxEntries.Some? && k >= maxEntries.value))
  {
    if sorted != [] && !Aged(sorted[0], olderThan) && maxEntries != Some(0) {
      var rest := sorted[1..];
      var cap := if maxEntries.Some? then Some(maxEntries.value - 1) else None;
      KeepCountSplits(rest, olderThan, cap);
      forall k | 0 <= k < |rest| ensures sorted[k + 1] == rest[k] {}
    }
  }

  lemma SamePathSame(s: seq<Entry>, e: Entry, f: Entry)
    requires PathsDiffer(s) && e in s && f in s && e.path == f.path
    ensures e == f
  {}

  lemma SortedElements(entries: seq<Entry>)
    requires PathsDiffer(entries)
    ensures forall e :: e in Sort(entries) <==> e in entries
    ensures |Sort(entries)| == |entries| && PathsDiffer(Sort(entries))
  {
    SortSorts(entries);
    var s := Sort(entries);
    forall e ensures e in s <==> e in entries { assert e in multiset(s) <==> e in multiset(entries); }
    assert |multiset(s)| == |s| && |multiset(entries)| == |entries|;
    forall i, j | 0 <= i < j < |s| ensures s[i].path != s[j].path {
      assert Before(s[i], s[j]);
      if s[i].path == s[j].path {
        SamePathSame(entries, s[i], s[j]);
        BeforeIsStrictOrder(s[i], s[j], s[j]);
      }
    }
  }

  /** Survivors among the recognised entries are the first `maxEntries`, in the order
      newest, version 2, path, of those that are not older than the cutoff; so taking the
      two removal sets apart is ageing first and capping second. */
  lemma Survivors(entries: seq<Entry>, olderThan: Option<int>, maxEntries: Option<nat>, e: Entry)
    requires PathsDiffer(entries) && e in entries
    ensures var s := Sort(entries);
            e.path !in ToRemove(entries, olderThan, maxEntries) <==> e in s[..KeepCount(s, olderThan, maxEntries)]
  {
    hide Before, Sort;
    SortSorts(entries);
    SortedElements(entries);
    var s := Sort(entries);
    var n := KeepCount(s, olderThan, maxEntries);
    KeepCountSplits(s, olderThan, maxEntries);
    var i :| 0 <= i < |s| && s[i] == e;
    if i < n {
      assert e == s[..n][i];
    } else if !Aged(e, olderThan) {
      assert Drop(s, maxEntries.value)[i - maxEntries.value] == e;
    }
  }

  lemma InOrderAt(s: seq<Entry>, i: nat, j: nat)
    requires InOrder(s) && i < j < |s|
    ensures Before(s[i], s[j])
  {
    hide Before;
  }

  lemma BeforeMeans(e: Entry, f: Entry)
    requires Before(e, f)
    ensures || f.fetchedAt < e.fetchedAt
            || (f.fetchedAt == e.fetchedAt && "cache/v2/" <= e.path && !("cache/v2/" <= f.path))
            || (f.fetchedAt == e.fetchedAt && Less(e.path, f.path)
                && ("cache/v2/" <= e.path <==> "cache/v2/" <= f.path))
  {
    hide Less;
  }

  /** What the cap lets go is older than everything it keeps or, fetched at the same time,
      a version 1 entry where a version 2 entry stays, or later by path. */
  lemma CapKeepsTheBest(entries: seq<Entry>, olderThan: Option<int>, maxEntries: Option<nat>, e: Entry, f: Entry)
    requires PathsDiffer(entries) && e in entries && f in entries
    requires e.path !in ToRemove(entries, olderThan, maxEntries) && f.path in ToRemove(entries, olderThan, maxEntries)
    ensures || f.fetchedAt < e.fetchedAt
            || (f.fetchedAt == e.fetchedAt && "cache/v2/" <= e.path && !("cache/v2/" <= f.path))
            || (f.fetchedAt == e.fetchedAt && Less(e.path, f.path)
                && ("cache/v2/" <= e.path <==> "cache/v2/" <= f.path))
  {
    hide *;
    hide Before;
    SortSorts(entries);
    SortedElements(entries);
    Survivors(entries, olderThan, maxEntries, e);
    Survivors(entries, olderThan, maxEntries, f);
    var s := Sort(entries);
    var n := KeepCount(s, olderThan, maxEntries);
    var i :| 0 <= i < |s| && s[i] == e;
    var j :| 0 <= j < |s| && s[j] == f;
    OnlyOnce(s, n, i);
    OnlyOnce(s, n, j);
    InOrderAt(s, i, j);
    BeforeMeans(e, f);
  }

  function Young(s: seq<Entry>, olderThan: Option<int>): set<Entry> {
    set e | e in s && (olderThan.Some? ==> e.fetchedAt >= olderThan.value)
  }

  lemma SameYoung(s: seq<Entry>, t: seq<Entry>, olderThan: Option<int>)
    requires forall e :: e in s <==> e in t
    ensures Young(s, olderThan) == Young(t, olderThan)
  {
    assert forall e :: e in Young(s, olderThan) <==> e in Young(t, olderThan);
  }

  /** As many stay as the cap allows and are young enough. */
  lemma CapIsUsed(entries: seq<Entry>, olderThan: Option<int>, maxEntries: Option<nat>)
    requires PathsDiffer(entries)
    ensures var young := Young(entries, olderThan);
            var n := KeepCount(Sort(entries), olderThan, maxEntries);
            n == if maxEntries.Some? && maxEntries.value < |young| then maxEntries.value else |young|
  {
    hide *;
    SortSorts(entries);
    SortedElements(entries);
    var s := Sort(entries);
    KeepCountSplits(s, olderThan, None);
    if maxEntries.Some? { CappedKeepCount(s, olderThan, maxEntries.value); }
    var m := KeepCount(s, olderThan, None);
    YoungAreFirst(s, olderThan, m);
    SameYoung(entries, s, olderThan);
    DistinctSize(s[..m]);
  }

  lemma YoungAreFirst(s: seq<Entry>, olderThan: Option<int>, m: nat)
    requires m <= |s|
    requires forall k :: 0 <= k < m ==> !Aged(s[k], olderThan)
    requires forall k :: m <= k < |s| ==> Aged(s[k], olderThan)
    ensures Young(s, olderThan) == set e | e in s[..m]
  {
    forall e | e in Young(s, olderThan) ensures e in s[..m] {
      var k :| 0 <= k < |s| && s[k] == e;
      assert e == s[..m][k];
    }
  }

  lemma {:induction false} CappedKeepCount(s: seq<Entry>, olderThan: Option<int>, cap: nat)
    ensures var all := KeepCount(s, olderThan, None);
            KeepCount(s, olderThan, Some(cap)) == if cap < all then cap else all
  {
    if s != [] && cap > 0 { CappedKeepCount(s[1..], olderThan, cap - 1); }
  }

  lemma {:induction false} DistinctSize(s: seq<Entry>)
    requires PathsDiffer(s)
    ensures |set e | e in s| == |s|
  {
    if s != [] {
      DistinctSize(Front(s));
      assert (set e | e in s) == (set e | e in Front(s)) + {Last(s)};
      assert Last(s) !in Front(s);
    }
  }

  // ---------------------------------------------------------------- deleting and counting

  const DELETE_BATCH_MAXIMUM: nat := 10_000

  datatype Error = InvalidArgument

  datatype Removed = Removed(entries: nat, bytes: nat)

  /** Number and sizes of the entries whose path is in the set. */
  function Tally(s: seq<Entry>, remove: set<string>): Removed {
    if s == [] then Removed(0, 0)
    else
      var rest := Tally(s[..|s| - 1], remove);
      var last := s[|s| - 1];
      if last.path in remove then Removed(rest.entries + 1, rest.bytes + last.size) else rest
  }

  function Plus(r: Removed, q: Removed): Removed { Removed(r.entries + q.entries, r.bytes + q.bytes) }

  class CacheDirectory {
    var files: map<string, Entry>

    /** `delete_admin_entries`: a file that no longer is what was scanned stays and is not
        counted. */
    method Delete(entries: seq<Entry>, remove: set<string>) returns (r: Removed)
      requires PathsDiffer(entries)
      modifies this
      ensures (forall e :: e in entries ==> e.path in old(files) && old(files)[e.path] == e) ==>
                r == Tally(entries, remove)
      ensures forall p :: p in files <==>
                (p in old(files) && !(p in remove && exists e :: e in entries && e.path == p && old(files)[p] == e))
      ensures forall p :: p in files ==> p in old(files) && files[p] == old(files)[p]
    {
      r := Removed(0, 0);
      for i := 0 to |entries|
        invariant forall p :: p in files ==> p in old(files) && files[p] == old(files)[p]
        invariant forall p :: p in files <==>
                    (p in old(files)
                     && !(p in remove && exists k :: 0 <= k < i && entries[k].path == p && old(files)[p] == entries[k]))
        invariant (forall e :: e in entries ==> e.path in old(files) && old(files)[e.path] == e) ==>
                    r == Tally(entries[..i], remove)
      {
        var e := entries[i];
        assert entries[..i + 1][..i] == entries[..i];
        assert forall k :: 0 <= k < i ==> entries[k].path != e.path;
        if e.path in remove && e.path in files && files[e.path] == e {
          files := files - {e.path};
          r := Removed(r.entries + 1, r.bytes + e.size);
        }
      }
      assert entries[..|entries|] == entries;
    }

    /** `prune`: entries first, then stale temporaries and stale leases, which add to the
        same counts. */
    method Prune(entries: seq<Entry>, artifacts: seq<Entry>, leases: nat, olderThan: Option<int>,
                 maxEntries: Option<nat>)
      returns (r: Result<Removed, Error>)
      requires PathsDiffer(entries + artifacts)
      requires forall e :: e in entries + artifacts ==> e.path in files && files[e.path] == e
      modifies this
      ensures r.Failure? <==> maxEntries.Some? && maxEntries.value > DELETE_BATCH_MAXIMUM
      ensures r.Failure? ==> files == old(files)
      ensures r.Success? ==>
                r.value == Plus(Plus(Tally(entries, ToRemove(entries, olderThan, maxEntries)),
                                     Tally(artifacts, Paths(artifacts))),
                                Removed(leases, 0))
      ensures r.Success? ==> forall e :: e in entries ==>
                (e.path in files <==> e.path !in ToRemove(entries, olderThan, maxEntries))
      ensures r.Success? ==> forall p :: p in Paths(artifacts) ==> p !in files
      ensures forall p :: p in old(files) && p !in Paths(entries + artifacts) ==>
                p in files && files[p] == old(files)[p]
    {
      if maxEntries.Some? && maxEntries.value > DELETE_BATCH_MAXIMUM { return Failure(InvalidArgument); }
      PartsDiffer(entries, artifacts);
      var remove := AgedPaths(entries, olderThan);
      if maxEntries.Some? { remove := remove + Paths(Drop(Sort(entries), maxEntries.value)); }
      assert remove == ToRemove(entries, olderThan, maxEntries);
      var first := Delete(entries, remove);
      var second := Delete(artifacts, Paths(artifacts));
      r := Success(Plus(Plus(first, second), Removed(leases, 0)));
    }
  }

  lemma PartsDiffer(s: seq<Entry>, t: seq<Entry>)
    requires PathsDiffer(s + t)
    ensures PathsDiffer(s) && PathsDiffer(t)
    ensures forall e, f :: e in s && f in t ==> e.path != f.path
  {
    var u := s + t;
    assert forall i :: 0 <= i < |s| ==> u[i] == s[i];
    assert forall j :: 0 <= j < |t| ==> u[|s| + j] == t[j];
    forall e, f | e in s && f in t ensures e.path != f.path {
      var i :| 0 <= i < |s| && s[i] == e;
      var j :| 0 <= j < |t| && t[j] == f;
      assert u[i].path != u[|s| + j].path;
    }
  }

  function TotalSize(s: seq<Entry>): nat { if s == [] then 0 else TotalSize(s[..|s| - 1]) + s[|s| - 1].size }

  lemma {:induction false} TallyPermutes(s: seq<Entry>, t: seq<Entry>, remove: set<string>)
    requires multiset(s) == multiset(t)
    ensures Tally(s, remove) == Tally(t, remove)
  {
    if s == [] {
      assert |multiset(t)| == |multiset(s)|;
      assert t == [];
    } else {
      var e := s[|s| - 1];
      var u, v := TakeOut(s, t);
      TallyPermutes(s[..|s| - 1], u + v, remove);
      TallyMiddle(u, e, v, remove);
      TallyMiddle(s[..|s| - 1], e, [], remove);
      assert s[..|s| - 1] + [e] + [] == s && s[..|s| - 1] + [] == s[..|s| - 1];
    }
  }

  lemma TakeOut(s: seq<Entry>, t: seq<Entry>) returns (u: seq<Entry>, v: seq<Entry>)
    requires s != [] && multiset(s) == multiset(t)
    ensures t == u + [s[|s| - 1]] + v && multiset(u + v) == multiset(s[..|s| - 1])
  {
    var i := AlsoIn(s, t, |s| - 1);
    u, v := t[..i], t[i + 1..];
    Without(t, i);
    WithoutLast(s);
    CancelOne(multiset(u + v), multiset(s[..|s| - 1]), t[i]);
  }

  lemma AlsoIn(s: seq<Entry>, t: seq<Entry>, k: nat) returns (i: nat)
    requires k < |s| && multiset(s) == multiset(t)
    ensures i < |t| && t[i] == s[k]
  {
    assert s[k] in multiset(s);
    assert s[k] in t;
    i :| 0 <= i < |t| && t[i] == s[k];
  }

  lemma WithoutLast(s: seq<Entry>)
    requires s != []
    ensures multiset(s) == multiset(s[..|s| - 1]) + multiset{s[|s| - 1]}
  {
    Without(s, |s| - 1);
    assert s[..|s| - 1] + s[|s|..] == s[..|s| - 1];
  }

  lemma Without(s: seq<Entry>, i: nat)
    requires i < |s|
    ensures s == s[..i] + [s[i]] + s[i + 1..]
    ensures multiset(s) == multiset(s[..i] + s[i + 1..]) + multiset{s[i]}
  {
    assert s == s[..i] + [s[i]] + s[i + 1..];
    MultisetMiddle(s[..i], s[i], s[i + 1..]);
  }

  lemma MultisetMiddle(u: seq<Entry>, e: Entry, v: seq<Entry>)
    ensures multiset(u + [e] + v) == multiset(u + v) + multiset{e}
  {}

  lemma CancelOne(a: multiset<Entry>, b: multiset<Entry>, e: Entry)
    requires a + multiset{e} == b + multiset{e}
    ensures a == b
  {
    assert a == (a + multiset{e}) - multiset{e} && b == (b + multiset{e}) - multiset{e};
  }

  lemma {:induction false} TallyMiddle(a: seq<Entry>, e: Entry, b: seq<Entry>, remove: set<string>)
    ensures Tally(a + [e] + b, remove) == Plus(Tally(a + b, remove), Tally([e], remove))
  {
    if b == [] {
      TallyLast(a, e, remove);
      TallyLast([], e, remove);
      assert [] + [e] == [e] && a + [e] + b == a + [e] && a + b == a;
    } else {
      var c, x := b[..|b| - 1], b[|b| - 1];
      TallyMiddle(a, e, c, remove);
      TallyLast(a + [e] + c, x, remove);
      TallyLast(a + c, x, remove);
      assert a + [e] + b == a + [e] + c + [x] && a + b == a + c + [x];
    }
    hide *;
  }

  lemma TallyLast(s: seq<Entry>, x: Entry, remove: set<string>)
    ensures Tally(s + [x], remove)
            == if x.path in remove then Removed(Tally(s, remove).entries + 1, Tally(s, remove).bytes + x.size)
               else Tally(s, remove)
    ensures Tally([], remove) == Removed(0, 0)
  {
    assert (s + [x])[..|s|] == s;
  }

  lemma {:induction false} TallySplit(s: seq<Entry>, n: nat, remove: set<string>)
    requires n <= |s|
    requires forall k :: 0 <= k < n ==> s[k].path !in remove
    requires forall k :: n <= k < |s| ==> s[k].path in remove
    ensures Tally(s, remove).entries + n == |s|
    ensures Tally(s, remove).bytes + TotalSize(s[..n]) == TotalSize(s)
  {
    if |s| > n {
      var t := s[..|s| - 1];
      TallySplit(t, n, remove);
      assert t[..n] == s[..n];
    } else {
      assert s[..n] == s;
      NoneRemoved(s, remove);
    }
  }

  lemma {:induction false} NoneRemoved(s: seq<Entry>, remove: set<string>)
    requires forall k :: 0 <= k < |s| ==> s[k].path !in remove
    ensures Tally(s, remove) == Removed(0, 0)
  {
    if s != [] { NoneRemoved(s[..|s| - 1], remove); }
  }

  /** The removed entries and bytes are exactly those of the entries that do not stay. */
  lemma RemovedIsTheRest(entries: seq<Entry>, olderThan: Option<int>, maxEntries: Option<nat>)
    requires PathsDiffer(entries)
    ensures var s := Sort(entries);
            var n := KeepCount(s, olderThan, maxEntries);
            && Tally(entries, ToRemove(entries, olderThan, maxEntries)).entries + n == |entries|
            && Tally(entries, ToRemove(entries, olderThan, maxEntries)).bytes + TotalSize(s[..n]) == TotalSize(s)
  {
    SortSorts(entries);
    SortedElements(entries);
    var s, remove := Sort(entries), ToRemove(entries, olderThan, maxEntries);
    var n := KeepCount(s, olderThan, maxEntries);
    forall k | 0 <= k < |s| ensures s[k].path in remove <==> k >= n {
      Survivors(entries, olderThan, maxEntries, s[k]);
      OnlyOnce(s, n, k);
    }
    hide Sort, ToRemove, KeepCount, Tally, TotalSize, Before;
    TallyPermutes(s, entries, remove);
    TallySplit(s, n, remove);
  }

  lemma OnlyOnce(s: seq<Entry>, n: nat, k: nat)
    requires PathsDiffer(s) && n <= |s| && k < |s|
    ensures s[k] in s[..n] <==> k < n
  {
    if k < n { assert s[..n][k] == s[k]; }
  }
}
