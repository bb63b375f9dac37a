/**
 The bounded remap cache: which files an over-budget miss evicts, and the running size estimate that
 decides when to look.
 */
module Cache {
  import opened Wire

  const MAX_U64: nat := 0xffff_ffff_ffff_ffff

  type Path = nat
  datatype File = File(path: Path, size: u64, time: nat)

  /** The directory's true size. */
  function Size(files: seq<File>): nat {
    if files == [] then 0 else Size(files[..|files| - 1]) + files[|files| - 1].size
  }

  /** No two entries of a directory share a name. */
  ghost predicate Distinct(files: seq<File>) {
    files == [] ||
    (Distinct(files[..|files| - 1]) && forall f :: f in files[..|files| - 1] ==> f.path != files[|files| - 1].path)
  }

  lemma {:induction false} Apart(files: seq<File>, i: nat, j: nat)
    requires Distinct(files) && i < j < |files|
    ensures files[i].path != files[j].path
    decreases |files|
  {
    var front := files[..|files| - 1];
    if j < |front| {
      Apart(front, i, j);
    } else {
      assert front[i] in front;
    }
  }

  // ----- Oldest first -------------------------------------------------------------------------

  predicate InRange(files: seq<File>, order: seq<nat>) {
    forall k :: 0 <= k < |order| ==> order[k] < |files|
  }

  function Insert(files: seq<File>, order: seq<nat>, i: nat): (r: seq<nat>)
    requires i < |files| && InRange(files, order)
    ensures InRange(files, r)
  {
    if order == [] || files[order[0]].time > files[i].time then [i] + order
    else [order[0]] + Insert(files, order[1..], i)
  }

  /** The first `n` indices in a stable sort by modification time. */
  function OldestFirst(files: seq<File>, n: nat): (r: seq<nat>)
    requires n <= |files|
    ensures InRange(files, r)
  {
    if n == 0 then [] else Insert(files, OldestFirst(files, n - 1), n - 1)
  }

  predicate Before(files: seq<File>, i: nat, j: nat)
    requires i < |files| && j < |files|
  {
    files[i].time < files[j].time || (files[i].time == files[j].time && i < j)
  }

  ghost predicate Sorted(files: seq<File>, order: seq<nat>)
    requires InRange(files, order)
  {
    forall a, b :: 0 <= a < b < |order| ==> Before(files, order[a], order[b])
  }

  lemma {:induction false} InsertMembers(files: seq<File>, order: seq<nat>, i: nat)
    requires i < |files| && InRange(files, order)
    ensures forall x: nat :: x in Insert(files, order, i) <==> x == i || x in order
    decreases |order|
  {
    if order != [] && files[order[0]].time <= files[i].time {
      InsertMembers(files, order[1..], i);
    }
  }

  lemma {:induction false} InsertSorted(files: seq<File>, order: seq<nat>, i: nat)
    requires i < |files| && InRange(files, order) && Sorted(files, order)
    requires forall k :: 0 <= k < |order| ==> order[k] < i
    ensures Sorted(files, Insert(files, order, i))
    decreases |order|
  {
    if order != [] && files[order[0]].time <= files[i].time {
      var rest := Insert(files, order[1..], i);
      InsertSorted(files, order[1..], i);
      InsertMembers(files, order[1..], i);
      forall b | 0 <= b < |rest| ensures Before(files, order[0], rest[b]) {
        assert rest[b] in rest;
        if rest[b] != i {
          var k :| 0 <= k < |order[1..]| && order[1..][k] == rest[b];
          assert order[k + 1] == rest[b];
        }
      }
    }
  }

  /** The order lists every index once, oldest first, ties in listing order. */
  lemma {:induction false} OldestFirstSorts(files: seq<File>, n: nat)
    requires n <= |files|
    ensures Sorted(files, OldestFirst(files, n))
    ensures forall x: nat :: x in OldestFirst(files, n) <==> x < n
  {
    if n > 0 {
      OldestFirstSorts(files, n - 1);
      var front := OldestFirst(files, n - 1);
      assert forall k :: 0 <= k < |front| ==> front[k] in front;
      InsertSorted(files, front, n - 1);
      InsertMembers(files, front, n - 1);
    }
  }

  // ----- Choosing what to evict ---------------------------------------------------------------

  function Freed(files: seq<File>, evict: seq<nat>): nat
    requires InRange(files, evict)
  {
    if evict == [] then 0 else Freed(files, evict[..|evict| - 1]) + files[evict[|evict| - 1]].size
  }

  /** The candidates of an order: all but the file to keep. */
  function Others(order: seq<nat>, keep: nat): (r: seq<nat>)
    ensures forall k :: 0 <= k < |r| ==> r[k] in order && r[k] != keep
  {
    if order == [] then []
    else Others(order[..|order| - 1], keep) + if order[|order| - 1] == keep then [] else [order[|order| - 1]]
  }

  /** What an eviction plan is: the shortest oldest-first run of candidates that brings the total within budget. */
  ghost predicate IsPlan(files: seq<File>, total: nat, budget: nat, keep: nat, evict: seq<nat>) {
    var others := Others(OldestFirst(files, |files|), keep);
    && InRange(files, evict)
    && evict <= others
    && (forall k :: 0 <= k < |evict| ==> total - Freed(files, evict[..k]) > budget)
    && (total - Freed(files, evict) <= budget || evict == others)
  }

  /** There is only one such plan. */
  lemma PlanUnique(files: seq<File>, total: nat, budget: nat, keep: nat, a: seq<nat>, b: seq<nat>)
    requires IsPlan(files, total, budget, keep, a) && IsPlan(files, total, budget, keep, b) && |a| <= |b|
    ensures a == b
  {
    assert b[..|a|] == a;
  }

  lemma {:induction false} InsertFreed(files: seq<File>, order: seq<nat>, i: nat)
    requires i < |files| && InRange(files, order)
    ensures Freed(files, Insert(files, order, i)) == Freed(files, order) + files[i].size
    decreases |order|
  {
    if order == [] || files[order[0]].time > files[i].time {
      FreedConcat(files, [i], order);
    } else {
      InsertFreed(files, order[1..], i);
      FreedConcat(files, [order[0]], order[1..]);
      FreedConcat(files, [order[0]], Insert(files, order[1..], i));
      assert [order[0]] + order[1..] == order;
    }
  }

  lemma {:induction false} FreedConcat(files: seq<File>, a: seq<nat>, b: seq<nat>)
    requires InRange(files, a) && InRange(files, b)
    ensures Freed(files, a + b) == Freed(files, a) + Freed(files, b)
    ensures |a| == 1 ==> Freed(files, a) == files[a[0]].size
    decreases |b|
  {
    if b == [] {
      assert a + b == a;
    } else {
      FreedConcat(files, a, b[..|b| - 1]);
      assert (a + b)[..|a + b| - 1] == a + b[..|b| - 1];
    }
  }

  lemma {:induction false} FreesAll(files: seq<File>, n: nat)
    requires n <= |files|
    ensures Freed(files, OldestFirst(files, n)) == Size(files[..n])
  {
    if n > 0 {
      FreesAll(files, n - 1);
      InsertFreed(files, OldestFirst(files, n - 1), n - 1);
      assert files[..n][..n - 1] == files[..n - 1];
    }
  }

  /** A part of the order never frees more than the whole directory. */
  lemma FreedBound(files: seq<File>, k: nat)
    requires k <= |OldestFirst(files, |files|)|
    ensures InRange(files, OldestFirst(files, |files|)[..k])
    ensures Freed(files, OldestFirst(files, |files|)[..k]) <= Size(files)
  {
    var order := OldestFirst(files, |files|);
    FreedConcat(files, order[..k], order[k..]);
    assert order[..k] + order[k..] == order;
    FreesAll(files, |files|);
    assert files[..|files|] == files;
  }

  lemma OthersStep(order: seq<nat>, k: nat, keep: nat)
    requires k < |order|
    ensures Others(order[..k + 1], keep) == Others(order[..k], keep) + if order[k] == keep then [] else [order[k]]
  {
    assert order[..k + 1][..k] == order[..k];
  }

  lemma {:induction false} OthersPrefix(order: seq<nat>, k: nat, keep: nat)
    requires k <= |order|
    ensures Others(order[..k], keep) <= Others(order, keep)
    decreases |order|
  {
    if k == |order| {
      assert order[..k] == order;
    } else {
      assert order[..|order| - 1][..k] == order[..k];
      OthersPrefix(order[..|order| - 1], k, keep);
    }
  }

  lemma FreedStep(files: seq<File>, evict: seq<nat>, i: nat)
    requires InRange(files, evict) && i < |files|
    ensures InRange(files, evict + [i]) && Freed(files, evict + [i]) == Freed(files, evict) + files[i].size
  {
    assert (evict + [i])[..|evict|] == evict;
  }

  /** The subtraction never underflows when `total` is the true size; no other caller exists. */
  method PlanEvictions(files: seq<File>, total: nat, budget: nat, keep: nat) returns (evict: seq<nat>)
    requires total == Size(files)
    ensures IsPlan(files, total, budget, keep, evict)
  {
    hide Freed, Others, OldestFirst, Size, Insert;
    evict := [];
    NothingFreed(files, keep);
    var order := OldestFirst(files, |files|);
    if total <= budget {
      return;
    }
    var remaining := total;
    var k := 0;
    assert order[..0] == [];
    while k < |order|
      invariant 0 <= k <= |order| && InRange(files, evict) && InRange(files, order[..k])
      invariant evict == Others(order[..k], keep)
      invariant remaining == total - Freed(files, evict) && Freed(files, evict) <= Freed(files, order[..k])
      invariant forall j :: 0 <= j < |evict| ==> total - Freed(files, evict[..j]) > budget
    {
      if remaining <= budget {
        break;
      }
      var i := order[k];
      OthersStep(order, k, keep);
      assert order[..k + 1] == order[..k] + [i];
      FreedStep(files, order[..k], i);
      FreedStep(files, evict, i);
      FreedBound(files, k + 1);
      k := k + 1;
      if i == keep {
        assert evict + [] == evict;
        continue;
      }
      remaining := remaining - files[i].size;
      assert forall j :: 0 <= j < |evict| ==> (evict + [i])[..j] == evict[..j];
      assert (evict + [i])[..|evict|] == evict;
      evict := evict + [i];
    }
    OthersPrefix(order, k, keep);
    assert order[..|order|] == order;
  }

  lemma NothingFreed(files: seq<File>, keep: nat)
    ensures Freed(files, []) == 0 && Others([], keep) == []
  {
  }

  // ----- The cache ----------------------------------------------------------------------------

  function Without(files: seq<File>, gone: set<Path>): seq<File> {
    if files == [] then []
    else
      var last := files[|files| - 1];
      Without(files[..|files| - 1], gone) + if last.path in gone then [] else [last]
  }

  /** Writing a file replaces the one of the same name, or adds an entry. */
  function Written(files: seq<File>, f: File): seq<File> {
    Without(files, {f.path}) + [f]
  }

  lemma {:induction false} WithoutMembers(files: seq<File>, gone: set<Path>)
    ensures forall f :: f in Without(files, gone) <==> f in files && f.path !in gone
  {
    if files != [] {
      var front, last := files[..|files| - 1], files[|files| - 1];
      WithoutMembers(front, gone);
      assert files == front + [last];
    }
  }

  lemma DistinctSnoc(files: seq<File>, f: File)
    requires Distinct(files) && forall x :: x in files ==> x.path != f.path
    ensures Distinct(files + [f])
  {
    assert (files + [f])[..|files|] == files;
  }

  lemma {:induction false} WithoutKeeps(files: seq<File>, gone: set<Path>)
    requires Distinct(files)
    ensures Distinct(Without(files, gone)) && Size(Without(files, gone)) <= Size(files)
  {
    if files != [] {
      var front, last := files[..|files| - 1], files[|files| - 1];
      WithoutKeeps(front, gone);
      WithoutMembers(front, gone);
      var r := Without(front, gone);
      if last.path in gone {
        assert r + [] == r;
      } else {
        DistinctSnoc(r, last);
        SizeSnoc(r, last);
      }
    }
  }

  lemma WithoutStep(files: seq<File>, gone: set<Path>)
    requires files != []
    ensures var front, last := files[..|files| - 1], files[|files| - 1];
            Without(files, gone) == if last.path in gone then Without(front, gone) else Without(front, gone) + [last]
  {
    var r := Without(files[..|files| - 1], gone);
    assert r + [] == r;
  }

  /** Taking one more path away frees that file's size. */
  lemma {:induction false} WithoutOne(files: seq<File>, gone: set<Path>, i: nat)
    requires Distinct(files) && i < |files| && files[i].path !in gone
    ensures Size(Without(files, gone + {files[i].path})) + files[i].size == Size(Without(files, gone))
    decreases |files|
  {
    hide Without, Size;
    var front, last := files[..|files| - 1], files[|files| - 1];
    var p := files[i].path;
    WithoutStep(files, gone);
    WithoutStep(files, gone + {p});
    SizeSnoc(Without(front, gone), last);
    if i == |files| - 1 {
      SameWithout(front, gone, p);
    } else {
      assert front[i] in front;
      WithoutOne(front, gone, i);
      SizeSnoc(Without(front, gone + {p}), last);
    }
  }

  lemma SizeSnoc(files: seq<File>, f: File)
    ensures Size(files + [f]) == Size(files) + f.size
  {
    assert (files + [f])[..|files|] == files;
  }

  lemma {:induction false} SameWithout(files: seq<File>, gone: set<Path>, p: Path)
    requires forall f :: f in files ==> f.path != p
    ensures Without(files, gone + {p}) == Without(files, gone)
  {
    if files != [] {
      SameWithout(files[..|files| - 1], gone, p);
    }
  }

  lemma WrittenFacts(files: seq<File>, f: File)
    requires Distinct(files)
    ensures var w := Written(files, f);
            && Distinct(w) && |w| > 0 && w[|w| - 1] == f && Size(w) <= Size(files) + f.size
  {
    WithoutKeeps(files, {f.path});
    WithoutMembers(files, {f.path});
    var r := Without(files, {f.path});
    DistinctSnoc(r, f);
    SizeSnoc(r, f);
  }

  function Paths(files: seq<File>, evict: seq<nat>): (r: set<Path>)
    requires InRange(files, evict)
  {
    if evict == [] then {} else Paths(files, evict[..|evict| - 1]) + {files[evict[|evict| - 1]].path}
  }

  lemma {:induction false} PathsAre(files: seq<File>, evict: seq<nat>)
    requires InRange(files, evict)
    ensures forall p :: p in Paths(files, evict) <==> exists k :: 0 <= k < |evict| && files[evict[k]].path == p
  {
    if evict != [] {
      var front := evict[..|evict| - 1];
      PathsAre(files, front);
      assert forall k :: 0 <= k < |front| ==> front[k] == evict[k];
      forall p | p in Paths(files, evict) ensures exists k :: 0 <= k < |evict| && files[evict[k]].path == p {
        if p in Paths(files, front) {
          var k :| 0 <= k < |front| && files[front[k]].path == p;
          assert files[evict[k]].path == p;
        } else {
          assert files[evict[|evict| - 1]].path == p;
        }
      }
    }
  }

  lemma PathsStep(files: seq<File>, evict: seq<nat>, k: nat)
    requires InRange(files, evict) && k < |evict|
    ensures InRange(files, evict[..k]) && InRange(files, evict[..k + 1])
    ensures Paths(files, evict[..k + 1]) == Paths(files, evict[..k]) + {files[evict[k]].path}
    ensures Freed(files, evict[..k + 1]) == Freed(files, evict[..k]) + files[evict[k]].size
  {
    assert evict[..k + 1][..k] == evict[..k];
  }

  /** A planned file has not been deleted by an earlier part of the plan. */
  lemma StillThere(files: seq<File>, budget: nat, keep: nat, evict: seq<nat>, k: nat)
    requires Distinct(files) && IsPlan(files, Size(files), budget, keep, evict) && k < |evict|
    ensures files[evict[k]].path !in Paths(files, evict[..k])
  {
    hide Paths, Freed, Size, Distinct;
    PlanSorted(files, budget, keep, evict);
    PathsAre(files, evict[..k]);
    if files[evict[k]].path in Paths(files, evict[..k]) {
      var j :| 0 <= j < k && files[evict[..k][j]].path == files[evict[k]].path;
      assert Before(files, evict[j], evict[k]);
      if evict[j] < evict[k] {
        Apart(files, evict[j], evict[k]);
      } else if evict[k] < evict[j] {
        Apart(files, evict[k], evict[j]);
      }
    }
  }

  lemma PlanSorted(files: seq<File>, budget: nat, keep: nat, evict: seq<nat>)
    requires IsPlan(files, Size(files), budget, keep, evict)
    ensures InRange(files, evict) && Sorted(files, evict)
  {
    hide Freed, Size, OldestFirst, Others;
    var order := OldestFirst(files, |files|);
    OldestFirstSorts(files, |files|);
    OthersSorted(files, order, keep);
    var others := Others(order, keep);
    assert forall k :: 0 <= k < |evict| ==> evict[k] == others[k];
  }

  lemma {:induction false} OthersSorted(files: seq<File>, order: seq<nat>, keep: nat)
    requires InRange(files, order) && Sorted(files, order)
    ensures InRange(files, Others(order, keep)) && Sorted(files, Others(order, keep))
    ensures forall x: nat :: x in Others(order, keep) <==> x in order && x != keep
  {
    if order != [] {
      var front, last := order[..|order| - 1], order[|order| - 1];
      OthersSorted(files, front, keep);
      var r := Others(front, keep);
      forall a | 0 <= a < |r| ensures Before(files, r[a], last) {
        assert r[a] in front;
      }
    }
  }

  /** Once every candidate is gone only the kept file is left. */
  lemma OnlyKept(files: seq<File>, keep: nat)
    ensures InRange(files, Others(OldestFirst(files, |files|), keep))
    ensures var planned := Paths(files, Others(OldestFirst(files, |files|), keep));
            forall i :: 0 <= i < |files| && files[i].path !in planned ==> i == keep
  {
    var order := OldestFirst(files, |files|);
    OldestFirstSorts(files, |files|);
    OthersSorted(files, order, keep);
    var others := Others(order, keep);
    PathsAre(files, others);
    forall i | 0 <= i < |files| && i != keep ensures files[i].path in Paths(files, others) {
      assert i in others;
      var k :| 0 <= k < |others| && others[k] == i;
      assert files[others[k]].path == files[i].path;
    }
  }

  /** A plan never names the kept file. */
  lemma KeptSpared(files: seq<File>, budget: nat, keep: nat, evict: seq<nat>)
    requires Distinct(files) && IsPlan(files, Size(files), budget, keep, evict) && keep < |files|
    ensures files[keep].path !in Paths(files, evict)
  {
    hide Paths, Freed, Size, Distinct, OldestFirst;
    PathsAre(files, evict);
    var others := Others(OldestFirst(files, |files|), keep);
    if files[keep].path in Paths(files, evict) {
      var k :| 0 <= k < |evict| && files[evict[k]].path == files[keep].path;
      assert evict[k] == others[k];
      if evict[k] < keep {
        Apart(files, evict[k], keep);
      } else {
        Apart(files, keep, evict[k]);
      }
    }
  }

  lemma {:induction false} WithoutTwice(files: seq<File>, gone: set<Path>, p: Path)
    ensures Without(Without(files, gone), {p}) == Without(files, gone + {p})
  {
    if files != [] {
      var front, last := files[..|files| - 1], files[|files| - 1];
      WithoutTwice(front, gone, p);
      assert (Without(front, gone) + [last])[..|Without(front, gone)|] == Without(front, gone);
      assert Without(front, gone) + [] == Without(front, gone);
    }
  }

  lemma {:induction false} WithoutNone(files: seq<File>)
    ensures Without(files, {}) == files
  {
    if files != [] {
      WithoutNone(files[..|files| - 1]);
    }
  }

  /** The index of the kept file in a listing, or past the end when it is not there. */
  ghost predicate KeepIndex(files: seq<File>, keep: Path, at: nat) {
    && at <= |files|
    && (at < |files| ==> files[at].path == keep)
    && (at == |files| ==> forall i :: 0 <= i < |files| ==> files[i].path != keep)
  }

  /** `now` is `was` less the files some eviction plan names, except those that could not be deleted. */
  ghost predicate PlanApplied(was: seq<File>, now: seq<File>, keep: Path, budget: nat, stuck: set<Path>) {
    exists at, plan ::
      && KeepIndex(was, keep, at) && IsPlan(was, Size(was), budget, at, plan)
      && now == Without(was, Paths(was, plan) - stuck)
  }

  /** What carrying out a plan leaves. */
  ghost predicate Evicted(was: seq<File>, now: seq<File>, keep: Path, budget: nat, stuck: set<Path>) {
    && Distinct(now) && PlanApplied(was, now, keep, budget, stuck)
    && (forall f :: f in now ==> f in was)
    && (forall f :: f in was && (f.path == keep || f.path in stuck) ==> f in now)
    && (stuck == {} ==> Size(now) <= budget || forall f :: f in now ==> f.path == keep)
  }

  lemma EvictionLeaves(files: seq<File>, budget: nat, keep: Path, at: nat, plan: seq<nat>, stuck: set<Path>)
    requires Distinct(files) && KeepIndex(files, keep, at) && IsPlan(files, Size(files), budget, at, plan)
    requires stuck == {} ==> Size(Without(files, Paths(files, plan) - stuck)) == Size(files) - Freed(files, plan)
    ensures Evicted(files, Without(files, Paths(files, plan) - stuck), keep, budget, stuck)
  {
    hide Without, Paths, Freed, Size, Others, OldestFirst;
    var gone := Paths(files, plan) - stuck;
    var now := Without(files, gone);
    WithoutKeeps(files, gone);
    WithoutMembers(files, gone);
    if at < |files| {
      KeptSpared(files, budget, at, plan);
      SamePath(files, at);
    }
    if stuck == {} && Size(now) > budget {
      OnlyKept(files, at);
      assert gone == Paths(files, plan);
    }
  }

  lemma SamePath(files: seq<File>, at: nat)
    requires Distinct(files) && at < |files|
    ensures forall f :: f in files && f.path == files[at].path ==> f == files[at]
  {
    forall f | f in files && f.path == files[at].path ensures f == files[at] {
      var i :| 0 <= i < |files| && files[i] == f;
      if i < at {
        Apart(files, i, at);
      } else if at < i {
        Apart(files, at, i);
      }
    }
  }

  /** The cache directory and the engine's running estimate of its size. */
  class RemapCache {
    var files: seq<File>
    var estimate: Option<u64>

    /** The estimate never falls below the true size. */
    ghost predicate Valid()
      reads this
    {
      && Distinct(files) && Size(files) <= MAX_U64
      && (estimate.Some? ==> Size(files) <= estimate.value)
    }

    constructor (files: seq<File>)
      requires Distinct(files) && Size(files) <= MAX_U64
      ensures Valid() && this.files == files && estimate == None
    {
      this.files := files;
      estimate := None;
    }

    /** One pass over the listing: its total size and where the kept file is. */
    method Scan(keep: Path) returns (total: u64, at: nat)
      requires Size(files) <= MAX_U64 && Distinct(files)
      ensures total == Size(files) && KeepIndex(files, keep, at)
    {
      total, at := 0, |files|;
      var i := 0;
      assert files[..0] == [];
      while i < |files|
        invariant 0 <= i <= |files| && total == Size(files[..i])
        invariant at == |files| || at < i
        invariant at < |files| ==> files[at].path == keep
        invariant at == |files| ==> forall j :: 0 <= j < i ==> files[j].path != keep
      {
        if files[i].path == keep {
          at := i;
        }
        assert files[..i + 1][..i] == files[..i];
        SizePrefix(files, i + 1);
        total := total + files[i].size;
        i := i + 1;
      }
      assert files[..|files|] == files;
    }

    /** Deletes what the plan names, except files the system refuses to delete; the total stays exact. */
    method Evict(keep: Path, budget: u64, stuck: set<Path>) returns (total: u64)
      requires Distinct(files) && Size(files) <= MAX_U64
      modifies this`files
      ensures Distinct(files) && Size(files) == total <= old(Size(files))
      ensures Evicted(old(files), files, keep, budget, stuck)
    {
      hide IsPlan, Paths, Freed, Without, Size, Distinct, KeepIndex, Evicted, InRange;
      ghost var was := files;
      var listing := files;
      var at;
      total, at := Scan(keep);
      var plan := PlanEvictions(listing, total, budget, at);
      PlanStart(listing, total, budget, at, plan);
      var k := 0;
      while k < |plan|
        invariant 0 <= k <= |plan| && InRange(listing, plan) && InRange(listing, plan[..k])
        invariant files == Without(listing, Paths(listing, plan[..k]) - stuck)
        invariant total == Size(files)
        invariant stuck == {} ==> total == Size(listing) - Freed(listing, plan[..k])
      {
        PlanStep(listing, budget, at, plan, k, stuck);
        var f := listing[plan[k]];
        if f.path !in stuck {
          files := Without(files, {f.path});
          total := total - f.size;
        }
        k := k + 1;
      }
      assert plan[..|plan|] == plan;
      EvictionLeaves(listing, budget, keep, at, plan, stuck);
      WithoutKeeps(listing, Paths(listing, plan) - stuck);
    }

    /**
     One cache miss: the remap is written, the estimate grows, and the directory is walked only when
     the estimate is unknown or over budget. If every delete succeeds, the directory ends within
     budget or holds nothing but the file just written.
     */
    method Miss(out: Path, written: u64, time: nat, budget: u64, stuck: set<Path>)
      requires Valid() && Size(files) + written <= MAX_U64
      modifies this
      ensures Valid() && estimate.Some?
      ensures File(out, written, time) in files
      ensures forall f :: f in files ==> f in Written(old(files), File(out, written, time))
      ensures stuck == {} ==> Size(files) <= budget || files == [File(out, written, time)]
      ensures stuck == {} ==> (Size(files) <= budget <==> written <= budget)
      ensures var filled := Written(old(files), File(out, written, time));
              var projected := if old(estimate).Some? then old(estimate.value) + written else Size(filled);
              if projected > budget && budget < MAX_U64 then PlanApplied(filled, files, out, budget, stuck)
              else files == filled
    {
      hide Without, Size, Distinct, Evicted, PlanApplied;
      ghost var was := files;
      var f := File(out, written, time);
      WrittenFacts(files, f);
      files := Written(files, f);
      var projected: u64;
      var at: nat;
      match estimate {
        case Some(prev) => projected := if prev + written > MAX_U64 then MAX_U64 else prev + written;
        case None => projected, at := Scan(out);
      }
      var total := projected;
      ghost var filled := files;
      if projected > budget {
        total := Evict(out, budget, stuck);
        EvictedFacts(filled, files, out, budget, stuck);
      }
      FileFits(files, f);
      OneFile(f);
      estimate := Some(total);
    }
  }

  lemma {:induction false} FileFits(files: seq<File>, f: File)
    requires f in files
    ensures f.size <= Size(files)
  {
    if f != files[|files| - 1] {
      FileFits(files[..|files| - 1], f);
    }
  }

  lemma OneFile(f: File)
    ensures Size([f]) == f.size
  {
    SizeSnoc([], f);
    assert [] + [f] == [f];
  }

  /** A remap larger than the budget stays, over budget, in a directory that was empty. */
  method OversizedRemap(written: u64, budget: u64) returns (cache: RemapCache)
    requires written > budget
    ensures cache.files == [File(0, written, 0)] && Size(cache.files) > budget
  {
    cache := new RemapCache([]);
    cache.Miss(0, written, 0, budget, {});
    OneFile(File(0, written, 0));
  }

  lemma EvictedFacts(was: seq<File>, now: seq<File>, keep: Path, budget: nat, stuck: set<Path>)
    requires Evicted(was, now, keep, budget, stuck) && Distinct(was)
    requires |was| > 0 && was[|was| - 1].path == keep
    ensures was[|was| - 1] in now && forall f :: f in now ==> f in was
    ensures PlanApplied(was, now, keep, budget, stuck)
    ensures stuck == {} ==> Size(now) <= budget || now == [was[|was| - 1]]
  {
    hide Size, PlanApplied;
    var last := was[|was| - 1];
    assert last in was;
    if forall f :: f in now ==> f.path == keep {
      assert now[0] in now;
      if |now| > 1 {
        assert now[1] in now;
      }
      SamePath(was, |was| - 1);
    }
  }

  lemma {:induction false} SizePrefix(files: seq<File>, n: nat)
    requires n <= |files|
    ensures Size(files[..n]) <= Size(files)
    decreases |files|
  {
    if n == |files| {
      assert files[..n] == files;
    } else {
      assert files[..|files| - 1][..n] == files[..n];
      SizePrefix(files[..|files| - 1], n);
    }
  }

  lemma PlanStart(files: seq<File>, total: nat, budget: nat, keep: nat, plan: seq<nat>)
    requires IsPlan(files, total, budget, keep, plan)
    ensures InRange(files, plan) && InRange(files, plan[..0])
    ensures forall stuck: set<Path> :: files == Without(files, Paths(files, plan[..0]) - stuck)
    ensures Freed(files, plan[..0]) == 0
  {
    WithoutNone(files);
    assert plan[..0] == [];
    forall stuck: set<Path> ensures files == Without(files, Paths(files, plan[..0]) - stuck) {
      assert {} - stuck == {};
    }
  }

  lemma PlanStep(files: seq<File>, budget: nat, keep: nat, plan: seq<nat>, k: nat, stuck: set<Path>)
    requires Distinct(files) && IsPlan(files, Size(files), budget, keep, plan) && k < |plan|
    ensures InRange(files, plan) && InRange(files, plan[..k]) && InRange(files, plan[..k + 1])
    ensures Freed(files, plan[..k + 1]) == Freed(files, plan[..k]) + files[plan[k]].size
    ensures var f, now := files[plan[k]], Without(files, Paths(files, plan[..k]) - stuck);
            var next := Without(files, Paths(files, plan[..k + 1]) - stuck);
            if f.path in stuck then next == now
            else next == Without(now, {f.path}) && Size(next) + f.size == Size(now)
  {
    hide Without, Size, Freed, Paths, Distinct;
    var f, gone := files[plan[k]], Paths(files, plan[..k]);
    PathsStep(files, plan, k);
    StillThere(files, budget, keep, plan, k);
    if f.path in stuck {
      assert gone + {f.path} - stuck == gone - stuck;
    } else {
      assert gone + {f.path} - stuck == gone - stuck + {f.path};
      WithoutOne(files, gone - stuck, plan[k]);
      WithoutTwice(files, gone - stuck, f.path);
    }
  }
}
