/** `DiskCacheEvictor.scan_and_evict`: old model directories go first, then the least recently used until the budget is met. */
module DiskCache {
  import opened Sorting
  import opened ModelPaths

  /** A directory under cache directory number `cache`; `complete` is its download marker. */
  datatype Dir = Dir(cache: nat, name: string, isHf: bool, complete: bool, size: nat, lastAccessed: real)

  function ModelId(d: Dir): string {
    DirToModelId(d.name, d.isHf)
  }

  predicate SamePath(a: Dir, b: Dir) {
    a.cache == b.cache && a.name == b.name
  }

  ghost predicate DistinctPaths(dirs: seq<Dir>) {
    forall i, j | 0 <= i < j < |dirs| :: !SamePath(dirs[i], dirs[j])
  }

  predicate IsEntry(d: Dir) {
    if d.isHf then HasHfPrefix(d.name) else d.complete
  }

  /** The directories a scan takes for cached models. */
  function Scan(dirs: seq<Dir>): seq<Dir> {
    Filter(IsEntry, dirs)
  }

  function Total(dirs: seq<Dir>): nat {
    if dirs == [] then 0 else dirs[0].size + Total(dirs[1..])
  }

  /** Limits; zero or less means unlimited. */
  datatype Limits = Limits(maxGb: real, maxAgeHours: real)

  function MaxBytes(limits: Limits): int {
    (limits.maxGb * 1073741824.0).Floor
  }

  predicate AccessLe(a: Dir, b: Dir) {
    a.lastAccessed <= b.lastAccessed
  }

  predicate TooOld(d: Dir, limits: Limits, now: real) {
    limits.maxAgeHours > 0.0 && now - d.lastAccessed > limits.maxAgeHours * 3600.0
  }

  ghost function Eligible(entries: seq<Dir>, loaded: set<string>): seq<Dir> {
    Filter((d: Dir) => ModelId(d) !in loaded, entries)
  }

  ghost function Old(entries: seq<Dir>, limits: Limits, loaded: set<string>, now: real): seq<Dir> {
    Filter((d: Dir) => TooOld(d, limits, now), Eligible(entries, loaded))
  }

  ghost function Young(entries: seq<Dir>, limits: Limits, loaded: set<string>, now: real): seq<Dir> {
    Filter((d: Dir) => !TooOld(d, limits, now), Eligible(entries, loaded))
  }

  /** Length of the shortest prefix whose removal brings `total` to at most `maxBytes`; the whole list if none does. */
  ghost function BudgetCut(lru: seq<Dir>, total: int, maxBytes: int): (k: nat)
    ensures k <= |lru|
    ensures forall j: nat | j < k :: total - Total(lru[..j]) > maxBytes
    ensures k < |lru| ==> total - Total(lru[..k]) <= maxBytes
  {
    if lru == [] || total <= maxBytes then 0
    else
      var k := 1 + BudgetCut(lru[1..], total - lru[0].size, maxBytes);
      assert forall j: nat | 0 < j <= k :: lru[..j][1..] == lru[1..][..j - 1];
      k
  }

  ghost function OverBudget(entries: seq<Dir>, limits: Limits, loaded: set<string>, now: real): seq<Dir> {
    if limits.maxGb <= 0.0 then []
    else
      var lru := StableSort(Young(entries, limits, loaded, now), AccessLe);
      lru[..BudgetCut(lru, Total(entries) - Total(Old(entries, limits, loaded, now)), MaxBytes(limits))]
  }

  ghost function Evicted(entries: seq<Dir>, limits: Limits, loaded: set<string>, now: real): seq<Dir> {
    Old(entries, limits, loaded, now) + OverBudget(entries, limits, loaded, now)
  }

  function Without(dirs: seq<Dir>, gone: seq<Dir>): seq<Dir> {
    Filter((d: Dir) => !exists g | g in gone :: SamePath(d, g), dirs)
  }

  // ----- Lists -----

  lemma {:induction false} FilterTotals(p: Dir -> bool, q: Dir -> bool, xs: seq<Dir>)
    requires forall x :: q(x) == !p(x)
    ensures Total(xs) == Total(Filter(p, xs)) + Total(Filter(q, xs))
  {
    if xs != [] {
      FilterTotals(p, q, xs[1..]);
      assert [] + Filter(p, xs[1..]) == Filter(p, xs[1..]) && [] + Filter(q, xs[1..]) == Filter(q, xs[1..]);
    }
  }

  lemma {:induction false} FilterCounts(p: Dir -> bool, xs: seq<Dir>, x: Dir)
    ensures multiset(Filter(p, xs))[x] == if p(x) then multiset(xs)[x] else 0
  {
    if xs != [] {
      FilterCounts(p, xs[1..], x);
      assert multiset(xs) == multiset{xs[0]} + multiset(xs[1..]) by { assert xs == [xs[0]] + xs[1..]; }
    }
  }

  lemma {:induction false} TotalConcat(a: seq<Dir>, b: seq<Dir>)
    ensures Total(a + b) == Total(a) + Total(b)
  {
    if a == [] {
      assert a + b == b;
    } else {
      TotalConcat(a[1..], b);
      assert a + b == [a[0]] + (a[1..] + b);
    }
  }

  lemma RemoveOne(xs: seq<Dir>, i: nat)
    requires i < |xs|
    ensures var rest := xs[..i] + xs[i + 1..];
      Total(xs) == xs[i].size + Total(rest) && multiset(xs) == multiset{xs[i]} + multiset(rest)
  {
    TotalConcat(xs[..i], xs[i + 1..]);
    TotalConcat(xs[..i], xs[i..]);
    assert xs == xs[..i] + xs[i..] && xs[i..] == [xs[i]] + xs[i + 1..];
  }

  lemma SameRest(x: Dir, a: multiset<Dir>, b: multiset<Dir>)
    requires multiset{x} + a == multiset{x} + b
    ensures a == b
  {
    assert a == multiset{x} + a - multiset{x};
  }

  lemma MatchHead(a: seq<Dir>, b: seq<Dir>) returns (i: nat)
    requires a != [] && multiset(a) == multiset(b)
    ensures i < |b| && b[i] == a[0] && multiset(a[1..]) == multiset(b[..i] + b[i + 1..])
  {
    assert a[0] in multiset(b);
    i :| 0 <= i < |b| && b[i] == a[0];
    RemoveOne(b, i);
    assert a == [a[0]] + a[1..];
    SameRest(a[0], multiset(a[1..]), multiset(b[..i] + b[i + 1..]));
  }

  /** Totals do not depend on order. */
  lemma {:induction false} TotalOfPermutation(a: seq<Dir>, b: seq<Dir>)
    requires multiset(a) == multiset(b)
    ensures Total(a) == Total(b)
  {
    if a == [] {
      assert |multiset(b)| == |b|;
    } else {
      var i := MatchHead(a, b);
      TotalOfPermutation(a[1..], b[..i] + b[i + 1..]);
      RemoveOne(b, i);
    }
  }

  // ----- The passes -----

  datatype Reason = Ttl | Budget
  datatype EvictedModel = EvictedModel(modelId: string, dir: Dir, reason: Reason)

  datatype EvictionResult = EvictionResult(scanned: nat, evicted: seq<EvictedModel>, skippedLoaded: nat, totalSizeAfter: int)

  function Records(dirs: seq<Dir>, reason: Reason): seq<EvictedModel> {
    seq(|dirs|, i requires 0 <= i < |dirs| => EvictedModel(ModelId(dirs[i]), dirs[i], reason))
  }

  lemma WithoutSnoc(dirs: seq<Dir>, gone: seq<Dir>, g: Dir)
    ensures Without(dirs, gone + [g]) == Filter((d: Dir) => !SamePath(d, g), Without(dirs, gone))
  {
    var kept, more := gone, gone + [g];
    forall d: Dir ensures (exists h | h in more :: SamePath(d, h)) <==> (exists h | h in kept :: SamePath(d, h)) || SamePath(d, g) {
      if h :| h in kept && SamePath(d, h) { assert h in more; }
      if SamePath(d, g) { assert g in more; }
    }
    FilterTwice(
      (d: Dir) => !exists h | h in gone :: SamePath(d, h), (d: Dir) => !SamePath(d, g),
      (d: Dir) => !exists h | h in gone + [g] :: SamePath(d, h), dirs);
  }

  class DiskCacheEvictor {
    const limits: Limits
    var disk: seq<Dir>

    constructor (limits: Limits, disk: seq<Dir>)
      ensures this.limits == limits && this.disk == disk
    {
      this.limits, this.disk := limits, disk;
    }

    method RemoveEntry(entry: Dir, ghost before: seq<Dir>, ghost gone: seq<Dir>)
      requires disk == Without(before, gone)
      modifies this
      ensures disk == Without(before, gone + [entry])
    {
      WithoutSnoc(before, gone, entry);
      disk := Filter((d: Dir) => !SamePath(d, entry), disk);
    }

    method SkipLoaded(entries: seq<Dir>, loaded: set<string>) returns (eligible: seq<Dir>, skipped: nat)
      ensures eligible == Eligible(entries, loaded) && skipped == |entries| - |eligible|
    {
      eligible, skipped := [], 0;
      for i := 0 to |entries|
        invariant eligible == Eligible(entries[..i], loaded) && skipped == i - |eligible|
      {
        FilterSnoc((d: Dir) => ModelId(d) !in loaded, entries[..i], entries[i]);
        assert entries[..i + 1] == entries[..i] + [entries[i]];
        if ModelId(entries[i]) in loaded {
          skipped := skipped + 1;
        } else {
          eligible := eligible + [entries[i]];
        }
      }
      assert entries[..|entries|] == entries;
    }

    method TtlPass(eligible: seq<Dir>, now: real) returns (surviving: seq<Dir>, evicted: seq<Dir>)
      requires Without(disk, []) == disk
      modifies this
      ensures surviving == Filter((d: Dir) => !TooOld(d, limits, now), eligible)
      ensures evicted == Filter((d: Dir) => TooOld(d, limits, now), eligible)
      ensures disk == Without(old(disk), evicted)
    {
      surviving, evicted := [], [];
      var maxAgeSeconds := limits.maxAgeHours * 3600.0;
      for i := 0 to |eligible|
        invariant surviving == Filter((d: Dir) => !TooOld(d, limits, now), eligible[..i])
        invariant evicted == Filter((d: Dir) => TooOld(d, limits, now), eligible[..i])
        invariant disk == Without(old(disk), evicted)
      {
        var entry := eligible[i];
        FilterSnoc((d: Dir) => TooOld(d, limits, now), eligible[..i], entry);
        FilterSnoc((d: Dir) => !TooOld(d, limits, now), eligible[..i], entry);
        assert eligible[..i + 1] == eligible[..i] + [entry];
        var age := now - entry.lastAccessed;
        if limits.maxAgeHours > 0.0 && age > maxAgeSeconds {
          RemoveEntry(entry, old(disk), evicted);
          evicted := evicted + [entry];
        } else {
          surviving := surviving + [entry];
        }
      }
      assert eligible[..|eligible|] == eligible;
    }

    method BudgetPass(lru: seq<Dir>, total0: int, maxBytes: int, ghost before: seq<Dir>, ghost gone: seq<Dir>)
      returns (total: int, evicted: seq<Dir>)
      requires disk == Without(before, gone)
      modifies this
      ensures evicted == lru[..BudgetCut(lru, total0, maxBytes)]
      ensures total == total0 - Total(evicted)
      ensures disk == Without(before, gone + evicted)
    {
      total, evicted := total0, [];
      assert gone + evicted == gone;
      for i := 0 to |lru|
        invariant evicted == lru[..i] && total == total0 - Total(evicted)
        invariant forall j: nat | j < i :: total0 - Total(lru[..j]) > maxBytes
        invariant disk == Without(before, gone + evicted)
      {
        if total <= maxBytes {
          CutIsUnique(lru, total0, maxBytes, i);
          return;
        }
        var entry := lru[i];
        RemoveEntry(entry, before, gone + evicted);
        total := total - entry.size;
        TotalConcat(evicted, [entry]);
        assert [entry] + [] == [entry] && lru[..i + 1] == lru[..i] + [entry];
        assert gone + evicted + [entry] == gone + (evicted + [entry]);
        evicted := evicted + [entry];
      }
      CutIsUnique(lru, total0, maxBytes, |lru|);
    }

    method SumSizes(entries: seq<Dir>, evicted: seq<Dir>) returns (total: int)
      ensures total == Total(Without(entries, evicted))
    {
      total := 0;
      for i := 0 to |entries|
        invariant total == Total(Without(entries[..i], evicted))
      {
        FilterSnoc((d: Dir) => !exists g | g in evicted :: SamePath(d, g), entries[..i], entries[i]);
        assert entries[..i + 1] == entries[..i] + [entries[i]];
        if !exists g | g in evicted :: SamePath(entries[i], g) {
          TotalConcat(Without(entries[..i], evicted), [entries[i]]);
          assert [entries[i]] + [] == [entries[i]];
          total := total + entries[i].size;
        } else {
          assert Without(entries[..i], evicted) + [] == Without(entries[..i], evicted);
        }
      }
      assert entries[..|entries|] == entries;
    }

    /** One pass, on one clock reading and one set of loaded models. */
    method ScanAndEvict(loaded: set<string>, now: real) returns (result: EvictionResult)
      requires DistinctPaths(disk)
      modifies this
      ensures var entries := Scan(old(disk));
        && result.scanned == |entries| && result.skippedLoaded == |entries| - |Eligible(entries, loaded)|
        && result.evicted ==
             Records(Old(entries, limits, loaded, now), Ttl) + Records(OverBudget(entries, limits, loaded, now), Budget)
        && result.totalSizeAfter == Total(entries) - Total(Evicted(entries, limits, loaded, now))
        && disk == Without(old(disk), Evicted(entries, limits, loaded, now))
    {
      var entries := Scan(disk);
      WithoutNone(disk);
      var eligible, skipped := SkipLoaded(entries, loaded);
      var surviving, byTtl := TtlPass(eligible, now);
      OldIsTotalled(old(disk), limits, loaded, now);
      var total := SumSizes(entries, byTtl);
      var byBudget: seq<Dir> := [];
      if limits.maxGb > 0.0 {
        var lru := StableSort(surviving, AccessLe);
        total, byBudget := BudgetPass(lru, total, MaxBytes(limits), old(disk), byTtl);
      }
      TotalConcat(byTtl, byBudget);
      assert byTtl + [] == byTtl;
      result := EvictionResult(|entries|, Records(byTtl, Ttl) + Records(byBudget, Budget), skipped, total);
    }
  }

  lemma CutIsUnique(lru: seq<Dir>, total: int, maxBytes: int, k: nat)
    requires k <= |lru| && forall j: nat | j < k :: total - Total(lru[..j]) > maxBytes
    requires k < |lru| ==> total - Total(lru[..k]) <= maxBytes
    ensures k == BudgetCut(lru, total, maxBytes)
  {
    var c := BudgetCut(lru, total, maxBytes);
    var atCut := Total(lru[..c]);
  }

  lemma {:induction false} WithoutNone(dirs: seq<Dir>)
    ensures Without(dirs, []) == dirs
  {
    if dirs != [] { WithoutNone(dirs[1..]); }
  }

  // ----- What a pass guarantees -----

  lemma {:induction false} DistinctOnce(dirs: seq<Dir>, x: Dir)
    requires DistinctPaths(dirs)
    ensures multiset(dirs)[x] <= 1
  {
    if dirs != [] {
      var rest := dirs[1..];
      DistinctOnce(rest, x);
      assert dirs == [dirs[0]] + rest;
      forall j | 0 <= j < |rest| ensures rest[j] != dirs[0] {
        assert !SamePath(dirs[0], dirs[j + 1]);
      }
    }
  }

  /** Scanning keeps paths distinct. */
  lemma {:induction false} ScanIsDistinct(dirs: seq<Dir>)
    requires DistinctPaths(dirs)
    ensures DistinctPaths(Scan(dirs))
  {
    if dirs != [] {
      ScanIsDistinct(dirs[1..]);
      var rest := Scan(dirs[1..]);
      forall j | 0 <= j < |rest| ensures !SamePath(dirs[0], rest[j]) {
        FilterMembers(IsEntry, dirs[1..], rest[j]);
        var i :| 0 <= i < |dirs[1..]| && dirs[1..][i] == rest[j];
        assert !SamePath(dirs[0], dirs[i + 1]);
      }
    }
  }

  /** Removing some of the entries leaves the rest of the total. */
  lemma TotalWithout(entries: seq<Dir>, gone: seq<Dir>)
    requires DistinctPaths(entries) && forall x :: multiset(gone)[x] <= multiset(entries)[x]
    ensures Total(Without(entries, gone)) == Total(entries) - Total(gone)
  {
    var removed := (d: Dir) => exists g | g in gone :: SamePath(d, g);
    FilterTotals((d: Dir) => !exists g | g in gone :: SamePath(d, g), removed, entries);
    var taken := Filter(removed, entries);
    forall x ensures multiset(taken)[x] == multiset(gone)[x] {
      FilterCounts(removed, entries, x);
      DistinctOnce(entries, x);
      assert x in gone <==> x in multiset(gone);
      if x in entries && removed(x) {
        var g :| g in gone && SamePath(x, g);
        assert g in multiset(gone) && g in multiset(entries);
        OnePerPath(entries, x, g);
      } else if x in gone {
        assert SamePath(x, x) && x in multiset(entries);
      }
    }
    assert multiset(taken) == multiset(gone);
    TotalOfPermutation(taken, gone);
  }

  lemma OnePerPath(entries: seq<Dir>, x: Dir, y: Dir)
    requires DistinctPaths(entries) && x in entries && y in entries && SamePath(x, y)
    ensures x == y
  {
    var i :| 0 <= i < |entries| && entries[i] == x;
    var j :| 0 <= j < |entries| && entries[j] == y;
  }

  lemma OldIsTotalled(dirs: seq<Dir>, limits: Limits, loaded: set<string>, now: real)
    requires DistinctPaths(dirs)
    ensures var entries := Scan(dirs);
      Total(Without(entries, Old(entries, limits, loaded, now))) == Total(entries) - Total(Old(entries, limits, loaded, now))
  {
    var entries := Scan(dirs);
    var gone := Old(entries, limits, loaded, now);
    ScanIsDistinct(dirs);
    forall x ensures multiset(gone)[x] <= multiset(entries)[x] {
      FilterCounts((d: Dir) => TooOld(d, limits, now), Eligible(entries, loaded), x);
      FilterCounts((d: Dir) => ModelId(d) !in loaded, entries, x);
    }
    TotalWithout(entries, gone);
  }

  lemma OverBudgetFromYoung(entries: seq<Dir>, limits: Limits, loaded: set<string>, now: real, x: Dir)
    ensures multiset(OverBudget(entries, limits, loaded, now))[x] <= multiset(Young(entries, limits, loaded, now))[x]
  {
    var young := Young(entries, limits, loaded, now);
    assert TotalPreorder(AccessLe);
    SortSorts(young, AccessLe);
    OverBudgetIsPrefix(entries, limits, loaded, now);
    PrefixCounts(StableSort(young, AccessLe), |OverBudget(entries, limits, loaded, now)|, x);
  }

  lemma OverBudgetIsPrefix(entries: seq<Dir>, limits: Limits, loaded: set<string>, now: real)
    ensures OverBudget(entries, limits, loaded, now) <= StableSort(Young(entries, limits, loaded, now), AccessLe)
  {
  }

  lemma PrefixCounts(xs: seq<Dir>, k: nat, x: Dir)
    requires k <= |xs|
    ensures multiset(xs[..k])[x] <= multiset(xs)[x]
  {
    assert xs == xs[..k] + xs[k..];
  }

  /** Nothing is evicted twice, and nothing that was not scanned. */
  lemma EvictedOnce(entries: seq<Dir>, limits: Limits, loaded: set<string>, now: real, x: Dir)
    ensures multiset(Evicted(entries, limits, loaded, now))[x] <= multiset(Eligible(entries, loaded))[x] <= multiset(entries)[x]
  {
    var eligible := Eligible(entries, loaded);
    FilterCounts((d: Dir) => ModelId(d) !in loaded, entries, x);
    FilterCounts((d: Dir) => TooOld(d, limits, now), eligible, x);
    FilterCounts((d: Dir) => !TooOld(d, limits, now), eligible, x);
    OverBudgetFromYoung(entries, limits, loaded, now, x);
  }

  /** Sizes are conserved: what the scan found is what was evicted plus what is left on disk. */
  lemma SizesAreConserved(dirs: seq<Dir>, limits: Limits, loaded: set<string>, now: real)
    requires DistinctPaths(dirs)
    ensures var entries := Scan(dirs); var gone := Evicted(entries, limits, loaded, now);
      Total(Without(entries, gone)) == Total(entries) - Total(gone)
    ensures var gone := Evicted(Scan(dirs), limits, loaded, now);
      Scan(Without(dirs, gone)) == Without(Scan(dirs), gone)
  {
    var entries := Scan(dirs);
    var gone := Evicted(entries, limits, loaded, now);
    ScanIsDistinct(dirs);
    forall x ensures multiset(gone)[x] <= multiset(entries)[x] {
      EvictedOnce(entries, limits, loaded, now, x);
    }
    TotalWithout(entries, gone);
    var kept := (d: Dir) => !exists g | g in gone :: SamePath(d, g);
    var both := (d: Dir) => IsEntry(d) && kept(d);
    FilterTwice(IsEntry, kept, both, dirs);
    FilterTwice(kept, IsEntry, both, dirs);
  }

  /** No evicted directory stands for a loaded model. */
  lemma EvictedIsNotLoaded(entries: seq<Dir>, limits: Limits, loaded: set<string>, now: real, d: Dir)
    requires d in Evicted(entries, limits, loaded, now)
    ensures d in entries && ModelId(d) !in loaded
  {
    EvictedOnce(entries, limits, loaded, now, d);
    assert d in multiset(Evicted(entries, limits, loaded, now));
    assert d in multiset(Eligible(entries, loaded));
    FilterMembers((d: Dir) => ModelId(d) !in loaded, entries, d);
  }

  /**
   * A loaded model's directory is never evicted, provided its id survives the trip through the directory name;
   * otherwise the directory is not recognised as loaded.
   */
  lemma LoadedModelsStayOnDisk(entries: seq<Dir>, limits: Limits, loaded: set<string>, now: real, id: string, d: Dir)
    requires id in loaded && d.name == LocalName(id, d.isHf)
    ensures Clean(id) ==> d !in Evicted(entries, limits, loaded, now)
    ensures !Clean(id) ==> ModelId(d) != id
  {
    RoundTripIffClean(id, d.isHf);
    if d in Evicted(entries, limits, loaded, now) {
      EvictedIsNotLoaded(entries, limits, loaded, now, d);
    }
  }

  /** The condition is needed for every other id: its directory can be evicted although just this model is loaded. */
  lemma UncleanLoadedModelIsEvicted(id: string, isHf: bool)
    requires !Clean(id)
    ensures var d := Dir(0, LocalName(id, isHf), isHf, true, 1, 0.0);
      d in Evicted([d], Limits(0.0, 1.0), {id}, 7200.0)
  {
    var d := Dir(0, LocalName(id, isHf), isHf, true, 1, 0.0);
    RoundTripIffClean(id, isHf);
    var eligible := Eligible([d], {id});
    FilterMembers((d: Dir) => ModelId(d) !in {id}, [d], d);
    FilterMembers((d: Dir) => TooOld(d, Limits(0.0, 1.0), 7200.0), eligible, d);
  }

  /** No pass, whatever its limits, clock and other entries, evicts the directory of this loaded model. */
  ghost predicate NeverEvicted(id: string, isHf: bool) {
    forall entries, limits, loaded, now, d: Dir |
      id in loaded && d.name == LocalName(id, isHf) && d.isHf == isHf :: d !in Evicted(entries, limits, loaded, now)
  }

  /** A loaded model is safe on disk if and only if its id is clean, in both cache layouts. */
  lemma SafeOnDiskIffClean(id: string, isHf: bool)
    ensures NeverEvicted(id, isHf) <==> Clean(id)
  {
    if Clean(id) {
      forall entries, limits, loaded, now, d: Dir | id in loaded && d.name == LocalName(id, isHf) && d.isHf == isHf
        ensures d !in Evicted(entries, limits, loaded, now)
      {
        LoadedModelsStayOnDisk(entries, limits, loaded, now, id, d);
      }
    } else {
      UncleanLoadedModelIsEvicted(id, isHf);
    }
  }

  /** Nothing that stays is too old, unless it is loaded; and the budget is met unless nothing more could go. */
  lemma WhatStays(entries: seq<Dir>, limits: Limits, loaded: set<string>, now: real, d: Dir)
    requires DistinctPaths(entries) && d in Without(entries, Evicted(entries, limits, loaded, now)) && ModelId(d) !in loaded
    ensures !TooOld(d, limits, now)
    ensures limits.maxGb > 0.0 ==> Total(entries) - Total(Evicted(entries, limits, loaded, now)) <= MaxBytes(limits)
  {
    var gone := Evicted(entries, limits, loaded, now);
    FilterMembers((d: Dir) => !exists g | g in gone :: SamePath(d, g), entries, d);
    FilterMembers((d: Dir) => ModelId(d) !in loaded, entries, d);
    FilterMembers((d: Dir) => TooOld(d, limits, now), Eligible(entries, loaded), d);
    FilterMembers((d: Dir) => !TooOld(d, limits, now), Eligible(entries, loaded), d);
    assert d !in gone by { assert SamePath(d, d); }
    if limits.maxGb > 0.0 {
      var young := Young(entries, limits, loaded, now);
      var lru := StableSort(young, AccessLe);
      assert TotalPreorder(AccessLe);
      SortMembers(young, AccessLe);
      var aged, over := Old(entries, limits, loaded, now), OverBudget(entries, limits, loaded, now);
      TotalConcat(aged, over);
      assert d in lru && d !in over;
    }
  }

  lemma FrontIsBelow(front: seq<Dir>, back: seq<Dir>, a: Dir, b: Dir)
    requires SortedBy(front + back, AccessLe) && a in front && b in back
    ensures AccessLe(a, b)
  {
    var i :| 0 <= i < |front| && front[i] == a;
    var j :| 0 <= j < |back| && back[j] == b;
    assert (front + back)[i] == a && (front + back)[|front| + j] == b;
  }

  lemma YoungSorted(entries: seq<Dir>, limits: Limits, loaded: set<string>, now: real)
    ensures var young := Young(entries, limits, loaded, now);
      SortedBy(StableSort(young, AccessLe), AccessLe) && forall d :: d in StableSort(young, AccessLe) <==> d in young
  {
    assert TotalPreorder(AccessLe);
    SortMembers(Young(entries, limits, loaded, now), AccessLe);
    SortSorts(Young(entries, limits, loaded, now), AccessLe);
  }

  lemma RestOf<T>(front: seq<T>, all: seq<T>)
    requires front <= all
    ensures all == front + all[|front|..] && forall x | x in all && x !in front :: x in all[|front|..]
  {
    assert all == front + all[|front|..];
  }

  /** Budget evictions are the least recently used: everything evicted for space was used no later than any candidate that stays. */
  lemma BudgetEvictsOldestFirst(entries: seq<Dir>, limits: Limits, loaded: set<string>, now: real, gone: Dir, stays: Dir)
    requires gone in OverBudget(entries, limits, loaded, now)
    requires stays in Young(entries, limits, loaded, now) && stays !in OverBudget(entries, limits, loaded, now)
    ensures gone.lastAccessed <= stays.lastAccessed
  {
    var lru, over := StableSort(Young(entries, limits, loaded, now), AccessLe), OverBudget(entries, limits, loaded, now);
    YoungSorted(entries, limits, loaded, now);
    OverBudgetIsPrefix(entries, limits, loaded, now);
    RestOf(over, lru);
    FrontIsBelow(over, lru[|over|..], gone, stays);
  }

  /** Evicting one entry fewer would leave the cache over budget. */
  lemma BudgetEvictsNoMoreThanNeeded(entries: seq<Dir>, limits: Limits, loaded: set<string>, now: real, k: nat)
    requires k < |OverBudget(entries, limits, loaded, now)|
    ensures Total(entries) - Total(Old(entries, limits, loaded, now) + OverBudget(entries, limits, loaded, now)[..k]) > MaxBytes(limits)
  {
    var young := Young(entries, limits, loaded, now);
    var lru := StableSort(young, AccessLe);
    var over := OverBudget(entries, limits, loaded, now);
    TotalConcat(Old(entries, limits, loaded, now), over[..k]);
    assert over[..k] == lru[..k];
  }

  /** A second pass on the same clock and the same loaded models evicts nothing. */
  lemma SecondPassEvictsNothing(dirs: seq<Dir>, limits: Limits, loaded: set<string>, now: real)
    requires DistinctPaths(dirs)
    ensures var gone := Evicted(Scan(dirs), limits, loaded, now);
      Evicted(Scan(Without(dirs, gone)), limits, loaded, now) == []
  {
    var entries := Scan(dirs);
    var gone := Evicted(entries, limits, loaded, now);
    var left := Without(entries, gone);
    ScanIsDistinct(dirs);
    SizesAreConserved(dirs, limits, loaded, now);
    var again := Evicted(left, limits, loaded, now);
    NothingOldLeft(entries, limits, loaded, now);
    if again != [] {
      EvictedIsNotLoaded(left, limits, loaded, now, again[0]);
      WhatStays(entries, limits, loaded, now, again[0]);
      BudgetEvictsOnlyWhenOver(left, limits, loaded, now);
    }
  }

  lemma NothingOldLeft(entries: seq<Dir>, limits: Limits, loaded: set<string>, now: real)
    requires DistinctPaths(entries)
    ensures Old(Without(entries, Evicted(entries, limits, loaded, now)), limits, loaded, now) == []
  {
    var left := Without(entries, Evicted(entries, limits, loaded, now));
    var aged := Old(left, limits, loaded, now);
    if aged != [] {
      var o := aged[0];
      FilterMembers((d: Dir) => TooOld(d, limits, now), Eligible(left, loaded), o);
      FilterMembers((d: Dir) => ModelId(d) !in loaded, left, o);
      WhatStays(entries, limits, loaded, now, o);
      assert false;
    }
  }

  lemma BudgetEvictsOnlyWhenOver(entries: seq<Dir>, limits: Limits, loaded: set<string>, now: real)
    requires Old(entries, limits, loaded, now) == [] && OverBudget(entries, limits, loaded, now) != []
    ensures limits.maxGb > 0.0 && Total(entries) > MaxBytes(limits)
  {
    BudgetEvictsNoMoreThanNeeded(entries, limits, loaded, now, 0);
    assert Old(entries, limits, loaded, now) + OverBudget(entries, limits, loaded, now)[..0] == [];
  }

  /** What goes for its age: exactly what is not loaded and was not used for more than the hours allowed, if they are limited. */
  lemma OldIsUnusedForLong(entries: seq<Dir>, limits: Limits, loaded: set<string>, now: real, d: Dir)
    ensures d in Old(entries, limits, loaded, now) <==>
      d in entries && ModelId(d) !in loaded && limits.maxAgeHours > 0.0 && (now - d.lastAccessed) / 3600.0 > limits.maxAgeHours
  {
    FilterMembers((d: Dir) => TooOld(d, limits, now), Eligible(entries, loaded), d);
    FilterMembers((d: Dir) => ModelId(d) !in loaded, entries, d);
  }

  /** The budget in whole bytes. */
  lemma BudgetInBytes(limits: Limits)
    ensures var bytes := limits.maxGb * 1024.0 * 1024.0 * 1024.0;
      MaxBytes(limits) as real <= bytes < MaxBytes(limits) as real + 1.0
  {
  }

  /** A Hugging Face directory counts by its prefix and any other by its download marker; what does not count is never evicted. */
  lemma OnlyFinishedDownloadsGo(dirs: seq<Dir>, limits: Limits, loaded: set<string>, now: real, d: Dir)
    requires d in Evicted(Scan(dirs), limits, loaded, now)
    ensures d in dirs && if d.isHf then HF_PREFIX <= d.name else d.complete
  {
    OnlyEntriesGo(Scan(dirs), limits, loaded, now, d);
    FilterMembers(IsEntry, dirs, d);
  }

  lemma OnlyEntriesGo(entries: seq<Dir>, limits: Limits, loaded: set<string>, now: real, d: Dir)
    requires d in Evicted(entries, limits, loaded, now)
    ensures d in entries
  {
    FilterMembers((d: Dir) => ModelId(d) !in loaded, entries, d);
    if d in Old(entries, limits, loaded, now) {
      FilterMembers((d: Dir) => TooOld(d, limits, now), Eligible(entries, loaded), d);
    } else {
      OverBudgetIsPrefix(entries, limits, loaded, now);
      YoungSorted(entries, limits, loaded, now);
      FilterMembers((d: Dir) => !TooOld(d, limits, now), Eligible(entries, loaded), d);
    }
  }
}
