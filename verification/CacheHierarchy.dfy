/**
 The cache hierarchy: caches numbered so that each forwards its misses to a cache
 with a larger number (its `lower`), last-level caches forward to memory. Any number
 of cores, levels and last-level caches.
 */
module CacheHierarchy {
  import opened Basics
  import opened CacheSets

  datatype Config = Config(lower: seq<int>, geo: seq<Geometry>)
  {
    /** All levels share one block size. */
    predicate Valid() {
      && |lower| == |geo|
      && (forall c :: 0 <= c < |geo| ==> geo[c].Valid() && geo[c].block == geo[0].block)
      && forall c :: 0 <= c < |lower| ==> lower[c] == -1 || c < lower[c] < |lower|
    }

    /** `d` is `c`, or its misses reach `c` on their way to memory. */
    predicate Above(d: nat, c: nat)
      requires Valid() && d < |lower| && c < |lower|
      ensures Above(d, c) ==> d <= c
      decreases |lower| - d
    {
      d == c || (lower[d] != -1 && Above(lower[d], c))
    }

    /** The cache `c` and everything above it. */
    ghost function Up(c: nat): (ds: set<nat>)
      requires Valid() && c < |lower|
    {
      set d: nat | d < |lower| && Above(d, c)
    }

    /** The caches directly above `c`, in the order they were attached. */
    function Higher(c: nat): (hs: seq<nat>)
      requires Valid() && c < |lower|
      ensures forall i :: 0 <= i < |hs| ==> hs[i] < c && lower[hs[i]] == c
    {
      HigherBelow(c, |lower|)
    }

    function HigherBelow(c: nat, n: nat): (hs: seq<nat>)
      requires Valid() && c < |lower| && n <= |lower|
      ensures forall i :: 0 <= i < |hs| ==> hs[i] < n && hs[i] < c && lower[hs[i]] == c
    {
      if n == 0 then []
      else if lower[n - 1] == c then HigherBelow(c, n - 1) + [n - 1]
      else HigherBelow(c, n - 1)
    }

    lemma {:induction false} HigherComplete(c: nat, n: nat)
      requires Valid() && c < |lower| && n <= |lower|
      ensures forall h :: 0 <= h < n && lower[h] == c ==> h in HigherBelow(c, n)
      ensures forall i, j :: 0 <= i < j < |HigherBelow(c, n)| ==> HigherBelow(c, n)[i] != HigherBelow(c, n)[j]
    {
      if n != 0 { HigherComplete(c, n - 1); }
    }

    /** The first `n` caches directly above `c`, with everything above them. */
    ghost function Branches(c: nat, n: nat): (ds: set<nat>)
      requires Valid() && c < |lower| && n <= |Higher(c)|
    {
      if n == 0 then {} else Branches(c, n - 1) + Up(Higher(c)[n - 1])
    }
  }

  type Caches = seq<Cache>

  predicate Fits(cfg: Config, s: Caches) {
    cfg.Valid() && |s| == |cfg.lower|
  }

  /** The line of block `b` in cache `c`. */
  function At(cfg: Config, s: Caches, c: nat, b: int): (l: Option<Line>)
    requires Fits(cfg, s) && c < |s|
  {
    Peek(cfg.geo[c], s[c], b)
  }

  predicate Has(cfg: Config, s: Caches, c: nat, b: int)
    requires Fits(cfg, s) && c < |s|
  {
    At(cfg, s, c, b).Some?
  }

  predicate HasLocked(cfg: Config, s: Caches, c: nat, b: int)
    requires Fits(cfg, s) && c < |s|
  {
    At(cfg, s, c, b).Some? && At(cfg, s, c, b).value.lock
  }

  predicate HasDirty(cfg: Config, s: Caches, c: nat, b: int)
    requires Fits(cfg, s) && c < |s|
  {
    At(cfg, s, c, b).Some? && At(cfg, s, c, b).value.dirty
  }

  /** Which of the given caches hold the block dirty. */
  ghost function DirtyIn(cfg: Config, s: Caches, ds: set<nat>, b: int): (r: set<nat>)
    requires Fits(cfg, s)
  {
    set d | d in ds && d < |s| && HasDirty(cfg, s, d, b)
  }

  // ----- the shape of the hierarchy -----

  lemma {:induction false} AboveTransitive(cfg: Config, d: nat, c: nat, e: nat)
    requires cfg.Valid() && d < |cfg.lower| && c < |cfg.lower| && e < |cfg.lower|
    requires cfg.Above(d, c) && cfg.Above(c, e)
    ensures cfg.Above(d, e)
    decreases |cfg.lower| - d
  {
    if d != c { AboveTransitive(cfg, cfg.lower[d], c, e); }
  }

  lemma {:induction false} BranchesDisjoint(cfg: Config, d: nat, g: nat, h: nat)
    requires cfg.Valid() && d < |cfg.lower| && g < |cfg.lower| && h < |cfg.lower|
    requires cfg.lower[g] == cfg.lower[h]
    ensures cfg.Above(d, g) && cfg.Above(d, h) ==> g == h
    decreases |cfg.lower| - d
  {
    if d != g && d != h && cfg.lower[d] != -1 { BranchesDisjoint(cfg, cfg.lower[d], g, h); }
  }

  lemma {:induction false} BranchMember(cfg: Config, d: nat, c: nat, n: nat)
    requires cfg.Valid() && c < |cfg.lower| && n <= |cfg.Higher(c)|
    ensures d in cfg.Branches(c, n) <==> exists i :: 0 <= i < n && d in cfg.Up(cfg.Higher(c)[i])
    decreases n
  {
    if n != 0 { BranchMember(cfg, d, c, n - 1); }
  }

  lemma {:induction false} AboveThrough(cfg: Config, d: nat, c: nat)
    requires cfg.Valid() && d < |cfg.lower| && c < |cfg.lower| && cfg.Above(d, c) && d != c
    ensures exists i :: 0 <= i < |cfg.Higher(c)| && d in cfg.Up(cfg.Higher(c)[i])
    decreases |cfg.lower| - d
  {
    if cfg.lower[d] == c {
      cfg.HigherComplete(c, |cfg.lower|);
      var i :| 0 <= i < |cfg.Higher(c)| && cfg.Higher(c)[i] == d;
      assert d in cfg.Up(cfg.Higher(c)[i]);
    } else {
      AboveThrough(cfg, cfg.lower[d], c);
      var i :| 0 <= i < |cfg.Higher(c)| && cfg.lower[d] in cfg.Up(cfg.Higher(c)[i]);
      assert d in cfg.Up(cfg.Higher(c)[i]);
    }
  }

  /** What is above `c` is `c` itself and its branches. */
  lemma UpIsBranches(cfg: Config, c: nat)
    requires cfg.Valid() && c < |cfg.lower|
    ensures cfg.Up(c) == {c} + cfg.Branches(c, |cfg.Higher(c)|)
    ensures c !in cfg.Branches(c, |cfg.Higher(c)|)
  {
    var n := |cfg.Higher(c)|;
    forall d ensures d in cfg.Up(c) <==> d == c || d in cfg.Branches(c, n) {
      BranchMember(cfg, d, c, n);
      if d in cfg.Up(c) && d != c { AboveThrough(cfg, d, c); }
      if i :| 0 <= i < n && d in cfg.Up(cfg.Higher(c)[i]) { AboveTransitive(cfg, d, cfg.Higher(c)[i], c); }
    }
    BranchMember(cfg, c, c, n);
  }

  /** A branch has nothing in common with the branches before it, and lies above `c`. */
  lemma NextBranch(cfg: Config, c: nat, n: nat)
    requires cfg.Valid() && c < |cfg.lower| && n < |cfg.Higher(c)|
    ensures cfg.Branches(c, n) !! cfg.Up(cfg.Higher(c)[n])
  {
    cfg.HigherComplete(c, |cfg.lower|);
    forall d | d in cfg.Branches(c, n) ensures d !in cfg.Up(cfg.Higher(c)[n]) {
      BranchMember(cfg, d, c, n);
      var i :| 0 <= i < n && d in cfg.Up(cfg.Higher(c)[i]);
      BranchesDisjoint(cfg, d, cfg.Higher(c)[i], cfg.Higher(c)[n]);
    }
  }

  lemma UpInside(cfg: Config, h: nat, c: nat)
    requires cfg.Valid() && h < |cfg.lower| && c < |cfg.lower| && cfg.lower[h] == c
    ensures cfg.Up(h) <= cfg.Up(c) && c !in cfg.Up(h)
  {
    forall d | d in cfg.Up(h) ensures d in cfg.Up(c) { AboveTransitive(cfg, d, h, c); }
  }

  // ----- invalidation -----

  datatype Invalidated = Invalidated(caches: Caches, delay: int, dirty: bool)

  datatype Swept = Swept(caches: Caches, results: seq<(int, bool)>)

  function AnyDirty(rs: seq<(int, bool)>): (r: bool)
  {
    if rs == [] then false else AnyDirty(rs[..|rs| - 1]) || rs[|rs| - 1].1
  }

  /** The delay of an invalidation: a dirty answer from above crosses the level twice. */
  function SweepDelay(own: int, rs: seq<(int, bool)>): (d: int)
  {
    if rs == [] then own
    else
      var r := rs[|rs| - 1];
      Max(SweepDelay(own, rs[..|rs| - 1]), own + if r.1 then r.0 * 2 else r.0)
  }

  /** `invalidate`: drops the block here and, because the hierarchy is inclusive, above only if it was here. */
  function Invalidate(cfg: Config, s: Caches, c: nat, b: int): (r: Invalidated)
    requires Fits(cfg, s) && c < |s|
    ensures |r.caches| == |s| && forall d :: c < d < |s| ==> r.caches[d] == s[d]
    decreases c, |cfg.Higher(c)| + 1
  {
    var g := cfg.geo[c];
    if Lines(s[c], b % g.sets) == [] then Invalidated(s, 0, false)
    else if !Has(cfg, s, c, b) then Invalidated(s, g.latencyEach, false)
    else
      var line := At(cfg, s, c, b).value;
      var w := Sweep(cfg, s[c := Drop(g, s[c], b)], c, |cfg.Higher(c)|, b);
      Invalidated(w.caches, SweepDelay(g.latencyEach, w.results), line.dirty || AnyDirty(w.results))
  }

  /** Invalidates a block in the first `n` caches directly above `c`. */
  function Sweep(cfg: Config, s: Caches, c: nat, n: nat, b: int): (w: Swept)
    requires Fits(cfg, s) && c < |s| && n <= |cfg.Higher(c)|
    ensures |w.caches| == |s| && |w.results| == n && forall d :: c <= d < |s| ==> w.caches[d] == s[d]
    decreases c, n
  {
    if n == 0 then Swept(s, []) else
    var w := Sweep(cfg, s, c, n - 1, b);
    var r := Invalidate(cfg, w.caches, cfg.Higher(c)[n - 1], b);
    Swept(r.caches, w.results + [(r.delay, r.dirty)])
  }

  /** The caches among `ds` that hold the block although the next cache down, also among `ds`, does not. */
  ghost function Orphans(cfg: Config, s: Caches, ds: set<nat>, b: int): (r: set<nat>)
    requires Fits(cfg, s)
  {
    set d | d in ds && d < |s| && 0 <= cfg.lower[d] && cfg.lower[d] in ds && Has(cfg, s, d, b) && !Has(cfg, s, cfg.lower[d], b)
  }

  predicate SetsFine(cfg: Config, s: Caches)
    requires Fits(cfg, s)
  {
    forall d :: 0 <= d < |s| ==> SetsOk(cfg.geo[d], s[d])
  }

  /** `t` is `s` with block `b` gone from the caches `ds`; nothing else changed there, and nothing at all elsewhere. */
  ghost predicate Erased(cfg: Config, s: Caches, t: Caches, ds: set<nat>, b: int)
    requires Fits(cfg, s) && Fits(cfg, t)
  {
    forall d: nat :: d < |s| ==> if d in ds then Cleared(cfg.geo[d], s[d], t[d], b) else t[d] == s[d]
  }

  ghost predicate Cleared(g: Geometry, c: Cache, r: Cache, b: int)
    requires g.Valid()
  {
    r.mshrs == c.mshrs && Differs(g, c, r, b, None)
  }

  lemma ErasedJoin(cfg: Config, s: Caches, t: Caches, u: Caches, ds: set<nat>, es: set<nat>, b: int)
    requires Fits(cfg, s) && Fits(cfg, t) && Fits(cfg, u) && ds !! es
    requires Erased(cfg, s, t, ds, b) && Erased(cfg, t, u, es, b)
    ensures Erased(cfg, s, u, ds + es, b)
  {
  }

  lemma ErasedFine(cfg: Config, s: Caches, t: Caches, ds: set<nat>, b: int)
    requires Fits(cfg, s) && Fits(cfg, t) && SetsFine(cfg, s) && Erased(cfg, s, t, ds, b)
    ensures SetsFine(cfg, t)
  {
    forall d | 0 <= d < |t| ensures SetsOk(cfg.geo[d], t[d]) {
      assert if d in ds then Cleared(cfg.geo[d], s[d], t[d], b) else t[d] == s[d];
    }
  }

  ghost predicate Agree(s: Caches, t: Caches, ds: set<nat>) {
    |s| == |t| && forall d :: d in ds && d < |s| ==> t[d] == s[d]
  }

  lemma NoOrphansInside(cfg: Config, s: Caches, t: Caches, ds: set<nat>, es: set<nat>, b: int)
    requires Fits(cfg, s) && Fits(cfg, t) && es <= ds && Agree(s, t, es) && Orphans(cfg, s, ds, b) == {}
    ensures Orphans(cfg, t, es, b) == {}
  {
    forall d | d in Orphans(cfg, t, es, b) ensures d in Orphans(cfg, s, ds, b) {}
  }

  lemma ErasedAgree(cfg: Config, s: Caches, t: Caches, ds: set<nat>, es: set<nat>, b: int)
    requires Fits(cfg, s) && Fits(cfg, t) && Erased(cfg, s, t, ds, b) && ds !! es
    ensures Agree(s, t, es)
  {
  }

  /** Two disjoint groups of caches, one swept after the other: what they report together. */
  lemma DirtyJoin(cfg: Config, s: Caches, t: Caches, ds: set<nat>, es: set<nat>, b: int, x: bool, y: bool)
    requires Fits(cfg, s) && Fits(cfg, t) && Agree(s, t, es)
    requires x == (DirtyIn(cfg, s, ds, b) != {}) && y == (DirtyIn(cfg, t, es, b) != {})
    ensures (x || y) == (DirtyIn(cfg, s, ds + es, b) != {})
  {
    assert DirtyIn(cfg, s, es, b) == DirtyIn(cfg, t, es, b);
    assert DirtyIn(cfg, s, ds + es, b) == DirtyIn(cfg, s, ds, b) + DirtyIn(cfg, s, es, b);
  }

  lemma {:induction false} AbsentAbove(cfg: Config, s: Caches, c: nat, d: nat, b: int)
    requires Fits(cfg, s) && c < |s| && d in cfg.Up(c)
    requires Orphans(cfg, s, cfg.Up(c), b) == {} && !Has(cfg, s, c, b)
    ensures !Has(cfg, s, d, b)
    decreases |s| - d
  {
    if d != c {
      assert cfg.lower[d] in cfg.Up(c);
      AbsentAbove(cfg, s, c, cfg.lower[d], b);
      assert d !in Orphans(cfg, s, cfg.Up(c), b);
    }
  }

  /** Which caches an invalidation of `c` empties of the block, and what it reports. */
  lemma {:induction false} InvalidateEffect(cfg: Config, s: Caches, c: nat, b: int)
    requires Fits(cfg, s) && c < |s| && SetsFine(cfg, s)
    requires Orphans(cfg, s, cfg.Up(c), b) == {}
    ensures Erased(cfg, s, Invalidate(cfg, s, c, b).caches, cfg.Up(c), b)
    ensures Invalidate(cfg, s, c, b).dirty == (DirtyIn(cfg, s, cfg.Up(c), b) != {})
    decreases c, |cfg.Higher(c)| + 1
  {
    if !Has(cfg, s, c, b) {
      InvalidateAbsent(cfg, s, c, b);
    } else {
      var s1 := s[c := Drop(cfg.geo[c], s[c], b)];
      var n := |cfg.Higher(c)|;
      UpIsBranches(cfg, c);
      InvalidateHere(cfg, s, c, b, cfg.Branches(c, n));
      SweepEffect(cfg, s1, c, n, cfg.Branches(c, n), b);
      InvalidateJoin(cfg, s, s1, Sweep(cfg, s1, c, n, b), c, cfg.Branches(c, n), b);
    }
  }

  lemma InvalidateAbsent(cfg: Config, s: Caches, c: nat, b: int)
    requires Fits(cfg, s) && c < |s| && SetsFine(cfg, s) && Orphans(cfg, s, cfg.Up(c), b) == {} && !Has(cfg, s, c, b)
    ensures Erased(cfg, s, s, cfg.Up(c), b) && DirtyIn(cfg, s, cfg.Up(c), b) == {}
  {
    forall d | d in cfg.Up(c) ensures !Has(cfg, s, d, b) { AbsentAbove(cfg, s, c, d, b); }
  }

  lemma InvalidateHere(cfg: Config, s: Caches, c: nat, b: int, ds: set<nat>)
    requires Fits(cfg, s) && c < |s| && SetsFine(cfg, s) && Has(cfg, s, c, b)
    requires c !in ds && Orphans(cfg, s, {c} + ds, b) == {}
    ensures var s1 := s[c := Drop(cfg.geo[c], s[c], b)];
            && SetsFine(cfg, s1) && Erased(cfg, s, s1, {c}, b)
            && Orphans(cfg, s1, ds, b) == {}
  {
    DropEffect(cfg.geo[c], s[c], b);
    var s1 := s[c := Drop(cfg.geo[c], s[c], b)];
    NoOrphansInside(cfg, s, s1, {c} + ds, ds, b);
  }

  lemma InvalidateJoin(cfg: Config, s: Caches, s1: Caches, w: Swept, c: nat, ds: set<nat>, b: int)
    requires Fits(cfg, s) && Fits(cfg, s1) && Fits(cfg, w.caches) && c < |s| && c !in ds && Has(cfg, s, c, b)
    requires Erased(cfg, s, s1, {c}, b) && Erased(cfg, s1, w.caches, ds, b)
    requires AnyDirty(w.results) == (DirtyIn(cfg, s1, ds, b) != {})
    ensures Erased(cfg, s, w.caches, {c} + ds, b)
    ensures (At(cfg, s, c, b).value.dirty || AnyDirty(w.results)) == (DirtyIn(cfg, s, {c} + ds, b) != {})
  {
    ErasedJoin(cfg, s, s1, w.caches, {c}, ds, b);
    ErasedAgree(cfg, s, s1, {c}, ds, b);
    assert DirtyIn(cfg, s, {c}, b) == if HasDirty(cfg, s, c, b) then {c} else {};
    DirtyJoin(cfg, s, s1, {c}, ds, b, HasDirty(cfg, s, c, b), AnyDirty(w.results));
  }

  lemma {:induction false} SweepEffect(cfg: Config, s: Caches, c: nat, n: nat, ds: set<nat>, b: int)
    requires Fits(cfg, s) && c < |s| && SetsFine(cfg, s)
    requires n <= |cfg.Higher(c)| && ds == cfg.Branches(c, n) && Orphans(cfg, s, ds, b) == {}
    ensures Erased(cfg, s, Sweep(cfg, s, c, n, b).caches, ds, b)
    ensures AnyDirty(Sweep(cfg, s, c, n, b).results) == (DirtyIn(cfg, s, ds, b) != {})
    decreases c, n
  {
    if n == 0 {
      assert DirtyIn(cfg, s, {}, b) == {};
    } else {
      var h := cfg.Higher(c)[n - 1];
      var es := cfg.Branches(c, n - 1);
      assert ds == es + cfg.Up(h);
      NextBranch(cfg, c, n - 1);
      NoOrphansInside(cfg, s, s, ds, es, b);
      SweepEffect(cfg, s, c, n - 1, es, b);
      SweepStep(cfg, s, Sweep(cfg, s, c, n - 1, b), h, es, ds, b);
    }
  }

  /** One more branch after the caches `ds`. */
  lemma {:induction false} SweepStep(cfg: Config, s: Caches, w: Swept, h: nat, ds: set<nat>, all: set<nat>, b: int)
    requires Fits(cfg, s) && Fits(cfg, w.caches) && h < |s| && SetsFine(cfg, s)
    requires ds !! cfg.Up(h) && all == ds + cfg.Up(h) && Orphans(cfg, s, all, b) == {}
    requires Erased(cfg, s, w.caches, ds, b) && AnyDirty(w.results) == (DirtyIn(cfg, s, ds, b) != {})
    ensures var r := Invalidate(cfg, w.caches, h, b);
            && Erased(cfg, s, r.caches, all, b)
            && AnyDirty(w.results + [(r.delay, r.dirty)]) == (DirtyIn(cfg, s, all, b) != {})
    decreases h, |cfg.Higher(h)| + 2
  {
    SweepBefore(cfg, s, w.caches, ds, cfg.Up(h), b);
    InvalidateEffect(cfg, w.caches, h, b);
    SweepJoin(cfg, s, w, Invalidate(cfg, w.caches, h, b), ds, cfg.Up(h), b);
  }

  lemma SweepBefore(cfg: Config, s: Caches, t: Caches, ds: set<nat>, es: set<nat>, b: int)
    requires Fits(cfg, s) && Fits(cfg, t) && SetsFine(cfg, s) && ds !! es
    requires Erased(cfg, s, t, ds, b) && Orphans(cfg, s, ds + es, b) == {}
    ensures SetsFine(cfg, t) && Orphans(cfg, t, es, b) == {}
  {
    ErasedFine(cfg, s, t, ds, b);
    ErasedAgree(cfg, s, t, ds, es, b);
    NoOrphansInside(cfg, s, t, ds + es, es, b);
  }

  lemma SweepJoin(cfg: Config, s: Caches, w: Swept, r: Invalidated, ds: set<nat>, es: set<nat>, b: int)
    requires Fits(cfg, s) && Fits(cfg, w.caches) && Fits(cfg, r.caches) && ds !! es
    requires Erased(cfg, s, w.caches, ds, b) && Erased(cfg, w.caches, r.caches, es, b)
    requires AnyDirty(w.results) == (DirtyIn(cfg, s, ds, b) != {})
    requires r.dirty == (DirtyIn(cfg, w.caches, es, b) != {})
    ensures Erased(cfg, s, r.caches, ds + es, b)
    ensures AnyDirty(w.results + [(r.delay, r.dirty)]) == (DirtyIn(cfg, s, ds + es, b) != {})
  {
    ErasedAgree(cfg, s, w.caches, ds, es, b);
    ErasedJoin(cfg, s, w.caches, r.caches, ds, es, b);
    DirtyJoin(cfg, s, w.caches, ds, es, b, AnyDirty(w.results), r.dirty);
    assert (w.results + [(r.delay, r.dirty)])[..|w.results|] == w.results;
  }
}
