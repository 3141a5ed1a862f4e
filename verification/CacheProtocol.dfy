/**
 What a request does to the whole hierarchy: hits, merged misses, allocation with
 eviction, forwarding to the next level, and the completion callback.
 */
module CacheProtocol {
  import opened Basics
  import opened CacheSets
  import opened CacheHierarchy

  datatype Wait = Wait(time: int, addr: int, write: bool)

  datatype System = System(caches: Caches, waits: seq<Wait>, hits: seq<Wait>, clk: int)

  /** Which of the given caches hold the block locked. */
  ghost function LockedIn(cfg: Config, s: Caches, ds: set<nat>, b: int): (r: set<nat>)
    requires Fits(cfg, s)
  {
    set d | d in ds && d < |s| && HasLocked(cfg, s, d, b)
  }

  /** `check_unlock`: nothing at or above `c` has the block locked, looking up only while it is present. */
  predicate CheckUnlock(cfg: Config, s: Caches, c: nat, b: int)
    requires Fits(cfg, s) && c < |s|
    decreases c
  {
    Has(cfg, s, c, b) ==>
      && !HasLocked(cfg, s, c, b)
      && forall i :: 0 <= i < |cfg.Higher(c)| ==> CheckUnlock(cfg, s, cfg.Higher(c)[i], b)
  }

  lemma {:induction false} CheckUnlockMeans(cfg: Config, s: Caches, c: nat, b: int)
    requires Fits(cfg, s) && c < |s| && Orphans(cfg, s, cfg.Up(c), b) == {}
    ensures CheckUnlock(cfg, s, c, b) <==> LockedIn(cfg, s, cfg.Up(c), b) == {}
    decreases c
  {
    if !Has(cfg, s, c, b) {
      forall d | d in cfg.Up(c) ensures !Has(cfg, s, d, b) { AbsentAbove(cfg, s, c, d, b); }
    } else {
      UpIsBranches(cfg, c);
      var n := |cfg.Higher(c)|;
      forall i | 0 <= i < n
        ensures CheckUnlock(cfg, s, cfg.Higher(c)[i], b) <==> LockedIn(cfg, s, cfg.Up(cfg.Higher(c)[i]), b) == {}
      {
        UpInside(cfg, cfg.Higher(c)[i], c);
        NoOrphansInside(cfg, s, s, cfg.Up(c), cfg.Up(cfg.Higher(c)[i]), b);
        CheckUnlockMeans(cfg, s, cfg.Higher(c)[i], b);
      }
      LockedBranches(cfg, s, c, n, cfg.Branches(c, n), b);
      LockedUnion(cfg, s, {c}, cfg.Branches(c, n), b);
      assert LockedIn(cfg, s, {c}, b) == if HasLocked(cfg, s, c, b) then {c} else {};
    }
  }

  lemma LockedUnion(cfg: Config, s: Caches, ds: set<nat>, es: set<nat>, b: int)
    requires Fits(cfg, s)
    ensures LockedIn(cfg, s, ds + es, b) == LockedIn(cfg, s, ds, b) + LockedIn(cfg, s, es, b)
  {
  }

  lemma {:induction false} LockedBranches(cfg: Config, s: Caches, c: nat, n: nat, ds: set<nat>, b: int)
    requires Fits(cfg, s) && c < |s| && n <= |cfg.Higher(c)| && ds == cfg.Branches(c, n)
    ensures LockedIn(cfg, s, ds, b) == {} <==> forall i :: 0 <= i < n ==> LockedIn(cfg, s, cfg.Up(cfg.Higher(c)[i]), b) == {}
    decreases n
  {
    if n == 0 {
      assert LockedIn(cfg, s, ds, b) == {};
    } else {
      var h := cfg.Higher(c)[n - 1];
      var es := cfg.Branches(c, n - 1);
      LockedBranches(cfg, s, c, n - 1, es, b);
      LockedUnion(cfg, s, es, cfg.Up(h), b);
    }
  }

  /** The first line of a set that is unlocked here and above; the length of the set when there is none. */
  function FindVictim(cfg: Config, s: Caches, c: nat, ls: seq<Line>): (k: nat)
    requires Fits(cfg, s) && c < |s|
    ensures k <= |ls|
    ensures k < |ls| ==> Evictable(cfg, s, c, ls[k])
    ensures forall i :: 0 <= i < k ==> !Evictable(cfg, s, c, ls[i])
  {
    if ls == [] then 0 else if Evictable(cfg, s, c, ls[0]) then 0 else 1 + FindVictim(cfg, s, c, ls[1..])
  }

  predicate Evictable(cfg: Config, s: Caches, c: nat, l: Line)
    requires Fits(cfg, s) && c < |s|
  {
    !l.lock && forall i :: 0 <= i < |cfg.Higher(c)| ==> CheckUnlock(cfg, s, cfg.Higher(c)[i], Block(cfg.geo[c], l.addr))
  }

  // ----- eviction -----

  function EvictDelay(own: int, rs: seq<(int, bool)>): (d: int) {
    if rs == [] then 0
    else
      var r := rs[|rs| - 1];
      Max(EvictDelay(own, rs[..|rs| - 1]), r.0 + if r.1 then own else 0)
  }

  /** `evictline`: the lower cache inherits the dirty bit and the line becomes its most recent one. */
  function EvictLine(cfg: Config, s: Caches, l: nat, addr: int, dirty: bool): (r: Caches)
    requires Fits(cfg, s) && l < |s| && Has(cfg, s, l, Block(cfg.geo[l], addr))
    ensures |r| == |s|
  {
    s[l := Touch(cfg.geo[l], s[l], addr, dirty || HasDirty(cfg, s, l, Block(cfg.geo[l], addr)))]
  }

  /** `evict`: the victim leaves this level and all above; its dirty bit goes down, from the last level to memory. */
  function Evict(cfg: Config, y: System, c: nat, v: Line): (r: System)
    requires Fits(cfg, y.caches) && c < |y.caches| && Has(cfg, y.caches, c, Block(cfg.geo[c], v.addr))
    requires cfg.lower[c] != -1 ==> Has(cfg, y.caches, cfg.lower[c], Block(cfg.geo[cfg.lower[c]], v.addr))
    ensures |r.caches| == |y.caches| && r.hits == y.hits && r.clk == y.clk
  {
    var g := cfg.geo[c];
    var b := Block(g, v.addr);
    var w := Sweep(cfg, y.caches, c, |cfg.Higher(c)|, b);
    var dirty := v.dirty || AnyDirty(w.results);
    var t := if cfg.lower[c] != -1 then EvictLine(cfg, w.caches, cfg.lower[c], v.addr, dirty) else w.caches;
    var out := if cfg.lower[c] == -1 && dirty
               then [Wait(y.clk + EvictDelay(g.latencyEach, w.results) + g.latency, v.addr, true)] else [];
    y.(caches := t[c := Drop(g, t[c], b)], waits := y.waits + out)
  }

  /** Cache `d` after block `v` moved from `Up(c)` to the cache below `c`, where it is now the line `below`. */
  ghost predicate MovedAt(cfg: Config, s: Caches, t: Caches, c: nat, v: int, below: Line, d: nat)
    requires Fits(cfg, s) && Fits(cfg, t) && c < |s| && d < |s|
  {
    if d in cfg.Up(c) then Cleared(cfg.geo[d], s[d], t[d], v)
    else if d == cfg.lower[c] then
      && t[d].mshrs == s[d].mshrs
      && Differs(cfg.geo[d], s[d], t[d], v, Some(below))
      && forall i :: |Lines(t[d], i)| == |Lines(s[d], i)|
    else t[d] == s[d]
  }

  ghost predicate Moved(cfg: Config, s: Caches, t: Caches, c: nat, v: int, below: Line)
    requires Fits(cfg, s) && Fits(cfg, t) && c < |s|
  {
    && (forall d: nat :: d < |s| ==> MovedAt(cfg, s, t, c, v, below, d))
    && |Lines(t[c], v % cfg.geo[c].sets)| == |Lines(s[c], v % cfg.geo[c].sets)| - 1
  }

  /** All levels cut addresses into the same blocks. */
  lemma OneBlockSize(cfg: Config, c: nat, d: nat, addr: int)
    requires cfg.Valid() && c < |cfg.geo| && d < |cfg.geo|
    ensures Block(cfg.geo[c], addr) == Block(cfg.geo[d], addr)
  {
    assert cfg.geo[c].block == cfg.geo[d].block;
  }

  /** A sweep above `c`, the line dropped at `c` and touched below: together they move the block down. */
  lemma EvictMoves(cfg: Config, s: Caches, w: Caches, t: Caches, c: nat, v: int, ds: set<nat>, below: Line)
    requires Fits(cfg, s) && Fits(cfg, w) && Fits(cfg, t) && c < |s| && cfg.Up(c) == {c} + ds && c !in ds
    requires Erased(cfg, s, w, ds, v)
    requires Cleared(cfg.geo[c], s[c], t[c], v)
    requires |Lines(t[c], v % cfg.geo[c].sets)| == |Lines(s[c], v % cfg.geo[c].sets)| - 1
    requires cfg.lower[c] != -1 ==> MovedAt(cfg, s, t, c, v, below, cfg.lower[c])
    requires forall d: nat :: d < |s| && d != c && d != cfg.lower[c] ==> t[d] == w[d]
    ensures Moved(cfg, s, t, c, v, below)
  {
    forall d: nat | d < |s| ensures MovedAt(cfg, s, t, c, v, below, d) {
      if d != c && d != cfg.lower[c] {
        assert if d in ds then Cleared(cfg.geo[d], s[d], w[d], v) else w[d] == s[d];
      }
    }
  }

  /** The line an evicted block becomes in the cache below. */
  ghost function Below(cfg: Config, s: Caches, c: nat, l: Line, v: int): (r: Line)
    requires Fits(cfg, s) && c < |s|
  {
    var d := cfg.lower[c];
    var dirty := DirtyIn(cfg, s, cfg.Up(c), v) != {};
    if d == -1 then l else Line(l.addr, Tag(cfg.geo[d], l.addr), false, dirty || HasDirty(cfg, s, d, v))
  }

  ghost predicate EvictReady(cfg: Config, s: Caches, c: nat, l: Line, v: int) {
    && Fits(cfg, s) && c < |s| && SetsFine(cfg, s)
    && v == Block(cfg.geo[c], l.addr) && At(cfg, s, c, v) == Some(l)
    && (cfg.lower[c] != -1 ==> Has(cfg, s, cfg.lower[c], v) && Block(cfg.geo[cfg.lower[c]], l.addr) == v)
    && Orphans(cfg, s, cfg.Up(c), v) == {}
  }

  lemma TouchMoves(cfg: Config, s: Caches, t: Caches, c: nat, l: Line, v: int)
    requires EvictReady(cfg, s, c, l, v) && Fits(cfg, t) && cfg.lower[c] != -1
    requires t[cfg.lower[c]] == Touch(cfg.geo[cfg.lower[c]], s[cfg.lower[c]], l.addr, Below(cfg, s, c, l, v).dirty)
    ensures MovedAt(cfg, s, t, c, v, Below(cfg, s, c, l, v), cfg.lower[c])
  {
    TouchEffect(cfg.geo[cfg.lower[c]], s[cfg.lower[c]], l.addr, Below(cfg, s, c, l, v).dirty);
    assert !cfg.Above(cfg.lower[c], c);
  }

  lemma EvictCaches(cfg: Config, s: Caches, t: Caches, c: nat, l: Line, v: int, ds: set<nat>)
    requires EvictReady(cfg, s, c, l, v) && Fits(cfg, t)
    requires ds == cfg.Branches(c, |cfg.Higher(c)|) && cfg.Up(c) == {c} + ds && c !in ds
    requires var w := Sweep(cfg, s, c, |cfg.Higher(c)|, v).caches;
             && Erased(cfg, s, w, ds, v)
             && t == (if cfg.lower[c] == -1 then w
                      else w[cfg.lower[c] := Touch(cfg.geo[cfg.lower[c]], s[cfg.lower[c]], l.addr, Below(cfg, s, c, l, v).dirty)])
                     [c := Drop(cfg.geo[c], s[c], v)]
    ensures Moved(cfg, s, t, c, v, Below(cfg, s, c, l, v))
  {
    DropEffect(cfg.geo[c], s[c], v);
    if cfg.lower[c] != -1 { TouchMoves(cfg, s, t, c, l, v); }
    EvictMoves(cfg, s, Sweep(cfg, s, c, |cfg.Higher(c)|, v).caches, t, c, v, ds, Below(cfg, s, c, l, v));
  }

  /** An eviction moves the block down, with every dirty bit it had. */
  lemma EvictMovesDown(cfg: Config, y: System, c: nat, l: Line, v: int)
    requires EvictReady(cfg, y.caches, c, l, v)
    ensures Moved(cfg, y.caches, Evict(cfg, y, c, l).caches, c, v, Below(cfg, y.caches, c, l, v))
  {
    var s, ds := y.caches, cfg.Branches(c, |cfg.Higher(c)|);
    UpIsBranches(cfg, c);
    EvictDirty(cfg, s, c, ds, l, v);
    var w := Sweep(cfg, s, c, |cfg.Higher(c)|, v);
    if cfg.lower[c] != -1 {
      var d: nat := cfg.lower[c];
      assert HasDirty(cfg, w.caches, d, v) == HasDirty(cfg, s, d, v);
      assert Below(cfg, s, c, l, v).dirty == (l.dirty || AnyDirty(w.results) || HasDirty(cfg, w.caches, d, Block(cfg.geo[d], l.addr)));
    }
    EvictCaches(cfg, s, Evict(cfg, y, c, l).caches, c, l, v, ds);
  }

  /** From the last level, a block that was dirty anywhere goes to memory with exactly one write; a clean one with none. */
  lemma EvictWritesBack(cfg: Config, y: System, c: nat, l: Line, v: int)
    requires EvictReady(cfg, y.caches, c, l, v)
    ensures var r := Evict(cfg, y, c, l);
            if cfg.lower[c] == -1 && DirtyIn(cfg, y.caches, cfg.Up(c), v) != {}
            then |r.waits| == |y.waits| + 1 && r.waits[..|y.waits|] == y.waits && r.waits[|y.waits|].write && r.waits[|y.waits|].addr == l.addr
            else r.waits == y.waits
  {
    UpIsBranches(cfg, c);
    EvictDirty(cfg, y.caches, c, cfg.Branches(c, |cfg.Higher(c)|), l, v);
  }

  /** The dirty bit an eviction passes on is that of all caches it empties. */
  lemma EvictDirty(cfg: Config, s: Caches, c: nat, ds: set<nat>, l: Line, v: int)
    requires Fits(cfg, s) && c < |s| && SetsFine(cfg, s) && At(cfg, s, c, v) == Some(l)
    requires Orphans(cfg, s, cfg.Up(c), v) == {} && ds == cfg.Branches(c, |cfg.Higher(c)|) && cfg.Up(c) == {c} + ds
    ensures var w := Sweep(cfg, s, c, |cfg.Higher(c)|, v);
            && Erased(cfg, s, w.caches, ds, v)
            && (l.dirty || AnyDirty(w.results)) == (DirtyIn(cfg, s, cfg.Up(c), v) != {})
  {
    NoOrphansInside(cfg, s, s, cfg.Up(c), ds, v);
    SweepEffect(cfg, s, c, |cfg.Higher(c)|, ds, v);
    assert DirtyIn(cfg, s, {c}, v) == if l.dirty then {c} else {};
    DirtyJoin(cfg, s, s, {c}, ds, v, l.dirty, AnyDirty(Sweep(cfg, s, c, |cfg.Higher(c)|, v).results));
  }

  // ----- what every run keeps -----

  /** A forwarded miss that has not reached the next level yet. */
  datatype Hole = NoHole | Hole(cache: nat, block: int)

  /** What cache `d` holds, the next cache down holds too, and not locked unless `d` has it locked. */
  ghost predicate Covered(cfg: Config, s: Caches, d: nat, x: int)
    requires Fits(cfg, s) && d < |s| && cfg.lower[d] != -1
  {
    Has(cfg, s, d, x) ==> Has(cfg, s, cfg.lower[d], x) && (HasLocked(cfg, s, cfg.lower[d], x) ==> HasLocked(cfg, s, d, x))
  }

  /** Every cache is well-formed and, except for the forwarded miss, every block is covered. */
  ghost predicate Inv(cfg: Config, s: Caches, hole: Hole) {
    && Fits(cfg, s)
    && (forall c :: 0 <= c < |s| ==> CacheOk(cfg.geo[c], s[c]))
    && forall d: nat, x {:trigger Covered(cfg, s, d, x)} ::
         d < |s| && cfg.lower[d] != -1 && hole != Hole(d, x) ==> Covered(cfg, s, d, x)
  }

  /** The hierarchy is inclusive: what a cache holds, the next one down holds. */
  ghost predicate Inclusive(cfg: Config, s: Caches)
    requires Fits(cfg, s)
  {
    forall d: nat, x :: d < |s| && cfg.lower[d] != -1 && Has(cfg, s, d, x) ==> Has(cfg, s, cfg.lower[d], x)
  }

  lemma InvNoOrphans(cfg: Config, s: Caches, hole: Hole, ds: set<nat>, x: int)
    requires Inv(cfg, s, hole) && (hole == NoHole || hole.block != x)
    ensures Orphans(cfg, s, ds, x) == {}
  {
    forall d: nat | d < |s| && cfg.lower[d] != -1 ensures Covered(cfg, s, d, x) {}
  }

  lemma InvSetsFine(cfg: Config, s: Caches, hole: Hole)
    requires Inv(cfg, s, hole)
    ensures SetsFine(cfg, s)
  {
    forall d | 0 <= d < |s| ensures SetsOk(cfg.geo[d], s[d]) { assert CacheOk(cfg.geo[d], s[d]); }
  }

  // ----- eviction keeps the invariant -----

  lemma SameLocks(g: Geometry, c: Cache, r: Cache)
    requires g.Valid() && CacheOk(g, c) && SetsOk(g, r) && r.mshrs == c.mshrs
    requires forall x :: Locked(g, r, x) <==> Locked(g, c, x)
    ensures CacheOk(g, r)
  {
    forall x ensures Missing(g, r, x) <==> Missing(g, c, x) {}
  }

  /** The lines that eviction may choose: unlocked at `c` and above, hence also below. */
  ghost predicate Free(cfg: Config, s: Caches, c: nat, v: int)
    requires Fits(cfg, s) && c < |s|
  {
    Has(cfg, s, c, v) && LockedIn(cfg, s, cfg.Up(c), v) == {}
  }

  lemma FreeBelow(cfg: Config, s: Caches, hole: Hole, c: nat, v: int)
    requires Inv(cfg, s, hole) && c < |s| && Free(cfg, s, c, v) && hole != Hole(c, v)
    ensures !HasLocked(cfg, s, c, v)
    ensures cfg.lower[c] != -1 ==> Has(cfg, s, cfg.lower[c], v) && !HasLocked(cfg, s, cfg.lower[c], v)
  {
    assert c in cfg.Up(c);
    assert HasLocked(cfg, s, c, v) <==> c in LockedIn(cfg, s, cfg.Up(c), v);
    if cfg.lower[c] != -1 { assert Covered(cfg, s, c, v); }
  }

  lemma MovedCacheOk(cfg: Config, s: Caches, t: Caches, hole: Hole, c: nat, v: int, below: Line, d: nat)
    requires Inv(cfg, s, hole) && Fits(cfg, t) && c < |s| && d < |s|
    requires Free(cfg, s, c, v) && hole != Hole(c, v) && !below.lock && MovedAt(cfg, s, t, c, v, below, d)
    ensures CacheOk(cfg.geo[d], t[d])
  {
    FreeBelow(cfg, s, hole, c, v);
    assert CacheOk(cfg.geo[d], s[d]);
    if d in cfg.Up(c) || d == cfg.lower[c] {
      assert !HasLocked(cfg, s, d, v) by {
        if d in cfg.Up(c) { assert d !in LockedIn(cfg, s, cfg.Up(c), v); }
      }
      forall x ensures Locked(cfg.geo[d], t[d], x) <==> Locked(cfg.geo[d], s[d], x) {}
      SameLocks(cfg.geo[d], s[d], t[d]);
    }
  }

  lemma MovedCovered(cfg: Config, s: Caches, t: Caches, hole: Hole, c: nat, v: int, below: Line, d: nat, x: int)
    requires Inv(cfg, s, hole) && Fits(cfg, t) && c < |s| && d < |s| && cfg.lower[d] != -1
    requires Free(cfg, s, c, v) && (hole == NoHole || hole.block != v) && !below.lock
    requires MovedAt(cfg, s, t, c, v, below, d) && MovedAt(cfg, s, t, c, v, below, cfg.lower[d])
    requires hole != Hole(d, x)
    ensures Covered(cfg, t, d, x)
  {
    assert Covered(cfg, s, d, x);
    FreeBelow(cfg, s, hole, c, v);
    if x == v && d !in cfg.Up(c) {
      assert cfg.lower[d] !in cfg.Up(c);
    }
  }

  /** An eviction keeps all invariants. */
  lemma MovedKeepsInv(cfg: Config, s: Caches, t: Caches, hole: Hole, c: nat, v: int, below: Line)
    requires Inv(cfg, s, hole) && Fits(cfg, t) && c < |s|
    requires Free(cfg, s, c, v) && (hole == NoHole || hole.block != v) && !below.lock
    requires Moved(cfg, s, t, c, v, below)
    ensures Inv(cfg, t, hole)
  {
    forall d | 0 <= d < |t| ensures CacheOk(cfg.geo[d], t[d]) {
      assert MovedAt(cfg, s, t, c, v, below, d);
      MovedCacheOk(cfg, s, t, hole, c, v, below, d);
    }
    forall d: nat, x | d < |t| && cfg.lower[d] != -1 && hole != Hole(d, x) ensures Covered(cfg, t, d, x) {
      assert MovedAt(cfg, s, t, c, v, below, d) && MovedAt(cfg, s, t, c, v, below, cfg.lower[d]);
      MovedCovered(cfg, s, t, hole, c, v, below, d, x);
    }
  }

  // ----- one cache changes one block -----

  /** `t` is `s` with cache `c` looking up `l` for block `b`, all else as before. */
  ghost predicate Placed(cfg: Config, s: Caches, t: Caches, c: nat, b: int, l: Line)
    requires Fits(cfg, s) && Fits(cfg, t) && c < |s|
  {
    && Differs(cfg.geo[c], s[c], t[c], b, Some(l))
    && forall d: nat :: d < |s| && d != c ==> t[d] == s[d]
  }

  /** The forwarded miss, if any, is for `b`, comes from directly above `c`, and is locked there. */
  ghost predicate Awaits(cfg: Config, s: Caches, hole: Hole, c: nat, b: int)
    requires Fits(cfg, s)
  {
    hole == NoHole || (hole.cache < |s| && cfg.lower[hole.cache] == c && hole.block == b && HasLocked(cfg, s, hole.cache, b))
  }

  /** Where the inclusion may be open after `c` took the block: between `c` and the next level. */
  function Next(cfg: Config, c: nat, b: int): (h: Hole)
    requires cfg.Valid() && c < |cfg.lower|
  {
    if cfg.lower[c] == -1 then NoHole else Hole(c, b)
  }

  lemma PlacedCovered(cfg: Config, s: Caches, t: Caches, hole: Hole, c: nat, b: int, l: Line, d: nat, x: int)
    requires Fits(cfg, s) && Fits(cfg, t) && c < |s| && d < |s| && cfg.lower[d] != -1
    requires Awaits(cfg, s, hole, c, b) && Placed(cfg, s, t, c, b, l)
    requires hole != Hole(d, x) ==> Covered(cfg, s, d, x)
    requires Has(cfg, s, c, b) ==> At(cfg, s, c, b).value.lock == l.lock
    requires !Has(cfg, s, c, b) ==> l.lock && !(d == c && x == b)
    ensures Covered(cfg, t, d, x)
  {
    var e: nat := cfg.lower[d];
    assert e != d;
    assert d != c ==> t[d] == s[d];
    assert e != c ==> t[e] == s[e];
    if x != b {
      assert At(cfg, t, d, x) == At(cfg, s, d, x) && At(cfg, t, e, x) == At(cfg, s, e, x);
    }
  }

  /** A block placed at `c` closes the hole above; below, it is covered, or the miss is about to be forwarded. */
  lemma PlacedKeepsInv(cfg: Config, s: Caches, t: Caches, hole: Hole, hole': Hole, c: nat, b: int, l: Line)
    requires Inv(cfg, s, hole) && Fits(cfg, t) && c < |s| && Awaits(cfg, s, hole, c, b)
    requires Placed(cfg, s, t, c, b, l) && CacheOk(cfg.geo[c], t[c])
    requires Has(cfg, s, c, b) ==> At(cfg, s, c, b).value.lock == l.lock && hole' == NoHole
    requires !Has(cfg, s, c, b) ==> l.lock && hole' == Next(cfg, c, b)
    ensures Inv(cfg, t, hole')
  {
    forall d | 0 <= d < |t| ensures CacheOk(cfg.geo[d], t[d]) { assert CacheOk(cfg.geo[d], s[d]); }
    forall d: nat, x | d < |t| && cfg.lower[d] != -1 && hole' != Hole(d, x) ensures Covered(cfg, t, d, x) {
      PlacedCovered(cfg, s, t, hole, c, b, l, d, x);
    }
  }

  // ----- requests -----

  datatype Outcome = Outcome(sys: System, ok: bool)

  predicate AllLocked(g: Geometry, ls: seq<Line>) {
    g.assoc <= |ls| && forall k :: 0 <= k < |ls| ==> ls[k].lock
  }

  /** Appends the locked line for a new miss and records the miss. */
  function Install(cfg: Config, y: System, c: nat, addr: int, write: bool): (r: System)
    requires Fits(cfg, y.caches) && c < |y.caches|
    ensures |r.caches| == |y.caches|
  {
    var g := cfg.geo[c];
    var t := Append(g, y.caches[c], Line(addr, Tag(g, addr), true, write));
    y.(caches := y.caches[c := t.(mshrs := t.mshrs + [addr])])
  }

  /** A chosen victim can be evicted, and it is not the block that is missing. */
  lemma VictimReady(cfg: Config, s: Caches, hole: Hole, c: nat, b: int, k: nat)
    requires Inv(cfg, s, hole) && c < |s| && Awaits(cfg, s, hole, c, b) && !Has(cfg, s, c, b)
    requires k < |Lines(s[c], b % cfg.geo[c].sets)| && Evictable(cfg, s, c, Lines(s[c], b % cfg.geo[c].sets)[k])
    ensures var l := Lines(s[c], b % cfg.geo[c].sets)[k];
            var v := Block(cfg.geo[c], l.addr);
            && v != b && v % cfg.geo[c].sets == b % cfg.geo[c].sets
            && EvictReady(cfg, s, c, l, v) && Free(cfg, s, c, v)
  {
    var g := cfg.geo[c];
    var l := Lines(s[c], b % g.sets)[k];
    var v := Block(g, l.addr);
    InvSetsFine(cfg, s, hole);
    PeekLine(g, s[c], b % g.sets, k);
    InvNoOrphans(cfg, s, hole, cfg.Up(c), v);
    CheckUnlockMeans(cfg, s, c, v);
    FreeBelow(cfg, s, hole, c, v);
    if cfg.lower[c] != -1 { OneBlockSize(cfg, c, cfg.lower[c], l.addr); }
  }

  /** Room for a new line, by eviction if need be; `None` when the request has to be refused. */
  function MakeRoom(cfg: Config, y: System, ghost hole: Hole, c: nat, b: int): (r: Option<System>)
    requires Inv(cfg, y.caches, hole) && c < |y.caches| && Awaits(cfg, y.caches, hole, c, b) && !Has(cfg, y.caches, c, b)
    ensures r.Some? ==> |r.value.caches| == |y.caches|
  {
    var g := cfg.geo[c];
    var ls := Lines(y.caches[c], b % g.sets);
    if |y.caches[c].mshrs| == g.mshrs then None
    else if AllLocked(g, ls) then None
    else if |ls| < g.assoc then Some(y)
    else
      var k := FindVictim(cfg, y.caches, c, ls);
      if k == |ls| then None else
      VictimReady(cfg, y.caches, hole, c, b, k);
      Some(Evict(cfg, y, c, ls[k]))
  }

  /** The state after an eviction is ready for the missing block. */
  ghost predicate HasRoom(cfg: Config, s: Caches, hole: Hole, c: nat, b: int) {
    && Inv(cfg, s, hole) && c < |s| && Awaits(cfg, s, hole, c, b) && !Has(cfg, s, c, b)
    && |Lines(s[c], b % cfg.geo[c].sets)| < cfg.geo[c].assoc
    && |s[c].mshrs| < cfg.geo[c].mshrs
  }

  lemma MovedHasRoom(cfg: Config, s: Caches, t: Caches, hole: Hole, c: nat, b: int, v: int, below: Line)
    requires Inv(cfg, s, hole) && Fits(cfg, t) && c < |s| && Awaits(cfg, s, hole, c, b) && !Has(cfg, s, c, b)
    requires |Lines(s[c], b % cfg.geo[c].sets)| <= cfg.geo[c].assoc && |s[c].mshrs| < cfg.geo[c].mshrs
    requires v != b && v % cfg.geo[c].sets == b % cfg.geo[c].sets
    requires Moved(cfg, s, t, c, v, below) && Inv(cfg, t, hole)
    ensures HasRoom(cfg, t, hole, c, b)
  {
    assert c in cfg.Up(c) && MovedAt(cfg, s, t, c, v, below, c);
    if hole != NoHole {
      assert MovedAt(cfg, s, t, c, v, below, hole.cache);
      assert At(cfg, t, hole.cache, b) == At(cfg, s, hole.cache, b);
    }
  }

  lemma MakeRoomKeepsInv(cfg: Config, y: System, hole: Hole, c: nat, b: int)
    requires Inv(cfg, y.caches, hole) && c < |y.caches| && Awaits(cfg, y.caches, hole, c, b) && !Has(cfg, y.caches, c, b)
    requires MakeRoom(cfg, y, hole, c, b).Some?
    ensures HasRoom(cfg, MakeRoom(cfg, y, hole, c, b).value.caches, hole, c, b)
  {
    var g := cfg.geo[c];
    var s := y.caches;
    var ls := Lines(s[c], b % g.sets);
    assert CacheOk(g, s[c]);
    if |ls| >= g.assoc {
      var k := FindVictim(cfg, s, c, ls);
      var v := Block(g, ls[k].addr);
      VictimReady(cfg, s, hole, c, b, k);
      EvictKeepsInv(cfg, y, hole, c, ls[k], v);
      MovedHasRoom(cfg, s, Evict(cfg, y, c, ls[k]).caches, hole, c, b, v, Below(cfg, s, c, ls[k], v));
    }
  }

  lemma EvictKeepsInv(cfg: Config, y: System, hole: Hole, c: nat, l: Line, v: int)
    requires Inv(cfg, y.caches, hole) && EvictReady(cfg, y.caches, c, l, v) && Free(cfg, y.caches, c, v) && !l.lock
    requires hole == NoHole || hole.block != v
    ensures Moved(cfg, y.caches, Evict(cfg, y, c, l).caches, c, v, Below(cfg, y.caches, c, l, v))
    ensures Inv(cfg, Evict(cfg, y, c, l).caches, hole)
  {
    EvictMovesDown(cfg, y, c, l, v);
    MovedKeepsInv(cfg, y.caches, Evict(cfg, y, c, l).caches, hole, c, v, Below(cfg, y.caches, c, l, v));
  }

  lemma InstallKeepsInv(cfg: Config, y: System, hole: Hole, c: nat, addr: int, write: bool)
    requires c < |y.caches| && cfg.Valid() && |cfg.geo| == |y.caches|
    requires HasRoom(cfg, y.caches, hole, c, Block(cfg.geo[c], addr))
    ensures var b := Block(cfg.geo[c], addr);
            var t := Install(cfg, y, c, addr, write).caches;
            && Inv(cfg, t, Next(cfg, c, b))
            && At(cfg, t, c, b) == Some(Line(addr, Tag(cfg.geo[c], addr), true, write))
            && Placed(cfg, y.caches, t, c, b, Line(addr, Tag(cfg.geo[c], addr), true, write))
  {
    var g := cfg.geo[c];
    var b := Block(g, addr);
    var s := y.caches;
    var l := Line(addr, Tag(g, addr), true, write);
    assert CacheOk(g, s[c]);
    AppendEffect(g, s[c], l);
    var t := Install(cfg, y, c, addr, write).caches;
    NewMiss(g, s[c], Append(g, s[c], l), l);
    PlacedKeepsInv(cfg, s, t, hole, Next(cfg, c, b), c, b, l);
  }

  /** A locked line together with its miss entry keeps the one-to-one correspondence. */
  lemma NewMiss(g: Geometry, c: Cache, t: Cache, l: Line)
    requires g.Valid() && CacheOk(g, c) && !Holds(g, c, Block(g, l.addr)) && |c.mshrs| < g.mshrs
    requires Differs(g, c, t, Block(g, l.addr), Some(l)) && t.mshrs == c.mshrs && l.lock
    ensures CacheOk(g, t.(mshrs := t.mshrs + [l.addr]))
    ensures Differs(g, c, t.(mshrs := t.mshrs + [l.addr]), Block(g, l.addr), Some(l))
  {
    var r := t.(mshrs := t.mshrs + [l.addr]);
    var b := Block(g, l.addr);
    assert !Locked(g, c, b) && !Missing(g, c, b);
    forall x ensures Peek(g, r, x) == Peek(g, t, x) {}
    forall x ensures Locked(g, r, x) <==> Missing(g, r, x) {
      assert Locked(g, c, x) <==> Missing(g, c, x);
      assert Missing(g, r, x) <==> Missing(g, c, x) || x == b by {
        if x == b { assert l.addr in r.mshrs; }
        if m :| m in c.mshrs && Block(g, m) == x { assert m in r.mshrs; }
      }
    }
  }
}
