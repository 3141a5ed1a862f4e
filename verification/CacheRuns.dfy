/** Completions, and whole runs of requests and completions on the hierarchy. */
module CacheRuns {
  import opened Basics
  import opened CacheSets
  import opened CacheHierarchy
  import opened CacheProtocol
  import opened CacheSend

  // ----- conservation for a whole request -----

  lemma MakeRoomConserves(cfg: Config, y: System, hole: Hole, c: nat, root: nat, b: int)
    requires Inv(cfg, y.caches, hole) && c < |y.caches| && Awaits(cfg, y.caches, hole, c, b) && !Has(cfg, y.caches, c, b)
    requires MakeRoom(cfg, y, hole, c, b).Some? && IsRoot(cfg, c, root)
    ensures var r := MakeRoom(cfg, y, hole, c, b).value;
            && Fits(cfg, r.caches) && |y.waits| <= |r.waits| && r.waits[..|y.waits|] == y.waits
            && Conserved(cfg, root, y.caches, r.caches, Queued(y, r), iset{})
            && (c != root ==> r.waits == y.waits)
            && b !in Written(cfg, Queued(y, r))
  {
    var g, s := cfg.geo[c], y.caches;
    var ls := Lines(s[c], b % g.sets);
    if |ls| < g.assoc {
      assert Queued(y, y) == [];
      ConservedInPlace(cfg, root, s, s, iset{});
    } else {
      var k := FindVictim(cfg, s, c, ls);
      var v := Block(g, ls[k].addr);
      VictimReady(cfg, s, hole, c, b, k);
      EvictKeepsInv(cfg, y, hole, c, ls[k], v);
      EvictConserves(cfg, y, c, root, ls[k], v);
    }
  }

  lemma ConservedInPlace(cfg: Config, root: nat, s: Caches, t: Caches, added: iset<int>)
    requires Fits(cfg, s) && Fits(cfg, t) && root < |s|
    requires DirtyBlocks(cfg, t, root) == DirtyBlocks(cfg, s, root) + added
    ensures Conserved(cfg, root, s, t, [], added)
  {
    assert Written(cfg, []) == iset{};
  }

  /** The last level evicted, then took the block in and queued the read. */
  lemma ConservedAtRoot(cfg: Config, root: nat, s: Caches, u: Caches, t: Caches, ws: seq<Wait>, read: Wait, b: int, added: iset<int>)
    requires Fits(cfg, s) && Fits(cfg, u) && Fits(cfg, t) && root < |s|
    requires Conserved(cfg, root, s, u, ws, iset{}) && b !in Written(cfg, ws) && !read.write
    requires added <= iset{b} && DirtyBlocks(cfg, t, root) == DirtyBlocks(cfg, u, root) + added
    ensures Conserved(cfg, root, s, t, ws + [read], added)
  {
    WrittenOne(cfg, ws, read);
  }

  /** A higher level made room without writing anything back, then the lower levels took over. */
  lemma ConservedBelow(cfg: Config, root: nat, s: Caches, u: Caches, t: Caches, r: Caches, ws: seq<Wait>, added: iset<int>)
    requires Fits(cfg, s) && Fits(cfg, u) && Fits(cfg, t) && Fits(cfg, r) && root < |s|
    requires Conserved(cfg, root, s, u, [], iset{}) && DirtyBlocks(cfg, t, root) == DirtyBlocks(cfg, u, root) + added
    requires Conserved(cfg, root, t, r, ws, iset{})
    ensures Conserved(cfg, root, s, r, ws, added)
  {
    assert Written(cfg, []) == iset{};
  }

  /** The new entries of the waiting list after a request. */
  ghost function Queued(y: System, r: System): (ws: seq<Wait>)
    requires |y.waits| <= |r.waits|
  {
    r.waits[|y.waits|..]
  }

  ghost predicate Extends(y: System, r: System) {
    |y.waits| <= |r.waits| && r.waits[..|y.waits|] == y.waits
  }

  /** No request loses a dirty block; it writes back at most one, once, only from the last level, and never its own. */
  lemma {:induction false} SendConserves(cfg: Config, y: System, hole: Hole, c: nat, root: nat, addr: int, write: bool, b: int)
    requires Inv(cfg, y.caches, hole) && c < |y.caches| && b == Block(cfg.geo[c], addr) && Awaits(cfg, y.caches, hole, c, b)
    requires IsRoot(cfg, c, root)
    ensures var r := Send(cfg, y, hole, c, addr, write);
            && Extends(y, r.sys) && b !in Written(cfg, Queued(y, r.sys))
            && Conserved(cfg, root, y.caches, r.sys.caches, Queued(y, r.sys), if r.ok && write then iset{b} else iset{})
    decreases |cfg.lower| - c
  {
    var g, s := cfg.geo[c], y.caches;
    assert CacheOk(g, s[c]) && (Locked(g, s[c], b) <==> Missing(g, s[c], b));
    var r := Send(cfg, y, hole, c, addr, write);
    if Has(cfg, s, c, b) {
      PresentConserves(cfg, y, hole, c, root, addr, write, b);
    } else if MakeRoom(cfg, y, hole, c, b).None? {
      assert r == Outcome(y, false) && Queued(y, y) == [];
      ConservedInPlace(cfg, root, s, s, iset{});
    } else {
      MissConserves(cfg, y, hole, c, root, addr, write, b);
    }
  }

  lemma PresentConserves(cfg: Config, y: System, hole: Hole, c: nat, root: nat, addr: int, write: bool, b: int)
    requires Inv(cfg, y.caches, hole) && c < |y.caches| && b == Block(cfg.geo[c], addr) && Awaits(cfg, y.caches, hole, c, b)
    requires IsRoot(cfg, c, root) && Has(cfg, y.caches, c, b)
    ensures var r := Send(cfg, y, hole, c, addr, write);
            && r.ok && r.sys.waits == y.waits
            && Conserved(cfg, root, y.caches, r.sys.caches, Queued(y, r.sys), if write then iset{b} else iset{})
  {
    var g, s := cfg.geo[c], y.caches;
    var l := At(cfg, s, c, b).value;
    var dirty := l.dirty || write;
    assert CacheOk(g, s[c]) && (Locked(g, s[c], b) <==> Missing(g, s[c], b));
    var t := Send(cfg, y, hole, c, addr, write).sys.caches;
    if l.lock {
      MergeKeepsInv(cfg, s, hole, c, addr, dirty);
      PlacedDirty(cfg, s, t, c, root, b, l.(dirty := dirty), write);
    } else {
      HitKeepsInv(cfg, s, hole, c, addr, dirty);
      PlacedDirty(cfg, s, t, c, root, b, Line(addr, Tag(g, addr), false, dirty), write);
    }
    ConservedInPlace(cfg, root, s, t, if write then iset{b} else iset{});
    assert Queued(y, y) == [];
  }

  /** Everything a miss does at its own level: room, the new line, and how the dirty blocks moved. */
  lemma AllocateConserves(cfg: Config, y: System, hole: Hole, c: nat, root: nat, addr: int, write: bool, b: int)
    requires Inv(cfg, y.caches, hole) && c < |y.caches| && b == Block(cfg.geo[c], addr) && Awaits(cfg, y.caches, hole, c, b)
    requires IsRoot(cfg, c, root) && !Has(cfg, y.caches, c, b) && MakeRoom(cfg, y, hole, c, b).Some?
    ensures var y1 := MakeRoom(cfg, y, hole, c, b).value;
            var y2 := Install(cfg, y1, c, addr, write);
            && Fits(cfg, y1.caches) && Extends(y, y1) && y2.waits == y1.waits && y2.clk == y1.clk == y.clk
            && Inv(cfg, y2.caches, Next(cfg, c, b)) && HasLocked(cfg, y2.caches, c, b)
            && Conserved(cfg, root, y.caches, y1.caches, Queued(y, y1), iset{}) && b !in Written(cfg, Queued(y, y1))
            && DirtyBlocks(cfg, y2.caches, root) == DirtyBlocks(cfg, y1.caches, root) + (if write then iset{b} else iset{})
            && (c != root ==> y1.waits == y.waits)
  {
    var g := cfg.geo[c];
    var y1 := MakeRoom(cfg, y, hole, c, b).value;
    MakeRoomKeepsInv(cfg, y, hole, c, b);
    InstallKeepsInv(cfg, y1, hole, c, addr, write);
    MakeRoomConserves(cfg, y, hole, c, root, b);
    PlacedDirty(cfg, y1.caches, Install(cfg, y1, c, addr, write).caches, c, root, b, Line(addr, Tag(g, addr), true, write), write);
  }

  lemma {:induction false} MissConserves(cfg: Config, y: System, hole: Hole, c: nat, root: nat, addr: int, write: bool, b: int)
    requires Inv(cfg, y.caches, hole) && c < |y.caches| && b == Block(cfg.geo[c], addr) && Awaits(cfg, y.caches, hole, c, b)
    requires IsRoot(cfg, c, root) && !Has(cfg, y.caches, c, b) && MakeRoom(cfg, y, hole, c, b).Some?
    ensures var r := Send(cfg, y, hole, c, addr, write);
            && r.ok && Extends(y, r.sys) && b !in Written(cfg, Queued(y, r.sys))
            && Conserved(cfg, root, y.caches, r.sys.caches, Queued(y, r.sys), if write then iset{b} else iset{})
    decreases |cfg.lower| - c, 0
  {
    var added := if write then iset{b} else iset{};
    var y1 := MakeRoom(cfg, y, hole, c, b).value;
    var y2 := Install(cfg, y1, c, addr, write);
    AllocateConserves(cfg, y, hole, c, root, addr, write, b);
    UpOfRoot(cfg, c, root);
    var r := Send(cfg, y, hole, c, addr, write);
    if cfg.lower[c] == -1 {
      SendMissLast(cfg, y, y2, hole, c, addr, write, b);
      var read := Wait(y.clk + cfg.geo[c].latency, addr, false);
      ConservedAtRoot(cfg, root, y.caches, y1.caches, y2.caches, Queued(y, y1), read, b, added);
      QueuedAppend(y, y1, r.sys, read);
      WrittenOne(cfg, Queued(y, y1), read);
    } else {
      OneBlockSize(cfg, c, cfg.lower[c], addr);
      SendMissForwards(cfg, y, y2, hole, c, addr, write, b);
      SendConserves(cfg, y2, Next(cfg, c, b), cfg.lower[c], root, addr, false, b);
      QueuedThrough(y, y1, y2, r.sys);
      ConservedBelow(cfg, root, y.caches, y1.caches, y2.caches, r.sys.caches, Queued(y, r.sys), added);
    }
  }

  /** What the allocating branch of `send` starts from. */
  ghost predicate Allocates(cfg: Config, y: System, y2: System, hole: Hole, c: nat, addr: int, write: bool, b: int) {
    && Inv(cfg, y.caches, hole) && c < |y.caches| && b == Block(cfg.geo[c], addr) && Awaits(cfg, y.caches, hole, c, b)
    && !Has(cfg, y.caches, c, b) && MakeRoom(cfg, y, hole, c, b).Some?
    && y2 == Install(cfg, MakeRoom(cfg, y, hole, c, b).value, c, addr, write)
    && Inv(cfg, y2.caches, Next(cfg, c, b)) && HasLocked(cfg, y2.caches, c, b)
  }

  lemma SendMissLast(cfg: Config, y: System, y2: System, hole: Hole, c: nat, addr: int, write: bool, b: int)
    requires Allocates(cfg, y, y2, hole, c, addr, write, b) && cfg.lower[c] == -1
    ensures Send(cfg, y, hole, c, addr, write) == Outcome(y2.(waits := y2.waits + [Wait(y.clk + cfg.geo[c].latency, addr, false)]), true)
  {
    NotMissing(cfg, y.caches, hole, c, b);
  }

  lemma SendMissForwards(cfg: Config, y: System, y2: System, hole: Hole, c: nat, addr: int, write: bool, b: int)
    requires Allocates(cfg, y, y2, hole, c, addr, write, b) && cfg.lower[c] != -1
    requires Block(cfg.geo[cfg.lower[c]], addr) == b
    ensures Send(cfg, y, hole, c, addr, write) == Outcome(Send(cfg, y2, Next(cfg, c, b), cfg.lower[c], addr, false).sys, true)
  {
    NotMissing(cfg, y.caches, hole, c, b);
  }

  lemma NotMissing(cfg: Config, s: Caches, hole: Hole, c: nat, b: int)
    requires Inv(cfg, s, hole) && c < |s| && !Has(cfg, s, c, b)
    ensures !Missing(cfg.geo[c], s[c], b)
  {
    assert CacheOk(cfg.geo[c], s[c]) && (Locked(cfg.geo[c], s[c], b) <==> Missing(cfg.geo[c], s[c], b));
  }

  lemma QueuedAppend(y: System, y1: System, r: System, w: Wait)
    requires Extends(y, y1) && r.waits == y1.waits + [w]
    ensures Extends(y, r) && Queued(y, r) == Queued(y, y1) + [w]
  {
  }

  lemma QueuedThrough(y: System, y1: System, y2: System, r: System)
    requires y1.waits == y.waits && y2.waits == y.waits && Extends(y2, r)
    ensures Extends(y, r) && Queued(y, r) == Queued(y2, r) && Queued(y, y1) == []
  {
  }

  // ----- completion -----

  function FindMiss(g: Geometry, ms: seq<int>, b: int): (k: nat)
    requires g.Valid()
  {
    if ms == [] then 0 else if Block(g, ms[0]) == b then 0 else 1 + FindMiss(g, ms[1..], b)
  }

  lemma {:induction false} FindMissFirst(g: Geometry, ms: seq<int>, b: int)
    requires g.Valid()
    ensures FindMiss(g, ms, b) <= |ms|
    ensures FindMiss(g, ms, b) < |ms| ==> Block(g, ms[FindMiss(g, ms, b)]) == b
    ensures FindMiss(g, ms, b) == |ms| ==> forall i :: 0 <= i < |ms| ==> Block(g, ms[i]) != b
  {
    if ms != [] { FindMissFirst(g, ms[1..], b); }
  }

  /** At one cache: the line of an outstanding miss is unlocked and the miss forgotten. */
  function Wake(g: Geometry, c: Cache, b: int): (r: Cache)
    requires g.Valid()
  {
    var k := FindMiss(g, c.mshrs, b);
    if k < |c.mshrs| && Block(g, c.mshrs[k]) == b && Holds(g, c, b) then
      Mark(g, c, c.mshrs[k], false, Peek(g, c, b).value.dirty).(mshrs := c.mshrs[..k] + c.mshrs[k + 1..])
    else c
  }

  /** What waking changes: the block is no longer locked; presence, dirty bits and all other blocks stay. */
  lemma WakeEffect(g: Geometry, c: Cache, b: int)
    requires g.Valid() && CacheOk(g, c)
    ensures var r := Wake(g, c, b);
            && CacheOk(g, r) && !Locked(g, r, b)
            && (forall x :: x != b ==> Peek(g, r, x) == Peek(g, c, x))
            && Holds(g, r, b) == Holds(g, c, b)
            && (Holds(g, c, b) ==> Peek(g, r, b).value.dirty == Peek(g, c, b).value.dirty)
  {
    assert Locked(g, c, b) <==> Missing(g, c, b);
    FindMissFirst(g, c.mshrs, b);
    var k := FindMiss(g, c.mshrs, b);
    if k < |c.mshrs| {
      var m := c.mshrs[k];
      var d := Mark(g, c, m, false, Peek(g, c, b).value.dirty);
      MarkEffect(g, c, m, false, Peek(g, c, b).value.dirty);
      WakeCorrespondence(g, c, d, b, k);
    }
  }

  lemma WakeCorrespondence(g: Geometry, c: Cache, d: Cache, b: int, k: nat)
    requires g.Valid() && CacheOk(g, c) && k < |c.mshrs| && Block(g, c.mshrs[k]) == b && Holds(g, c, b)
    requires Differs(g, c, d, b, Some(Peek(g, c, b).value.(lock := false))) && d.mshrs == c.mshrs
    ensures var r := d.(mshrs := c.mshrs[..k] + c.mshrs[k + 1..]);
            CacheOk(g, r) && forall x :: Peek(g, r, x) == Peek(g, d, x)
  {
    var r := d.(mshrs := c.mshrs[..k] + c.mshrs[k + 1..]);
    forall x ensures Peek(g, r, x) == Peek(g, d, x) {}
    WakeDistinct(g, c.mshrs, k);
    forall x ensures Locked(g, r, x) <==> Missing(g, r, x) {
      assert Locked(g, c, x) <==> Missing(g, c, x);
      WakeMissing(g, c, r, k, x);
    }
  }

  lemma WakeDistinct(g: Geometry, ms: seq<int>, k: nat)
    requires g.Valid() && k < |ms|
    requires forall i, j :: 0 <= i < j < |ms| ==> Block(g, ms[i]) != Block(g, ms[j])
    ensures var r := ms[..k] + ms[k + 1..]; forall i, j :: 0 <= i < j < |r| ==> Block(g, r[i]) != Block(g, r[j])
  {
    var r := ms[..k] + ms[k + 1..];
    forall i, j | 0 <= i < j < |r| ensures Block(g, r[i]) != Block(g, r[j]) {
      assert r[i] == ms[Skip(k, i)] && r[j] == ms[Skip(k, j)] && Skip(k, i) < Skip(k, j);
    }
  }

  lemma WakeMissing(g: Geometry, c: Cache, r: Cache, k: nat, x: int)
    requires g.Valid() && k < |c.mshrs| && r.mshrs == c.mshrs[..k] + c.mshrs[k + 1..]
    requires forall i, j :: 0 <= i < j < |c.mshrs| ==> Block(g, c.mshrs[i]) != Block(g, c.mshrs[j])
    ensures Missing(g, r, x) <==> Missing(g, c, x) && x != Block(g, c.mshrs[k])
  {
    if Missing(g, c, x) && x != Block(g, c.mshrs[k]) {
      var i :| 0 <= i < |c.mshrs| && Block(g, c.mshrs[i]) == x;
      var j := if i < k then i else i - 1;
      assert r.mshrs[j] == c.mshrs[i];
      assert r.mshrs[j] in r.mshrs;
    }
    if Missing(g, r, x) {
      var j :| 0 <= j < |r.mshrs| && Block(g, r.mshrs[j]) == x;
      assert r.mshrs[j] == c.mshrs[Skip(k, j)];
      assert c.mshrs[Skip(k, j)] in c.mshrs;
    }
  }

  /** `callback`: wakes this cache and everything above it. */
  function Callback(cfg: Config, s: Caches, c: nat, b: int): (t: Caches)
    requires Fits(cfg, s) && c < |s|
    ensures |t| == |s| && forall d :: c < d < |s| ==> t[d] == s[d]
    decreases c, |cfg.Higher(c)| + 1
  {
    CallbackHigher(cfg, s[c := Wake(cfg.geo[c], s[c], b)], c, |cfg.Higher(c)|, b)
  }

  function CallbackHigher(cfg: Config, s: Caches, c: nat, n: nat, b: int): (t: Caches)
    requires Fits(cfg, s) && c < |s| && n <= |cfg.Higher(c)|
    ensures |t| == |s| && forall d :: c <= d < |s| ==> t[d] == s[d]
    decreases c, n
  {
    if n == 0 then s
    else Callback(cfg, CallbackHigher(cfg, s, c, n - 1, b), cfg.Higher(c)[n - 1], b)
  }

  ghost predicate Woken(cfg: Config, s: Caches, t: Caches, ds: set<nat>, b: int)
    requires Fits(cfg, s) && Fits(cfg, t)
  {
    forall d: nat :: d < |s| ==> t[d] == if d in ds then Wake(cfg.geo[d], s[d], b) else s[d]
  }

  lemma {:induction false} CallbackEffect(cfg: Config, s: Caches, c: nat, b: int)
    requires Fits(cfg, s) && c < |s|
    ensures Woken(cfg, s, Callback(cfg, s, c, b), cfg.Up(c), b)
    decreases c, |cfg.Higher(c)| + 1
  {
    var n := |cfg.Higher(c)|;
    UpIsBranches(cfg, c);
    CallbackHigherEffect(cfg, s[c := Wake(cfg.geo[c], s[c], b)], c, n, cfg.Branches(c, n), b);
  }

  lemma {:induction false} CallbackHigherEffect(cfg: Config, s: Caches, c: nat, n: nat, ds: set<nat>, b: int)
    requires Fits(cfg, s) && c < |s| && n <= |cfg.Higher(c)| && ds == cfg.Branches(c, n)
    ensures Woken(cfg, s, CallbackHigher(cfg, s, c, n, b), ds, b)
    decreases c, n
  {
    if n != 0 {
      var es := cfg.Branches(c, n - 1);
      NextBranch(cfg, c, n - 1);
      CallbackHigherEffect(cfg, s, c, n - 1, es, b);
      CallbackEffect(cfg, CallbackHigher(cfg, s, c, n - 1, b), cfg.Higher(c)[n - 1], b);
    }
  }

  /** A completion that enters at a last-level cache keeps every invariant, unlocks the block, and keeps all dirty bits. */
  lemma CallbackKeepsInv(cfg: Config, s: Caches, root: nat, b: int)
    requires Inv(cfg, s, NoHole) && root < |s| && cfg.lower[root] == -1
    ensures var t := Callback(cfg, s, root, b);
            && Inv(cfg, t, NoHole)
            && LockedIn(cfg, t, cfg.Up(root), b) == {}
            && forall r: nat :: r < |s| ==> DirtyBlocks(cfg, t, r) == DirtyBlocks(cfg, s, r)
  {
    var t := Callback(cfg, s, root, b);
    CallbackEffect(cfg, s, root, b);
    forall d: nat | d < |s| ensures WokenAt(cfg, s, t, d, root, b) {
      assert CacheOk(cfg.geo[d], s[d]);
      WakeGives(cfg, s, t, d, root, b);
    }
    WokenKeepsInv(cfg, s, t, root, b);
    WokenUnlocks(cfg, s, t, root, b);
    forall r: nat | r < |s| ensures DirtyBlocks(cfg, t, r) == DirtyBlocks(cfg, s, r) {
      WokenDirty(cfg, s, t, root, b, r);
    }
  }

  /** What a completion may do to one cache. */
  ghost predicate WokenAt(cfg: Config, s: Caches, t: Caches, d: nat, root: nat, b: int)
    requires Fits(cfg, s) && Fits(cfg, t) && d < |s| && root < |s|
  {
    && CacheOk(cfg.geo[d], t[d])
    && (forall x :: x != b ==> At(cfg, t, d, x) == At(cfg, s, d, x))
    && Has(cfg, t, d, b) == Has(cfg, s, d, b) && HasDirty(cfg, t, d, b) == HasDirty(cfg, s, d, b)
    && (d in cfg.Up(root) ==> !HasLocked(cfg, t, d, b))
    && (d !in cfg.Up(root) ==> t[d] == s[d])
  }

  lemma WakeGives(cfg: Config, s: Caches, t: Caches, d: nat, root: nat, b: int)
    requires Fits(cfg, s) && Fits(cfg, t) && d < |s| && root < |s| && CacheOk(cfg.geo[d], s[d])
    requires t[d] == if d in cfg.Up(root) then Wake(cfg.geo[d], s[d], b) else s[d]
    ensures WokenAt(cfg, s, t, d, root, b)
  {
    if d in cfg.Up(root) { WakeEffect(cfg.geo[d], s[d], b); }
  }

  lemma WokenCovered(cfg: Config, s: Caches, t: Caches, root: nat, b: int, d: nat, x: int)
    requires Fits(cfg, s) && Fits(cfg, t) && root < |s| && cfg.lower[root] == -1 && d < |s| && cfg.lower[d] != -1
    requires Covered(cfg, s, d, x) && WokenAt(cfg, s, t, d, root, b) && WokenAt(cfg, s, t, cfg.lower[d], root, b)
    ensures Covered(cfg, t, d, x)
  {
    assert d in cfg.Up(root) <==> cfg.lower[d] in cfg.Up(root);
  }

  lemma WokenKeepsInv(cfg: Config, s: Caches, t: Caches, root: nat, b: int)
    requires Inv(cfg, s, NoHole) && Fits(cfg, t) && root < |s| && cfg.lower[root] == -1
    requires forall d: nat :: d < |s| ==> WokenAt(cfg, s, t, d, root, b)
    ensures Inv(cfg, t, NoHole)
  {
    forall d | 0 <= d < |t| ensures CacheOk(cfg.geo[d], t[d]) { assert WokenAt(cfg, s, t, d, root, b); }
    forall d: nat, x | d < |t| && cfg.lower[d] != -1 ensures Covered(cfg, t, d, x) {
      assert Covered(cfg, s, d, x);
      WokenCovered(cfg, s, t, root, b, d, x);
    }
  }

  lemma WokenUnlocks(cfg: Config, s: Caches, t: Caches, root: nat, b: int)
    requires Fits(cfg, s) && Fits(cfg, t) && root < |s|
    requires forall d: nat :: d < |s| ==> WokenAt(cfg, s, t, d, root, b)
    ensures LockedIn(cfg, t, cfg.Up(root), b) == {}
  {
    forall d: nat | d < |s| && d in cfg.Up(root) ensures !HasLocked(cfg, t, d, b) {
      assert WokenAt(cfg, s, t, d, root, b);
    }
  }

  lemma WokenDirty(cfg: Config, s: Caches, t: Caches, root: nat, b: int, r: nat)
    requires Fits(cfg, s) && Fits(cfg, t) && root < |s| && r < |s|
    requires forall d: nat :: d < |s| ==> WokenAt(cfg, s, t, d, root, b)
    ensures DirtyBlocks(cfg, t, r) == DirtyBlocks(cfg, s, r)
  {
    forall x ensures DirtyIn(cfg, t, cfg.Up(r), x) == DirtyIn(cfg, s, cfg.Up(r), x) {
      forall d: nat | d < |s| ensures HasDirty(cfg, t, d, x) == HasDirty(cfg, s, d, x) {
        assert WokenAt(cfg, s, t, d, root, b);
      }
    }
  }

  // ----- whole runs -----

  /** A core's request to a cache, or the memory's completion arriving at a last-level cache. */
  datatype Event = Request(cache: nat, addr: int, write: bool) | Completion(cache: nat, block: int)

  /** The event is well-placed and, if the cache accepts the request, so do the levels below it. */
  ghost predicate Delivered(cfg: Config, y: System, e: Event)
    requires Fits(cfg, y.caches)
  {
    && e.cache < |y.caches|
    && match e
       case Request(c, addr, _) => Accepts(cfg, y.caches, c, Block(cfg.geo[c], addr)) ==> Forwards(cfg, y.caches, c, Block(cfg.geo[c], addr))
       case Completion(c, _) => cfg.lower[c] == -1
  }

  ghost function Step(cfg: Config, y: System, e: Event): (r: System)
    requires Inv(cfg, y.caches, NoHole) && Delivered(cfg, y, e)
    ensures Inv(cfg, r.caches, NoHole)
  {
    match e
    case Request(c, addr, write) =>
      SendInclusive(cfg, y, NoHole, c, addr, write, Block(cfg.geo[c], addr));
      Send(cfg, y, NoHole, c, addr, write).sys
    case Completion(c, b) =>
      CallbackKeepsInv(cfg, y.caches, c, b);
      y.(caches := Callback(cfg, y.caches, c, b))
  }

  /** A run from `y`: every event is delivered in the state it meets. */
  ghost predicate IsRun(cfg: Config, y: System, es: seq<Event>)
    requires Inv(cfg, y.caches, NoHole)
    decreases |es|
  {
    es == [] || (Delivered(cfg, y, es[0]) && IsRun(cfg, Step(cfg, y, es[0]), es[1..]))
  }

  ghost function Run(cfg: Config, y: System, es: seq<Event>): (r: System)
    requires Inv(cfg, y.caches, NoHole) && IsRun(cfg, y, es)
    ensures Inv(cfg, r.caches, NoHole)
    decreases |es|
  {
    if es == [] then y else Run(cfg, Step(cfg, y, es[0]), es[1..])
  }

  /** An empty hierarchy satisfies all invariants. */
  lemma EmptyInv(cfg: Config)
    requires cfg.Valid()
    ensures Inv(cfg, seq(|cfg.lower|, _ => Cache(map[], [])), NoHole)
  {
    var s := seq(|cfg.lower|, _ => Cache(map[], []));
    forall c: nat, x | c < |s| ensures Peek(cfg.geo[c], s[c], x) == None {}
  }

  // ----- write-backs -----

  /** How many of the waiting entries write block `x` to memory. */
  function WritesOf(cfg: Config, ws: seq<Wait>, x: int): (n: nat)
    requires cfg.Valid() && 0 < |cfg.geo|
  {
    if ws == [] then 0 else
    var w := ws[|ws| - 1];
    WritesOf(cfg, ws[..|ws| - 1], x) + if w.write && Block(cfg.geo[0], w.addr) == x then 1 else 0
  }

  lemma {:induction false} WritesOfBound(cfg: Config, ws: seq<Wait>, x: int)
    requires cfg.Valid() && 0 < |cfg.geo|
    ensures WritesOf(cfg, ws, x) <= WriteCount(ws) && (WritesOf(cfg, ws, x) > 0 <==> x in Written(cfg, ws))
    decreases |ws|
  {
    if ws == [] {
    } else {
      var n := |ws| - 1;
      WritesOfBound(cfg, ws[..n], x);
      assert ws == ws[..n] + [ws[n]];
      WrittenOne(cfg, ws[..n], ws[n]);
    }
  }

  lemma {:induction false} WritesOfConcat(cfg: Config, a: seq<Wait>, b: seq<Wait>, x: int)
    requires cfg.Valid() && 0 < |cfg.geo|
    ensures WritesOf(cfg, a + b, x) == WritesOf(cfg, a, x) + WritesOf(cfg, b, x)
    decreases |b|
  {
    if b == [] {
      assert a + b == a;
    } else {
      var n := |b| - 1;
      WritesOfConcat(cfg, a, b[..n], x);
      assert (a + b)[..|a + b| - 1] == a + b[..n];
    }
  }

  /** Under last-level cache `root`, block `x` was dirty before and is dirty nowhere after. */
  ghost predicate Cleaned(cfg: Config, s: Caches, t: Caches, root: nat, x: int)
    requires Fits(cfg, s) && Fits(cfg, t) && root < |s|
  {
    cfg.lower[root] == -1 && x in DirtyBlocks(cfg, s, root) && x !in DirtyBlocks(cfg, t, root)
  }

  /** Under how many of the first `n` caches that happened. */
  ghost function CleanedUnder(cfg: Config, s: Caches, t: Caches, x: int, n: nat): (k: nat)
    requires Fits(cfg, s) && Fits(cfg, t) && n <= |s|
  {
    if n == 0 then 0 else CleanedUnder(cfg, s, t, x, n - 1) + if Cleaned(cfg, s, t, n - 1, x) then 1 else 0
  }

  lemma {:induction false} CleanedOnlyAt(cfg: Config, s: Caches, t: Caches, x: int, n: nat, root: nat)
    requires Fits(cfg, s) && Fits(cfg, t) && n <= |s| && root < |s|
    requires forall c: nat :: c < n && c != root ==> !Cleaned(cfg, s, t, c, x)
    ensures CleanedUnder(cfg, s, t, x, n) == if root < n && Cleaned(cfg, s, t, root, x) then 1 else 0
    decreases n
  {
    if n == 0 {
    } else {
      CleanedOnlyAt(cfg, s, t, x, n - 1, root);
    }
  }

  /**
   One event queues a write-back of block `x` exactly as often as `x` goes from dirty to dirty nowhere under
   a last-level cache: so once per such eviction, and never for a block that is clean or stays dirty.
   */
  lemma StepWritesBack(cfg: Config, y: System, e: Event, x: int)
    requires Inv(cfg, y.caches, NoHole) && Delivered(cfg, y, e)
    ensures var r := Step(cfg, y, e);
            Extends(y, r) && WritesOf(cfg, Queued(y, r), x) == CleanedUnder(cfg, y.caches, r.caches, x, |y.caches|)
  {
    var r := Step(cfg, y, e);
    match e
    case Request(c, addr, write) =>
      var own := RootOf(cfg, c);
      SendConserves(cfg, y, NoHole, c, own, addr, write, Block(cfg.geo[c], addr));
      forall d: nat | d < |y.caches| && d != own ensures !Cleaned(cfg, y.caches, r.caches, d, x) {
        if cfg.lower[d] == -1 {
          OtherRootKeepsDirty(cfg, y, c, own, addr, write, d);
        }
      }
      CleanedOnlyAt(cfg, y.caches, r.caches, x, |y.caches|, own);
      WritesOfBound(cfg, Queued(y, r), x);
    case Completion(c, b) =>
      CallbackKeepsInv(cfg, y.caches, c, b);
      forall d: nat | d < |y.caches| ensures !Cleaned(cfg, y.caches, r.caches, d, x) {
      }
      CleanedOnlyAt(cfg, y.caches, r.caches, x, |y.caches|, c);
      assert Queued(y, r) == [];
  }

  /** How often block `x` is cleaned in that sense over a run. */
  ghost function Cleanings(cfg: Config, y: System, es: seq<Event>, x: int): (n: nat)
    requires Inv(cfg, y.caches, NoHole) && IsRun(cfg, y, es)
    decreases |es|
  {
    if es == [] then 0 else
    var y1 := Step(cfg, y, es[0]);
    CleanedUnder(cfg, y.caches, y1.caches, x, |y.caches|) + Cleanings(cfg, y1, es[1..], x)
  }

  lemma OtherRootKeepsDirty(cfg: Config, y: System, c: nat, own: nat, addr: int, write: bool, root: nat)
    requires Inv(cfg, y.caches, NoHole) && c < |y.caches| && IsRoot(cfg, c, own)
    requires root < |y.caches| && cfg.lower[root] == -1 && own != root
    ensures DirtyBlocks(cfg, Send(cfg, y, NoHole, c, addr, write).sys.caches, root) == DirtyBlocks(cfg, y.caches, root)
  {
    SendElsewhere(cfg, y, NoHole, c, own, addr, write);
    OtherRoot(cfg, own, root);
    SameDirtyBlocks(cfg, y.caches, Send(cfg, y, NoHole, c, addr, write).sys.caches, root);
  }

  function RootOf(cfg: Config, c: nat): (r: nat)
    requires cfg.Valid() && c < |cfg.lower|
    ensures IsRoot(cfg, c, r)
    decreases |cfg.lower| - c
  {
    if cfg.lower[c] == -1 then c else RootOf(cfg, cfg.lower[c])
  }

  /** Two different last-level caches share nothing above them. */
  lemma OtherRoot(cfg: Config, a: nat, b: nat)
    requires cfg.Valid() && a < |cfg.lower| && b < |cfg.lower| && a != b && cfg.lower[a] == -1 && cfg.lower[b] == -1
    ensures cfg.Up(a) !! cfg.Up(b)
  {
    forall d | d in cfg.Up(a) ensures d !in cfg.Up(b) { BranchesDisjoint(cfg, d, a, b); }
  }

  lemma SameDirtyBlocks(cfg: Config, s: Caches, t: Caches, root: nat)
    requires Fits(cfg, s) && Fits(cfg, t) && root < |s| && Agree(s, t, cfg.Up(root))
    ensures DirtyBlocks(cfg, t, root) == DirtyBlocks(cfg, s, root)
  {
    forall x ensures DirtyIn(cfg, t, cfg.Up(root), x) == DirtyIn(cfg, s, cfg.Up(root), x) {}
  }

  /** A request touches only caches that share its last level. */
  lemma {:induction false} SendElsewhere(cfg: Config, y: System, hole: Hole, c: nat, root: nat, addr: int, write: bool)
    requires Inv(cfg, y.caches, hole) && c < |y.caches| && Awaits(cfg, y.caches, hole, c, Block(cfg.geo[c], addr))
    requires IsRoot(cfg, c, root)
    ensures forall d: nat :: d < |y.caches| && d !in cfg.Up(root) ==> Send(cfg, y, hole, c, addr, write).sys.caches[d] == y.caches[d]
    decreases |cfg.lower| - c
  {
    var g, s := cfg.geo[c], y.caches;
    var b := Block(g, addr);
    assert CacheOk(g, s[c]) && (Locked(g, s[c], b) <==> Missing(g, s[c], b));
    UpOfRoot(cfg, c, root);
    assert c in cfg.Up(root);
    if !Has(cfg, s, c, b) && MakeRoom(cfg, y, hole, c, b).Some? {
      RoomElsewhere(cfg, y, hole, c, root, b);
      MakeRoomKeepsInv(cfg, y, hole, c, b);
      InstallKeepsInv(cfg, MakeRoom(cfg, y, hole, c, b).value, hole, c, addr, write);
      var y2 := Install(cfg, MakeRoom(cfg, y, hole, c, b).value, c, addr, write);
      if cfg.lower[c] == -1 {
        SendMissLast(cfg, y, y2, hole, c, addr, write, b);
      } else {
        OneBlockSize(cfg, c, cfg.lower[c], addr);
        SendMissForwards(cfg, y, y2, hole, c, addr, write, b);
        SendElsewhere(cfg, y2, Next(cfg, c, b), cfg.lower[c], root, addr, false);
      }
    }
  }

  lemma RoomElsewhere(cfg: Config, y: System, hole: Hole, c: nat, root: nat, b: int)
    requires Inv(cfg, y.caches, hole) && c < |y.caches| && Awaits(cfg, y.caches, hole, c, b) && !Has(cfg, y.caches, c, b)
    requires MakeRoom(cfg, y, hole, c, b).Some? && IsRoot(cfg, c, root)
    ensures forall d: nat :: d < |y.caches| && d !in cfg.Up(root) ==> MakeRoom(cfg, y, hole, c, b).value.caches[d] == y.caches[d]
  {
    var g, s := cfg.geo[c], y.caches;
    var ls := Lines(s[c], b % g.sets);
    if |ls| >= g.assoc {
      var k := FindVictim(cfg, s, c, ls);
      var v := Block(g, ls[k].addr);
      VictimReady(cfg, s, hole, c, b, k);
      EvictMovesDown(cfg, y, c, ls[k], v);
      UpOfRoot(cfg, c, root);
      forall d: nat | d < |s| && d !in cfg.Up(root) ensures Evict(cfg, y, c, ls[k]).caches[d] == s[d] {
        assert MovedAt(cfg, s, Evict(cfg, y, c, ls[k]).caches, c, v, Below(cfg, s, c, ls[k], v), d);
      }
    }
  }

  lemma QueuedJoin(y: System, y1: System, r: System)
    requires Extends(y, y1) && Extends(y1, r)
    ensures Extends(y, r) && Queued(y, r) == Queued(y, y1) + Queued(y1, r)
  {
  }

  /** Over any run, the write-backs queued for a block are exactly its cleanings. */
  lemma {:induction false} RunWritesBack(cfg: Config, y: System, es: seq<Event>, x: int)
    requires Inv(cfg, y.caches, NoHole) && IsRun(cfg, y, es) && y.caches != []
    ensures var r := Run(cfg, y, es);
            Extends(y, r) && WritesOf(cfg, Queued(y, r), x) == Cleanings(cfg, y, es, x)
    decreases |es|
  {
    if es == [] {
      assert Queued(y, y) == [];
    } else {
      var y1 := Step(cfg, y, es[0]);
      StepWritesBack(cfg, y, es[0], x);
      RunWritesBack(cfg, y1, es[1..], x);
      var r := Run(cfg, y1, es[1..]);
      QueuedJoin(y, y1, r);
      WritesOfConcat(cfg, Queued(y, y1), Queued(y1, r), x);
    }
  }

  lemma {:induction false} CleanedCounts(cfg: Config, s: Caches, t: Caches, x: int, n: nat, root: nat)
    requires Fits(cfg, s) && Fits(cfg, t) && n <= |s| && root < n && Cleaned(cfg, s, t, root, x)
    ensures CleanedUnder(cfg, s, t, x, n) >= 1
    decreases n
  {
    if root == n - 1 {
    } else {
      CleanedCounts(cfg, s, t, x, n - 1, root);
    }
  }

  /** A block that was dirty under a last-level cache is still dirty there at the end of a run, or was cleaned and so written back. */
  lemma {:induction false} RunKeepsDirty(cfg: Config, y: System, es: seq<Event>, root: nat, x: int)
    requires Inv(cfg, y.caches, NoHole) && IsRun(cfg, y, es)
    requires root < |y.caches| && cfg.lower[root] == -1 && x in DirtyBlocks(cfg, y.caches, root)
    ensures var r := Run(cfg, y, es);
            && Extends(y, r) && WritesOf(cfg, Queued(y, r), x) == Cleanings(cfg, y, es, x)
            && (WritesOf(cfg, Queued(y, r), x) == 0 ==> x in DirtyBlocks(cfg, r.caches, root))
    decreases |es|
  {
    RunWritesBack(cfg, y, es, x);
    if es == [] {
    } else {
      var y1 := Step(cfg, y, es[0]);
      if x in DirtyBlocks(cfg, y1.caches, root) {
        RunKeepsDirty(cfg, y1, es[1..], root, x);
      } else {
        CleanedCounts(cfg, y.caches, y1.caches, x, |y.caches|, root);
      }
    }
  }

  /** Every run keeps the hierarchy inclusive and every cache well-formed. */
  lemma RunIsInclusive(cfg: Config, y: System, es: seq<Event>)
    requires Inv(cfg, y.caches, NoHole) && IsRun(cfg, y, es)
    ensures Inclusive(cfg, Run(cfg, y, es).caches)
    ensures forall c :: 0 <= c < |y.caches| ==> |Run(cfg, y, es).caches| == |y.caches| && CacheOk(cfg.geo[c], Run(cfg, y, es).caches[c])
  {
    InvInclusive(cfg, Run(cfg, y, es).caches);
  }

  // ----- the dropped answer does break inclusion -----

  /** Two private caches above one shared cache, all with a single line and a single miss entry. */
  function TwoCores(): (cfg: Config)
    ensures cfg.Valid()
  {
    var g := Geometry(64, 1, 1, 1, 4, 4);
    Config([2, 2, -1], [g, g, g])
  }

  /** The first core's miss is taken in by its own cache. */
  lemma FirstLevel(y: System)
    requires y.caches == [Cache(map[], []), Cache(map[], []), Cache(map[], [])]
    ensures Inv(TwoCores(), y.caches, NoHole)
    ensures var y1 := Install(TwoCores(), y, 0, 0, false);
            && Inv(TwoCores(), y1.caches, Hole(0, 0)) && y1.caches[1..] == y.caches[1..]
            && Send(TwoCores(), y, NoHole, 0, 0, false) == Outcome(Send(TwoCores(), y1, Hole(0, 0), 2, 0, false).sys, true)
  {
    var cfg := TwoCores();
    EmptyInv(cfg);
    assert y.caches == seq(3, _ => Cache(map[], []));
    var y1 := Install(cfg, y, 0, 0, false);
    assert MakeRoom(cfg, y, NoHole, 0, 0) == Some(y);
    InstallKeepsInv(cfg, y, NoHole, 0, 0, false);
    SendMissForwards(cfg, y, y1, NoHole, 0, 0, false, 0);
  }

  /** And by the shared one, which then has its only miss entry in use. */
  lemma FirstMiss(y: System)
    requires y.caches == [Cache(map[], []), Cache(map[], []), Cache(map[], [])]
    ensures Inv(TwoCores(), y.caches, NoHole)
    ensures var r := Send(TwoCores(), y, NoHole, 0, 0, false);
            r.ok && Inv(TwoCores(), r.sys.caches, NoHole)
            && r.sys.caches[1] == Cache(map[], []) && r.sys.caches[2].mshrs == [0] && !Has(TwoCores(), r.sys.caches, 2, 1)
  {
    var cfg := TwoCores();
    FirstLevel(y);
    var y1 := Install(cfg, y, 0, 0, false);
    assert y1.caches[2] == y.caches[1..][1] && y1.caches[1] == y.caches[1..][0];
    assert MakeRoom(cfg, y1, Hole(0, 0), 2, 0) == Some(y1);
    InstallKeepsInv(cfg, y1, Hole(0, 0), 2, 0, false);
    SendMissLast(cfg, y1, Install(cfg, y1, 2, 0, false), Hole(0, 0), 2, 0, false, 0);
  }

  /**
   A concrete run in which the answer of the lower level matters: the second core's miss
   is accepted by its own cache, refused by the shared one, and the answer is dropped.
   The private cache then holds a block that the shared cache does not.
   */
  lemma DroppedAnswerBreaksInclusion(y: System)
    requires y.caches == [Cache(map[], []), Cache(map[], []), Cache(map[], [])]
    ensures Inv(TwoCores(), y.caches, NoHole)
    ensures var y1 := Send(TwoCores(), y, NoHole, 0, 0, false).sys;
            && Inv(TwoCores(), y1.caches, NoHole)
            && Send(TwoCores(), y1, NoHole, 1, 64, false).ok
            && !Inclusive(TwoCores(), Send(TwoCores(), y1, NoHole, 1, 64, false).sys.caches)
  {
    FirstMiss(y);
    var y1 := Send(TwoCores(), y, NoHole, 0, 0, false).sys;
    SendInclusive(TwoCores(), y1, NoHole, 1, 64, false, 1);
  }
}
