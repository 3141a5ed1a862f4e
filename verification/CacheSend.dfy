/**
 Requests and completions on the hierarchy: exactly when a request keeps it
 inclusive, and where every dirty bit goes.
 */
module CacheSend {
  import opened Basics
  import opened CacheSets
  import opened CacheHierarchy
  import opened CacheProtocol

  // ----- who accepts a request -----

  /** What `send` returns, told from the state before: present, or a free miss entry and room or a free line. */
  ghost predicate Accepts(cfg: Config, s: Caches, c: nat, b: int)
    requires Fits(cfg, s) && c < |s|
  {
    || Has(cfg, s, c, b)
    || (|s[c].mshrs| < cfg.geo[c].mshrs
        && (|Lines(s[c], b % cfg.geo[c].sets)| < cfg.geo[c].assoc || Replaceable(cfg, s, c, b)))
  }

  ghost predicate Replaceable(cfg: Config, s: Caches, c: nat, b: int)
    requires Fits(cfg, s) && c < |s|
  {
    exists x :: x % cfg.geo[c].sets == b % cfg.geo[c].sets && Free(cfg, s, c, x)
  }

  /** Every level that a miss of `c` travels through accepts it; a caller can tell before the request. */
  ghost predicate Forwards(cfg: Config, s: Caches, c: nat, b: int)
    requires Fits(cfg, s) && c < |s|
    decreases |s| - c
  {
    Has(cfg, s, c, b) || cfg.lower[c] == -1
    || (Accepts(cfg, s, cfg.lower[c], b) && Forwards(cfg, s, cfg.lower[c], b))
  }

  lemma EvictableIsFree(cfg: Config, s: Caches, hole: Hole, c: nat, i: int, k: nat)
    requires Inv(cfg, s, hole) && c < |s| && k < |Lines(s[c], i)|
    requires hole == NoHole || hole.block != Block(cfg.geo[c], Lines(s[c], i)[k].addr)
    ensures var l := Lines(s[c], i)[k];
            Evictable(cfg, s, c, l) <==> Free(cfg, s, c, Block(cfg.geo[c], l.addr))
  {
    var v := Block(cfg.geo[c], Lines(s[c], i)[k].addr);
    InvSetsFine(cfg, s, hole);
    PeekLine(cfg.geo[c], s[c], i, k);
    InvNoOrphans(cfg, s, hole, cfg.Up(c), v);
    CheckUnlockMeans(cfg, s, c, v);
  }

  /** A victim is found in the set exactly when some block of the set is free. */
  lemma VictimExists(cfg: Config, s: Caches, hole: Hole, c: nat, b: int)
    requires Inv(cfg, s, hole) && c < |s| && Awaits(cfg, s, hole, c, b) && !Has(cfg, s, c, b)
    ensures var ls := Lines(s[c], b % cfg.geo[c].sets);
            FindVictim(cfg, s, c, ls) < |ls| <==> Replaceable(cfg, s, c, b)
  {
    var g := cfg.geo[c];
    var ls := Lines(s[c], b % g.sets);
    var k := FindVictim(cfg, s, c, ls);
    InvSetsFine(cfg, s, hole);
    if k < |ls| {
      PeekLine(g, s[c], b % g.sets, k);
      EvictableIsFree(cfg, s, hole, c, b % g.sets, k);
    }
    if x :| x % g.sets == b % g.sets && Free(cfg, s, c, x) {
      PeekBlock(g, s[c], x);
      FindFirst(ls, x / g.sets);
      EvictableIsFree(cfg, s, hole, c, b % g.sets, Find(ls, x / g.sets));
    }
  }

  /** `MakeRoom` succeeds exactly when the request is acceptable. */
  lemma MakeRoomAccepts(cfg: Config, y: System, hole: Hole, c: nat, b: int)
    requires Inv(cfg, y.caches, hole) && c < |y.caches| && Awaits(cfg, y.caches, hole, c, b) && !Has(cfg, y.caches, c, b)
    ensures MakeRoom(cfg, y, hole, c, b).Some? <==> Accepts(cfg, y.caches, c, b)
  {
    assert CacheOk(cfg.geo[c], y.caches[c]);
    VictimExists(cfg, y.caches, hole, c, b);
  }

  // ----- the request -----

  /** `send`: hit, merge with an outstanding miss, or allocate and forward; the answer of the lower level is dropped. */
  function Send(cfg: Config, y: System, ghost hole: Hole, c: nat, addr: int, write: bool): (r: Outcome)
    requires Inv(cfg, y.caches, hole) && c < |y.caches| && Awaits(cfg, y.caches, hole, c, Block(cfg.geo[c], addr))
    ensures |r.sys.caches| == |y.caches|
    decreases |cfg.lower| - c
  {
    var g, s := cfg.geo[c], y.caches;
    var b := Block(g, addr);
    if Has(cfg, s, c, b) && !HasLocked(cfg, s, c, b) then
      Outcome(y.(caches := s[c := Touch(g, s[c], addr, At(cfg, s, c, b).value.dirty || write)],
                 hits := y.hits + [Wait(y.clk + g.latency, addr, write)]), true)
    else
      assert CacheOk(g, s[c]) && (Locked(g, s[c], b) <==> Missing(g, s[c], b));
      if Missing(g, s[c], b) then
        Outcome(y.(caches := s[c := Mark(g, s[c], addr, true, write || At(cfg, s, c, b).value.dirty)]), true)
      else
        match MakeRoom(cfg, y, hole, c, b)
        case None => Outcome(y, false)
        case Some(y1) =>
          MakeRoomKeepsInv(cfg, y, hole, c, b);
          InstallKeepsInv(cfg, y1, hole, c, addr, write);
          var y2 := Install(cfg, y1, c, addr, write);
          if cfg.lower[c] == -1 then
            Outcome(y2.(waits := y2.waits + [Wait(y.clk + g.latency, addr, false)]), true)
          else
            OneBlockSize(cfg, c, cfg.lower[c], addr);
            Outcome(Send(cfg, y2, Next(cfg, c, b), cfg.lower[c], addr, false).sys, true)
  }

  /** Past the hit test and the miss entries, the tag is in no line of the set: `need_eviction` never asserts. */
  lemma NeedEvictionNeverAsserts(cfg: Config, s: Caches, hole: Hole, c: nat, b: int)
    requires Inv(cfg, s, hole) && c < |s|
    requires !(Has(cfg, s, c, b) && !HasLocked(cfg, s, c, b)) && !Missing(cfg.geo[c], s[c], b)
    ensures forall k :: 0 <= k < |Lines(s[c], b % cfg.geo[c].sets)| ==>
              Lines(s[c], b % cfg.geo[c].sets)[k].tag != b / cfg.geo[c].sets
  {
    assert CacheOk(cfg.geo[c], s[c]) && (Locked(cfg.geo[c], s[c], b) <==> Missing(cfg.geo[c], s[c], b));
    FindFirst(Lines(s[c], b % cfg.geo[c].sets), b / cfg.geo[c].sets);
  }

  // ----- making room at `c` does not change what the levels below would answer -----

  lemma MovedLocks(cfg: Config, s: Caches, t: Caches, hole: Hole, c: nat, v: int, below: Line, e: nat, x: int)
    requires Inv(cfg, s, hole) && Fits(cfg, t) && c < |s| && e < |s| && e !in cfg.Up(c)
    requires Free(cfg, s, c, v) && hole != Hole(c, v) && !below.lock && Moved(cfg, s, t, c, v, below)
    ensures Has(cfg, t, e, x) == Has(cfg, s, e, x)
    ensures LockedIn(cfg, t, cfg.Up(e), x) == LockedIn(cfg, s, cfg.Up(e), x)
  {
    FreeBelow(cfg, s, hole, c, v);
    assert MovedAt(cfg, s, t, c, v, below, e);
    forall d: nat | d < |s| ensures HasLocked(cfg, t, d, x) == HasLocked(cfg, s, d, x) {
      assert MovedAt(cfg, s, t, c, v, below, d);
      if d in cfg.Up(c) { assert d !in LockedIn(cfg, s, cfg.Up(c), v); }
    }
  }

  lemma MovedAccepts(cfg: Config, s: Caches, t: Caches, hole: Hole, c: nat, v: int, below: Line, e: nat, b: int)
    requires Inv(cfg, s, hole) && Fits(cfg, t) && c < |s| && e < |s| && e !in cfg.Up(c)
    requires Free(cfg, s, c, v) && hole != Hole(c, v) && !below.lock && Moved(cfg, s, t, c, v, below)
    ensures Has(cfg, t, e, b) == Has(cfg, s, e, b) && Accepts(cfg, t, e, b) == Accepts(cfg, s, e, b)
  {
    assert MovedAt(cfg, s, t, c, v, below, e);
    forall x ensures Has(cfg, t, e, x) == Has(cfg, s, e, x) && Free(cfg, t, e, x) == Free(cfg, s, e, x) {
      MovedLocks(cfg, s, t, hole, c, v, below, e, x);
    }
    SameReplaceable(cfg, s, t, e, b);
  }

  lemma SameReplaceable(cfg: Config, s: Caches, t: Caches, e: nat, b: int)
    requires Fits(cfg, s) && Fits(cfg, t) && e < |s|
    requires forall x :: x != b ==> Free(cfg, t, e, x) == Free(cfg, s, e, x)
    requires Free(cfg, t, e, b) == Free(cfg, s, e, b)
    ensures Replaceable(cfg, t, e, b) == Replaceable(cfg, s, e, b)
  {
    if x :| x % cfg.geo[e].sets == b % cfg.geo[e].sets && Free(cfg, s, e, x) { assert Free(cfg, t, e, x); }
    if x :| x % cfg.geo[e].sets == b % cfg.geo[e].sets && Free(cfg, t, e, x) { assert Free(cfg, s, e, x); }
  }

  lemma PlacedAccepts(cfg: Config, s: Caches, t: Caches, c: nat, l: Line, e: nat, b: int)
    requires Fits(cfg, s) && Fits(cfg, t) && c < |s| && e < |s| && e != c && Placed(cfg, s, t, c, b, l)
    ensures Has(cfg, t, e, b) == Has(cfg, s, e, b) && Accepts(cfg, t, e, b) == Accepts(cfg, s, e, b)
  {
    assert t[e] == s[e];
    if !Has(cfg, s, e, b) {
      forall x | x != b ensures Free(cfg, t, e, x) == Free(cfg, s, e, x) {
        forall d: nat | d < |s| ensures HasLocked(cfg, t, d, x) == HasLocked(cfg, s, d, x) {}
        assert LockedIn(cfg, t, cfg.Up(e), x) == LockedIn(cfg, s, cfg.Up(e), x);
      }
      SameReplaceable(cfg, s, t, e, b);
    }
  }

  lemma {:induction false} ForwardsSame(cfg: Config, s: Caches, t: Caches, c: nat, e: nat, b: int)
    requires Fits(cfg, s) && Fits(cfg, t) && c < e < |s|
    requires forall e: nat :: c < e < |s| ==> Has(cfg, t, e, b) == Has(cfg, s, e, b) && Accepts(cfg, t, e, b) == Accepts(cfg, s, e, b)
    ensures Forwards(cfg, t, e, b) == Forwards(cfg, s, e, b)
    decreases |s| - e
  {
    if cfg.lower[e] != -1 { ForwardsSame(cfg, s, t, c, cfg.lower[e], b); }
  }

  /** After room was made at `c` and the line installed, every lower level answers as it would have before. */
  lemma InstalledForwards(cfg: Config, y: System, hole: Hole, c: nat, addr: int, write: bool, b: int)
    requires Inv(cfg, y.caches, hole) && c < |y.caches| && b == Block(cfg.geo[c], addr)
    requires Awaits(cfg, y.caches, hole, c, b) && !Has(cfg, y.caches, c, b) && MakeRoom(cfg, y, hole, c, b).Some?
    requires cfg.lower[c] != -1
    ensures var t := Install(cfg, MakeRoom(cfg, y, hole, c, b).value, c, addr, write).caches;
            && Accepts(cfg, t, cfg.lower[c], b) == Accepts(cfg, y.caches, cfg.lower[c], b)
            && Forwards(cfg, t, cfg.lower[c], b) == Forwards(cfg, y.caches, cfg.lower[c], b)
  {
    var g, s := cfg.geo[c], y.caches;
    var y1 := MakeRoom(cfg, y, hole, c, b).value;
    var t := Install(cfg, y1, c, addr, write).caches;
    MakeRoomKeepsInv(cfg, y, hole, c, b);
    InstallKeepsInv(cfg, y1, hole, c, addr, write);
    forall e: nat | c < e < |s|
      ensures Has(cfg, t, e, b) == Has(cfg, s, e, b) && Accepts(cfg, t, e, b) == Accepts(cfg, s, e, b)
    {
      RoomAccepts(cfg, y, hole, c, b, e);
      PlacedAccepts(cfg, y1.caches, t, c, Line(addr, Tag(g, addr), true, write), e, b);
    }
    ForwardsSame(cfg, s, t, c, cfg.lower[c], b);
  }

  lemma RoomAccepts(cfg: Config, y: System, hole: Hole, c: nat, b: int, e: nat)
    requires Inv(cfg, y.caches, hole) && c < |y.caches|
    requires Awaits(cfg, y.caches, hole, c, b) && !Has(cfg, y.caches, c, b) && MakeRoom(cfg, y, hole, c, b).Some?
    requires c < e < |y.caches|
    ensures var t := MakeRoom(cfg, y, hole, c, b).value.caches;
            && Fits(cfg, t)
            && Has(cfg, t, e, b) == Has(cfg, y.caches, e, b) && Accepts(cfg, t, e, b) == Accepts(cfg, y.caches, e, b)
  {
    var g, s := cfg.geo[c], y.caches;
    var ls := Lines(s[c], b % g.sets);
    if |ls| >= g.assoc {
      var k := FindVictim(cfg, s, c, ls);
      var v := Block(g, ls[k].addr);
      VictimReady(cfg, s, hole, c, b, k);
      EvictKeepsInv(cfg, y, hole, c, ls[k], v);
      assert e !in cfg.Up(c);
      MovedAccepts(cfg, s, Evict(cfg, y, c, ls[k]).caches, hole, c, v, Below(cfg, s, c, ls[k], v), e, b);
    }
  }

  // ----- exactly when a request keeps the hierarchy inclusive -----

  lemma InvInclusive(cfg: Config, s: Caches)
    requires Inv(cfg, s, NoHole)
    ensures Inclusive(cfg, s)
  {
    forall d: nat, x | d < |s| && cfg.lower[d] != -1 && Has(cfg, s, d, x) ensures Has(cfg, s, cfg.lower[d], x) {
      assert Covered(cfg, s, d, x);
    }
  }

  lemma HitKeepsInv(cfg: Config, s: Caches, hole: Hole, c: nat, addr: int, dirty: bool)
    requires Inv(cfg, s, hole) && c < |s| && Awaits(cfg, s, hole, c, Block(cfg.geo[c], addr))
    requires Has(cfg, s, c, Block(cfg.geo[c], addr)) && !HasLocked(cfg, s, c, Block(cfg.geo[c], addr))
    ensures var t := s[c := Touch(cfg.geo[c], s[c], addr, dirty)];
            && Inv(cfg, t, NoHole)
            && Placed(cfg, s, t, c, Block(cfg.geo[c], addr), Line(addr, Tag(cfg.geo[c], addr), false, dirty))
  {
    var g := cfg.geo[c];
    var t := s[c := Touch(g, s[c], addr, dirty)];
    assert CacheOk(g, s[c]);
    TouchEffect(g, s[c], addr, dirty);
    forall x ensures Locked(g, t[c], x) <==> Locked(g, s[c], x) {}
    SameLocks(g, s[c], t[c]);
    PlacedKeepsInv(cfg, s, t, hole, NoHole, c, Block(g, addr), Line(addr, Tag(g, addr), false, dirty));
  }

  lemma MergeKeepsInv(cfg: Config, s: Caches, hole: Hole, c: nat, addr: int, dirty: bool)
    requires Inv(cfg, s, hole) && c < |s| && Awaits(cfg, s, hole, c, Block(cfg.geo[c], addr))
    requires HasLocked(cfg, s, c, Block(cfg.geo[c], addr))
    ensures var t := s[c := Mark(cfg.geo[c], s[c], addr, true, dirty)];
            && Inv(cfg, t, NoHole)
            && Placed(cfg, s, t, c, Block(cfg.geo[c], addr), At(cfg, s, c, Block(cfg.geo[c], addr)).value.(dirty := dirty))
  {
    var g := cfg.geo[c];
    var t := s[c := Mark(g, s[c], addr, true, dirty)];
    assert CacheOk(g, s[c]);
    MarkEffect(g, s[c], addr, true, dirty);
    forall x ensures Locked(g, t[c], x) <==> Locked(g, s[c], x) {}
    SameLocks(g, s[c], t[c]);
    PlacedKeepsInv(cfg, s, t, hole, NoHole, c, Block(g, addr), At(cfg, s, c, Block(g, addr)).value.(dirty := dirty));
  }

  /**
   The answer of `send` is `Accepts`; a refused request changes nothing; an accepted one
   leaves the hierarchy inclusive - with all other invariants - if and only if every
   level below accepts the forwarded miss.
   */
  lemma {:induction false} SendInclusive(cfg: Config, y: System, hole: Hole, c: nat, addr: int, write: bool, b: int)
    requires Inv(cfg, y.caches, hole) && c < |y.caches| && b == Block(cfg.geo[c], addr) && Awaits(cfg, y.caches, hole, c, b)
    ensures var r := Send(cfg, y, hole, c, addr, write);
            && (r.ok <==> Accepts(cfg, y.caches, c, b))
            && (!r.ok ==> r.sys == y)
            && (r.ok && Forwards(cfg, y.caches, c, b) ==> Inv(cfg, r.sys.caches, NoHole))
            && (r.ok && !Forwards(cfg, y.caches, c, b) ==> !Inclusive(cfg, r.sys.caches))
    decreases |cfg.lower| - c
  {
    var g, s := cfg.geo[c], y.caches;
    assert CacheOk(g, s[c]) && (Locked(g, s[c], b) <==> Missing(g, s[c], b));
    if Has(cfg, s, c, b) && !HasLocked(cfg, s, c, b) {
      HitKeepsInv(cfg, s, hole, c, addr, At(cfg, s, c, b).value.dirty || write);
    } else if Missing(g, s[c], b) {
      MergeKeepsInv(cfg, s, hole, c, addr, write || At(cfg, s, c, b).value.dirty);
    } else {
      MakeRoomAccepts(cfg, y, hole, c, b);
      if MakeRoom(cfg, y, hole, c, b).Some? {
        MissInclusive(cfg, y, hole, c, addr, write, b);
      }
    }
  }

  lemma {:induction false} MissInclusive(cfg: Config, y: System, hole: Hole, c: nat, addr: int, write: bool, b: int)
    requires Inv(cfg, y.caches, hole) && c < |y.caches| && b == Block(cfg.geo[c], addr) && Awaits(cfg, y.caches, hole, c, b)
    requires !Has(cfg, y.caches, c, b) && !Missing(cfg.geo[c], y.caches[c], b) && MakeRoom(cfg, y, hole, c, b).Some?
    ensures var r := Send(cfg, y, hole, c, addr, write);
            if Forwards(cfg, y.caches, c, b) then Inv(cfg, r.sys.caches, NoHole) else !Inclusive(cfg, r.sys.caches)
    decreases |cfg.lower| - c, 0
  {
    var y1 := MakeRoom(cfg, y, hole, c, b).value;
    MakeRoomKeepsInv(cfg, y, hole, c, b);
    InstallKeepsInv(cfg, y1, hole, c, addr, write);
    if cfg.lower[c] != -1 {
      var l: nat := cfg.lower[c];
      var y2 := Install(cfg, y1, c, addr, write);
      OneBlockSize(cfg, c, l, addr);
      InstalledForwards(cfg, y, hole, c, addr, write, b);
      SendInclusive(cfg, y2, Next(cfg, c, b), l, addr, false, b);
      assert Has(cfg, y2.caches, c, b);
    }
  }

  // ----- where the dirty bits go -----

  /** The blocks that are dirty somewhere at or above the last-level cache `root`. */
  ghost function DirtyBlocks(cfg: Config, s: Caches, root: nat): (xs: iset<int>)
    requires Fits(cfg, s) && root < |s|
  {
    iset x: int | DirtyIn(cfg, s, cfg.Up(root), x) != {}
  }

  /** The blocks that the waiting list is about to write to memory. */
  ghost function Written(cfg: Config, ws: seq<Wait>): (xs: iset<int>)
    requires cfg.Valid() && 0 < |cfg.geo|
  {
    iset i | 0 <= i < |ws| && ws[i].write :: Block(cfg.geo[0], ws[i].addr)
  }

  function WriteCount(ws: seq<Wait>): nat {
    if ws == [] then 0 else WriteCount(ws[..|ws| - 1]) + if ws[|ws| - 1].write then 1 else 0
  }

  predicate IsRoot(cfg: Config, c: nat, root: nat)
    requires cfg.Valid() && c < |cfg.lower|
  {
    root < |cfg.lower| && cfg.lower[root] == -1 && cfg.Above(c, root)
  }

  /**
   From `s` to `t` with the new waiting entries `ws`: what was dirty, or became dirty
   by this request, is either still dirty or written back, not both, and at most one
   block is written back.
   */
  ghost predicate Conserved(cfg: Config, root: nat, s: Caches, t: Caches, ws: seq<Wait>, added: iset<int>)
    requires Fits(cfg, s) && Fits(cfg, t) && root < |s|
  {
    && DirtyBlocks(cfg, t, root) + Written(cfg, ws) == DirtyBlocks(cfg, s, root) + added
    && DirtyBlocks(cfg, t, root) !! Written(cfg, ws)
    && WriteCount(ws) <= 1
  }

  lemma UpOfRoot(cfg: Config, c: nat, root: nat)
    requires cfg.Valid() && c < |cfg.lower| && IsRoot(cfg, c, root)
    ensures cfg.Up(c) <= cfg.Up(root)
    ensures c != root ==> 0 <= cfg.lower[c] < |cfg.lower| && cfg.lower[c] in cfg.Up(root) && IsRoot(cfg, cfg.lower[c], root)
    ensures c == root <==> cfg.lower[c] == -1
  {
    forall d | d in cfg.Up(c) ensures d in cfg.Up(root) { AboveTransitive(cfg, d, c, root); }
  }

  lemma MovedDirtyOther(cfg: Config, s: Caches, t: Caches, c: nat, v: int, below: Line, ds: set<nat>, x: int)
    requires Fits(cfg, s) && Fits(cfg, t) && c < |s| && Moved(cfg, s, t, c, v, below) && x != v
    ensures DirtyIn(cfg, t, ds, x) == DirtyIn(cfg, s, ds, x)
  {
    forall d: nat | d < |s| ensures At(cfg, t, d, x) == At(cfg, s, d, x) {
      assert MovedAt(cfg, s, t, c, v, below, d);
    }
  }

  /** Moving a block down keeps it dirty if it was; moving it out of the last level leaves it dirty nowhere. */
  lemma MovedDirtyVictim(cfg: Config, s: Caches, t: Caches, c: nat, root: nat, v: int, below: Line)
    requires Fits(cfg, s) && Fits(cfg, t) && c < |s| && IsRoot(cfg, c, root) && Moved(cfg, s, t, c, v, below)
    requires c != root ==> below.dirty == (DirtyIn(cfg, s, cfg.Up(c), v) != {} || HasDirty(cfg, s, cfg.lower[c], v))
    ensures DirtyIn(cfg, t, cfg.Up(root), v) != {} <==> c != root && DirtyIn(cfg, s, cfg.Up(root), v) != {}
  {
    UpOfRoot(cfg, c, root);
    var before, after := DirtyIn(cfg, s, cfg.Up(root), v), DirtyIn(cfg, t, cfg.Up(root), v);
    forall d | d in after ensures d !in cfg.Up(c) && (d != cfg.lower[c] ==> d in before) {
      assert MovedAt(cfg, s, t, c, v, below, d);
    }
    if c != root {
      var l: nat := cfg.lower[c];
      assert MovedAt(cfg, s, t, c, v, below, l) && !cfg.Above(l, c);
      assert l in after <==> below.dirty;
      assert l in before <==> HasDirty(cfg, s, l, v);
      assert DirtyIn(cfg, s, cfg.Up(c), v) <= before;
      forall d | d in before && d !in cfg.Up(c) && d != l ensures d in after {
        assert MovedAt(cfg, s, t, c, v, below, d);
      }
      forall d | d in before && d in cfg.Up(c) ensures d in DirtyIn(cfg, s, cfg.Up(c), v) {}
    }
  }

  lemma PlacedDirty(cfg: Config, s: Caches, t: Caches, c: nat, root: nat, b: int, l: Line, write: bool)
    requires Fits(cfg, s) && Fits(cfg, t) && c < |s| && IsRoot(cfg, c, root) && Placed(cfg, s, t, c, b, l)
    requires l.dirty == (HasDirty(cfg, s, c, b) || write)
    ensures DirtyBlocks(cfg, t, root) == DirtyBlocks(cfg, s, root) + if write then iset{b} else iset{}
  {
    assert c in cfg.Up(root);
    forall x ensures x in DirtyBlocks(cfg, t, root) <==> x in DirtyBlocks(cfg, s, root) || (write && x == b) {
      var before, after := DirtyIn(cfg, s, cfg.Up(root), x), DirtyIn(cfg, t, cfg.Up(root), x);
      if x != b {
        assert after == before;
      } else {
        assert after == (before - {c}) + (if l.dirty then {c} else {});
        assert c in before <==> HasDirty(cfg, s, c, b);
      }
    }
  }

  lemma WrittenOne(cfg: Config, ws: seq<Wait>, w: Wait)
    requires cfg.Valid() && 0 < |cfg.geo|
    ensures Written(cfg, ws + [w]) == Written(cfg, ws) + if w.write then iset{Block(cfg.geo[0], w.addr)} else iset{}
    ensures WriteCount(ws + [w]) == WriteCount(ws) + if w.write then 1 else 0
  {
    assert (ws + [w])[..|ws|] == ws;
    var all := ws + [w];
    forall i | 0 <= i < |ws| ensures all[i] == ws[i] {}
    forall x ensures x in Written(cfg, all) <==> x in Written(cfg, ws) || (w.write && x == Block(cfg.geo[0], w.addr)) {
      if x in Written(cfg, ws) { var i :| 0 <= i < |ws| && ws[i].write && Block(cfg.geo[0], ws[i].addr) == x; assert all[i].write; }
      if w.write { assert all[|ws|].write; }
    }
  }

  /** Making room conserves the dirty blocks; only the last level writes anything back. */
  lemma EvictConserves(cfg: Config, y: System, c: nat, root: nat, l: Line, v: int)
    requires EvictReady(cfg, y.caches, c, l, v) && IsRoot(cfg, c, root)
    requires Moved(cfg, y.caches, Evict(cfg, y, c, l).caches, c, v, Below(cfg, y.caches, c, l, v))
    ensures var r := Evict(cfg, y, c, l);
            && |y.waits| <= |r.waits| && r.waits[..|y.waits|] == y.waits
            && Conserved(cfg, root, y.caches, r.caches, r.waits[|y.waits|..], iset{})
            && (c != root ==> r.waits == y.waits)
            && DirtyBlocks(cfg, r.caches, root) <= DirtyBlocks(cfg, y.caches, root)
            && Written(cfg, r.waits[|y.waits|..]) <= iset{v}
  {
    var s, r, below := y.caches, Evict(cfg, y, c, l), Below(cfg, y.caches, c, l, v);
    EvictWritesBack(cfg, y, c, l, v);
    UpOfRoot(cfg, c, root);
    MovedDirtyVictim(cfg, s, r.caches, c, root, v, below);
    forall x | x != v ensures x in DirtyBlocks(cfg, r.caches, root) <==> x in DirtyBlocks(cfg, s, root) {
      MovedDirtyOther(cfg, s, r.caches, c, v, below, cfg.Up(root), x);
    }
    var ws := r.waits[|y.waits|..];
    assert Written(cfg, []) == iset{} && WriteCount([]) == 0;
    if c == root && v in DirtyBlocks(cfg, s, root) {
      assert ws == [r.waits[|y.waits|]] && ws == [] + ws;
      WrittenOne(cfg, [], ws[0]);
      OneBlockSize(cfg, 0, c, l.addr);
    } else {
      assert ws == [];
    }
  }
}
