/**
 The cache system as the mutable object the simulator runs: the state of all caches,
 the waiting and the hit list, and the methods that update them in place. Each method
 computes what the function of the same name specifies.
 */
module CacheObjects {
  import opened Basics
  import opened CacheSets
  import opened CacheHierarchy
  import opened CacheProtocol
  import opened CacheSend
  import CacheRuns

  class CacheSystem {
    const cfg: Config
    var caches: Caches
    var waitList: seq<Wait>
    var hitList: seq<Wait>
    var clk: int

    ghost function Model(): (y: System)
      reads this
    {
      System(caches, waitList, hitList, clk)
    }

    constructor (cfg: Config)
      requires cfg.Valid()
      ensures this.cfg == cfg && Inv(cfg, caches, NoHole)
      ensures waitList == [] && hitList == [] && clk == 0
    {
      this.cfg := cfg;
      caches := seq(|cfg.lower|, _ => Cache(map[], []));
      waitList, hitList, clk := [], [], 0;
      CacheRuns.EmptyInv(cfg);
    }

    /** The loop over the caches directly above `c`, shared by invalidation and eviction; one answer per cache. */
    method InvalidateHigher(c: nat, b: int) returns (results: seq<(int, bool)>)
      requires Fits(cfg, caches) && c < |caches|
      modifies this`caches
      ensures Swept(caches, results) == Sweep(cfg, old(caches), c, |cfg.Higher(c)|, b)
      decreases c, 0
    {
      results := [];
      var higher := cfg.Higher(c);
      for i := 0 to |higher|
        invariant |caches| == |old(caches)|
        invariant Sweep(cfg, old(caches), c, i, b) == Swept(caches, results)
      {
        var delay, dirty := Invalidate(higher[i], b);
        results := results + [(delay, dirty)];
      }
    }

    method Invalidate(c: nat, b: int) returns (delay: int, dirty: bool)
      requires Fits(cfg, caches) && c < |caches|
      modifies this`caches
      ensures Invalidated(caches, delay, dirty) == CacheHierarchy.Invalidate(cfg, old(caches), c, b)
      decreases c, 1
    {
      var g := cfg.geo[c];
      if Lines(caches[c], b % g.sets) == [] {
        return 0, false;
      }
      if !Has(cfg, caches, c, b) {
        return g.latencyEach, false;
      }
      dirty := At(cfg, caches, c, b).value.dirty;
      caches := caches[c := Drop(g, caches[c], b)];
      var results := InvalidateHigher(c, b);
      delay := SweepDelay(g.latencyEach, results);
      dirty := dirty || AnyDirty(results);
    }

    method EvictLine(l: nat, addr: int, dirty: bool)
      requires Fits(cfg, caches) && l < |caches| && Has(cfg, caches, l, Block(cfg.geo[l], addr))
      modifies this`caches
      ensures caches == CacheProtocol.EvictLine(cfg, old(caches), l, addr, dirty)
    {
      var own := HasDirty(cfg, caches, l, Block(cfg.geo[l], addr));
      caches := caches[l := Touch(cfg.geo[l], caches[l], addr, dirty || own)];
    }

    method Evict(c: nat, victim: Line)
      requires Fits(cfg, caches) && c < |caches| && Has(cfg, caches, c, Block(cfg.geo[c], victim.addr))
      requires cfg.lower[c] != -1 ==> Has(cfg, caches, cfg.lower[c], Block(cfg.geo[cfg.lower[c]], victim.addr))
      modifies this`caches, this`waitList
      ensures Model() == CacheProtocol.Evict(cfg, old(Model()), c, victim)
    {
      var g := cfg.geo[c];
      var b := Block(g, victim.addr);
      var results := InvalidateHigher(c, b);
      var dirty := victim.dirty || AnyDirty(results);
      if cfg.lower[c] != -1 {
        EvictLine(cfg.lower[c], victim.addr, dirty);
      } else if dirty {
        waitList := waitList + [Wait(clk + EvictDelay(g.latencyEach, results) + g.latency, victim.addr, true)];
      }
      caches := caches[c := Drop(g, caches[c], b)];
      assert waitList == CacheProtocol.Evict(cfg, old(Model()), c, victim).waits;
    }

    /** The admission part of `allocate_line`: refuse, or make room by evicting the first line that is free everywhere. */
    method Allocate(ghost hole: Hole, c: nat, b: int) returns (ok: bool)
      requires Inv(cfg, caches, hole) && c < |caches| && Awaits(cfg, caches, hole, c, b) && !Has(cfg, caches, c, b)
      modifies this`caches, this`waitList
      ensures var r := MakeRoom(cfg, old(Model()), hole, c, b);
              ok == r.Some? && Model() == if ok then r.value else old(Model())
    {
      var g := cfg.geo[c];
      var lines := Lines(caches[c], b % g.sets);
      if |caches[c].mshrs| == g.mshrs || AllLocked(g, lines) {
        return false;
      }
      if g.assoc <= |lines| {
        var k := FindVictim(cfg, caches, c, lines);
        if k == |lines| {
          return false;
        }
        VictimReady(cfg, caches, hole, c, b, k);
        Evict(c, lines[k]);
      }
      return true;
    }

    /** `send`; the level that forwards drops the answer of the level below. */
    method Send(ghost hole: Hole, c: nat, addr: int, write: bool) returns (ok: bool)
      requires Inv(cfg, caches, hole) && c < |caches| && Awaits(cfg, caches, hole, c, Block(cfg.geo[c], addr))
      modifies this`caches, this`waitList, this`hitList
      ensures Outcome(Model(), ok) == CacheSend.Send(cfg, old(Model()), hole, c, addr, write)
      decreases |cfg.lower| - c, 1
    {
      var g := cfg.geo[c];
      var b := Block(g, addr);
      assert CacheOk(g, caches[c]) && (Locked(g, caches[c], b) <==> Missing(g, caches[c], b));
      if Has(cfg, caches, c, b) && !HasLocked(cfg, caches, c, b) {
        var dirty := At(cfg, caches, c, b).value.dirty || write;
        caches := caches[c := Touch(g, caches[c], addr, dirty)];
        hitList := hitList + [Wait(clk + g.latency, addr, write)];
        ok := true;
      } else if Missing(g, caches[c], b) {
        var dirty := write || At(cfg, caches, c, b).value.dirty;
        caches := caches[c := Mark(g, caches[c], addr, true, dirty)];
        ok := true;
      } else {
        ghost var y := Model();
        ok := Allocate(hole, c, b);
        if ok {
          Forward(y, hole, c, addr, write);
        }
      }
    }

    /** Takes the new line in and passes the miss on, to the next level or to memory. */
    method Forward(ghost y: System, ghost hole: Hole, c: nat, addr: int, write: bool)
      requires Inv(cfg, y.caches, hole) && c < |y.caches| && Awaits(cfg, y.caches, hole, c, Block(cfg.geo[c], addr))
      requires !Has(cfg, y.caches, c, Block(cfg.geo[c], addr))
      requires MakeRoom(cfg, y, hole, c, Block(cfg.geo[c], addr)) == Some(Model())
      modifies this`caches, this`waitList, this`hitList
      ensures Outcome(Model(), true) == CacheSend.Send(cfg, y, hole, c, addr, write)
      decreases |cfg.lower| - c, 0
    {
      var g := cfg.geo[c];
      ghost var b := Block(g, addr);
      MakeRoomKeepsInv(cfg, y, hole, c, b);
      InstallKeepsInv(cfg, Model(), hole, c, addr, write);
      var t := Append(g, caches[c], Line(addr, Tag(g, addr), true, write));
      caches := caches[c := t.(mshrs := t.mshrs + [addr])];
      if cfg.lower[c] != -1 {
        OneBlockSize(cfg, c, cfg.lower[c], addr);
        CacheRuns.SendMissForwards(cfg, y, Model(), hole, c, addr, write, b);
        var dropped := Send(Next(cfg, c, b), cfg.lower[c], addr, false);
      } else {
        CacheRuns.SendMissLast(cfg, y, Model(), hole, c, addr, write, b);
        waitList := waitList + [Wait(clk + g.latency, addr, false)];
      }
    }

    /** `callback`: this cache first, then each cache above it. */
    method Callback(c: nat, b: int)
      requires Fits(cfg, caches) && c < |caches|
      modifies this`caches
      ensures caches == CacheRuns.Callback(cfg, old(caches), c, b)
      decreases c
    {
      caches := caches[c := CacheRuns.Wake(cfg.geo[c], caches[c], b)];
      var higher := cfg.Higher(c);
      ghost var s := caches;
      for i := 0 to |higher|
        invariant |caches| == |s| && caches == CacheRuns.CallbackHigher(cfg, s, c, i, b)
      {
        Callback(higher[i], b);
      }
    }
  }
}
