/**
 Recency: with a log of every use of a block in a cache - a hit, an arrival from above by
 eviction, an allocation - the lines of every set stand in the order of their last uses.
 */
module CacheRecency {
  import opened Basics
  import opened CacheSets
  import opened CacheHierarchy
  import opened CacheProtocol
  import opened CacheSend
  import opened CacheRuns

  datatype Use = Use(cache: nat, block: int)

  /** When a cache used a block last, as a place in the log; -1 if it never did. */
  function LastUse(log: seq<Use>, u: Use): (t: int)
    ensures -1 <= t < |log|
  {
    if log == [] then -1 else if log[|log| - 1] == u then |log| - 1 else LastUse(log[..|log| - 1], u)
  }

  lemma LastUsePush(log: seq<Use>, u: Use, v: Use)
    ensures LastUse(log + [u], v) == if u == v then |log| else LastUse(log, v)
  {
    assert (log + [u])[..|log|] == log;
  }

  // ----- one set -----

  /** When the block of a line was used last. */
  function Stamp(g: Geometry, log: seq<Use>, c: nat, l: Line): (t: int)
    requires g.Valid()
  {
    LastUse(log, Use(c, Block(g, l.addr)))
  }

  ghost predicate ByUse(g: Geometry, log: seq<Use>, c: nat, ls: seq<Line>)
    requires g.Valid()
  {
    forall j, k :: 0 <= j < k < |ls| ==> Stamp(g, log, c, ls[j]) < Stamp(g, log, c, ls[k])
  }

  lemma EraseByUse(g: Geometry, log: seq<Use>, c: nat, ls: seq<Line>, i: nat)
    requires g.Valid() && i < |ls| && ByUse(g, log, c, ls)
    ensures ByUse(g, log, c, Erase(ls, i))
  {
    forall j, k | 0 <= j < k < |Erase(ls, i)| ensures Stamp(g, log, c, Erase(ls, i)[j]) < Stamp(g, log, c, Erase(ls, i)[k]) {
      assert Skip(i, j) < Skip(i, k);
    }
  }

  /** A use of a block that is not in the set. */
  lemma OtherByUse(g: Geometry, log: seq<Use>, c: nat, ls: seq<Line>, u: Use)
    requires g.Valid() && ByUse(g, log, c, ls) && (u.cache != c || forall k :: 0 <= k < |ls| ==> Block(g, ls[k].addr) != u.block)
    ensures ByUse(g, log + [u], c, ls)
  {
    forall k | 0 <= k < |ls| ensures Stamp(g, log + [u], c, ls[k]) == Stamp(g, log, c, ls[k]) {
      LastUsePush(log, u, Use(c, Block(g, ls[k].addr)));
    }
  }

  /** The block used last goes to the end. */
  lemma AppendByUse(g: Geometry, log: seq<Use>, c: nat, ls: seq<Line>, l: Line)
    requires g.Valid() && ByUse(g, log, c, ls) && forall k :: 0 <= k < |ls| ==> Block(g, ls[k].addr) != Block(g, l.addr)
    ensures ByUse(g, log + [Use(c, Block(g, l.addr))], c, ls + [l])
  {
    var u := Use(c, Block(g, l.addr));
    OtherByUse(g, log, c, ls, u);
    LastUsePush(log, u, u);
    forall k | 0 <= k < |ls| ensures Stamp(g, log + [u], c, ls[k]) < |log| {
      LastUsePush(log, u, Use(c, Block(g, ls[k].addr)));
    }
  }

  // ----- one cache -----

  ghost predicate CacheByUse(g: Geometry, log: seq<Use>, id: nat, c: Cache)
    requires g.Valid()
  {
    forall i :: ByUse(g, log, id, Lines(c, i))
  }

  lemma SetChanged(g: Geometry, log: seq<Use>, id: nat, c: Cache, r: Cache, i: int)
    requires g.Valid() && CacheByUse(g, log, id, c) && ByUse(g, log, id, Lines(r, i))
    requires forall j :: j != i ==> Lines(r, j) == Lines(c, j)
    ensures CacheByUse(g, log, id, r)
  {
    forall j ensures ByUse(g, log, id, Lines(r, j)) {
      assert ByUse(g, log, id, Lines(c, j));
    }
  }

  lemma DropByUse(g: Geometry, log: seq<Use>, id: nat, c: Cache, b: int)
    requires g.Valid() && Holds(g, c, b) && CacheByUse(g, log, id, c)
    ensures CacheByUse(g, log, id, Drop(g, c, b))
  {
    var i := b % g.sets;
    assert ByUse(g, log, id, Lines(c, i));
    EraseByUse(g, log, id, Lines(c, i), Find(Lines(c, i), b / g.sets));
    SetChanged(g, log, id, c, Drop(g, c, b), i);
  }

  /** A use of a block moves nothing in sets that do not hold it. */
  lemma UseElsewhere(g: Geometry, log: seq<Use>, id: nat, c: Cache, u: Use, i: int)
    requires g.Valid() && SetsOk(g, c) && CacheByUse(g, log, id, c) && (u.cache != id || u.block % g.sets != i)
    ensures ByUse(g, log + [u], id, Lines(c, i))
  {
    assert ByUse(g, log, id, Lines(c, i));
    forall k | 0 <= k < |Lines(c, i)| && u.cache == id ensures Block(g, Lines(c, i)[k].addr) != u.block {
      assert i in c.lines && SetOk(g, i, c.lines[i]);
    }
    OtherByUse(g, log, id, Lines(c, i), u);
  }

  lemma OtherCache(g: Geometry, log: seq<Use>, id: nat, c: Cache, u: Use)
    requires g.Valid() && SetsOk(g, c) && CacheByUse(g, log, id, c) && u.cache != id
    ensures CacheByUse(g, log + [u], id, c)
  {
    forall i ensures ByUse(g, log + [u], id, Lines(c, i)) {
      UseElsewhere(g, log, id, c, u, i);
    }
  }

  /** Making a line the most recent one is what its use asks for. */
  lemma TouchByUse(g: Geometry, log: seq<Use>, id: nat, c: Cache, addr: int, dirty: bool)
    requires g.Valid() && SetsOk(g, c) && Holds(g, c, Block(g, addr)) && CacheByUse(g, log, id, c)
    ensures CacheByUse(g, log + [Use(id, Block(g, addr))], id, Touch(g, c, addr, dirty))
  {
    var i, l, u := Index(g, addr), Line(addr, Tag(g, addr), false, dirty), Use(id, Block(g, addr));
    var ls, r := Lines(c, i), Touch(g, c, addr, dirty);
    var k := Find(ls, l.tag);
    FindFirst(ls, l.tag);
    assert Erase(ls + [l], k) == Erase(ls, k) + [l];
    assert ByUse(g, log, id, ls);
    EraseByUse(g, log, id, ls, k);
    forall j | 0 <= j < |Erase(ls, k)| ensures Block(g, Erase(ls, k)[j].addr) != Block(g, addr) {
      assert ls[Skip(k, j)].tag != ls[k].tag;
    }
    AppendByUse(g, log, id, Erase(ls, k), l);
    forall j ensures ByUse(g, log + [u], id, Lines(r, j)) {
      if j != i {
        UseElsewhere(g, log, id, c, u, j);
        assert Lines(r, j) == Lines(c, j);
      }
    }
  }

  lemma AppendLineByUse(g: Geometry, log: seq<Use>, id: nat, c: Cache, l: Line)
    requires g.Valid() && SetsOk(g, c) && l.tag == Tag(g, l.addr) && !Holds(g, c, Block(g, l.addr)) && CacheByUse(g, log, id, c)
    ensures CacheByUse(g, log + [Use(id, Block(g, l.addr))], id, Append(g, c, l))
  {
    var i, u, r := Index(g, l.addr), Use(id, Block(g, l.addr)), Append(g, c, l);
    var ls := Lines(c, i);
    assert ByUse(g, log, id, ls);
    FindFirst(ls, l.tag);
    forall j | 0 <= j < |ls| ensures Block(g, ls[j].addr) != Block(g, l.addr) {
      assert ls[j].tag != l.tag;
    }
    AppendByUse(g, log, id, ls, l);
    forall j ensures ByUse(g, log + [u], id, Lines(r, j)) {
      if j != i {
        UseElsewhere(g, log, id, c, u, j);
        assert Lines(r, j) == Lines(c, j);
      }
    }
  }

  lemma MarkByUse(g: Geometry, log: seq<Use>, id: nat, c: Cache, addr: int, lock: bool, dirty: bool)
    requires g.Valid() && Holds(g, c, Block(g, addr)) && CacheByUse(g, log, id, c)
    ensures CacheByUse(g, log, id, Mark(g, c, addr, lock, dirty))
  {
    var i := Index(g, addr);
    assert ByUse(g, log, id, Lines(c, i));
    SetChanged(g, log, id, c, Mark(g, c, addr, lock, dirty), i);
  }

  lemma WakeByUse(g: Geometry, log: seq<Use>, id: nat, c: Cache, b: int)
    requires g.Valid() && CacheByUse(g, log, id, c)
    ensures CacheByUse(g, log, id, Wake(g, c, b))
  {
    var k := FindMiss(g, c.mshrs, b);
    FindMissFirst(g, c.mshrs, b);
    if k < |c.mshrs| && Holds(g, c, b) {
      var d := Mark(g, c, c.mshrs[k], false, Peek(g, c, b).value.dirty);
      MarkByUse(g, log, id, c, c.mshrs[k], false, Peek(g, c, b).value.dirty);
      forall i ensures ByUse(g, log, id, Lines(Wake(g, c, b), i)) {
        assert ByUse(g, log, id, Lines(d, i));
      }
    }
  }

  // ----- the hierarchy -----

  /** Every set of every cache is ordered by time of last use. */
  ghost predicate Recent(cfg: Config, s: Caches, log: seq<Use>) {
    Fits(cfg, s) && forall c: nat :: c < |s| ==> CacheByUse(cfg.geo[c], log, c, s[c])
  }

  lemma {:induction false} InvalidateRecent(cfg: Config, s: Caches, c: nat, b: int, log: seq<Use>)
    requires Recent(cfg, s, log) && c < |s|
    ensures Recent(cfg, Invalidate(cfg, s, c, b).caches, log)
    decreases c, |cfg.Higher(c)| + 1
  {
    if Has(cfg, s, c, b) {
      DropByUse(cfg.geo[c], log, c, s[c], b);
      SweepRecent(cfg, s[c := Drop(cfg.geo[c], s[c], b)], c, |cfg.Higher(c)|, b, log);
    }
  }

  lemma {:induction false} SweepRecent(cfg: Config, s: Caches, c: nat, n: nat, b: int, log: seq<Use>)
    requires Recent(cfg, s, log) && c < |s| && n <= |cfg.Higher(c)|
    ensures Recent(cfg, Sweep(cfg, s, c, n, b).caches, log)
    decreases c, n
  {
    if n == 0 {
    } else {
      SweepRecent(cfg, s, c, n - 1, b, log);
      InvalidateRecent(cfg, Sweep(cfg, s, c, n - 1, b).caches, cfg.Higher(c)[n - 1], b, log);
    }
  }

  /** One cache uses a block: it makes the line the most recent one or takes the block in. */
  lemma UsedAt(cfg: Config, s: Caches, c: nat, r: Cache, log: seq<Use>, u: Use)
    requires Recent(cfg, s, log) && SetsFine(cfg, s) && c < |s| && u.cache == c && CacheByUse(cfg.geo[c], log + [u], c, r)
    ensures Recent(cfg, s[c := r], log + [u])
  {
    forall d: nat | d < |s| && d != c ensures CacheByUse(cfg.geo[d], log + [u], d, s[d]) {
      OtherCache(cfg.geo[d], log, d, s[d], u);
    }
  }

  /** An eviction uses the victim in the cache below, if there is one. */
  function EvictLog(cfg: Config, c: nat, v: int, log: seq<Use>): (r: seq<Use>)
    requires c < |cfg.lower| && (cfg.lower[c] == -1 || 0 <= cfg.lower[c])
  {
    if cfg.lower[c] == -1 then log else log + [Use(cfg.lower[c], v)]
  }

  /** The sweep of an eviction, before the victim moves. */
  lemma SweptRecent(cfg: Config, s: Caches, c: nat, l: Line, v: int, log: seq<Use>)
    requires EvictReady(cfg, s, c, l, v) && Recent(cfg, s, log)
    ensures var w := Sweep(cfg, s, c, |cfg.Higher(c)|, v).caches;
            && Recent(cfg, w, log) && SetsFine(cfg, w) && w[c] == s[c]
            && (cfg.lower[c] != -1 ==> w[cfg.lower[c]] == s[cfg.lower[c]])
  {
    var n := |cfg.Higher(c)|;
    UpIsBranches(cfg, c);
    EvictDirty(cfg, s, c, cfg.Branches(c, n), l, v);
    SweepRecent(cfg, s, c, n, v, log);
    ErasedFine(cfg, s, Sweep(cfg, s, c, n, v).caches, cfg.Branches(c, n), v);
  }

  /** The victim arrives below. */
  lemma EvictLineRecent(cfg: Config, s: Caches, d: nat, addr: int, dirty: bool, log: seq<Use>)
    requires Recent(cfg, s, log) && SetsFine(cfg, s) && d < |s| && Has(cfg, s, d, Block(cfg.geo[d], addr))
    ensures Recent(cfg, EvictLine(cfg, s, d, addr, dirty), log + [Use(d, Block(cfg.geo[d], addr))])
  {
    var now := dirty || HasDirty(cfg, s, d, Block(cfg.geo[d], addr));
    TouchByUse(cfg.geo[d], log, d, s[d], addr, now);
    UsedAt(cfg, s, d, Touch(cfg.geo[d], s[d], addr, now), log, Use(d, Block(cfg.geo[d], addr)));
  }

  lemma DropRecent(cfg: Config, s: Caches, c: nat, v: int, log: seq<Use>)
    requires Recent(cfg, s, log) && c < |s| && Has(cfg, s, c, v)
    ensures Recent(cfg, s[c := Drop(cfg.geo[c], s[c], v)], log)
  {
    DropByUse(cfg.geo[c], log, c, s[c], v);
  }

  lemma EvictRecent(cfg: Config, y: System, c: nat, l: Line, v: int, log: seq<Use>)
    requires EvictReady(cfg, y.caches, c, l, v) && Recent(cfg, y.caches, log)
    ensures Recent(cfg, Evict(cfg, y, c, l).caches, EvictLog(cfg, c, v, log))
  {
    SweptRecent(cfg, y.caches, c, l, v, log);
    var sw := Sweep(cfg, y.caches, c, |cfg.Higher(c)|, v);
    var w := sw.caches;
    if cfg.lower[c] == -1 {
      DropRecent(cfg, w, c, v, log);
    } else {
      var d: nat := cfg.lower[c];
      var dirty := l.dirty || AnyDirty(sw.results);
      EvictLineRecent(cfg, w, d, l.addr, dirty, log);
      DropRecent(cfg, EvictLine(cfg, w, d, l.addr, dirty), c, v, log + [Use(d, v)]);
    }
  }

  // ----- who is evicted -----

  /** When cache `c` used block `x` last. */
  function Age(log: seq<Use>, c: nat, x: int): (t: int) {
    LastUse(log, Use(c, x))
  }

  /** The set of `b` in `c` lost a block, and of all its blocks that were free the one used longest ago; the others stayed. */
  ghost predicate LostOldest(cfg: Config, s: Caches, t: Caches, c: nat, b: int, v: int, log: seq<Use>)
    requires Fits(cfg, s) && Fits(cfg, t) && c < |s|
  {
    && v % cfg.geo[c].sets == b % cfg.geo[c].sets && Free(cfg, s, c, v) && !Has(cfg, t, c, v)
    && (forall x :: x != v ==> At(cfg, t, c, x) == At(cfg, s, c, x))
    && (forall x :: x % cfg.geo[c].sets == b % cfg.geo[c].sets && Free(cfg, s, c, x) && x != v ==> Age(log, c, v) < Age(log, c, x))
  }

  lemma EvictLoses(cfg: Config, y: System, c: nat, l: Line, v: int)
    requires EvictReady(cfg, y.caches, c, l, v)
    ensures var t := Evict(cfg, y, c, l).caches;
            && Fits(cfg, t) && !Has(cfg, t, c, v)
            && forall x :: x != v ==> At(cfg, t, c, x) == At(cfg, y.caches, c, x)
  {
    EvictMovesDown(cfg, y, c, l, v);
    assert MovedAt(cfg, y.caches, Evict(cfg, y, c, l).caches, c, v, Below(cfg, y.caches, c, l, v), c);
  }

  lemma EvictedIsOldest(cfg: Config, y: System, hole: Hole, c: nat, b: int, log: seq<Use>, k: nat, v: int)
    requires Inv(cfg, y.caches, hole) && c < |y.caches| && Awaits(cfg, y.caches, hole, c, b) && !Has(cfg, y.caches, c, b)
    requires Recent(cfg, y.caches, log) && k == FindVictim(cfg, y.caches, c, Lines(y.caches[c], b % cfg.geo[c].sets))
    requires k < |Lines(y.caches[c], b % cfg.geo[c].sets)|
    requires v == Block(cfg.geo[c], Lines(y.caches[c], b % cfg.geo[c].sets)[k].addr)
    ensures EvictReady(cfg, y.caches, c, Lines(y.caches[c], b % cfg.geo[c].sets)[k], v) == true
    ensures var t := Evict(cfg, y, c, Lines(y.caches[c], b % cfg.geo[c].sets)[k]).caches;
            Fits(cfg, t) && LostOldest(cfg, y.caches, t, c, b, v, log)
  {
    var g, s := cfg.geo[c], y.caches;
    VictimReady(cfg, s, hole, c, b, k);
    EvictLoses(cfg, y, c, Lines(s[c], b % g.sets)[k], v);
    forall x | x % g.sets == b % g.sets && Free(cfg, s, c, x) && x != v ensures Age(log, c, v) < Age(log, c, x) {
      OlderThan(cfg, s, hole, c, b, log, k, x);
    }
  }

  /** The block that is evicted was used longest ago among the blocks of the set that are free everywhere above. */
  lemma EvictsOldest(cfg: Config, y: System, hole: Hole, c: nat, b: int, log: seq<Use>) returns (v: int)
    requires Inv(cfg, y.caches, hole) && c < |y.caches| && Awaits(cfg, y.caches, hole, c, b) && !Has(cfg, y.caches, c, b)
    requires MakeRoom(cfg, y, hole, c, b).Some? && Recent(cfg, y.caches, log)
    requires |Lines(y.caches[c], b % cfg.geo[c].sets)| >= cfg.geo[c].assoc
    ensures Fits(cfg, MakeRoom(cfg, y, hole, c, b).value.caches)
    ensures LostOldest(cfg, y.caches, MakeRoom(cfg, y, hole, c, b).value.caches, c, b, v, log) == true
    ensures Recent(cfg, MakeRoom(cfg, y, hole, c, b).value.caches, EvictLog(cfg, c, v, log)) == true
  {
    var ls := Lines(y.caches[c], b % cfg.geo[c].sets);
    var k := FindVictim(cfg, y.caches, c, ls);
    v := Block(cfg.geo[c], ls[k].addr);
    EvictedIsOldest(cfg, y, hole, c, b, log, k, v);
    EvictRecent(cfg, y, c, ls[k], v, log);
  }

  lemma OlderThan(cfg: Config, s: Caches, hole: Hole, c: nat, b: int, log: seq<Use>, k: nat, x: int)
    requires Inv(cfg, s, hole) && c < |s| && Awaits(cfg, s, hole, c, b) && !Has(cfg, s, c, b) && Recent(cfg, s, log)
    requires k == FindVictim(cfg, s, c, Lines(s[c], b % cfg.geo[c].sets)) < |Lines(s[c], b % cfg.geo[c].sets)|
    requires x % cfg.geo[c].sets == b % cfg.geo[c].sets && Free(cfg, s, c, x)
    requires x != Block(cfg.geo[c], Lines(s[c], b % cfg.geo[c].sets)[k].addr)
    ensures Age(log, c, Block(cfg.geo[c], Lines(s[c], b % cfg.geo[c].sets)[k].addr)) < Age(log, c, x)
  {
    var g := cfg.geo[c];
    var ls := Lines(s[c], b % g.sets);
    InvSetsFine(cfg, s, hole);
    PeekBlock(g, s[c], x);
    var j := Find(ls, x / g.sets);
    FindFirst(ls, x / g.sets);
    assert Block(g, ls[j].addr) == x;
    EvictableIsFree(cfg, s, hole, c, b % g.sets, j);
    assert k < j;
    assert CacheByUse(g, log, c, s[c]);
    assert ByUse(g, log, c, ls);
    assert Stamp(g, log, c, ls[k]) < Stamp(g, log, c, ls[j]);
  }

  // ----- requests -----

  /** The uses of making room: the victim, if there is one, arrives below. */
  ghost function RoomLog(cfg: Config, y: System, hole: Hole, c: nat, b: int, log: seq<Use>): (r: seq<Use>)
    requires Inv(cfg, y.caches, hole) && c < |y.caches| && Awaits(cfg, y.caches, hole, c, b) && !Has(cfg, y.caches, c, b)
    requires MakeRoom(cfg, y, hole, c, b).Some?
  {
    var g := cfg.geo[c];
    var ls := Lines(y.caches[c], b % g.sets);
    if |ls| < g.assoc then log else EvictLog(cfg, c, Block(g, ls[FindVictim(cfg, y.caches, c, ls)].addr), log)
  }

  /** The uses of a request: a hit uses the block here; a miss makes room, takes the block in, and goes on below. */
  ghost function SendLog(cfg: Config, y: System, hole: Hole, c: nat, addr: int, write: bool, log: seq<Use>): (r: seq<Use>)
    requires Inv(cfg, y.caches, hole) && c < |y.caches| && Awaits(cfg, y.caches, hole, c, Block(cfg.geo[c], addr))
    decreases |cfg.lower| - c
  {
    var b := Block(cfg.geo[c], addr);
    if Has(cfg, y.caches, c, b) then (if HasLocked(cfg, y.caches, c, b) then log else log + [Use(c, b)])
    else match MakeRoom(cfg, y, hole, c, b)
      case None => log
      case Some(y1) =>
        MakeRoomKeepsInv(cfg, y, hole, c, b);
        InstallKeepsInv(cfg, y1, hole, c, addr, write);
        var y2, now := Install(cfg, y1, c, addr, write), RoomLog(cfg, y, hole, c, b, log) + [Use(c, b)];
        if cfg.lower[c] == -1 then now
        else
          OneBlockSize(cfg, c, cfg.lower[c], addr);
          SendLog(cfg, y2, Next(cfg, c, b), cfg.lower[c], addr, false, now)
  }

  lemma RoomRecent(cfg: Config, y: System, hole: Hole, c: nat, b: int, log: seq<Use>)
    requires Inv(cfg, y.caches, hole) && c < |y.caches| && Awaits(cfg, y.caches, hole, c, b) && !Has(cfg, y.caches, c, b)
    requires MakeRoom(cfg, y, hole, c, b).Some? && Recent(cfg, y.caches, log)
    ensures Recent(cfg, MakeRoom(cfg, y, hole, c, b).value.caches, RoomLog(cfg, y, hole, c, b, log))
  {
    var g := cfg.geo[c];
    var ls := Lines(y.caches[c], b % g.sets);
    if |ls| >= g.assoc {
      var k := FindVictim(cfg, y.caches, c, ls);
      VictimReady(cfg, y.caches, hole, c, b, k);
      EvictRecent(cfg, y, c, ls[k], Block(g, ls[k].addr), log);
    }
  }

  lemma InstallRecent(cfg: Config, y: System, c: nat, addr: int, write: bool, log: seq<Use>)
    requires Recent(cfg, y.caches, log) && SetsFine(cfg, y.caches) && c < |y.caches|
    requires !Has(cfg, y.caches, c, Block(cfg.geo[c], addr))
    ensures Recent(cfg, Install(cfg, y, c, addr, write).caches, log + [Use(c, Block(cfg.geo[c], addr))])
  {
    var g, s := cfg.geo[c], y.caches;
    var l, u := Line(addr, Tag(g, addr), true, write), Use(c, Block(g, addr));
    AppendLineByUse(g, log, c, s[c], l);
    var t := Append(g, s[c], l);
    var r := t.(mshrs := t.mshrs + [addr]);
    forall i ensures ByUse(g, log + [u], c, Lines(r, i)) {
      assert ByUse(g, log + [u], c, Lines(t, i));
    }
    UsedAt(cfg, s, c, r, log, u);
  }

  lemma HitRecent(cfg: Config, y: System, hole: Hole, c: nat, addr: int, write: bool, log: seq<Use>)
    requires Inv(cfg, y.caches, hole) && c < |y.caches| && Awaits(cfg, y.caches, hole, c, Block(cfg.geo[c], addr))
    requires Recent(cfg, y.caches, log) && Has(cfg, y.caches, c, Block(cfg.geo[c], addr))
    ensures Recent(cfg, Send(cfg, y, hole, c, addr, write).sys.caches, SendLog(cfg, y, hole, c, addr, write, log))
  {
    var g, s := cfg.geo[c], y.caches;
    var b := Block(g, addr);
    var dirty := At(cfg, s, c, b).value.dirty || write;
    InvSetsFine(cfg, s, hole);
    assert CacheOk(g, s[c]) && (Locked(g, s[c], b) <==> Missing(g, s[c], b));
    if HasLocked(cfg, s, c, b) {
      MarkByUse(g, log, c, s[c], addr, true, write || At(cfg, s, c, b).value.dirty);
    } else {
      TouchByUse(g, log, c, s[c], addr, dirty);
      UsedAt(cfg, s, c, Touch(g, s[c], addr, dirty), log, Use(c, b));
    }
  }

  /** What a miss evicts on its way down: at every level it reaches, the free block of the set used longest ago. */
  ghost predicate EvictsLru(cfg: Config, y: System, hole: Hole, c: nat, addr: int, write: bool, log: seq<Use>)
    requires Inv(cfg, y.caches, hole) && c < |y.caches| && Awaits(cfg, y.caches, hole, c, Block(cfg.geo[c], addr))
    decreases |cfg.lower| - c
  {
    var b := Block(cfg.geo[c], addr);
    Has(cfg, y.caches, c, b) || match MakeRoom(cfg, y, hole, c, b)
      case None => true
      case Some(y1) =>
        MakeRoomKeepsInv(cfg, y, hole, c, b);
        InstallKeepsInv(cfg, y1, hole, c, addr, write);
        var y2, now := Install(cfg, y1, c, addr, write), RoomLog(cfg, y, hole, c, b, log) + [Use(c, b)];
        && (|Lines(y.caches[c], b % cfg.geo[c].sets)| >= cfg.geo[c].assoc ==>
              exists v :: LostOldest(cfg, y.caches, y1.caches, c, b, v, log))
        && (cfg.lower[c] == -1 || (
              OneBlockSize(cfg, c, cfg.lower[c], addr);
              EvictsLru(cfg, y2, Next(cfg, c, b), cfg.lower[c], addr, false, now)))
  }

  /** A request keeps every set in order of use and evicts what was used longest ago, at every level. */
  lemma {:induction false} SendRecent(cfg: Config, y: System, hole: Hole, c: nat, addr: int, write: bool, log: seq<Use>)
    requires Inv(cfg, y.caches, hole) && c < |y.caches| && Awaits(cfg, y.caches, hole, c, Block(cfg.geo[c], addr))
    requires Recent(cfg, y.caches, log)
    ensures Recent(cfg, Send(cfg, y, hole, c, addr, write).sys.caches, SendLog(cfg, y, hole, c, addr, write, log)) == true
    ensures EvictsLru(cfg, y, hole, c, addr, write, log) == true
    decreases |cfg.lower| - c
  {
    var b := Block(cfg.geo[c], addr);
    if Has(cfg, y.caches, c, b) {
      HitRecent(cfg, y, hole, c, addr, write, log);
    } else if MakeRoom(cfg, y, hole, c, b).None? {
      NotMissing(cfg, y.caches, hole, c, b);
    } else {
      TakeInRecent(cfg, y, hole, c, addr, write, log);
      MissRecent(cfg, y, Install(cfg, MakeRoom(cfg, y, hole, c, b).value, c, addr, write), hole, c, addr, write, b, log);
    }
  }

  /** The miss up to the cache below: room is made and the block taken in. */
  lemma TakeInRecent(cfg: Config, y: System, hole: Hole, c: nat, addr: int, write: bool, log: seq<Use>)
    requires Inv(cfg, y.caches, hole) && c < |y.caches| && Awaits(cfg, y.caches, hole, c, Block(cfg.geo[c], addr))
    requires Recent(cfg, y.caches, log) && !Has(cfg, y.caches, c, Block(cfg.geo[c], addr))
    requires MakeRoom(cfg, y, hole, c, Block(cfg.geo[c], addr)).Some?
    ensures var b := Block(cfg.geo[c], addr);
            var y2 := Install(cfg, MakeRoom(cfg, y, hole, c, b).value, c, addr, write);
            && Allocates(cfg, y, y2, hole, c, addr, write, b) == true
            && Recent(cfg, y2.caches, RoomLog(cfg, y, hole, c, b, log) + [Use(c, b)]) == true
  {
    var b := Block(cfg.geo[c], addr);
    var y1 := MakeRoom(cfg, y, hole, c, b).value;
    MakeRoomKeepsInv(cfg, y, hole, c, b);
    InstallKeepsInv(cfg, y1, hole, c, addr, write);
    RoomRecent(cfg, y, hole, c, b, log);
    InvSetsFine(cfg, y1.caches, hole);
    InstallRecent(cfg, y1, c, addr, write, RoomLog(cfg, y, hole, c, b, log));
  }

  lemma LogForwards(cfg: Config, y: System, y2: System, hole: Hole, c: nat, addr: int, write: bool, b: int, log: seq<Use>)
    requires Allocates(cfg, y, y2, hole, c, addr, write, b) == true && cfg.lower[c] != -1
    requires Block(cfg.geo[cfg.lower[c]], addr) == b
    ensures SendLog(cfg, y, hole, c, addr, write, log)
            == SendLog(cfg, y2, Next(cfg, c, b), cfg.lower[c], addr, false, RoomLog(cfg, y, hole, c, b, log) + [Use(c, b)])
  {
  }

  lemma LruForwards(cfg: Config, y: System, y2: System, hole: Hole, c: nat, addr: int, write: bool, b: int, log: seq<Use>)
    requires Allocates(cfg, y, y2, hole, c, addr, write, b) == true && cfg.lower[c] != -1
    requires Block(cfg.geo[cfg.lower[c]], addr) == b && Recent(cfg, y.caches, log)
    requires var now := RoomLog(cfg, y, hole, c, b, log) + [Use(c, b)];
             EvictsLru(cfg, y2, Next(cfg, c, b), cfg.lower[c], addr, false, now) == true
    ensures EvictsLru(cfg, y, hole, c, addr, write, log) == true
  {
    if |Lines(y.caches[c], b % cfg.geo[c].sets)| >= cfg.geo[c].assoc {
      var v := EvictsOldest(cfg, y, hole, c, b, log);
    }
  }

  lemma LastRecent(cfg: Config, y: System, y2: System, hole: Hole, c: nat, addr: int, write: bool, b: int, log: seq<Use>)
    requires Allocates(cfg, y, y2, hole, c, addr, write, b) == true && cfg.lower[c] == -1 && Recent(cfg, y.caches, log)
    requires Recent(cfg, y2.caches, RoomLog(cfg, y, hole, c, b, log) + [Use(c, b)]) == true
    ensures Recent(cfg, Send(cfg, y, hole, c, addr, write).sys.caches, SendLog(cfg, y, hole, c, addr, write, log)) == true
    ensures EvictsLru(cfg, y, hole, c, addr, write, log) == true
  {
    SendMissLast(cfg, y, y2, hole, c, addr, write, b);
    if |Lines(y.caches[c], b % cfg.geo[c].sets)| >= cfg.geo[c].assoc {
      var v := EvictsOldest(cfg, y, hole, c, b, log);
    }
  }

  lemma {:induction false} MissRecent(cfg: Config, y: System, y2: System, hole: Hole, c: nat, addr: int, write: bool, b: int, log: seq<Use>)
    requires Allocates(cfg, y, y2, hole, c, addr, write, b) == true && Recent(cfg, y.caches, log)
    requires Recent(cfg, y2.caches, RoomLog(cfg, y, hole, c, b, log) + [Use(c, b)]) == true
    ensures Recent(cfg, Send(cfg, y, hole, c, addr, write).sys.caches, SendLog(cfg, y, hole, c, addr, write, log)) == true
    ensures EvictsLru(cfg, y, hole, c, addr, write, log) == true
    decreases |cfg.lower| - c, 0
  {
    if cfg.lower[c] == -1 {
      LastRecent(cfg, y, y2, hole, c, addr, write, b, log);
    } else {
      OneBlockSize(cfg, c, cfg.lower[c], addr);
      SendRecent(cfg, y2, Next(cfg, c, b), cfg.lower[c], addr, false, RoomLog(cfg, y, hole, c, b, log) + [Use(c, b)]);
      SendMissForwards(cfg, y, y2, hole, c, addr, write, b);
      LogForwards(cfg, y, y2, hole, c, addr, write, b, log);
      LruForwards(cfg, y, y2, hole, c, addr, write, b, log);
    }
  }

  // ----- runs -----

  lemma CallbackRecent(cfg: Config, s: Caches, c: nat, b: int, log: seq<Use>)
    requires Recent(cfg, s, log) && c < |s|
    ensures Recent(cfg, Callback(cfg, s, c, b), log)
  {
    var t := Callback(cfg, s, c, b);
    CallbackEffect(cfg, s, c, b);
    forall d: nat | d < |s| ensures CacheByUse(cfg.geo[d], log, d, t[d]) {
      WakeByUse(cfg.geo[d], log, d, s[d], b);
    }
  }

  ghost function StepLog(cfg: Config, y: System, e: Event, log: seq<Use>): (r: seq<Use>)
    requires Inv(cfg, y.caches, NoHole) && Delivered(cfg, y, e)
  {
    match e
    case Request(c, addr, write) => SendLog(cfg, y, NoHole, c, addr, write, log)
    case Completion(_, _) => log
  }

  ghost function RunLog(cfg: Config, y: System, es: seq<Event>, log: seq<Use>): (r: seq<Use>)
    requires Inv(cfg, y.caches, NoHole) && IsRun(cfg, y, es)
    decreases |es|
  {
    if es == [] then log else RunLog(cfg, Step(cfg, y, es[0]), es[1..], StepLog(cfg, y, es[0], log))
  }

  lemma {:induction false} RunRecent(cfg: Config, y: System, es: seq<Event>, log: seq<Use>)
    requires Inv(cfg, y.caches, NoHole) && IsRun(cfg, y, es) && Recent(cfg, y.caches, log)
    ensures Recent(cfg, Run(cfg, y, es).caches, RunLog(cfg, y, es, log))
    decreases |es|
  {
    if es == [] {
    } else {
      match es[0] {
        case Request(c, addr, write) => SendRecent(cfg, y, NoHole, c, addr, write, log);
        case Completion(c, b) => CallbackRecent(cfg, y.caches, c, b, log);
      }
      RunRecent(cfg, Step(cfg, y, es[0]), es[1..], StepLog(cfg, y, es[0], log));
    }
  }

  /**
   After any run from empty caches every set of every cache is in order of last use, and whatever request
   comes next evicts, at every level that it misses in, the free block of the set that was used longest ago.
   */
  lemma LeastRecentlyUsed(cfg: Config, y: System, es: seq<Event>, c: nat, addr: int, write: bool)
    requires cfg.Valid() && y.caches == seq(|cfg.lower|, _ => Cache(map[], [])) && c < |cfg.lower|
    requires Inv(cfg, y.caches, NoHole) && IsRun(cfg, y, es)
    ensures var r, log := Run(cfg, y, es), RunLog(cfg, y, es, []);
            Recent(cfg, r.caches, log) && |r.caches| == |cfg.lower| && EvictsLru(cfg, r, NoHole, c, addr, write, log)
  {
    RunRecent(cfg, y, es, []);
    SendRecent(cfg, Run(cfg, y, es), NoHole, c, addr, write, RunLog(cfg, y, es, []));
  }
}
