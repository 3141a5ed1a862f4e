/**
 When the cache hierarchy answers: the time of a hit, of the read of a miss, and of a write-back, which waits
 for the caches above to give the block up.
 */
module CacheTiming {
  import opened Basics
  import opened CacheSets
  import opened CacheHierarchy
  import opened CacheProtocol
  import opened CacheSend
  import opened CacheRuns

  // ----- how long an invalidation takes -----

  /** What a cache takes to look the block up; an empty set takes no time. */
  function Look(cfg: Config, s: Caches, d: nat, b: int): (t: int)
    requires Fits(cfg, s) && d < |s|
  {
    if Lines(s[d], b % cfg.geo[d].sets) == [] then 0 else cfg.geo[d].latencyEach
  }

  /** An answer that brings dirty data counts twice. */
  ghost function Times(cfg: Config, s: Caches, d: nat, b: int): (n: int)
    requires Fits(cfg, s) && d < |s|
  {
    if DirtyIn(cfg, s, cfg.Up(d), b) != {} then 2 else 1
  }

  /** When an answer given at cache `d` after `t` has reached `c`, through the caches between them. */
  ghost function Back(cfg: Config, s: Caches, d: nat, t: int, c: nat, b: int): (r: int)
    requires Fits(cfg, s) && d < |s| && c < |s| && cfg.Above(d, c)
    decreases |s| - d
  {
    if d == c then t
    else Back(cfg, s, cfg.lower[d], cfg.geo[cfg.lower[d]].latencyEach + Times(cfg, s, d, b) * t, c, b)
  }

  /** An invalidation at `c` comes to `d`: all caches from `c` to below `d` hold the block. */
  ghost predicate Asked(cfg: Config, s: Caches, d: nat, c: nat, b: int)
    requires Fits(cfg, s) && d < |s| && c < |s|
    decreases |s| - d
  {
    d == c || (cfg.lower[d] != -1 && Has(cfg, s, cfg.lower[d], b) && Asked(cfg, s, cfg.lower[d], c, b))
  }

  lemma {:induction false} AskedIsAbove(cfg: Config, s: Caches, d: nat, c: nat, b: int)
    requires Fits(cfg, s) && d < |s| && c < |s| && Asked(cfg, s, d, c, b)
    ensures cfg.Above(d, c)
    ensures d != c ==> Has(cfg, s, c, b)
    decreases |s| - d
  {
    if d != c { AskedIsAbove(cfg, s, cfg.lower[d], c, b); }
  }

  ghost function Answer(cfg: Config, s: Caches, d: nat, c: nat, b: int): (t: int)
    requires Fits(cfg, s) && d < |s| && c < |s| && Asked(cfg, s, d, c, b)
  {
    AskedIsAbove(cfg, s, d, c, b);
    Back(cfg, s, d, Look(cfg, s, d, b), c, b)
  }

  /** `t` is when the last of the answers from the caches that are asked has reached `c`. */
  ghost predicate IsLast(cfg: Config, s: Caches, c: nat, b: int, t: int)
    requires Fits(cfg, s) && c < |s|
  {
    && (forall d: nat :: d < |s| && Asked(cfg, s, d, c, b) ==> Answer(cfg, s, d, c, b) <= t)
    && (exists d: nat :: d < |s| && Asked(cfg, s, d, c, b) && Answer(cfg, s, d, c, b) == t)
  }

  lemma {:induction false} AskedThrough(cfg: Config, s: Caches, d: nat, h: nat, c: nat, b: int)
    requires Fits(cfg, s) && d < |s| && h < |s| && c < |s| && cfg.lower[h] == c && cfg.Above(d, h)
    ensures Asked(cfg, s, d, c, b) <==> Asked(cfg, s, d, h, b) && Has(cfg, s, c, b)
    decreases |s| - d
  {
    if d != h { AskedThrough(cfg, s, cfg.lower[d], h, c, b); }
  }

  lemma {:induction false} BackThrough(cfg: Config, s: Caches, d: nat, t: int, h: nat, c: nat, b: int)
    requires Fits(cfg, s) && d < |s| && h < |s| && c < |s| && cfg.lower[h] == c && cfg.Above(d, h)
    ensures cfg.Above(d, c)
    ensures Back(cfg, s, d, t, c, b) == cfg.geo[c].latencyEach + Times(cfg, s, h, b) * Back(cfg, s, d, t, h, b)
    decreases |s| - d
  {
    AboveTransitive(cfg, d, h, c);
    if d != h {
      BackThrough(cfg, s, cfg.lower[d], cfg.geo[cfg.lower[d]].latencyEach + Times(cfg, s, d, b) * t, h, c, b);
    }
  }

  // ----- only the caches above count -----

  lemma {:induction false} SameAnswer(cfg: Config, s: Caches, t: Caches, d: nat, x: int, c: nat, b: int)
    requires Fits(cfg, s) && Fits(cfg, t) && d < |s| && c < |s| && cfg.Above(d, c) && Agree(s, t, cfg.Up(c))
    ensures Asked(cfg, t, d, c, b) == Asked(cfg, s, d, c, b)
    ensures Back(cfg, t, d, x, c, b) == Back(cfg, s, d, x, c, b)
    decreases |s| - d
  {
    if d != c {
      assert d in cfg.Up(c) && cfg.lower[d] in cfg.Up(c);
      SameTimes(cfg, s, t, d, c, b);
      SameAnswer(cfg, s, t, cfg.lower[d], cfg.geo[cfg.lower[d]].latencyEach + Times(cfg, s, d, b) * x, c, b);
    }
  }

  lemma SameTimes(cfg: Config, s: Caches, t: Caches, d: nat, c: nat, b: int)
    requires Fits(cfg, s) && Fits(cfg, t) && d < |s| && c < |s| && cfg.Above(d, c) && Agree(s, t, cfg.Up(c))
    ensures DirtyIn(cfg, t, cfg.Up(d), b) == DirtyIn(cfg, s, cfg.Up(d), b)
  {
    forall e | e in cfg.Up(d) ensures e in cfg.Up(c) { AboveTransitive(cfg, e, d, c); }
  }

  lemma SameLast(cfg: Config, s: Caches, t: Caches, c: nat, b: int, time: int)
    requires Fits(cfg, s) && Fits(cfg, t) && c < |s| && Agree(s, t, cfg.Up(c)) && IsLast(cfg, t, c, b, time)
    ensures IsLast(cfg, s, c, b, time)
  {
    forall d: nat | d < |s| && Asked(cfg, s, d, c, b)
      ensures Asked(cfg, t, d, c, b) && Answer(cfg, t, d, c, b) == Answer(cfg, s, d, c, b)
    {
      AskedIsAbove(cfg, s, d, c, b);
      assert d in cfg.Up(c);
      SameAnswer(cfg, s, t, d, Look(cfg, s, d, b), c, b);
    }
    var d: nat :| d < |t| && Asked(cfg, t, d, c, b) && Answer(cfg, t, d, c, b) == time;
    AskedIsAbove(cfg, t, d, c, b);
    assert d in cfg.Up(c);
    SameAnswer(cfg, s, t, d, Look(cfg, s, d, b), c, b);
  }

  // ----- the delay of an invalidation -----

  /** The answers of the first caches directly above: when the last of each branch is there, and whether it is dirty. */
  ghost predicate Answers(cfg: Config, s: Caches, c: nat, b: int, rs: seq<(int, bool)>)
    requires Fits(cfg, s) && c < |s| && |rs| <= |cfg.Higher(c)|
  {
    forall i :: 0 <= i < |rs| ==>
      var h := cfg.Higher(c)[i];
      IsLast(cfg, s, h, b, rs[i].0) && rs[i].1 == (DirtyIn(cfg, s, cfg.Up(h), b) != {})
  }

  lemma {:induction false} SweepDelayIsMax(own: int, rs: seq<(int, bool)>)
    ensures own <= SweepDelay(own, rs)
    ensures forall i :: 0 <= i < |rs| ==> own + (if rs[i].1 then 2 else 1) * rs[i].0 <= SweepDelay(own, rs)
    ensures SweepDelay(own, rs) == own
            || exists i :: 0 <= i < |rs| && SweepDelay(own, rs) == own + (if rs[i].1 then 2 else 1) * rs[i].0
    decreases |rs|
  {
    if rs == [] {
    } else {
      var k := |rs| - 1;
      SweepDelayIsMax(own, rs[..k]);
      if SweepDelay(own, rs) == SweepDelay(own, rs[..k]) {
        if i :| 0 <= i < k && SweepDelay(own, rs[..k]) == own + (if rs[..k][i].1 then 2 else 1) * rs[..k][i].0 {
          assert rs[i] == rs[..k][i];
        }
      } else {
        assert SweepDelay(own, rs) == own + (if rs[k].1 then 2 else 1) * rs[k].0;
      }
    }
  }

  /** The delay `invalidate` returns is when the last of all the answers has come back. */
  lemma {:induction false} DelayIsLast(cfg: Config, s: Caches, c: nat, b: int)
    requires Fits(cfg, s) && c < |s| && SetsFine(cfg, s) && Orphans(cfg, s, cfg.Up(c), b) == {}
    ensures IsLast(cfg, s, c, b, Invalidate(cfg, s, c, b).delay)
    decreases c, 2
  {
    if !Has(cfg, s, c, b) {
      assert Asked(cfg, s, c, c, b) && Answer(cfg, s, c, c, b) == Look(cfg, s, c, b);
      forall d: nat | d < |s| && Asked(cfg, s, d, c, b) ensures d == c { AskedIsAbove(cfg, s, d, c, b); }
    } else {
      var n, s1 := |cfg.Higher(c)|, s[c := Drop(cfg.geo[c], s[c], b)];
      UpIsBranches(cfg, c);
      InvalidateHere(cfg, s, c, b, cfg.Branches(c, n));
      SweepAnswers(cfg, s1, c, b);
      SameAnswers(cfg, s, s1, c, b, Sweep(cfg, s1, c, n, b).results);
      JoinAnswers(cfg, s, c, b, Sweep(cfg, s1, c, n, b).results);
    }
  }

  lemma SameAnswers(cfg: Config, s: Caches, t: Caches, c: nat, b: int, rs: seq<(int, bool)>)
    requires Fits(cfg, s) && Fits(cfg, t) && c < |s| && |rs| <= |cfg.Higher(c)| && Answers(cfg, t, c, b, rs)
    requires forall d: nat :: d < |s| && d != c ==> t[d] == s[d]
    ensures Answers(cfg, s, c, b, rs)
  {
    forall i | 0 <= i < |rs|
      ensures IsLast(cfg, s, cfg.Higher(c)[i], b, rs[i].0)
      ensures rs[i].1 == (DirtyIn(cfg, s, cfg.Up(cfg.Higher(c)[i]), b) != {})
    {
      var h := cfg.Higher(c)[i];
      UpInside(cfg, h, c);
      SameLast(cfg, s, t, h, b, rs[i].0);
      SameTimes(cfg, s, t, h, h, b);
    }
  }

  /** One more branch after the caches `ds`, which are swept already: its answer is the one of the state before. */
  lemma {:induction false} BranchAnswers(cfg: Config, s: Caches, t: Caches, h: nat, ds: set<nat>, b: int)
    requires Fits(cfg, s) && Fits(cfg, t) && h < |s| && SetsFine(cfg, s) && ds !! cfg.Up(h)
    requires Erased(cfg, s, t, ds, b) && Orphans(cfg, s, ds + cfg.Up(h), b) == {}
    ensures var r := Invalidate(cfg, t, h, b);
            IsLast(cfg, s, h, b, r.delay) == true && r.dirty == (DirtyIn(cfg, s, cfg.Up(h), b) != {})
    decreases h, 3
  {
    SweepBefore(cfg, s, t, ds, cfg.Up(h), b);
    ErasedAgree(cfg, s, t, ds, cfg.Up(h), b);
    InvalidateEffect(cfg, t, h, b);
    DelayIsLast(cfg, t, h, b);
    SameLast(cfg, s, t, h, b, Invalidate(cfg, t, h, b).delay);
    SameTimes(cfg, s, t, h, h, b);
  }

  /** A branch is asked when the branches before it were. */
  lemma LastResult(cfg: Config, s: Caches, c: nat, i: nat, b: int)
    requires Fits(cfg, s) && c < |s| && i < |cfg.Higher(c)|
    ensures var r := Invalidate(cfg, Sweep(cfg, s, c, i, b).caches, cfg.Higher(c)[i], b);
            Sweep(cfg, s, c, i + 1, b).results == Sweep(cfg, s, c, i, b).results + [(r.delay, r.dirty)]
  {
  }

  lemma {:induction false} EarlierResults(cfg: Config, s: Caches, c: nat, n: nat, i: nat, b: int)
    requires Fits(cfg, s) && c < |s| && i <= n <= |cfg.Higher(c)|
    ensures Sweep(cfg, s, c, i, b).results <= Sweep(cfg, s, c, n, b).results
    decreases n
  {
    if i < n {
      EarlierResults(cfg, s, c, n - 1, i, b);
      LastResult(cfg, s, c, n - 1, b);
    }
  }

  lemma ResultAt(cfg: Config, s: Caches, c: nat, n: nat, i: nat, b: int)
    requires Fits(cfg, s) && c < |s| && i < n <= |cfg.Higher(c)|
    ensures var r := Invalidate(cfg, Sweep(cfg, s, c, i, b).caches, cfg.Higher(c)[i], b);
            Sweep(cfg, s, c, n, b).results[i] == (r.delay, r.dirty)
  {
    LastResult(cfg, s, c, i, b);
    EarlierResults(cfg, s, c, n, i + 1, b);
  }

  lemma {:induction false} BranchesGrow(cfg: Config, c: nat, i: nat, n: nat)
    requires cfg.Valid() && c < |cfg.lower| && i <= n <= |cfg.Higher(c)|
    ensures cfg.Branches(c, i) <= cfg.Branches(c, n)
    decreases n
  {
    if i < n { BranchesGrow(cfg, c, i, n - 1); }
  }

  lemma {:induction false} AnswerAt(cfg: Config, s: Caches, c: nat, i: nat, ds: set<nat>, b: int)
    requires Fits(cfg, s) && c < |s| && SetsFine(cfg, s) && i < |cfg.Higher(c)|
    requires ds == cfg.Branches(c, i) && Orphans(cfg, s, ds + cfg.Up(cfg.Higher(c)[i]), b) == {}
    ensures var h := cfg.Higher(c)[i];
            var r := Invalidate(cfg, Sweep(cfg, s, c, i, b).caches, h, b);
            IsLast(cfg, s, h, b, r.delay) == true && r.dirty == (DirtyIn(cfg, s, cfg.Up(h), b) != {})
    decreases c, 0
  {
    var h := cfg.Higher(c)[i];
    NextBranch(cfg, c, i);
    NoOrphansInside(cfg, s, s, ds + cfg.Up(h), ds, b);
    SweepEffect(cfg, s, c, i, ds, b);
    BranchAnswers(cfg, s, Sweep(cfg, s, c, i, b).caches, h, ds, b);
  }

  lemma {:induction false} SweepAnswers(cfg: Config, s: Caches, c: nat, b: int)
    requires Fits(cfg, s) && c < |s| && SetsFine(cfg, s)
    requires Orphans(cfg, s, cfg.Branches(c, |cfg.Higher(c)|), b) == {}
    ensures Answers(cfg, s, c, b, Sweep(cfg, s, c, |cfg.Higher(c)|, b).results)
    decreases c, 1
  {
    var n := |cfg.Higher(c)|;
    var rs := Sweep(cfg, s, c, n, b).results;
    forall i | 0 <= i < n
      ensures IsLast(cfg, s, cfg.Higher(c)[i], b, rs[i].0) == true
      ensures rs[i].1 == (DirtyIn(cfg, s, cfg.Up(cfg.Higher(c)[i]), b) != {})
    {
      BranchesGrow(cfg, c, i + 1, n);
      NoOrphansInside(cfg, s, s, cfg.Branches(c, n), cfg.Branches(c, i + 1), b);
      AnswerAt(cfg, s, c, i, cfg.Branches(c, i), b);
      ResultAt(cfg, s, c, n, i, b);
    }
  }

  /** The answers of all branches together make the answer of the cache. */
  lemma JoinAnswers(cfg: Config, s: Caches, c: nat, b: int, rs: seq<(int, bool)>)
    requires Fits(cfg, s) && c < |s| && Has(cfg, s, c, b) && |rs| == |cfg.Higher(c)| && Answers(cfg, s, c, b, rs)
    ensures IsLast(cfg, s, c, b, SweepDelay(cfg.geo[c].latencyEach, rs))
  {
    var own := cfg.geo[c].latencyEach;
    SweepDelayIsMax(own, rs);
    assert Asked(cfg, s, c, c, b) && Answer(cfg, s, c, c, b) == own;
    forall d: nat | d < |s| && Asked(cfg, s, d, c, b) ensures Answer(cfg, s, d, c, b) <= SweepDelay(own, rs) {
      AnswerWithin(cfg, s, c, b, rs, d);
    }
    if i :| 0 <= i < |rs| && SweepDelay(own, rs) == own + (if rs[i].1 then 2 else 1) * rs[i].0 {
      var h := cfg.Higher(c)[i];
      var d: nat :| d < |s| && Asked(cfg, s, d, h, b) && Answer(cfg, s, d, h, b) == rs[i].0;
      AskedIsAbove(cfg, s, d, h, b);
      AskedThrough(cfg, s, d, h, c, b);
      BackThrough(cfg, s, d, Look(cfg, s, d, b), h, c, b);
      assert Answer(cfg, s, d, c, b) == SweepDelay(own, rs);
    }
  }

  lemma AnswerWithin(cfg: Config, s: Caches, c: nat, b: int, rs: seq<(int, bool)>, d: nat)
    requires Fits(cfg, s) && c < |s| && Has(cfg, s, c, b) && |rs| == |cfg.Higher(c)| && Answers(cfg, s, c, b, rs)
    requires d < |s| && Asked(cfg, s, d, c, b)
    ensures Answer(cfg, s, d, c, b) <= SweepDelay(cfg.geo[c].latencyEach, rs)
  {
    SweepDelayIsMax(cfg.geo[c].latencyEach, rs);
    if d != c {
      AskedIsAbove(cfg, s, d, c, b);
      AboveThrough(cfg, d, c);
      var i :| 0 <= i < |rs| && d in cfg.Up(cfg.Higher(c)[i]);
      var h := cfg.Higher(c)[i];
      AskedThrough(cfg, s, d, h, c, b);
      BackThrough(cfg, s, d, Look(cfg, s, d, b), h, c, b);
      assert Answer(cfg, s, d, h, b) <= rs[i].0;
    }
  }

  // ----- the time of a write-back -----

  lemma {:induction false} EvictDelayIsMax(own: int, rs: seq<(int, bool)>)
    ensures 0 <= EvictDelay(own, rs)
    ensures forall i :: 0 <= i < |rs| ==> rs[i].0 + (if rs[i].1 then own else 0) <= EvictDelay(own, rs)
    ensures EvictDelay(own, rs) == 0
            || exists i :: 0 <= i < |rs| && EvictDelay(own, rs) == rs[i].0 + if rs[i].1 then own else 0
    decreases |rs|
  {
    if rs == [] {
    } else {
      var k := |rs| - 1;
      EvictDelayIsMax(own, rs[..k]);
      if EvictDelay(own, rs) == EvictDelay(own, rs[..k]) {
        if i :| 0 <= i < k && EvictDelay(own, rs[..k]) == rs[..k][i].0 + if rs[..k][i].1 then own else 0 {
          assert rs[i] == rs[..k][i];
        }
      } else {
        assert EvictDelay(own, rs) == rs[k].0 + if rs[k].1 then own else 0;
      }
    }
  }

  /** Cache `d` is asked to give the block up through the cache `h` directly above `c`. */
  ghost predicate GivesUp(cfg: Config, s: Caches, d: nat, h: nat, c: nat, b: int)
    requires Fits(cfg, s) && c < |s|
  {
    d < |s| && h < |s| && cfg.lower[h] == c && Asked(cfg, s, d, h, b)
  }

  /** When its answer is at `c`; dirty data takes the time of a look there besides. */
  ghost function Given(cfg: Config, s: Caches, d: nat, h: nat, c: nat, b: int): (t: int)
    requires Fits(cfg, s) && c < |s| && GivesUp(cfg, s, d, h, c, b)
  {
    Answer(cfg, s, d, h, b) + if DirtyIn(cfg, s, cfg.Up(h), b) != {} then cfg.geo[c].latencyEach else 0
  }

  /** `t` is when the last cache above `c` has given the block up, and not before now. */
  ghost predicate IsFree(cfg: Config, s: Caches, c: nat, b: int, t: int)
    requires Fits(cfg, s) && c < |s|
  {
    && 0 <= t
    && (forall d: nat, h: nat :: GivesUp(cfg, s, d, h, c, b) ==> Given(cfg, s, d, h, c, b) <= t)
    && (t == 0 || exists d: nat, h: nat :: GivesUp(cfg, s, d, h, c, b) && Given(cfg, s, d, h, c, b) == t)
  }

  lemma EvictTime(cfg: Config, s: Caches, c: nat, b: int, rs: seq<(int, bool)>)
    requires Fits(cfg, s) && c < |s| && |rs| == |cfg.Higher(c)| && Answers(cfg, s, c, b, rs) == true
    ensures IsFree(cfg, s, c, b, EvictDelay(cfg.geo[c].latencyEach, rs))
  {
    var t := EvictDelay(cfg.geo[c].latencyEach, rs);
    EvictDelayIsMax(cfg.geo[c].latencyEach, rs);
    forall d: nat, h: nat | GivesUp(cfg, s, d, h, c, b) ensures Given(cfg, s, d, h, c, b) <= t {
      GivenWithin(cfg, s, c, b, rs, d, h);
    }
    if t != 0 {
      var d, h := GivenLast(cfg, s, c, b, rs);
    }
  }

  lemma GivenWithin(cfg: Config, s: Caches, c: nat, b: int, rs: seq<(int, bool)>, d: nat, h: nat)
    requires Fits(cfg, s) && c < |s| && |rs| == |cfg.Higher(c)| && Answers(cfg, s, c, b, rs) == true
    requires GivesUp(cfg, s, d, h, c, b)
    ensures Given(cfg, s, d, h, c, b) <= EvictDelay(cfg.geo[c].latencyEach, rs)
  {
    EvictDelayIsMax(cfg.geo[c].latencyEach, rs);
    cfg.HigherComplete(c, |cfg.lower|);
    var i :| 0 <= i < |rs| && cfg.Higher(c)[i] == h;
    assert IsLast(cfg, s, h, b, rs[i].0);
  }

  lemma GivenLast(cfg: Config, s: Caches, c: nat, b: int, rs: seq<(int, bool)>) returns (d: nat, h: nat)
    requires Fits(cfg, s) && c < |s| && |rs| == |cfg.Higher(c)| && Answers(cfg, s, c, b, rs) == true
    requires EvictDelay(cfg.geo[c].latencyEach, rs) != 0
    ensures GivesUp(cfg, s, d, h, c, b) && Given(cfg, s, d, h, c, b) == EvictDelay(cfg.geo[c].latencyEach, rs)
  {
    var own := cfg.geo[c].latencyEach;
    EvictDelayIsMax(own, rs);
    var i :| 0 <= i < |rs| && EvictDelay(own, rs) == rs[i].0 + if rs[i].1 then own else 0;
    h := cfg.Higher(c)[i];
    assert IsLast(cfg, s, h, b, rs[i].0);
    d :| d < |s| && Asked(cfg, s, d, h, b) && Answer(cfg, s, d, h, b) == rs[i].0;
  }

  /** A write-back leaves the last level its latency after the last cache above gave the block up. */
  lemma WriteBackTime(cfg: Config, y: System, c: nat, l: Line, v: int)
    requires EvictReady(cfg, y.caches, c, l, v) && cfg.lower[c] == -1 && DirtyIn(cfg, y.caches, cfg.Up(c), v) != {}
    ensures var ws := Evict(cfg, y, c, l).waits;
            && |ws| == |y.waits| + 1
            && IsFree(cfg, y.caches, c, v, ws[|y.waits|].time - y.clk - cfg.geo[c].latency)
  {
    var n := |cfg.Higher(c)|;
    UpIsBranches(cfg, c);
    EvictDirty(cfg, y.caches, c, cfg.Branches(c, n), l, v);
    NoOrphansInside(cfg, y.caches, y.caches, cfg.Up(c), cfg.Branches(c, n), v);
    SweepAnswers(cfg, y.caches, c, v);
    EvictTime(cfg, y.caches, c, v, Sweep(cfg, y.caches, c, n, v).results);
  }

  // ----- the time of a hit and of a read -----

  /** The first cache from `c` down that has the block, or -1. */
  ghost function Holder(cfg: Config, s: Caches, c: nat, b: int): (d: int)
    requires Fits(cfg, s) && c < |s|
    ensures d == -1 || (c <= d < |s| && Has(cfg, s, d, b))
    decreases |s| - c
  {
    if Has(cfg, s, c, b) then c else if cfg.lower[c] == -1 then -1 else Holder(cfg, s, cfg.lower[c], b)
  }

  /** The reads among the new entries of the waiting list. */
  function Reads(ws: seq<Wait>): (rs: seq<Wait>) {
    if ws == [] then [] else (if ws[0].write then [] else [ws[0]]) + Reads(ws[1..])
  }

  lemma {:induction false} ReadsPush(ws: seq<Wait>, w: Wait)
    ensures Reads(ws + [w]) == Reads(ws) + if w.write then [] else [w]
    decreases |ws|
  {
    if ws == [] {
      assert [w][1..] == [];
    } else {
      var first, last := if ws[0].write then [] else [ws[0]], if w.write then [] else [w];
      ReadsPush(ws[1..], w);
      assert (ws + [w])[0] == ws[0] && (ws + [w])[1..] == ws[1..] + [w];
      assert first + (Reads(ws[1..]) + last) == (first + Reads(ws[1..])) + last;
    }
  }

  /** Making room queues no read and no hit, and shows the levels below as they were. */
  lemma RoomIsQuiet(cfg: Config, y: System, hole: Hole, c: nat, b: int)
    requires Inv(cfg, y.caches, hole) && c < |y.caches| && Awaits(cfg, y.caches, hole, c, b) && !Has(cfg, y.caches, c, b)
    requires MakeRoom(cfg, y, hole, c, b).Some?
    ensures var y1 := MakeRoom(cfg, y, hole, c, b).value;
            && y1.hits == y.hits && y1.clk == y.clk && Extends(y, y1) && Reads(Queued(y, y1)) == []
            && Fits(cfg, y1.caches)
            && forall e :: c < e < |y.caches| ==> At(cfg, y1.caches, e, b) == At(cfg, y.caches, e, b)
  {
    var g, s := cfg.geo[c], y.caches;
    var ls := Lines(s[c], b % g.sets);
    if |ls| < g.assoc {
      assert Queued(y, y) == [];
    } else {
      var k := FindVictim(cfg, s, c, ls);
      VictimReady(cfg, s, hole, c, b, k);
      EvictIsQuiet(cfg, y, c, ls[k], Block(g, ls[k].addr), b);
    }
  }

  lemma EvictIsQuiet(cfg: Config, y: System, c: nat, l: Line, v: int, b: int)
    requires EvictReady(cfg, y.caches, c, l, v) && v != b
    ensures var y1 := Evict(cfg, y, c, l);
            && Extends(y, y1) && Reads(Queued(y, y1)) == []
            && Fits(cfg, y1.caches)
            && forall e :: c < e < |y.caches| ==> At(cfg, y1.caches, e, b) == At(cfg, y.caches, e, b)
  {
    var y1 := Evict(cfg, y, c, l);
    EvictMovesDown(cfg, y, c, l, v);
    forall e | c < e < |y.caches| ensures At(cfg, y1.caches, e, b) == At(cfg, y.caches, e, b) {
      assert MovedAt(cfg, y.caches, y1.caches, c, v, Below(cfg, y.caches, c, l, v), e);
    }
    var ws := Queued(y, y1);
    assert |ws| <= 1 && (ws != [] ==> ws == [ws[0]] && ws[0].write && ws[1..] == []);
  }

  lemma {:induction false} SameHolder(cfg: Config, s: Caches, t: Caches, c: nat, e: nat, b: int)
    requires Fits(cfg, s) && Fits(cfg, t) && c < e < |s|
    requires forall d :: c < d < |s| ==> At(cfg, t, d, b) == At(cfg, s, d, b)
    ensures Holder(cfg, t, e, b) == Holder(cfg, s, e, b)
    ensures Holder(cfg, s, e, b) == -1 || c < Holder(cfg, s, e, b)
    decreases |s| - e
  {
    if !Has(cfg, s, e, b) && cfg.lower[e] != -1 { SameHolder(cfg, s, t, c, cfg.lower[e], b); }
  }

  /** What a request adds to the list of hits, and to the waiting list besides write-backs. */
  ghost predicate Schedules(cfg: Config, y: System, r: System, c: nat, root: nat, addr: int, write: bool, b: int)
    requires Fits(cfg, y.caches) && c < |y.caches| && root < |y.caches|
  {
    var d := Holder(cfg, y.caches, c, b);
    var goes := Accepts(cfg, y.caches, c, b) && Forwards(cfg, y.caches, c, b);
    && Extends(y, r)
    && r.hits == y.hits + (if goes && d != -1 && !HasLocked(cfg, y.caches, d, b)
                           then [Wait(y.clk + cfg.geo[d].latency, addr, write && d == c)] else [])
    && Reads(Queued(y, r)) == (if goes && d == -1 then [Wait(y.clk + cfg.geo[root].latency, addr, false)] else [])
  }

  /**
   A request that all levels take is answered by the first cache that has the block, after that level's latency; not at all if
   the block is on its way there; and if no cache has it, one read leaves the last level after its latency.
   */
  lemma {:induction false} SendSchedules(cfg: Config, y: System, hole: Hole, c: nat, root: nat, addr: int, write: bool, b: int)
    requires Inv(cfg, y.caches, hole) && c < |y.caches| && b == Block(cfg.geo[c], addr) && Awaits(cfg, y.caches, hole, c, b)
    requires IsRoot(cfg, c, root)
    ensures Schedules(cfg, y, Send(cfg, y, hole, c, addr, write).sys, c, root, addr, write, b) == true
    decreases |cfg.lower| - c
  {
    if Has(cfg, y.caches, c, b) {
      PresentSchedules(cfg, y, hole, c, root, addr, write, b);
    } else if MakeRoom(cfg, y, hole, c, b).None? {
      RefusedSchedules(cfg, y, hole, c, root, addr, write, b);
    } else {
      MissSchedules(cfg, y, hole, c, root, addr, write, b);
    }
  }

  lemma PresentSchedules(cfg: Config, y: System, hole: Hole, c: nat, root: nat, addr: int, write: bool, b: int)
    requires Inv(cfg, y.caches, hole) && c < |y.caches| && b == Block(cfg.geo[c], addr) && Awaits(cfg, y.caches, hole, c, b)
    requires root < |y.caches| && Has(cfg, y.caches, c, b)
    ensures Schedules(cfg, y, Send(cfg, y, hole, c, addr, write).sys, c, root, addr, write, b) == true
  {
    PresentSends(cfg, y, hole, c, addr, write, b);
    InPlaceSchedules(cfg, y, Send(cfg, y, hole, c, addr, write).sys, c, root, addr, write, b);
  }

  lemma PresentSends(cfg: Config, y: System, hole: Hole, c: nat, addr: int, write: bool, b: int)
    requires Inv(cfg, y.caches, hole) && c < |y.caches| && b == Block(cfg.geo[c], addr) && Awaits(cfg, y.caches, hole, c, b)
    requires Has(cfg, y.caches, c, b)
    ensures var r := Send(cfg, y, hole, c, addr, write).sys;
            && r.waits == y.waits
            && r.hits == if HasLocked(cfg, y.caches, c, b) then y.hits else y.hits + [Wait(y.clk + cfg.geo[c].latency, addr, write)]
  {
    assert CacheOk(cfg.geo[c], y.caches[c]) && (Locked(cfg.geo[c], y.caches[c], b) <==> Missing(cfg.geo[c], y.caches[c], b));
  }

  lemma InPlaceSchedules(cfg: Config, y: System, r: System, c: nat, root: nat, addr: int, write: bool, b: int)
    requires Fits(cfg, y.caches) && c < |y.caches| && root < |y.caches| && Has(cfg, y.caches, c, b) && r.waits == y.waits
    requires r.hits == if HasLocked(cfg, y.caches, c, b) then y.hits else y.hits + [Wait(y.clk + cfg.geo[c].latency, addr, write)]
    ensures Schedules(cfg, y, r, c, root, addr, write, b) == true
  {
    assert Queued(y, r) == [] && y.hits + [] == y.hits;
  }

  lemma RefusedSchedules(cfg: Config, y: System, hole: Hole, c: nat, root: nat, addr: int, write: bool, b: int)
    requires Inv(cfg, y.caches, hole) && c < |y.caches| && b == Block(cfg.geo[c], addr) && Awaits(cfg, y.caches, hole, c, b)
    requires root < |y.caches| && !Has(cfg, y.caches, c, b) && MakeRoom(cfg, y, hole, c, b).None?
    ensures Schedules(cfg, y, Send(cfg, y, hole, c, addr, write).sys, c, root, addr, write, b) == true
  {
    NotMissing(cfg, y.caches, hole, c, b);
    MakeRoomAccepts(cfg, y, hole, c, b);
    assert Queued(y, y) == [] && y.hits + [] == y.hits;
  }

  lemma {:induction false} MissSchedules(cfg: Config, y: System, hole: Hole, c: nat, root: nat, addr: int, write: bool, b: int)
    requires Inv(cfg, y.caches, hole) && c < |y.caches| && b == Block(cfg.geo[c], addr) && Awaits(cfg, y.caches, hole, c, b)
    requires IsRoot(cfg, c, root) && !Has(cfg, y.caches, c, b) && MakeRoom(cfg, y, hole, c, b).Some?
    ensures Schedules(cfg, y, Send(cfg, y, hole, c, addr, write).sys, c, root, addr, write, b) == true
    decreases |cfg.lower| - c, 0
  {
    var y1 := MakeRoom(cfg, y, hole, c, b).value;
    var y2 := Install(cfg, y1, c, addr, write);
    AllocateConserves(cfg, y, hole, c, root, addr, write, b);
    MakeRoomAccepts(cfg, y, hole, c, b);
    RoomIsQuiet(cfg, y, hole, c, b);
    if cfg.lower[c] == -1 {
      SendMissLast(cfg, y, y2, hole, c, addr, write, b);
      LastSchedules(cfg, y, y1, Send(cfg, y, hole, c, addr, write).sys, c, root, addr, write, b);
    } else {
      var l: nat := cfg.lower[c];
      OneBlockSize(cfg, c, l, addr);
      SendMissForwards(cfg, y, y2, hole, c, addr, write, b);
      SendSchedules(cfg, y2, Next(cfg, c, b), l, root, addr, false, b);
      InstalledForwards(cfg, y, hole, c, addr, write, b);
      InstalledBelow(cfg, y, hole, c, addr, write, b);
      UpOfRoot(cfg, c, root);
      BelowSchedules(cfg, y, y2, Send(cfg, y, hole, c, addr, write).sys, c, root, addr, write, b);
    }
  }

  lemma LastSchedules(cfg: Config, y: System, y1: System, r: System, c: nat, root: nat, addr: int, write: bool, b: int)
    requires Fits(cfg, y.caches) && c < |y.caches| && root < |y.caches| && cfg.lower[c] == -1 && IsRoot(cfg, c, root)
    requires !Has(cfg, y.caches, c, b) && Accepts(cfg, y.caches, c, b) && Extends(y, y1) && Reads(Queued(y, y1)) == []
    requires r.hits == y.hits && r.waits == y1.waits + [Wait(y.clk + cfg.geo[c].latency, addr, false)]
    ensures Schedules(cfg, y, r, c, root, addr, write, b) == true
  {
    var w := Wait(y.clk + cfg.geo[c].latency, addr, false);
    assert c == root;
    QueuedAppend(y, y1, r, w);
    ReadsPush(Queued(y, y1), w);
    assert y.hits + [] == y.hits;
  }

  /** Room and the new line at `c` show the levels below as they were. */
  lemma InstalledBelow(cfg: Config, y: System, hole: Hole, c: nat, addr: int, write: bool, b: int)
    requires Inv(cfg, y.caches, hole) && c < |y.caches| && b == Block(cfg.geo[c], addr) && Awaits(cfg, y.caches, hole, c, b)
    requires !Has(cfg, y.caches, c, b) && MakeRoom(cfg, y, hole, c, b).Some?
    ensures var t := Install(cfg, MakeRoom(cfg, y, hole, c, b).value, c, addr, write).caches;
            forall e :: c < e < |y.caches| ==> At(cfg, t, e, b) == At(cfg, y.caches, e, b)
  {
    RoomIsQuiet(cfg, y, hole, c, b);
  }

  lemma BelowSchedules(cfg: Config, y: System, y2: System, r: System, c: nat, root: nat, addr: int, write: bool, b: int)
    requires Fits(cfg, y.caches) && Fits(cfg, y2.caches) && c < |y.caches| && root < |y.caches| && cfg.lower[c] != -1
    requires !Has(cfg, y.caches, c, b) && Accepts(cfg, y.caches, c, b)
    requires y2.hits == y.hits && y2.clk == y.clk && y2.waits == y.waits
    requires Accepts(cfg, y2.caches, cfg.lower[c], b) == Accepts(cfg, y.caches, cfg.lower[c], b)
    requires Forwards(cfg, y2.caches, cfg.lower[c], b) == Forwards(cfg, y.caches, cfg.lower[c], b)
    requires forall e :: c < e < |y.caches| ==> At(cfg, y2.caches, e, b) == At(cfg, y.caches, e, b)
    requires Schedules(cfg, y2, r, cfg.lower[c], root, addr, false, b) == true
    ensures Schedules(cfg, y, r, c, root, addr, write, b) == true
  {
    SameHolder(cfg, y.caches, y2.caches, c, cfg.lower[c], b);
  }
}
