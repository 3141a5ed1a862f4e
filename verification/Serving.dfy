/**
 The counters that every node of the DRAM tree keeps of the requests being served under it.
 A request is counted in when its first command goes out and counted out when it completes;
 a node is named by the path of children that leads to it.
 */
module Serving {

  type Path = seq<int>

  /** Request `id` at `path` is counted in (`delta` one) or out (minus one). */
  datatype Event = Event(id: nat, path: Path, delta: int, clk: int)

  datatype Counter = Counter(serving: int, active: int, cur: int, begin: int, beginServing: int, endServing: int)

  const FRESH := Counter(0, 0, 0, -1, -1, -1)

  predicate Under(p: Path, path: Path) {
    p <= path
  }

  /** What one node does with an event; the product is added before the number changes. */
  function Count(m: Counter, delta: int, clk: int): (r: Counter) {
    var gain := if m.begin != -1 && m.cur > 0 then clk - m.begin else 0;
    var cur := m.cur + delta;
    Counter(m.serving + gain * m.cur, m.active + gain, cur, clk,
            if delta == 1 && cur == 1 then clk else m.beginServing,
            if !(delta == 1 && cur == 1) && cur == 0 then clk else m.endServing)
  }

  /** The assertions of the update. */
  predicate Allows(m: Counter, delta: int) {
    && (delta == 1 || delta == -1) && m.cur + delta >= 0
    && (m.cur + delta == 0 ==> m.beginServing != -1 && delta == -1)
  }

  /** The counter of node `p` after a log of events. */
  function Metered(h: seq<Event>, p: Path): (m: Counter) {
    if h == [] then FRESH else
    var e := h[|h| - 1];
    var m := Metered(h[..|h| - 1], p);
    if Under(p, e.path) then Count(m, e.delta, e.clk) else m
  }

  // ----- logs -----

  /** Counted in but not out. */
  ghost function Open(h: seq<Event>, p: Path): (s: set<nat>) {
    if h == [] then {} else
    var e := h[|h| - 1];
    var s := Open(h[..|h| - 1], p);
    if !Under(p, e.path) then s else if e.delta == 1 then s + {e.id} else s - {e.id}
  }

  predicate Started(h: seq<Event>, id: nat) {
    exists i :: 0 <= i < |h| && h[i].id == id
  }

  /** The clock does not go back; a request is counted in once, and out once after that, on the same path. */
  ghost predicate Legal(h: seq<Event>)
    decreases |h|
  {
    h == [] ||
    var n := |h| - 1;
    var e := h[n];
    && Legal(h[..n]) && 0 <= e.clk && (n > 0 ==> h[n - 1].clk <= e.clk)
    && (e.delta == 1 || e.delta == -1)
    && (e.delta == 1 ==> !Started(h[..n], e.id))
    && (e.delta == -1 ==> exists i :: 0 <= i < n && h[i] == Event(e.id, e.path, 1, h[i].clk) && OnlyStart(h[..n], i))
  }

  /** Event `i` is the only one of its request so far. */
  predicate OnlyStart(h: seq<Event>, i: nat)
    requires i < |h|
  {
    forall j :: 0 <= j < |h| && j != i ==> h[j].id != h[i].id
  }

  lemma {:induction false} OpenIsStarted(h: seq<Event>, p: Path)
    ensures forall id :: id in Open(h, p) ==> Started(h, id)
    decreases |h|
  {
    if h == [] {
    } else {
      var n := |h| - 1;
      OpenIsStarted(h[..n], p);
      forall id | id in Open(h, p) ensures Started(h, id) {
        if id == h[n].id {
          assert h[n].id == id;
        } else {
          assert Started(h[..n], id);
          var i :| 0 <= i < |h[..n]| && h[..n][i].id == id;
          assert h[i].id == id;
        }
      }
    }
  }

  /** A request with a single event, counting it in, is open under the nodes on its path. */
  lemma {:induction false} LoneStartIsOpen(h: seq<Event>, p: Path, i: nat)
    requires i < |h| && h[i].delta == 1 && OnlyStart(h, i)
    ensures h[i].id in Open(h, p) <==> Under(p, h[i].path)
    decreases |h|
  {
    var n := |h| - 1;
    if i < n {
      assert OnlyStart(h[..n], i);
      LoneStartIsOpen(h[..n], p, i);
    } else {
      NeverStarted(h[..n], p, h[i].id);
    }
  }

  lemma NeverStarted(h: seq<Event>, p: Path, id: nat)
    requires forall j :: 0 <= j < |h| ==> h[j].id != id
    ensures id !in Open(h, p)
  {
    OpenIsStarted(h, p);
  }

  /** What the last event of a legal log does to the open requests of a node. */
  lemma LastOpen(h: seq<Event>, p: Path)
    requires Legal(h) && h != []
    ensures var e := h[|h| - 1]; var s := Open(h[..|h| - 1], p);
            Under(p, e.path) ==> (e.delta == 1 ==> e.id !in s) && (e.delta == -1 ==> e.id in s)
  {
    var n := |h| - 1;
    var e := h[n];
    if e.delta == 1 {
      NeverStarted(h[..n], p, e.id);
    } else {
      var i :| 0 <= i < n && h[i] == Event(e.id, e.path, 1, h[i].clk) && OnlyStart(h[..n], i);
      LoneStartIsOpen(h[..n], p, i);
    }
  }

  // ----- one more event -----

  /** Request `id` was counted in on `path` and nothing else happened to it. */
  ghost predicate Running(h: seq<Event>, id: nat, path: Path) {
    exists i :: 0 <= i < |h| && h[i] == Event(id, path, 1, h[i].clk) && OnlyStart(h, i)
  }

  ghost predicate Before(h: seq<Event>, clk: int) {
    0 <= clk && (h != [] ==> h[|h| - 1].clk <= clk)
  }

  /** Counting a new request in keeps the log legal and the request running. */
  lemma LegalIn(h: seq<Event>, id: nat, path: Path, clk: int)
    requires Legal(h) && Before(h, clk) && !Started(h, id)
    ensures Legal(h + [Event(id, path, 1, clk)]) && Running(h + [Event(id, path, 1, clk)], id, path)
  {
    var g := h + [Event(id, path, 1, clk)];
    assert g[..|h|] == h;
    assert g[|h|] == Event(id, path, 1, g[|h|].clk) && OnlyStart(g, |h|);
  }

  /** So does counting a running request out. */
  lemma LegalOut(h: seq<Event>, id: nat, path: Path, clk: int)
    requires Legal(h) && Before(h, clk) && Running(h, id, path)
    ensures Legal(h + [Event(id, path, -1, clk)])
  {
    var g := h + [Event(id, path, -1, clk)];
    assert g[..|h|] == h;
    var i :| 0 <= i < |h| && h[i] == Event(id, path, 1, h[i].clk) && OnlyStart(h, i);
    assert g[i] == h[i];
  }

  /** An event leaves other requests as they were. */
  lemma OthersStay(h: seq<Event>, e: Event, id: nat, path: Path)
    requires e.id != id
    ensures Running(h, id, path) ==> Running(h + [e], id, path)
    ensures Started(h + [e], id) <==> Started(h, id)
  {
    var g := h + [e];
    if Running(h, id, path) {
      var i :| 0 <= i < |h| && h[i] == Event(id, path, 1, h[i].clk) && OnlyStart(h, i);
      assert g[i] == h[i] && OnlyStart(g, i);
    }
    if Started(h, id) {
      var i :| 0 <= i < |h| && h[i].id == id;
      assert g[i].id == id;
    }
  }

  lemma OpenPush(h: seq<Event>, e: Event, p: Path)
    ensures Open(h + [e], p) == if !Under(p, e.path) then Open(h, p) else if e.delta == 1 then Open(h, p) + {e.id} else Open(h, p) - {e.id}
  {
    assert (h + [e])[..|h|] == h;
  }

  lemma RunningIsOpen(h: seq<Event>, id: nat, path: Path, p: Path)
    requires Running(h, id, path)
    ensures id in Open(h, p) <==> Under(p, path)
  {
    var i :| 0 <= i < |h| && h[i] == Event(id, path, 1, h[i].clk) && OnlyStart(h, i);
    LoneStartIsOpen(h, p, i);
  }

  lemma {:induction false} LegalPrefix(h: seq<Event>, k: nat)
    requires Legal(h) && k <= |h|
    ensures Legal(h[..k])
    decreases |h|
  {
    if k == |h| {
      assert h[..k] == h;
    } else {
      LegalPrefix(h[..|h| - 1], k);
      assert h[..|h| - 1][..k] == h[..k];
    }
  }

  // ----- the count -----

  lemma {:induction false} BeginIsSet(h: seq<Event>, p: Path)
    requires Legal(h)
    ensures var m := Metered(h, p);
            && (m.begin == -1 ==> m.cur == 0 && m.serving == 0 && m.active == 0)
            && (h != [] ==> m.begin <= h[|h| - 1].clk)
    decreases |h|
  {
    if h == [] {
    } else {
      BeginIsSet(h[..|h| - 1], p);
    }
  }

  /** The count of a node is the number of requests under it that started and did not finish, so it is never negative. */
  lemma {:induction false} CurCountsOpen(h: seq<Event>, p: Path)
    requires Legal(h)
    ensures Metered(h, p).cur == |Open(h, p)|
    ensures Metered(h, p).cur > 0 ==> Metered(h, p).beginServing != -1
    decreases |h|
  {
    if h == [] {
    } else {
      CurCountsOpen(h[..|h| - 1], p);
      LastOpen(h, p);
    }
  }

  /** No assertion of the update fires on a legal log. */
  lemma NeverAsserts(h: seq<Event>, e: Event, p: Path)
    requires Legal(h + [e]) && Under(p, e.path)
    ensures Legal(h) && Allows(Metered(h, p), e.delta)
  {
    assert (h + [e])[..|h|] == h;
    CurCountsOpen(h, p);
    CurCountsOpen(h + [e], p);
  }

  // ----- the sum -----

  /** How many requests a node was serving at clock `c`. */
  function Level(h: seq<Event>, p: Path, c: int): (n: int) {
    if h == [] then 0 else
    var e := h[|h| - 1];
    Level(h[..|h| - 1], p, c) + if Under(p, e.path) && e.clk <= c then e.delta else 0
  }

  /** Requests being served, added up over the clocks below `t`; and the clocks at which there were any. */
  function Total(h: seq<Event>, p: Path, t: nat): (n: int) {
    if t == 0 then 0 else Total(h, p, t - 1) + Level(h, p, t - 1)
  }

  function Busy(h: seq<Event>, p: Path, t: nat): (n: int) {
    if t == 0 then 0 else Busy(h, p, t - 1) + if Level(h, p, t - 1) > 0 then 1 else 0
  }

  lemma {:induction false} ClocksAscend(h: seq<Event>, i: nat)
    requires Legal(h) && i < |h|
    ensures 0 <= h[i].clk <= h[|h| - 1].clk
    decreases |h|
  {
    if i < |h| - 1 {
      ClocksAscend(h[..|h| - 1], i);
    }
  }

  /** From the node's last event on, its level is its count. */
  lemma {:induction false} LevelIsCur(h: seq<Event>, p: Path, c: int)
    requires Legal(h) && (forall i :: 0 <= i < |h| && Under(p, h[i].path) ==> h[i].clk <= c)
    ensures Level(h, p, c) == Metered(h, p).cur
    decreases |h|
  {
    if h == [] {
    } else {
      LevelIsCur(h[..|h| - 1], p, c);
    }
  }

  /** The counter's begin is the clock of the node's last event. */
  lemma {:induction false} BeginIsLast(h: seq<Event>, p: Path)
    requires Legal(h)
    ensures forall i :: 0 <= i < |h| && Under(p, h[i].path) ==> h[i].clk <= Metered(h, p).begin
    ensures -1 <= Metered(h, p).begin
    decreases |h|
  {
    if h == [] {
    } else {
      BeginIsLast(h[..|h| - 1], p);
      forall i | 0 <= i < |h| && Under(p, h[i].path) ensures h[i].clk <= Metered(h, p).begin {
        ClocksAscend(h, i);
        assert i < |h| - 1 ==> h[i] == h[..|h| - 1][i];
      }
    }
  }

  /** Over a stretch on which the level stays the same, the sums grow evenly. */
  lemma {:induction false} Stretch(h: seq<Event>, p: Path, a: nat, b: nat, level: int)
    requires a <= b && forall c :: a <= c < b ==> Level(h, p, c) == level
    ensures Total(h, p, b) == Total(h, p, a) + (b - a) * level
    ensures Busy(h, p, b) == Busy(h, p, a) + if level > 0 then b - a else 0
    decreases b
  {
    if a < b {
      Stretch(h, p, a, b - 1, level);
      assert Level(h, p, b - 1) == level;
      assert (b - a) * level == (b - 1 - a) * level + level;
    }
  }

  /** An event does not change the sums over the clocks before it. */
  lemma {:induction false} EarlierTotal(h: seq<Event>, e: Event, p: Path, t: nat)
    requires t <= e.clk || !Under(p, e.path)
    ensures Total(h + [e], p, t) == Total(h, p, t) && Busy(h + [e], p, t) == Busy(h, p, t)
    decreases t
  {
    if t == 0 {
    } else {
      EarlierTotal(h, e, p, t - 1);
      assert (h + [e])[..|h|] == h;
    }
  }

  lemma {:induction false} BeforeFirst(h: seq<Event>, p: Path, t: nat)
    requires Legal(h) && Metered(h, p).begin == -1
    ensures Total(h, p, t) == 0 && Busy(h, p, t) == 0
    decreases t
  {
    if t == 0 {
    } else {
      BeforeFirst(h, p, t - 1);
      BeginIsLast(h, p);
      LevelIsCur(h, p, t - 1);
      BeginIsSet(h, p);
    }
  }

  /** Up to clock `t`, with nothing since the node's last event. */
  lemma UpTo(h: seq<Event>, p: Path, t: nat)
    requires Legal(h) && 0 <= Metered(h, p).begin <= t
    ensures var m := Metered(h, p);
            && Total(h, p, t) == Total(h, p, m.begin) + (t - m.begin) * m.cur
            && Busy(h, p, t) == Busy(h, p, m.begin) + if m.cur > 0 then t - m.begin else 0
  {
    var m := Metered(h, p);
    BeginIsLast(h, p);
    forall c | m.begin <= c < t ensures Level(h, p, c) == m.cur {
      LevelIsCur(h, p, c);
    }
    Stretch(h, p, m.begin, t, m.cur);
  }

  /**
   After any legal log the node's sum is the number of requests in service added up over all
   past clocks, and its active cycles are the clocks at which there was at least one.
   */
  lemma {:induction false} SumsAreTotals(h: seq<Event>, p: Path)
    requires Legal(h)
    ensures var m := Metered(h, p);
            m.begin >= 0 ==> m.serving == Total(h, p, m.begin) && m.active == Busy(h, p, m.begin)
    decreases |h|
  {
    if h == [] {
    } else {
      var n := |h| - 1;
      var e, g := h[n], h[..n];
      SumsAreTotals(g, p);
      BeginIsSet(g, p);
      BeginIsLast(g, p);
      assert h == g + [e];
      var m := Metered(g, p);
      if Under(p, e.path) {
        EarlierTotal(g, e, p, e.clk);
        CurCountsOpen(g, p);
        if m.begin == -1 {
          BeforeFirst(g, p, e.clk);
        } else {
          BeginBefore(g, e, p);
          UpTo(g, p, e.clk);
        }
      } else if m.begin >= 0 {
        EarlierTotal(g, e, p, m.begin);
      }
    }
  }

  lemma BeginBefore(g: seq<Event>, e: Event, p: Path)
    requires Legal(g + [e])
    ensures Legal(g) && Metered(g, p).begin <= e.clk
  {
    var h := g + [e];
    assert h[..|g|] == g;
    BeginIsSet(g, p);
    if g != [] {
      assert g[|g| - 1] == h[|g| - 1];
    }
  }

  // ----- service times -----

  /** Clocks of the events under a node, those counting in taken as negative. */
  function Signed(h: seq<Event>, p: Path): (n: int) {
    if h == [] then 0 else
    var e := h[|h| - 1];
    Signed(h[..|h| - 1], p) - if Under(p, e.path) then e.delta * e.clk else 0
  }

  /** The running sum in closed form. */
  lemma {:induction false} SumInClosedForm(h: seq<Event>, p: Path)
    requires Legal(h)
    ensures Metered(h, p).serving == Signed(h, p) + Metered(h, p).cur * Metered(h, p).begin
    decreases |h|
  {
    if h == [] {
    } else {
      var g, e := h[..|h| - 1], h[|h| - 1];
      SumInClosedForm(g, p);
      BeginIsSet(g, p);
      CurCountsOpen(g, p);
      var m := Metered(g, p);
      Expand(m.cur, m.begin, e.clk, e.delta);
    }
  }

  lemma Expand(cur: int, begin: int, clk: int, delta: int)
    ensures cur * begin + (clk - begin) * cur == cur * clk
    ensures (cur + delta) * clk == cur * clk + delta * clk
  {
  }

  /** The same, of one request only. */
  function SignedOf(h: seq<Event>, p: Path, id: nat): (n: int) {
    if h == [] then 0 else
    var e := h[|h| - 1];
    SignedOf(h[..|h| - 1], p, id) - if Under(p, e.path) && e.id == id then e.delta * e.clk else 0
  }

  function SumOf(h: seq<Event>, p: Path, n: nat): (s: int) {
    if n == 0 then 0 else SumOf(h, p, n - 1) + SignedOf(h, p, n - 1)
  }

  lemma {:induction false} SumOfStep(h: seq<Event>, p: Path, n: nat)
    requires h != []
    ensures var e := h[|h| - 1];
            SumOf(h, p, n) == SumOf(h[..|h| - 1], p, n) - if Under(p, e.path) && e.id < n then e.delta * e.clk else 0
    decreases n
  {
    if n == 0 {
    } else {
      SumOfStep(h, p, n - 1);
    }
  }

  lemma {:induction false} EmptySum(p: Path, n: nat)
    ensures SumOf([], p, n) == 0
    decreases n
  {
    if n == 0 {
    } else {
      EmptySum(p, n - 1);
    }
  }

  lemma {:induction false} SignedByRequest(h: seq<Event>, p: Path, n: nat)
    requires forall i :: 0 <= i < |h| ==> h[i].id < n
    ensures Signed(h, p) == SumOf(h, p, n)
    decreases |h|
  {
    if h == [] {
      EmptySum(p, n);
    } else {
      SignedByRequest(h[..|h| - 1], p, n);
      SumOfStep(h, p, n);
    }
  }

  /** A request's share is its service time once it was counted out: the clock of leaving minus that of entering. */
  lemma {:induction false} ShareIsServiceTime(h: seq<Event>, p: Path, i: nat, j: nat)
    requires Legal(h) && i < j < |h| && h[i].id == h[j].id && Under(p, h[j].path)
    ensures SignedOf(h, p, h[i].id) == h[j].clk - h[i].clk
    decreases |h|
  {
    var n, id := |h| - 1, h[i].id;
    var g := h[..n];
    if j < n {
      ShareIsServiceTime(g, p, i, j);
      assert g[i].id == g[j].id == id;
      assert h[n].id != id;
    } else {
      var k :| 0 <= k < n && h[k] == Event(id, h[n].path, 1, h[k].clk) && OnlyStart(g, k);
      assert k == i by { assert g[i].id == g[k].id; }
      LoneShare(g, p, i);
    }
  }

  lemma {:induction false} LoneShare(h: seq<Event>, p: Path, i: nat)
    requires i < |h| && h[i].delta == 1 && OnlyStart(h, i) && Under(p, h[i].path)
    ensures SignedOf(h, p, h[i].id) == -h[i].clk
    decreases |h|
  {
    var n := |h| - 1;
    if i < n {
      assert OnlyStart(h[..n], i);
      LoneShare(h[..n], p, i);
    } else {
      NoShare(h[..n], p, h[i].id);
    }
  }

  lemma {:induction false} NoShare(h: seq<Event>, p: Path, id: nat)
    requires forall j :: 0 <= j < |h| ==> h[j].id != id || !Under(p, h[j].path)
    ensures SignedOf(h, p, id) == 0
    decreases |h|
  {
    if h == [] {
    } else {
      NoShare(h[..|h| - 1], p, id);
    }
  }

  /** A node that serves nothing has added up exactly the service times of the requests that went through it. */
  lemma QuiescentSum(h: seq<Event>, p: Path, n: nat)
    requires Legal(h) && Metered(h, p).cur == 0 && forall i :: 0 <= i < |h| ==> h[i].id < n
    ensures Metered(h, p).serving == SumOf(h, p, n)
  {
    SumInClosedForm(h, p);
    SignedByRequest(h, p, n);
  }

  // ----- a node and its children -----

  /** Every event under the node goes to one of its `k` children. */
  predicate Branches(h: seq<Event>, p: Path, k: nat) {
    forall i :: 0 <= i < |h| && Under(p, h[i].path) ==> |p| < |h[i].path| && 0 <= h[i].path[|p|] < k
  }

  function ChildrenSigned(h: seq<Event>, p: Path, k: nat): (n: int) {
    if k == 0 then 0 else ChildrenSigned(h, p, k - 1) + Signed(h, p + [k - 1])
  }

  function ChildrenCur(h: seq<Event>, p: Path, k: nat): (n: int) {
    if k == 0 then 0 else ChildrenCur(h, p, k - 1) + Metered(h, p + [k - 1]).cur
  }

  function ChildrenServing(h: seq<Event>, p: Path, k: nat): (n: int) {
    if k == 0 then 0 else ChildrenServing(h, p, k - 1) + Metered(h, p + [k - 1]).serving
  }

  lemma UnderChild(p: Path, i: int, path: Path)
    ensures Under(p + [i], path) <==> Under(p, path) && |p| < |path| && path[|p|] == i
  {
    if Under(p, path) && |p| < |path| && path[|p|] == i {
      assert path[..|p| + 1] == p + [i];
    }
    if Under(p + [i], path) {
      assert path[..|p|] == (p + [i])[..|p|] == p;
      assert path[|p|] == (p + [i])[|p|];
    }
  }

  lemma {:induction false} ChildrenStep(h: seq<Event>, p: Path, k: nat)
    requires h != []
    ensures var e := h[|h| - 1]; var g := h[..|h| - 1];
            var here := Under(p, e.path) && |p| < |e.path| && 0 <= e.path[|p|] < k;
            && ChildrenSigned(h, p, k) == ChildrenSigned(g, p, k) - (if here then e.delta * e.clk else 0)
            && ChildrenCur(h, p, k) == ChildrenCur(g, p, k) + (if here then e.delta else 0)
    decreases k
  {
    if k == 0 {
    } else {
      ChildrenStep(h, p, k - 1);
      UnderChild(p, k - 1, h[|h| - 1].path);
    }
  }

  lemma {:induction false} NoChildren(p: Path, k: nat)
    ensures ChildrenSigned([], p, k) == 0 && ChildrenCur([], p, k) == 0
    decreases k
  {
    if k == 0 {
    } else {
      NoChildren(p, k - 1);
    }
  }

  /** A node counts at any time what its children count together. */
  lemma {:induction false} ParentCountsChildren(h: seq<Event>, p: Path, k: nat)
    requires Branches(h, p, k)
    ensures Metered(h, p).cur == ChildrenCur(h, p, k) && Signed(h, p) == ChildrenSigned(h, p, k)
    decreases |h|
  {
    if h == [] {
      NoChildren(p, k);
    } else {
      var g := h[..|h| - 1];
      forall i | 0 <= i < |g| && Under(p, g[i].path) ensures |p| < |g[i].path| && 0 <= g[i].path[|p|] < k {
        assert g[i] == h[i];
      }
      ParentCountsChildren(g, p, k);
      ChildrenStep(h, p, k);
    }
  }

  lemma {:induction false} ChildrenNonNegative(h: seq<Event>, p: Path, k: nat)
    requires Legal(h)
    ensures 0 <= ChildrenCur(h, p, k)
    decreases k
  {
    if k == 0 {
    } else {
      ChildrenNonNegative(h, p, k - 1);
      CurCountsOpen(h, p + [k - 1]);
    }
  }

  /** Children that count nothing together each count nothing. */
  lemma {:induction false} IdleChildren(h: seq<Event>, p: Path, k: nat)
    requires Legal(h) && ChildrenCur(h, p, k) == 0
    ensures ChildrenServing(h, p, k) == ChildrenSigned(h, p, k)
    decreases k
  {
    if k == 0 {
    } else {
      ChildrenNonNegative(h, p, k - 1);
      CurCountsOpen(h, p + [k - 1]);
      IdleChildren(h, p, k - 1);
      SumInClosedForm(h, p + [k - 1]);
    }
  }

  /** When nothing is served under a node, its sum is the sum of its children's sums. */
  lemma QuiescentParent(h: seq<Event>, p: Path, k: nat)
    requires Legal(h) && Branches(h, p, k) && Metered(h, p).cur == 0
    ensures Metered(h, p).serving == ChildrenServing(h, p, k)
  {
    ParentCountsChildren(h, p, k);
    IdleChildren(h, p, k);
    SumInClosedForm(h, p);
  }

  // ----- the tree -----

  class ServingTree {
    /** The nodes that are counted, by path, and how deep they go. */
    var nodes: map<Path, Counter>
    const depth: nat
    ghost var log: seq<Event>

    ghost predicate Valid()
      reads this
    {
      && Legal(log)
      && (forall p :: p in nodes ==> |p| <= depth && nodes[p] == Metered(log, p))
    }

    constructor (paths: set<Path>, depth: nat)
      requires forall p :: p in paths ==> |p| <= depth
      ensures Valid() && log == [] && nodes.Keys == paths && this.depth == depth
    {
      this.depth := depth;
      nodes := map p | p in paths :: FRESH;
      log := [];
    }

    /** One event goes down its path, from the node `level` steps below the root. */
    method Descend(path: Path, delta: int, clk: int, level: nat)
      requires level <= depth <= |path| && forall l :: level <= l <= depth ==> path[..l] in nodes
      requires forall l :: level <= l <= depth ==> Allows(nodes[path[..l]], delta)
      modifies this`nodes
      ensures nodes.Keys == old(nodes).Keys
      ensures forall p :: p in nodes ==>
                nodes[p] == if level <= |p| <= depth && Under(p, path) then Count(old(nodes)[p], delta, clk) else old(nodes)[p]
      decreases depth - level
    {
      var here := path[..level];
      assert forall p: Path :: Under(p, path) && |p| == level ==> p == here;
      assert forall l :: level < l <= depth ==> path[..l] != here;
      nodes := nodes[here := Count(nodes[here], delta, clk)];
      if level < depth {
        Descend(path, delta, clk, level + 1);
      }
    }

    /** All nodes of the path count the event; the assertions hold whenever the log stays legal. */
    method Update(e: Event)
      requires Valid() && Legal(log + [e]) && depth <= |e.path|
      requires forall l :: 0 <= l <= depth ==> e.path[..l] in nodes
      modifies this
      ensures Valid() && log == old(log) + [e] && nodes.Keys == old(nodes).Keys
    {
      forall l | 0 <= l <= depth ensures Allows(nodes[e.path[..l]], e.delta) {
        NeverAsserts(log, e, e.path[..l]);
      }
      assert (log + [e])[..|log|] == log;
      Descend(e.path, e.delta, e.clk, 0);
      log := log + [e];
    }
  }
}
