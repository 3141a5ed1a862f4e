/**
 The timing half of the DRAM tree. Every node keeps, per command, the earliest
 clock at which that command may be issued (`next`) and the clocks of its most
 recent occurrences (`prev`). `Update` maintains both incrementally; the module
 shows that the increments compute a rule stated over the whole command history,
 for every timing table and every tree shape.
 */
module Timing {
  import opened Basics

  type Command = nat

  /** After `dist` occurrences of the row's command, `cmd` has to wait until `val` clocks after the oldest of them. */
  datatype Entry = Entry(cmd: Command, dist: nat, val: int, sibling: bool)

  /**
   A standard: `cmds` commands, `levels` tree levels (rows are not nodes), a table
   of timing entries per level and command, the scope of each command, and the
   fan-out below each level.
   */
  datatype Spec = Spec(cmds: nat, levels: nat, timing: seq<seq<seq<Entry>>>, scope: seq<nat>, count: seq<nat>)
  {
    predicate Valid() {
      && 0 < levels == |timing| == |count|
      && |scope| == cmds
      && forall l :: 0 <= l < levels ==> ValidLevel(timing[l])
    }

    predicate ValidLevel(table: seq<seq<Entry>>) {
      && |table| == cmds
      && forall c :: 0 <= c < cmds ==> ValidEntries(table[c])
    }

    predicate ValidEntries(es: seq<Entry>) {
      forall k :: 0 <= k < |es| ==> es[k].cmd < cmds && 1 <= es[k].dist && (es[k].sibling ==> es[k].dist == 1)
    }

    /** The number of children of a node at level `l`. */
    function Fanout(l: nat): (n: nat)
      requires Valid()
    {
      if l + 1 < levels then count[l + 1] else 0
    }

    /** An address vector names at most existing children; a negative component names none. */
    predicate Addressable(addr: seq<int>)
      requires Valid()
    {
      && levels < |addr|
      && forall l :: 1 <= l < levels ==> addr[l] < count[l]
    }
  }

  datatype Tree = Node(id: int, next: seq<int>, prev: seq<seq<int>>, children: seq<Tree>)

  /** How much history a command needs: the largest `dist` of its entries. */
  function Depth(es: seq<Entry>): (d: nat)
    ensures forall k :: 0 <= k < |es| ==> es[k].dist <= d
  {
    if es == [] then 0 else Max(Depth(es[..|es| - 1]), es[|es| - 1].dist)
  }

  predicate WellFormed(s: Spec, t: Tree, level: nat)
    requires s.Valid() && level < s.levels
    decreases t
  {
    && |t.next| == s.cmds == |t.prev|
    && (forall c :: 0 <= c < s.cmds ==> |t.prev[c]| == Depth(s.timing[level][c]))
    && |t.children| == s.Fanout(level)
    && forall i :: 0 <= i < |t.children| ==> t.children[i].id == i && WellFormed(s, t.children[i], level + 1)
  }

  function Initial(s: Spec, level: nat, id: int): (t: Tree)
    requires s.Valid() && level < s.levels
    ensures WellFormed(s, t, level) && t.id == id
    decreases s.levels - level
  {
    Node(id,
         seq(s.cmds, _ => -1),
         seq(s.cmds, c requires 0 <= c < s.cmds => seq(Depth(s.timing[level][c]), _ => -1)),
         seq(s.Fanout(level), i requires 0 <= i < s.Fanout(level) => Initial(s, level + 1, i)))
  }

  // ----- the two read-only walks and the update -----

  predicate Check(s: Spec, t: Tree, level: nat, cmd: Command, addr: seq<int>, clk: int)
    requires s.Valid() && level < s.levels && WellFormed(s, t, level)
    requires cmd < s.cmds && s.Addressable(addr)
    decreases t
  {
    && (t.next[cmd] == -1 || t.next[cmd] <= clk)
    && (addr[level + 1] < 0 || level == s.scope[cmd] || |t.children| == 0
        || Check(s, t.children[addr[level + 1]], level + 1, cmd, addr, clk))
  }

  /** From when on one entry lets a command go out. */
  datatype Bound = Open | From(since: int)

  /** The clock an entry allows its command from, given the recent clocks of its cause; `Open` while history is short. */
  function Allowed(e: Entry, sibling: bool, recent: seq<int>, clk: int): (r: Bound)
    requires 1 <= e.dist && (!sibling && !e.sibling ==> e.dist <= |recent|)
  {
    if e.sibling != sibling then Open
    else if sibling then From(clk + e.val)
    else if recent[e.dist - 1] < 0 then Open
    else From(recent[e.dist - 1] + e.val)
  }

  /** Raises `next` by the entries of one command, in table order. */
  function Raise(s: Spec, next: seq<int>, es: seq<Entry>, sibling: bool, recent: seq<int>, clk: int): (r: seq<int>)
    requires |next| == s.cmds && s.ValidEntries(es)
    requires !sibling ==> Depth(es) <= |recent|
    ensures |r| == |next|
    decreases |es|
  {
    if es == [] then next else
    var e := es[|es| - 1];
    var r := Raise(s, next, es[..|es| - 1], sibling, recent, clk);
    match Allowed(e, sibling, recent, clk)
    case Open => r
    case From(future) => r[e.cmd := Max(r[e.cmd], future)]
  }

  /** Pushes a clock in front of a bounded history, dropping the oldest. */
  function Remember(past: seq<int>, clk: int): (r: seq<int>)
    ensures |r| == |past|
  {
    if past == [] then past else [clk] + past[..|past| - 1]
  }

  function Update(s: Spec, t: Tree, level: nat, cmd: Command, addr: seq<int>, clk: int): (r: Tree)
    requires s.Valid() && level < s.levels && WellFormed(s, t, level)
    requires cmd < s.cmds && s.Addressable(addr)
    ensures WellFormed(s, r, level) && r.id == t.id
    decreases t
  {
    var es := s.timing[level][cmd];
    if t.id != addr[level] then
      t.(next := Raise(s, t.next, es, true, [], clk))
    else
      var recent := Remember(t.prev[cmd], clk);
      Node(t.id,
           Raise(s, t.next, es, false, recent, clk),
           t.prev[cmd := recent],
           seq(|t.children|, i requires 0 <= i < |t.children| => Update(s, t.children[i], level + 1, cmd, addr, clk)))
  }

  // ----- the declarative rule over a command history -----

  datatype Issue = Issue(cmd: Command, addr: seq<int>, clk: int)

  ghost predicate ValidIssue(s: Spec, e: Issue)
    requires s.Valid()
  {
    e.cmd < s.cmds && s.Addressable(e.addr) && 0 <= e.clk
  }

  ghost predicate ValidHistory(s: Spec, h: seq<Issue>)
    requires s.Valid()
  {
    forall i :: 0 <= i < |h| ==> ValidIssue(s, h[i])
  }

  /** The command goes to (or below, or above) the node reached by `path`: all ids on the path agree. */
  predicate Targets(addr: seq<int>, path: seq<int>) {
    |path| <= |addr| && addr[..|path|] == path
  }

  /** The command goes to a sibling of the node reached by `path`. */
  predicate Beside(addr: seq<int>, path: seq<int>) {
    && 1 <= |path| <= |addr|
    && addr[..|path| - 1] == path[..|path| - 1]
    && addr[|path| - 1] != path[|path| - 1]
  }

  /** The clocks at which `cmd` was issued to `path`, most recent first. */
  ghost function Times(h: seq<Issue>, path: seq<int>, cmd: Command): (ts: seq<int>)
    decreases |h|
  {
    if h == [] then [] else
    var e := h[|h| - 1];
    var older := Times(h[..|h| - 1], path, cmd);
    if e.cmd == cmd && Targets(e.addr, path) then [e.clk] + older else older
  }

  /** The `k`-th table entry of the `i`-th issued command makes `cmd` wait at `path` until clock `at`. */
  ghost predicate Demands(s: Spec, h: seq<Issue>, path: seq<int>, i: nat, k: nat, cmd: Command, at: int)
    requires s.Valid() && 1 <= |path| <= s.levels && ValidHistory(s, h)
  {
    && i < |h|
    && var es := s.timing[|path| - 1][h[i].cmd];
    && k < |es| && es[k].cmd == cmd
    && if es[k].sibling then
         Beside(h[i].addr, path) && at == h[i].clk + es[k].val
       else
         && Targets(h[i].addr, path)
         && var ts := Times(h[..i + 1], path, h[i].cmd);
         && es[k].dist <= |ts| && at == ts[es[k].dist - 1] + es[k].val
  }

  /** `n` is the maximum of all demands on `cmd` at `path`, or -1 when there is none above it. */
  ghost predicate IsEarliest(s: Spec, h: seq<Issue>, path: seq<int>, cmd: Command, n: int)
    requires s.Valid() && 1 <= |path| <= s.levels && ValidHistory(s, h)
  {
    && -1 <= n
    && (forall i, k, at :: Demands(s, h, path, i, k, cmd, at) ==> at <= n)
    && (n == -1 || exists i, k :: Demands(s, h, path, i, k, cmd, n))
  }

  /** A bounded history is the most recent clocks, padded with -1. */
  ghost predicate Records(past: seq<int>, ts: seq<int>) {
    forall d :: 0 <= d < |past| ==> past[d] == if d < |ts| then ts[d] else -1
  }

  /** The whole subtree at `path` agrees with the history. */
  ghost predicate Agrees(s: Spec, t: Tree, path: seq<int>, h: seq<Issue>)
    requires s.Valid() && 1 <= |path| <= s.levels && ValidHistory(s, h)
    decreases t
  {
    && WellFormed(s, t, |path| - 1)
    && t.id == path[|path| - 1]
    && (forall c :: 0 <= c < s.cmds ==> IsEarliest(s, h, path, c, t.next[c]))
    && (forall c :: 0 <= c < s.cmds ==> Records(t.prev[c], Times(h, path, c)))
    && forall i :: 0 <= i < |t.children| ==> Agrees(s, t.children[i], path + [i], h)
  }

  /** Every command of the history is allowed at `path`: no demand on `cmd` there lies after `clk`. */
  ghost predicate Legal(s: Spec, h: seq<Issue>, path: seq<int>, cmd: Command, clk: int)
    requires s.Valid() && 1 <= |path| <= s.levels && ValidHistory(s, h)
  {
    forall i, k, at :: Demands(s, h, path, i, k, cmd, at) ==> at <= clk
  }

  /** The walk of `Check` visits level `l` of the address. */
  predicate OnPath(s: Spec, cmd: Command, addr: seq<int>, l: nat)
    requires s.Valid() && cmd < s.cmds && s.Addressable(addr)
  {
    l < s.levels && l <= s.scope[cmd] && forall m :: 1 <= m <= l ==> 0 <= addr[m]
  }

  // ----- one step -----

  lemma {:induction false} RaiseIsMax(s: Spec, next: seq<int>, es: seq<Entry>, sibling: bool, recent: seq<int>, clk: int, c: Command)
    requires |next| == s.cmds && s.ValidEntries(es) && c < s.cmds
    requires !sibling ==> Depth(es) <= |recent|
    ensures var r := Raise(s, next, es, sibling, recent, clk)[c];
            && next[c] <= r
            && (forall k :: 0 <= k < |es| && es[k].cmd == c && Allowed(es[k], sibling, recent, clk).From?
                  ==> Allowed(es[k], sibling, recent, clk).since <= r)
            && (r == next[c]
                || exists k :: 0 <= k < |es| && es[k].cmd == c && Allowed(es[k], sibling, recent, clk) == From(r))
    decreases |es|
  {
    if es == [] {
    } else {
      var es' := es[..|es| - 1];
      RaiseIsMax(s, next, es', sibling, recent, clk, c);
      forall k | 0 <= k < |es'| ensures es'[k] == es[k] {}
    }
  }

  lemma DemandsPrefix(s: Spec, h: seq<Issue>, e: Issue, path: seq<int>, i: nat, k: nat, cmd: Command, at: int)
    requires s.Valid() && 1 <= |path| <= s.levels && ValidHistory(s, h) && ValidHistory(s, h + [e])
    requires i < |h|
    ensures Demands(s, h + [e], path, i, k, cmd, at) <==> Demands(s, h, path, i, k, cmd, at)
  {
    assert (h + [e])[..i + 1] == h[..i + 1];
    assert (h + [e])[i] == h[i];
  }

  /** A node whose maximum grows exactly by the demands of the new command keeps being the maximum. */
  lemma EarliestStep(s: Spec, h: seq<Issue>, e: Issue, path: seq<int>, c: Command, n: int, r: int)
    requires s.Valid() && 1 <= |path| <= s.levels && ValidHistory(s, h) && ValidHistory(s, h + [e])
    requires IsEarliest(s, h, path, c, n) && n <= r
    requires forall k, at :: Demands(s, h + [e], path, |h|, k, c, at) ==> at <= r
    requires r == n || exists k :: Demands(s, h + [e], path, |h|, k, c, r)
    ensures IsEarliest(s, h + [e], path, c, r)
  {
    forall i: nat, k: nat, at | Demands(s, h + [e], path, i, k, c, at) ensures at <= r {
      if i < |h| { DemandsPrefix(s, h, e, path, i, k, c, at); }
    }
    if r == n && r != -1 {
      var i: nat, k: nat :| Demands(s, h, path, i, k, c, n);
      DemandsPrefix(s, h, e, path, i, k, c, n);
    }
  }

  /** Targeting a node, being beside it, and missing its parent exclude one another. */
  lemma Directions(addr: seq<int>, path: seq<int>)
    requires 1 <= |path| <= |addr|
    ensures Targets(addr, path) <==> addr[..|path| - 1] == path[..|path| - 1] && addr[|path| - 1] == path[|path| - 1]
  {
    assert addr[..|path|] == addr[..|path| - 1] + [addr[|path| - 1]];
    assert path == path[..|path| - 1] + [path[|path| - 1]];
  }

  /** The last command of a history demands exactly what the table entries allow. */
  lemma LastDemands(s: Spec, h: seq<Issue>, e: Issue, path: seq<int>, past: seq<int>, k: nat, c: Command, at: int)
    requires s.Valid() && 1 <= |path| <= s.levels && ValidHistory(s, h) && ValidIssue(s, e) && ValidHistory(s, h + [e])
    requires Targets(e.addr, path) || Beside(e.addr, path)
    requires k < |s.timing[|path| - 1][e.cmd]|
    requires |past| == Depth(s.timing[|path| - 1][e.cmd]) && Records(past, Times(h, path, e.cmd))
    ensures var es := s.timing[|path| - 1][e.cmd];
            var sib := !Targets(e.addr, path);
            Demands(s, h + [e], path, |h|, k, c, at)
            <==> es[k].cmd == c && Allowed(es[k], sib, if sib then [] else Remember(past, e.clk), e.clk) == From(at)
  {
    var g := h + [e];
    assert g[..|h| + 1] == g && g[|g| - 1] == e && g[..|g| - 1] == h;
    assert s.ValidLevel(s.timing[|path| - 1]) && s.ValidEntries(s.timing[|path| - 1][e.cmd]);
    Directions(e.addr, path);
    if Targets(e.addr, path) {
      var ts := Times(h, path, e.cmd);
      TimesNonNegative(s, h, path, e.cmd);
      assert Times(g, path, e.cmd) == [e.clk] + ts;
      RecordsStep(past, ts, e.clk);
    }
  }

  lemma RecordsStep(past: seq<int>, ts: seq<int>, clk: int)
    requires Records(past, ts)
    ensures Records(Remember(past, clk), [clk] + ts)
  {
  }

  lemma {:induction false} TimesNonNegative(s: Spec, h: seq<Issue>, path: seq<int>, cmd: Command)
    requires s.Valid() && ValidHistory(s, h)
    ensures forall d :: 0 <= d < |Times(h, path, cmd)| ==> 0 <= Times(h, path, cmd)[d]
    decreases |h|
  {
    if h == [] {
    } else {
      TimesNonNegative(s, h[..|h| - 1], path, cmd);
      assert ValidIssue(s, h[|h| - 1]);
    }
  }

  /** The timing data of the one node at `path`, without its children. */
  ghost predicate NodeAgrees(s: Spec, next: seq<int>, prev: seq<seq<int>>, path: seq<int>, h: seq<Issue>)
    requires s.Valid() && 1 <= |path| <= s.levels && ValidHistory(s, h)
  {
    && |next| == s.cmds == |prev|
    && (forall c :: 0 <= c < s.cmds ==> IsEarliest(s, h, path, c, next[c]))
    && (forall c :: 0 <= c < s.cmds ==> Records(prev[c], Times(h, path, c)))
  }

  lemma NodeElsewhere(s: Spec, t: Tree, path: seq<int>, h: seq<Issue>, e: Issue)
    requires s.Valid() && 1 <= |path| <= s.levels && ValidHistory(s, h) && ValidIssue(s, e) && ValidHistory(s, h + [e])
    requires NodeAgrees(s, t.next, t.prev, path, h)
    requires e.addr[..|path| - 1] != path[..|path| - 1]
    ensures NodeAgrees(s, t.next, t.prev, path, h + [e])
  {
    var g := h + [e];
    assert g[|g| - 1] == e && g[..|g| - 1] == h;
    Directions(e.addr, path);
    forall c | 0 <= c < s.cmds ensures IsEarliest(s, g, path, c, t.next[c]) {
      EarliestStep(s, h, e, path, c, t.next[c], t.next[c]);
    }
  }

  /** Raising by the entries of the new command turns the maximum over `h` into the maximum over `h + [e]`. */
  lemma RaiseStep(s: Spec, next: seq<int>, past: seq<int>, path: seq<int>, h: seq<Issue>, e: Issue, c: Command)
    requires s.Valid() && 1 <= |path| <= s.levels && ValidHistory(s, h) && ValidIssue(s, e) && ValidHistory(s, h + [e])
    requires |next| == s.cmds && c < s.cmds && IsEarliest(s, h, path, c, next[c])
    requires |past| == Depth(s.timing[|path| - 1][e.cmd]) && Records(past, Times(h, path, e.cmd))
    requires s.ValidEntries(s.timing[|path| - 1][e.cmd])
    requires Targets(e.addr, path) || Beside(e.addr, path)
    ensures var sib := !Targets(e.addr, path);
            var r := Raise(s, next, s.timing[|path| - 1][e.cmd], sib, if sib then [] else Remember(past, e.clk), e.clk);
            IsEarliest(s, h + [e], path, c, r[c])
  {
    var es := s.timing[|path| - 1][e.cmd];
    var sib := !Targets(e.addr, path);
    var recent := if sib then [] else Remember(past, e.clk);
    var r := Raise(s, next, es, sib, recent, e.clk)[c];
    RaiseIsMax(s, next, es, sib, recent, e.clk, c);
    forall k: nat, at | Demands(s, h + [e], path, |h|, k, c, at) ensures at <= r {
      LastDemands(s, h, e, path, past, k, c, at);
    }
    if r != next[c] {
      var k :| 0 <= k < |es| && es[k].cmd == c && Allowed(es[k], sib, recent, e.clk) == From(r);
      LastDemands(s, h, e, path, past, k, c, r);
    }
    EarliestStep(s, h, e, path, c, next[c], r);
  }

  /** One node, reached by a command or sitting beside its target, absorbs the command. */
  lemma NodeStep(s: Spec, t: Tree, path: seq<int>, h: seq<Issue>, e: Issue)
    requires s.Valid() && 1 <= |path| <= s.levels && ValidHistory(s, h) && ValidIssue(s, e) && ValidHistory(s, h + [e])
    requires WellFormed(s, t, |path| - 1) && t.id == path[|path| - 1]
    requires NodeAgrees(s, t.next, t.prev, path, h)
    requires e.addr[..|path| - 1] == path[..|path| - 1]
    ensures var r := Update(s, t, |path| - 1, e.cmd, e.addr, e.clk);
            NodeAgrees(s, r.next, r.prev, path, h + [e])
  {
    var g := h + [e];
    assert g[|g| - 1] == e && g[..|g| - 1] == h;
    Directions(e.addr, path);
    assert s.ValidLevel(s.timing[|path| - 1]) && s.ValidEntries(s.timing[|path| - 1][e.cmd]);
    var r := Update(s, t, |path| - 1, e.cmd, e.addr, e.clk);
    forall c | 0 <= c < s.cmds ensures IsEarliest(s, g, path, c, r.next[c]) {
      RaiseStep(s, t.next, t.prev[e.cmd], path, h, e, c);
    }
    forall c | 0 <= c < s.cmds ensures Records(r.prev[c], Times(g, path, c)) {
      if c == e.cmd { RecordsStep(t.prev[c], Times(h, path, c), e.clk); }
    }
  }

  /** The step theorem for trees: `Update` keeps every node of the subtree in agreement with the history. */
  lemma {:induction false} AgreesStep(s: Spec, t: Tree, path: seq<int>, h: seq<Issue>, e: Issue)
    requires s.Valid() && 1 <= |path| <= s.levels && ValidHistory(s, h) && ValidIssue(s, e) && ValidHistory(s, h + [e])
    requires Agrees(s, t, path, h)
    ensures var r := if e.addr[..|path| - 1] == path[..|path| - 1]
                     then Update(s, t, |path| - 1, e.cmd, e.addr, e.clk) else t;
            Agrees(s, r, path, h + [e])
    decreases t
  {
    Directions(e.addr, path);
    if e.addr[..|path| - 1] == path[..|path| - 1] { NodeStep(s, t, path, h, e); } else { NodeElsewhere(s, t, path, h, e); }
    forall i | 0 <= i < |t.children|
      ensures var c := if Targets(e.addr, path) then Update(s, t.children[i], |path|, e.cmd, e.addr, e.clk) else t.children[i];
              Agrees(s, c, path + [i], h + [e])
    {
      assert (path + [i])[..|path|] == path;
      AgreesStep(s, t.children[i], path + [i], h, e);
    }
  }

  lemma {:induction false} InitialAgrees(s: Spec, path: seq<int>)
    requires s.Valid() && 1 <= |path| <= s.levels
    ensures Agrees(s, Initial(s, |path| - 1, path[|path| - 1]), path, [])
    decreases s.levels - |path|
  {
    forall i | 0 <= i < s.Fanout(|path| - 1)
      ensures Agrees(s, Initial(s, |path|, i), path + [i], [])
    {
      InitialAgrees(s, path + [i]);
    }
  }

  // ----- whole runs -----

  /** The tree after a run of updates, starting from the constructor. */
  ghost function Run(s: Spec, id: int, h: seq<Issue>): (t: Tree)
    requires s.Valid() && ValidHistory(s, h)
    ensures WellFormed(s, t, 0) && t.id == id
    decreases |h|
  {
    if h == [] then Initial(s, 0, id) else
    var e := h[|h| - 1];
    assert ValidIssue(s, e);
    Update(s, Run(s, id, h[..|h| - 1]), 0, e.cmd, e.addr, e.clk)
  }

  /** After any run, each node's `next` is the maximum of the demands of the whole history and `prev` its recent clocks. */
  lemma {:induction false} RunAgrees(s: Spec, id: int, h: seq<Issue>)
    requires s.Valid() && ValidHistory(s, h)
    ensures Agrees(s, Run(s, id, h), [id], h)
    decreases |h|
  {
    if h == [] {
      InitialAgrees(s, [id]);
    } else {
      var e, h' := h[|h| - 1], h[..|h| - 1];
      RunAgrees(s, id, h');
      assert h' + [e] == h && ValidIssue(s, e);
      AgreesStep(s, Run(s, id, h'), [id], h', e);
    }
  }

  /** On a tree in agreement with the history, the recursive check decides the declarative rule on the whole path. */
  lemma {:induction false} CheckDecides(s: Spec, t: Tree, path: seq<int>, h: seq<Issue>, cmd: Command, addr: seq<int>, clk: int)
    requires s.Valid() && 1 <= |path| <= s.levels && ValidHistory(s, h) && Agrees(s, t, path, h)
    requires cmd < s.cmds && s.Addressable(addr) && -1 <= clk
    requires Targets(addr, path) && OnPath(s, cmd, addr, |path| - 1)
    ensures Check(s, t, |path| - 1, cmd, addr, clk)
            <==> forall l :: |path| - 1 <= l && OnPath(s, cmd, addr, l) ==> Legal(s, h, addr[..l + 1], cmd, clk)
    decreases t
  {
    var level := |path| - 1;
    assert addr[..level + 1] == path;
    assert IsEarliest(s, h, path, cmd, t.next[cmd]);
    assert (t.next[cmd] == -1 || t.next[cmd] <= clk) <==> Legal(s, h, path, cmd, clk);
    var last := addr[level + 1] < 0 || level == s.scope[cmd] || |t.children| == 0;
    if last {
      assert forall l :: level <= l && OnPath(s, cmd, addr, l) ==> l == level;
    } else {
      assert Targets(addr, path + [addr[level + 1]]);
      CheckDecides(s, t.children[addr[level + 1]], path + [addr[level + 1]], h, cmd, addr, clk);
      assert OnPath(s, cmd, addr, level + 1);
    }
  }

  /** `check` after any run passes exactly when no demand of the history on the address's path is still open. */
  lemma CheckIsExact(s: Spec, id: int, h: seq<Issue>, cmd: Command, addr: seq<int>, clk: int)
    requires s.Valid() && ValidHistory(s, h) && cmd < s.cmds && s.Addressable(addr) && addr[0] == id && -1 <= clk
    ensures Check(s, Run(s, id, h), 0, cmd, addr, clk)
            <==> forall l :: 0 <= l && OnPath(s, cmd, addr, l) ==> Legal(s, h, addr[..l + 1], cmd, clk)
  {
    RunAgrees(s, id, h);
    assert addr[..1] == [id];
    CheckDecides(s, Run(s, id, h), [id], h, cmd, addr, clk);
  }
}
