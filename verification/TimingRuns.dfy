/**
 Safety over whole runs: when every command is issued only after `check` passed
 on the current tree, no two commands of the run break a table entry.
 */
module TimingRuns {
  import opened Timing

  /** A run in which each command went out after a successful check and the clock never ran backwards. */
  ghost predicate Guarded(s: Spec, id: int, h: seq<Issue>)
    requires s.Valid()
  {
    && ValidHistory(s, h)
    && (forall i {:trigger Ready(s, id, h, i)} :: 0 <= i < |h| ==> Ready(s, id, h, i))
    && forall i, j :: 0 <= i <= j < |h| ==> h[i].clk <= h[j].clk
  }

  ghost predicate Ready(s: Spec, id: int, h: seq<Issue>, i: nat)
    requires s.Valid() && ValidHistory(s, h) && i < |h|
  {
    assert ValidIssue(s, h[i]);
    h[i].addr[0] == id && Check(s, Run(s, id, h[..i]), 0, h[i].cmd, h[i].addr, h[i].clk)
  }

  lemma {:induction false} TimesSplit(h: seq<Issue>, i: nat, path: seq<int>, cmd: Command)
    requires i <= |h|
    ensures Times(h, path, cmd) == Times(h[i..], path, cmd) + Times(h[..i], path, cmd)
    decreases |h| - i
  {
    if i == |h| {
      assert h[..i] == h;
    } else {
      var h' := h[..|h| - 1];
      TimesSplit(h', i, path, cmd);
      assert h'[..i] == h[..i] && h'[i..] == h[i..][..|h| - i - 1];
      assert h[i..][|h| - i - 1] == h[|h| - 1];
    }
  }

  lemma {:induction false} TimesAtLeast(h: seq<Issue>, path: seq<int>, cmd: Command, low: int)
    requires forall i :: 0 <= i < |h| ==> low <= h[i].clk
    ensures forall d :: 0 <= d < |Times(h, path, cmd)| ==> low <= Times(h, path, cmd)[d]
    decreases |h|
  {
    if h == [] {
    } else {
      TimesAtLeast(h[..|h| - 1], path, cmd, low);
    }
  }

  lemma {:induction false} LastOccurrence(h: seq<Issue>, path: seq<int>, cmd: Command) returns (m: nat)
    requires Times(h, path, cmd) != []
    ensures m < |h| && h[m].cmd == cmd && Targets(h[m].addr, path)
    ensures Times(h[..m + 1], path, cmd) == Times(h, path, cmd)
    decreases |h|
  {
    var e := h[|h| - 1];
    if e.cmd == cmd && Targets(e.addr, path) {
      m := |h| - 1;
      assert h[..m + 1] == h;
    } else {
      m := LastOccurrence(h[..|h| - 1], path, cmd);
      assert h[..|h| - 1][..m + 1] == h[..m + 1];
    }
  }

  /** In a guarded run every command is legal, on every level it is checked at, with respect to all that went before. */
  lemma GuardedIsLegal(s: Spec, id: int, h: seq<Issue>, j: nat, l: nat)
    requires s.Valid() && Guarded(s, id, h) && j < |h|
    requires ValidIssue(s, h[j]) && OnPath(s, h[j].cmd, h[j].addr, l)
    ensures Legal(s, h[..j], h[j].addr[..l + 1], h[j].cmd, h[j].clk)
  {
    assert Ready(s, id, h, j);
    CheckIsExact(s, id, h[..j], h[j].cmd, h[j].addr, h[j].clk);
  }

  /** With `d` occurrences from `i` on, the `d`-th most recent one is not older than the command at `i`. */
  lemma RecentFrom(h: seq<Issue>, i: nat, path: seq<int>, cmd: Command, d: nat)
    requires i < |h| && 1 <= d <= |Times(h[i..], path, cmd)|
    requires forall m :: i <= m < |h| ==> h[i].clk <= h[m].clk
    ensures d <= |Times(h, path, cmd)| && h[i].clk <= Times(h, path, cmd)[d - 1]
  {
    TimesSplit(h, i, path, cmd);
    TimesAtLeast(h[i..], path, cmd, h[i].clk);
  }

  /** The `d`-th most recent occurrence of a cause is a demand of the history, whoever occurred last. */
  lemma RecentDemands(s: Spec, h: seq<Issue>, path: seq<int>, cause: Command, k: nat, at: int) returns (m: nat)
    requires s.Valid() && ValidHistory(s, h) && 1 <= |path| <= s.levels && cause < s.cmds
    requires k < |s.timing[|path| - 1][cause]|
    requires var e := s.timing[|path| - 1][cause][k];
             !e.sibling && 1 <= e.dist <= |Times(h, path, cause)| && at == Times(h, path, cause)[e.dist - 1] + e.val
    ensures m < |h| && h[m].cmd == cause
    ensures Demands(s, h, path, m, k, s.timing[|path| - 1][cause][k].cmd, at)
  {
    m := LastOccurrence(h, path, cause);
  }

  lemma LegalWindow(s: Spec, g: seq<Issue>, path: seq<int>, e: Entry, k: nat, i: nat, clk: int)
    requires s.Valid() && ValidHistory(s, g) && 1 <= |path| <= s.levels && i < |g|
    requires forall m :: i <= m < |g| ==> g[i].clk <= g[m].clk
    requires g[i].cmd < s.cmds && k < |s.timing[|path| - 1][g[i].cmd]| && e == s.timing[|path| - 1][g[i].cmd][k]
    requires !e.sibling && 1 <= e.dist <= |Times(g[i..], path, g[i].cmd)|
    requires Legal(s, g, path, e.cmd, clk)
    ensures g[i].clk + e.val <= clk
  {
    RecentFrom(g, i, path, g[i].cmd, e.dist);
    var m := RecentDemands(s, g, path, g[i].cmd, k, Times(g, path, g[i].cmd)[e.dist - 1] + e.val);
  }

  /**
   The window theorem. Take an entry that makes `cmd` wait `val` after `dist`
   occurrences of its cause at a node. If the cause was issued there at `i` and
   occurred `dist` times from `i` on, a later `cmd` through the node comes at
   least `val` clocks after the command at `i`.
   */
  lemma WindowRule(s: Spec, id: int, h: seq<Issue>, path: seq<int>, e: Entry, k: nat, i: nat, j: nat)
    requires s.Valid() && Guarded(s, id, h) && i < j < |h| && 1 <= |path| <= s.levels
    requires ValidIssue(s, h[i]) && ValidIssue(s, h[j])
    requires Targets(h[j].addr, path) && OnPath(s, h[j].cmd, h[j].addr, |path| - 1)
    requires k < |s.timing[|path| - 1][h[i].cmd]| && e == s.timing[|path| - 1][h[i].cmd][k]
    requires !e.sibling && e.cmd == h[j].cmd && 1 <= e.dist <= |Times(h[i..j], path, h[i].cmd)|
    ensures h[i].clk + e.val <= h[j].clk
  {
    GuardedIsLegal(s, id, h, j, |path| - 1);
    var g := h[..j];
    assert g[i..] == h[i..j] && g[i] == h[i];
    assert h[j].addr[..|path|] == path;
    LegalWindow(s, g, path, e, k, i, h[j].clk);
  }

  /** Entries of distance one: a command waits for every earlier occurrence of the cause at the node. */
  lemma PairRule(s: Spec, id: int, h: seq<Issue>, path: seq<int>, e: Entry, k: nat, i: nat, j: nat)
    requires s.Valid() && Guarded(s, id, h) && i < j < |h| && 1 <= |path| <= s.levels
    requires ValidIssue(s, h[i]) && ValidIssue(s, h[j])
    requires Targets(h[i].addr, path) && Targets(h[j].addr, path) && OnPath(s, h[j].cmd, h[j].addr, |path| - 1)
    requires k < |s.timing[|path| - 1][h[i].cmd]| && e == s.timing[|path| - 1][h[i].cmd][k]
    requires !e.sibling && e.cmd == h[j].cmd && e.dist == 1
    ensures h[i].clk + e.val <= h[j].clk
  {
    var w := h[i..j];
    TimesSplit(w, 1, path, h[i].cmd);
    assert w[..1] == [h[i]];
    assert Times(w[..1], path, h[i].cmd) == [h[i].clk];
    WindowRule(s, id, h, path, e, k, i, j);
  }

  /** Sibling entries: a command at a node waits for commands sent to the node's siblings. */
  lemma SiblingRule(s: Spec, id: int, h: seq<Issue>, path: seq<int>, e: Entry, k: nat, i: nat, j: nat)
    requires s.Valid() && Guarded(s, id, h) && i < j < |h| && 1 <= |path| <= s.levels
    requires ValidIssue(s, h[i]) && ValidIssue(s, h[j])
    requires Beside(h[i].addr, path) && Targets(h[j].addr, path) && OnPath(s, h[j].cmd, h[j].addr, |path| - 1)
    requires k < |s.timing[|path| - 1][h[i].cmd]| && e == s.timing[|path| - 1][h[i].cmd][k]
    requires e.sibling && e.cmd == h[j].cmd
    ensures h[i].clk + e.val <= h[j].clk
  {
    GuardedIsLegal(s, id, h, j, |path| - 1);
    assert h[j].addr[..|path|] == path;
    assert h[..j][i] == h[i];
    assert Demands(s, h[..j], path, i, k, h[j].cmd, h[i].clk + e.val);
  }
}
