/**
 What the timing tables mean, said without them: how far apart two commands have
 to be, written with the parameters of the standard. The check of the tree is
 shown to allow a command exactly when it keeps these distances to everything
 that went before, so that the guarded runs are exactly the well spaced ones.
 */
module TimingRules {
  import opened Commands
  import opened Timing
  import opened TimingRuns

  predicate IsRead(cmd: Command) { cmd == RD || cmd == RDA }

  predicate IsWrite(cmd: Command) { cmd == WR || cmd == WRA }

  predicate IsAccess(cmd: Command) { IsRead(cmd) || IsWrite(cmd) }

  /** `gap` clocks after the command of the row, its `k`-th entry lets `cmd` go, if it is of distance one. */
  predicate Lets(es: seq<Entry>, k: nat, cmd: Command, gap: int, sibling: bool) {
    k < |es| && es[k].cmd == cmd && es[k].dist == 1 && es[k].sibling == sibling ==> es[k].val <= gap
  }

  predicate Meets(es: seq<Entry>, cmd: Command, gap: int, sibling: bool) {
    forall k :: 0 <= k < |es| ==> Lets(es, k, cmd, gap, sibling)
  }

  /** No row is longer than twelve entries. */
  lemma MeetsEach(es: seq<Entry>, b: Command, gap: int, sib: bool)
    requires |es| <= 12
    ensures Meets(es, b, gap, sib)
            <==> && Lets(es, 0, b, gap, sib) && Lets(es, 1, b, gap, sib) && Lets(es, 2, b, gap, sib)
                 && Lets(es, 3, b, gap, sib) && Lets(es, 4, b, gap, sib) && Lets(es, 5, b, gap, sib)
                 && Lets(es, 6, b, gap, sib) && Lets(es, 7, b, gap, sib) && Lets(es, 8, b, gap, sib)
                 && Lets(es, 9, b, gap, sib) && Lets(es, 10, b, gap, sib) && Lets(es, 11, b, gap, sib)
  {
  }

  /** A standard with three levels and the commands above. */
  ghost predicate ThreeLevels(spec: Spec) {
    spec.Valid() && spec.cmds == COMMANDS && spec.levels == 3
  }

  /** The clocks of a run never go back and every command goes to channel `id`. */
  ghost predicate Ordered(s: Spec, id: int, h: seq<Issue>)
    requires s.Valid()
  {
    && ValidHistory(s, h)
    && (forall i :: 0 <= i < |h| ==> h[i].addr[0] == id)
    && forall i, j :: 0 <= i <= j < |h| ==> h[i].clk <= h[j].clk
  }

  /** The entries that look further back than one occurrence of their cause. */
  ghost predicate WindowsPass(s: Spec, h: seq<Issue>, path: seq<int>, cmd: Command, clk: int)
    requires s.Valid() && 1 <= |path| <= s.levels && ValidHistory(s, h)
  {
    forall i: nat, k: nat, at :: Demands(s, h, path, i, k, cmd, at) && 1 < s.timing[|path| - 1][h[i].cmd][k].dist ==> at <= clk
  }

  /** The entries of distance one, towards every earlier command through the node and beside it. */
  ghost predicate PairsPass(s: Spec, h: seq<Issue>, path: seq<int>, cmd: Command, clk: int)
    requires s.Valid() && 1 <= |path| <= s.levels && ValidHistory(s, h)
  {
    && (forall i :: 0 <= i < |h| && Targets(h[i].addr, path)
          ==> Meets(s.timing[|path| - 1][h[i].cmd], cmd, clk - h[i].clk, false))
    && (forall i :: 0 <= i < |h| && Beside(h[i].addr, path)
          ==> Meets(s.timing[|path| - 1][h[i].cmd], cmd, clk - h[i].clk, true))
  }

  lemma FirstOfTimes(h: seq<Issue>, path: seq<int>, i: nat)
    requires i < |h| && Targets(h[i].addr, path)
    ensures var ts := Times(h[..i + 1], path, h[i].cmd); 1 <= |ts| && ts[0] == h[i].clk
  {
    assert h[..i + 1][i] == h[i];
  }

  lemma LegalIsPairs(s: Spec, h: seq<Issue>, path: seq<int>, cmd: Command, clk: int)
    requires s.Valid() && 1 <= |path| <= s.levels && ValidHistory(s, h)
    ensures Legal(s, h, path, cmd, clk) <==> PairsPass(s, h, path, cmd, clk) && WindowsPass(s, h, path, cmd, clk)
  {
    if Legal(s, h, path, cmd, clk) {
      LegalMeets(s, h, path, cmd, clk);
    }
    if PairsPass(s, h, path, cmd, clk) && WindowsPass(s, h, path, cmd, clk) {
      MeetsLegal(s, h, path, cmd, clk);
    }
  }

  lemma LegalMeets(s: Spec, h: seq<Issue>, path: seq<int>, cmd: Command, clk: int)
    requires s.Valid() && 1 <= |path| <= s.levels && ValidHistory(s, h) && Legal(s, h, path, cmd, clk)
    ensures PairsPass(s, h, path, cmd, clk) && WindowsPass(s, h, path, cmd, clk)
  {
    forall i | 0 <= i < |h| && (Targets(h[i].addr, path) || Beside(h[i].addr, path))
      ensures Meets(s.timing[|path| - 1][h[i].cmd], cmd, clk - h[i].clk, !Targets(h[i].addr, path))
    {
      assert ValidIssue(s, h[i]);
      var es := s.timing[|path| - 1][h[i].cmd];
      if Targets(h[i].addr, path) {
        FirstOfTimes(h, path, i);
      }
      forall k | 0 <= k < |es| && es[k].cmd == cmd && es[k].dist == 1 && es[k].sibling != Targets(h[i].addr, path)
        ensures es[k].val <= clk - h[i].clk
      {
        assert Demands(s, h, path, i, k, cmd, h[i].clk + es[k].val);
      }
    }
    assert forall i :: 0 <= i < |h| && Beside(h[i].addr, path) ==> !Targets(h[i].addr, path);
  }

  lemma MeetsLegal(s: Spec, h: seq<Issue>, path: seq<int>, cmd: Command, clk: int)
    requires s.Valid() && 1 <= |path| <= s.levels && ValidHistory(s, h)
    requires PairsPass(s, h, path, cmd, clk) && WindowsPass(s, h, path, cmd, clk)
    ensures Legal(s, h, path, cmd, clk)
  {
    forall i: nat, k: nat, at | Demands(s, h, path, i, k, cmd, at)
      ensures at <= clk
    {
      assert ValidIssue(s, h[i]);
      var es := s.timing[|path| - 1][h[i].cmd];
      assert s.ValidLevel(s.timing[|path| - 1]) && s.ValidEntries(es);
      assert 1 <= es[k].dist;
      if es[k].dist == 1 {
        assert Meets(es, cmd, clk - h[i].clk, es[k].sibling);
        assert Lets(es, k, cmd, clk - h[i].clk, es[k].sibling);
        if !es[k].sibling {
          FirstOfTimes(h, path, i);
        }
      }
    }
  }

  /** Later, the fourth most recent occurrence is not an earlier one. */
  lemma {:induction false} TimesGrow(h: seq<Issue>, i: nat, path: seq<int>, cmd: Command, d: nat)
    requires i <= |h| && d < |Times(h[..i], path, cmd)|
    requires forall m, n :: 0 <= m <= n < |h| ==> h[m].clk <= h[n].clk
    ensures d < |Times(h, path, cmd)| && Times(h[..i], path, cmd)[d] <= Times(h, path, cmd)[d]
    decreases |h|
  {
    if i == |h| {
      assert h[..i] == h;
    } else {
      var h' := h[..|h| - 1];
      assert h'[..i] == h[..i];
      TimesGrow(h', i, path, cmd, d);
      TimesFalling(h', path, cmd, h[|h| - 1].clk);
    }
  }

  /** The recorded clocks fall, from a bound of the whole run down. */
  lemma {:induction false} TimesFalling(h: seq<Issue>, path: seq<int>, cmd: Command, high: int)
    requires forall m, n :: 0 <= m <= n < |h| ==> h[m].clk <= h[n].clk
    requires forall m :: 0 <= m < |h| ==> h[m].clk <= high
    ensures forall d :: 0 <= d < |Times(h, path, cmd)| ==> Times(h, path, cmd)[d] <= high
    ensures forall d :: 0 < d < |Times(h, path, cmd)| ==> Times(h, path, cmd)[d] <= Times(h, path, cmd)[d - 1]
    decreases |h|
  {
    if h == [] {
    } else {
      TimesFalling(h[..|h| - 1], path, cmd, h[|h| - 1].clk);
    }
  }

  /** Entry `e` of the row of `cause` is the only one of the table that looks back further than one occurrence. */
  predicate OnlyWindow(table: seq<seq<Entry>>, cause: Command, e: Entry) {
    forall c :: 0 <= c < |table| ==>
      forall k :: 0 <= k < |table[c]| && 1 < table[c][k].dist ==> c == cause && table[c][k] == e
  }

  lemma WindowNeeded(s: Spec, h: seq<Issue>, path: seq<int>, cause: Command, k: nat, e: Entry, clk: int)
    requires s.Valid() && 1 <= |path| <= s.levels && ValidHistory(s, h) && cause < s.cmds
    requires k < |s.timing[|path| - 1][cause]| && s.timing[|path| - 1][cause][k] == e && !e.sibling && 1 < e.dist
    requires WindowsPass(s, h, path, e.cmd, clk) && e.dist <= |Times(h, path, cause)|
    ensures Times(h, path, cause)[e.dist - 1] + e.val <= clk
  {
    var at := Times(h, path, cause)[e.dist - 1] + e.val;
    var m := RecentDemands(s, h, path, cause, k, at);
  }

  lemma WindowEnough(s: Spec, h: seq<Issue>, path: seq<int>, cause: Command, e: Entry, clk: int)
    requires s.Valid() && 1 <= |path| <= s.levels && ValidHistory(s, h) && !e.sibling && 1 < e.dist
    requires forall m, n :: 0 <= m <= n < |h| ==> h[m].clk <= h[n].clk
    requires OnlyWindow(s.timing[|path| - 1], cause, e)
    requires e.dist <= |Times(h, path, cause)| ==> Times(h, path, cause)[e.dist - 1] + e.val <= clk
    ensures WindowsPass(s, h, path, e.cmd, clk)
  {
    forall i: nat, k: nat, at | Demands(s, h, path, i, k, e.cmd, at) && 1 < s.timing[|path| - 1][h[i].cmd][k].dist
      ensures at <= clk
    {
      assert ValidIssue(s, h[i]);
      assert h[i].cmd == cause && s.timing[|path| - 1][h[i].cmd][k] == e;
      TimesGrow(h, i + 1, path, cause, e.dist - 1);
    }
  }

  /** With clocks in order one window entry passes exactly when it passes for the most recent occurrences. */
  lemma OneWindow(s: Spec, h: seq<Issue>, path: seq<int>, cause: Command, k: nat, e: Entry, clk: int)
    requires s.Valid() && 1 <= |path| <= s.levels && ValidHistory(s, h) && cause < s.cmds
    requires forall m, n :: 0 <= m <= n < |h| ==> h[m].clk <= h[n].clk
    requires k < |s.timing[|path| - 1][cause]| && s.timing[|path| - 1][cause][k] == e && !e.sibling && 1 < e.dist
    requires OnlyWindow(s.timing[|path| - 1], cause, e)
    ensures WindowsPass(s, h, path, e.cmd, clk)
            <==> (e.dist <= |Times(h, path, cause)| ==> Times(h, path, cause)[e.dist - 1] + e.val <= clk)
  {
    if WindowsPass(s, h, path, e.cmd, clk) {
      if e.dist <= |Times(h, path, cause)| {
        WindowNeeded(s, h, path, cause, k, e, clk);
      }
    } else if e.dist <= |Times(h, path, cause)| ==> Times(h, path, cause)[e.dist - 1] + e.val <= clk {
      WindowEnough(s, h, path, cause, e, clk);
    }
  }

  /** No entry of the table for `cmd` looks back further than one occurrence. */
  predicate Shallow(table: seq<seq<Entry>>, cmd: Command) {
    forall c :: 0 <= c < |table| ==> forall k :: 0 <= k < |table[c]| && table[c][k].cmd == cmd ==> table[c][k].dist <= 1
  }

  lemma NoWindow(s: Spec, h: seq<Issue>, path: seq<int>, cmd: Command, clk: int)
    requires s.Valid() && 1 <= |path| <= s.levels && ValidHistory(s, h)
    requires Shallow(s.timing[|path| - 1], cmd)
    ensures WindowsPass(s, h, path, cmd, clk)
  {
    forall i: nat, k: nat, at | Demands(s, h, path, i, k, cmd, at)
      ensures s.timing[|path| - 1][h[i].cmd][k].dist <= 1
    {
      assert ValidIssue(s, h[i]);
    }
  }

  /** On three levels: the root, the child while one is addressed, and the grandchild for commands that reach it. */
  lemma CheckIsLegal(s: Spec, id: int, h: seq<Issue>, cmd: Command, addr: seq<int>, clk: int)
    requires s.Valid() && s.levels == 3 && ValidHistory(s, h) && cmd < s.cmds && -1 <= clk
    requires s.Addressable(addr) && addr[0] == id
    ensures Check(s, Run(s, id, h), 0, cmd, addr, clk)
            <==> && Legal(s, h, [id], cmd, clk)
                 && (1 <= s.scope[cmd] && 0 <= addr[1] ==> Legal(s, h, [id, addr[1]], cmd, clk))
                 && (2 <= s.scope[cmd] && 0 <= addr[1] && 0 <= addr[2] ==> Legal(s, h, [id, addr[1], addr[2]], cmd, clk))
  {
    CheckIsExact(s, id, h, cmd, addr, clk);
    assert addr[..1] == [id] && addr[..2] == [id, addr[1]] && addr[..3] == [id, addr[1], addr[2]];
    assert OnPath(s, cmd, addr, 0);
    assert OnPath(s, cmd, addr, 1) <==> 1 <= s.scope[cmd] && 0 <= addr[1];
    assert OnPath(s, cmd, addr, 2) <==> 2 <= s.scope[cmd] && 0 <= addr[1] && 0 <= addr[2];
  }
}

/** The distances of DDR3. */
module Ddr3Rules {
  import opened Commands
  import opened Timing
  import opened TimingRuns
  import opened TimingRules
  import opened Ddr3Timing

  /** On the channel, bursts in the same direction do not overlap. */
  predicate ChannelGap(s: Speed, a: Command, b: Command, gap: int) {
    (IsRead(a) && IsRead(b)) || (IsWrite(a) && IsWrite(b)) ==> s.nBL <= gap
  }

  /** From an access to a later one, of the same rank. */
  predicate AccessGap(s: Speed, a: Command, b: Command, gap: int) {
    && (IsRead(a) && IsRead(b) ==> s.nCCD <= gap)
    && (IsWrite(a) && IsWrite(b) ==> s.nCCD <= gap)
    && (IsRead(a) && IsWrite(b) ==> s.nCL + s.nCCD + 2 - s.nCWL <= gap)
    && (IsWrite(a) && IsRead(b) ==> s.nCWL + s.nBL + s.nWTR <= gap)
  }

  /** Activates of one rank, and what has to be over before all its banks are closed or it is refreshed. */
  predicate RowGap(s: Speed, a: Command, b: Command, gap: int) {
    && (a == ACT && b == ACT ==> s.nRRD <= gap)
    && (a == ACT && b == PREA ==> s.nRAS <= gap)
    && (a == RD && b == PREA ==> s.nRTP <= gap)
    && (a == WR && b == PREA ==> s.nCWL + s.nBL + s.nWR <= gap)
    && (a == PREA && b == ACT ==> s.nRP <= gap)
    && ((a == PRE || a == PREA) && (b == REF || b == SRE) ==> s.nRP <= gap)
    && (a == REF && (b == ACT || b == REF) ==> s.nRFC <= gap)
  }

  /** Power-down and self-refresh of a rank. */
  predicate PowerGap(s: Speed, a: Command, b: Command, gap: int) {
    && ((a == ACT || a == REF) && b == PDE ==> 1 <= gap)
    && (IsRead(a) && b == PDE ==> s.nCL + s.nBL + 1 <= gap)
    && (a == WR && b == PDE ==> s.nCWL + s.nBL + s.nWR <= gap)
    && (a == WRA && b == PDE ==> s.nCWL + s.nBL + s.nWR + 1 <= gap)
    && (a == PDE && b == PDX ==> s.nPD <= gap)
    && (a == PDX && b != PDX && b != SRX ==> s.nXP <= gap)
    && (a == SRE && b == SRX ==> s.nCKESR <= gap)
    && (a == SRX && (b == ACT || b == REF || b == PDE || b == SRE) ==> s.nXS <= gap)
  }

  predicate RankGap(s: Speed, a: Command, b: Command, gap: int) {
    AccessGap(s, a, b, gap) && RowGap(s, a, b, gap) && PowerGap(s, a, b, gap)
  }

  /** From an access of one rank to one of another: the data bus changes hands, and perhaps direction. */
  predicate OtherRankGap(s: Speed, a: Command, b: Command, gap: int) {
    && (IsRead(a) && IsAccess(b) ==> s.nBL + s.nRTRS <= gap)
    && (IsRead(a) && IsWrite(b) ==> s.nCL + s.nBL + s.nRTRS - s.nCWL <= gap)
    && (IsWrite(a) && IsRead(b) ==> s.nCWL + s.nBL + s.nRTRS - s.nCL <= gap)
  }

  /** In one bank: the row cycle. */
  predicate BankGap(s: Speed, a: Command, b: Command, gap: int) {
    && (a == ACT && IsAccess(b) ==> s.nRCD <= gap)
    && (a == ACT && b == PRE ==> s.nRAS <= gap)
    && (a == ACT && b == ACT ==> s.nRC <= gap)
    && (a == PRE && b == ACT ==> s.nRP <= gap)
    && (a == RD && b == PRE ==> s.nRTP <= gap)
    && (a == WR && b == PRE ==> s.nCWL + s.nBL + s.nWR <= gap)
    && (a == RDA && b == ACT ==> s.nRTP + s.nRP <= gap)
    && (a == WRA && b == ACT ==> s.nCWL + s.nBL + s.nWR + s.nRP <= gap)
  }

  lemma ChannelMeets(s: Speed, a: Command, b: Command, gap: int)
    requires a < COMMANDS && b < COMMANDS
    ensures Meets(ChannelTable(s)[a], b, gap, false) <==> ChannelGap(s, a, b, gap)
    ensures Meets(ChannelTable(s)[a], b, gap, true)
  {
    MeetsEach(ChannelTable(s)[a], b, gap, false);
  }

  lemma BankMeets(s: Speed, a: Command, b: Command, gap: int)
    requires a < COMMANDS && b < COMMANDS
    ensures Meets(BankTable(s)[a], b, gap, false) <==> BankGap(s, a, b, gap)
    ensures Meets(BankTable(s)[a], b, gap, true)
  {
    MeetsEach(BankTable(s)[a], b, gap, false);
  }

  /** The rank's rows for reads and for writes, and all the others. */
  lemma RankReadMeets(s: Speed, a: Command, b: Command, gap: int)
    requires IsRead(a) && b < COMMANDS
    ensures Meets(RankTable(s)[a], b, gap, false) <==> RankGap(s, a, b, gap)
    ensures Meets(RankTable(s)[a], b, gap, true) <==> OtherRankGap(s, a, b, gap)
  {
    MeetsEach(RankTable(s)[a], b, gap, false);
    MeetsEach(RankTable(s)[a], b, gap, true);
  }

  lemma RankWriteMeets(s: Speed, a: Command, b: Command, gap: int)
    requires IsWrite(a) && b < COMMANDS
    ensures Meets(RankTable(s)[a], b, gap, false) <==> RankGap(s, a, b, gap)
    ensures Meets(RankTable(s)[a], b, gap, true) <==> OtherRankGap(s, a, b, gap)
  {
    MeetsEach(RankTable(s)[a], b, gap, false);
    MeetsEach(RankTable(s)[a], b, gap, true);
  }

  lemma RankRowMeets(s: Speed, a: Command, b: Command, gap: int)
    requires a < COMMANDS && !IsAccess(a) && b < COMMANDS
    ensures Meets(RankTable(s)[a], b, gap, false) <==> RankGap(s, a, b, gap)
    ensures Meets(RankTable(s)[a], b, gap, true)
  {
    MeetsEach(RankTable(s)[a], b, gap, false);
  }

  lemma RankMeets(s: Speed, a: Command, b: Command, gap: int)
    requires a < COMMANDS && b < COMMANDS
    ensures Meets(RankTable(s)[a], b, gap, false) <==> RankGap(s, a, b, gap)
    ensures Meets(RankTable(s)[a], b, gap, true) <==> OtherRankGap(s, a, b, gap)
  {
    if IsRead(a) {
      RankReadMeets(s, a, b, gap);
    } else if IsWrite(a) {
      RankWriteMeets(s, a, b, gap);
    } else {
      RankRowMeets(s, a, b, gap);
    }
  }

  /** A table says of `cmd` what the distances on the channel say, and likewise below. */
  ghost predicate ChannelSays(s: Speed, table: seq<seq<Entry>>, cmd: Command) {
    && |table| == COMMANDS && Shallow(table, cmd)
    && forall a, gap :: 0 <= a < COMMANDS ==> (Meets(table[a], cmd, gap, false) <==> ChannelGap(s, a, cmd, gap))
  }

  ghost predicate RankSays(s: Speed, table: seq<seq<Entry>>, cmd: Command) {
    && |table| == COMMANDS
    && (if cmd == ACT then OnlyWindow(table, ACT, Entry(ACT, 4, s.nFAW, false)) else Shallow(table, cmd))
    && 1 < |table[ACT]| && table[ACT][1] == Entry(ACT, 4, s.nFAW, false)
    && (forall a, gap :: 0 <= a < COMMANDS ==> (Meets(table[a], cmd, gap, false) <==> RankGap(s, a, cmd, gap)))
    && (forall a, gap :: 0 <= a < COMMANDS ==> (Meets(table[a], cmd, gap, true) <==> OtherRankGap(s, a, cmd, gap)))
  }

  ghost predicate BankSays(s: Speed, table: seq<seq<Entry>>, cmd: Command) {
    && |table| == COMMANDS && Shallow(table, cmd)
    && (forall a, gap :: 0 <= a < COMMANDS ==> (Meets(table[a], cmd, gap, false) <==> BankGap(s, a, cmd, gap)))
    && (forall a, gap :: 0 <= a < COMMANDS ==> Meets(table[a], cmd, gap, true))
  }

  lemma ChannelTableSays(s: Speed, cmd: Command)
    requires cmd < COMMANDS
    ensures ChannelSays(s, ChannelTable(s), cmd) == true
  {
    forall a, gap | 0 <= a < COMMANDS
      ensures Meets(ChannelTable(s)[a], cmd, gap, false) <==> ChannelGap(s, a, cmd, gap)
    {
      ChannelMeets(s, a, cmd, gap);
    }
  }

  lemma RankTableSays(s: Speed, cmd: Command)
    requires cmd < COMMANDS
    ensures RankSays(s, RankTable(s), cmd) == true
  {
    forall a, gap | 0 <= a < COMMANDS
      ensures Meets(RankTable(s)[a], cmd, gap, false) <==> RankGap(s, a, cmd, gap)
      ensures Meets(RankTable(s)[a], cmd, gap, true) <==> OtherRankGap(s, a, cmd, gap)
    {
      RankMeets(s, a, cmd, gap);
    }
  }

  lemma BankTableSays(s: Speed, cmd: Command)
    requires cmd < COMMANDS
    ensures BankSays(s, BankTable(s), cmd) == true
  {
    forall a, gap | 0 <= a < COMMANDS
      ensures Meets(BankTable(s)[a], cmd, gap, false) <==> BankGap(s, a, cmd, gap)
      ensures Meets(BankTable(s)[a], cmd, gap, true)
    {
      BankMeets(s, a, cmd, gap);
    }
  }

  /** Two commands go to the same rank, and to the same bank of it. */
  predicate SameRank(a: seq<int>, b: seq<int>)
    requires 2 <= |a| && 2 <= |b|
  {
    a[1] == b[1]
  }

  predicate SameBank(a: seq<int>, b: seq<int>)
    requires 3 <= |a| && 3 <= |b|
  {
    a[1] == b[1] && a[2] == b[2]
  }

  ghost predicate RankSpaced(s: Speed, e: Issue, cmd: Command, addr: seq<int>, clk: int)
    requires 3 <= |e.addr| && 3 <= |addr|
  {
    if SameRank(e.addr, addr) then RankGap(s, e.cmd, cmd, clk - e.clk) else OtherRankGap(s, e.cmd, cmd, clk - e.clk)
  }

  /** The fourth most recent activate of the rank is nFAW clocks back. */
  ghost predicate FourActivates(s: Speed, h: seq<Issue>, id: int, cmd: Command, addr: seq<int>, clk: int)
    requires 3 <= |addr|
  {
    cmd == ACT ==>
      var acts := Times(h, [id, addr[1]], ACT);
      4 <= |acts| ==> acts[3] + s.nFAW <= clk
  }

  lemma ChannelLegal(spec: Spec, s: Speed, id: int, h: seq<Issue>, cmd: Command, clk: int)
    requires ThreeLevels(spec) && Ordered(spec, id, h) && cmd < COMMANDS && ChannelSays(s, spec.timing[0], cmd) == true
    ensures Legal(spec, h, [id], cmd, clk)
            <==> forall i :: 0 <= i < |h| ==> ChannelGap(s, h[i].cmd, cmd, clk - h[i].clk)
  {
    LegalIsPairs(spec, h, [id], cmd, clk);
    NoWindow(spec, h, [id], cmd, clk);
    forall i | 0 <= i < |h|
      ensures Targets(h[i].addr, [id]) && !Beside(h[i].addr, [id])
      ensures Meets(spec.timing[0][h[i].cmd], cmd, clk - h[i].clk, false) <==> ChannelGap(s, h[i].cmd, cmd, clk - h[i].clk)
    {
      assert ValidIssue(spec, h[i]);
    }
  }

  lemma RankWindow(spec: Spec, s: Speed, id: int, h: seq<Issue>, cmd: Command, addr: seq<int>, clk: int)
    requires ThreeLevels(spec) && Ordered(spec, id, h) && cmd < COMMANDS && RankSays(s, spec.timing[1], cmd) == true
    requires 3 <= |addr|
    ensures WindowsPass(spec, h, [id, addr[1]], cmd, clk) <==> FourActivates(s, h, id, cmd, addr, clk)
  {
    if cmd == ACT {
      OneWindow(spec, h, [id, addr[1]], ACT, 1, Entry(ACT, 4, s.nFAW, false), clk);
    } else {
      NoWindow(spec, h, [id, addr[1]], cmd, clk);
    }
  }

  lemma RankLegal(spec: Spec, s: Speed, id: int, h: seq<Issue>, cmd: Command, addr: seq<int>, clk: int)
    requires ThreeLevels(spec) && Ordered(spec, id, h) && cmd < COMMANDS && RankSays(s, spec.timing[1], cmd) == true
    requires 3 <= |addr|
    ensures Legal(spec, h, [id, addr[1]], cmd, clk)
            <==> && (forall i :: 0 <= i < |h| ==> RankSpaced(s, h[i], cmd, addr, clk))
                 && FourActivates(s, h, id, cmd, addr, clk)
  {
    var path := [id, addr[1]];
    LegalIsPairs(spec, h, path, cmd, clk);
    RankWindow(spec, s, id, h, cmd, addr, clk);
    forall i | 0 <= i < |h|
      ensures Targets(h[i].addr, path) <==> SameRank(h[i].addr, addr)
      ensures Beside(h[i].addr, path) <==> !SameRank(h[i].addr, addr)
      ensures Meets(spec.timing[1][h[i].cmd], cmd, clk - h[i].clk, false) <==> RankGap(s, h[i].cmd, cmd, clk - h[i].clk)
      ensures Meets(spec.timing[1][h[i].cmd], cmd, clk - h[i].clk, true) <==> OtherRankGap(s, h[i].cmd, cmd, clk - h[i].clk)
    {
      assert ValidIssue(spec, h[i]);
      assert h[i].addr[..2] == [id, h[i].addr[1]];
      assert [id, h[i].addr[1]][1] == h[i].addr[1] && path[1] == addr[1];
    }
  }

  lemma BankLegal(spec: Spec, s: Speed, id: int, h: seq<Issue>, cmd: Command, addr: seq<int>, clk: int)
    requires ThreeLevels(spec) && Ordered(spec, id, h) && cmd < COMMANDS && BankSays(s, spec.timing[2], cmd) == true
    requires 3 <= |addr|
    ensures Legal(spec, h, [id, addr[1], addr[2]], cmd, clk)
            <==> forall i :: 0 <= i < |h| && SameBank(h[i].addr, addr) ==> BankGap(s, h[i].cmd, cmd, clk - h[i].clk)
  {
    var path := [id, addr[1], addr[2]];
    LegalIsPairs(spec, h, path, cmd, clk);
    NoWindow(spec, h, path, cmd, clk);
    forall i | 0 <= i < |h|
      ensures Targets(h[i].addr, path) <==> SameBank(h[i].addr, addr)
      ensures Meets(spec.timing[2][h[i].cmd], cmd, clk - h[i].clk, false) <==> BankGap(s, h[i].cmd, cmd, clk - h[i].clk)
      ensures Meets(spec.timing[2][h[i].cmd], cmd, clk - h[i].clk, true)
    {
      assert ValidIssue(spec, h[i]);
      var a := h[i].addr;
      assert a[..3] == [id, a[1], a[2]];
      assert [id, a[1], a[2]][1] == a[1] && [id, a[1], a[2]][2] == a[2] && path[1] == addr[1] && path[2] == addr[2];
    }
  }

  /** All the distances between an earlier command and a later one; a negative component addresses no rank or bank. */
  ghost predicate Spaced(s: Speed, e: Issue, cmd: Command, addr: seq<int>, clk: int)
    requires 3 <= |e.addr| && 3 <= |addr|
  {
    && ChannelGap(s, e.cmd, cmd, clk - e.clk)
    && (0 <= addr[1] ==> RankSpaced(s, e, cmd, addr, clk))
    && (0 <= addr[1] && 0 <= addr[2] && SameBank(e.addr, addr) ==> BankGap(s, e.cmd, cmd, clk - e.clk))
  }

  ghost predicate MaySend(s: Speed, h: seq<Issue>, id: int, cmd: Command, addr: seq<int>, clk: int)
    requires 3 <= |addr| && forall i :: 0 <= i < |h| ==> 3 <= |h[i].addr|
  {
    && (forall i :: 0 <= i < |h| ==> Spaced(s, h[i], cmd, addr, clk))
    && (0 <= addr[1] ==> FourActivates(s, h, id, cmd, addr, clk))
  }

  /** Level by level; only commands to a bank have distances to keep there. */
  lemma MaySendByLevel(s: Speed, h: seq<Issue>, id: int, cmd: Command, addr: seq<int>, clk: int)
    requires 3 <= |addr| && forall i :: 0 <= i < |h| ==> 3 <= |h[i].addr|
    ensures MaySend(s, h, id, cmd, addr, clk)
            <==> && (forall i :: 0 <= i < |h| ==> ChannelGap(s, h[i].cmd, cmd, clk - h[i].clk))
                 && (0 <= addr[1] ==> && (forall i :: 0 <= i < |h| ==> RankSpaced(s, h[i], cmd, addr, clk))
                                      && FourActivates(s, h, id, cmd, addr, clk))
                 && (0 <= addr[1] && 0 <= addr[2] && (IsAccess(cmd) || cmd == ACT || cmd == PRE) ==>
                       forall i :: 0 <= i < |h| && SameBank(h[i].addr, addr) ==> BankGap(s, h[i].cmd, cmd, clk - h[i].clk))
  {
  }

  lemma CheckByLevel(spec: Spec, s: Speed, id: int, h: seq<Issue>, cmd: Command, addr: seq<int>, clk: int)
    requires ThreeLevels(spec) && Ordered(spec, id, h) && cmd < COMMANDS && -1 <= clk
    requires spec.Addressable(addr) && addr[0] == id
    requires 1 <= spec.scope[cmd] && (2 <= spec.scope[cmd] <==> IsAccess(cmd) || cmd == ACT || cmd == PRE)
    requires ChannelSays(s, spec.timing[0], cmd) == true
    requires RankSays(s, spec.timing[1], cmd) == true
    requires BankSays(s, spec.timing[2], cmd) == true
    ensures Check(spec, Run(spec, id, h), 0, cmd, addr, clk) <==> MaySend(s, h, id, cmd, addr, clk)
  {
    CheckIsLegal(spec, id, h, cmd, addr, clk);
    ChannelLegal(spec, s, id, h, cmd, clk);
    RankLegal(spec, s, id, h, cmd, addr, clk);
    BankLegal(spec, s, id, h, cmd, addr, clk);
    MaySendByLevel(s, h, id, cmd, addr, clk);
  }

  /** After any run the check lets a command go exactly when it keeps its distances to all commands of the run. */
  lemma CheckIsSpacing(s: Speed, ranks: nat, banks: nat, id: int, h: seq<Issue>, cmd: Command, addr: seq<int>, clk: int)
    requires Ordered(Ddr3(s, ranks, banks), id, h) && cmd < COMMANDS && -1 <= clk
    requires Ddr3(s, ranks, banks).Addressable(addr) && addr[0] == id
    ensures Check(Ddr3(s, ranks, banks), Run(Ddr3(s, ranks, banks), id, h), 0, cmd, addr, clk)
            <==> MaySend(s, h, id, cmd, addr, clk)
  {
    ChannelTableSays(s, cmd);
    RankTableSays(s, cmd);
    BankTableSays(s, cmd);
    CheckByLevel(Ddr3(s, ranks, banks), s, id, h, cmd, addr, clk);
  }

  /** A run whose every command keeps its distances. */
  ghost predicate WellSpaced(s: Speed, id: int, h: seq<Issue>)
    requires forall i :: 0 <= i < |h| ==> 3 <= |h[i].addr|
  {
    && (forall i, j :: 0 <= i < j < |h| ==> Spaced(s, h[i], h[j].cmd, h[j].addr, h[j].clk))
    && (forall j :: 0 <= j < |h| && 0 <= h[j].addr[1] ==> FourActivates(s, h[..j], id, h[j].cmd, h[j].addr, h[j].clk))
  }

  lemma SpacedByPrefix(s: Speed, id: int, h: seq<Issue>)
    requires forall i :: 0 <= i < |h| ==> 3 <= |h[i].addr|
    ensures WellSpaced(s, id, h)
            <==> forall j :: 0 <= j < |h| ==> MaySend(s, h[..j], id, h[j].cmd, h[j].addr, h[j].clk)
  {
    if forall j :: 0 <= j < |h| ==> MaySend(s, h[..j], id, h[j].cmd, h[j].addr, h[j].clk) {
      forall i, j | 0 <= i < j < |h|
        ensures Spaced(s, h[i], h[j].cmd, h[j].addr, h[j].clk)
      {
        assert h[..j][i] == h[i];
      }
    }
  }

  /** Among the runs of a channel with clocks in order, the guarded ones are exactly the well spaced ones. */
  lemma GuardedIsSpaced(s: Speed, ranks: nat, banks: nat, id: int, h: seq<Issue>)
    requires Ordered(Ddr3(s, ranks, banks), id, h)
    ensures Guarded(Ddr3(s, ranks, banks), id, h) <==> WellSpaced(s, id, h)
  {
    var spec := Ddr3(s, ranks, banks);
    forall j | 0 <= j < |h|
      ensures Ready(spec, id, h, j) <==> MaySend(s, h[..j], id, h[j].cmd, h[j].addr, h[j].clk)
    {
      assert ValidIssue(spec, h[j]);
      CheckIsSpacing(s, ranks, banks, id, h[..j], h[j].cmd, h[j].addr, h[j].clk);
    }
    SpacedByPrefix(s, id, h);
  }
}

/** The distances of HMC: a vault keeps those of a channel with one rank, and bank groups add their own. */
module HmcRules {
  import opened Commands
  import opened Timing
  import opened TimingRuns
  import opened TimingRules
  import opened Ddr3Timing
  import opened Ddr3Rules
  import opened HmcTiming

  /** What the two standards share: across bank groups the short (S) distances stand for the ones of a rank. */
  function Shared(s: VaultSpeed): Speed {
    Speed(s.nBL, s.nCCDS, 0, s.nCL, s.nRCD, s.nRP, s.nCWL, s.nRAS, s.nRC,
          s.nRTP, s.nWTRS, s.nWR, s.nRRDS, s.nFAW, s.nRFC, s.nPD, s.nXP, s.nCKESR, s.nXS)
  }

  predicate VaultGap(s: VaultSpeed, a: Command, b: Command, gap: int) {
    ChannelGap(Shared(s), a, b, gap) && RankGap(Shared(s), a, b, gap)
  }

  /** Within a bank group activates, accesses and the turn from writing to reading take longer. */
  predicate GroupGap(s: VaultSpeed, a: Command, b: Command, gap: int) {
    && (a == ACT && b == ACT ==> s.nRRDL <= gap)
    && (IsRead(a) && IsRead(b) ==> s.nCCDL <= gap)
    && (IsWrite(a) && IsWrite(b) ==> s.nCCDL <= gap)
    && (IsWrite(a) && IsRead(b) ==> s.nCWL + s.nBL + s.nWTRL <= gap)
  }

  lemma VaultAccessMeets(s: VaultSpeed, a: Command, b: Command, gap: int)
    requires IsAccess(a) && b < COMMANDS
    ensures Meets(VaultTable(s)[a], b, gap, false) <==> VaultGap(s, a, b, gap)
    ensures Meets(VaultTable(s)[a], b, gap, true)
  {
    MeetsEach(VaultTable(s)[a], b, gap, false);
  }

  lemma VaultRowMeets(s: VaultSpeed, a: Command, b: Command, gap: int)
    requires a < COMMANDS && !IsAccess(a) && b < COMMANDS
    ensures Meets(VaultTable(s)[a], b, gap, false) <==> VaultGap(s, a, b, gap)
    ensures Meets(VaultTable(s)[a], b, gap, true)
  {
    MeetsEach(VaultTable(s)[a], b, gap, false);
  }

  lemma VaultMeets(s: VaultSpeed, a: Command, b: Command, gap: int)
    requires a < COMMANDS && b < COMMANDS
    ensures Meets(VaultTable(s)[a], b, gap, false) <==> VaultGap(s, a, b, gap)
    ensures Meets(VaultTable(s)[a], b, gap, true)
  {
    if IsAccess(a) {
      VaultAccessMeets(s, a, b, gap);
    } else {
      VaultRowMeets(s, a, b, gap);
    }
  }

  lemma GroupMeets(s: VaultSpeed, a: Command, b: Command, gap: int)
    requires a < COMMANDS && b < COMMANDS
    ensures Meets(GroupTable(s)[a], b, gap, false) <==> GroupGap(s, a, b, gap)
    ensures Meets(GroupTable(s)[a], b, gap, true)
  {
    MeetsEach(GroupTable(s)[a], b, gap, false);
  }

  lemma HmcBankMeets(s: VaultSpeed, a: Command, b: Command, gap: int)
    requires a < COMMANDS && b < COMMANDS
    ensures Meets(HmcBankTable(s)[a], b, gap, false) <==> BankGap(Shared(s), a, b, gap)
    ensures Meets(HmcBankTable(s)[a], b, gap, true)
  {
    MeetsEach(HmcBankTable(s)[a], b, gap, false);
  }

  /** The fourth most recent activate of the vault is nFAW clocks back. */
  ghost predicate VaultActivates(s: VaultSpeed, h: seq<Issue>, id: int, cmd: Command, clk: int) {
    cmd == ACT ==>
      var acts := Times(h, [id], ACT);
      4 <= |acts| ==> acts[3] + s.nFAW <= clk
  }

  ghost predicate VaultSays(s: VaultSpeed, table: seq<seq<Entry>>, cmd: Command) {
    && |table| == COMMANDS
    && (if cmd == ACT then OnlyWindow(table, ACT, Entry(ACT, 4, s.nFAW, false)) else Shallow(table, cmd))
    && 1 < |table[ACT]| && table[ACT][1] == Entry(ACT, 4, s.nFAW, false)
    && forall a, gap :: 0 <= a < COMMANDS ==> (Meets(table[a], cmd, gap, false) <==> VaultGap(s, a, cmd, gap))
  }

  ghost predicate GroupSays(s: VaultSpeed, table: seq<seq<Entry>>, cmd: Command) {
    && |table| == COMMANDS && Shallow(table, cmd)
    && (forall a, gap :: 0 <= a < COMMANDS ==> (Meets(table[a], cmd, gap, false) <==> GroupGap(s, a, cmd, gap)))
    && (forall a, gap :: 0 <= a < COMMANDS ==> Meets(table[a], cmd, gap, true))
  }

  lemma VaultTableSays(s: VaultSpeed, cmd: Command)
    requires cmd < COMMANDS
    ensures VaultSays(s, VaultTable(s), cmd) == true
  {
    forall a, gap | 0 <= a < COMMANDS
      ensures Meets(VaultTable(s)[a], cmd, gap, false) <==> VaultGap(s, a, cmd, gap)
    {
      VaultMeets(s, a, cmd, gap);
    }
  }

  lemma GroupTableSays(s: VaultSpeed, cmd: Command)
    requires cmd < COMMANDS
    ensures GroupSays(s, GroupTable(s), cmd) == true
  {
    forall a, gap | 0 <= a < COMMANDS
      ensures Meets(GroupTable(s)[a], cmd, gap, false) <==> GroupGap(s, a, cmd, gap)
      ensures Meets(GroupTable(s)[a], cmd, gap, true)
    {
      GroupMeets(s, a, cmd, gap);
    }
  }

  lemma HmcBankTableSays(s: VaultSpeed, cmd: Command)
    requires cmd < COMMANDS
    ensures BankSays(Shared(s), HmcBankTable(s), cmd) == true
  {
    forall a, gap | 0 <= a < COMMANDS
      ensures Meets(HmcBankTable(s)[a], cmd, gap, false) <==> BankGap(Shared(s), a, cmd, gap)
      ensures Meets(HmcBankTable(s)[a], cmd, gap, true)
    {
      HmcBankMeets(s, a, cmd, gap);
    }
  }

  lemma VaultLegal(spec: Spec, s: VaultSpeed, id: int, h: seq<Issue>, cmd: Command, clk: int)
    requires ThreeLevels(spec) && Ordered(spec, id, h) && cmd < COMMANDS && VaultSays(s, spec.timing[0], cmd) == true
    ensures Legal(spec, h, [id], cmd, clk)
            <==> && (forall i :: 0 <= i < |h| ==> VaultGap(s, h[i].cmd, cmd, clk - h[i].clk))
                 && VaultActivates(s, h, id, cmd, clk)
  {
    LegalIsPairs(spec, h, [id], cmd, clk);
    if cmd == ACT {
      OneWindow(spec, h, [id], ACT, 1, Entry(ACT, 4, s.nFAW, false), clk);
    } else {
      NoWindow(spec, h, [id], cmd, clk);
    }
    forall i | 0 <= i < |h|
      ensures Targets(h[i].addr, [id]) && !Beside(h[i].addr, [id])
      ensures Meets(spec.timing[0][h[i].cmd], cmd, clk - h[i].clk, false) <==> VaultGap(s, h[i].cmd, cmd, clk - h[i].clk)
    {
      assert ValidIssue(spec, h[i]);
    }
  }

  /** The second component of an address vector is the bank group here. */
  predicate SameGroup(a: seq<int>, b: seq<int>)
    requires 2 <= |a| && 2 <= |b|
  {
    a[1] == b[1]
  }

  lemma GroupLegal(spec: Spec, s: VaultSpeed, id: int, h: seq<Issue>, cmd: Command, addr: seq<int>, clk: int)
    requires ThreeLevels(spec) && Ordered(spec, id, h) && cmd < COMMANDS && GroupSays(s, spec.timing[1], cmd) == true
    requires 3 <= |addr|
    ensures Legal(spec, h, [id, addr[1]], cmd, clk)
            <==> forall i :: 0 <= i < |h| && SameGroup(h[i].addr, addr) ==> GroupGap(s, h[i].cmd, cmd, clk - h[i].clk)
  {
    var path := [id, addr[1]];
    LegalIsPairs(spec, h, path, cmd, clk);
    NoWindow(spec, h, path, cmd, clk);
    forall i | 0 <= i < |h|
      ensures Targets(h[i].addr, path) <==> SameGroup(h[i].addr, addr)
      ensures Meets(spec.timing[1][h[i].cmd], cmd, clk - h[i].clk, false) <==> GroupGap(s, h[i].cmd, cmd, clk - h[i].clk)
      ensures Meets(spec.timing[1][h[i].cmd], cmd, clk - h[i].clk, true)
    {
      assert ValidIssue(spec, h[i]);
      assert h[i].addr[..2] == [id, h[i].addr[1]];
      assert [id, h[i].addr[1]][1] == h[i].addr[1] && path[1] == addr[1];
    }
  }

  /** All the distances between an earlier command and a later one of the vault. */
  ghost predicate VaultSpaced(s: VaultSpeed, e: Issue, cmd: Command, addr: seq<int>, clk: int)
    requires 3 <= |e.addr| && 3 <= |addr|
  {
    && VaultGap(s, e.cmd, cmd, clk - e.clk)
    && (0 <= addr[1] && SameGroup(e.addr, addr) ==> GroupGap(s, e.cmd, cmd, clk - e.clk))
    && (0 <= addr[1] && 0 <= addr[2] && SameBank(e.addr, addr) ==> BankGap(Shared(s), e.cmd, cmd, clk - e.clk))
  }

  ghost predicate VaultMaySend(s: VaultSpeed, h: seq<Issue>, id: int, cmd: Command, addr: seq<int>, clk: int)
    requires 3 <= |addr| && forall i :: 0 <= i < |h| ==> 3 <= |h[i].addr|
  {
    && (forall i :: 0 <= i < |h| ==> VaultSpaced(s, h[i], cmd, addr, clk))
    && VaultActivates(s, h, id, cmd, clk)
  }

  /** Level by level; only commands to a bank have distances to keep below the vault. */
  lemma VaultMaySendByLevel(s: VaultSpeed, h: seq<Issue>, id: int, cmd: Command, addr: seq<int>, clk: int)
    requires 3 <= |addr| && forall i :: 0 <= i < |h| ==> 3 <= |h[i].addr|
    ensures var deep := IsAccess(cmd) || cmd == ACT || cmd == PRE;
            VaultMaySend(s, h, id, cmd, addr, clk)
            <==> && (forall i :: 0 <= i < |h| ==> VaultGap(s, h[i].cmd, cmd, clk - h[i].clk))
                 && VaultActivates(s, h, id, cmd, clk)
                 && (deep && 0 <= addr[1] ==>
                       forall i :: 0 <= i < |h| && SameGroup(h[i].addr, addr) ==> GroupGap(s, h[i].cmd, cmd, clk - h[i].clk))
                 && (deep && 0 <= addr[1] && 0 <= addr[2] ==>
                       forall i :: 0 <= i < |h| && SameBank(h[i].addr, addr)
                         ==> BankGap(Shared(s), h[i].cmd, cmd, clk - h[i].clk))
  {
  }

  lemma VaultCheckByLevel(spec: Spec, s: VaultSpeed, id: int, h: seq<Issue>, cmd: Command, addr: seq<int>, clk: int)
    requires ThreeLevels(spec) && Ordered(spec, id, h) && cmd < COMMANDS && -1 <= clk
    requires spec.Addressable(addr) && addr[0] == id
    requires if IsAccess(cmd) || cmd == ACT || cmd == PRE then 2 <= spec.scope[cmd] else spec.scope[cmd] == 0
    requires VaultSays(s, spec.timing[0], cmd) == true
    requires GroupSays(s, spec.timing[1], cmd) == true
    requires BankSays(Shared(s), spec.timing[2], cmd) == true
    ensures Check(spec, Run(spec, id, h), 0, cmd, addr, clk) <==> VaultMaySend(s, h, id, cmd, addr, clk)
  {
    CheckIsLegal(spec, id, h, cmd, addr, clk);
    VaultLegal(spec, s, id, h, cmd, clk);
    GroupLegal(spec, s, id, h, cmd, addr, clk);
    BankLegal(spec, Shared(s), id, h, cmd, addr, clk);
    VaultMaySendByLevel(s, h, id, cmd, addr, clk);
  }

  /** After any run the vault's check lets a command go exactly when it keeps its distances to all commands of the run. */
  lemma VaultCheckIsSpacing(s: VaultSpeed, groups: nat, banks: nat, id: int, h: seq<Issue>,
                            cmd: Command, addr: seq<int>, clk: int)
    requires Ordered(Hmc(s, groups, banks), id, h) && cmd < COMMANDS && -1 <= clk
    requires Hmc(s, groups, banks).Addressable(addr) && addr[0] == id
    ensures Check(Hmc(s, groups, banks), Run(Hmc(s, groups, banks), id, h), 0, cmd, addr, clk)
            <==> VaultMaySend(s, h, id, cmd, addr, clk)
  {
    VaultTableSays(s, cmd);
    GroupTableSays(s, cmd);
    HmcBankTableSays(s, cmd);
    VaultCheckByLevel(Hmc(s, groups, banks), s, id, h, cmd, addr, clk);
  }

  ghost predicate VaultWellSpaced(s: VaultSpeed, id: int, h: seq<Issue>)
    requires forall i :: 0 <= i < |h| ==> 3 <= |h[i].addr|
  {
    && (forall i, j :: 0 <= i < j < |h| ==> VaultSpaced(s, h[i], h[j].cmd, h[j].addr, h[j].clk))
    && (forall j :: 0 <= j < |h| ==> VaultActivates(s, h[..j], id, h[j].cmd, h[j].clk))
  }

  lemma VaultSpacedByPrefix(s: VaultSpeed, id: int, h: seq<Issue>)
    requires forall i :: 0 <= i < |h| ==> 3 <= |h[i].addr|
    ensures VaultWellSpaced(s, id, h)
            <==> forall j :: 0 <= j < |h| ==> VaultMaySend(s, h[..j], id, h[j].cmd, h[j].addr, h[j].clk)
  {
    if forall j :: 0 <= j < |h| ==> VaultMaySend(s, h[..j], id, h[j].cmd, h[j].addr, h[j].clk) {
      forall i, j | 0 <= i < j < |h|
        ensures VaultSpaced(s, h[i], h[j].cmd, h[j].addr, h[j].clk)
      {
        assert h[..j][i] == h[i];
      }
    }
  }

  /** Among the runs of a vault with clocks in order, the guarded ones are exactly the well spaced ones. */
  lemma VaultGuardedIsSpaced(s: VaultSpeed, groups: nat, banks: nat, id: int, h: seq<Issue>)
    requires Ordered(Hmc(s, groups, banks), id, h)
    ensures Guarded(Hmc(s, groups, banks), id, h) <==> VaultWellSpaced(s, id, h)
  {
    var spec := Hmc(s, groups, banks);
    forall j | 0 <= j < |h|
      ensures Ready(spec, id, h, j) <==> VaultMaySend(s, h[..j], id, h[j].cmd, h[j].addr, h[j].clk)
    {
      assert ValidIssue(spec, h[j]);
      VaultCheckIsSpacing(s, groups, banks, id, h[..j], h[j].cmd, h[j].addr, h[j].clk);
    }
    VaultSpacedByPrefix(s, id, h);
  }
}
