/** The command numbers shared by the DDR3 and the HMC standard. */
module Commands {
  const ACT := 0
  const PRE := 1
  const PREA := 2
  const RD := 3
  const WR := 4
  const RDA := 5
  const WRA := 6
  const REF := 7
  const PDE := 8
  const PDX := 9
  const SRE := 10
  const SRX := 11
  const COMMANDS := 12
}

/** The DDR3 timing table, for an arbitrary speed grade, and what it means for guarded runs. */
module Ddr3Timing {
  import opened Basics
  import opened Commands
  import opened Timing
  import opened TimingRuns

  datatype Speed = Speed(
    nBL: int, nCCD: int, nRTRS: int, nCL: int, nRCD: int, nRP: int, nCWL: int, nRAS: int, nRC: int,
    nRTP: int, nWTR: int, nWR: int, nRRD: int, nFAW: int, nRFC: int, nPD: int, nXP: int, nCKESR: int, nXS: int)

  function Own(cmd: Command, val: int): Entry { Entry(cmd, 1, val, false) }

  function Sibling(cmd: Command, val: int): Entry { Entry(cmd, 1, val, true) }

  function ChannelTable(s: Speed): (t: seq<seq<Entry>>) {
    [ [], [], [],
      [Own(RD, s.nBL), Own(RDA, s.nBL)],
      [Own(WR, s.nBL), Own(WRA, s.nBL)],
      [Own(RD, s.nBL), Own(RDA, s.nBL)],
      [Own(WR, s.nBL), Own(WRA, s.nBL)],
      [], [], [], [], [] ]
  }

  function ReadToOtherRank(s: Speed): (es: seq<Entry>) {
    [Sibling(RD, s.nBL + s.nRTRS), Sibling(RDA, s.nBL + s.nRTRS), Sibling(WR, s.nBL + s.nRTRS), Sibling(WRA, s.nBL + s.nRTRS),
     Sibling(WR, s.nCL + s.nBL + s.nRTRS - s.nCWL), Sibling(WRA, s.nCL + s.nBL + s.nRTRS - s.nCWL)]
  }

  function ReadToSameRank(s: Speed): (es: seq<Entry>) {
    [Own(RD, s.nCCD), Own(RDA, s.nCCD), Own(WR, s.nCL + s.nCCD + 2 - s.nCWL), Own(WRA, s.nCL + s.nCCD + 2 - s.nCWL)]
  }

  function WriteToRanks(s: Speed): (es: seq<Entry>) {
    [Own(WR, s.nCCD), Own(WRA, s.nCCD), Own(RD, s.nCWL + s.nBL + s.nWTR), Own(RDA, s.nCWL + s.nBL + s.nWTR),
     Sibling(RD, s.nCWL + s.nBL + s.nRTRS - s.nCL), Sibling(RDA, s.nCWL + s.nBL + s.nRTRS - s.nCL)]
  }

  function RankTable(s: Speed): (t: seq<seq<Entry>>) {
    [ [Own(ACT, s.nRRD), Entry(ACT, 4, s.nFAW, false), Own(PREA, s.nRAS), Own(PDE, 1)],
      [Own(REF, s.nRP), Own(SRE, s.nRP)],
      [Own(ACT, s.nRP), Own(REF, s.nRP), Own(SRE, s.nRP)],
      ReadToSameRank(s) + ReadToOtherRank(s) + [Own(PREA, s.nRTP), Own(PDE, s.nCL + s.nBL + 1)],
      WriteToRanks(s) + [Own(PREA, s.nCWL + s.nBL + s.nWR), Own(PDE, s.nCWL + s.nBL + s.nWR)],
      ReadToSameRank(s) + ReadToOtherRank(s) + [Own(PDE, s.nCL + s.nBL + 1)],
      WriteToRanks(s) + [Own(PDE, s.nCWL + s.nBL + s.nWR + 1)],
      [Own(ACT, s.nRFC), Own(REF, s.nRFC), Own(PDE, 1)],
      [Own(PDX, s.nPD)],
      [Own(RD, s.nXP), Own(RDA, s.nXP), Own(WR, s.nXP), Own(WRA, s.nXP), Own(ACT, s.nXP),
       Own(PRE, s.nXP), Own(PREA, s.nXP), Own(REF, s.nXP), Own(PDE, s.nXP), Own(SRE, s.nXP)],
      [Own(SRX, s.nCKESR)],
      [Own(ACT, s.nXS), Own(REF, s.nXS), Own(PDE, s.nXS), Own(SRE, s.nXS)] ]
  }

  function BankTable(s: Speed): (t: seq<seq<Entry>>) {
    [ [Own(RD, s.nRCD), Own(RDA, s.nRCD), Own(WR, s.nRCD), Own(WRA, s.nRCD), Own(ACT, s.nRC), Own(PRE, s.nRAS)],
      [Own(ACT, s.nRP)],
      [],
      [Own(PRE, s.nRTP)],
      [Own(PRE, s.nCWL + s.nBL + s.nWR)],
      [Own(ACT, s.nRTP + s.nRP)],
      [Own(ACT, s.nCWL + s.nBL + s.nWR + s.nRP)],
      [], [], [], [], [] ]
  }

  /** Levels channel, rank, bank; scopes row (3), bank (2), rank (1) and column (4). */
  function Ddr3(s: Speed, ranks: nat, banks: nat): (spec: Spec)
    ensures spec.Valid()
  {
    Spec(COMMANDS, 3, [ChannelTable(s), RankTable(s), BankTable(s)],
         [3, 2, 1, 4, 4, 4, 4, 1, 1, 1, 1, 1], [1, ranks, banks])
  }

  /** One command of a run, to a rank (or to a bank, or a row) of the channel. */
  ghost predicate Sent(spec: Spec, h: seq<Issue>, i: nat, cmd: Command, path: seq<int>)
    requires spec.Valid()
  {
    i < |h| && ValidIssue(spec, h[i]) && h[i].cmd == cmd && Targets(h[i].addr, path)
  }

  /** A stretch of a run counts each occurrence it starts with. */
  lemma CountFrom(h: seq<Issue>, i: nat, j: nat, k: nat, path: seq<int>, cmd: Command)
    requires i < j <= k <= |h| && h[i].cmd == cmd && Targets(h[i].addr, path)
    ensures |Times(h[i..k], path, cmd)| >= 1 + |Times(h[j..k], path, cmd)|
  {
    var w := h[i..k];
    TimesSplit(w, j - i, path, cmd);
    assert w[j - i..] == h[j..k];
    TimesSplit(w[..j - i], 1, path, cmd);
    assert w[0] == h[i];
    assert w[..j - i][..1] == [h[i]];
    assert Times([h[i]], path, cmd) == [h[i].clk];
  }

  /** `at` lists five positions of the run, in order, each an activate through `path`. */
  ghost predicate FiveActivates(spec: Spec, h: seq<Issue>, path: seq<int>, at: seq<nat>)
    requires spec.Valid()
  {
    && |at| == 5 && at[0] < at[1] < at[2] < at[3] < at[4] < |h|
    && forall m :: 0 <= m < 5 ==> Sent(spec, h, at[m], ACT, path)
  }

  lemma FiveActivatesCount(spec: Spec, h: seq<Issue>, path: seq<int>, at: seq<nat>)
    requires spec.Valid() && FiveActivates(spec, h, path, at)
    ensures 4 <= |Times(h[at[0]..at[4]], path, ACT)|
  {
    CountFrom(h, at[3], at[4], at[4], path, ACT);
    CountFrom(h, at[2], at[3], at[4], path, ACT);
    CountFrom(h, at[1], at[2], at[4], path, ACT);
    CountFrom(h, at[0], at[1], at[4], path, ACT);
  }

  /** Any five activates of one rank span at least nFAW clocks. */
  lemma FourActivateWindow(s: Speed, ranks: nat, banks: nat, id: int, h: seq<Issue>, rank: nat, at: seq<nat>)
    requires Guarded(Ddr3(s, ranks, banks), id, h) && FiveActivates(Ddr3(s, ranks, banks), h, [id, rank], at)
    ensures h[at[0]].clk + s.nFAW <= h[at[4]].clk
  {
    var path := [id, rank];
    FiveActivatesCount(Ddr3(s, ranks, banks), h, path, at);
    assert h[at[4]].addr[1] == path[1];
    WindowRule(Ddr3(s, ranks, banks), id, h, path, Entry(ACT, 4, s.nFAW, false), 1, at[0], at[4]);
  }

  /** Instances of the pair rule at the bank. */
  lemma BankPair(s: Speed, ranks: nat, banks: nat, id: int, h: seq<Issue>, rank: nat, bank: nat,
                 cause: Command, k: nat, i: nat, j: nat)
    requires Guarded(Ddr3(s, ranks, banks), id, h) && i < j && cause < COMMANDS && k < |BankTable(s)[cause]|
    requires BankTable(s)[cause][k].cmd in {ACT, PRE, RD, WR}
    requires Sent(Ddr3(s, ranks, banks), h, i, cause, [id, rank, bank])
    requires Sent(Ddr3(s, ranks, banks), h, j, BankTable(s)[cause][k].cmd, [id, rank, bank])
    ensures h[i].clk + BankTable(s)[cause][k].val <= h[j].clk
  {
    var path := [id, rank, bank];
    assert h[j].addr[1] == path[1] && h[j].addr[2] == path[2];
    PairRule(Ddr3(s, ranks, banks), id, h, path, BankTable(s)[cause][k], k, i, j);
  }

  /** A whole row cycle of a bank - precharge, activate, read, precharge - respects all four of its waits together. */
  lemma RowCycle(s: Speed, ranks: nat, banks: nat, id: int, h: seq<Issue>, rank: nat, bank: nat, i: nat, j: nat, k: nat, l: nat)
    requires Guarded(Ddr3(s, ranks, banks), id, h) && i < j < k < l
    requires Sent(Ddr3(s, ranks, banks), h, i, PRE, [id, rank, bank])
    requires Sent(Ddr3(s, ranks, banks), h, j, ACT, [id, rank, bank])
    requires Sent(Ddr3(s, ranks, banks), h, k, RD, [id, rank, bank])
    requires Sent(Ddr3(s, ranks, banks), h, l, PRE, [id, rank, bank])
    ensures h[i].clk + s.nRP + s.nRCD <= h[k].clk
    ensures h[i].clk + s.nRP + Max(s.nRAS, s.nRCD + s.nRTP) <= h[l].clk
  {
    BankPair(s, ranks, banks, id, h, rank, bank, PRE, 0, i, j);
    BankPair(s, ranks, banks, id, h, rank, bank, ACT, 0, j, k);
    BankPair(s, ranks, banks, id, h, rank, bank, RD, 0, k, l);
    BankPair(s, ranks, banks, id, h, rank, bank, ACT, 5, j, l);
  }

  /** A read on one rank waits for a write on another one: the data bus has to turn around. */
  lemma RankTurnaround(s: Speed, ranks: nat, banks: nat, id: int, h: seq<Issue>, from: nat, to: nat, i: nat, j: nat)
    requires Guarded(Ddr3(s, ranks, banks), id, h) && i < j && from != to
    requires Sent(Ddr3(s, ranks, banks), h, i, WR, [id, from])
    requires Sent(Ddr3(s, ranks, banks), h, j, RD, [id, to])
    ensures h[i].clk + s.nCWL + s.nBL + s.nRTRS - s.nCL <= h[j].clk
  {
    var path := [id, to];
    assert h[i].addr[..2] == [id, from] && h[j].addr[..2] == path;
    assert h[i].addr[..1] == [id] && h[i].addr[1] == [id, from][1] && h[j].addr[1] == path[1];
    assert Beside(h[i].addr, path);
    SiblingRule(Ddr3(s, ranks, banks), id, h, path, Sibling(RD, s.nCWL + s.nBL + s.nRTRS - s.nCL), 4, i, j);
  }
}

/** The HMC timing table: vault, bank group and bank; there is no rank level. */
module HmcTiming {
  import opened Commands
  import opened Timing
  import opened TimingRuns
  import opened Ddr3Timing

  datatype VaultSpeed = VaultSpeed(
    nBL: int, nCCDS: int, nCCDL: int, nCL: int, nRCD: int, nRP: int, nCWL: int, nRAS: int, nRC: int,
    nRTP: int, nWTRS: int, nWTRL: int, nWR: int, nRRDS: int, nRRDL: int, nFAW: int, nRFC: int,
    nPD: int, nXP: int, nCKESR: int, nXS: int)

  function ReadInVault(s: VaultSpeed): (es: seq<Entry>) {
    [Own(RD, s.nBL), Own(RDA, s.nBL), Own(RD, s.nCCDS), Own(RDA, s.nCCDS),
     Own(WR, s.nCL + s.nCCDS + 2 - s.nCWL), Own(WRA, s.nCL + s.nCCDS + 2 - s.nCWL)]
  }

  function WriteInVault(s: VaultSpeed): (es: seq<Entry>) {
    [Own(WR, s.nBL), Own(WRA, s.nBL), Own(WR, s.nCCDS), Own(WRA, s.nCCDS),
     Own(RD, s.nCWL + s.nBL + s.nWTRS), Own(RDA, s.nCWL + s.nBL + s.nWTRS)]
  }

  function VaultTable(s: VaultSpeed): (t: seq<seq<Entry>>) {
    [ [Own(ACT, s.nRRDS), Entry(ACT, 4, s.nFAW, false), Own(PREA, s.nRAS), Own(PDE, 1)],
      [Own(REF, s.nRP), Own(SRE, s.nRP)],
      [Own(ACT, s.nRP), Own(REF, s.nRP), Own(SRE, s.nRP)],
      ReadInVault(s) + [Own(PREA, s.nRTP), Own(PDE, s.nCL + s.nBL + 1)],
      WriteInVault(s) + [Own(PREA, s.nCWL + s.nBL + s.nWR), Own(PDE, s.nCWL + s.nBL + s.nWR)],
      ReadInVault(s) + [Own(PDE, s.nCL + s.nBL + 1)],
      WriteInVault(s) + [Own(PDE, s.nCWL + s.nBL + s.nWR + 1)],
      [Own(ACT, s.nRFC), Own(REF, s.nRFC), Own(PDE, 1)],
      [Own(PDX, s.nPD)],
      [Own(RD, s.nXP), Own(RDA, s.nXP), Own(WR, s.nXP), Own(WRA, s.nXP), Own(ACT, s.nXP),
       Own(PRE, s.nXP), Own(PREA, s.nXP), Own(REF, s.nXP), Own(PDE, s.nXP), Own(SRE, s.nXP)],
      [Own(SRX, s.nCKESR)],
      [Own(ACT, s.nXS), Own(REF, s.nXS), Own(PDE, s.nXS), Own(SRE, s.nXS)] ]
  }

  function ReadInGroup(s: VaultSpeed): (es: seq<Entry>) {
    [Own(RD, s.nCCDL), Own(RDA, s.nCCDL)]
  }

  function WriteInGroup(s: VaultSpeed): (es: seq<Entry>) {
    [Own(WR, s.nCCDL), Own(WRA, s.nCCDL), Own(RD, s.nCWL + s.nBL + s.nWTRL), Own(RDA, s.nCWL + s.nBL + s.nWTRL)]
  }

  function GroupTable(s: VaultSpeed): (t: seq<seq<Entry>>) {
    [ [Own(ACT, s.nRRDL)], [], [],
      ReadInGroup(s), WriteInGroup(s), ReadInGroup(s), WriteInGroup(s),
      [], [], [], [], [] ]
  }

  function HmcBankTable(s: VaultSpeed): (t: seq<seq<Entry>>) {
    [ [Own(RD, s.nRCD), Own(RDA, s.nRCD), Own(WR, s.nRCD), Own(WRA, s.nRCD), Own(ACT, s.nRC), Own(PRE, s.nRAS)],
      [Own(ACT, s.nRP)],
      [],
      [Own(PRE, s.nRTP)],
      [Own(PRE, s.nCWL + s.nBL + s.nWR)],
      [Own(ACT, s.nRTP + s.nRP)],
      [Own(ACT, s.nCWL + s.nBL + s.nWR + s.nRP)],
      [], [], [], [], [] ]
  }

  /** Levels vault, bank group, bank; what DDR3 scopes to the rank is scoped to the vault (0). */
  function Hmc(s: VaultSpeed, groups: nat, banks: nat): (spec: Spec)
    ensures spec.Valid()
  {
    Spec(COMMANDS, 3, [VaultTable(s), GroupTable(s), HmcBankTable(s)],
         [3, 2, 0, 4, 4, 4, 4, 0, 0, 0, 0, 0], [1, groups, banks])
  }

  /** Any five activates of one vault span at least nFAW clocks. */
  lemma VaultActivateWindow(s: VaultSpeed, groups: nat, banks: nat, id: int, h: seq<Issue>, at: seq<nat>)
    requires Guarded(Hmc(s, groups, banks), id, h) && FiveActivates(Hmc(s, groups, banks), h, [id], at)
    ensures h[at[0]].clk + s.nFAW <= h[at[4]].clk
  {
    FiveActivatesCount(Hmc(s, groups, banks), h, [id], at);
    WindowRule(Hmc(s, groups, banks), id, h, [id], Entry(ACT, 4, s.nFAW, false), 1, at[0], at[4]);
  }

  /** Reads after a write wait nWTRS within the vault and the longer nWTRL within the bank group. */
  lemma WriteToRead(s: VaultSpeed, groups: nat, banks: nat, id: int, h: seq<Issue>, group: nat, other: nat, i: nat, j: nat)
    requires Guarded(Hmc(s, groups, banks), id, h) && i < j
    requires Sent(Hmc(s, groups, banks), h, i, WR, [id, group])
    requires Sent(Hmc(s, groups, banks), h, j, RD, [id, other])
    ensures h[i].clk + s.nCWL + s.nBL + s.nWTRS <= h[j].clk
    ensures group == other ==> h[i].clk + s.nCWL + s.nBL + s.nWTRL <= h[j].clk
  {
    var spec := Hmc(s, groups, banks);
    assert h[i].addr[..1] == [id] by { assert h[i].addr[..1] == h[i].addr[..2][..1]; }
    assert h[j].addr[..1] == [id] by { assert h[j].addr[..1] == h[j].addr[..2][..1]; }
    assert h[j].addr[1] == h[j].addr[..2][1];
    PairRule(spec, id, h, [id], Own(RD, s.nCWL + s.nBL + s.nWTRS), 4, i, j);
    if group == other {
      PairRule(spec, id, h, [id, group], Own(RD, s.nCWL + s.nBL + s.nWTRL), 2, i, j);
    }
  }
}
