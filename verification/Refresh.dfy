/**
 Refresh scheduling of DSARP: per-bank refreshes that may be postponed or pulled in within
 a credit of eight, with one schedule slot per interval going round the banks.
 */
module Refresh {
  import opened Arith

  const BACKLOG_MAX: int := 8
  const BACKLOG_MIN: int := -8
  const EARLY_PULL: int := -6
  const OTHERQ_MAX: nat := 32

  /** `outOfOrder` for DARP and DSARP; `rankLevel` when whole ranks are refreshed. */
  datatype Config = Config(ranks: nat, banks: nat, subarrays: nat, interval: nat, outOfOrder: bool, rankLevel: bool) {
    /** The subarray counters of a rank are indexed by bank, so there have to be enough of them. */
    predicate Ok() {
      1 <= banks <= subarrays && 1 <= interval
    }
  }

  /** A bank's credit and the subarray it refreshes next. */
  datatype Bank = Bank(backlog: int, next: nat)

  /** What waits in the controller's queue for other requests. */
  datatype Other = Target(rank: nat, bank: int, sa: int) | Else

  /** Where a queued read or write goes. */
  datatype Place = Place(rank: nat, bank: nat)

  // ----- the schedule -----

  /** How many of the first `n` schedule slots belong to bank `b`. */
  function Slots(n: nat, b: nat, banks: nat): (k: nat)
    requires b < banks
  {
    if n == 0 then 0 else Slots(n - 1, b, banks) + if (n - 1) % banks == b then 1 else 0
  }

  /** The slots go round: after `q` full rounds and `m` more slots, each bank had `q`, and the first `m` one more. */
  lemma {:induction false} SlotsGoRound(q: nat, m: nat, b: nat, banks: nat)
    requires b < banks && m <= banks
    ensures Slots(q * banks + m, b, banks) == q + if b < m then 1 else 0
    decreases q, m
  {
    if m > 0 {
      SlotsGoRound(q, m - 1, b, banks);
      Remainder(q, m - 1, banks);
    } else if q > 0 {
      SlotsGoRound(q - 1, banks, b, banks);
      assert (q - 1) * banks + banks == q * banks;
    } else {
      assert q * banks + m == 0;
    }
  }

  lemma SlotsBounds(n: nat, b: nat, banks: nat)
    requires b < banks
    ensures n / banks <= Slots(n, b, banks) <= n / banks + 1
  {
    var q, m := n / banks, n % banks;
    assert n == q * banks + m;
    SlotsGoRound(q, m, b, banks);
  }

  // ----- what was queued for a bank -----

  /** The subarrays refreshed in bank `b` of rank `r`, in order. */
  ghost function Refreshes(sent: seq<Other>, r: nat, b: nat): (sas: seq<int>) {
    if sent == [] then [] else
    var n := |sent| - 1;
    Refreshes(sent[..n], r, b) + if sent[n].Target? && sent[n].rank == r && sent[n].bank == b then [sent[n].sa] else []
  }

  ghost predicate RoundRobin(sas: seq<int>, subarrays: nat)
    requires 0 < subarrays
  {
    forall k :: 0 <= k < |sas| ==> sas[k] == k % subarrays
  }

  /** The credit is refreshes queued minus slots passed, and refreshes go round the subarrays. */
  ghost predicate Tracks(bank: Bank, sas: seq<int>, slots: nat, subarrays: nat)
    requires 0 < subarrays
  {
    bank.backlog == |sas| - slots && bank.next == |sas| % subarrays && RoundRobin(sas, subarrays)
  }

  predicate InCredit(bank: Bank) {
    BACKLOG_MIN < bank.backlog <= BACKLOG_MAX
  }

  function Refreshed(bank: Bank, subarrays: nat): (r: Bank)
    requires 0 < subarrays
  {
    Bank(bank.backlog + 1, (bank.next + 1) % subarrays)
  }

  lemma RefreshedTracks(bank: Bank, sas: seq<int>, slots: nat, subarrays: nat)
    requires 0 < subarrays && Tracks(bank, sas, slots, subarrays)
    ensures Tracks(Refreshed(bank, subarrays), sas + [bank.next], slots, subarrays)
  {
    NextRemainder(|sas|, subarrays);
  }

  /** Any `subarrays` refreshes in a row cover each subarray exactly once. */
  lemma CoversOnce(sas: seq<int>, subarrays: nat, i: nat, sa: nat) returns (k: nat)
    requires 0 < subarrays && RoundRobin(sas, subarrays) && i + subarrays <= |sas| && sa < subarrays
    ensures i <= k < i + subarrays && sas[k] == sa
    ensures forall j :: i <= j < i + subarrays && sas[j] == sa ==> j == k
  {
    var q, m := i / subarrays, i % subarrays;
    assert i == q * subarrays + m;
    k := if m <= sa then q * subarrays + sa else (q + 1) * subarrays + sa;
    assert (q + 1) * subarrays == q * subarrays + subarrays;
    Remainder(if m <= sa then q else q + 1, sa, subarrays);
    forall j | i <= j < i + subarrays && sas[j] == sa ensures j == k {
      SameRemainder(j, k, subarrays);
    }
  }

  // ----- the controller's queues -----

  predicate PendingIn(q: seq<Other>, r: nat, b: nat) {
    exists i :: 0 <= i < |q| && q[i].Target? && q[i].rank == r && q[i].bank == b
  }

  predicate RefreshIn(q: seq<Other>) {
    exists i :: 0 <= i < |q| && q[i].Target?
  }

  predicate RankRefreshIn(q: seq<Other>, r: nat) {
    exists i :: 0 <= i < |q| && q[i].Target? && q[i].rank == r
  }

  predicate Placed(q: seq<Place>, cfg: Config) {
    forall i :: 0 <= i < |q| ==> q[i].rank < cfg.ranks && q[i].bank < cfg.banks
  }

  /** How many queued requests go to a bank. */
  function Demand(q: seq<Place>, r: nat, b: nat): (n: nat) {
    if q == [] then 0 else
    Demand(q[..|q| - 1], r, b) + if q[|q| - 1] == Place(r, b) then 1 else 0
  }

  // ----- a rank and its log -----

  /** A rank after `n` schedule slots, with `sent` the refreshes queued so far. */
  ghost predicate RankOk(cfg: Config, bs: seq<Bank>, turn: nat, sent: seq<Other>, r: nat, n: nat) {
    && cfg.Ok() && |bs| == cfg.banks && turn == n % cfg.banks
    && forall b :: 0 <= b < |bs| ==>
         Tracks(bs[b], Refreshes(sent, r, b), Slots(n, b, cfg.banks), cfg.subarrays) && InCredit(bs[b])
  }

  lemma RefreshesPush(sent: seq<Other>, o: Other, r: nat, b: nat)
    ensures Refreshes(sent + [o], r, b) ==
            Refreshes(sent, r, b) + if o.Target? && o.rank == r && o.bank == b then [o.sa] else []
  {
    assert (sent + [o])[..|sent|] == sent;
  }

  /** A refresh elsewhere, or of a whole rank, is no refresh of these banks. */
  lemma SentElsewhere(cfg: Config, bs: seq<Bank>, turn: nat, sent: seq<Other>, r: nat, n: nat, o: Other)
    requires RankOk(cfg, bs, turn, sent, r, n) && (o.Else? || o.rank != r || o.bank < 0)
    ensures RankOk(cfg, bs, turn, sent + [o], r, n)
  {
    forall b | 0 <= b < |bs| ensures Refreshes(sent + [o], r, b) == Refreshes(sent, r, b) {
      RefreshesPush(sent, o, r, b);
    }
  }

  /** One more refresh of bank `b`, if the credit allows. */
  lemma RankRefreshed(cfg: Config, bs: seq<Bank>, turn: nat, sent: seq<Other>, r: nat, n: nat, b: nat)
    requires RankOk(cfg, bs, turn, sent, r, n) && b < |bs| && bs[b].backlog < BACKLOG_MAX
    ensures RankOk(cfg, bs[b := Refreshed(bs[b], cfg.subarrays)], turn, sent + [Target(r, b, bs[b].next)], r, n)
  {
    var o := Target(r, b, bs[b].next);
    forall c | 0 <= c < |bs|
      ensures Refreshes(sent + [o], r, c) == Refreshes(sent, r, c) + if c == b then [bs[b].next] else []
    {
      RefreshesPush(sent, o, r, c);
    }
    RefreshedTracks(bs[b], Refreshes(sent, r, b), Slots(n, b, cfg.banks), cfg.subarrays);
  }

  function Late(bank: Bank): (r: Bank) {
    bank.(backlog := bank.backlog - 1)
  }

  /** The rank's slot passes and the bank whose turn it is stays behind, which its credit has to allow. */
  lemma RankSkips(cfg: Config, bs: seq<Bank>, turn: nat, sent: seq<Other>, r: nat, n: nat)
    requires RankOk(cfg, bs, turn, sent, r, n) && BACKLOG_MIN < bs[turn].backlog - 1
    ensures RankOk(cfg, bs[turn := Late(bs[turn])], (turn + 1) % cfg.banks, sent, r, n + 1)
  {
    NextRemainder(n, cfg.banks);
    var cs := bs[turn := Late(bs[turn])];
    forall c | 0 <= c < |cs|
      ensures Tracks(cs[c], Refreshes(sent, r, c), Slots(n + 1, c, cfg.banks), cfg.subarrays) && InCredit(cs[c])
    {
      assert Tracks(bs[c], Refreshes(sent, r, c), Slots(n, c, cfg.banks), cfg.subarrays) && InCredit(bs[c]);
    }
  }

  /** The rank's slot passes and the bank whose turn it is is refreshed. */
  lemma RankOnTime(cfg: Config, bs: seq<Bank>, turn: nat, sent: seq<Other>, r: nat, n: nat)
    requires RankOk(cfg, bs, turn, sent, r, n)
    ensures RankOk(cfg, bs[turn := Refreshed(Late(bs[turn]), cfg.subarrays)], (turn + 1) % cfg.banks,
                   sent + [Target(r, turn, bs[turn].next)], r, n + 1)
  {
    NextRemainder(n, cfg.banks);
    var o := Target(r, turn, bs[turn].next);
    var cs := bs[turn := Refreshed(Late(bs[turn]), cfg.subarrays)];
    forall c | 0 <= c < |cs|
      ensures Tracks(cs[c], Refreshes(sent + [o], r, c), Slots(n + 1, c, cfg.banks), cfg.subarrays) && InCredit(cs[c])
    {
      assert Tracks(bs[c], Refreshes(sent, r, c), Slots(n, c, cfg.banks), cfg.subarrays) && InCredit(bs[c]);
      RefreshesPush(sent, o, r, c);
      if c == turn {
        RefreshedTracks(Late(bs[c]), Refreshes(sent, r, c), Slots(n + 1, c, cfg.banks), cfg.subarrays);
      }
    }
  }

  /** By clock `t` every bank was refreshed nearly as often as it had slots, and not much more often. */
  lemma KeepsUp(cfg: Config, bs: seq<Bank>, turn: nat, sent: seq<Other>, r: nat, n: nat, b: nat)
    requires RankOk(cfg, bs, turn, sent, r, n) && b < cfg.banks
    ensures n / cfg.banks - 7 <= |Refreshes(sent, r, b)| <= n / cfg.banks + 9
    ensures RoundRobin(Refreshes(sent, r, b), cfg.subarrays)
  {
    SlotsBounds(n, b, cfg.banks);
    assert Tracks(bs[b], Refreshes(sent, r, b), Slots(n, b, cfg.banks), cfg.subarrays);
  }

  /** All ranks stand at slot `n`, the first `ahead` of them at the one after it. */
  ghost predicate RanksOk(cfg: Config, banks: seq<seq<Bank>>, turns: seq<nat>, sent: seq<Other>, n: nat, ahead: nat) {
    && cfg.Ok() && |turns| == |banks| == cfg.ranks
    && (forall r :: 0 <= r < |banks| ==> |banks[r]| == cfg.banks)
    && (forall r :: 0 <= r < |banks| ==> RankOk(cfg, banks[r], turns[r], sent, r, if r < ahead then n + 1 else n))
  }

  lemma RanksElsewhere(cfg: Config, banks: seq<seq<Bank>>, turns: seq<nat>, sent: seq<Other>, n: nat, ahead: nat, o: Other)
    requires RanksOk(cfg, banks, turns, sent, n, ahead)
    ensures forall i :: 0 <= i < |banks| && (o.Else? || i != o.rank || o.bank < 0) ==>
              RankOk(cfg, banks[i], turns[i], sent + [o], i, if i < ahead then n + 1 else n)
  {
    forall i | 0 <= i < |banks| && (o.Else? || i != o.rank || o.bank < 0)
      ensures RankOk(cfg, banks[i], turns[i], sent + [o], i, if i < ahead then n + 1 else n)
    {
      SentElsewhere(cfg, banks[i], turns[i], sent, i, if i < ahead then n + 1 else n, o);
    }
  }

  lemma RanksRefreshed(cfg: Config, banks: seq<seq<Bank>>, turns: seq<nat>, sent: seq<Other>, n: nat, r: nat, b: nat)
    requires RanksOk(cfg, banks, turns, sent, n, 0) && r < cfg.ranks && b < cfg.banks && banks[r][b].backlog < BACKLOG_MAX
    ensures RanksOk(cfg, banks[r := banks[r][b := Refreshed(banks[r][b], cfg.subarrays)]], turns,
                    sent + [Target(r, b, banks[r][b].next)], n, 0)
  {
    RankRefreshed(cfg, banks[r], turns[r], sent, r, n, b);
    RanksElsewhere(cfg, banks, turns, sent, n, 0, Target(r, b, banks[r][b].next));
  }

  /** The bank whose turn it is has to be refreshed in its slot. */
  predicate RefreshNow(cfg: Config, late: Bank, otherq: seq<Other>, loads: seq<Place>) {
    !cfg.outOfOrder || (!RefreshIn(otherq) && loads == []) || late.backlog <= BACKLOG_MIN
  }

  lemma RanksSkip(cfg: Config, banks: seq<seq<Bank>>, turns: seq<nat>, sent: seq<Other>, n: nat, r: nat)
    requires RanksOk(cfg, banks, turns, sent, n, r) && r < cfg.ranks && turns[r] < cfg.banks
    requires BACKLOG_MIN < Late(banks[r][turns[r]]).backlog
    ensures RanksOk(cfg, banks[r := banks[r][turns[r] := Late(banks[r][turns[r]])]], turns[r := (turns[r] + 1) % cfg.banks],
                    sent, n, r + 1)
  {
    RankSkips(cfg, banks[r], turns[r], sent, r, n);
  }

  lemma RanksOnTime(cfg: Config, banks: seq<seq<Bank>>, turns: seq<nat>, sent: seq<Other>, n: nat, r: nat)
    requires RanksOk(cfg, banks, turns, sent, n, r) && r < cfg.ranks && turns[r] < cfg.banks
    ensures RanksOk(cfg, banks[r := banks[r][turns[r] := Refreshed(Late(banks[r][turns[r]]), cfg.subarrays)]],
                    turns[r := (turns[r] + 1) % cfg.banks], sent + [Target(r, turns[r], banks[r][turns[r]].next)], n, r + 1)
  {
    RankOnTime(cfg, banks[r], turns[r], sent, r, n);
    RanksElsewhere(cfg, banks, turns, sent, n, r, Target(r, turns[r], banks[r][turns[r]].next));
  }
}
