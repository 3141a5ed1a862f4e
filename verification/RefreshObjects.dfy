/** The refresh scheduler as it runs: one tick per cycle, queueing refreshes into the controller's queue. */
module RefreshObjects {
  import opened Arith
  import opened Refresh

  /** What the controller shows the scheduler in one cycle. */
  datatype Cycle = Cycle(loads: seq<Place>, stores: seq<Place>, writeMode: bool, otherq: seq<Other>)

  /** A bank that may be refreshed early: no queued read, no refresh on its way, credit nearly gone, room in the queue. */
  predicate Pullable(busy: set<Place>, otherq: seq<Other>, bs: seq<Bank>, r: nat, b: nat) {
    && b < |bs| && Place(r, b) !in busy && !PendingIn(otherq, r, b)
    && bs[b].backlog < EARLY_PULL && |otherq| < OTHERQ_MAX
  }

  /** No bank of the rank has fewer queued requests. */
  predicate LeastDemand(loads: seq<Place>, stores: seq<Place>, r: nat, b: nat, banks: nat) {
    b < banks && forall c :: 0 <= c < banks ==>
      Demand(loads, r, b) + Demand(stores, r, b) <= Demand(loads, r, c) + Demand(stores, r, c)
  }

  predicate SortedByDemand(d: seq<(nat, nat)>) {
    forall i, j :: 0 <= i < j < |d| ==> d[i].0 <= d[j].0
  }

  /** Adds the requests of rank `r` to the banks' demands. */
  method AddDemand(q: seq<Place>, r: nat, d0: seq<(nat, nat)>) returns (d: seq<(nat, nat)>, total: nat)
    requires forall i :: 0 <= i < |q| ==> q[i].bank < |d0|
    ensures |d| == |d0|
    ensures forall b :: 0 <= b < |d| ==> d[b] == (d0[b].0 + Demand(q, r, b), d0[b].1)
    ensures total == 0 <==> forall i :: 0 <= i < |q| ==> q[i].rank != r
  {
    d, total := d0, 0;
    for i := 0 to |q|
      invariant |d| == |d0|
      invariant forall b :: 0 <= b < |d| ==> d[b] == (d0[b].0 + Demand(q[..i], r, b), d0[b].1)
      invariant total == 0 <==> forall j :: 0 <= j < i ==> q[j].rank != r
    {
      assert q[..i + 1][..i] == q[..i];
      if q[i].rank == r {
        d := d[q[i].bank := (d[q[i].bank].0 + 1, d[q[i].bank].1)];
        total := total + 1;
      }
    }
    assert q[..|q|] == q;
  }

  method Insert(d: seq<(nat, nat)>, x: (nat, nat)) returns (e: seq<(nat, nat)>)
    requires SortedByDemand(d)
    ensures SortedByDemand(e) && multiset(e) == multiset(d) + multiset{x}
  {
    var i := |d|;
    while i > 0 && x.0 < d[i - 1].0
      invariant 0 <= i <= |d|
      invariant forall j :: i <= j < |d| ==> x.0 < d[j].0
    {
      i := i - 1;
    }
    e := d[..i] + [x] + d[i..];
    InsertedSorted(d, i, x);
    InsertedCounts(d, i, x);
  }

  lemma InsertedCounts(d: seq<(nat, nat)>, i: nat, x: (nat, nat))
    requires i <= |d|
    ensures multiset(d[..i] + [x] + d[i..]) == multiset(d) + multiset{x}
  {
    assert d == d[..i] + d[i..];
  }

  lemma InsertedSorted(d: seq<(nat, nat)>, i: nat, x: (nat, nat))
    requires SortedByDemand(d) && i <= |d|
    requires i > 0 ==> d[i - 1].0 <= x.0
    requires i < |d| ==> x.0 <= d[i].0
    ensures SortedByDemand(d[..i] + [x] + d[i..])
  {
    var e := d[..i] + [x] + d[i..];
    forall j, k | 0 <= j < k < |e| ensures e[j].0 <= e[k].0 {
      assert e[j] == if j < i then d[j] else if j == i then x else d[j - 1];
      assert e[k] == if k < i then d[k] else if k == i then x else d[k - 1];
    }
  }

  method Sort(d: seq<(nat, nat)>) returns (e: seq<(nat, nat)>)
    ensures SortedByDemand(e) && multiset(e) == multiset(d)
  {
    e := [];
    for i := 0 to |d|
      invariant SortedByDemand(e) && multiset(e) == multiset(d[..i])
    {
      assert d[..i + 1] == d[..i] + [d[i]];
      e := Insert(e, d[i]);
    }
    assert d[..|d|] == d;
  }

  /** Whatever the search for a bank other than number zero finds, the bank that is taken has the least demand. */
  method PickBank(loads: seq<Place>, stores: seq<Place>, r: nat, banks: nat) returns (b: nat, total: nat)
    requires 1 <= banks
    requires forall i :: 0 <= i < |loads| ==> loads[i].bank < banks
    requires forall i :: 0 <= i < |stores| ==> stores[i].bank < banks
    ensures LeastDemand(loads, stores, r, b, banks)
    ensures total == 0 <==> forall i :: 0 <= i < |stores| ==> stores[i].rank != r
  {
    var zero: seq<(nat, nat)> := seq(banks, i requires 0 <= i => (0, i));
    var d, n := AddDemand(stores, r, zero);
    total := n;
    ghost var m;
    d, m := AddDemand(loads, r, d);
    ghost var demands := d;
    var e := Sort(d);
    SameLength(e, d);
    var top := 0;
    for i := 0 to banks
      invariant forall j :: 0 <= j < i ==> e[j].1 == 0
      invariant top == 0
    {
      if e[i].1 != 0 {
        top := i;
        break;
      }
    }
    OneZero(demands, e, top);
    var index := 0;
    if top != 0 {
      index :| 0 <= index < top;
    }
    b := e[index].1;
    forall c | 0 <= c < banks ensures e[0].0 <= demands[c].0 {
      assert demands[c] in multiset(demands);
      assert demands[c] in e;
    }
    assert e[0] in multiset(e);
    assert e[0] in demands;
  }

  lemma SameLength<T>(e: seq<T>, d: seq<T>)
    requires multiset(e) == multiset(d)
    ensures |e| == |d|
  {
    assert |multiset(e)| == |e| && |multiset(d)| == |d|;
  }

  /** Bank zero is listed once, so the first other bank is at most second. */
  lemma OneZero(d: seq<(nat, nat)>, e: seq<(nat, nat)>, top: nat)
    requires forall b :: 0 <= b < |d| ==> d[b].1 == b
    requires multiset(e) == multiset(d) && top < |e| && forall j :: 0 <= j < top ==> e[j].1 == 0
    ensures top <= 1
  {
    if top > 1 {
      assert e[0] in multiset(d) && e[1] in multiset(d);
      assert e[0] in d && e[1] in d;
      assert e[0] == d[0] && e[1] == d[0];
      Counted(e, 0, 1);
      CountedOnce(d);
      assert false;
    }
  }

  lemma Counted<T>(e: seq<T>, i: nat, j: nat)
    requires i < j < |e| && e[i] == e[j]
    ensures multiset(e)[e[i]] >= 2
  {
    assert e == e[..i] + [e[i]] + e[i + 1..j] + [e[j]] + e[j + 1..];
  }

  lemma CountedOnce(d: seq<(nat, nat)>)
    requires |d| > 0 && forall b :: 0 <= b < |d| ==> d[b].1 == b
    ensures multiset(d)[d[0]] == 1
  {
    assert d == [d[0]] + d[1..];
    assert d[0] !in d[1..];
  }

  /** Looks round the banks of a rank from a random one for the first that may be pulled in; `-1` when there is none. */
  method FindPullable(busy: set<Place>, otherq: seq<Other>, bs: seq<Bank>, r: nat) returns (pick: int)
    requires bs != []
    ensures pick < 0 ==> forall b: nat :: !Pullable(busy, otherq, bs, r, b)
    ensures 0 <= pick ==> Pullable(busy, otherq, bs, r, pick)
  {
    var n := |bs|;
    var start: nat :| start < n;
    for j := 0 to n
      invariant forall i: nat :: i < j ==> !Pullable(busy, otherq, bs, r, Spot(start, i, n))
    {
      var b := Spot(start, j, n);
      if Place(r, b) in busy || PendingIn(otherq, r, b) || bs[b].backlog >= EARLY_PULL || |otherq| >= OTHERQ_MAX {
        continue;
      }
      return b;
    }
    forall b: nat ensures !Pullable(busy, otherq, bs, r, b) {
      if b < n {
        var i := if start <= b then b - start else b + n - start;
        Wrap(start, i, n);
        assert !Pullable(busy, otherq, bs, r, Spot(start, i, n));
      }
    }
    return -1;
  }

  method BusyBanks(loads: seq<Place>) returns (busy: set<Place>)
    ensures forall p :: p in busy <==> p in loads
  {
    busy := {};
    for i := 0 to |loads|
      invariant forall p :: p in busy <==> p in loads[..i]
    {
      busy := busy + {loads[i]};
    }
    assert loads[..|loads|] == loads;
  }

  /** The controller's queue and the log grew by the same requests. */
  ghost predicate Grown(otherq0: seq<Other>, otherq: seq<Other>, sent0: seq<Other>, sent: seq<Other>) {
    otherq0 <= otherq && sent0 <= sent && otherq[|otherq0|..] == sent[|sent0|..]
  }

  lemma GrownTwice(q0: seq<Other>, q1: seq<Other>, q2: seq<Other>, s0: seq<Other>, s1: seq<Other>, s2: seq<Other>)
    requires Grown(q0, q1, s0, s1) && Grown(q1, q2, s1, s2)
    ensures Grown(q0, q2, s0, s2)
  {
    assert q2[|q0|..] == q1[|q0|..] + q2[|q1|..];
    assert s2[|s0|..] == s1[|s0|..] + s2[|s1|..];
  }

  /** An idle bank of the rank with its credit nearly gone and no refresh on its way. */
  predicate Needy(loads: seq<Place>, otherq: seq<Other>, bs: seq<Bank>, r: nat, b: nat) {
    b < |bs| && Place(r, b) !in loads && !PendingIn(otherq, r, b) && bs[b].backlog < EARLY_PULL
  }

  /** One needy bank of the rank was refreshed; nothing happened only if there was none, or the queue filled up. */
  ghost predicate RankPulled(cfg: Config, loads: seq<Place>, q0: seq<Other>, q1: seq<Other>,
                             before: seq<Bank>, after: seq<Bank>, r: nat, pick: int) {
    if pick < 0 then
      after == before && (|q1| >= OTHERQ_MAX || forall b: nat :: !Needy(loads, q0, before, r, b))
    else
      cfg.Ok() && Needy(loads, q0, before, r, pick) && after == before[pick := Refreshed(before[pick], cfg.subarrays)]
  }

  predicate Stored(stores: seq<Place>, r: nat) {
    exists i :: 0 <= i < |stores| && stores[i].rank == r
  }

  /** A bank of least demand was refreshed; nothing happened only without cause, without credit or without room. */
  ghost predicate RankWritten(cfg: Config, loads: seq<Place>, stores: seq<Place>, q0: seq<Other>, q1: seq<Other>,
                              before: seq<Bank>, after: seq<Bank>, r: nat, pick: int)
    requires |before| == cfg.banks
  {
    if pick < 0 then
      && after == before
      && (|q1| >= OTHERQ_MAX || RankRefreshIn(q0, r) || !Stored(stores, r) ||
          exists b: nat :: LeastDemand(loads, stores, r, b, cfg.banks) && before[b].backlog >= BACKLOG_MAX)
    else
      && cfg.Ok() && LeastDemand(loads, stores, r, pick, cfg.banks) && before[pick].backlog < BACKLOG_MAX
      && !RankRefreshIn(q0, r) && Stored(stores, r)
      && after == before[pick := Refreshed(before[pick], cfg.subarrays)]
  }

  /** Nothing is read and no refresh is on its way. */
  predicate Idle(loads: seq<Place>, q: seq<Other>) {
    loads == [] && forall i :: 0 <= i < |q| ==> !q[i].Target?
  }

  /** The bank whose turn it is has to be refreshed: in order always, else when the slot leaves it eight behind, or in a quiet moment. */
  predicate Due(cfg: Config, bank: Bank, quiet: bool) {
    !cfg.outOfOrder || bank.backlog <= -7 || quiet
  }

  /** What a slot makes of the bank whose turn it is: its next subarray is refreshed, or it falls one behind. */
  function AfterSlot(cfg: Config, bank: Bank, due: bool): (r: Bank)
    requires cfg.Ok()
  {
    if due then Bank(bank.backlog, (bank.next + 1) % cfg.subarrays) else Bank(bank.backlog - 1, bank.next)
  }

  /** The slot of rank `r`. A quiet moment is over once the first rank refreshes, so only that one can use it. */
  predicate RankSlotted(cfg: Config, loads: seq<Place>, q0: seq<Other>, before: seq<Bank>, after: seq<Bank>, turn: nat, r: nat) {
    && cfg.Ok() && turn < |before|
    && after == before[turn := AfterSlot(cfg, before[turn], Due(cfg, before[turn], r == 0 && Idle(loads, q0)))]
  }

  /** What the slot puts into the queue for the first `n` ranks, in order. */
  function SlotQueue(cfg: Config, loads: seq<Place>, q0: seq<Other>, banks: seq<seq<Bank>>, turns: seq<nat>, n: nat): (q: seq<Other>)
    requires n <= |banks| && n <= |turns| && forall r :: 0 <= r < n ==> turns[r] < |banks[r]|
  {
    if n == 0 then [] else
    var r := n - 1;
    var bank := banks[r][turns[r]];
    SlotQueue(cfg, loads, q0, banks, turns, r) +
    if Due(cfg, bank, r == 0 && Idle(loads, q0)) then [Target(r, turns[r], bank.next)] else []
  }

  /** Every rank's turn is one of its banks. */
  predicate TurnsFit(banks: seq<seq<Bank>>, turns: seq<nat>, n: nat) {
    n == |banks| == |turns| && forall r :: 0 <= r < n ==> turns[r] < |banks[r]|
  }

  lemma TurnsInRange(cfg: Config, banks: seq<seq<Bank>>, turns: seq<nat>, sent: seq<Other>, n: nat)
    requires RanksOk(cfg, banks, turns, sent, n, 0)
    ensures TurnsFit(banks, turns, cfg.ranks)
  {
    forall r | 0 <= r < cfg.ranks ensures turns[r] < |banks[r]| {
      assert RankOk(cfg, banks[r], turns[r], sent, r, n);
    }
  }

  lemma {:induction false} SlotQueueGrows(cfg: Config, loads: seq<Place>, q0: seq<Other>, banks: seq<seq<Bank>>, turns: seq<nat>, k: nat, n: nat)
    requires k <= n <= |banks| && n <= |turns| && forall r :: 0 <= r < n ==> turns[r] < |banks[r]|
    ensures SlotQueue(cfg, loads, q0, banks, turns, k) <= SlotQueue(cfg, loads, q0, banks, turns, n)
    decreases n
  {
    if k == n {
    } else {
      SlotQueueGrows(cfg, loads, q0, banks, turns, k, n - 1);
    }
  }

  /** After the first rank the moment is not quiet any more. */
  lemma {:induction false} QuietIsOver(cfg: Config, loads: seq<Place>, q0: seq<Other>, banks: seq<seq<Bank>>, turns: seq<nat>, n: nat)
    requires 1 <= n <= |banks| && n <= |turns| && forall r :: 0 <= r < n ==> turns[r] < |banks[r]|
    ensures !Idle(loads, q0 + SlotQueue(cfg, loads, q0, banks, turns, n))
    decreases n
  {
    var q := q0 + SlotQueue(cfg, loads, q0, banks, turns, n);
    if n == 1 {
      assert SlotQueue(cfg, loads, q0, banks, turns, 0) == [];
      if Idle(loads, q0) {
        assert q[|q0|].Target?;
      } else if loads == [] {
        var i :| 0 <= i < |q0| && q0[i].Target?;
        assert q[i].Target?;
      }
    } else {
      QuietIsOver(cfg, loads, q0, banks, turns, n - 1);
      var before := q0 + SlotQueue(cfg, loads, q0, banks, turns, n - 1);
      if loads == [] {
        var i :| 0 <= i < |before| && before[i].Target?;
        assert q[i] == before[i];
      }
    }
  }

  lemma NotQuiet(cfg: Config, late: Bank, q: seq<Other>, loads: seq<Place>, bank: Bank)
    requires late == Late(bank)
    ensures RefreshNow(cfg, late, q, loads) <==> Due(cfg, bank, Idle(loads, q))
  {
  }

  /** The banks and the queue between two phases of a cycle, and what the phase picked per rank. */
  datatype Phase = Phase(banks: seq<seq<Bank>>, otherq: seq<Other>, picks: seq<int>)

  /** The phase in which writes start refreshes, if it takes place. */
  ghost predicate Written(cfg: Config, loads: seq<Place>, stores: seq<Place>, now: bool, s: Phase, w: Phase) {
    && |w.banks| == |s.banks| && (forall r :: 0 <= r < |s.banks| ==> |s.banks[r]| == cfg.banks)
    && if now then
         |w.picks| == |s.banks| && forall r :: 0 <= r < |s.banks| ==>
           RankWritten(cfg, loads, stores, s.otherq, w.otherq, s.banks[r], w.banks[r], r, w.picks[r])
       else
         w.banks == s.banks && w.otherq == s.otherq
  }

  /** The phase in which reads pull refreshes in, if it takes place. */
  ghost predicate Pulled(cfg: Config, loads: seq<Place>, now: bool, w: Phase, e: Phase) {
    && |e.banks| == |w.banks|
    && if now then
         |e.picks| == |w.banks| && forall r :: 0 <= r < |w.banks| ==>
           RankPulled(cfg, loads, w.otherq, e.otherq, w.banks[r], e.banks[r], r, e.picks[r])
       else
         e.banks == w.banks && e.otherq == w.otherq
  }

  /** What has to go into the queue in a slot. */
  function SlotWork(cfg: Config, loads: seq<Place>, q0: seq<Other>, banks: seq<seq<Bank>>, turns: seq<nat>): (q: seq<Other>)
    requires TurnsFit(banks, turns, |banks|)
  {
    if cfg.rankLevel then RankQueue(|banks|) else SlotQueue(cfg, loads, q0, banks, turns, |banks|)
  }

  /** The slot of the schedule: every rank's bank and the queue, told from the state before. */
  predicate Slotted(cfg: Config, loads: seq<Place>, e: Phase, banks: seq<seq<Bank>>, otherq: seq<Other>, turns: seq<nat>) {
    && |banks| == |e.banks| && TurnsFit(e.banks, turns, |e.banks|)
    && (if cfg.rankLevel then banks == e.banks
        else forall r :: 0 <= r < |banks| ==> RankSlotted(cfg, loads, e.otherq, e.banks[r], banks[r], turns[r], r))
    && otherq == e.otherq + SlotWork(cfg, loads, e.otherq, e.banks, turns)
  }

  /** The first `r` ranks had their slot. */
  ghost predicate Progress(cfg: Config, loads: seq<Place>, e: Phase, turns0: seq<nat>,
                           banks: seq<seq<Bank>>, turns: seq<nat>, otherq: seq<Other>, r: nat) {
    && TurnsFit(e.banks, turns0, |e.banks|) && |banks| == |turns| == |e.banks| && r <= |banks|
    && otherq == e.otherq + SlotQueue(cfg, loads, e.otherq, e.banks, turns0, r)
    && Fits(e.otherq, SlotQueue(cfg, loads, e.otherq, e.banks, turns0, r))
    && (forall i :: r <= i < |banks| ==> banks[i] == e.banks[i] && turns[i] == turns0[i])
    && (forall i :: 0 <= i < r ==> RankSlotted(cfg, loads, e.otherq, e.banks[i], banks[i], turns0[i], i))
  }

  lemma StillQuiet(cfg: Config, loads: seq<Place>, e: Phase, turns0: seq<nat>,
                   banks: seq<seq<Bank>>, turns: seq<nat>, otherq: seq<Other>, r: nat)
    requires Progress(cfg, loads, e, turns0, banks, turns, otherq, r)
    ensures Idle(loads, otherq) <==> r == 0 && Idle(loads, e.otherq)
  {
    if r > 0 {
      QuietIsOver(cfg, loads, e.otherq, e.banks, turns0, r);
    } else {
      assert otherq == e.otherq;
    }
  }

  /** One more rank. */
  lemma ProgressStep(cfg: Config, loads: seq<Place>, e: Phase, turns0: seq<nat>, banks: seq<seq<Bank>>, turns: seq<nat>, otherq: seq<Other>,
                     r: nat, due: bool, banks': seq<seq<Bank>>, turns': seq<nat>, otherq': seq<Other>)
    requires Progress(cfg, loads, e, turns0, banks, turns, otherq, r) && r < |banks| && cfg.Ok() && turns[r] < |banks[r]|
    requires due == Due(cfg, banks[r][turns[r]], r == 0 && Idle(loads, e.otherq)) && (due ==> |otherq| < 32)
    requires banks' == banks[r := banks[r][turns[r] := AfterSlot(cfg, banks[r][turns[r]], due)]]
    requires |turns'| == |turns| && turns' == turns[r := turns'[r]]
    requires otherq' == otherq + if due then [Target(r, turns[r], banks[r][turns[r]].next)] else []
    ensures Progress(cfg, loads, e, turns0, banks', turns', otherq', r + 1)
  {
    assert banks[r] == e.banks[r] && turns[r] == turns0[r];
    assert RankSlotted(cfg, loads, e.otherq, e.banks[r], banks'[r], turns0[r], r);
  }

  lemma ProgressDone(cfg: Config, loads: seq<Place>, e: Phase, turns0: seq<nat>, banks: seq<seq<Bank>>, turns: seq<nat>, otherq: seq<Other>)
    requires Progress(cfg, loads, e, turns0, banks, turns, otherq, |banks|) && !cfg.rankLevel
    ensures Slotted(cfg, loads, e, banks, otherq, turns0) && Fits(e.otherq, SlotWork(cfg, loads, e.otherq, e.banks, turns0))
  {
  }

  lemma RanksDone(cfg: Config, banks: seq<seq<Bank>>, turns: seq<nat>, sent: seq<Other>, n: nat)
    requires RanksOk(cfg, banks, turns, sent, n, cfg.ranks)
    ensures RanksOk(cfg, banks, turns, sent, n + 1, 0)
  {
  }

  /** A refresh that has to go in and finds no room. */
  lemma NoRoom(cfg: Config, loads: seq<Place>, e: Phase, turns0: seq<nat>, banks: seq<seq<Bank>>, turns: seq<nat>, otherq: seq<Other>, r: nat)
    requires Progress(cfg, loads, e, turns0, banks, turns, otherq, r) && r < |banks| && turns[r] < |banks[r]|
    requires Due(cfg, banks[r][turns[r]], r == 0 && Idle(loads, e.otherq)) && |otherq| >= 32
    ensures !Fits(e.otherq, SlotQueue(cfg, loads, e.otherq, e.banks, turns0, |banks|))
  {
    SlotQueueGrows(cfg, loads, e.otherq, e.banks, turns0, r + 1, |banks|);
  }

  /** The queue has room for the refreshes that have to go in. */
  predicate Fits(q: seq<Other>, more: seq<Other>) {
    more == [] || |q| + |more| <= 32
  }

  /** Refreshes of whole ranks. */
  function RankQueue(ranks: nat): (q: seq<Other>) {
    seq(ranks, r requires 0 <= r => Target(r, -1, -1))
  }

  /** The queue grew by refreshes of ranks below `r` only, so rank `r` sees what it would have seen at first. */
  predicate GrownBelow(q0: seq<Other>, q1: seq<Other>, r: nat) {
    q0 <= q1 && forall i :: |q0| <= i < |q1| ==> q1[i].Target? && q1[i].rank < r
  }

  lemma SeenAtFirst(q0: seq<Other>, q1: seq<Other>, r: nat)
    requires GrownBelow(q0, q1, r)
    ensures RankRefreshIn(q1, r) == RankRefreshIn(q0, r)
    ensures forall b: nat :: PendingIn(q1, r, b) == PendingIn(q0, r, b)
  {
    forall b: nat ensures PendingIn(q1, r, b) == PendingIn(q0, r, b) {
      assert PendingIn(q0, r, b) ==> PendingIn(q1, r, b);
    }
  }

  class Refresher {
    const cfg: Config
    var clk: nat
    var refreshed: nat
    var turns: seq<nat>
    var banks: seq<seq<Bank>>
    var ctrlWriteMode: bool
    /** The controller's queue; the controller drains it between ticks. */
    var otherq: seq<Other>
    /** Every refresh ever queued, and the number of slots scheduled. */
    ghost var sent: seq<Other>
    ghost var slots: nat

    ghost predicate RanksAt(n: nat)
      reads this
    {
      RanksOk(cfg, banks, turns, sent, n, 0)
    }

    /** Slots that count for single banks. */
    ghost function BankSlots(): (n: nat)
      reads this
    {
      if cfg.rankLevel then 0 else slots
    }

    ghost predicate Valid()
      reads this
    {
      && RanksAt(BankSlots())
      && refreshed == Multiple(slots, cfg.interval) && refreshed <= clk < refreshed + cfg.interval
    }

    constructor (cfg: Config)
      requires cfg.Ok()
      ensures Valid() && this.cfg == cfg && clk == 0 && sent == [] && otherq == [] && !ctrlWriteMode
    {
      this.cfg := cfg;
      clk, refreshed, slots := 0, 0, 0;
      turns := seq(cfg.ranks, _ => 0);
      banks := seq(cfg.ranks, _ => seq(cfg.banks, _ => Bank(0, 0)));
      ctrlWriteMode, otherq, sent := false, [], [];
    }

    /** Queues the refresh of the bank's next subarray and takes the credit for it. */
    method RefreshTarget(r: nat, b: nat)
      requires cfg.Ok() && r < |banks| && b < |banks[r]| && |otherq| < OTHERQ_MAX
      modifies this`banks, this`otherq, this`sent
      ensures banks == old(banks)[r := old(banks[r])[b := Refreshed(old(banks[r][b]), cfg.subarrays)]]
      ensures otherq == old(otherq) + [Target(r, b, old(banks[r][b].next))]
      ensures sent == old(sent) + [Target(r, b, old(banks[r][b].next))]
    {
      var bank := banks[r][b];
      otherq := otherq + [Target(r, b, bank.next)];
      sent := sent + [Target(r, b, bank.next)];
      banks := banks[r := banks[r][b := Bank(bank.backlog + 1, (bank.next + 1) % cfg.subarrays)]];
    }

    /** One step of pulling in: at most one bank of the rank. */
    method EarlyRank(r: nat, loads: seq<Place>, busy: set<Place>, ghost q0: seq<Other>, ghost n: nat) returns (pick: int)
      requires RanksAt(n) && r < cfg.ranks && GrownBelow(q0, otherq, r) && forall p :: p in busy <==> p in loads
      modifies this`banks, this`otherq, this`sent
      ensures RanksAt(n) && GrownBelow(q0, otherq, r + 1)
      ensures Grown(old(otherq), otherq, old(sent), sent)
      ensures RankPulled(cfg, loads, q0, otherq, old(banks[r]), banks[r], r, pick)
      ensures banks == old(banks)[r := banks[r]]
    {
      SeenAtFirst(q0, otherq, r);
      pick := FindPullable(busy, otherq, banks[r], r);
      if pick < 0 {
        forall b: nat ensures |otherq| >= OTHERQ_MAX || !Needy(loads, q0, banks[r], r, b) {
          assert !Pullable(busy, otherq, banks[r], r, b);
        }
      } else {
        RanksRefreshed(cfg, banks, turns, sent, n, r, pick);
        RefreshTarget(r, pick);
      }
    }

    /** During reads, each rank may pull in one refresh of a bank nobody reads from. */
    method EarlyInject(loads: seq<Place>, writeMode: bool, ghost n: nat) returns (ghost picks: seq<int>)
      requires RanksAt(n) && Placed(loads, cfg)
      modifies this`banks, this`otherq, this`sent
      ensures RanksAt(n) && Grown(old(otherq), otherq, old(sent), sent)
      ensures writeMode ==> banks == old(banks) && otherq == old(otherq)
      ensures !writeMode ==> |picks| == cfg.ranks && forall r :: 0 <= r < cfg.ranks ==>
                RankPulled(cfg, loads, old(otherq), otherq, old(banks[r]), banks[r], r, picks[r])
    {
      picks := [];
      if writeMode {
        return;
      }
      var busy := BusyBanks(loads);
      for r := 0 to cfg.ranks
        invariant RanksAt(n) && |picks| == r && Grown(old(otherq), otherq, old(sent), sent) && GrownBelow(old(otherq), otherq, r)
        invariant forall i :: r <= i < cfg.ranks ==> banks[i] == old(banks[i])
        invariant forall i :: 0 <= i < r ==> RankPulled(cfg, loads, old(otherq), otherq, old(banks[i]), banks[i], i, picks[i])
      {
        ghost var q, s := otherq, sent;
        var pick := EarlyRank(r, loads, busy, old(otherq), n);
        picks := picks + [pick];
        GrownTwice(old(otherq), q, otherq, old(sent), s, sent);
      }
    }

    /** When writes start, a rank with queued writes and no refresh on its way refreshes a bank of least demand. */
    method WrpRank(r: nat, loads: seq<Place>, stores: seq<Place>, ghost q0: seq<Other>, ghost n: nat) returns (ghost pick: int)
      requires RanksAt(n) && r < cfg.ranks && Placed(loads, cfg) && Placed(stores, cfg) && GrownBelow(q0, otherq, r)
      modifies this`banks, this`otherq, this`sent
      ensures RanksAt(n) && GrownBelow(q0, otherq, r + 1)
      ensures Grown(old(otherq), otherq, old(sent), sent)
      ensures RankWritten(cfg, loads, stores, q0, otherq, old(banks[r]), banks[r], r, pick)
      ensures banks == old(banks)[r := banks[r]]
    {
      SeenAtFirst(q0, otherq, r);
      pick := -1;
      if RankRefreshIn(otherq, r) {
        return;
      }
      var b, total := PickBank(loads, stores, r, cfg.banks);
      if total == 0 {
        return;
      }
      if banks[r][b].backlog < BACKLOG_MAX && |otherq| < OTHERQ_MAX {
        RanksRefreshed(cfg, banks, turns, sent, n, r, b);
        RefreshTarget(r, b);
        pick := b;
      }
    }

    method Wrp(loads: seq<Place>, stores: seq<Place>, ghost n: nat) returns (ghost picks: seq<int>)
      requires RanksAt(n) && Placed(loads, cfg) && Placed(stores, cfg)
      modifies this`banks, this`otherq, this`sent
      ensures RanksAt(n) && |picks| == cfg.ranks && Grown(old(otherq), otherq, old(sent), sent)
      ensures forall r :: 0 <= r < cfg.ranks ==>
                RankWritten(cfg, loads, stores, old(otherq), otherq, old(banks[r]), banks[r], r, picks[r])
    {
      picks := [];
      for r := 0 to cfg.ranks
        invariant RanksAt(n) && |picks| == r && Grown(old(otherq), otherq, old(sent), sent) && GrownBelow(old(otherq), otherq, r)
        invariant forall i :: r <= i < cfg.ranks ==> banks[i] == old(banks[i])
        invariant forall i :: 0 <= i < r ==>
          RankWritten(cfg, loads, stores, old(otherq), otherq, old(banks[i]), banks[i], i, picks[i])
      {
        ghost var q, s := otherq, sent;
        ghost var pick := WrpRank(r, loads, stores, old(otherq), n);
        picks := picks + [pick];
        GrownTwice(old(otherq), q, otherq, old(sent), s, sent);
      }
    }

    /** The rank's slot passes without a refresh. */
    method SkipRank(r: nat, ghost n: nat)
      requires r < cfg.ranks && RanksOk(cfg, banks, turns, sent, n, r) && turns[r] < cfg.banks
      requires BACKLOG_MIN < Late(banks[r][turns[r]]).backlog
      modifies this`banks, this`turns
      ensures RanksOk(cfg, banks, turns, sent, n, r + 1)
      ensures banks == old(banks)[r := old(banks[r])[old(turns[r]) := Late(old(banks[r][turns[r]]))]]
      ensures turns == old(turns)[r := (old(turns[r]) + 1) % cfg.banks]
    {
      RanksSkip(cfg, banks, turns, sent, n, r);
      var b := turns[r];
      banks := banks[r := banks[r][b := Late(banks[r][b])]];
      turns := turns[r := (turns[r] + 1) % cfg.banks];
    }

    /** The rank's slot passes with the refresh of the bank whose turn it is. */
    method ServeRank(r: nat, ghost n: nat)
      requires r < cfg.ranks && RanksOk(cfg, banks, turns, sent, n, r) && turns[r] < cfg.banks && |otherq| < OTHERQ_MAX
      modifies this`banks, this`turns, this`otherq, this`sent
      ensures RanksOk(cfg, banks, turns, sent, n, r + 1)
      ensures banks == old(banks)[r := old(banks[r])[old(turns[r]) := Refreshed(Late(old(banks[r][turns[r]])), cfg.subarrays)]]
      ensures turns == old(turns)[r := (old(turns[r]) + 1) % cfg.banks]
      ensures otherq == old(otherq) + [Target(r, old(turns[r]), old(banks[r][turns[r]].next))]
      ensures sent == old(sent) + [Target(r, old(turns[r]), old(banks[r][turns[r]].next))]
    {
      var b := turns[r];
      var late := Late(banks[r][b]);
      RanksOnTime(cfg, banks, turns, sent, n, r);
      ghost var after := banks[r := banks[r][b := Refreshed(late, cfg.subarrays)]];
      banks := banks[r := banks[r][b := late]];
      turns := turns[r := (turns[r] + 1) % cfg.banks];
      RefreshTarget(r, b);
      assert banks[r] == after[r];
      assert banks == after;
    }

    /** A rank's slot: skipped when the credit allows it. `ok` is false where `refresh_target` asserts that the queue had room. */
    method InjectRank(r: nat, loads: seq<Place>, ghost n: nat) returns (ok: bool)
      requires r < cfg.ranks && RanksOk(cfg, banks, turns, sent, n, r) && turns[r] < cfg.banks
      modifies this`banks, this`turns, this`otherq, this`sent
      ensures ok <==> (Due(cfg, old(banks[r][turns[r]]), Idle(loads, old(otherq))) ==> old(|otherq|) < 32)
      ensures ok ==> RanksOk(cfg, banks, turns, sent, n, r + 1) && Grown(old(otherq), otherq, old(sent), sent)
      ensures ok ==> turns == old(turns)[r := (old(turns[r]) + 1) % cfg.banks]
      ensures ok ==> var due := Due(cfg, old(banks[r][turns[r]]), Idle(loads, old(otherq)));
                     banks == old(banks)[r := old(banks[r])[old(turns[r]) := AfterSlot(cfg, old(banks[r][turns[r]]), due)]]
      ensures ok ==> var due := Due(cfg, old(banks[r][turns[r]]), Idle(loads, old(otherq)));
                     otherq == old(otherq) + if due then [Target(r, old(turns[r]), old(banks[r][turns[r]].next))] else []
    {
      var late := Late(banks[r][turns[r]]);
      NotQuiet(cfg, late, otherq, loads, banks[r][turns[r]]);
      if RefreshNow(cfg, late, otherq, loads) {
        if |otherq| >= OTHERQ_MAX {
          return false;
        }
        ServeRank(r, n);
      } else {
        SkipRank(r, n);
      }
      return true;
    }

    /** Whole-rank refreshes leave the banks' credits alone. */
    method InjectRanks(ghost n: nat) returns (ok: bool)
      requires RanksAt(n)
      modifies this`otherq, this`sent
      ensures ok ==> RanksAt(n) && Grown(old(otherq), otherq, old(sent), sent)
      ensures ok ==> otherq == old(otherq) + RankQueue(cfg.ranks)
      ensures ok <==> Fits(old(otherq), RankQueue(cfg.ranks))
    {
      for r := 0 to cfg.ranks
        invariant RanksAt(n) && Grown(old(otherq), otherq, old(sent), sent)
        invariant otherq == old(otherq) + RankQueue(r)
        invariant r == 0 || |otherq| <= OTHERQ_MAX
      {
        if |otherq| >= OTHERQ_MAX {
          return false;
        }
        RanksElsewhere(cfg, banks, turns, sent, n, 0, Target(r, -1, -1));
        otherq := otherq + [Target(r, -1, -1)];
        sent := sent + [Target(r, -1, -1)];
      }
      return true;
    }

    /** The slot is over: the next one is an interval away. */
    method CloseSlot(ghost n: nat)
      requires RanksOk(cfg, banks, turns, sent, n, 0) == true && n == (if cfg.rankLevel then 0 else slots + 1)
      requires refreshed == Multiple(slots, cfg.interval) && clk == refreshed + cfg.interval && 0 < cfg.interval
      modifies this`refreshed, this`slots
      ensures Valid() == true
      ensures slots == old(slots) + 1 && refreshed == clk
    {
      refreshed := clk;
      slots := slots + 1;
    }

    /** The schedule's slot: every rank's turn moves on. */
    method InjectRefresh(loads: seq<Place>) returns (ok: bool)
      requires RanksAt(BankSlots()) == true && refreshed == Multiple(slots, cfg.interval) && clk == refreshed + cfg.interval
      modifies this`banks, this`turns, this`otherq, this`sent, this`refreshed, this`slots
      ensures clk == old(clk) && ctrlWriteMode == old(ctrlWriteMode)
      ensures TurnsFit(old(banks), old(turns), cfg.ranks) == true
      ensures ok <==> Fits(old(otherq), SlotWork(cfg, loads, old(otherq), old(banks), old(turns)))
      ensures ok ==> Valid() == true
      ensures ok ==> slots == old(slots) + 1 && Grown(old(otherq), otherq, old(sent), sent) == true
      ensures ok ==> Slotted(cfg, loads, Phase(old(banks), old(otherq), []), banks, otherq, old(turns)) == true
    {
      ghost var after := if cfg.rankLevel then 0 else slots + 1;
      ok := InjectAll(loads, BankSlots(), after);
      if ok {
        CloseSlot(after);
      }
    }

    method InjectAll(loads: seq<Place>, ghost n: nat, ghost after: nat) returns (ok: bool)
      requires RanksAt(n) == true && after == (if cfg.rankLevel then n else n + 1)
      modifies this`banks, this`turns, this`otherq, this`sent
      ensures TurnsFit(old(banks), old(turns), cfg.ranks) == true
      ensures ok <==> Fits(old(otherq), SlotWork(cfg, loads, old(otherq), old(banks), old(turns)))
      ensures ok ==> RanksOk(cfg, banks, turns, sent, after, 0) == true
      ensures ok ==> Grown(old(otherq), otherq, old(sent), sent) == true
      ensures ok ==> Slotted(cfg, loads, Phase(old(banks), old(otherq), []), banks, otherq, old(turns)) == true
    {
      TurnsInRange(cfg, banks, turns, sent, n);
      if cfg.rankLevel {
        ok := InjectRanks(n);
      } else {
        ok := InjectBanks(loads, n);
      }
    }

    method InjectBanks(loads: seq<Place>, ghost n: nat) returns (ok: bool)
      requires RanksAt(n) == true && !cfg.rankLevel
      modifies this`banks, this`turns, this`otherq, this`sent
      ensures TurnsFit(old(banks), old(turns), cfg.ranks) == true
      ensures ok <==> Fits(old(otherq), SlotWork(cfg, loads, old(otherq), old(banks), old(turns)))
      ensures ok ==> RanksOk(cfg, banks, turns, sent, n + 1, 0) == true
      ensures ok ==> Grown(old(otherq), otherq, old(sent), sent) == true
      ensures ok ==> Slotted(cfg, loads, Phase(old(banks), old(otherq), []), banks, otherq, old(turns)) == true
    {
      TurnsInRange(cfg, banks, turns, sent, n);
      ghost var e, turns0 := Phase(banks, otherq, []), turns;
      for r := 0 to cfg.ranks
        invariant RanksOk(cfg, banks, turns, sent, n, r) == true
        invariant Grown(e.otherq, otherq, old(sent), sent)
        invariant Progress(cfg, loads, e, turns0, banks, turns, otherq, r) == true
      {
        ghost var q, s := otherq, sent;
        ok := InjectNext(r, loads, n, e, turns0);
        if !ok {
          return;
        }
        GrownTwice(e.otherq, q, otherq, old(sent), s, sent);
      }
      ProgressDone(cfg, loads, e, turns0, banks, turns, otherq);
      RanksDone(cfg, banks, turns, sent, n);
      return true;
    }

    method InjectNext(r: nat, loads: seq<Place>, ghost n: nat, ghost e: Phase, ghost turns0: seq<nat>) returns (ok: bool)
      requires r < cfg.ranks && RanksOk(cfg, banks, turns, sent, n, r) == true
      requires Progress(cfg, loads, e, turns0, banks, turns, otherq, r) == true
      modifies this`banks, this`turns, this`otherq, this`sent
      ensures |e.banks| == cfg.ranks && TurnsFit(e.banks, turns0, cfg.ranks)
      ensures !ok ==> !Fits(e.otherq, SlotQueue(cfg, loads, e.otherq, e.banks, turns0, cfg.ranks))
      ensures ok ==> RanksOk(cfg, banks, turns, sent, n, r + 1) == true
      ensures ok ==> Progress(cfg, loads, e, turns0, banks, turns, otherq, r + 1) == true
      ensures ok ==> Grown(old(otherq), otherq, old(sent), sent)
    {
      ghost var q, bs, ts := otherq, banks, turns;
      StillQuiet(cfg, loads, e, turns0, banks, turns, otherq, r);
      ghost var due := Due(cfg, banks[r][turns[r]], Idle(loads, otherq));
      ok := InjectRank(r, loads, n);
      if ok {
        ProgressStep(cfg, loads, e, turns0, bs, ts, q, r, due, banks, turns, otherq);
      } else {
        NoRoom(cfg, loads, e, turns0, bs, ts, q, r);
      }
    }

    /** Refreshes out of turn: when writes start, and during reads. */
    method OutOfTurn(loads: seq<Place>, stores: seq<Place>, writeMode: bool, ghost n: nat) returns (ghost w: Phase, ghost e: Phase)
      requires RanksAt(n) && Placed(loads, cfg) && Placed(stores, cfg)
      modifies this`banks, this`otherq, this`sent, this`ctrlWriteMode
      ensures RanksAt(n) && Grown(old(otherq), otherq, old(sent), sent) && ctrlWriteMode == writeMode
      ensures |w.banks| == |e.banks| == cfg.ranks && e.banks == banks && e.otherq == otherq
      ensures Written(cfg, loads, stores, !old(ctrlWriteMode) && writeMode, Phase(old(banks), old(otherq), []), w)
      ensures Pulled(cfg, loads, !writeMode, w, e)
    {
      ghost var picks: seq<int> := [];
      if !ctrlWriteMode && writeMode {
        picks := Wrp(loads, stores, n);
      }
      w := Phase(banks, otherq, picks);
      ghost var s := sent;
      ctrlWriteMode := writeMode;
      picks := EarlyInject(loads, writeMode, n);
      e := Phase(banks, otherq, picks);
      GrownTwice(old(otherq), w.otherq, otherq, old(sent), s, sent);
    }

    /**
     One cycle. `ok` is false where the assertion of `refresh_target` fires because the queue has no room
     for a refresh that cannot wait.
     */
    method TickRef(loads: seq<Place>, stores: seq<Place>, writeMode: bool) returns (ok: bool, ghost w: Phase, ghost e: Phase)
      requires Valid() && Placed(loads, cfg) && Placed(stores, cfg)
      modifies this
      ensures clk == old(clk) + 1
      ensures ok ==> Valid() && Grown(old(otherq), otherq, old(sent), sent)
      ensures cfg.outOfOrder ==> ctrlWriteMode == writeMode
      ensures Written(cfg, loads, stores, cfg.outOfOrder && !old(ctrlWriteMode) && writeMode, Phase(old(banks), old(otherq), []), w)
      ensures Pulled(cfg, loads, cfg.outOfOrder && !writeMode, w, e)
      ensures ok && clk != old(refreshed) + cfg.interval ==> banks == e.banks && otherq == e.otherq
      ensures ok && clk == old(refreshed) + cfg.interval ==> Slotted(cfg, loads, e, banks, otherq, old(turns))
      ensures TurnsFit(e.banks, old(turns), cfg.ranks)
      ensures ok <==>
              (clk == old(refreshed) + cfg.interval ==> Fits(e.otherq, SlotWork(cfg, loads, e.otherq, e.banks, old(turns))))
    {
      clk := clk + 1;
      w := Phase(banks, otherq, []);
      e := w;
      if cfg.outOfOrder {
        w, e := OutOfTurn(loads, stores, writeMode, BankSlots());
      }
      ghost var s := sent;
      TurnsInRange(cfg, banks, turns, sent, BankSlots());
      ok := true;
      if clk - refreshed >= cfg.interval {
        ok := InjectRefresh(loads);
        if ok {
          GrownTwice(old(otherq), e.otherq, otherq, old(sent), s, sent);
        }
      }
    }

    /** Any number of cycles, with the controller's queues as they may be in each. */
    method Run(cycles: seq<Cycle>) returns (ok: bool)
      requires Valid() && forall i :: 0 <= i < |cycles| ==> Placed(cycles[i].loads, cfg) && Placed(cycles[i].stores, cfg)
      modifies this
      ensures ok ==> Valid() && clk == old(clk) + |cycles| && old(sent) <= sent
    {
      for i := 0 to |cycles|
        invariant Valid() && clk == old(clk) + i && old(sent) <= sent
      {
        otherq := cycles[i].otherq;
        ghost var w, e;
        ok, w, e := TickRef(cycles[i].loads, cycles[i].stores, cycles[i].writeMode);
        if !ok {
          return;
        }
      }
      return true;
    }
  }

  /**
   What any run of cycles that did not stop has queued for a bank: the credit is exact and within
   its limits, the refreshes keep up with the schedule, and they go round the subarrays.
   */
  lemma Guarantee(x: Refresher, r: nat, b: nat)
    requires x.Valid() && !x.cfg.rankLevel && r < x.cfg.ranks && b < x.cfg.banks
    ensures var cfg := x.cfg; var done := Refreshes(x.sent, r, b); var due := x.clk / cfg.interval;
            && x.banks[r][b].backlog == |done| - Slots(due, b, cfg.banks)
            && -7 <= x.banks[r][b].backlog <= 8
            && due / cfg.banks - 7 <= |done| <= due / cfg.banks + 9
            && RoundRobin(done, cfg.subarrays)
  {
    var cfg := x.cfg;
    MultipleIsProduct(x.slots, cfg.interval);
    Remainder(x.slots, x.clk - x.refreshed, cfg.interval);
    assert x.clk / cfg.interval == x.slots;
    assert RankOk(cfg, x.banks[r], x.turns[r], x.sent, r, x.slots);
    KeepsUp(cfg, x.banks[r], x.turns[r], x.sent, r, x.slots, b);
  }
}
