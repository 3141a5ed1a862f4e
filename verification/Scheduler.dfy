/**
 Which request of a queue is served next. Every request is seen through what the
 controller asks about it in this cycle: whether its first command may be issued now, whether
 it hits an open row, whether its bank has one open, the group of rows a precharge
 would close, and when it arrived.
 */
module Scheduler {

  datatype Type = FCFS | FRFCFS | FRFCFS_Cap | FRFCFS_PriorHit

  const CAP: int := 16

  datatype View = View(ready: bool, hit: bool, open: bool, group: seq<int>, arrive: int, hits: int)

  /** The comparison keeps the first of two requests. */
  predicate Keeps(prior1: bool, arrive1: int, prior2: bool, arrive2: int) {
    if prior1 != prior2 then prior1 else arrive1 <= arrive2
  }

  /** What puts a request in front of the others, by scheduler type. */
  predicate Prior(t: Type, v: View) {
    match t
    case FCFS => false
    case FRFCFS => v.ready
    case FRFCFS_Cap => v.ready && v.hits <= CAP
    case FRFCFS_PriorHit => v.ready && v.hit
  }

  /** `h` comes before `j`: by priority, then by arrival, then by place in the queue. */
  predicate Before(t: Type, vs: seq<View>, h: nat, j: nat)
    requires h < |vs| && j < |vs|
  {
    if Prior(t, vs[h]) != Prior(t, vs[j]) then Prior(t, vs[h])
    else vs[h].arrive < vs[j].arrive || (vs[h].arrive == vs[j].arrive && h <= j)
  }

  predicate First(t: Type, vs: seq<View>, h: nat) {
    h < |vs| && forall j :: 0 <= j < |vs| ==> Before(t, vs, h, j)
  }

  predicate ReadyHit(v: View) {
    v.ready && v.hit
  }

  /** Serving `v` would precharge rows that another queued request hits. */
  predicate Violates(vs: seq<View>, v: View) {
    !v.hit && v.open && exists j :: 0 <= j < |vs| && vs[j].hit && vs[j].group == v.group
  }

  /** The first, by readiness and age, of the requests that violate no hit. */
  predicate FirstHarmless(vs: seq<View>, h: nat) {
    && h < |vs| && !Violates(vs, vs[h])
    && forall j :: 0 <= j < |vs| && !Violates(vs, vs[j]) ==> Before(FRFCFS, vs, h, j)
  }

  predicate OldestReadyHit(vs: seq<View>, h: nat) {
    && h < |vs| && ReadyHit(vs[h])
    && forall j :: 0 <= j < |vs| && ReadyHit(vs[j]) ==>
         vs[h].arrive < vs[j].arrive || (vs[h].arrive == vs[j].arrive && h <= j)
  }

  /** What the default scheduler is to return from a queue that is not empty. */
  predicate IsHead(vs: seq<View>, h: nat) {
    if exists j :: 0 <= j < |vs| && ReadyHit(vs[j]) then OldestReadyHit(vs, h) else FirstHarmless(vs, h)
  }

  /** The scan with `compare`. */
  method Scan(t: Type, vs: seq<View>) returns (h: nat)
    requires vs != []
    ensures First(t, vs, h)
  {
    h := 0;
    for i := 1 to |vs|
      invariant h < i && forall j :: 0 <= j < i ==> Before(t, vs, h, j)
    {
      if !Keeps(Prior(t, vs[h]), vs[h].arrive, Prior(t, vs[i]), vs[i].arrive) {
        forall j | 0 <= j < i ensures Before(t, vs, i, j) {
          assert Before(t, vs, h, j);
        }
        h := i;
      }
    }
  }

  method HitGroups(vs: seq<View>) returns (groups: seq<seq<int>>)
    ensures forall g :: g in groups <==> exists j :: 0 <= j < |vs| && vs[j].hit && vs[j].group == g
  {
    groups := [];
    for i := 0 to |vs|
      invariant forall g :: g in groups <==> exists j :: 0 <= j < i && vs[j].hit && vs[j].group == g
    {
      if vs[i].hit {
        ghost var before := groups;
        groups := groups + [vs[i].group];
        assert forall g :: g in groups <==> g in before || g == vs[i].group;
      }
    }
  }

  /** `h` arrived before `j`, or with it and stands before it. */
  predicate Older(vs: seq<View>, h: nat, j: nat)
    requires h < |vs| && j < |vs|
  {
    vs[h].arrive < vs[j].arrive || (vs[h].arrive == vs[j].arrive && h <= j)
  }

  /** Of the requests `from` admits, `h` is the oldest of the preferred ones, or of all if none is preferred. */
  ghost predicate Prefers(vs: seq<View>, h: nat, from: View -> bool, preferred: View -> bool) {
    && h < |vs| && from(vs[h])
    && if exists j :: 0 <= j < |vs| && from(vs[j]) && preferred(vs[j]) then
         preferred(vs[h]) && forall j :: 0 <= j < |vs| && from(vs[j]) && preferred(vs[j]) ==> Older(vs, h, j)
       else
         forall j :: 0 <= j < |vs| && from(vs[j]) ==> Older(vs, h, j)
  }

  lemma FirstPrefers(t: Type, vs: seq<View>, h: nat)
    ensures First(t, vs, h) <==> Prefers(vs, h, (v: View) => true, (v: View) => Prior(t, v))
  {
    if First(t, vs, h) {
      forall j | 0 <= j < |vs| ensures Prior(t, vs[j]) ==> Prior(t, vs[h]) {
        assert Before(t, vs, h, j);
      }
      forall j | 0 <= j < |vs| && Prior(t, vs[h]) == Prior(t, vs[j]) ensures Older(vs, h, j) {
        assert Before(t, vs, h, j);
      }
    }
  }

  /** The request each type serves first: the oldest, the oldest ready one, or the oldest ready one of a row hit at most 16 times. */
  lemma FirstByType(vs: seq<View>, h: nat)
    ensures First(FCFS, vs, h) <==> Prefers(vs, h, (v: View) => true, (v: View) => false)
    ensures First(FRFCFS, vs, h) <==> Prefers(vs, h, (v: View) => true, (v: View) => v.ready)
    ensures First(FRFCFS_Cap, vs, h) <==> Prefers(vs, h, (v: View) => true, (v: View) => v.ready && v.hits <= 16)
    ensures First(FRFCFS_PriorHit, vs, h) <==> Prefers(vs, h, (v: View) => true, (v: View) => v.ready && v.hit)
  {
    FirstPrefers(FCFS, vs, h);
    FirstPrefers(FRFCFS, vs, h);
    FirstPrefers(FRFCFS_Cap, vs, h);
    FirstPrefers(FRFCFS_PriorHit, vs, h);
  }

  /** With no ready hit, the default type serves the oldest ready one of the requests that violate no hit, or the oldest of them. */
  lemma HarmlessPrefers(vs: seq<View>, h: nat)
    ensures FirstHarmless(vs, h) <==> Prefers(vs, h, (v: View) => !Violates(vs, v), (v: View) => v.ready)
  {
    if FirstHarmless(vs, h) {
      forall j | 0 <= j < |vs| && !Violates(vs, vs[j])
        ensures (vs[j].ready ==> vs[h].ready) && (vs[h].ready == vs[j].ready ==> Older(vs, h, j))
      {
        assert Before(FRFCFS, vs, h, j);
      }
    }
  }

  /** Some request violates no hit: a hit itself, or any request when nothing hits. */
  lemma SomeHarmless(vs: seq<View>) returns (j: nat)
    requires vs != []
    ensures j < |vs| && !Violates(vs, vs[j])
  {
    if exists i :: 0 <= i < |vs| && vs[i].hit {
      j :| j < |vs| && vs[j].hit;
    } else {
      j := 0;
    }
  }

  /** `get_head`: a place in the queue, or `-1` for its end. */
  method GetHead(t: Type, vs: seq<View>) returns (h: int)
    ensures h == -1 <==> vs == []
    ensures vs != [] ==> 0 <= h
    ensures vs != [] && t != FRFCFS_PriorHit ==> First(t, vs, h)
    ensures vs != [] && t == FRFCFS_PriorHit ==> IsHead(vs, h)
  {
    if vs == [] {
      return -1;
    }
    h := Scan(t, vs);
    forall j | 0 <= j < |vs| && t == FRFCFS_PriorHit && ReadyHit(vs[j])
      ensures ReadyHit(vs[h]) && (vs[h].arrive < vs[j].arrive || (vs[h].arrive == vs[j].arrive && h <= j))
    {
      assert Before(t, vs, h, j);
    }
    if t != FRFCFS_PriorHit || ReadyHit(vs[h]) {
      return;
    }
    var groups := HitGroups(vs);
    h := -1;
    for i := 0 to |vs|
      invariant -1 <= h < i
      invariant h == -1 ==> forall j :: 0 <= j < i ==> Violates(vs, vs[j])
      invariant h != -1 ==> !Violates(vs, vs[h])
      invariant h != -1 ==> forall j :: 0 <= j < i && !Violates(vs, vs[j]) ==> Before(FRFCFS, vs, h, j)
    {
      if !vs[i].hit && vs[i].open && vs[i].group in groups {
        continue;
      }
      assert !Violates(vs, vs[i]);
      if h == -1 || !Keeps(vs[h].ready, vs[h].arrive, vs[i].ready, vs[i].arrive) {
        forall j | 0 <= j < i && !Violates(vs, vs[j]) ensures Before(FRFCFS, vs, i, j) {
          assert h != -1 ==> Before(FRFCFS, vs, h, j);
        }
        h := i;
      }
    }
    ghost var j := SomeHarmless(vs);
  }
}

/** The default scheduler over the DDR3 and HMC command state machine. */
module SchedulerBanks {
  import opened Banks
  import opened Scheduler

  /** `check_row_hit` and `check_row_open`: only reads and writes have a row to look for. */
  predicate RowOpen(d: Device, q: Request)
    requires d.Shaped() && Addressed(d, q.kind, q.addr)
  {
    (q.kind.Read? || q.kind.Write?) && d.banks[q.addr[..ROW]].state == Opened
  }

  predicate RowHit(d: Device, q: Request)
    requires d.Shaped() && Addressed(d, q.kind, q.addr)
  {
    RowOpen(d, q) && q.addr[ROW] in d.banks[q.addr[..ROW]].rows
  }

  ghost predicate Queued(d: Device, qs: seq<Request>) {
    d.Shaped() && forall i :: 0 <= i < |qs| ==> (qs[i].kind.Read? || qs[i].kind.Write?) && Addressed(d, qs[i].kind, qs[i].addr)
  }

  /** What the controller sees of a queue of reads or writes. */
  ghost predicate Seen(d: Device, qs: seq<Request>, vs: seq<View>)
    requires Queued(d, qs)
  {
    && |vs| == |qs|
    && forall i :: 0 <= i < |qs| ==>
         vs[i].hit == RowHit(d, qs[i]) && vs[i].open == RowOpen(d, qs[i]) && vs[i].group == qs[i].addr[..ROW]
  }

  /** Whatever is served first, no row that a queued request hits is closed for it. */
  lemma HeadKeepsHits(d: Device, qs: seq<Request>, vs: seq<View>, h: nat, j: nat)
    requires Queued(d, qs) && Seen(d, qs, vs) && IsHead(vs, h) && j < |qs|
    ensures h < |qs|
    ensures var c := Decode(d, qs[h].kind, qs[h].addr); var d' := Apply(d, c, qs[h].addr);
            && (c == PRE ==> !exists i :: 0 <= i < |qs| && RowHit(d, qs[i]) && qs[i].addr[..ROW] == qs[h].addr[..ROW])
            && (RowHit(d, qs[j]) ==> Addressed(d', qs[j].kind, qs[j].addr) && RowHit(d', qs[j]))
  {
    assert h < |qs|;
    var c := Decode(d, qs[h].kind, qs[h].addr);
    AddressedSameKeys(d, Apply(d, c, qs[h].addr), qs[j].kind, qs[j].addr);
    if c == PRE {
      assert !vs[h].hit && vs[h].open;
      assert !Violates(vs, vs[h]);
    }
  }
}

/** The default scheduler over SALP-1, where a precharge may go to another subarray than the request's. */
module SchedulerSalp {
  import opened Requests
  import opened Salp
  import opened Scheduler

  predicate RowHit(k: Rank, q: Request)
    requires Fits(k, q.kind, q.addr)
  {
    (q.kind.Read? || q.kind.Write?) &&
    var s := k.banks[q.addr.bank].subs[q.addr.sub]; s.state == Opened && q.addr.row in s.rows
  }

  /** SALP-1 asks the bank, not the subarray, whether a row is open. */
  predicate RowOpen(k: Rank, q: Request)
    requires Fits(k, q.kind, q.addr)
  {
    (q.kind.Read? || q.kind.Write?) && k.banks[q.addr.bank].state == Opened
  }

  ghost predicate Queued(k: Rank, qs: seq<Request>) {
    forall i :: 0 <= i < |qs| ==> (qs[i].kind.Read? || qs[i].kind.Write?) && Fits(k, qs[i].kind, qs[i].addr)
  }

  /** The group of a request is its subarray, the scope of a precharge. */
  ghost predicate Seen(k: Rank, qs: seq<Request>, vs: seq<View>)
    requires Queued(k, qs)
  {
    && |vs| == |qs|
    && forall i :: 0 <= i < |qs| ==>
         vs[i].hit == RowHit(k, qs[i]) && vs[i].open == RowOpen(k, qs[i]) && vs[i].group == [qs[i].addr.bank, qs[i].addr.sub]
  }

  /** The first command closes another subarray of the bank while a queued request hits in that bank. */
  predicate ClosesOther(k: Rank, qs: seq<Request>, h: nat, j: nat)
    requires h < |qs| && j < |qs| && Fits(k, qs[h].kind, qs[h].addr) && Fits(k, qs[j].kind, qs[j].addr)
  {
    Decode(SALP1, k, qs[h].kind, qs[h].addr) == PRE_OTHER && qs[j].addr.bank == qs[h].addr.bank
  }

  /**
   A row that a queued request hits survives the first command of the head unless, and only
   unless, that command is a precharge of another subarray in the same bank.
   */
  lemma HeadKeepsHitsUnless(k: Rank, qs: seq<Request>, vs: seq<View>, h: nat, j: nat)
    requires Sound(SALP1, k) && Queued(k, qs) && Seen(k, qs, vs) && IsHead(vs, h) && j < |qs| && RowHit(k, qs[j])
    ensures h < |qs|
    ensures var k' := Serve(SALP1, k, qs[h].kind, qs[h].addr);
            Fits(k', qs[j].kind, qs[j].addr) && (RowHit(k', qs[j]) <==> !ClosesOther(k, qs, h, j))
  {
    assert h < |qs|;
    var a, b := qs[h].addr, qs[j].addr;
    var c := Decode(SALP1, k, qs[h].kind, a);
    assert Consistent(SALP1, k.banks[b.bank]) && Consistent(SALP1, k.banks[a.bank]);
    assert OneRow(k.banks[b.bank].subs[b.sub]);
    if c == PRE_OTHER {
      OffendingIsTheOpenOne(k.banks[a.bank], a.sub, a.row, Translate(qs[h].kind));
    } else if c == PRE {
      assert OneRow(k.banks[a.bank].subs[a.sub]);
      assert !vs[h].hit && vs[h].open;
      assert !Violates(vs, vs[h]);
      assert vs[j].hit && vs[j].group != vs[h].group;
    }
  }

  /** Row `j` still hits after the first command of request `h`. */
  ghost predicate Survives(k: Rank, qs: seq<Request>, h: nat, j: nat)
    requires Sound(SALP1, k) && Queued(k, qs) && h < |qs| && j < |qs|
  {
    var k' := Serve(SALP1, k, qs[h].kind, qs[h].addr);
    Fits(k', qs[j].kind, qs[j].addr) && RowHit(k', qs[j])
  }

  /** Request `h` goes to the bank in which request `j` hits, but to another subarray. */
  predicate Crosses(k: Rank, qs: seq<Request>, h: nat, j: nat)
    requires h < |qs| && j < |qs| && Fits(k, qs[j].kind, qs[j].addr)
  {
    RowHit(k, qs[j]) && qs[h].addr.bank == qs[j].addr.bank && qs[h].addr.sub != qs[j].addr.sub
  }

  ghost predicate Crossed(k: Rank, qs: seq<Request>)
    requires Queued(k, qs)
  {
    k.power == PowerUp && exists h: nat, j: nat :: h < |qs| && j < |qs| && Crosses(k, qs, h, j)
  }

  /** With this view of the queue, whatever the timing made ready, the hit of request `j` is safe from the head. */
  ghost predicate SafeIn(k: Rank, qs: seq<Request>, vs: seq<View>, h: nat, j: nat)
    requires Sound(SALP1, k) && Queued(k, qs)
  {
    Seen(k, qs, vs) && IsHead(vs, h) && h < |qs| && j < |qs| && RowHit(k, qs[j]) ==> Survives(k, qs, h, j)
  }

  /** The first command of `h` precharges the hit of `j` exactly if the two cross in a powered-up rank. */
  lemma ClosesOtherIsCrossing(k: Rank, qs: seq<Request>, h: nat, j: nat)
    requires Sound(SALP1, k) && Queued(k, qs) && h < |qs| && j < |qs| && RowHit(k, qs[j])
    ensures ClosesOther(k, qs, h, j) <==> k.power == PowerUp && Crosses(k, qs, h, j)
  {
    var a, b := qs[h].addr, qs[j].addr;
    var bank := k.banks[b.bank];
    assert Consistent(SALP1, bank) && OneRow(bank.subs[b.sub]);
    if a.bank == b.bank {
      assert OneRow(bank.subs[a.sub]);
      var o :| OnlyOpen(bank, o);
      assert o == b.sub;
    }
  }

  /** The view in which only request `h` is ready. */
  ghost function OnlyReady(k: Rank, qs: seq<Request>, h: nat): (vs: seq<View>)
    requires Queued(k, qs)
  {
    seq(|qs|, i requires 0 <= i < |qs| =>
      View(i == h, RowHit(k, qs[i]), RowOpen(k, qs[i]), [qs[i].addr.bank, qs[i].addr.sub], 0, 0))
  }

  lemma GroupsDiffer(a: Address, b: Address)
    ensures [a.bank, a.sub] == [b.bank, b.sub] ==> a.bank == b.bank && a.sub == b.sub
  {
    var x, y := [a.bank, a.sub], [b.bank, b.sub];
    assert x[0] == a.bank && x[1] == a.sub && y[0] == b.bank && y[1] == b.sub;
  }

  lemma CrossingIsHead(k: Rank, qs: seq<Request>, h: nat, j: nat)
    requires Sound(SALP1, k) && Queued(k, qs) && h < |qs| && j < |qs| && Crosses(k, qs, h, j)
    ensures Seen(k, qs, OnlyReady(k, qs, h)) && IsHead(OnlyReady(k, qs, h), h)
  {
    var vs, bank := OnlyReady(k, qs, h), k.banks[qs[h].addr.bank];
    assert Consistent(SALP1, bank);
    var o :| OnlyOpen(bank, o);
    assert o == qs[j].addr.sub;
    assert bank.subs[qs[h].addr.sub].state == Closed;
    forall i | 0 <= i < |vs| && vs[i].hit ensures vs[i].group != vs[h].group {
      GroupsDiffer(qs[i].addr, qs[h].addr);
    }
    assert !Violates(vs, vs[h]);
    assert forall i :: 0 <= i < |vs| && ReadyHit(vs[i]) ==> i == h;
  }

  /**
   Whatever is ready, no first command of a head closes a row that a queued request hits, if and only if no queued
   request goes to a bank in which another one hits a different subarray, or the rank is not powered up.
   */
  lemma HitsSafeUnlessCrossed(k: Rank, qs: seq<Request>)
    requires Sound(SALP1, k) && Queued(k, qs)
    ensures (forall vs: seq<View>, h: nat, j: nat :: SafeIn(k, qs, vs, h, j)) <==> !Crossed(k, qs)
  {
    if Crossed(k, qs) {
      var h: nat, j: nat :| h < |qs| && j < |qs| && Crosses(k, qs, h, j);
      var vs := OnlyReady(k, qs, h);
      CrossingIsHead(k, qs, h, j);
      HeadKeepsHitsUnless(k, qs, vs, h, j);
      ClosesOtherIsCrossing(k, qs, h, j);
      assert !SafeIn(k, qs, vs, h, j);
    } else {
      forall vs: seq<View>, h: nat, j: nat ensures SafeIn(k, qs, vs, h, j) {
        if Seen(k, qs, vs) && IsHead(vs, h) && h < |qs| && j < |qs| && RowHit(k, qs[j]) {
          HeadKeepsHitsUnless(k, qs, vs, h, j);
          ClosesOtherIsCrossing(k, qs, h, j);
        }
      }
    }
  }

  /** Such a precharge is picked: the only ready request goes to a closed subarray of a bank whose open row another request hits. */
  lemma HitClosedByOther()
    ensures exists k, qs, vs, h: nat, j: nat ::
              && Sound(SALP1, k) && Queued(k, qs) && Seen(k, qs, vs) && IsHead(vs, h) && j < |qs|
              && RowHit(k, qs[j]) && ClosesOther(k, qs, h, j)
  {
    var open := Subarray(Opened, {7});
    var bank := Bank(Opened, [open, CLOSED]);
    var k := Rank(PowerUp, [bank]);
    var qs := [Request(Read, Address(0, 0, 7)), Request(Read, Address(0, 1, 3))];
    var vs := [View(false, true, true, [0, 0], 1, 0), View(true, false, true, [0, 1], 2, 0)];
    assert 7 in open.rows;
    assert OneRow(open) && OneRow(CLOSED);
    assert OnlyOpen(bank, 0);
    assert Consistent(SALP1, bank);
    assert Sound(SALP1, k);
    assert Queued(k, qs) && Seen(k, qs, vs);
    assert !Violates(vs, vs[1]);
    assert IsHead(vs, 1);
    assert ClosesOther(k, qs, 1, 0);
  }
}
