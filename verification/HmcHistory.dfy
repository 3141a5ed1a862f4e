/**
 What a run of the packet protocol did to each request, told by watching its events: when the
 request reached its vault, what it met there, how often it was accessed, and what crossed each link.
 */
module HmcHistory {
  import opened HmcProtocol
  import opened HmcRuns

  /** A packet of request `id` that left the input buffer of a link. */
  datatype Crossing = Crossing(link: nat, id: nat, write: bool)

  /**
   `arrive` numbers the requests in the order their vaults took them. `beside` are the reads that met a queued
   write to their own address then. `accesses` counts access commands, `crossed` lists packets that left the links.
   */
  datatype History = History(arrive: map<nat, nat>, count: nat, beside: set<nat>, accesses: multiset<nat>, crossed: seq<Crossing>)

  const NOTHING := History(map[], 0, {}, multiset{}, [])

  predicate WriteTo(q: seq<Req>, addr: int) {
    exists i :: 0 <= i < |q| && q[i].addr == addr
  }

  /** One event, seen from outside: a request is taken when the queue of its kind has room. */
  ghost function Watch(s: State, e: Event, h: History): (r: History)
    requires Enabled(s, e) && Safe(s, e)
  {
    match e
    case XbarIn(l) =>
      if s.links[l].input == [] then h else
      var p := s.links[l].input[0];
      var v := s.vaults[p.vault];
      if (if p.req.write then |v.writeq| else |v.readq|) == 32 then h else
      History(h.arrive[p.req.id := h.count], h.count + 1,
              if !p.req.write && WriteTo(v.writeq, p.req.addr) then h.beside + {p.req.id} else h.beside,
              h.accesses, h.crossed + [Crossing(l, p.req.id, p.req.write)])
    case Access(v, writes, j) =>
      var q := if writes then s.vaults[v].writeq else s.vaults[v].readq;
      if j < |q| then h.(accesses := h.accesses + multiset{q[j].id}) else h
    case _ => h
  }

  ghost function Watched(cfg: Config, s: State, es: seq<Event>, h: History): (r: History)
    requires Inv(s) && AllFit(|s.links|, |s.vaults|, es)
    decreases |es|
  {
    if es == [] then h else
    assert Fits(|s.links|, |s.vaults|, es[0]);
    InvSafe(s, es[0]);
    StepKeepsInv(cfg, s, es[0]);
    Watched(cfg, Step(cfg, s, es[0]), es[1..], Watch(s, es[0], h))
  }

  // ----- what holds of each place -----

  predicate IsQueued(cfg: Config, r: Req, h: History) {
    r.id in h.arrive && r.id !in h.beside && h.accesses[r.id] == cfg.burst - r.burst
  }

  /** Accessed as often as a burst asks, or a read that met a write to its address and was never accessed. */
  predicate IsServed(cfg: Config, r: Req, h: History) {
    && r.id in h.arrive
    && if r.id in h.beside then !r.write && h.accesses[r.id] == 0 else h.accesses[r.id] == cfg.burst
  }

  predicate IsNew(h: History, id: nat) {
    id !in h.arrive && id !in h.beside && h.accesses[id] == 0
  }

  ghost predicate VaultServes(cfg: Config, v: Vault, h: History) {
    && (forall j :: 0 <= j < |v.readq| ==> IsQueued(cfg, v.readq[j], h))
    && (forall j :: 0 <= j < |v.writeq| ==> IsQueued(cfg, v.writeq[j], h))
    && (forall j :: 0 <= j < |v.pending| ==> IsServed(cfg, v.pending[j], h))
  }

  /** A queued read came before every queued write to its address. */
  predicate ReadsFirst(v: Vault, h: History) {
    forall i, j :: 0 <= i < |v.readq| && 0 <= j < |v.writeq| && v.readq[i].addr == v.writeq[j].addr
                   && v.readq[i].id in h.arrive && v.writeq[j].id in h.arrive ==>
      h.arrive[v.readq[i].id] < h.arrive[v.writeq[j].id]
  }

  ghost predicate LinkFresh(k: Link, h: History) {
    forall i :: 0 <= i < |k.input| ==> IsNew(h, k.input[i].req.id)
  }

  ghost predicate HistoryOk(h: History, n: nat) {
    && (forall id :: id in h.arrive ==> id < n && h.arrive[id] < h.count)
    && (forall id: nat :: id >= n ==> IsNew(h, id))
  }

  ghost predicate Tells(cfg: Config, s: State, h: History) {
    && HistoryOk(h, |s.tickets|)
    && (forall i :: 0 <= i < |s.vaults| ==> VaultServes(cfg, s.vaults[i], h) && ReadsFirst(s.vaults[i], h))
    && (forall l :: 0 <= l < |s.links| ==> LinkFresh(s.links[l], h))
  }

  // ----- a request is in one place -----

  lemma PacketMember(ps: seq<Packet>, k: nat)
    requires k < |ps|
    ensures InPackets(ps, ps[k].req.id) >= 1
    ensures k > 0 ==> InPackets(ps[1..], ps[k].req.id) >= 1
    decreases k
  {
    if k > 0 {
      PacketMember(ps[1..], k - 1);
    }
  }

  lemma VaultMember(v: Vault, r: Req)
    requires r in v.readq || r in v.writeq || r in v.pending
    ensures InVault(v, r.id) >= 1
  {
    if r in v.readq {
      var j :| 0 <= j < |v.readq| && v.readq[j] == r;
      InReqsMember(v.readq, j);
    } else if r in v.writeq {
      var j :| 0 <= j < |v.writeq| && v.writeq[j] == r;
      InReqsMember(v.writeq, j);
    } else {
      var j :| 0 <= j < |v.pending| && v.pending[j] == r;
      InReqsMember(v.pending, j);
    }
  }

  /** What waits on a link is in no vault. */
  lemma LinkOrVault(s: State, l: nat, k: nat, i: nat, r: Req)
    requires Once(s) && l < |s.links| && k < |s.links[l].input| && i < |s.vaults|
    requires r in s.vaults[i].readq || r in s.vaults[i].writeq || r in s.vaults[i].pending
    ensures s.links[l].input[k].req.id != r.id
  {
    VaultMember(s.vaults[i], r);
    InVaultsUpdate(s.vaults, i, s.vaults[i], r.id);
    InLinksUpdate(s.links, l, s.links[l], r.id);
    PacketMember(s.links[l].input, k);
    assert Places(s, r.id) <= 1;
  }

  /** The head of a link is on no other place of a link. */
  lemma HeadAlone(s: State, l: nat, m: nat, k: nat)
    requires Inv(s) && l < |s.links| && s.links[l].input != [] && m < |s.links| && k < |s.links[m].input| && (m != l || k > 0)
    ensures s.links[m].input[k].req.id != s.links[l].input[0].req.id
  {
    var id := s.links[l].input[0].req.id;
    assert LinkOk(s.links[l], l, |s.vaults|, s.tickets) && LinkOk(s.links[m], m, |s.vaults|, s.tickets);
    assert Honest(s.links[l].input[0], s.tickets) && Honest(s.links[m].input[k], s.tickets);
    if m == l {
      PacketMember(s.links[l].input, k);
      InLinksUpdate(s.links, l, s.links[l], id);
      assert Places(s, id) <= 1;
    }
  }

  /** A queued request is nowhere else in its vault, and in no other vault. */
  lemma QueuedAlone(s: State, i: nat, writes: bool, j: nat)
    requires Inv(s) && i < |s.vaults| && j < |Queue(s.vaults[i], writes)|
    ensures Lone(s.vaults[i], writes, j)
  {
    var v := s.vaults[i];
    var q := Queue(v, writes);
    QueuedOnce(s, i, q[j].id);
    InReqsRemove(q, j, q[j].id);
    AbsentFrom(Remove(q, j), q[j].id);
    AbsentFrom(Queue(v, !writes), q[j].id);
    AbsentFrom(v.pending, q[j].id);
    forall k | 0 <= k < |q| && k != j ensures q[k].id != q[j].id {
      assert Remove(q, j)[if k < j then k else k - 1] == q[k];
    }
  }

  lemma OtherVault(s: State, i: nat, r: Req, k: nat, x: Req)
    requires VaultsOk(s) && i < |s.vaults| && k < |s.vaults| && i != k
    requires r in s.vaults[i].readq || r in s.vaults[i].writeq || r in s.vaults[i].pending
    requires x in s.vaults[k].readq || x in s.vaults[k].writeq || x in s.vaults[k].pending
    ensures r.id != x.id
  {
    assert VaultOk(s.vaults[i], i, |s.links|, s.tickets) && VaultOk(s.vaults[k], k, |s.links|, s.tickets);
    assert Known(r, s.vaults[i].incoming, i, s.tickets) && Known(x, s.vaults[k].incoming, k, s.tickets);
  }

  /** `h` and `r` say the same of every request but `id`. */
  ghost predicate Beside(h: History, r: History, id: nat) {
    forall x: nat {:trigger r.accesses[x]} :: x != id ==>
      && (x in r.arrive <==> x in h.arrive) && (x in h.arrive ==> r.arrive[x] == h.arrive[x])
      && (x in r.beside <==> x in h.beside) && r.accesses[x] == h.accesses[x]
  }

  ghost predicate Misses(v: Vault, id: nat) {
    && (forall j :: 0 <= j < |v.readq| ==> v.readq[j].id != id)
    && (forall j :: 0 <= j < |v.writeq| ==> v.writeq[j].id != id)
    && (forall j :: 0 <= j < |v.pending| ==> v.pending[j].id != id)
  }

  lemma StaysServed(cfg: Config, v: Vault, h: History, r: History, id: nat)
    requires VaultServes(cfg, v, h) && ReadsFirst(v, h) && Misses(v, id) && Beside(h, r, id)
    ensures VaultServes(cfg, v, r) && ReadsFirst(v, r)
  {
    forall j | 0 <= j < |v.readq| ensures IsQueued(cfg, v.readq[j], r) {
      assert IsQueued(cfg, v.readq[j], h) && r.accesses[v.readq[j].id] == h.accesses[v.readq[j].id];
    }
    forall j | 0 <= j < |v.writeq| ensures IsQueued(cfg, v.writeq[j], r) {
      assert IsQueued(cfg, v.writeq[j], h) && r.accesses[v.writeq[j].id] == h.accesses[v.writeq[j].id];
    }
    forall j | 0 <= j < |v.pending| ensures IsServed(cfg, v.pending[j], r) {
      assert IsServed(cfg, v.pending[j], h) && r.accesses[v.pending[j].id] == h.accesses[v.pending[j].id];
    }
  }

  // ----- a request reaches its vault -----

  /** Where an arriving request goes, and what the vault then holds. */
  lemma ReceiveServes(cfg: Config, v: Vault, p: Packet, h: History, r: History)
    requires VaultServes(cfg, v, h) && ReadsFirst(v, h) && Misses(v, p.req.id) && IsNew(h, p.req.id) && !QueueFull(v, p.req)
    requires Beside(h, r, p.req.id) && p.req.id in r.arrive && r.accesses[p.req.id] == 0
    requires p.req.id in r.beside <==> !p.req.write && WriteTo(v.writeq, p.req.addr)
    requires forall x :: x in h.arrive ==> h.arrive[x] < r.arrive[p.req.id]
    ensures VaultServes(cfg, Receive(cfg, v, p), r) && ReadsFirst(Receive(cfg, v, p), r)
  {
    StaysServed(cfg, v, h, r, p.req.id);
    var x := p.req.(burst := cfg.burst);
    if x.write {
      forall i | 0 <= i < |v.readq| ensures r.arrive[v.readq[i].id] < r.arrive[x.id] {
        assert IsQueued(cfg, v.readq[i], h) && r.accesses[v.readq[i].id] == h.accesses[v.readq[i].id];
      }
    } else if WriteTo(v.writeq, x.addr) {
      assert IsServed(cfg, x, r);
    } else {
      assert IsQueued(cfg, x, r);
    }
  }

  /** All vaults after request `p` was taken by its own. */
  lemma ArrivalVaults(cfg: Config, s: State, l: nat, h: History, r: History)
    requires Inv(s) && Enabled(s, XbarIn(l)) && Safe(s, XbarIn(l)) && Tells(cfg, s, h) && s.links[l].input != []
    requires var p := s.links[l].input[0];
             && !QueueFull(s.vaults[p.vault], p.req) && r == Watch(s, XbarIn(l), h)
    ensures forall i :: 0 <= i < |s.vaults| ==>
              VaultServes(cfg, CrossesIn(cfg, s, l).vaults[i], r) && ReadsFirst(CrossesIn(cfg, s, l).vaults[i], r)
  {
    var p, t := s.links[l].input[0], CrossesIn(cfg, s, l);
    assert LinkFresh(s.links[l], h) && IsNew(h, p.req.id);
    forall i | 0 <= i < |s.vaults| ensures VaultServes(cfg, t.vaults[i], r) && ReadsFirst(t.vaults[i], r) {
      assert VaultServes(cfg, s.vaults[i], h) && ReadsFirst(s.vaults[i], h);
      HeadNotInVault(s, l, i);
      if i == p.vault {
        ReceiveServes(cfg, s.vaults[i], p, h, r);
      } else {
        StaysServed(cfg, s.vaults[i], h, r, p.req.id);
      }
    }
  }

  lemma ArrivalTells(cfg: Config, s: State, l: nat, h: History)
    requires Inv(s) && Enabled(s, XbarIn(l)) && Safe(s, XbarIn(l)) && Tells(cfg, s, h)
    ensures Tells(cfg, CrossesIn(cfg, s, l), Watch(s, XbarIn(l), h))
  {
    var t, r := CrossesIn(cfg, s, l), Watch(s, XbarIn(l), h);
    if s.links[l].input != [] {
      var p := s.links[l].input[0];
      if QueueFull(s.vaults[p.vault], p.req) {
        assert VaultServes(cfg, s.vaults[p.vault], h) && ReadsFirst(s.vaults[p.vault], h);
      } else {
        ArrivalVaults(cfg, s, l, h, r);
        forall m | 0 <= m < |t.links| ensures LinkFresh(t.links[m], r) {
          OthersFresh(s, l, m, h, r);
        }
        assert LinkOk(s.links[l], l, |s.vaults|, s.tickets) && Honest(p, s.tickets);
        StillNew(h, r, p.req.id, |s.tickets|);
      }
    }
  }

  lemma HeadNotInVault(s: State, l: nat, i: nat)
    requires Inv(s) && l < |s.links| && s.links[l].input != [] && i < |s.vaults|
    ensures Misses(s.vaults[i], s.links[l].input[0].req.id)
  {
    var v := s.vaults[i];
    forall j | 0 <= j < |v.readq| ensures v.readq[j].id != s.links[l].input[0].req.id { LinkOrVault(s, l, 0, i, v.readq[j]); }
    forall j | 0 <= j < |v.writeq| ensures v.writeq[j].id != s.links[l].input[0].req.id { LinkOrVault(s, l, 0, i, v.writeq[j]); }
    forall j | 0 <= j < |v.pending| ensures v.pending[j].id != s.links[l].input[0].req.id { LinkOrVault(s, l, 0, i, v.pending[j]); }
  }

  lemma OthersFresh(s: State, l: nat, m: nat, h: History, r: History)
    requires Inv(s) && l < |s.links| && s.links[l].input != [] && m < |s.links| && LinkFresh(s.links[m], h)
    requires Beside(h, r, s.links[l].input[0].req.id)
    ensures forall k :: (if m == l then 1 else 0) <= k < |s.links[m].input| ==> IsNew(r, s.links[m].input[k].req.id)
  {
    forall k | (if m == l then 1 else 0) <= k < |s.links[m].input| ensures IsNew(r, s.links[m].input[k].req.id) {
      HeadAlone(s, l, m, k);
      assert IsNew(h, s.links[m].input[k].req.id) && r.accesses[s.links[m].input[k].req.id] == 0;
    }
  }

  lemma StillNew(h: History, r: History, id: nat, n: nat)
    requires HistoryOk(h, n) && Beside(h, r, id) && id < n
    ensures forall x: nat :: x >= n ==> IsNew(r, x)
  {
    forall x: nat | x >= n ensures IsNew(r, x) {
      assert IsNew(h, x) && r.accesses[x] == h.accesses[x];
    }
  }

  // ----- a request is accessed -----

  ghost predicate AllQueued(cfg: Config, q: seq<Req>, h: History) {
    forall k :: 0 <= k < |q| ==> IsQueued(cfg, q[k], h)
  }

  lemma OthersQueued(cfg: Config, q: seq<Req>, h: History, r: History, id: nat)
    requires AllQueued(cfg, q, h) && Beside(h, r, id) && forall k :: 0 <= k < |q| ==> q[k].id != id
    ensures AllQueued(cfg, q, r)
  {
    forall k | 0 <= k < |q| ensures IsQueued(cfg, q[k], r) {
      assert IsQueued(cfg, q[k], h) && r.accesses[q[k].id] == h.accesses[q[k].id];
    }
  }

  /** The accessed request has one access more and one less to go; the others are as before. */
  lemma QueueAccessed(cfg: Config, q: seq<Req>, j: nat, h: History, r: History)
    requires AllQueued(cfg, q, h) && j < |q| && (forall k :: 0 <= k < |q| && k != j ==> q[k].id != q[j].id)
    requires r == h.(accesses := h.accesses + multiset{q[j].id})
    ensures var x := q[j].(burst := q[j].burst - 1);
            && AllQueued(cfg, q[j := x], r) && AllQueued(cfg, Remove(q, j), r)
            && (x.burst == 0 ==> IsServed(cfg, x, r))
    ensures forall k :: 0 <= k < |Remove(q, j)| ==> Remove(q, j)[k] == q[if k < j then k else k + 1]
  {
    assert IsQueued(cfg, q[j], h);
    forall k | 0 <= k < |q| && k != j ensures IsQueued(cfg, q[k], r) {
      assert IsQueued(cfg, q[k], h);
    }
  }

  lemma PendingStays(cfg: Config, q: seq<Req>, h: History, r: History, id: nat)
    requires (forall k :: 0 <= k < |q| ==> IsServed(cfg, q[k], h)) && Beside(h, r, id) && forall k :: 0 <= k < |q| ==> q[k].id != id
    ensures forall k :: 0 <= k < |q| ==> IsServed(cfg, q[k], r)
  {
    forall k | 0 <= k < |q| ensures IsServed(cfg, q[k], r) {
      assert IsServed(cfg, q[k], h) && r.accesses[q[k].id] == h.accesses[q[k].id];
    }
  }

  ghost predicate Lone(v: Vault, writes: bool, j: nat)
    requires j < |Queue(v, writes)|
  {
    var q, other := Queue(v, writes), Queue(v, !writes);
    var id := q[j].id;
    && (forall k :: 0 <= k < |q| && k != j ==> q[k].id != id)
    && (forall k :: 0 <= k < |other| ==> other[k].id != id)
    && (forall k :: 0 <= k < |v.pending| ==> v.pending[k].id != id)
  }

  lemma AccessedServes(cfg: Config, v: Vault, writes: bool, j: nat, h: History, r: History)
    requires VaultServes(cfg, v, h) && j < |Queue(v, writes)| && Lone(v, writes, j)
    requires r == h.(accesses := h.accesses + multiset{Queue(v, writes)[j].id})
    ensures VaultServes(cfg, Accessed(v, writes, j), r)
  {
    var q := Queue(v, writes);
    assert AllQueued(cfg, q, h) && AllQueued(cfg, Queue(v, !writes), h);
    QueueAccessed(cfg, q, j, h, r);
    OthersQueued(cfg, Queue(v, !writes), h, r, q[j].id);
    PendingStays(cfg, v.pending, h, r, q[j].id);
  }

  lemma AccessedFirst(cfg: Config, v: Vault, writes: bool, j: nat, h: History, r: History)
    requires VaultServes(cfg, v, h) && ReadsFirst(v, h) && j < |Queue(v, writes)| && Lone(v, writes, j)
    requires r == h.(accesses := h.accesses + multiset{Queue(v, writes)[j].id})
    ensures ReadsFirst(Accessed(v, writes, j), r)
  {
    assert AllQueued(cfg, Queue(v, writes), h);
    QueueAccessed(cfg, Queue(v, writes), j, h, r);
  }

  lemma AccessTells(cfg: Config, s: State, i: nat, writes: bool, j: nat, h: History)
    requires Inv(s) && Enabled(s, Access(i, writes, j)) && Tells(cfg, s, h)
    ensures Tells(cfg, Accesses(s, i, writes, j), Watch(s, Access(i, writes, j), h))
  {
    var t, r, v := Accesses(s, i, writes, j), Watch(s, Access(i, writes, j), h), s.vaults[i];
    if j < |Queue(v, writes)| {
      var x := Queue(v, writes)[j];
      QueuedAlone(s, i, writes, j);
      assert VaultServes(cfg, v, h) && ReadsFirst(v, h);
      AccessedServes(cfg, v, writes, j, h, r);
      AccessedFirst(cfg, v, writes, j, h, r);
      forall k | 0 <= k < |s.vaults| && k != i ensures VaultServes(cfg, t.vaults[k], r) && ReadsFirst(t.vaults[k], r) {
        assert VaultServes(cfg, s.vaults[k], h) && ReadsFirst(s.vaults[k], h);
        OtherVaultMisses(s, i, x, k);
        StaysServed(cfg, s.vaults[k], h, r, x.id);
      }
      forall l | 0 <= l < |t.links| ensures LinkFresh(t.links[l], r) {
        assert LinkFresh(s.links[l], h);
        AccessFresh(s, i, x, l, h, r);
      }
      assert VaultOk(v, i, |s.links|, s.tickets) && x.id < |s.tickets|;
      StillNew(h, r, x.id, |s.tickets|);
    }
  }

  lemma AccessFresh(s: State, i: nat, x: Req, l: nat, h: History, r: History)
    requires Once(s) && i < |s.vaults| && (x in s.vaults[i].readq || x in s.vaults[i].writeq) && l < |s.links|
    requires LinkFresh(s.links[l], h) && Beside(h, r, x.id)
    ensures LinkFresh(s.links[l], r)
  {
    forall k | 0 <= k < |s.links[l].input| ensures IsNew(r, s.links[l].input[k].req.id) {
      LinkOrVault(s, l, k, i, x);
      assert IsNew(h, s.links[l].input[k].req.id) && r.accesses[s.links[l].input[k].req.id] == 0;
    }
  }

  lemma OtherVaultMisses(s: State, i: nat, x: Req, k: nat)
    requires VaultsOk(s) && i < |s.vaults| && k < |s.vaults| && i != k && (x in s.vaults[i].readq || x in s.vaults[i].writeq)
    ensures Misses(s.vaults[k], x.id)
  {
    var v := s.vaults[k];
    forall j | 0 <= j < |v.readq| ensures v.readq[j].id != x.id { OtherVault(s, i, x, k, v.readq[j]); }
    forall j | 0 <= j < |v.writeq| ensures v.writeq[j].id != x.id { OtherVault(s, i, x, k, v.writeq[j]); }
    forall j | 0 <= j < |v.pending| ensures v.pending[j].id != x.id { OtherVault(s, i, x, k, v.pending[j]); }
  }

  // ----- the other events -----

  lemma SendTells(cfg: Config, s: State, e: Event, h: History)
    requires e.HostSend? && Enabled(s, e) && Tells(cfg, s, h)
    ensures Tells(cfg, Step(cfg, s, e), h)
  {
    var t := Step(cfg, s, e);
    assert IsNew(h, |s.tickets|);
    forall l | 0 <= l < |t.links| ensures LinkFresh(t.links[l], h) {
      assert LinkFresh(s.links[l], h);
    }
  }

  lemma RestTells(cfg: Config, s: State, e: Event, h: History)
    requires (e.XbarOut? || e.Respond? || e.LinkSend?) && Enabled(s, e) && Safe(s, e) && Tells(cfg, s, h)
    ensures Tells(cfg, Step(cfg, s, e), h)
  {
    var t := Step(cfg, s, e);
    forall l | 0 <= l < |t.links| ensures LinkFresh(t.links[l], h) {
      assert LinkFresh(s.links[l], h) && t.links[l].input == s.links[l].input;
    }
    forall i | 0 <= i < |t.vaults| ensures VaultServes(cfg, t.vaults[i], h) && ReadsFirst(t.vaults[i], h) {
      assert VaultServes(cfg, s.vaults[i], h) && ReadsFirst(s.vaults[i], h);
    }
  }

  lemma StepTells(cfg: Config, s: State, e: Event, h: History)
    requires Inv(s) && Enabled(s, e) && Safe(s, e) && Tells(cfg, s, h)
    ensures Tells(cfg, Step(cfg, s, e), Watch(s, e, h))
  {
    match e
    case HostSend(_, _, _, _) => SendTells(cfg, s, e, h);
    case XbarIn(l) => ArrivalTells(cfg, s, l, h);
    case Access(v, writes, j) => AccessTells(cfg, s, v, writes, j, h);
    case _ => RestTells(cfg, s, e, h);
  }

  lemma {:induction false} RunTells(cfg: Config, s: State, es: seq<Event>, h: History)
    requires Inv(s) && AllFit(|s.links|, |s.vaults|, es) && Tells(cfg, s, h)
    ensures Tells(cfg, Run(cfg, s, es), Watched(cfg, s, es, h))
    decreases |es|
  {
    if es == [] {
    } else {
      InvSafe(s, es[0]);
      StepKeepsInv(cfg, s, es[0]);
      StepTells(cfg, s, es[0], h);
      RunTells(cfg, Step(cfg, s, es[0]), es[1..], Watch(s, es[0], h));
    }
  }

  /**
   In every run a request becomes pending after exactly its burst of accesses, or without any; and without any
   only as a read that met a queued write to its own address when its vault took it.
   */
  lemma PendingWasServed(cfg: Config, s0: State, es: seq<Event>, i: nat, j: nat)
    requires Starts(s0) && AllFit(|s0.links|, |s0.vaults|, es) && i < |s0.vaults|
    requires Inv(s0) && j < |Run(cfg, s0, es).vaults[i].pending|
    ensures var r, h := Run(cfg, s0, es).vaults[i].pending[j], Watched(cfg, s0, es, NOTHING);
            if r.id in h.beside then !r.write && h.accesses[r.id] == 0 else h.accesses[r.id] == cfg.burst
  {
    RunTells(cfg, s0, es, NOTHING);
    var v := Run(cfg, s0, es).vaults[i];
    assert VaultServes(cfg, v, Watched(cfg, s0, es, NOTHING)) && IsServed(cfg, v.pending[j], Watched(cfg, s0, es, NOTHING));
  }

  /** In every run a read that met a queued write to its address never waits for the memory, and a waiting read has no older write to its address in the queue. */
  lemma ReadsSeeOlderWrites(cfg: Config, s0: State, es: seq<Event>, i: nat, j: nat)
    requires Starts(s0) && AllFit(|s0.links|, |s0.vaults|, es) && i < |s0.vaults|
    requires Inv(s0) && j < |Run(cfg, s0, es).vaults[i].readq|
    ensures var v, h := Run(cfg, s0, es).vaults[i], Watched(cfg, s0, es, NOTHING);
            && v.readq[j].id in h.arrive && v.readq[j].id !in h.beside
            && forall k :: 0 <= k < |v.writeq| && v.writeq[k].addr == v.readq[j].addr ==>
                 v.writeq[k].id in h.arrive && h.arrive[v.readq[j].id] < h.arrive[v.writeq[k].id]
  {
    RunTells(cfg, s0, es, NOTHING);
    var v, h := Run(cfg, s0, es).vaults[i], Watched(cfg, s0, es, NOTHING);
    assert VaultServes(cfg, v, h) && ReadsFirst(v, h) && IsQueued(cfg, v.readq[j], h);
    forall k | 0 <= k < |v.writeq| ensures v.writeq[k].id in h.arrive {
      assert IsQueued(cfg, v.writeq[k], h);
    }
  }

  // ----- flits -----

  /** A request is one flit, with its data if it writes; an answer is one flit, with the data if it read. */
  ghost predicate LinkSized(cfg: Config, k: Link) {
    && (forall i :: 0 <= i < |k.input| ==> k.input[i].flits == if k.input[i].req.write then 1 + cfg.payload else 1)
    && (forall i :: 0 <= i < |k.output| ==> k.output[i].flits == if k.output[i].req.write then 1 else 1 + cfg.payload)
  }

  ghost predicate VaultSized(cfg: Config, v: Vault) {
    forall i :: 0 <= i < |v.responses| ==> v.responses[i].flits == if v.responses[i].req.write then 1 else 1 + cfg.payload
  }

  ghost predicate Sized(cfg: Config, s: State) {
    && (forall l :: 0 <= l < |s.links| ==> LinkSized(cfg, s.links[l]))
    && (forall i :: 0 <= i < |s.vaults| ==> VaultSized(cfg, s.vaults[i]))
  }

  lemma StepSized(cfg: Config, s: State, e: Event)
    requires Enabled(s, e) && Safe(s, e) && Sized(cfg, s)
    ensures Sized(cfg, Step(cfg, s, e))
  {
    var t := Step(cfg, s, e);
    forall l | 0 <= l < |t.links| ensures LinkSized(cfg, t.links[l]) {
      assert LinkSized(cfg, s.links[l]);
      if e.XbarOut? && s.vaults[e.v].responses != [] {
        assert VaultSized(cfg, s.vaults[e.v]);
      }
    }
    forall i | 0 <= i < |t.vaults| ensures VaultSized(cfg, t.vaults[i]) {
      assert VaultSized(cfg, s.vaults[i]);
    }
  }

  /** The flits of the packets that left the input buffer of link `l`. */
  function CrossedFlits(cs: seq<Crossing>, l: nat, payload: nat): (n: nat) {
    if cs == [] then 0 else
    var c := cs[|cs| - 1];
    CrossedFlits(cs[..|cs| - 1], l, payload) + if c.link == l then (if c.write then 1 + payload else 1) else 0
  }

  lemma StepForwards(cfg: Config, s: State, e: Event, h: History, l: nat)
    requires Inv(s) && Enabled(s, e) && Safe(s, e) && Sized(cfg, s) && l < |s.links|
    ensures |Step(cfg, s, e).links| == |s.links|
    ensures Step(cfg, s, e).links[l].forwarded - s.links[l].forwarded
            == CrossedFlits(Watch(s, e, h).crossed, l, cfg.payload) - CrossedFlits(h.crossed, l, cfg.payload)
  {
    StepKeepsInv(cfg, s, e);
    if e.XbarIn? && s.links[e.link].input != [] {
      var p := s.links[e.link].input[0];
      var c := Crossing(e.link, p.req.id, p.req.write);
      assert LinkSized(cfg, s.links[e.link]);
      assert (h.crossed + [c])[..|h.crossed|] == h.crossed;
    }
  }

  lemma {:induction false} RunForwards(cfg: Config, s: State, es: seq<Event>, h: History, l: nat)
    requires Inv(s) && AllFit(|s.links|, |s.vaults|, es) && Sized(cfg, s) && l < |s.links|
    ensures Sized(cfg, Run(cfg, s, es))
    ensures Run(cfg, s, es).links[l].forwarded - s.links[l].forwarded
            == CrossedFlits(Watched(cfg, s, es, h).crossed, l, cfg.payload) - CrossedFlits(h.crossed, l, cfg.payload)
    decreases |es|
  {
    if es == [] {
    } else {
      InvSafe(s, es[0]);
      StepKeepsInv(cfg, s, es[0]);
      StepSized(cfg, s, es[0]);
      StepForwards(cfg, s, es[0], h, l);
      RunForwards(cfg, Step(cfg, s, es[0]), es[1..], Watch(s, es[0], h), l);
    }
  }

  /** In every run the tokens sent back and still owed on a link are the flits of the packets that left its input buffer. */
  lemma TokensAreFlits(cfg: Config, s0: State, es: seq<Event>, l: nat)
    requires Starts(s0) && AllFit(|s0.links|, |s0.vaults|, es) && l < |s0.links| && s0.links[l].forwarded == 0
    ensures Inv(s0)
    ensures var k := Run(cfg, s0, es).links[l];
            k.returned + k.extracted == CrossedFlits(Watched(cfg, s0, es, NOTHING).crossed, l, cfg.payload)
  {
    StartsInv(s0);
    TokensConserved(cfg, s0, es, l);
    RunForwards(cfg, s0, es, NOTHING, l);
  }

  /** In every run each answer on a link carries the data of the block exactly if it answers a read. */
  lemma AnswersCarryData(cfg: Config, s0: State, es: seq<Event>, l: nat, i: nat)
    requires Starts(s0) && AllFit(|s0.links|, |s0.vaults|, es) && l < |s0.links|
    requires Inv(s0) && i < |Run(cfg, s0, es).links[l].output|
    ensures var p, ts := Run(cfg, s0, es).links[l].output[i], Run(cfg, s0, es).tickets;
            p.req.id < |ts| && p.flits == if ts[p.req.id].write then 1 else 1 + cfg.payload
  {
    RunForwards(cfg, s0, es, NOTHING, l);
    AnswersMatch(cfg, s0, es, l);
    assert LinkSized(cfg, Run(cfg, s0, es).links[l]);
  }
}
