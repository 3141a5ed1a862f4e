/** What every run of the packet protocol keeps: one place per request, honest packets, distinct tags, conserved tokens. */
module HmcRuns {
  import opened Tokens
  import opened HmcProtocol

  // ----- packets and requests against the log -----

  /** The packet still carries what its request was accepted with. */
  predicate Honest(p: Packet, ts: seq<Ticket>) {
    p.req.id < |ts| && ts[p.req.id] == Ticket(p.slid, p.tag, p.vault, p.req.addr, p.req.write)
  }

  /** A request in vault `i` was addressed to it, and the packet it came in is still remembered. */
  predicate Known(r: Req, incoming: map<nat, Packet>, i: nat, ts: seq<Ticket>) {
    && r.id in incoming
    && r.id < |ts| && ts[r.id].vault == i && ts[r.id].addr == r.addr && ts[r.id].write == r.write
  }

  ghost predicate LinkOk(k: Link, l: nat, vaults: nat, ts: seq<Ticket>) {
    && (forall i :: 0 <= i < |k.input| ==> Honest(k.input[i], ts) && k.input[i].slid == l && k.input[i].vault < vaults)
    && (forall i :: 0 <= i < |k.output| ==> Honest(k.output[i], ts) && k.output[i].slid == l)
    && k.returned + k.extracted == k.forwarded
  }

  ghost predicate VaultOk(v: Vault, i: nat, links: nat, ts: seq<Ticket>) {
    && (forall x :: x in v.incoming ==> v.incoming[x].req.id == x && Honest(v.incoming[x], ts) && v.incoming[x].slid < links)
    && (forall j :: 0 <= j < |v.readq| ==> Known(v.readq[j], v.incoming, i, ts) && !v.readq[j].write)
    && (forall j :: 0 <= j < |v.writeq| ==> Known(v.writeq[j], v.incoming, i, ts) && v.writeq[j].write)
    && (forall j :: 0 <= j < |v.pending| ==> Known(v.pending[j], v.incoming, i, ts))
    && (forall j :: 0 <= j < |v.responses| ==> Honest(v.responses[j], ts) && v.responses[j].slid < links)
  }

  ghost predicate LinksOk(s: State) {
    forall l :: 0 <= l < |s.links| ==> LinkOk(s.links[l], l, |s.vaults|, s.tickets)
  }

  ghost predicate VaultsOk(s: State) {
    forall i :: 0 <= i < |s.vaults| ==> VaultOk(s.vaults[i], i, |s.links|, s.tickets)
  }

  /** Every accepted request is in exactly one place; no other number is anywhere. */
  ghost predicate Once(s: State) {
    forall id: nat :: Places(s, id) == if id < |s.tickets| then 1 else 0
  }

  /** How many requests accepted on link `l` with tag `t` are not completed. */
  ghost function Flying(ts: seq<Ticket>, done: seq<nat>, l: nat, t: int): (n: nat) {
    if ts == [] then 0 else
    var x := |ts| - 1;
    Flying(ts[..x], done, l, t) + if ts[x].slid == l && ts[x].tag == t && x !in done then 1 else 0
  }

  /** How often tag `t` of link `l` is free or in flight. */
  ghost function TagUse(s: State, l: nat, t: int): (n: nat)
    requires l < |s.links|
  {
    multiset(s.links[l].pool)[t] + Flying(s.tickets, s.done, l, t)
  }

  ghost predicate TagsOk(s: State) {
    forall l: nat, t :: l < |s.links| ==> TagUse(s, l, t) <= 1
  }

  ghost predicate Inv(s: State) {
    Once(s) && LinksOk(s) && VaultsOk(s) && TagsOk(s)
  }

  // ----- what the places say -----

  lemma QueuedOnce(s: State, i: nat, id: nat)
    requires Once(s) && i < |s.vaults|
    ensures InVault(s.vaults[i], id) <= 1
  {
    InVaultsUpdate(s.vaults, i, s.vaults[i], id);
    assert Places(s, id) <= 1;
  }

  /** A response on a link is not completed yet. */
  lemma OutputNotDone(s: State, l: nat)
    requires Once(s) && l < |s.links| && s.links[l].output != []
    ensures s.links[l].output[0].req.id !in s.done
  {
    var id := s.links[l].output[0].req.id;
    InLinksUpdate(s.links, l, s.links[l], id);
    assert Places(s, id) <= 1;
  }

  lemma NewNotDone(s: State)
    requires Once(s)
    ensures |s.tickets| !in s.done
  {
    assert Places(s, |s.tickets|) == 0;
  }

  // ----- links and vaults stay as they should -----

  lemma Extended(s: State, t: Ticket)
    requires LinksOk(s) && VaultsOk(s)
    ensures LinksOk(s.(tickets := s.tickets + [t])) && VaultsOk(s.(tickets := s.tickets + [t]))
  {
    var ts := s.tickets + [t];
    forall l | 0 <= l < |s.links| ensures LinkOk(s.links[l], l, |s.vaults|, ts) {
      LinkExtended(s.links[l], l, |s.vaults|, s.tickets, t);
    }
    forall i | 0 <= i < |s.vaults| ensures VaultOk(s.vaults[i], i, |s.links|, ts) {
      VaultExtended(s.vaults[i], i, |s.links|, s.tickets, t);
    }
  }

  lemma LinkExtended(k: Link, l: nat, vaults: nat, ts: seq<Ticket>, t: Ticket)
    requires LinkOk(k, l, vaults, ts)
    ensures LinkOk(k, l, vaults, ts + [t])
  {
  }

  lemma VaultExtended(v: Vault, i: nat, links: nat, ts: seq<Ticket>, t: Ticket)
    requires VaultOk(v, i, links, ts)
    ensures VaultOk(v, i, links, ts + [t])
  {
  }

  lemma ReceiveOk(cfg: Config, v: Vault, p: Packet, i: nat, links: nat, ts: seq<Ticket>)
    requires VaultOk(v, i, links, ts) && Honest(p, ts) && p.vault == i && p.slid < links
    ensures VaultOk(Receive(cfg, v, p), i, links, ts)
  {
    var r := p.req.(burst := cfg.burst);
    var u := v.(incoming := v.incoming[p.req.id := p.(req := r)]);
    assert VaultOk(u, i, links, ts);
    assert Known(r, u.incoming, i, ts);
  }

  lemma AccessedOk(v: Vault, writes: bool, j: nat, i: nat, links: nat, ts: seq<Ticket>)
    requires VaultOk(v, i, links, ts) && j < |if writes then v.writeq else v.readq|
    ensures VaultOk(Accessed(v, writes, j), i, links, ts)
  {
    var q := if writes then v.writeq else v.readq;
    assert Known(q[j], v.incoming, i, ts);
  }

  /** Releasing the answered packet strands no other request of the vault. */
  lemma RespondsOk(cfg: Config, s: State, i: nat)
    requires Inv(s) && i < |s.vaults| && Answerable(s.vaults[i])
    ensures VaultsOk(Responds(cfg, s, i))
  {
    var v := s.vaults[i];
    if v.pending != [] {
      var r := v.pending[0];
      QueuedOnce(s, i, r.id);
      assert InReqs(v.pending, r.id) == InReqs(v.pending[1..], r.id) + 1;
      AbsentFrom(v.readq, r.id);
      AbsentFrom(v.writeq, r.id);
      AbsentFrom(v.pending[1..], r.id);
      assert Known(r, v.incoming, i, s.tickets);
      assert Honest(v.incoming[r.id], s.tickets);
      ReleasedOk(v, Responds(cfg, s, i).vaults[i], r.id, i, |s.links|, s.tickets);
    }
  }

  lemma AbsentFrom(rs: seq<Req>, id: nat)
    requires InReqs(rs, id) == 0
    ensures forall j :: 0 <= j < |rs| ==> rs[j].id != id
  {
    forall j | 0 <= j < |rs| ensures rs[j].id != id {
      InReqsMember(rs, j);
    }
  }

  lemma ReleasedOk(v: Vault, w: Vault, id: nat, i: nat, links: nat, ts: seq<Ticket>)
    requires VaultOk(v, i, links, ts) && v.pending != []
    requires w.readq == v.readq && w.writeq == v.writeq && w.pending == v.pending[1..] && w.incoming == v.incoming - {id}
    requires forall j :: 0 <= j < |w.readq| ==> w.readq[j].id != id
    requires forall j :: 0 <= j < |w.writeq| ==> w.writeq[j].id != id
    requires forall j :: 0 <= j < |w.pending| ==> w.pending[j].id != id
    requires |w.responses| == |v.responses| + 1 && w.responses[..|v.responses|] == v.responses
    requires Honest(w.responses[|v.responses|], ts) && w.responses[|v.responses|].slid < links
    ensures VaultOk(w, i, links, ts)
  {
    forall j | 0 <= j < |w.responses| ensures Honest(w.responses[j], ts) && w.responses[j].slid < links {
      assert j < |v.responses| ==> w.responses[j] == v.responses[j];
    }
  }

  lemma SendOk(cfg: Config, s: State, e: Event)
    requires Inv(s) && e.HostSend? && Enabled(s, e)
    ensures LinksOk(Step(cfg, s, e)) && VaultsOk(Step(cfg, s, e))
  {
    var k := s.links[e.slid];
    if k.pool != [] && !LosesTag(cfg, k, e.write) {
      Extended(s, Ticket(e.slid, k.pool[0], e.vault, e.addr, e.write));
    }
  }

  lemma LinkStepOk(cfg: Config, s: State, e: Event)
    requires Inv(s) && !e.HostSend? && Enabled(s, e) && Safe(s, e)
    ensures LinksOk(Step(cfg, s, e))
  {
  }

  lemma VaultStepOk(cfg: Config, s: State, e: Event)
    requires Inv(s) && !e.HostSend? && Enabled(s, e) && Safe(s, e)
    ensures VaultsOk(Step(cfg, s, e))
  {
    match e
    case XbarIn(l) =>
      if s.links[l].input != [] {
        var p := s.links[l].input[0];
        ReceiveOk(cfg, s.vaults[p.vault], p, p.vault, |s.links|, s.tickets);
      }
    case XbarOut(v) =>
    case Respond(v) => RespondsOk(cfg, s, v);
    case Access(v, writes, j) =>
      if j < |if writes then s.vaults[v].writeq else s.vaults[v].readq| {
        AccessedOk(s.vaults[v], writes, j, v, |s.links|, s.tickets);
      }
    case LinkSend(l) =>
  }

  // ----- tags -----

  lemma {:induction false} FlyingDone(ts: seq<Ticket>, done: seq<nat>, x: nat, l: nat, t: int)
    requires x !in done
    ensures Flying(ts, done + [x], l, t) ==
            Flying(ts, done, l, t) - if x < |ts| && ts[x].slid == l && ts[x].tag == t then 1 else 0
    decreases |ts|
  {
    if ts == [] {
    } else {
      FlyingDone(ts[..|ts| - 1], done, x, l, t);
    }
  }

  lemma FlyingNew(ts: seq<Ticket>, k: Ticket, done: seq<nat>, l: nat, t: int)
    requires |ts| !in done
    ensures Flying(ts + [k], done, l, t) == Flying(ts, done, l, t) + if k.slid == l && k.tag == t then 1 else 0
  {
    assert (ts + [k])[..|ts|] == ts;
  }

  lemma PoolPop(pool: seq<int>, t: int)
    requires pool != []
    ensures multiset(pool)[t] == multiset(pool[1..])[t] + if pool[0] == t then 1 else 0
  {
    assert pool == [pool[0]] + pool[1..];
  }

  /** The step loses tag `t` of link `l`: it was taken for a packet that found no room. */
  predicate Loses(cfg: Config, s: State, e: Event, l: nat, t: int)
    requires Enabled(s, e)
  {
    e.HostSend? && e.slid == l && LosesTag(cfg, s.links[l], e.write) && s.links[l].pool[0] == t
  }

  /** A tag is free or in flight as often as before, except that a send refused for lack of room loses the tag it took. */
  lemma StepTags(cfg: Config, s: State, e: Event, l: nat, t: int)
    requires Inv(s) && Enabled(s, e) && Safe(s, e) && l < |s.links|
    ensures TagUse(Step(cfg, s, e), l, t) == TagUse(s, l, t) - if Loses(cfg, s, e, l, t) then 1 else 0
  {
    match e
    case HostSend(slid, vault, addr, write) =>
      var k := s.links[slid];
      if k.pool != [] {
        PoolPop(k.pool, t);
        NewNotDone(s);
        FlyingNew(s.tickets, Ticket(slid, k.pool[0], vault, addr, write), s.done, l, t);
      }
    case LinkSend(i) => LinkSendTags(s, i, l, t);
    case _ =>
  }

  lemma LinkSendTags(s: State, i: nat, l: nat, t: int)
    requires Inv(s) && Enabled(s, LinkSend(i)) && Safe(s, LinkSend(i)) && l < |s.links|
    ensures TagUse(Sends(s, i), l, t) == TagUse(s, l, t)
  {
    if s.links[i].output != [] {
      var p := s.links[i].output[0];
      OutputNotDone(s, i);
      assert Honest(p, s.tickets);
      FlyingDone(s.tickets, s.done, p.req.id, l, t);
    }
  }

  // ----- whole runs -----

  /** In a sound state no index or lookup of any step goes wrong. */
  lemma InvSafe(s: State, e: Event)
    requires LinksOk(s) && VaultsOk(s) && Enabled(s, e)
    ensures Safe(s, e)
  {
    match e
    case Respond(v) => assert VaultOk(s.vaults[v], v, |s.links|, s.tickets);
    case _ =>
  }

  lemma StepOnce(cfg: Config, s: State, e: Event)
    requires Once(s) && Enabled(s, e) && Safe(s, e)
    ensures Once(Step(cfg, s, e))
  {
    forall id: nat ensures Places(Step(cfg, s, e), id) == if id < |Step(cfg, s, e).tickets| then 1 else 0 {
      StepPlaces(cfg, s, e, id);
      assert Places(s, id) == if id < |s.tickets| then 1 else 0;
    }
  }

  lemma StepKeepsInv(cfg: Config, s: State, e: Event)
    requires Inv(s) && Enabled(s, e) && Safe(s, e)
    ensures Inv(Step(cfg, s, e))
    ensures |Step(cfg, s, e).links| == |s.links| && |Step(cfg, s, e).vaults| == |s.vaults|
  {
    StepOnce(cfg, s, e);
    if e.HostSend? {
      SendOk(cfg, s, e);
    } else {
      LinkStepOk(cfg, s, e);
      VaultStepOk(cfg, s, e);
    }
    forall l: nat, t | l < |s.links| ensures TagUse(Step(cfg, s, e), l, t) <= 1 {
      StepTags(cfg, s, e, l, t);
      assert TagUse(s, l, t) <= 1;
    }
  }

  predicate AllFit(links: nat, vaults: nat, es: seq<Event>) {
    forall i :: 0 <= i < |es| ==> Fits(links, vaults, es[i])
  }

  /** Any events in any order; that each can be taken is part of what is proved. */
  function Run(cfg: Config, s: State, es: seq<Event>): (t: State)
    requires Inv(s) && AllFit(|s.links|, |s.vaults|, es)
    ensures Inv(t) && |t.links| == |s.links| && |t.vaults| == |s.vaults|
    decreases |es|
  {
    if es == [] then s else
    assert Fits(|s.links|, |s.vaults|, es[0]);
    InvSafe(s, es[0]);
    StepKeepsInv(cfg, s, es[0]);
    Run(cfg, Step(cfg, s, es[0]), es[1..])
  }

  /** Empty buffers, and a pool of distinct tags on each link. */
  ghost predicate Starts(s: State) {
    && s.tickets == [] && s.done == []
    && (forall l :: 0 <= l < |s.links| ==>
          s.links[l].input == [] && s.links[l].output == [] && s.links[l].returned + s.links[l].extracted == s.links[l].forwarded)
    && (forall l, t :: 0 <= l < |s.links| ==> multiset(s.links[l].pool)[t] <= 1)
    && (forall i :: 0 <= i < |s.vaults| ==> s.vaults[i] == Vault([], [], [], map[], []))
  }

  lemma {:induction false} EmptyLinks(ks: seq<Link>, id: nat)
    requires forall l :: 0 <= l < |ks| ==> ks[l].input == [] && ks[l].output == []
    ensures InLinks(ks, id) == 0
    decreases |ks|
  {
    if ks == [] {
    } else {
      EmptyLinks(ks[1..], id);
    }
  }

  lemma {:induction false} EmptyVaults(vs: seq<Vault>, id: nat)
    requires forall i :: 0 <= i < |vs| ==> vs[i] == Vault([], [], [], map[], [])
    ensures InVaults(vs, id) == 0
    decreases |vs|
  {
    if vs == [] {
    } else {
      EmptyVaults(vs[1..], id);
    }
  }

  lemma StartsInv(s: State)
    requires Starts(s)
    ensures Inv(s)
  {
    forall id: nat ensures Places(s, id) == 0 {
      EmptyLinks(s.links, id);
      EmptyVaults(s.vaults, id);
    }
    forall l: nat, t | l < |s.links| ensures TagUse(s, l, t) <= 1 {
      assert multiset(s.links[l].pool)[t] <= 1;
    }
  }

  /** Logs only grow, so a ticket is never rewritten and a callback never taken back. */
  lemma {:induction false} RunGrows(cfg: Config, s: State, es: seq<Event>)
    requires Inv(s) && AllFit(|s.links|, |s.vaults|, es)
    ensures s.tickets <= Run(cfg, s, es).tickets && s.done <= Run(cfg, s, es).done
    decreases |es|
  {
    if es == [] {
    } else {
      InvSafe(s, es[0]);
      StepKeepsInv(cfg, s, es[0]);
      var s' := Step(cfg, s, es[0]);
      assert s.tickets <= s'.tickets && s.done <= s'.done;
      RunGrows(cfg, s', es[1..]);
    }
  }

  /**
   At every moment of every run each accepted request is in exactly one place, at most one
   callback runs for it, and the next response of every vault can be formed; what was accepted
   and what was completed at an earlier moment stays so.
   */
  lemma EveryRequestOnce(cfg: Config, s0: State, es: seq<Event>, k: nat)
    requires Starts(s0) && AllFit(|s0.links|, |s0.vaults|, es) && k <= |es|
    ensures Inv(s0) && Run(cfg, s0, es[..k]).tickets <= Run(cfg, s0, es).tickets && Run(cfg, s0, es[..k]).done <= Run(cfg, s0, es).done
    ensures var s := Run(cfg, s0, es);
            && (forall id: nat :: Places(s, id) == if id < |s.tickets| then 1 else 0)
            && (forall i, j :: 0 <= i < j < |s.done| ==> s.done[i] != s.done[j])
            && (forall i :: 0 <= i < |s.done| ==> s.done[i] < |s.tickets|)
            && (forall v :: 0 <= v < |s.vaults| ==> Answerable(s.vaults[v]))
  {
    StartsInv(s0);
    var s := Run(cfg, s0, es);
    assert es == es[..k] + es[k..];
    RunConcat(cfg, s0, es[..k], es[k..]);
    RunGrows(cfg, Run(cfg, s0, es[..k]), es[k..]);
    forall i, j | 0 <= i < j < |s.done| ensures s.done[i] != s.done[j] {
      Twice(s.done, i, j);
      assert Places(s, s.done[i]) <= 1;
    }
    forall i | 0 <= i < |s.done| ensures s.done[i] < |s.tickets| {
      assert multiset(s.done)[s.done[i]] > 0;
      assert Places(s, s.done[i]) > 0;
    }
    forall v | 0 <= v < |s.vaults| ensures Answerable(s.vaults[v]) {
      InvSafe(s, Respond(v));
    }
  }

  lemma Twice<T>(xs: seq<T>, i: nat, j: nat)
    requires i < j < |xs|
    ensures xs[i] == xs[j] ==> multiset(xs)[xs[i]] >= 2
  {
    assert xs == xs[..i] + [xs[i]] + xs[i + 1..j] + [xs[j]] + xs[j + 1..];
  }

  /** Request `x` has its tag and has not completed. */
  predicate InFlight(s: State, x: nat) {
    x < |s.tickets| && x !in s.done
  }

  lemma {:induction false} FlyingCounts(ts: seq<Ticket>, done: seq<nat>, x: nat, l: nat, t: int)
    requires x < |ts| && x !in done && ts[x].slid == l && ts[x].tag == t
    ensures Flying(ts, done, l, t) >= 1
    ensures forall y :: x < y < |ts| && y !in done && ts[y].slid == l && ts[y].tag == t ==> Flying(ts, done, l, t) >= 2
    decreases |ts|
  {
    var n := |ts| - 1;
    if x < n {
      FlyingCounts(ts[..n], done, x, l, t);
    }
  }

  /** The free tags of a link and the tags of its requests in flight are pairwise distinct, refused sends or not. */
  lemma TagsDistinct(cfg: Config, s0: State, es: seq<Event>, l: nat)
    requires Starts(s0) && AllFit(|s0.links|, |s0.vaults|, es) && l < |s0.links|
    ensures Inv(s0)
    ensures var s := Run(cfg, s0, es); var pool := s.links[l].pool;
            && (forall i, j :: 0 <= i < j < |pool| ==> pool[i] != pool[j])
            && (forall x: nat, y: nat :: x < y && InFlight(s, x) && InFlight(s, y) && s.tickets[x].slid == l == s.tickets[y].slid ==>
                  s.tickets[x].tag != s.tickets[y].tag)
            && (forall x: nat :: InFlight(s, x) && s.tickets[x].slid == l ==> s.tickets[x].tag !in pool)
  {
    StartsInv(s0);
    var s := Run(cfg, s0, es);
    var pool := s.links[l].pool;
    forall i, j | 0 <= i < j < |pool| ensures pool[i] != pool[j] {
      Twice(pool, i, j);
      assert TagUse(s, l, pool[i]) <= 1;
    }
    forall x: nat | InFlight(s, x) && s.tickets[x].slid == l
      ensures s.tickets[x].tag !in pool
      ensures forall y: nat :: x < y && InFlight(s, y) && s.tickets[y].slid == l ==> s.tickets[x].tag != s.tickets[y].tag
    {
      var t := s.tickets[x].tag;
      FlyingCounts(s.tickets, s.done, x, l, t);
      assert TagUse(s, l, t) <= 1;
    }
  }

  /** How often a run loses tag `t` of link `l`. */
  ghost function Losses(cfg: Config, s: State, es: seq<Event>, l: nat, t: int): (n: nat)
    requires Inv(s) && AllFit(|s.links|, |s.vaults|, es)
    decreases |es|
  {
    if es == [] then 0 else
    assert Fits(|s.links|, |s.vaults|, es[0]);
    InvSafe(s, es[0]);
    StepKeepsInv(cfg, s, es[0]);
    Losses(cfg, Step(cfg, s, es[0]), es[1..], l, t) + if Loses(cfg, s, es[0], l, t) then 1 else 0
  }

  /** A tag of the pool is still free or in flight after a run if and only if no refused send of the run lost it. */
  lemma {:induction false} RunTags(cfg: Config, s: State, es: seq<Event>, l: nat, t: int)
    requires Inv(s) && AllFit(|s.links|, |s.vaults|, es) && l < |s.links|
    ensures TagUse(Run(cfg, s, es), l, t) + Losses(cfg, s, es, l, t) == TagUse(s, l, t)
    decreases |es|
  {
    if es == [] {
    } else {
      InvSafe(s, es[0]);
      StepKeepsInv(cfg, s, es[0]);
      StepTags(cfg, s, es[0], l, t);
      RunTags(cfg, Step(cfg, s, es[0]), es[1..], l, t);
    }
  }

  /** Tokens sent back and tokens still owed add up to the flits forwarded, on every link at every moment. */
  lemma TokensConserved(cfg: Config, s0: State, es: seq<Event>, l: nat)
    requires Starts(s0) && AllFit(|s0.links|, |s0.vaults|, es) && l < |s0.links|
    ensures Inv(s0)
    ensures var k := Run(cfg, s0, es).links[l]; k.returned + k.extracted == k.forwarded
  {
    StartsInv(s0);
  }

  /** What a link hands back to the host is an answer to a request taken on that link, under the tag it was given. */
  lemma AnswersMatch(cfg: Config, s0: State, es: seq<Event>, l: nat)
    requires Starts(s0) && AllFit(|s0.links|, |s0.vaults|, es) && l < |s0.links|
    ensures Inv(s0)
    ensures var s := Run(cfg, s0, es);
            forall i :: 0 <= i < |s.links[l].output| ==> Honest(s.links[l].output[i], s.tickets) && s.links[l].output[i].slid == l
  {
    StartsInv(s0);
    var s := Run(cfg, s0, es);
    assert LinkOk(s.links[l], l, |s.vaults|, s.tickets);
  }

  // ----- how long a request stays in its queue -----

  function Queue(v: Vault, writes: bool): (q: seq<Req>) {
    if writes then v.writeq else v.readq
  }

  /** The vault after the request at place `j` was accessed `n` times. */
  function Again(v: Vault, writes: bool, j: nat, n: nat): (w: Vault) {
    if n == 0 then v else
    var u := Again(v, writes, j, n - 1);
    if j < |Queue(u, writes)| then Accessed(u, writes, j) else u
  }

  /** A request leaves its queue at exactly its `burst`-th access; with a burst below one it never does. */
  lemma {:induction false} BurstCountdown(v: Vault, writes: bool, j: nat, n: nat)
    requires j < |Queue(v, writes)|
    ensures var q := Queue(v, writes); var b := q[j].burst; var w := Again(v, writes, j, n);
            && (b <= 0 || n < b ==> Queue(w, writes) == q[j := q[j].(burst := b - n)] && w.pending == v.pending)
            && (1 <= b == n ==> Queue(w, writes) == Remove(q, j) && w.pending == v.pending + [q[j].(burst := 0)])
  {
    if n == 0 {
    } else {
      BurstCountdown(v, writes, j, n - 1);
      var q := Queue(v, writes);
      var b := q[j].burst;
      var u := Again(v, writes, j, n - 1);
      if b <= 0 || n <= b {
        assert Queue(u, writes) == q[j := q[j].(burst := b - (n - 1))];
        assert Remove(Queue(u, writes), j) == Remove(q, j);
        assert Queue(u, writes)[j := q[j].(burst := b - n)] == q[j := q[j].(burst := b - n)];
      }
    }
  }

  lemma {:induction false} RunConcat(cfg: Config, s: State, es: seq<Event>, fs: seq<Event>)
    requires Inv(s) && AllFit(|s.links|, |s.vaults|, es) && AllFit(|s.links|, |s.vaults|, fs)
    ensures AllFit(|s.links|, |s.vaults|, es + fs)
    ensures Run(cfg, s, es + fs) == Run(cfg, Run(cfg, s, es), fs)
    decreases |es|
  {
    if es == [] {
      assert es + fs == fs;
    } else {
      InvSafe(s, es[0]);
      StepKeepsInv(cfg, s, es[0]);
      RunConcat(cfg, Step(cfg, s, es[0]), es[1..], fs);
      assert (es + fs)[1..] == es[1..] + fs;
    }
  }

  // ----- a tag is lost -----

  /** `n` reads on the first link, for the first vault. */
  function SendReads(n: nat): (es: seq<Event>) {
    seq(n, _ => HostSend(0, 0, 0, false))
  }

  lemma {:induction false} LastReadLosesTag(cfg: Config, s: State, n: nat)
    requires Inv(s) && 0 < |s.links| && 0 < |s.vaults| && 1 <= n <= |s.links[0].pool| && |s.links[0].input| + n == BUFFER_MAX + 1
    ensures AllFit(|s.links|, |s.vaults|, SendReads(n))
    ensures Losses(cfg, s, SendReads(n), 0, s.links[0].pool[n - 1]) >= 1
    decreases n
  {
    var es, e, k := SendReads(n), HostSend(0, 0, 0, false), s.links[0];
    InvSafe(s, e);
    StepKeepsInv(cfg, s, e);
    assert es[0] == e && es[1..] == SendReads(n - 1);
    if n == 1 {
      assert Loses(cfg, s, e, 0, k.pool[0]);
    } else {
      var s1 := Step(cfg, s, e);
      assert s1.links[0].pool == k.pool[1..] && |s1.links[0].input| == |k.input| + 1;
      LastReadLosesTag(cfg, s1, n - 1);
    }
  }

  /**
   Thirty-three reads on a link of any fresh stack with that many tags, before the crossbar takes one:
   the last finds the input buffer full, and its tag is neither free nor in flight from then on.
   */
  lemma TagLost(cfg: Config, s0: State)
    requires Starts(s0) && 0 < |s0.links| && 0 < |s0.vaults| && BUFFER_MAX < |s0.links[0].pool|
    ensures Inv(s0) && AllFit(|s0.links|, |s0.vaults|, SendReads(BUFFER_MAX + 1))
    ensures var t := s0.links[0].pool[BUFFER_MAX];
            && TagUse(s0, 0, t) == 1
            && Losses(cfg, s0, SendReads(BUFFER_MAX + 1), 0, t) == 1
            && TagUse(Run(cfg, s0, SendReads(BUFFER_MAX + 1)), 0, t) == 0
  {
    StartsInv(s0);
    var t := s0.links[0].pool[BUFFER_MAX];
    LastReadLosesTag(cfg, s0, BUFFER_MAX + 1);
    RunTags(cfg, s0, SendReads(BUFFER_MAX + 1), 0, t);
    assert TagUse(s0, 0, t) <= 1;
  }
}
