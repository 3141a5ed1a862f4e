/** The stack as the simulator runs it: fields updated in place, proved to do what the events of the protocol say. */
module HmcObjects {
  import opened Arith
  import opened Tokens
  import opened HmcProtocol
  import opened HmcRuns
  import opened HmcCrossbar
  import opened Bits
  import opened Address

  method FindWrite(q: seq<Req>, addr: int) returns (found: bool)
    ensures found <==> exists i :: 0 <= i < |q| && q[i].addr == addr
  {
    for i := 0 to |q|
      invariant forall j :: 0 <= j < i ==> q[j].addr != addr
    {
      if q[i].addr == addr {
        return true;
      }
    }
    return false;
  }

  class Stack {
    const cfg: Config
    var links: seq<Link>
    var vaults: seq<Vault>
    var memReqCount: nat
    ghost var tickets: seq<Ticket>
    ghost var done: seq<nat>

    ghost function Model(): (s: State)
      reads this
    {
      State(links, vaults, tickets, done)
    }

    ghost predicate Valid()
      reads this
    {
      Inv(Model()) && memReqCount == |tickets|
    }

    constructor (cfg: Config, pools: seq<seq<int>>, vaultCount: nat)
      requires forall l, t :: 0 <= l < |pools| ==> multiset(pools[l])[t] <= 1
      ensures Valid() && this.cfg == cfg && Starts(Model()) && |links| == |pools| && |vaults| == vaultCount
    {
      this.cfg := cfg;
      links := seq(|pools|, i requires 0 <= i < |pools| => Link(pools[i], [], [], 0, 0, 0));
      vaults := seq(vaultCount, i => Vault([], [], [], map[], []));
      memReqCount := 0;
      tickets := [];
      done := [];
      new;
      StartsInv(Model());
    }

    /** `assign_tag`: takes the first free tag; without one the tag is -1. */
    method AssignTag(slid: nat) returns (ok: bool, tag: int)
      requires slid < |links|
      modifies this`links
      ensures ok <==> old(links[slid].pool) != []
      ensures !ok ==> links == old(links)
      ensures ok ==> tag == old(links[slid].pool[0])
      ensures ok ==> links == old(links)[slid := old(links[slid]).(pool := old(links[slid].pool[1..]))]
    {
      if links[slid].pool == [] {
        return false, -1;
      }
      ok, tag := true, links[slid].pool[0];
      links := links[slid := links[slid].(pool := links[slid].pool[1..])];
    }

    method Send(slid: nat, vault: nat, addr: int, write: bool) returns (accepted: bool)
      requires Valid() && slid < |links| && vault < |vaults|
      modifies this
      ensures Valid()
      ensures Model() == Step(cfg, old(Model()), HostSend(slid, vault, addr, write))
      ensures accepted == Admits(cfg, old(Model()), HostSend(slid, vault, addr, write))
    {
      StepKeepsInv(cfg, Model(), HostSend(slid, vault, addr, write));
      ghost var s0 := Model();
      var ok, tag := AssignTag(slid);
      if !ok {
        return false;
      }
      var flits := RequestFlits(cfg, write);
      if flits > BUFFER_MAX - |links[slid].input| {
        return false;
      }
      var p := Packet(Req(memReqCount, addr, write, 0), tag, slid, vault, flits);
      links := links[slid := links[slid].(input := links[slid].input + [p])];
      memReqCount := memReqCount + 1;
      tickets := tickets + [Ticket(slid, tag, vault, addr, write)];
      assert links == HostSends(cfg, s0, slid, vault, addr, write).links;
      return true;
    }

    /** The host's send: the link is chosen by the block of the address, the vault by the address order. */
    method SendAddress(t: HmcOrder, w: Widths, txBits: nat, blockBits: nat, addr: nat, write: bool)
      returns (accepted: bool, ghost v: Vector, ghost e: Event)
      requires Valid() && w.low <= w.column && |vaults| == Pow2(w.vault) && 0 < |links|
      modifies this
      ensures Valid() && IsHmcVector(t, Shr(addr, txBits), w, v) && VectorInRange(v, w)
      ensures e == HostSend(Shr(addr, blockBits) % |old(links)|, v.vault, addr, write) && Enabled(old(Model()), e)
      ensures Model() == Step(cfg, old(Model()), e) && accepted == Admits(cfg, old(Model()), e)
    {
      var _, index := SliceLowerBits(addr, txBits);
      var vec := CutHmc(t, index, w);
      VaultInRange(t, index, w, vec);
      var _, block := SliceLowerBits(addr, blockBits);
      accepted := Send(block % |links|, vec.vault, addr, write);
      v, e := vec, HostSend(block % |old(links)|, vec.vault, addr, write);
    }

    /** A vault's controller takes a packet from the crossbar. */
    method Receive(p: Packet) returns (accepted: bool)
      requires p.vault < |vaults|
      modifies this`vaults
      ensures vaults == old(vaults)[p.vault := HmcProtocol.Receive(cfg, old(vaults[p.vault]), p)]
      ensures accepted == !QueueFull(old(vaults[p.vault]), p.req)
    {
      var r := p.req.(burst := cfg.burst);
      var v := vaults[p.vault];
      v := v.(incoming := v.incoming[r.id := p.(req := r)]);
      if (if r.write then |v.writeq| else |v.readq|) == QUEUE_MAX {
        vaults := vaults[p.vault := v];
        return false;
      }
      var found := FindWrite(v.writeq, r.addr);
      if r.write {
        v := v.(writeq := v.writeq + [r]);
      } else if found {
        v := v.(pending := v.pending + [r]);
      } else {
        v := v.(readq := v.readq + [r]);
      }
      vaults := vaults[p.vault := v];
      return true;
    }

    /** The head of a link's input buffer goes to its vault, if the vault takes it. */
    method ForwardRequest(l: nat) returns (accepted: bool)
      requires Valid() && l < |links| && links[l].input != []
      modifies this`links, this`vaults
      ensures Valid() && Safe(old(Model()), XbarIn(l)) && Model() == Step(cfg, old(Model()), XbarIn(l))
      ensures accepted == !QueueFull(old(vaults[links[l].input[0].vault]), old(links[l].input[0].req))
    {
      InvSafe(Model(), XbarIn(l));
      StepKeepsInv(cfg, Model(), XbarIn(l));
      var p := links[l].input[0];
      accepted := Receive(p);
      if accepted {
        var k := links[l];
        links := links[l := k.(input := k.input[1..], extracted := k.extracted + p.flits, forwarded := k.forwarded + p.flits)];
      }
    }

    /** The oldest response of a vault goes to its link, if the link has room. */
    method ForwardResponse(v: nat) returns (accepted: bool)
      requires Valid() && v < |vaults| && vaults[v].responses != []
      modifies this`links, this`vaults
      ensures Valid() && Safe(old(Model()), XbarOut(v)) && Model() == Step(cfg, old(Model()), XbarOut(v))
      ensures accepted == Given(old(Model()), v)
    {
      InvSafe(Model(), XbarOut(v));
      StepKeepsInv(cfg, Model(), XbarOut(v));
      var p := vaults[v].responses[0];
      if p.flits <= BUFFER_MAX - |links[p.slid].output| {
        links := links[p.slid := links[p.slid].(output := links[p.slid].output + [p])];
        vaults := vaults[v := vaults[v].(responses := vaults[v].responses[1..])];
        return true;
      }
      return false;
    }

    /** Requests cross in link order; a vault that took one takes no other in this cycle. */
    method SwitchIn()
      requires Valid()
      modifies this`links, this`vaults
      ensures Valid() && Model() == InTick(cfg, old(Model()), 0, {})
    {
      ghost var s0 := Model();
      var used: set<nat> := {};
      for l := 0 to |links|
        invariant Valid() && |links| == |s0.links|
        invariant InTick(cfg, s0, 0, {}) == InTick(cfg, Model(), l, used)
      {
        if links[l].input != [] && links[l].input[0].vault !in used {
          ghost var s := Model();
          InvSafe(s, XbarIn(l));
          var vault := links[l].input[0].vault;
          var accepted := ForwardRequest(l);
          assert UsedAfter(s, l, used) == if accepted then used + {vault} else used;
          if accepted {
            used := used + {vault};
          }
        }
      }
    }

    /** Responses cross in vault order; a link that was given one is given no other in this cycle. */
    method SwitchOut()
      requires Valid()
      modifies this`links, this`vaults
      ensures Valid() && Model() == OutTick(cfg, old(Model()), 0, {})
    {
      ghost var s0 := Model();
      var used: set<nat> := {};
      for v := 0 to |vaults|
        invariant Valid() && |vaults| == |s0.vaults|
        invariant OutTick(cfg, s0, 0, {}) == OutTick(cfg, Model(), v, used)
      {
        if vaults[v].responses != [] && vaults[v].responses[0].slid !in used {
          InvSafe(Model(), XbarOut(v));
          var slid := vaults[v].responses[0].slid;
          var accepted := ForwardResponse(v);
          if accepted {
            used := used + {slid};
          }
        }
      }
    }

    /** One cycle of the crossbar. */
    method SwitchTick()
      requires Valid()
      modifies this`links, this`vaults
      ensures Valid() && Model() == Tick(cfg, old(Model()))
    {
      SwitchIn();
      SwitchOut();
    }

    /** A vault answers its oldest pending request. */
    method Respond(v: nat)
      requires Valid() && v < |vaults|
      modifies this`vaults
      ensures Valid() && Safe(old(Model()), HmcProtocol.Respond(v))
      ensures Model() == Step(cfg, old(Model()), HmcProtocol.Respond(v))
    {
      InvSafe(Model(), HmcProtocol.Respond(v));
      StepKeepsInv(cfg, Model(), HmcProtocol.Respond(v));
      var u := vaults[v];
      if u.pending != [] {
        var r := u.pending[0];
        var q := u.incoming[r.id];
        var p := Packet(r, q.tag, q.slid, q.vault, ResponseFlits(cfg, r.write));
        u := u.(incoming := u.incoming - {r.id});
        u := u.(responses := u.responses + [p]);
        vaults := vaults[v := u.(pending := u.pending[1..])];
      }
    }

    /** The access command of the request at `index` of the read or the write queue was issued. */
    method Access(v: nat, writes: bool, index: nat)
      requires Valid() && v < |vaults| && index < |Queue(vaults[v], writes)|
      modifies this`vaults
      ensures Valid()
      ensures Model() == Step(cfg, old(Model()), HmcProtocol.Access(v, writes, index))
    {
      StepKeepsInv(cfg, Model(), HmcProtocol.Access(v, writes, index));
      var u := vaults[v];
      var q := Queue(u, writes);
      var r := q[index].(burst := q[index].burst - 1);
      q := q[index := r];
      if r.burst == 0 {
        u := u.(pending := u.pending + [r]);
        q := Remove(q, index);
      }
      assert r.burst == 0 ==> q == Remove(Queue(vaults[v], writes), index);
      vaults := vaults[v := if writes then u.(writeq := q) else u.(readq := q)];
    }

    /** A link's turn to send: a response with tokens, tokens alone, or nothing. */
    method LinkSend(l: nat)
      requires Valid() && l < |links|
      modifies this
      ensures Valid() && Safe(old(Model()), HmcProtocol.LinkSend(l))
      ensures Model() == Step(cfg, old(Model()), HmcProtocol.LinkSend(l))
    {
      InvSafe(Model(), HmcProtocol.LinkSend(l));
      StepKeepsInv(cfg, Model(), HmcProtocol.LinkSend(l));
      var k := links[l];
      var rtc := ShiftToTop(k.extracted);
      if k.output != [] && BUFFER_MAX >= k.output[0].flits {
        var p := k.output[0];
        links := links[l := k.(output := k.output[1..], extracted := k.extracted - rtc, returned := k.returned + rtc)];
        ReceivePackets(p);
      } else if k.extracted > 0 {
        links := links[l := k.(extracted := k.extracted - rtc, returned := k.returned + rtc)];
      } else {
        assert Drained(k) == k;
        assert links == links[l := k];
      }
    }

    /** The host side of a response: the tag goes back to its pool and the callback runs. */
    method ReceivePackets(p: Packet)
      requires p.slid < |links|
      modifies this`links, this`done
      ensures Model() == HostReceives(old(Model()), p)
    {
      var k := links[p.slid];
      links := links[p.slid := k.(pool := k.pool + [p.tag])];
      done := done + [p.req.id];
    }
  }
}
