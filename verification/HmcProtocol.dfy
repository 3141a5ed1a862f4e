/**
 The packet protocol of the Hybrid Memory Cube in host mode, single stack: the host takes
 a tag and sends a request packet over a link, the crossbar hands it to a vault, the vault
 serves it and answers with a response packet, which travels back and returns the tag.
 One event is one action of the host, the crossbar, a vault or a link; any order of events is a run.
 */
module HmcProtocol {
  import opened Tokens

  const BUFFER_MAX: nat := 32
  const QUEUE_MAX: nat := 32

  /** Data flits of one transaction, and accesses a request takes in its vault. */
  datatype Config = Config(payload: nat, burst: int)

  datatype Req = Req(id: nat, addr: int, write: bool, burst: int)

  datatype Packet = Packet(req: Req, tag: int, slid: nat, vault: nat, flits: nat)

  /** `forwarded` and `returned` add up the flits taken from the input buffer and the tokens sent back for them. */
  datatype Link = Link(pool: seq<int>, input: seq<Packet>, output: seq<Packet>, extracted: nat, forwarded: nat, returned: nat)

  datatype Vault = Vault(readq: seq<Req>, writeq: seq<Req>, pending: seq<Req>, incoming: map<nat, Packet>, responses: seq<Packet>)

  /** What a request was accepted with: its link, its tag, the vault it is for, its address and its kind. */
  datatype Ticket = Ticket(slid: nat, tag: int, vault: nat, addr: int, write: bool)

  /** `tickets` logs every accepted request, `done` every request whose callback ran, both in order. */
  datatype State = State(links: seq<Link>, vaults: seq<Vault>, tickets: seq<Ticket>, done: seq<nat>)

  datatype Event =
    | HostSend(slid: nat, vault: nat, addr: int, write: bool)
    | XbarIn(link: nat)
    | XbarOut(v: nat)
    | Respond(v: nat)
    | Access(v: nat, writes: bool, index: nat)
    | LinkSend(link: nat)

  function RequestFlits(cfg: Config, write: bool): (n: nat) {
    if write then 1 + cfg.payload else 1
  }

  function ResponseFlits(cfg: Config, write: bool): (n: nat) {
    if write then 1 else 1 + cfg.payload
  }

  // ----- what each actor does -----

  /** There was a tag to take but no room on the link for the packet. */
  predicate LosesTag(cfg: Config, k: Link, write: bool) {
    k.pool != [] && RequestFlits(cfg, write) > BUFFER_MAX - |k.input|
  }

  /** A tag is taken, then the packet goes out if the link has room; a tag taken for a refused packet is not put back. */
  function HostSends(cfg: Config, s: State, slid: nat, vault: nat, addr: int, write: bool): (t: State)
    requires slid < |s.links|
  {
    var k := s.links[slid];
    if k.pool == [] then s
    else if LosesTag(cfg, k, write) then s.(links := s.links[slid := k.(pool := k.pool[1..])])
    else
      var p := Packet(Req(|s.tickets|, addr, write, 0), k.pool[0], slid, vault, RequestFlits(cfg, write));
      s.(links := s.links[slid := k.(pool := k.pool[1..], input := k.input + [p])],
         tickets := s.tickets + [Ticket(slid, k.pool[0], vault, addr, write)])
  }

  predicate QueueFull(v: Vault, r: Req) {
    if r.write then |v.writeq| == QUEUE_MAX else |v.readq| == QUEUE_MAX
  }

  /** A read that finds a queued write to its address is served from it at once. */
  function Enqueue(v: Vault, r: Req): (w: Vault) {
    if r.write then v.(writeq := v.writeq + [r])
    else if exists i :: 0 <= i < |v.writeq| && v.writeq[i].addr == r.addr then v.(pending := v.pending + [r])
    else v.(readq := v.readq + [r])
  }

  /** What the vault's controller does with an arriving packet: it is remembered even when the queue is full. */
  function Receive(cfg: Config, v: Vault, p: Packet): (w: Vault) {
    var r := p.req.(burst := cfg.burst);
    var u := v.(incoming := v.incoming[p.req.id := p.(req := r)]);
    if QueueFull(v, r) then u else Enqueue(u, r)
  }

  /** A refused packet stays at the head of its link. */
  function CrossesIn(cfg: Config, s: State, l: nat): (t: State)
    requires l < |s.links| && (s.links[l].input != [] ==> s.links[l].input[0].vault < |s.vaults|)
  {
    var k := s.links[l];
    if k.input == [] then s else
    var p := k.input[0];
    var v := s.vaults[p.vault];
    s.(vaults := s.vaults[p.vault := Receive(cfg, v, p)],
       links := if QueueFull(v, p.req) then s.links else
         s.links[l := k.(input := k.input[1..], extracted := k.extracted + p.flits, forwarded := k.forwarded + p.flits)])
  }

  function CrossesOut(s: State, i: nat): (t: State)
    requires i < |s.vaults| && (s.vaults[i].responses != [] ==> s.vaults[i].responses[0].slid < |s.links|)
  {
    var v := s.vaults[i];
    if v.responses == [] then s else
    var p := v.responses[0];
    var k := s.links[p.slid];
    if p.flits > BUFFER_MAX - |k.output| then s else
    s.(vaults := s.vaults[i := v.(responses := v.responses[1..])],
       links := s.links[p.slid := k.(output := k.output + [p])])
  }

  /** The lookup that forming a response asserts. */
  predicate Answerable(v: Vault) {
    v.pending != [] ==> v.pending[0].id in v.incoming
  }

  /** The oldest pending request is answered from the remembered packet, which is then released. */
  function Responds(cfg: Config, s: State, i: nat): (t: State)
    requires i < |s.vaults| && Answerable(s.vaults[i])
  {
    var v := s.vaults[i];
    if v.pending == [] then s else
    var r := v.pending[0];
    var q := v.incoming[r.id];
    var p := Packet(r, q.tag, q.slid, q.vault, ResponseFlits(cfg, r.write));
    s.(vaults := s.vaults[i := v.(pending := v.pending[1..], incoming := v.incoming - {r.id}, responses := v.responses + [p])])
  }

  function Remove(xs: seq<Req>, i: nat): (ys: seq<Req>)
    requires i < |xs|
  {
    xs[..i] + xs[i + 1..]
  }

  /** The access command of a queued request went out: one access less to go, and to the pending list at zero. */
  function Accessed(v: Vault, writes: bool, j: nat): (w: Vault)
    requires j < |if writes then v.writeq else v.readq|
  {
    var q := if writes then v.writeq else v.readq;
    var r := q[j].(burst := q[j].burst - 1);
    if r.burst == 0 then
      if writes then v.(writeq := Remove(q, j), pending := v.pending + [r])
      else v.(readq := Remove(q, j), pending := v.pending + [r])
    else
      if writes then v.(writeq := q[j := r]) else v.(readq := q[j := r])
  }

  function Accesses(s: State, i: nat, writes: bool, j: nat): (t: State)
    requires i < |s.vaults|
  {
    var v := s.vaults[i];
    if j >= |if writes then v.writeq else v.readq| then s
    else s.(vaults := s.vaults[i := Accessed(v, writes, j)])
  }

  /** Tokens for extracted flits go back with whatever the link sends, as many as the highest power of two. */
  function Drained(k: Link): (r: Link) {
    var rtc := LeftmostBit(k.extracted);
    k.(extracted := k.extracted - rtc, returned := k.returned + rtc)
  }

  /** The host puts the tag of an arriving response back and runs its callback. */
  function HostReceives(s: State, p: Packet): (t: State)
    requires p.slid < |s.links|
  {
    var k := s.links[p.slid];
    s.(links := s.links[p.slid := k.(pool := k.pool + [p.tag])], done := s.done + [p.req.id])
  }

  /** A link sends its oldest response, or tokens alone. */
  function Sends(s: State, l: nat): (t: State)
    requires l < |s.links| && (s.links[l].output != [] ==> s.links[l].output[0].slid < |s.links|)
  {
    var k := s.links[l];
    if k.output == [] || k.output[0].flits > BUFFER_MAX then s.(links := s.links[l := Drained(k)])
    else HostReceives(s.(links := s.links[l := Drained(k).(output := k.output[1..])]), k.output[0])
  }

  /** The event names a link and a vault that exist. */
  predicate Fits(links: nat, vaults: nat, e: Event) {
    match e
    case HostSend(slid, vault, _, _) => slid < links && vault < vaults
    case XbarIn(l) => l < links
    case XbarOut(v) => v < vaults
    case Respond(v) => v < vaults
    case Access(v, _, _) => v < vaults
    case LinkSend(l) => l < links
  }

  predicate Enabled(s: State, e: Event) {
    Fits(|s.links|, |s.vaults|, e)
  }

  /** No index or lookup of the step goes wrong. */
  predicate Safe(s: State, e: Event)
    requires Enabled(s, e)
  {
    match e
    case HostSend(_, _, _, _) => true
    case XbarIn(l) => s.links[l].input != [] ==> s.links[l].input[0].vault < |s.vaults|
    case XbarOut(v) => s.vaults[v].responses != [] ==> s.vaults[v].responses[0].slid < |s.links|
    case Respond(v) => Answerable(s.vaults[v])
    case Access(_, _, _) => true
    case LinkSend(l) => s.links[l].output != [] ==> s.links[l].output[0].slid < |s.links|
  }

  function Step(cfg: Config, s: State, e: Event): (t: State)
    requires Enabled(s, e) && Safe(s, e)
  {
    match e
    case HostSend(slid, vault, addr, write) => HostSends(cfg, s, slid, vault, addr, write)
    case XbarIn(l) => CrossesIn(cfg, s, l)
    case XbarOut(v) => CrossesOut(s, v)
    case Respond(v) => Responds(cfg, s, v)
    case Access(v, writes, j) => Accesses(s, v, writes, j)
    case LinkSend(l) => Sends(s, l)
  }

  // ----- where a request is -----

  ghost function InReqs(rs: seq<Req>, id: nat): (n: nat) {
    if rs == [] then 0 else InReqs(rs[1..], id) + if rs[0].id == id then 1 else 0
  }

  ghost function InPackets(ps: seq<Packet>, id: nat): (n: nat) {
    if ps == [] then 0 else InPackets(ps[1..], id) + if ps[0].req.id == id then 1 else 0
  }

  ghost function InLink(k: Link, id: nat): (n: nat) {
    InPackets(k.input, id) + InPackets(k.output, id)
  }

  ghost function InVault(v: Vault, id: nat): (n: nat) {
    InReqs(v.readq, id) + InReqs(v.writeq, id) + InReqs(v.pending, id) + InPackets(v.responses, id)
  }

  ghost function InLinks(ks: seq<Link>, id: nat): (n: nat) {
    if ks == [] then 0 else InLinks(ks[1..], id) + InLink(ks[0], id)
  }

  ghost function InVaults(vs: seq<Vault>, id: nat): (n: nat) {
    if vs == [] then 0 else InVaults(vs[1..], id) + InVault(vs[0], id)
  }

  /** In how many places a request is: link buffers, vault queues, pending lists, response buffers, or completed. */
  ghost function Places(s: State, id: nat): (n: nat) {
    InLinks(s.links, id) + InVaults(s.vaults, id) + multiset(s.done)[id]
  }

  lemma {:induction false} InReqsConcat(a: seq<Req>, b: seq<Req>, id: nat)
    ensures InReqs(a + b, id) == InReqs(a, id) + InReqs(b, id)
    decreases |a|
  {
    if a == [] {
      assert a + b == b;
    } else {
      InReqsConcat(a[1..], b, id);
      assert (a + b)[1..] == a[1..] + b;
    }
  }

  lemma {:induction false} InPacketsPush(ps: seq<Packet>, p: Packet, id: nat)
    ensures InPackets(ps + [p], id) == InPackets(ps, id) + if p.req.id == id then 1 else 0
    decreases |ps|
  {
    if ps == [] {
      assert ps + [p] == [p];
    } else {
      InPacketsPush(ps[1..], p, id);
      assert (ps + [p])[1..] == ps[1..] + [p];
    }
  }

  lemma InReqsOne(r: Req, id: nat)
    ensures InReqs([r], id) == if r.id == id then 1 else 0
  {
    assert [r][1..] == [];
  }

  lemma InReqsPush(rs: seq<Req>, r: Req, id: nat)
    ensures InReqs(rs + [r], id) == InReqs(rs, id) + if r.id == id then 1 else 0
  {
    InReqsConcat(rs, [r], id);
    InReqsOne(r, id);
  }

  lemma InReqsRemove(rs: seq<Req>, i: nat, id: nat)
    requires i < |rs|
    ensures InReqs(rs, id) == InReqs(Remove(rs, i), id) + if rs[i].id == id then 1 else 0
  {
    assert rs == (rs[..i] + [rs[i]]) + rs[i + 1..];
    InReqsConcat(rs[..i] + [rs[i]], rs[i + 1..], id);
    InReqsPush(rs[..i], rs[i], id);
    InReqsConcat(rs[..i], rs[i + 1..], id);
  }

  lemma InReqsReplace(rs: seq<Req>, i: nat, r: Req, id: nat)
    requires i < |rs| && r.id == rs[i].id
    ensures InReqs(rs[i := r], id) == InReqs(rs, id)
  {
    InReqsRemove(rs, i, id);
    InReqsRemove(rs[i := r], i, id);
    assert Remove(rs[i := r], i) == Remove(rs, i);
  }

  lemma InReqsMember(rs: seq<Req>, i: nat)
    requires i < |rs|
    ensures InReqs(rs, rs[i].id) >= 1
  {
    InReqsRemove(rs, i, rs[i].id);
  }

  lemma {:induction false} InLinksUpdate(ks: seq<Link>, i: nat, k: Link, id: nat)
    requires i < |ks|
    ensures InLinks(ks[i := k], id) == InLinks(ks, id) - InLink(ks[i], id) + InLink(k, id)
    ensures InLink(ks[i], id) <= InLinks(ks, id)
    decreases |ks|
  {
    if i == 0 {
      assert ks[i := k][1..] == ks[1..];
    } else {
      InLinksUpdate(ks[1..], i - 1, k, id);
      assert ks[i := k][1..] == ks[1..][i - 1 := k];
    }
  }

  lemma {:induction false} InVaultsUpdate(vs: seq<Vault>, i: nat, v: Vault, id: nat)
    requires i < |vs|
    ensures InVaults(vs[i := v], id) == InVaults(vs, id) - InVault(vs[i], id) + InVault(v, id)
    ensures InVault(vs[i], id) <= InVaults(vs, id)
    decreases |vs|
  {
    if i == 0 {
      assert vs[i := v][1..] == vs[1..];
    } else {
      InVaultsUpdate(vs[1..], i - 1, v, id);
      assert vs[i := v][1..] == vs[1..][i - 1 := v];
    }
  }

  // ----- every step conserves the places -----

  /** The step accepts a new request. */
  predicate Admits(cfg: Config, s: State, e: Event)
    requires Enabled(s, e)
  {
    e.HostSend? && s.links[e.slid].pool != [] && !LosesTag(cfg, s.links[e.slid], e.write)
  }

  lemma SendPlaces(cfg: Config, s: State, e: Event, id: nat)
    requires e.HostSend? && Enabled(s, e)
    ensures Places(Step(cfg, s, e), id) == Places(s, id) + if Admits(cfg, s, e) && id == |s.tickets| then 1 else 0
  {
    var k := s.links[e.slid];
    if k.pool != [] {
      InLinksUpdate(s.links, e.slid, k.(pool := k.pool[1..]), id);
      var p := Packet(Req(|s.tickets|, e.addr, e.write, 0), k.pool[0], e.slid, e.vault, RequestFlits(cfg, e.write));
      InLinksUpdate(s.links, e.slid, k.(pool := k.pool[1..], input := k.input + [p]), id);
      InPacketsPush(k.input, p, id);
    }
  }

  lemma ReceiveHolds(cfg: Config, v: Vault, p: Packet, id: nat)
    ensures InVault(Receive(cfg, v, p), id) == InVault(v, id) + if !QueueFull(v, p.req) && id == p.req.id then 1 else 0
  {
    var r := p.req.(burst := cfg.burst);
    InReqsPush(v.writeq, r, id);
    InReqsPush(v.readq, r, id);
    InReqsPush(v.pending, r, id);
  }

  lemma XbarInPlaces(cfg: Config, s: State, l: nat, id: nat)
    requires Enabled(s, XbarIn(l)) && Safe(s, XbarIn(l))
    ensures Places(CrossesIn(cfg, s, l), id) == Places(s, id)
  {
    var k := s.links[l];
    if k.input != [] {
      var p := k.input[0];
      var v := s.vaults[p.vault];
      ReceiveHolds(cfg, v, p, id);
      InVaultsUpdate(s.vaults, p.vault, Receive(cfg, v, p), id);
      InLinksUpdate(s.links, l,
        k.(input := k.input[1..], extracted := k.extracted + p.flits, forwarded := k.forwarded + p.flits), id);
    }
  }

  lemma XbarOutPlaces(s: State, i: nat, id: nat)
    requires Enabled(s, XbarOut(i)) && Safe(s, XbarOut(i))
    ensures Places(CrossesOut(s, i), id) == Places(s, id)
  {
    var v := s.vaults[i];
    if v.responses != [] {
      var p := v.responses[0];
      var k := s.links[p.slid];
      InVaultsUpdate(s.vaults, i, v.(responses := v.responses[1..]), id);
      InLinksUpdate(s.links, p.slid, k.(output := k.output + [p]), id);
      InPacketsPush(k.output, p, id);
    }
  }

  lemma RespondPlaces(cfg: Config, s: State, i: nat, id: nat)
    requires Enabled(s, Respond(i)) && Safe(s, Respond(i))
    ensures Places(Responds(cfg, s, i), id) == Places(s, id)
  {
    var v := s.vaults[i];
    if v.pending != [] {
      InVaultsUpdate(s.vaults, i, Responds(cfg, s, i).vaults[i], id);
      var r := v.pending[0];
      var q := v.incoming[r.id];
      InPacketsPush(v.responses, Packet(r, q.tag, q.slid, q.vault, ResponseFlits(cfg, r.write)), id);
    }
  }

  lemma AccessedHolds(v: Vault, writes: bool, j: nat, id: nat)
    requires j < |if writes then v.writeq else v.readq|
    ensures InVault(Accessed(v, writes, j), id) == InVault(v, id)
  {
    var q := if writes then v.writeq else v.readq;
    var r := q[j].(burst := q[j].burst - 1);
    if r.burst == 0 {
      InReqsRemove(q, j, id);
      InReqsPush(v.pending, r, id);
    } else {
      InReqsReplace(q, j, r, id);
    }
  }

  lemma AccessPlaces(s: State, i: nat, writes: bool, j: nat, id: nat)
    requires Enabled(s, Access(i, writes, j))
    ensures Places(Accesses(s, i, writes, j), id) == Places(s, id)
  {
    var v := s.vaults[i];
    if j < |if writes then v.writeq else v.readq| {
      AccessedHolds(v, writes, j, id);
      InVaultsUpdate(s.vaults, i, Accessed(v, writes, j), id);
    }
  }

  lemma HostReceivesPlaces(s: State, p: Packet, id: nat)
    requires p.slid < |s.links|
    ensures Places(HostReceives(s, p), id) == Places(s, id) + if id == p.req.id then 1 else 0
  {
    var k := s.links[p.slid];
    InLinksUpdate(s.links, p.slid, k.(pool := k.pool + [p.tag]), id);
  }

  lemma LinkSendPlaces(s: State, l: nat, id: nat)
    requires Enabled(s, LinkSend(l)) && Safe(s, LinkSend(l))
    ensures Places(Sends(s, l), id) == Places(s, id)
  {
    var k := s.links[l];
    if k.output == [] || k.output[0].flits > BUFFER_MAX {
      InLinksUpdate(s.links, l, Drained(k), id);
    } else {
      var k' := Drained(k).(output := k.output[1..]);
      InLinksUpdate(s.links, l, k', id);
      HostReceivesPlaces(s.(links := s.links[l := k']), k.output[0], id);
    }
  }

  /** One step never drops, copies or forges a request: only the one it accepts comes in. */
  lemma StepPlaces(cfg: Config, s: State, e: Event, id: nat)
    requires Enabled(s, e) && Safe(s, e)
    ensures Places(Step(cfg, s, e), id) == Places(s, id) + if Admits(cfg, s, e) && id == |s.tickets| then 1 else 0
  {
    match e
    case HostSend(_, _, _, _) => SendPlaces(cfg, s, e, id);
    case XbarIn(l) => XbarInPlaces(cfg, s, l, id);
    case XbarOut(v) => XbarOutPlaces(s, v, id);
    case Respond(v) => RespondPlaces(cfg, s, v, id);
    case Access(v, writes, j) => AccessPlaces(s, v, writes, j, id);
    case LinkSend(l) => LinkSendPlaces(s, l, id);
  }
}
