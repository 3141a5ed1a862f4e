/**
 Order and room in the packet protocol: nothing overtakes in a buffer, no buffer holds more
 than it can, and every event moves what it can move.
 */
module HmcOrder {
  import opened HmcProtocol
  import opened HmcRuns
  import opened HmcCrossbar

  // ----- order -----

  /** Some elements left at the front, others were added at the end. */
  ghost predicate Slides<T>(a: seq<T>, b: seq<T>) {
    exists n :: 0 <= n <= |a| && a[n..] <= b
  }

  lemma Stays<T>(a: seq<T>)
    ensures Slides(a, a)
  {
    assert a[0..] <= a;
  }

  lemma Grows<T>(a: seq<T>, x: T)
    ensures Slides(a, a + [x])
  {
    assert a[0..] <= a + [x];
  }

  lemma Drops<T>(a: seq<T>)
    requires a != []
    ensures Slides(a, a[1..])
  {
    assert a[1..] <= a[1..];
  }

  lemma SlidesOn<T>(a: seq<T>, b: seq<T>, c: seq<T>)
    requires Slides(a, b) && Slides(b, c)
    ensures Slides(a, c)
  {
    var n :| 0 <= n <= |a| && a[n..] <= b;
    var m :| 0 <= m <= |b| && b[m..] <= c;
    if m <= |a| - n {
      assert a[n + m..] == a[n..][m..] <= b[m..];
    } else {
      assert a[|a|..] == [] <= c;
    }
  }

  /** Tags, requests and responses of a link are used in the order in which they came. */
  ghost predicate LinkInOrder(k: Link, m: Link) {
    Slides(k.pool, m.pool) && Slides(k.input, m.input) && Slides(k.output, m.output)
  }

  /** A vault answers in the order in which requests were served, and hands the answers on in that order. */
  ghost predicate VaultInOrder(v: Vault, w: Vault) {
    Slides(v.pending, w.pending) && Slides(v.responses, w.responses)
  }

  ghost predicate InOrder(s: State, t: State) {
    && |s.links| == |t.links| && |s.vaults| == |t.vaults|
    && (forall l :: 0 <= l < |s.links| ==> LinkInOrder(s.links[l], t.links[l]))
    && (forall i :: 0 <= i < |s.vaults| ==> VaultInOrder(s.vaults[i], t.vaults[i]))
  }

  lemma LinkStays(k: Link)
    ensures LinkInOrder(k, k)
  {
    Stays(k.pool);
    Stays(k.input);
    Stays(k.output);
  }

  lemma VaultStays(v: Vault)
    ensures VaultInOrder(v, v)
  {
    Stays(v.pending);
    Stays(v.responses);
  }

  lemma OneChange(s: State, t: State, l: nat, i: nat)
    requires |s.links| == |t.links| && |s.vaults| == |t.vaults|
    requires forall j :: 0 <= j < |s.links| && j != l ==> t.links[j] == s.links[j]
    requires forall j :: 0 <= j < |s.vaults| && j != i ==> t.vaults[j] == s.vaults[j]
    requires l < |s.links| ==> LinkInOrder(s.links[l], t.links[l])
    requires i < |s.vaults| ==> VaultInOrder(s.vaults[i], t.vaults[i])
    ensures InOrder(s, t)
  {
    forall j | 0 <= j < |s.links| ensures LinkInOrder(s.links[j], t.links[j]) {
      if j != l { LinkStays(s.links[j]); }
    }
    forall j | 0 <= j < |s.vaults| ensures VaultInOrder(s.vaults[j], t.vaults[j]) {
      if j != i { VaultStays(s.vaults[j]); }
    }
  }

  lemma SendInOrder(cfg: Config, s: State, slid: nat, vault: nat, addr: int, write: bool)
    requires slid < |s.links|
    ensures InOrder(s, HostSends(cfg, s, slid, vault, addr, write))
  {
    var k, t := s.links[slid], HostSends(cfg, s, slid, vault, addr, write);
    LinkStays(k);
    if k.pool != [] {
      Drops(k.pool);
      if t.links[slid].input != k.input {
        Grows(k.input, t.links[slid].input[|k.input|]);
      }
    }
    OneChange(s, t, slid, |s.vaults|);
  }

  lemma CrossInOrder(cfg: Config, s: State, l: nat)
    requires l < |s.links| && (s.links[l].input != [] ==> s.links[l].input[0].vault < |s.vaults|)
    ensures InOrder(s, CrossesIn(cfg, s, l))
  {
    var k, t := s.links[l], CrossesIn(cfg, s, l);
    LinkStays(k);
    if k.input == [] {
      OneChange(s, t, l, |s.vaults|);
    } else {
      Drops(k.input);
      var i, r := k.input[0].vault, k.input[0].req.(burst := cfg.burst);
      VaultStays(s.vaults[i]);
      Grows(s.vaults[i].pending, r);
      OneChange(s, t, l, i);
    }
  }

  lemma CrossOutInOrder(s: State, i: nat)
    requires i < |s.vaults| && (s.vaults[i].responses != [] ==> s.vaults[i].responses[0].slid < |s.links|)
    ensures InOrder(s, CrossesOut(s, i))
  {
    var v, t := s.vaults[i], CrossesOut(s, i);
    VaultStays(v);
    if v.responses == [] {
      OneChange(s, t, |s.links|, i);
    } else {
      Drops(v.responses);
      var p := v.responses[0];
      LinkStays(s.links[p.slid]);
      Grows(s.links[p.slid].output, p);
      OneChange(s, t, p.slid, i);
    }
  }

  lemma RespondInOrder(cfg: Config, s: State, i: nat)
    requires i < |s.vaults| && Answerable(s.vaults[i])
    ensures InOrder(s, Responds(cfg, s, i))
  {
    var v, t := s.vaults[i], Responds(cfg, s, i);
    VaultStays(v);
    if v.pending != [] {
      Drops(v.pending);
      Grows(v.responses, t.vaults[i].responses[|v.responses|]);
    }
    OneChange(s, t, |s.links|, i);
  }

  lemma AccessInOrder(s: State, i: nat, writes: bool, j: nat)
    requires i < |s.vaults|
    ensures InOrder(s, Accesses(s, i, writes, j))
  {
    var v, t := s.vaults[i], Accesses(s, i, writes, j);
    VaultStays(v);
    if t.vaults[i].pending != v.pending {
      Grows(v.pending, t.vaults[i].pending[|v.pending|]);
    }
    OneChange(s, t, |s.links|, i);
  }

  lemma LinkSendInOrder(s: State, l: nat)
    requires l < |s.links| && (s.links[l].output != [] ==> s.links[l].output[0].slid == l)
    ensures InOrder(s, Sends(s, l))
  {
    var k, t := s.links[l], Sends(s, l);
    LinkStays(k);
    if k.output != [] {
      Drops(k.output);
      Grows(k.pool, k.output[0].tag);
    }
    OneChange(s, t, l, |s.vaults|);
  }

  lemma StepInOrder(cfg: Config, s: State, e: Event)
    requires Inv(s) && Enabled(s, e) && Safe(s, e)
    ensures InOrder(s, Step(cfg, s, e))
  {
    match e
    case HostSend(slid, vault, addr, write) => SendInOrder(cfg, s, slid, vault, addr, write);
    case XbarIn(l) => CrossInOrder(cfg, s, l);
    case XbarOut(v) => CrossOutInOrder(s, v);
    case Respond(v) => RespondInOrder(cfg, s, v);
    case Access(v, writes, j) => AccessInOrder(s, v, writes, j);
    case LinkSend(l) => LinkSendInOrder(s, l);
  }

  lemma OrderOn(s: State, t: State, u: State)
    requires InOrder(s, t) && InOrder(t, u)
    ensures InOrder(s, u)
  {
    forall l | 0 <= l < |s.links| ensures LinkInOrder(s.links[l], u.links[l]) {
      SlidesOn(s.links[l].pool, t.links[l].pool, u.links[l].pool);
      SlidesOn(s.links[l].input, t.links[l].input, u.links[l].input);
      SlidesOn(s.links[l].output, t.links[l].output, u.links[l].output);
    }
    forall i | 0 <= i < |s.vaults| ensures VaultInOrder(s.vaults[i], u.vaults[i]) {
      SlidesOn(s.vaults[i].pending, t.vaults[i].pending, u.vaults[i].pending);
      SlidesOn(s.vaults[i].responses, t.vaults[i].responses, u.vaults[i].responses);
    }
  }

  /** Over any run nothing overtakes on a link, among the served requests of a vault or among its answers. */
  lemma {:induction false} RunInOrder(cfg: Config, s: State, es: seq<Event>)
    requires Inv(s) && AllFit(|s.links|, |s.vaults|, es)
    ensures InOrder(s, Run(cfg, s, es))
    decreases |es|
  {
    if es == [] {
      forall l | 0 <= l < |s.links| ensures LinkInOrder(s.links[l], s.links[l]) { LinkStays(s.links[l]); }
      forall i | 0 <= i < |s.vaults| ensures VaultInOrder(s.vaults[i], s.vaults[i]) { VaultStays(s.vaults[i]); }
    } else {
      InvSafe(s, es[0]);
      StepKeepsInv(cfg, s, es[0]);
      StepInOrder(cfg, s, es[0]);
      var t := Step(cfg, s, es[0]);
      RunInOrder(cfg, t, es[1..]);
      OrderOn(s, t, Run(cfg, t, es[1..]));
    }
  }

  // ----- room -----

  /** Every buffer and queue within its 32 places. */
  ghost predicate Bounded(s: State) {
    && (forall l :: 0 <= l < |s.links| ==> |s.links[l].input| <= 32 && |s.links[l].output| <= 32)
    && (forall i :: 0 <= i < |s.vaults| ==> |s.vaults[i].readq| <= 32 && |s.vaults[i].writeq| <= 32)
  }

  /** Packets that leave have at least one flit. */
  ghost predicate HaveFlits(s: State) {
    forall i :: 0 <= i < |s.vaults| ==> forall j :: 0 <= j < |s.vaults[i].responses| ==> 1 <= s.vaults[i].responses[j].flits
  }

  lemma SendBounded(cfg: Config, s: State, slid: nat, vault: nat, addr: int, write: bool)
    requires slid < |s.links| && Bounded(s) && HaveFlits(s)
    ensures var t := HostSends(cfg, s, slid, vault, addr, write); Bounded(t) && HaveFlits(t)
  {
  }

  lemma CrossInBounded(cfg: Config, s: State, l: nat)
    requires l < |s.links| && (s.links[l].input != [] ==> s.links[l].input[0].vault < |s.vaults|) && Bounded(s) && HaveFlits(s)
    ensures Bounded(CrossesIn(cfg, s, l)) && HaveFlits(CrossesIn(cfg, s, l))
  {
  }

  lemma AccessBounded(s: State, i: nat, writes: bool, j: nat)
    requires i < |s.vaults| && Bounded(s) && HaveFlits(s)
    ensures Bounded(Accesses(s, i, writes, j)) && HaveFlits(Accesses(s, i, writes, j))
  {
  }

  lemma StepBounded(cfg: Config, s: State, e: Event)
    requires Enabled(s, e) && Safe(s, e) && Bounded(s) && HaveFlits(s)
    ensures Bounded(Step(cfg, s, e)) && HaveFlits(Step(cfg, s, e))
  {
    match e
    case HostSend(slid, vault, addr, write) => SendBounded(cfg, s, slid, vault, addr, write);
    case XbarIn(l) => CrossInBounded(cfg, s, l);
    case Access(v, writes, j) => AccessBounded(s, v, writes, j);
    case _ =>
  }

  /** In every run, as from the start, no buffer of a link and no queue of a vault holds more than 32 entries. */
  lemma {:induction false} RunBounded(cfg: Config, s: State, es: seq<Event>)
    requires Inv(s) && AllFit(|s.links|, |s.vaults|, es) && Bounded(s) && HaveFlits(s)
    ensures Bounded(Run(cfg, s, es)) && HaveFlits(Run(cfg, s, es))
    decreases |es|
  {
    if es == [] {
    } else {
      InvSafe(s, es[0]);
      StepKeepsInv(cfg, s, es[0]);
      StepBounded(cfg, s, es[0]);
      RunBounded(cfg, Step(cfg, s, es[0]), es[1..]);
    }
  }

  // ----- what moves -----

  /** The packet of a new request. */
  predicate IsPacketOf(p: Packet, s: State, slid: nat, vault: nat, addr: int, write: bool)
    requires slid < |s.links| && s.links[slid].pool != []
  {
    && p.req.id == |s.tickets| && p.req.addr == addr && p.req.write == write
    && p.tag == s.links[slid].pool[0] && p.slid == slid && p.vault == vault
  }

  /** A send takes a tag if there is one, and goes out if one flit, or a write's payload besides, fits into the 32 of the link. */
  lemma SendMoves(cfg: Config, s: State, slid: nat, vault: nat, addr: int, write: bool)
    requires slid < |s.links|
    ensures var k, t := s.links[slid], HostSends(cfg, s, slid, vault, addr, write);
            var m, flits := t.links[slid], if write then 1 + cfg.payload else 1;
            if k.pool == [] then t == s
            else
              && m.pool == k.pool[1..]
              && if |k.input| + flits <= 32 then
                   |t.tickets| == |s.tickets| + 1 && |m.input| == |k.input| + 1 && k.input <= m.input
                   && IsPacketOf(m.input[|k.input|], s, slid, vault, addr, write)
                 else t.tickets == s.tickets && m.input == k.input
  {
  }

  /** A packet crosses unless the 32 places it needs are taken; a vault answers, and a link sends, the oldest it has. */
  lemma EventMoves(cfg: Config, s: State, e: Event)
    requires Inv(s) && Enabled(s, e) && Safe(s, e)
    ensures var t := Step(cfg, s, e);
            && |t.links| == |s.links| && |t.vaults| == |s.vaults|
            && match e
               case XbarIn(l) =>
                 var k := s.links[l];
                 k.input != [] ==>
                   var v, write := s.vaults[k.input[0].vault], k.input[0].req.write;
                   |t.links[l].input| == |k.input| - if |if write then v.writeq else v.readq| == 32 then 0 else 1
               case XbarOut(i) =>
                 var rs := s.vaults[i].responses;
                 rs != [] ==>
                   var out := s.links[rs[0].slid].output;
                   var moved := if |out| + rs[0].flits <= 32 then 1 else 0;
                   |t.vaults[i].responses| == |rs| - moved && |t.links[rs[0].slid].output| == |out| + moved
               case Respond(i) =>
                 var v := s.vaults[i];
                 v.pending != [] ==>
                   |t.vaults[i].pending| == |v.pending| - 1 && |t.vaults[i].responses| == |v.responses| + 1
               case LinkSend(l) =>
                 var out := s.links[l].output;
                 var moved := if out != [] && out[0].flits <= 32 then 1 else 0;
                 |t.links[l].output| == |out| - moved && |t.done| == |s.done| + moved
               case _ => true
  {
    StepKeepsInv(cfg, s, e);
  }

  // ----- a cycle of the crossbar holds no response back -----

  lemma {:induction false} OutputGrows(cfg: Config, s: State, v: nat, used: set<nat>, l: nat)
    requires Inv(s) && v <= |s.vaults| && l < |s.links|
    ensures |OutTick(cfg, s, v, used).links[l].output| >= |s.links[l].output|
    decreases |s.vaults| - v
  {
    if v == |s.vaults| {
    } else if s.vaults[v].responses == [] || s.vaults[v].responses[0].slid in used {
      OutputGrows(cfg, s, v + 1, used, l);
    } else {
      InvSafe(s, XbarOut(v));
      StepKeepsInv(cfg, s, XbarOut(v));
      OutLoad(s, v, l);
      OutputGrows(cfg, CrossesOut(s, v), v + 1, if Given(s, v) then used + {s.vaults[v].responses[0].slid} else used, l);
    }
  }

  /** Vaults before `v` keep their answers. */
  lemma {:induction false} AnswersBefore(cfg: Config, s: State, v: nat, used: set<nat>, k: nat)
    requires Inv(s) && k < v <= |s.vaults|
    ensures OutTick(cfg, s, v, used).vaults[k].responses == s.vaults[k].responses
    decreases |s.vaults| - v
  {
    if v == |s.vaults| {
    } else if s.vaults[v].responses == [] || s.vaults[v].responses[0].slid in used {
      AnswersBefore(cfg, s, v + 1, used, k);
    } else {
      InvSafe(s, XbarOut(v));
      StepKeepsInv(cfg, s, XbarOut(v));
      assert CrossesOut(s, v).vaults[k] == s.vaults[k];
      AnswersBefore(cfg, CrossesOut(s, v), v + 1, if Given(s, v) then used + {s.vaults[v].responses[0].slid} else used, k);
    }
  }

  /** Link `l` cannot take packet `p` any more: it was used before, was given another one, or has no room for it. */
  predicate Taken(s: State, t: State, used: set<nat>, p: Packet)
    requires |s.links| == |t.links|
  {
    p.slid < |s.links| ==>
      p.slid in used || |t.links[p.slid].output| > |s.links[p.slid].output| || |s.links[p.slid].output| + p.flits > 32
  }

  lemma AnsweredFirst(cfg: Config, s: State, v: nat, used: set<nat>)
    requires Inv(s) && v < |s.vaults| && s.vaults[v].responses != []
    ensures var p := s.vaults[v].responses[0];
            && p.slid < |s.links|
            && |OutTick(cfg, s, v, used).vaults[v].responses| == |s.vaults[v].responses| -
                 if p.slid in used || |s.links[p.slid].output| + p.flits > 32 then 0 else 1
  {
    InvSafe(s, XbarOut(v));
    if s.vaults[v].responses[0].slid in used {
      AnswersBefore(cfg, s, v + 1, used, v);
    } else {
      StepKeepsInv(cfg, s, XbarOut(v));
      var used1 := if Given(s, v) then used + {s.vaults[v].responses[0].slid} else used;
      AnswersBefore(cfg, CrossesOut(s, v), v + 1, used1, v);
    }
  }

  lemma TakenBefore(cfg: Config, s: State, v: nat, used: set<nat>, p: Packet)
    requires Inv(s) && v < |s.vaults| && s.vaults[v].responses != [] && s.vaults[v].responses[0].slid !in used
    requires p.slid < |s.links| && Safe(s, XbarOut(v)) && Inv(CrossesOut(s, v))
    ensures var s1 := CrossesOut(s, v);
            var used1 := if Given(s, v) then used + {s.vaults[v].responses[0].slid} else used;
            var t := OutTick(cfg, s1, v + 1, used1);
            Taken(s1, t, used1, p) ==> Taken(s, t, used, p)
  {
    var used1 := if Given(s, v) then used + {s.vaults[v].responses[0].slid} else used;
    OutLoad(s, v, p.slid);
    OutputGrows(cfg, CrossesOut(s, v), v + 1, used1, p.slid);
  }

  /** A vault's oldest answer crosses unless its link is taken. */
  lemma {:induction false} VaultServed(cfg: Config, s: State, v: nat, used: set<nat>, k: nat)
    requires Inv(s) && v <= k < |s.vaults| && s.vaults[k].responses != []
    ensures var p, t := s.vaults[k].responses[0], OutTick(cfg, s, v, used);
            var n := |t.vaults[k].responses|;
            n == |s.vaults[k].responses| - 1 || (n == |s.vaults[k].responses| && Taken(s, t, used, p))
    decreases |s.vaults| - v
  {
    InvSafe(s, XbarOut(k));
    if k == v {
      AnsweredFirst(cfg, s, v, used);
    } else if s.vaults[v].responses == [] || s.vaults[v].responses[0].slid in used {
      VaultServed(cfg, s, v + 1, used, k);
    } else {
      InvSafe(s, XbarOut(v));
      StepKeepsInv(cfg, s, XbarOut(v));
      var s1 := CrossesOut(s, v);
      assert s1.vaults[k] == s.vaults[k];
      VaultServed(cfg, s1, v + 1, if Given(s, v) then used + {s.vaults[v].responses[0].slid} else used, k);
      TakenBefore(cfg, s, v, used, s.vaults[k].responses[0]);
    }
  }
}
