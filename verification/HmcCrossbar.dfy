/** A cycle of the crossbar: every link offers its oldest request, then every vault its oldest response. */
module HmcCrossbar {
  import opened HmcProtocol
  import opened HmcRuns

  /** Requests a vault holds in front of its response buffer. */
  function Load(v: Vault): (n: nat) {
    |v.readq| + |v.writeq| + |v.pending|
  }

  /** Links from `l` on forward, in order; a vault that took a request is `used` for this cycle. */
  function InTick(cfg: Config, s: State, l: nat, used: set<nat>): (t: State)
    requires Inv(s) && l <= |s.links|
    ensures Inv(t) && |t.links| == |s.links| && |t.vaults| == |s.vaults|
    decreases |s.links| - l
  {
    if l == |s.links| then s
    else if s.links[l].input == [] || s.links[l].input[0].vault in used then InTick(cfg, s, l + 1, used)
    else
      InvSafe(s, XbarIn(l));
      StepKeepsInv(cfg, s, XbarIn(l));
      InTick(cfg, CrossesIn(cfg, s, l), l + 1, UsedAfter(s, l, used))
  }

  function UsedAfter(s: State, l: nat, used: set<nat>): (u: set<nat>)
    requires l < |s.links| && s.links[l].input != [] && s.links[l].input[0].vault < |s.vaults|
  {
    var p := s.links[l].input[0];
    if QueueFull(s.vaults[p.vault], p.req) then used else used + {p.vault}
  }

  /** Vaults from `v` on respond, in order; a link that was given a response is `used` for this cycle. */
  function OutTick(cfg: Config, s: State, v: nat, used: set<nat>): (t: State)
    requires Inv(s) && v <= |s.vaults|
    ensures Inv(t) && |t.links| == |s.links| && |t.vaults| == |s.vaults|
    decreases |s.vaults| - v
  {
    if v == |s.vaults| then s
    else if s.vaults[v].responses == [] || s.vaults[v].responses[0].slid in used then OutTick(cfg, s, v + 1, used)
    else
      InvSafe(s, XbarOut(v));
      StepKeepsInv(cfg, s, XbarOut(v));
      OutTick(cfg, CrossesOut(s, v), v + 1, if Given(s, v) then used + {s.vaults[v].responses[0].slid} else used)
  }

  /** The link has room for the response. */
  predicate Given(s: State, v: nat)
    requires v < |s.vaults| && s.vaults[v].responses != [] && s.vaults[v].responses[0].slid < |s.links|
  {
    var p := s.vaults[v].responses[0];
    p.flits <= BUFFER_MAX - |s.links[p.slid].output|
  }

  function Tick(cfg: Config, s: State): (t: State)
    requires Inv(s)
  {
    OutTick(cfg, InTick(cfg, s, 0, {}), 0, {})
  }

  // ----- a cycle is a run -----

  lemma {:induction false} InTickIsRun(cfg: Config, s: State, l: nat, used: set<nat>) returns (es: seq<Event>)
    requires Inv(s) && l <= |s.links|
    ensures AllFit(|s.links|, |s.vaults|, es) && Run(cfg, s, es) == InTick(cfg, s, l, used)
    decreases |s.links| - l
  {
    if l == |s.links| {
      es := [];
    } else if s.links[l].input == [] || s.links[l].input[0].vault in used {
      es := InTickIsRun(cfg, s, l + 1, used);
    } else {
      InvSafe(s, XbarIn(l));
      StepKeepsInv(cfg, s, XbarIn(l));
      var rest := InTickIsRun(cfg, CrossesIn(cfg, s, l), l + 1, UsedAfter(s, l, used));
      es := [XbarIn(l)] + rest;
      assert es[1..] == rest;
    }
  }

  lemma {:induction false} OutTickIsRun(cfg: Config, s: State, v: nat, used: set<nat>) returns (es: seq<Event>)
    requires Inv(s) && v <= |s.vaults|
    ensures AllFit(|s.links|, |s.vaults|, es) && Run(cfg, s, es) == OutTick(cfg, s, v, used)
    decreases |s.vaults| - v
  {
    if v == |s.vaults| {
      es := [];
    } else if s.vaults[v].responses == [] || s.vaults[v].responses[0].slid in used {
      es := OutTickIsRun(cfg, s, v + 1, used);
    } else {
      InvSafe(s, XbarOut(v));
      StepKeepsInv(cfg, s, XbarOut(v));
      var u := if Given(s, v) then used + {s.vaults[v].responses[0].slid} else used;
      var rest := OutTickIsRun(cfg, CrossesOut(s, v), v + 1, u);
      es := [XbarOut(v)] + rest;
      assert es[1..] == rest;
    }
  }

  /** So every cycle keeps whatever runs keep. */
  lemma TickIsRun(cfg: Config, s: State) returns (es: seq<Event>)
    requires Inv(s)
    ensures AllFit(|s.links|, |s.vaults|, es) && Run(cfg, s, es) == Tick(cfg, s)
  {
    var ins := InTickIsRun(cfg, s, 0, {});
    var outs := OutTickIsRun(cfg, InTick(cfg, s, 0, {}), 0, {});
    RunConcat(cfg, s, ins, outs);
    es := ins + outs;
  }

  // ----- ports -----

  lemma InLoad(cfg: Config, s: State, l: nat, v: nat)
    requires Inv(s) && l < |s.links| && s.links[l].input != [] && v < |s.vaults| && Safe(s, XbarIn(l))
    ensures var p := s.links[l].input[0];
            Load(CrossesIn(cfg, s, l).vaults[v]) == Load(s.vaults[v]) + if v == p.vault && !QueueFull(s.vaults[v], p.req) then 1 else 0
  {
  }

  /** What a vault takes uses it up. */
  lemma InRoom(cfg: Config, s: State, l: nat, used: set<nat>, v: nat)
    requires Inv(s) && l < |s.links| && s.links[l].input != [] && s.links[l].input[0].vault !in used && v < |s.vaults|
    requires Safe(s, XbarIn(l))
    ensures Load(CrossesIn(cfg, s, l).vaults[v]) + (if v in UsedAfter(s, l, used) then 0 else 1)
            == Load(s.vaults[v]) + if v in used then 0 else 1
  {
    InLoad(cfg, s, l, v);
  }

  /** A vault takes at most one request in a cycle, and none once it is used. */
  lemma {:induction false} InTickPorts(cfg: Config, s: State, l: nat, used: set<nat>, v: nat)
    requires Inv(s) && l <= |s.links| && v < |s.vaults|
    ensures Load(InTick(cfg, s, l, used).vaults[v]) <= Load(s.vaults[v]) + if v in used then 0 else 1
    decreases |s.links| - l
  {
    if l == |s.links| {
    } else if s.links[l].input == [] || s.links[l].input[0].vault in used {
      InTickPorts(cfg, s, l + 1, used, v);
    } else {
      InvSafe(s, XbarIn(l));
      StepKeepsInv(cfg, s, XbarIn(l));
      InRoom(cfg, s, l, used, v);
      InTickPorts(cfg, CrossesIn(cfg, s, l), l + 1, UsedAfter(s, l, used), v);
    }
  }

  lemma OutLoad(s: State, v: nat, l: nat)
    requires Inv(s) && v < |s.vaults| && s.vaults[v].responses != [] && l < |s.links| && Safe(s, XbarOut(v))
    ensures |CrossesOut(s, v).links[l].output| == |s.links[l].output| + if Given(s, v) && l == s.vaults[v].responses[0].slid then 1 else 0
  {
  }

  /** A link is given at most one response in a cycle, and none once it is used. */
  lemma {:induction false} OutTickPorts(cfg: Config, s: State, v: nat, used: set<nat>, l: nat)
    requires Inv(s) && v <= |s.vaults| && l < |s.links|
    ensures |OutTick(cfg, s, v, used).links[l].output| <= |s.links[l].output| + if l in used then 0 else 1
    decreases |s.vaults| - v
  {
    if v == |s.vaults| {
    } else if s.vaults[v].responses == [] || s.vaults[v].responses[0].slid in used {
      OutTickPorts(cfg, s, v + 1, used, l);
    } else {
      InvSafe(s, XbarOut(v));
      StepKeepsInv(cfg, s, XbarOut(v));
      OutLoad(s, v, l);
      OutTickPorts(cfg, CrossesOut(s, v), v + 1, if Given(s, v) then used + {s.vaults[v].responses[0].slid} else used, l);
    }
  }

  /** Vault `v` cannot take request `r` any more: it was used before, took another one, or is full for it. */
  predicate Barred(s: State, t: State, used: set<nat>, v: nat, r: Req)
    requires v < |s.vaults| == |t.vaults|
  {
    v in used || Load(t.vaults[v]) > Load(s.vaults[v]) || QueueFull(s.vaults[v], r)
  }

  /** Nothing is held back without cause: a link's oldest request crosses unless its vault is barred for it. */
  lemma {:induction false} LinkServed(cfg: Config, s: State, l: nat, used: set<nat>, k: nat)
    requires Inv(s) && l <= k < |s.links| && s.links[k].input != []
    ensures var p := s.links[k].input[0]; var n := |InTick(cfg, s, l, used).links[k].input|;
            && p.vault < |s.vaults|
            && (n == |s.links[k].input| - 1 || (n == |s.links[k].input| && Barred(s, InTick(cfg, s, l, used), used, p.vault, p.req)))
    decreases |s.links| - l
  {
    InvSafe(s, XbarIn(k));
    if k == l {
      ServedFirst(cfg, s, l, used);
    } else if s.links[l].input == [] || s.links[l].input[0].vault in used {
      LinkServed(cfg, s, l + 1, used, k);
    } else {
      InvSafe(s, XbarIn(l));
      StepKeepsInv(cfg, s, XbarIn(l));
      var s1, p := CrossesIn(cfg, s, l), s.links[k].input[0];
      assert s1.links[k] == s.links[k];
      LinkServed(cfg, s1, l + 1, UsedAfter(s, l, used), k);
      BarredBefore(cfg, s, l, used, p);
    }
  }

  lemma BarredBefore(cfg: Config, s: State, l: nat, used: set<nat>, p: Packet)
    requires Inv(s) && l < |s.links| && s.links[l].input != [] && s.links[l].input[0].vault !in used
    requires p.vault < |s.vaults| && Safe(s, XbarIn(l)) && Inv(CrossesIn(cfg, s, l))
    ensures var s1 := CrossesIn(cfg, s, l); var u := UsedAfter(s, l, used); var t := InTick(cfg, s1, l + 1, u);
            Barred(s1, t, u, p.vault, p.req) ==> Barred(s, t, used, p.vault, p.req)
  {
    InLoad(cfg, s, l, p.vault);
    LoadGrows(cfg, CrossesIn(cfg, s, l), l + 1, UsedAfter(s, l, used), p.vault);
    if s.links[l].input[0].vault != p.vault || QueueFull(s.vaults[p.vault], s.links[l].input[0].req) {
      SameFull(cfg, s, l, p);
    }
  }

  /** Taking in never takes a request out. */
  lemma {:induction false} LoadGrows(cfg: Config, s: State, l: nat, used: set<nat>, v: nat)
    requires Inv(s) && l <= |s.links| && v < |s.vaults|
    ensures Load(InTick(cfg, s, l, used).vaults[v]) >= Load(s.vaults[v])
    decreases |s.links| - l
  {
    if l == |s.links| {
    } else if s.links[l].input == [] || s.links[l].input[0].vault in used {
      LoadGrows(cfg, s, l + 1, used, v);
    } else {
      InvSafe(s, XbarIn(l));
      StepKeepsInv(cfg, s, XbarIn(l));
      InLoad(cfg, s, l, v);
      LoadGrows(cfg, CrossesIn(cfg, s, l), l + 1, UsedAfter(s, l, used), v);
    }
  }

  /** A vault that took nothing is as full as before. */
  lemma SameFull(cfg: Config, s: State, l: nat, p: Packet)
    requires Inv(s) && l < |s.links| && s.links[l].input != [] && p.vault < |s.vaults| && Safe(s, XbarIn(l))
    requires s.links[l].input[0].vault != p.vault || QueueFull(s.vaults[p.vault], s.links[l].input[0].req)
    ensures QueueFull(CrossesIn(cfg, s, l).vaults[p.vault], p.req) == QueueFull(s.vaults[p.vault], p.req)
  {
  }

  /** Links before `l` keep their input buffers. */
  lemma {:induction false} InputsBefore(cfg: Config, s: State, l: nat, used: set<nat>, k: nat)
    requires Inv(s) && k < l <= |s.links|
    ensures InTick(cfg, s, l, used).links[k].input == s.links[k].input
    decreases |s.links| - l
  {
    if l == |s.links| {
    } else if s.links[l].input == [] || s.links[l].input[0].vault in used {
      InputsBefore(cfg, s, l + 1, used, k);
    } else {
      InvSafe(s, XbarIn(l));
      StepKeepsInv(cfg, s, XbarIn(l));
      InputsBefore(cfg, CrossesIn(cfg, s, l), l + 1, UsedAfter(s, l, used), k);
    }
  }

  lemma ServedFirst(cfg: Config, s: State, l: nat, used: set<nat>)
    requires Inv(s) && l < |s.links| && s.links[l].input != []
    ensures var p := s.links[l].input[0]; var t := InTick(cfg, s, l, used);
            && Safe(s, XbarIn(l))
            && |t.links[l].input| == |s.links[l].input| -
                 if p.vault in used || QueueFull(s.vaults[p.vault], p.req) then 0 else 1
  {
    InvSafe(s, XbarIn(l));
    if s.links[l].input[0].vault in used {
      InputsBefore(cfg, s, l + 1, used, l);
    } else {
      StepKeepsInv(cfg, s, XbarIn(l));
      InputsBefore(cfg, CrossesIn(cfg, s, l), l + 1, UsedAfter(s, l, used), l);
    }
  }
}
