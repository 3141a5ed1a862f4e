/**
 What a run of the controller looks like from outside: which requests it takes in, which reads
 it answers without going to the memory, and in which order and when requests complete.
 */
module ControllerHistory {
  import opened Controller
  import Serving

  // ----- what is taken in -----

  /** The queue of the arriving request has room. */
  predicate Room(s: State, write: bool) {
    |if write then s.stores.queue else s.loads.queue| < 32
  }

  /** How many requests of a run found room. */
  ghost function Taken(spec: Spec, s: State, es: seq<Event>): (n: nat)
    requires IsRun(spec, s, es)
    decreases |es|
  {
    if es == [] then 0 else
    (if es[0].Arrive? && Room(s, es[0].write) then 1 else 0) + Taken(spec, Step(spec, s, es[0]), es[1..])
  }

  /** The reads of a run that found room, and in the write queue a write to their address. */
  ghost function Found(spec: Spec, s: State, es: seq<Event>): (ids: set<nat>)
    requires IsRun(spec, s, es)
    decreases |es|
  {
    if es == [] then {} else FoundNow(s, es[0]) + Found(spec, Step(spec, s, es[0]), es[1..])
  }

  ghost function FoundNow(s: State, e: Event): (ids: set<nat>) {
    if e.Arrive? && !e.write && Room(s, false) && exists i :: 0 <= i < |s.stores.queue| && s.stores.queue[i].addr == e.addr
    then {s.next} else {}
  }

  /** A read under way or completed was answered at once if it found a write, and otherwise had a command issued. */
  ghost predicate Answered(rs: seq<Req>, found: set<nat>) {
    forall i :: 0 <= i < |rs| ==> (rs[i].id in found <==> !rs[i].started) && (rs[i].id in found ==> rs[i].depart == rs[i].arrive + 1)
  }

  ghost predicate Tells(s: State, found: set<nat>) {
    && Inv(s)
    && (forall id :: id in found ==> id < s.next)
    && (forall i :: 0 <= i < |s.loads.queue| ==> s.loads.queue[i].id !in found)
    && Answered(s.loads.pending, found) && Answered(s.loads.done, found)
  }

  lemma IdsBelow(s: State, r: Req)
    requires Inv(s) && (r in s.loads.pending || r in s.loads.done)
    ensures r.id < s.next
  {
    if r.id >= s.next {
      assert Places(s, r.id) == 0;
      NotIn(s.loads.pending, r.id);
      NotIn(s.loads.done, r.id);
    }
  }

  lemma ArriveTells(spec: Spec, s: State, e: Event, found: set<nat>)
    requires Tells(s, found) && e.Arrive?
    ensures Tells(Step(spec, s, e), found + FoundNow(s, e))
    ensures Step(spec, s, e).next == s.next + if Room(s, e.write) then 1 else 0
  {
    StepKeepsInv(spec, s, e);
    var t, now := Step(spec, s, e), found + FoundNow(s, e);
    forall i | 0 <= i < |s.loads.pending| ensures s.loads.pending[i].id < s.next {
      IdsBelow(s, s.loads.pending[i]);
    }
    forall i | 0 <= i < |s.loads.done| ensures s.loads.done[i].id < s.next {
      IdsBelow(s, s.loads.done[i]);
    }
    assert Answered(s.loads.pending, now) && Answered(s.loads.done, now);
  }

  lemma PreparedTells(s: State, n: nat, found: set<nat>)
    requires Tells(s, found)
    ensures Tells(Prepared(s, n), found)
  {
    PreparedKeepsInv(s, n);
  }

  lemma IssueTells(spec: Spec, s: State, p: Pick, found: set<nat>)
    requires Tells(s, found) && PickFits(s, p)
    ensures Tells(Issue(spec, s, p), found)
  {
    IssueKeepsInv(spec, s, p);
    var u := Begin(s, p);
    assert Tells(u, found);
    if p.Finish? && Turn(u) == Reads {
      assert u.loads.queue[p.index].started;
    }
  }

  lemma StepTells(spec: Spec, s: State, e: Event, found: set<nat>)
    requires Tells(s, found) && Enabled(s, e)
    ensures Tells(Step(spec, s, e), found + FoundNow(s, e))
    ensures Step(spec, s, e).next == s.next + if e.Arrive? && Room(s, e.write) then 1 else 0
  {
    match e
    case Arrive(_, _, _) => ArriveTells(spec, s, e, found);
    case Cycle(n, p) =>
      PreparedTells(s, n, found);
      IssueTells(spec, Prepared(s, n), p, found);
      assert found + FoundNow(s, e) == found;
  }

  lemma {:induction false} RunTells(spec: Spec, s: State, es: seq<Event>, found: set<nat>)
    requires Tells(s, found) && IsRun(spec, s, es)
    ensures Tells(Run(spec, s, es), found + Found(spec, s, es))
    ensures Run(spec, s, es).next == s.next + Taken(spec, s, es)
    decreases |es|
  {
    if es == [] {
      assert found + {} == found;
    } else {
      var t := Step(spec, s, es[0]);
      StepTells(spec, s, es[0], found);
      RunTells(spec, t, es[1..], found + FoundNow(s, es[0]));
      assert found + Found(spec, s, es) == (found + FoundNow(s, es[0])) + Found(spec, t, es[1..]);
    }
  }

  /**
   After every run from reset as many requests were numbered as found fewer than 32 of their kind queued. A read was
   answered without a command, a clock after its arrival, if and only if it found a queued write to its address.
   */
  lemma AnsweredFromWrites(spec: Spec, es: seq<Event>)
    requires IsRun(spec, RESET, es)
    ensures var s, found := Run(spec, RESET, es), Found(spec, RESET, es);
            && s.next == Taken(spec, RESET, es)
            && (forall r :: r in s.loads.queue ==> r.id !in found)
            && (forall r :: r in s.loads.pending || r in s.loads.done ==>
                  (r.id in found <==> !r.started) && (r.id in found ==> r.depart == r.arrive + 1))
  {
    RunTells(spec, RESET, es, {});
    assert {} + Found(spec, RESET, es) == Found(spec, RESET, es);
  }

  // ----- in which order, and when -----

  /** Requests complete in the order in which they came under way; neither list is ever rearranged. */
  ghost predicate GoesOn(l: Lane, m: Lane) {
    l.done <= m.done && l.done + l.pending <= m.done + m.pending
  }

  lemma CompleteGoesOn(l: Lane, clk: int)
    ensures GoesOn(l, Complete(l, clk))
  {
    if Leaves(l, clk) {
      assert l.done + l.pending == (l.done + [l.pending[0]]) + l.pending[1..];
    }
  }

  lemma StepGoesOn(spec: Spec, s: State, e: Event)
    requires Enabled(s, e)
    ensures GoesOn(s.loads, Step(spec, s, e).loads) && GoesOn(s.stores, Step(spec, s, e).stores)
  {
    if e.Cycle? {
      CompleteGoesOn(s.loads, s.clk + 1);
      CompleteGoesOn(s.stores, s.clk + 1);
    }
  }

  /** Over every run, from any state, reads complete in the order they came under way, and so do writes. */
  lemma {:induction false} RunGoesOn(spec: Spec, s: State, es: seq<Event>)
    requires IsRun(spec, s, es)
    ensures GoesOn(s.loads, Run(spec, s, es).loads) && GoesOn(s.stores, Run(spec, s, es).stores)
    decreases |es|
  {
    if es == [] {
    } else {
      StepGoesOn(spec, s, es[0]);
      RunGoesOn(spec, Step(spec, s, es[0]), es[1..]);
    }
  }

  /** How many requests of a kind complete in the cycle that ends at `clk`. */
  function DueNow(l: Lane, clk: int): (n: nat) {
    if |l.pending| > 0 && l.pending[0].depart <= clk then 1 else 0
  }

  /** In a cycle one request of each kind completes if its time has come, and none otherwise. */
  lemma CycleCompletes(spec: Spec, s: State, refreshes: nat, pick: Pick)
    requires Enabled(s, Cycle(refreshes, pick))
    ensures var t := Step(spec, s, Cycle(refreshes, pick));
            && t.clk == s.clk + 1
            && |t.loads.done| == |s.loads.done| + DueNow(s.loads, s.clk + 1)
            && |t.stores.done| == |s.stores.done| + DueNow(s.stores, s.clk + 1)
  {
  }

  /** The last request of a list left the place `i` of a queue, to complete at `depart`. */
  ghost predicate LeftFor(q: seq<Req>, i: nat, l: Lane, depart: int) {
    && i < |q| && |l.queue| == |q| - 1 && l.pending != []
    && (forall j :: 0 <= j < i ==> l.queue[j] == q[j])
    && (forall j :: i <= j < |l.queue| ==> l.queue[j] == q[j + 1])
    && var r := l.pending[|l.pending| - 1];
       && r.id == q[i].id && r.addr == q[i].addr && r.path == q[i].path && r.arrive == q[i].arrive && r.started
       && r.depart == depart
  }

  /** Requests of the refresh come first; a request whose own command is issued completes a latency later. */
  lemma CycleIssues(spec: Spec, s: State, refreshes: nat, index: nat)
    requires Enabled(s, Cycle(refreshes, Finish(index)))
    ensures var t := Step(spec, s, Cycle(refreshes, Finish(index)));
            if s.otherq + refreshes > 0 then
              t.otherq == s.otherq + refreshes - 1 && t.loads.queue == s.loads.queue && t.stores.queue == s.stores.queue
            else if t.writeMode then
              t.loads.queue == s.loads.queue && LeftFor(s.stores.queue, index, t.stores, s.clk + 1 + spec.writeLatency)
            else
              t.stores.queue == s.stores.queue && LeftFor(s.loads.queue, index, t.loads, s.clk + 1 + spec.readLatency)
  {
    var u := Prepared(s, refreshes);
    var v := Begin(u, Finish(index));
    assert u.loads.queue == s.loads.queue && u.stores.queue == s.stores.queue;
    assert Turn(v) == Turn(u);
    if Turn(u) == Reads {
      assert v.loads.queue[index].started;
    } else if Turn(u) == Writes {
      assert v.stores.queue[index].started;
    }
  }
}
