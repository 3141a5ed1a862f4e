/** The controller as the object the simulator ticks, with the counters of its channel. */
module ControllerObjects {
  import opened Controller
  import opened ControllerServing
  import Serving

  method FindWrite(q: seq<Req>, addr: int) returns (found: bool)
    ensures found == WriteTo(q, addr)
  {
    for i := 0 to |q|
      invariant forall j :: 0 <= j < i ==> q[j].addr != addr
    {
      if q[i].addr == addr {
        return true;
      }
    }
    return false;
  }

  /** The nodes on the path are part of the channel. */
  ghost predicate Wired(path: Serving.Path, nodes: set<Serving.Path>, depth: nat) {
    depth <= |path| && forall l :: 0 <= l <= depth ==> path[..l] in nodes
  }

  ghost predicate AllWired(q: seq<Req>, nodes: set<Serving.Path>, depth: nat) {
    forall r :: r in q ==> Wired(r.path, nodes, depth)
  }

  class MemoryController {
    const spec: Spec
    const channel: Serving.ServingTree
    var clk: int
    var next: nat
    var writeMode: bool
    var otherq: nat
    /** The read queue and the reads under way; the write queue and the writes under way. */
    var loads: Lane
    var stores: Lane

    ghost function Model(): (s: State)
      reads this, channel
    {
      State(clk, next, writeMode, otherq, loads, stores, channel.log)
    }

    /** Every request that may still be counted goes to nodes of the channel. */
    ghost predicate Connected()
      reads this, channel
    {
      && channel.Valid()
      && AllWired(loads.queue, channel.nodes.Keys, channel.depth) && AllWired(loads.pending, channel.nodes.Keys, channel.depth)
      && AllWired(stores.queue, channel.nodes.Keys, channel.depth)
    }

    ghost predicate Valid()
      reads this, channel
    {
      Inv(Model()) && LogOk(Model()) && Connected()
    }

    constructor (spec: Spec, channel: Serving.ServingTree)
      requires channel.Valid() && channel.log == []
      ensures Valid() && Model() == RESET && this.spec == spec && this.channel == channel
    {
      this.spec, this.channel := spec, channel;
      clk, next, writeMode, otherq := 0, 0, false, 0;
      loads, stores := Lane([], [], []), Lane([], [], []);
    }

    /** The queues take the request in, or it is answered from a queued write. */
    method Push(write: bool, addr: int, path: Serving.Path)
      requires Connected() && Wired(path, channel.nodes.Keys, channel.depth) && !Full(Model(), write)
      modifies this
      ensures Connected() && Model() == Controller.Enqueue(old(Model()), write, addr, path)
    {
      var r := Req(next, write, addr, path, clk, 0, false);
      next := next + 1;
      if write {
        stores := stores.(queue := stores.queue + [r]);
      } else {
        var found := FindWrite(stores.queue, addr);
        if found {
          loads := loads.(pending := loads.pending + [r.(depart := clk + 1)]);
        } else {
          loads := loads.(queue := loads.queue + [r]);
        }
      }
    }

    method Enqueue(write: bool, addr: int, path: Serving.Path) returns (accepted: bool)
      requires Valid() && Wired(path, channel.nodes.Keys, channel.depth)
      modifies this
      ensures Valid() && Model() == Controller.Enqueue(old(Model()), write, addr, path)
      ensures accepted == !Full(old(Model()), write)
    {
      if |(if write then stores else loads).queue| == QUEUE_MAX {
        return false;
      }
      EnqueueKeepsInv(Model(), write, addr, path);
      EnqueueLog(Model(), write, addr, path);
      Push(write, addr, path);
      return true;
    }

    /** The oldest read under way completes when it is due; one that went to the memory is counted out first. */
    method ReadCallback()
      requires Connected() && Serving.Legal(CompleteLog(loads, clk, channel.log))
      modifies this`loads, channel
      ensures Connected() && loads == Complete(old(loads), clk) && channel.log == CompleteLog(old(loads), clk, old(channel.log))
    {
      if |loads.pending| > 0 {
        var r := loads.pending[0];
        if r.depart <= clk {
          if r.depart - r.arrive > 1 {
            assert r in loads.pending;
            channel.Update(CountOut(r, clk));
          }
          loads := loads.(pending := loads.pending[1..], done := loads.done + [r]);
        }
      }
    }

    method WriteCallback()
      modifies this`stores
      ensures stores == Complete(old(stores), clk)
    {
      if |stores.pending| > 0 {
        var r := stores.pending[0];
        if r.depart <= clk {
          stores := stores.(pending := stores.pending[1..], done := stores.done + [r]);
        }
      }
    }

    /** The switch between reads and writes. */
    method SwitchMode()
      modifies this`writeMode
      ensures writeMode == NextMode(old(writeMode), |loads.queue|, |stores.queue|)
    {
      if !writeMode {
        if |stores.queue| >= HIGH_MARK || |loads.queue| == 0 {
          writeMode := true;
        }
      } else {
        if |stores.queue| <= LOW_MARK && |loads.queue| != 0 {
          writeMode := false;
        }
      }
    }

    /** Completions, refresh requests and the mode, in that order. */
    method Advance(refreshes: nat)
      requires Connected() && Serving.Legal(CompleteLog(loads, clk + 1, channel.log))
      modifies this, channel
      ensures Connected() && Model() == Prepared(old(Model()), refreshes)
    {
      clk := clk + 1;
      ReadCallback();
      WriteCallback();
      assert loads.queue == old(loads.queue) && stores.queue == old(stores.queue);
      otherq := otherq + refreshes;
      SwitchMode();
    }

    /** Everything of a cycle that comes before the scheduler's pick. */
    method BeginTick(refreshes: nat)
      requires Valid()
      modifies this, channel
      ensures Valid() && Model() == Prepared(old(Model()), refreshes)
    {
      PreparedKeepsInv(Model(), refreshes);
      PreparedLog(Model(), refreshes);
      Advance(refreshes);
    }

    /** The request at `index` of a queue is counted in, unless it was. */
    method Mark(l: Lane, index: nat) returns (m: Lane)
      requires channel.Valid() && AllWired(l.queue, channel.nodes.Keys, channel.depth) && index < |l.queue|
      requires Serving.Legal(BegunLog(l, index, clk, channel.log))
      modifies channel
      ensures channel.Valid() && channel.nodes.Keys == old(channel.nodes).Keys
      ensures channel.log == BegunLog(l, index, clk, old(channel.log))
      ensures m == Begun(l, index) && AllWired(m.queue, channel.nodes.Keys, channel.depth)
    {
      var r := l.queue[index];
      assert r in l.queue;
      if !r.started {
        channel.Update(CountIn(r, clk));
      }
      m := l.(queue := l.queue[index := r.(started := true)]);
    }

    /** The first command for the picked request marks it. */
    method StartPick(index: nat)
      requires Connected() && PickFits(Model(), Prepare(index)) && Serving.Legal(Begin(Model(), Prepare(index)).log)
      modifies this`loads, this`stores, channel
      ensures Connected() && Model() == Begin(old(Model()), Prepare(index))
    {
      if otherq > 0 {
        return;
      }
      if !writeMode {
        loads := Mark(loads, index);
      } else {
        stores := Mark(stores, index);
      }
    }

    /** A request leaves its queue with its time of completion. */
    method Leave(l: Lane, index: nat, depart: int) returns (m: Lane)
      requires index < |l.queue|
      ensures m == Finished(l, index, depart)
      ensures forall r :: r in m.queue ==> r in l.queue
    {
      m := l.(queue := l.queue[..index] + l.queue[index + 1..]);
      m := m.(pending := m.pending + [l.queue[index].(depart := depart)]);
    }

    /** The own command of a read: it leaves its queue. */
    method FinishRead(index: nat)
      requires Connected() && Turn(Model()) == Reads && index < |loads.queue|
      modifies this`loads
      ensures Connected() && Model() == End(spec, old(Model()), Finish(index))
    {
      assert loads.queue[index] in loads.queue;
      loads := Leave(loads, index, clk + spec.readLatency);
    }

    /** The own command of a write: it leaves its queue and is counted out. */
    method FinishWrite(index: nat)
      requires Connected() && Turn(Model()) == Writes && index < |stores.queue|
      requires Serving.Legal(channel.log + [CountOut(stores.queue[index], clk)])
      modifies this`stores, channel
      ensures Connected() && Model() == End(spec, old(Model()), Finish(index))
    {
      assert stores.queue[index] in stores.queue;
      channel.Update(CountOut(stores.queue[index], clk));
      stores := Leave(stores, index, clk + spec.writeLatency);
    }

    /** What the pick does; `last` when the issued command is the request's own. */
    method EndTick(found: bool, last: bool, index: nat)
      requires Valid() && (found ==> PickFits(Model(), Prepare(index)))
      modifies this, channel
      ensures var p := if !found then Idle else if last then Finish(index) else Prepare(index);
              PickFits(old(Model()), p) && Model() == Issue(spec, old(Model()), p)
      ensures Valid()
    {
      if !found {
        return;
      }
      ghost var s := Model();
      ghost var u := Begin(s, Prepare(index));
      BeginKeepsAll(spec, s, index);
      StartPick(index);
      if last {
        if otherq > 0 {
          otherq := otherq - 1;
        } else if !writeMode {
          FinishRead(index);
        } else {
          FinishWrite(index);
        }
      }
    }
  }

  lemma BeginKeepsAll(spec: Spec, s: State, index: nat)
    requires Inv(s) && LogOk(s) && PickFits(s, Prepare(index))
    ensures var u := Begin(s, Prepare(index));
            && u == Begin(s, Finish(index)) && PickFits(u, Finish(index)) && PickFits(s, Finish(index))
            && Inv(u) && LogOk(u) && Inv(End(spec, u, Finish(index))) && LogOk(End(spec, u, Finish(index)))
            && (Turn(u) == Writes ==> Serving.Legal(u.log + [CountOut(u.stores.queue[index], u.clk)]))
  {
    var u := Begin(s, Prepare(index));
    assert u == Begin(s, Finish(index));
    IssueKeepsInv(spec, s, Finish(index));
    BeginLog(s, Prepare(index));
    EndLog(spec, u, Finish(index));
  }
}
