/**
 The DRAM tree as an object: nodes with mutable `next` and `prev`, a fixed set of
 children, and the methods that walk and update them in place.
 */
module DramTree {
  import opened Basics
  import opened Timing

  class Dram {
    const spec: Spec
    const level: nat
    const id: int
    const children: seq<Dram>
    ghost const Repr: set<Dram>

    var curClk: int
    var next: seq<int>
    var prev: seq<seq<int>>

    /** The shape of the tree; it never changes after construction. */
    ghost predicate Valid()
      decreases Repr
    {
      && spec.Valid() && level < spec.levels
      && this in Repr
      && |children| == spec.Fanout(level)
      && (forall i :: 0 <= i < |children| ==>
            && children[i].Repr < Repr && this !in children[i].Repr
            && children[i].spec == spec && children[i].level == level + 1 && children[i].id == i
            && children[i].Valid())
      && forall i, j :: 0 <= i < j < |children| ==> children[i].Repr !! children[j].Repr
    }

    /** The tree of timing data the object stands for. */
    ghost function Model(): (t: Tree)
      requires Valid()
      reads Repr
      decreases Repr
    {
      Node(id, next, prev,
           seq(|children|, i requires 0 <= i < |children| reads Repr => children[i].Model()))
    }

    constructor (spec: Spec, level: nat, id: int)
      requires spec.Valid() && level < spec.levels
      ensures Valid() && fresh(Repr)
      ensures this.spec == spec && this.level == level && this.id == id
      ensures Model() == Initial(spec, level, id) && curClk == 0
      decreases spec.levels - level
    {
      var kids: seq<Dram> := [];
      ghost var repr: set<Dram> := {};
      var n := spec.Fanout(level);
      for i := 0 to n
        invariant |kids| == i
        invariant forall k :: 0 <= k < i ==> kids[k].Repr <= repr && kids[k].Valid() && fresh(kids[k].Repr)
        invariant forall k :: 0 <= k < i ==> kids[k].spec == spec && kids[k].level == level + 1 && kids[k].id == k
        invariant forall k :: 0 <= k < i ==> kids[k].Model() == Initial(spec, level + 1, k)
        invariant forall k, m :: 0 <= k < m < i ==> kids[k].Repr !! kids[m].Repr
        invariant fresh(repr)
      {
        var kid := new Dram(spec, level + 1, i);
        kids := kids + [kid];
        repr := repr + kid.Repr;
      }
      this.spec := spec;
      this.level := level;
      this.id := id;
      this.children := kids;
      this.Repr := repr + {this};
      curClk := 0;
      next := seq(spec.cmds, _ => -1);
      prev := seq(spec.cmds, c requires 0 <= c < spec.cmds => seq(Depth(spec.timing[level][c]), _ => -1));
    }

    /** Raises `next` by the entries of `cmd`: those for siblings, or those for the target itself. */
    method RaiseNext(cmd: Command, sibling: bool, recent: seq<int>, clk: int)
      requires spec.Valid() && level < spec.levels && cmd < spec.cmds && |next| == spec.cmds
      requires spec.ValidEntries(spec.timing[level][cmd])
      requires !sibling ==> Depth(spec.timing[level][cmd]) <= |recent|
      modifies this`next
      ensures next == Raise(spec, old(next), spec.timing[level][cmd], sibling, recent, clk)
    {
      var es := spec.timing[level][cmd];
      for k := 0 to |es|
        invariant |next| == spec.cmds
        invariant Depth(es[..k]) <= Depth(es)
        invariant next == Raise(spec, old(next), es[..k], sibling, recent, clk)
      {
        DepthPrefix(es, k + 1);
        assert es[..k + 1][..k] == es[..k];
        if es[k].sibling == sibling {
          var past := if sibling then clk else recent[es[k].dist - 1];
          if sibling || 0 <= past {
            var future := past + es[k].val;
            next := next[es[k].cmd := Max(next[es[k].cmd], future)];
          }
        }
      }
      assert es[..|es|] == es;
    }

    /** `update_timing`: the object tree after the call is the value tree of `Timing.Update`. */
    method UpdateTiming(cmd: Command, addr: seq<int>, clk: int)
      requires Valid() && WellFormed(spec, Model(), level)
      requires cmd < spec.cmds && spec.Addressable(addr)
      modifies Repr
      ensures Model() == Update(spec, old(Model()), level, cmd, addr, clk)
      ensures curClk == old(curClk)
      decreases Repr, 1
    {
      assert spec.ValidLevel(spec.timing[level]) && spec.ValidEntries(spec.timing[level][cmd]);
      ghost var before := Model().children;
      if id != addr[level] {
        RaiseNext(cmd, true, [], clk);
        assert Model().children == before;
      } else {
        var recent := Remember(prev[cmd], clk);
        prev := prev[cmd := recent];
        RaiseNext(cmd, false, recent, clk);
        assert Model().children == before;
        assert forall i :: 0 <= i < |children| ==> children[i].Model() == before[i];
        UpdateChildren(cmd, addr, clk);
      }
    }

    method UpdateChildren(cmd: Command, addr: seq<int>, clk: int)
      requires Valid() && cmd < spec.cmds && spec.Addressable(addr)
      requires forall i :: 0 <= i < |children| ==> WellFormed(spec, children[i].Model(), level + 1)
      modifies Repr - {this}
      ensures forall i :: 0 <= i < |children| ==>
                children[i].Model() == Update(spec, old(children[i].Model()), level + 1, cmd, addr, clk)
      decreases Repr, 0
    {
      for i := 0 to |children|
        invariant forall k :: 0 <= k < i ==> children[k].Model() == Update(spec, old(children[k].Model()), level + 1, cmd, addr, clk)
        invariant forall k :: i <= k < |children| ==> children[k].Model() == old(children[k].Model())
      {
        children[i].UpdateTiming(cmd, addr, clk);
      }
    }

    /** `check`: reads the tree only. */
    method IsReady(cmd: Command, addr: seq<int>, clk: int) returns (ok: bool)
      requires Valid() && WellFormed(spec, Model(), level)
      requires cmd < spec.cmds && spec.Addressable(addr)
      ensures ok == Check(spec, Model(), level, cmd, addr, clk)
      decreases Repr
    {
      if next[cmd] != -1 && clk < next[cmd] {
        return false;
      }
      var childId := addr[level + 1];
      if childId < 0 || level == spec.scope[cmd] || |children| == 0 {
        return true;
      }
      assert children[childId].Model() == Model().children[childId];
      ok := children[childId].IsReady(cmd, addr, clk);
    }

    /**
     `get_next`: the least clock, from the current one on, at which `check` passes. Below the scope of the
     command the walk stops at this node while `check` goes on, so there it depends on the child being ready by then.
     */
    method GetNext(cmd: Command, addr: seq<int>) returns (nextClk: int)
      requires Valid() && WellFormed(spec, Model(), level) && 0 <= curClk
      requires cmd < spec.cmds && spec.Addressable(addr)
      ensures curClk <= nextClk
      ensures forall clk :: curClk <= clk < nextClk ==> !Check(spec, Model(), level, cmd, addr, clk)
      ensures Check(spec, Model(), level, cmd, addr, nextClk)
              <==> level <= spec.scope[cmd] || |children| == 0 || addr[level + 1] < 0
                   || Check(spec, Model().children[addr[level + 1]], level + 1, cmd, addr, Max(curClk, next[cmd]))
    {
      nextClk := Max(curClk, next[cmd]);
      var node := this;
      var l := level;
      while l < spec.scope[cmd] && |node.children| != 0 && 0 <= addr[l + 1]
        invariant level <= l < spec.levels && (l <= spec.scope[cmd] || l == level)
        invariant l == level ==> node == this && nextClk == Max(curClk, next[cmd])
        invariant node.Valid() && node.spec == spec && node.level == l
        invariant WellFormed(spec, node.Model(), l)
        invariant curClk <= nextClk && node.next[cmd] <= nextClk
        invariant forall clk :: curClk <= clk ==>
          (Check(spec, Model(), level, cmd, addr, clk)
           <==> nextClk <= clk && Check(spec, node.Model(), l, cmd, addr, clk))
        decreases spec.scope[cmd] - l
      {
        var child := node.children[addr[l + 1]];
        assert child.Model() == node.Model().children[addr[l + 1]];
        node := child;
        l := l + 1;
        nextClk := Max(nextClk, node.next[cmd]);
      }
    }

    /** `update` without the state part: records the clock and the timing of an issued command. */
    method Issue(cmd: Command, addr: seq<int>, clk: int)
      requires Valid() && WellFormed(spec, Model(), level)
      requires cmd < spec.cmds && spec.Addressable(addr)
      modifies Repr
      ensures Model() == Update(spec, old(Model()), level, cmd, addr, clk)
      ensures curClk == clk
    {
      assert forall k :: 0 <= k < |children| ==> children[k].Model() == Model().children[k];
      curClk := clk;
      assert Model() == old(Model());
      UpdateTiming(cmd, addr, clk);
    }
  }

  lemma {:induction false} DepthPrefix(es: seq<Entry>, k: nat)
    requires k <= |es|
    ensures Depth(es[..k]) <= Depth(es)
    decreases |es|
  {
    if k < |es| {
      assert es[..|es| - 1][..k] == es[..k];
      DepthPrefix(es[..|es| - 1], k);
    } else {
      assert es[..k] == es;
    }
  }
}
