/** The instruction window of a core: a circular buffer that works as a first-in first-out queue. */
module Window {
  import opened Arith

  datatype Entry = Entry(ready: bool, addr: int)

  /** Two addresses lie in one block of `2^bits` bytes, as masking their low bits away compares them. */
  predicate SameBlock(a: int, b: int, bits: nat) {
    a / Pow2(bits) == b / Pow2(bits)
  }

  // ----- the queue -----

  /** The first `n` entries are ready, and no more than that are or may leave. */
  predicate Leave(q: seq<Entry>, limit: nat, n: nat) {
    && n <= |q| && n <= limit
    && (forall i :: 0 <= i < n ==> q[i].ready)
    && (n == limit || n == |q| || !q[n].ready)
  }

  function MarkedEntry(e: Entry, addr: int, bits: nat): (r: Entry) {
    if SameBlock(e.addr, addr, bits) then e.(ready := true) else e
  }

  function Marked(q: seq<Entry>, addr: int, bits: nat): (r: seq<Entry>) {
    seq(|q|, i requires 0 <= i < |q| => MarkedEntry(q[i], addr, bits))
  }

  function Addrs(q: seq<Entry>): (as_: seq<int>) {
    seq(|q|, i requires 0 <= i < |q| => q[i].addr)
  }

  // ----- the places of the buffer -----

  lemma SpotsDiffer(tail: nat, i: nat, j: nat, n: nat)
    requires tail < n && i < j < n
    ensures Spot(tail, i, n) != Spot(tail, j, n)
  {
    Wrap(tail, i, n);
    Wrap(tail, j, n);
  }

  lemma SpotsShift(tail: nat, i: nat, n: nat)
    requires tail < n && i < n
    ensures Spot(Spot(tail, 1, n), i, n) == Spot(tail, i + 1, n)
    ensures Spot(Spot(tail, i, n), 1, n) == Spot(tail, i + 1, n)
  {
    Wrap(tail, 1, n);
    Wrap(tail, i, n);
    Wrap(Spot(tail, 1, n), i, n);
    Wrap(Spot(tail, i, n), 1, n);
    Wrap(tail, i + 1, n);
  }

  /** The live entries, oldest first. */
  function Live(ready: seq<bool>, addrs: seq<int>, tail: nat, load: nat): (q: seq<Entry>)
    requires |ready| == |addrs| > 0
  {
    seq(load, i requires 0 <= i < load => var k := Spot(tail, i, |ready|); Entry(ready[k], addrs[k]))
  }

  lemma LiveInsert(ready: seq<bool>, addrs: seq<int>, tail: nat, load: nat, e: Entry)
    requires |ready| == |addrs| && tail < |ready| && load < |ready|
    ensures var k := Spot(tail, load, |ready|);
            Live(ready[k := e.ready], addrs[k := e.addr], tail, load + 1) == Live(ready, addrs, tail, load) + [e]
  {
    forall i | 0 <= i < load ensures Spot(tail, i, |ready|) != Spot(tail, load, |ready|) {
      SpotsDiffer(tail, i, load, |ready|);
    }
  }

  lemma LiveRetire(ready: seq<bool>, addrs: seq<int>, tail: nat, load: nat)
    requires |ready| == |addrs| && tail < |ready| && 0 < load <= |ready|
    ensures Live(ready, addrs, Spot(tail, 1, |ready|), load - 1) == Live(ready, addrs, tail, load)[1..]
  {
    forall i | 0 <= i < load - 1 ensures Spot(Spot(tail, 1, |ready|), i, |ready|) == Spot(tail, i + 1, |ready|) {
      SpotsShift(tail, i, |ready|);
    }
  }

  /** Setting the place of entry `j` ready sets that entry and no other. */
  lemma LiveReady(ready: seq<bool>, addrs: seq<int>, tail: nat, load: nat, j: nat)
    requires |ready| == |addrs| && tail < |ready| && j < load <= |ready|
    ensures var q := Live(ready, addrs, tail, load);
            Live(ready[Spot(tail, j, |ready|) := true], addrs, tail, load) == q[j := q[j].(ready := true)]
  {
    forall i | 0 <= i < load && i != j ensures Spot(tail, i, |ready|) != Spot(tail, j, |ready|) {
      if i < j {
        SpotsDiffer(tail, i, j, |ready|);
      } else {
        SpotsDiffer(tail, j, i, |ready|);
      }
    }
  }

  class Window {
    const depth: nat
    const ipc: nat
    const ready: array<bool>
    const addrs: array<int>
    var load: nat
    var head: nat
    var tail: nat
    /** Addresses of all instructions ever inserted and retired, in order. */
    ghost var inserted: seq<int>
    ghost var retired: seq<int>

    ghost predicate Valid()
      reads this, ready, addrs
    {
      && 0 < depth == ready.Length == addrs.Length
      && tail < depth && load <= depth && head == Spot(tail, load, depth)
      && inserted == retired + Addrs(Contents())
    }

    ghost function Contents(): (q: seq<Entry>)
      requires 0 < ready.Length == addrs.Length
      reads this, ready, addrs
    {
      Live(ready[..], addrs[..], tail, load)
    }

    constructor (depth: nat, ipc: nat)
      requires 0 < depth
      ensures Valid() && Contents() == [] && this.depth == depth && this.ipc == ipc
      ensures fresh(ready) && fresh(addrs) && inserted == retired == []
    {
      this.depth, this.ipc := depth, ipc;
      ready := new bool[depth](_ => false);
      addrs := new int[depth](_ => -1);
      load, head, tail := 0, 0, 0;
      inserted, retired := [], [];
      new;
      Wrap(0, 0, depth);
    }

    method IsFull() returns (full: bool)
      requires Valid()
      ensures full <==> |Contents()| == depth
    {
      return load == depth;
    }

    /** Appends, exactly if there is room; the assertion inside lets a full window through, which then holds too many. */
    method Insert(isReady: bool, addr: int)
      requires Valid()
      modifies this, ready, addrs
      ensures Valid() <==> old(|Contents()|) < depth
      ensures Valid() ==> Contents() == old(Contents()) + [Entry(isReady, addr)]
      ensures Valid() ==> inserted == old(inserted) + [addr] && retired == old(retired)
      ensures load == old(load) + 1
    {
      assert load <= depth;
      ghost var room := load < depth;
      if room {
        LiveInsert(ready[..], addrs[..], tail, load, Entry(isReady, addr));
        SpotsShift(tail, load, depth);
      }
      ready[head] := isReady;
      addrs[head] := addr;
      assert ready[..] == old(ready[..])[head := isReady];
      assert addrs[..] == old(addrs[..])[head := addr];
      head := (head + 1) % depth;
      load := load + 1;
      inserted := inserted + [addr];
      if room {
        assert Addrs(Contents()) == Addrs(old(Contents())) + [addr];
      }
    }

    method RetireOldest()
      requires Valid() && 0 < load
      modifies this`tail, this`load, this`retired
      ensures Valid() && Contents() == old(Contents())[1..] && retired == old(retired) + [old(Contents())[0].addr]
    {
      ghost var q := Contents();
      LiveRetire(ready[..], addrs[..], tail, load);
      SpotsShift(tail, load - 1, depth);
      tail := (tail + 1) % depth;
      load := load - 1;
      retired := retired + [q[0].addr];
      assert Addrs(q) == [q[0].addr] + Addrs(q[1..]);
    }

    /** The oldest entries leave, in order, as long as they are ready and at most `ipc` of them. */
    method Retire() returns (n: nat)
      requires Valid()
      modifies this`tail, this`load, this`retired
      ensures Valid() && Leave(old(Contents()), ipc, n) && Contents() == old(Contents())[n..]
    {
      ghost var q := Contents();
      n := 0;
      while load > 0 && n < ipc
        invariant Valid() && n <= |q| && n <= ipc && Contents() == q[n..]
        invariant forall i :: 0 <= i < n ==> q[i].ready
        decreases load
      {
        Wrap(tail, 0, depth);
        assert Contents()[0] == q[n] && q[n].ready == ready[tail];
        if !ready[tail] {
          break;
        }
        RetireOldest();
        n := n + 1;
      }
    }

    /** One entry is looked at. */
    method MarkOne(i: nat, addr: int, bits: nat)
      requires Valid() && i < load
      modifies ready
      ensures Valid()
      ensures Contents() == old(Contents())[i := MarkedEntry(old(Contents())[i], addr, bits)]
    {
      var index := (tail + i) % depth;
      ghost var q := Contents();
      assert index == Spot(tail, i, depth);
      if SameBlock(addrs[index], addr, bits) {
        LiveReady(ready[..], addrs[..], tail, load, i);
        ready[index] := true;
        assert ready[..] == old(ready[..])[index := true];
      }
      assert Addrs(Contents()) == Addrs(q);
    }

    /** Exactly the live entries of the block become ready. */
    method SetReady(addr: int, bits: nat)
      requires Valid()
      modifies ready
      ensures Valid() && Contents() == Marked(old(Contents()), addr, bits)
    {
      ghost var q := Contents();
      for i := 0 to load
        invariant Valid()
        invariant forall j :: 0 <= j < load ==> Contents()[j] == if j < i then MarkedEntry(q[j], addr, bits) else q[j]
      {
        MarkOne(i, addr, bits);
      }
    }
  }
}
