/**
 One level of the cache: sets of lines in recency order, looked up by tag, and the
 list of outstanding misses. The module gives each list operation its meaning on
 the abstract content `Peek`, a partial map from block numbers to lines.
 */
module CacheSets {
  import opened Basics

  /** Sizes and latencies of one level; `Cache::Cache` asserts that the sizes are powers of two. */
  datatype Geometry = Geometry(block: nat, sets: nat, assoc: nat, mshrs: nat, latency: int, latencyEach: int)
  {
    predicate Valid() {
      1 <= block && 1 <= sets && 1 <= assoc
    }
  }

  datatype Line = Line(addr: int, tag: int, lock: bool, dirty: bool)

  /** The lines of each set by recency, least recent first, and the addresses of the outstanding misses. */
  datatype Cache = Cache(lines: map<int, seq<Line>>, mshrs: seq<int>)

  function Block(g: Geometry, addr: int): (b: int)
    requires g.Valid()
  {
    addr / g.block
  }

  function Index(g: Geometry, addr: int): (i: int)
    requires g.Valid()
  {
    Block(g, addr) % g.sets
  }

  function Tag(g: Geometry, addr: int): (t: int)
    requires g.Valid()
  {
    Block(g, addr) / g.sets
  }

  function Align(g: Geometry, addr: int): (a: int)
    requires g.Valid()
  {
    addr / g.block * g.block
  }

  /** Index and tag together say the same as the aligned address: which block it is. */
  lemma SameBlock(g: Geometry, a: int, b: int)
    requires g.Valid()
    ensures Align(g, a) == Align(g, b) <==> Block(g, a) == Block(g, b)
    ensures Index(g, a) == Index(g, b) && Tag(g, a) == Tag(g, b) <==> Block(g, a) == Block(g, b)
  {
    var p, q := a / g.block, b / g.block;
    if p < q { Scale(p, q, g.block); } else if q < p { Scale(q, p, g.block); }
    if p % g.sets == q % g.sets && p / g.sets == q / g.sets { SameQuotient(p, q, g.sets); }
  }

  lemma Scale(p: int, q: int, m: nat)
    requires 1 <= m && p < q
    ensures p * m < q * m
  {
    assert q * m == p * m + (q - p) * m;
  }

  lemma SameQuotient(p: int, q: int, m: nat)
    requires 1 <= m && p % m == q % m && p / m == q / m
    ensures p == q
  {
    assert p == m * (p / m) + p % m && q == m * (q / m) + q % m;
  }

  // ----- one set -----

  /** The position of the first line with this tag; the length of the list when there is none. */
  function Find(ls: seq<Line>, tag: int): (k: nat)
  {
    if ls == [] then 0 else if ls[0].tag == tag then 0 else 1 + Find(ls[1..], tag)
  }

  lemma {:induction false} FindFirst(ls: seq<Line>, tag: int)
    ensures var k := Find(ls, tag);
            && k <= |ls|
            && (k < |ls| ==> ls[k].tag == tag)
            && forall i :: 0 <= i < k ==> ls[i].tag != tag
  {
    if ls != [] { FindFirst(ls[1..], tag); }
  }

  predicate UniqueTags(ls: seq<Line>) {
    forall i, j :: 0 <= i < j < |ls| ==> ls[i].tag != ls[j].tag
  }

  function Lookup(ls: seq<Line>, tag: int): (r: Option<Line>)
  {
    var k := Find(ls, tag);
    if k < |ls| then Some(ls[k]) else None
  }

  /** With unique tags a line of the set is what its tag looks up. */
  lemma LookupIs(ls: seq<Line>, i: nat)
    requires i < |ls| && UniqueTags(ls)
    ensures Lookup(ls, ls[i].tag) == Some(ls[i]) && Find(ls, ls[i].tag) == i
  {
    FindFirst(ls, ls[i].tag);
  }

  function Erase(ls: seq<Line>, k: nat): (r: seq<Line>)
    requires k < |ls|
    ensures |r| == |ls| - 1
    ensures forall j :: 0 <= j < |r| ==> r[j] == ls[Skip(k, j)]
  {
    ls[..k] + ls[k + 1..]
  }

  /** Where the element at `j` was before the element at `k` was taken out. */
  function Skip(k: nat, j: nat): nat {
    if j < k then j else j + 1
  }

  lemma EraseUnique(ls: seq<Line>, k: nat)
    requires k < |ls| && UniqueTags(ls)
    ensures UniqueTags(Erase(ls, k))
  {
    var r := Erase(ls, k);
    forall i, j | 0 <= i < j < |r| ensures r[i].tag != r[j].tag {
      assert Skip(k, i) < Skip(k, j);
    }
  }

  lemma LookupErase(ls: seq<Line>, k: nat, tag: int)
    requires k < |ls| && UniqueTags(ls)
    ensures UniqueTags(Erase(ls, k))
    ensures Lookup(Erase(ls, k), tag) == if tag == ls[k].tag then None else Lookup(ls, tag)
  {
    EraseUnique(ls, k);
    var r := Erase(ls, k);
    var i := Find(ls, tag);
    FindFirst(ls, tag);
    FindFirst(r, tag);
    if i == k {
      forall j | 0 <= j < |r| ensures r[j].tag != tag { assert r[j] == ls[Skip(k, j)]; }
    } else if i < |ls| {
      var j := if i < k then i else i - 1;
      assert r[j] == ls[i];
      LookupIs(r, j);
    }
  }

  lemma LookupAppend(ls: seq<Line>, l: Line, tag: int)
    requires UniqueTags(ls) && Lookup(ls, l.tag).None?
    ensures UniqueTags(ls + [l])
    ensures Lookup(ls + [l], tag) == if tag == l.tag then Some(l) else Lookup(ls, tag)
  {
    var i := Find(ls, tag);
    FindFirst(ls, tag);
    FindFirst(ls, l.tag);
    FindFirst(ls + [l], tag);
    if i < |ls| { LookupIs(ls + [l], i); } else if tag == l.tag { LookupIs(ls + [l], |ls|); }
  }

  lemma LookupReplace(ls: seq<Line>, k: nat, l: Line, tag: int)
    requires k < |ls| && UniqueTags(ls) && l.tag == ls[k].tag
    ensures UniqueTags(ls[k := l])
    ensures Lookup(ls[k := l], tag) == if tag == l.tag then Some(l) else Lookup(ls, tag)
  {
    var i := Find(ls, tag);
    FindFirst(ls, tag);
    FindFirst(ls[k := l], tag);
    if i < |ls| { LookupIs(ls[k := l], i); }
  }

  // ----- one cache -----

  function Lines(c: Cache, i: int): (ls: seq<Line>) {
    if i in c.lines then c.lines[i] else []
  }

  /** The line that holds a block, if any. */
  function Peek(g: Geometry, c: Cache, b: int): (r: Option<Line>)
    requires g.Valid()
  {
    Lookup(Lines(c, b % g.sets), b / g.sets)
  }

  predicate SetOk(g: Geometry, i: int, ls: seq<Line>)
    requires g.Valid()
  {
    && UniqueTags(ls)
    && |ls| <= g.assoc
    && forall k :: 0 <= k < |ls| ==> Index(g, ls[k].addr) == i && Tag(g, ls[k].addr) == ls[k].tag
  }

  predicate SetsOk(g: Geometry, c: Cache)
    requires g.Valid()
  {
    forall i :: i in c.lines ==> 0 <= i < g.sets && SetOk(g, i, c.lines[i])
  }

  predicate Locked(g: Geometry, c: Cache, b: int)
    requires g.Valid()
  {
    Peek(g, c, b).Some? && Peek(g, c, b).value.lock
  }

  predicate Missing(g: Geometry, c: Cache, b: int)
    requires g.Valid()
  {
    exists m :: m in c.mshrs && Block(g, m) == b
  }

  /**
   Tags are unique per set, no set exceeds the associativity, and the outstanding
   misses are, block for block, the locked lines.
   */
  ghost predicate CacheOk(g: Geometry, c: Cache)
    requires g.Valid()
  {
    && SetsOk(g, c)
    && |c.mshrs| <= g.mshrs
    && (forall i, j :: 0 <= i < j < |c.mshrs| ==> Block(g, c.mshrs[i]) != Block(g, c.mshrs[j]))
    && forall b :: Locked(g, c, b) <==> Missing(g, c, b)
  }

  /** What a block looks up is a line for that block. */
  lemma PeekBlock(g: Geometry, c: Cache, b: int)
    requires g.Valid() && SetsOk(g, c) && Peek(g, c, b).Some?
    ensures Block(g, Peek(g, c, b).value.addr) == b
  {
    var ls := Lines(c, b % g.sets);
    var k := Find(ls, b / g.sets);
    FindFirst(ls, b / g.sets);
    SameQuotient(Block(g, ls[k].addr), b, g.sets);
  }

  /** A line in a set is what its own block looks up. */
  lemma PeekLine(g: Geometry, c: Cache, i: int, k: nat)
    requires g.Valid() && SetsOk(g, c) && k < |Lines(c, i)|
    ensures Peek(g, c, Block(g, Lines(c, i)[k].addr)) == Some(Lines(c, i)[k])
    ensures Block(g, Lines(c, i)[k].addr) % g.sets == i
  {
    LookupIs(Lines(c, i), k);
  }

  /** Replacing one set by another changes the lookups of that set only. */
  lemma PeekOtherSet(g: Geometry, c: Cache, i: int, ls: seq<Line>, b: int)
    requires g.Valid() && b % g.sets != i
    ensures Peek(g, c.(lines := c.lines[i := ls]), b) == Peek(g, c, b)
  {
  }

  // The four ways a set changes, each with its effect on `Peek`.

  predicate Holds(g: Geometry, c: Cache, b: int)
    requires g.Valid()
  {
    Peek(g, c, b).Some?
  }

  /** Drops the line of a block. */
  function Drop(g: Geometry, c: Cache, b: int): (r: Cache)
    requires g.Valid() && Holds(g, c, b)
  {
    var i := b % g.sets;
    c.(lines := c.lines[i := Erase(Lines(c, i), Find(Lines(c, i), b / g.sets))])
  }

  /** Makes the line of a block the most recent one, unlocked, with a new dirty bit. */
  function Touch(g: Geometry, c: Cache, addr: int, dirty: bool): (r: Cache)
    requires g.Valid() && Holds(g, c, Block(g, addr))
  {
    var i := Index(g, addr);
    var ls := Lines(c, i);
    c.(lines := c.lines[i := Erase(ls + [Line(addr, Tag(g, addr), false, dirty)], Find(ls, Tag(g, addr)))])
  }

  /** Appends a line for a block the cache does not hold. */
  function Append(g: Geometry, c: Cache, l: Line): (r: Cache)
    requires g.Valid()
  {
    var i := Index(g, l.addr);
    c.(lines := c.lines[i := Lines(c, i) + [l]])
  }

  /** Overwrites lock and dirty bit of the line of a block, in place. */
  function Mark(g: Geometry, c: Cache, addr: int, lock: bool, dirty: bool): (r: Cache)
    requires g.Valid() && Holds(g, c, Block(g, addr))
  {
    var i := Index(g, addr);
    var k := Find(Lines(c, i), Tag(g, addr));
    c.(lines := c.lines[i := Lines(c, i)[k := Lines(c, i)[k].(lock := lock, dirty := dirty)]])
  }

  /** `r` looks up like `c`, except that block `b` looks up `l`. */
  ghost predicate Differs(g: Geometry, c: Cache, r: Cache, b: int, l: Option<Line>)
    requires g.Valid()
  {
    && SetsOk(g, r)
    && Peek(g, r, b) == l
    && forall x :: x != b ==> Peek(g, r, x) == Peek(g, c, x)
  }

  lemma DropEffect(g: Geometry, c: Cache, b: int)
    requires g.Valid() && SetsOk(g, c) && Holds(g, c, b)
    ensures Differs(g, c, Drop(g, c, b), b, None)
    ensures |Lines(Drop(g, c, b), b % g.sets)| == |Lines(c, b % g.sets)| - 1
  {
    var i := b % g.sets;
    var ls := Lines(c, i);
    var k := Find(ls, b / g.sets);
    var r := Drop(g, c, b);
    FindFirst(ls, b / g.sets);
    forall x ensures Peek(g, r, x) == if x == b then None else Peek(g, c, x) {
      LookupErase(ls, k, x / g.sets);
      if x % g.sets != i { PeekOtherSet(g, c, i, Erase(ls, k), x); }
      else if x / g.sets == b / g.sets { SameQuotient(x, b, g.sets); }
    }
    LookupErase(ls, k, 0);
  }

  lemma TouchEffect(g: Geometry, c: Cache, addr: int, dirty: bool)
    requires g.Valid() && SetsOk(g, c) && Holds(g, c, Block(g, addr))
    ensures Differs(g, c, Touch(g, c, addr, dirty), Block(g, addr), Some(Line(addr, Tag(g, addr), false, dirty)))
    ensures forall i :: |Lines(Touch(g, c, addr, dirty), i)| == |Lines(c, i)|
  {
    var i := Index(g, addr);
    var ls := Lines(c, i);
    var k := Find(ls, Tag(g, addr));
    var l := Line(addr, Tag(g, addr), false, dirty);
    FindFirst(ls, l.tag);
    var out := Erase(ls, k);
    assert Erase(ls + [l], k) == out + [l];
    var r := Touch(g, c, addr, dirty);
    LookupErase(ls, k, l.tag);
    forall x ensures Peek(g, r, x) == if x == Block(g, addr) then Some(l) else Peek(g, c, x) {
      LookupErase(ls, k, x / g.sets);
      LookupAppend(out, l, x / g.sets);
      if x % g.sets != i { PeekOtherSet(g, c, i, out + [l], x); }
      else if x / g.sets == l.tag { SameQuotient(x, Block(g, addr), g.sets); }
    }
    LookupAppend(out, l, 0);
  }

  lemma AppendEffect(g: Geometry, c: Cache, l: Line)
    requires g.Valid() && SetsOk(g, c) && l.tag == Tag(g, l.addr)
    requires !Holds(g, c, Block(g, l.addr)) && |Lines(c, Index(g, l.addr))| < g.assoc
    ensures Differs(g, c, Append(g, c, l), Block(g, l.addr), Some(l))
  {
    var i := Index(g, l.addr);
    var ls := Lines(c, i);
    var r := Append(g, c, l);
    forall x ensures Peek(g, r, x) == if x == Block(g, l.addr) then Some(l) else Peek(g, c, x) {
      LookupAppend(ls, l, x / g.sets);
      if x % g.sets != i { PeekOtherSet(g, c, i, ls + [l], x); }
      else if x / g.sets == l.tag { SameQuotient(x, Block(g, l.addr), g.sets); }
    }
    LookupAppend(ls, l, 0);
  }

  lemma MarkEffect(g: Geometry, c: Cache, addr: int, lock: bool, dirty: bool)
    requires g.Valid() && SetsOk(g, c) && Holds(g, c, Block(g, addr))
    ensures Differs(g, c, Mark(g, c, addr, lock, dirty), Block(g, addr),
                    Some(Peek(g, c, Block(g, addr)).value.(lock := lock, dirty := dirty)))
  {
    var i := Index(g, addr);
    var ls := Lines(c, i);
    var k := Find(ls, Tag(g, addr));
    FindFirst(ls, Tag(g, addr));
    var l := ls[k].(lock := lock, dirty := dirty);
    var r := Mark(g, c, addr, lock, dirty);
    forall x ensures Peek(g, r, x) == if x == Block(g, addr) then Some(l) else Peek(g, c, x) {
      LookupReplace(ls, k, l, x / g.sets);
      if x % g.sets != i { PeekOtherSet(g, c, i, ls[k := l], x); }
      else if x / g.sets == l.tag { SameQuotient(x, Block(g, addr), g.sets); }
    }
    LookupReplace(ls, k, l, 0);
  }
}
