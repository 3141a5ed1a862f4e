/** Random page translation: virtual pages of a core get physical frames on first use. */
module Pages {
  import opened Arith
  import opened Bits

  /** A core and one of its virtual pages. */
  datatype Target = Target(core: int, page: int)

  /** How many frames are free. */
  function Free(s: seq<int>): (n: nat) {
    if s == [] then 0 else Free(s[1..]) + if s[0] == -1 then 1 else 0
  }

  lemma {:induction false} FreeUpdate(s: seq<int>, i: nat, x: int)
    requires i < |s|
    ensures Free(s[i := x]) == Free(s) - (if s[i] == -1 then 1 else 0) + (if x == -1 then 1 else 0)
    decreases |s|
  {
    if i > 0 {
      FreeUpdate(s[1..], i - 1, x);
      assert s[i := x][1..] == s[1..][i - 1 := x];
    } else {
      assert s[i := x][1..] == s[1..];
    }
  }

  lemma {:induction false} FreeIsNone(s: seq<int>)
    ensures Free(s) == 0 <==> forall i :: 0 <= i < |s| ==> s[i] != -1
    decreases |s|
  {
    if s == [] {
    } else {
      FreeIsNone(s[1..]);
      if Free(s) == 0 {
        forall i | 0 <= i < |s| ensures s[i] != -1 {
          assert i > 0 ==> s[i] == s[1..][i - 1];
        }
      } else if s[0] != -1 {
        var i :| 0 <= i < |s[1..]| && s[1..][i] == -1;
        assert s[i + 1] == -1;
      }
    }
  }

  /** Going once round without meeting a free frame means there is none. */
  lemma AllTaken(s: seq<int>, start: nat)
    requires start < |s| && forall k: nat :: k < |s| ==> s[Spot(start, k, |s|)] != -1
    ensures Free(s) == 0
  {
    forall i | 0 <= i < |s| ensures s[i] != -1 {
      var k := if start <= i then i - start else i + |s| - start;
      Wrap(start, k, |s|);
      assert s[Spot(start, k, |s|)] != -1;
    }
    FreeIsNone(s);
  }

  lemma {:induction false} AllFree(s: seq<int>)
    requires forall i :: 0 <= i < |s| ==> s[i] == -1
    ensures Free(s) == |s|
    decreases |s|
  {
    if s == [] {
    } else {
      AllFree(s[1..]);
    }
  }

  /** No two targets share a frame. */
  ghost predicate Distinct(m: map<Target, nat>) {
    forall a, b :: a in m && b in m && a != b ==> m[a] != m[b]
  }

  /** The page of an address, by an arithmetic shift, and its offset, by a mask. */
  function Page(addr: int, bits: nat): (p: int) {
    addr / Pow2(bits)
  }

  function Offset(addr: int, bits: nat): (o: nat) {
    addr % Pow2(bits)
  }

  /** On addresses that are not negative these are the shift and the mask. */
  lemma PageBits(addr: nat, bits: nat)
    ensures Page(addr, bits) == Shr(addr, bits) && Offset(addr, bits) == And(addr, Pow2(bits) - 1)
  {
    ShiftIsQuotient(addr, bits);
    MaskIsLow(addr, bits);
  }

  lemma Whole(addr: int, bits: nat)
    ensures addr == Page(addr, bits) * Pow2(bits) + Offset(addr, bits) && Offset(addr, bits) < Pow2(bits)
  {
  }

  /** The physical address: the frame above, the offset in the page below. */
  function Physical(frame: nat, offset: nat, bits: nat): (p: nat) {
    frame * Pow2(bits) + offset
  }

  /** With distinct frames, different addresses of any cores stay different. */
  lemma TranslationIsInjective(m: map<Target, nat>, c: int, addr: int, d: int, other: int, bits: nat)
    requires Distinct(m) && Target(c, Page(addr, bits)) in m && Target(d, Page(other, bits)) in m
    ensures Physical(m[Target(c, Page(addr, bits))], Offset(addr, bits), bits)
              == Physical(m[Target(d, Page(other, bits))], Offset(other, bits), bits)
            <==> c == d && addr == other
  {
    Whole(addr, bits);
    Whole(other, bits);
    var f, g := m[Target(c, Page(addr, bits))], m[Target(d, Page(other, bits))];
    SamePlace(f, Offset(addr, bits), g, Offset(other, bits), bits);
    SameSum(Page(addr, bits), Offset(addr, bits), Page(other, bits), Offset(other, bits), Pow2(bits));
  }

  lemma SamePlace(f: nat, o: nat, g: nat, q: nat, bits: nat)
    requires o < Pow2(bits) && q < Pow2(bits)
    ensures Physical(f, o, bits) == Physical(g, q, bits) <==> f == g && o == q
  {
    if Physical(f, o, bits) == Physical(g, q, bits) {
      Unique(f, o, g, q, Pow2(bits));
    }
  }

  lemma SameSum(p: int, o: nat, q: int, r: nat, k: nat)
    ensures p == q && o == r ==> p * k + o == q * k + r
  {
  }

  class PageAllocator {
    /** Owner of each frame, `-1` when it is free. */
    const frames: array<int>
    /** Twelve, for pages of 4 KB. */
    const pageBits: nat
    var remaining: nat
    var translation: map<Target, nat>
    /** Set once a frame had to be shared. */
    ghost var shared: bool

    ghost predicate Valid()
      reads this, frames
    {
      && 0 < frames.Length
      && remaining == Free(frames[..])
      && (forall t :: t in translation ==> translation[t] < frames.Length && frames[translation[t]] != -1)
      && (!shared ==> Distinct(translation))
    }

    constructor (pages: nat, pageBits: nat)
      requires 0 < pages
      ensures Valid() && fresh(frames) && frames.Length == pages && remaining == pages && translation == map[] && !shared && this.pageBits == pageBits
    {
      this.pageBits := pageBits;
      frames := new int[pages](_ => -1);
      remaining, translation, shared := pages, map[], false;
      new;
      AllFree(frames[..]);
    }

    /** The search from a random frame on, round the end, for a free one; there is one, so it stops there. */
    method FindFree() returns (frame: nat)
      requires Valid() && remaining > 0
      ensures frame < frames.Length && frames[frame] == -1
    {
      var n := frames.Length;
      var start: nat :| start < n;
      frame := start;
      Wrap(start, 0, n);
      if frames[frame] != -1 {
        ghost var steps := 1;
        frame := (frame + 1) % n;
        while frame != start && frames[frame] != -1
          invariant 1 <= steps <= n && frame == Spot(start, steps, n)
          invariant forall k: nat :: k < steps ==> frames[Spot(start, k, n)] != -1
          decreases n - steps
        {
          Wrap(start, steps, n);
          Wrap(frame, 1, n);
          Wrap(start, steps + 1, n);
          frame := (frame + 1) % n;
          steps := steps + 1;
        }
        Wrap(start, steps, n);
        if steps == n {
          AllTaken(frames[..], start);
        }
      }
    }

    /**
     A target without a frame gets one: a free one while there is any, then any. The free count stays exact
     unless core -1, the mark of a free frame, is given a free one.
     */
    method Assign(t: Target)
      requires Valid() && t !in translation
      modifies this, frames
      ensures Valid() <==> t.core != -1 || old(remaining) == 0
      ensures t in translation && translation == old(translation)[t := translation[t]] && translation[t] < frames.Length
      ensures shared <==> old(shared) || old(remaining) == 0
      ensures old(remaining) == 0 ==> remaining == 0 && frames[..] == old(frames[..])
      ensures old(remaining) > 0 ==> remaining == old(remaining) - 1 && old(frames[..])[translation[t]] == -1
      ensures old(remaining) > 0 ==> frames[..] == old(frames[..])[translation[t] := t.core]
      ensures old(remaining) > 0 && !old(shared) ==> Distinct(translation)
    {
      if remaining == 0 {
        FreeIsNone(frames[..]);
        var frame: nat :| frame < frames.Length;
        assert frames[..][frame] != -1;
        translation := translation[t := frame];
        shared := true;
      } else {
        var frame := FindFree();
        FreeUpdate(frames[..], frame, t.core);
        translation := translation[t := frame];
        frames[frame] := t.core;
        assert frames[..] == old(frames[..])[frame := t.core];
        remaining := remaining - 1;
      }
    }

    /** An address of a core is translated; a page that has a frame keeps it. */
    method Translate(addr: int, core: int) returns (phys: nat)
      requires Valid()
      modifies this, frames
      ensures var t := Target(core, Page(addr, pageBits));
              && t in translation && phys == Physical(translation[t], Offset(addr, pageBits), pageBits)
              && translation == old(translation)[t := translation[t]]
              && (t in old(translation) ==> translation == old(translation) && frames[..] == old(frames[..]) && remaining == old(remaining))
              && (t !in old(translation) && old(remaining) > 0 ==> remaining == old(remaining) - 1)
              && (shared <==> old(shared) || (t !in old(translation) && old(remaining) == 0))
              && (Valid() <==> t in old(translation) || core != -1 || old(remaining) == 0)
    {
      var t := Target(core, Page(addr, pageBits));
      if t !in translation {
        Assign(t);
      }
      PhysicalBits(translation[t], Offset(addr, pageBits), pageBits);
      phys := Or(Offset(addr, pageBits), Shl(translation[t], pageBits));
    }
  }

  lemma PhysicalBits(frame: nat, offset: nat, bits: nat)
    requires offset < Pow2(bits)
    ensures Or(offset, Shl(frame, bits)) == Physical(frame, offset, bits)
  {
    OrIsSum(offset, frame, bits);
    ShlIsProduct(frame, bits);
  }
}
