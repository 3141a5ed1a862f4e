/** Bits of addresses: masks, shifts and the slicing of an address into the parts of an address vector. */
module Bits {
  import opened Arith

  function Shr(a: nat, k: nat): (r: nat)
    decreases k
  {
    if k == 0 then a else Shr(a / 2, k - 1)
  }

  function Shl(a: nat, k: nat): (r: nat)
    decreases k
  {
    if k == 0 then a else Shl(2 * a, k - 1)
  }

  /** The lowest `k` bits. */
  function Low(a: nat, k: nat): (r: nat)
    decreases k
  {
    if k == 0 then 0 else 2 * Low(a / 2, k - 1) + a % 2
  }

  function And(a: nat, b: nat): (r: nat)
    decreases a
  {
    if a == 0 || b == 0 then 0 else 2 * And(a / 2, b / 2) + (a % 2) * (b % 2)
  }

  function Or(a: nat, b: nat): (r: nat)
    decreases a
  {
    if a == 0 then b else 2 * Or(a / 2, b / 2) + if a % 2 == 1 || b % 2 == 1 then 1 else 0
  }

  lemma {:induction false} Recompose(a: nat, k: nat)
    ensures a == Shr(a, k) * Pow2(k) + Low(a, k) && Low(a, k) < Pow2(k)
    decreases k
  {
    if k == 0 {
    } else {
      Recompose(a / 2, k - 1);
      Doubled(Shr(a, k), Pow2(k - 1));
    }
  }

  lemma Doubled(q: nat, m: nat)
    ensures q * (2 * m) == 2 * (q * m)
  {
  }

  /** The shift is the quotient and the low bits are the remainder. */
  lemma CutOff(q: nat, m: nat, k: nat)
    requires m < Pow2(k)
    ensures Shr(q * Pow2(k) + m, k) == q && Low(q * Pow2(k) + m, k) == m
  {
    var a := q * Pow2(k) + m;
    Recompose(a, k);
    Unique(Shr(a, k), Low(a, k), q, m, Pow2(k));
  }

  lemma ShiftIsQuotient(a: nat, k: nat)
    ensures Shr(a, k) == a / Pow2(k) && Low(a, k) == a % Pow2(k)
  {
    Recompose(a, k);
    Remainder(Shr(a, k), Low(a, k), Pow2(k));
  }

  lemma {:induction false} ShlIsProduct(a: nat, k: nat)
    ensures Shl(a, k) == a * Pow2(k)
    decreases k
  {
    if k == 0 {
    } else {
      ShlIsProduct(2 * a, k - 1);
      assert a * Pow2(k) == a * (2 * Pow2(k - 1)) == (2 * a) * Pow2(k - 1);
    }
  }

  /** A mask of `k` ones takes the lowest `k` bits. */
  lemma {:induction false} MaskIsLow(a: nat, k: nat)
    ensures And(a, Pow2(k) - 1) == Low(a, k)
    decreases k
  {
    if k == 0 {
    } else {
      MaskIsLow(a / 2, k - 1);
      assert (Pow2(k) - 1) / 2 == Pow2(k - 1) - 1 && (Pow2(k) - 1) % 2 == 1;
      if a == 0 {
        Recompose(0, k);
        CutOff(0, 0, k);
      }
    }
  }

  lemma {:induction false} ShlDoubles(b: nat, k: nat)
    requires 0 < k
    ensures Shl(b, k) == 2 * Shl(b, k - 1)
    decreases k
  {
    if k > 1 {
      ShlDoubles(2 * b, k - 1);
    }
  }

  /** Parts without a common bit are joined by adding. */
  lemma {:induction false} OrIsSum(a: nat, b: nat, k: nat)
    requires a < Pow2(k)
    ensures Or(a, Shl(b, k)) == a + Shl(b, k)
    decreases k
  {
    if k > 0 && a > 0 {
      ShlDoubles(b, k);
      OrIsSum(a / 2, b, k - 1);
    }
  }

  /** `slice_lower_bits`: the low bits are taken and the rest moves down. */
  method SliceLowerBits(addr: nat, bits: nat) returns (low: nat, rest: nat)
    ensures low == Low(addr, bits) && rest == Shr(addr, bits)
    ensures addr == rest * Pow2(bits) + low && low < Pow2(bits)
  {
    MaskIsLow(addr, bits);
    Recompose(addr, bits);
    low := And(addr, Pow2(bits) - 1);
    rest := Shr(addr, bits);
  }

  // ----- an address as digits of mixed width -----

  function Slices(a: nat, ws: seq<nat>): (vs: seq<nat>)
    ensures |vs| == |ws|
    decreases |ws|
  {
    if ws == [] then [] else [Low(a, ws[0])] + Slices(Shr(a, ws[0]), ws[1..])
  }

  function Join(vs: seq<nat>, ws: seq<nat>): (a: nat)
    requires |vs| == |ws|
  {
    if ws == [] then 0 else Join(vs[1..], ws[1..]) * Pow2(ws[0]) + vs[0]
  }

  function Capacity(ws: seq<nat>): (c: nat) {
    if ws == [] then 1 else Capacity(ws[1..]) * Pow2(ws[0])
  }

  predicate InRange(vs: seq<nat>, ws: seq<nat>) {
    |vs| == |ws| && forall i :: 0 <= i < |ws| ==> vs[i] < Pow2(ws[i])
  }

  lemma Below(q: nat, c: nat, m: nat, k: nat)
    requires m < k
    ensures q < c <==> q * k + m < c * k
  {
    Ordered(q, c, k);
    Ordered(c, q, k);
  }

  lemma {:induction false} SlicesInRange(a: nat, ws: seq<nat>)
    ensures InRange(Slices(a, ws), ws)
    decreases |ws|
  {
    if ws == [] {
    } else {
      SlicesInRange(Shr(a, ws[0]), ws[1..]);
      Recompose(a, ws[0]);
    }
  }

  /** Slicing an address below the capacity and joining gives it back. */
  lemma {:induction false} JoinSlices(a: nat, ws: seq<nat>)
    requires a < Capacity(ws)
    ensures Join(Slices(a, ws), ws) == a
    decreases |ws|
  {
    if ws == [] {
    } else {
      var q, m := Shr(a, ws[0]), Low(a, ws[0]);
      Recompose(a, ws[0]);
      Below(q, Capacity(ws[1..]), m, Pow2(ws[0]));
      JoinSlices(q, ws[1..]);
      assert Slices(a, ws)[1..] == Slices(q, ws[1..]);
    }
  }

  /** Joining parts within their widths stays below the capacity, and slicing gives them back. */
  lemma {:induction false} SlicesJoin(vs: seq<nat>, ws: seq<nat>)
    requires InRange(vs, ws)
    ensures Join(vs, ws) < Capacity(ws) && Slices(Join(vs, ws), ws) == vs
    decreases |ws|
  {
    if ws == [] {
    } else {
      SlicesJoin(vs[1..], ws[1..]);
      var q := Join(vs[1..], ws[1..]);
      Below(q, Capacity(ws[1..]), vs[0], Pow2(ws[0]));
      CutOff(q, vs[0], ws[0]);
      assert vs == [vs[0]] + vs[1..];
    }
  }

  function Sum(ws: seq<nat>): (n: nat) {
    if ws == [] then 0 else ws[0] + Sum(ws[1..])
  }

  lemma {:induction false} SumPush(ws: seq<nat>, w: nat)
    ensures Sum(ws + [w]) == Sum(ws) + w
    decreases |ws|
  {
    if ws == [] {
      assert [w][1..] == [];
    } else {
      SumPush(ws[1..], w);
      assert (ws + [w])[1..] == ws[1..] + [w];
    }
  }

  lemma {:induction false} ShrTwice(a: nat, j: nat, k: nat)
    ensures Shr(Shr(a, j), k) == Shr(a, j + k)
    decreases j
  {
    if j == 0 {
    } else {
      ShrTwice(a / 2, j - 1, k);
    }
  }

  /** The digit of an address above `skip` bits, `width` bits wide. */
  function Digit(a: nat, skip: nat, width: nat): (d: nat) {
    (a / Pow2(skip)) % Pow2(width)
  }

  /** A slice is the digit above the widths cut before it. */
  lemma {:induction false} SliceIsDigit(a: nat, ws: seq<nat>, k: nat)
    requires k < |ws|
    ensures Slices(a, ws)[k] == Digit(a, Sum(ws[..k]), ws[k])
    decreases k
  {
    if k == 0 {
      ShiftIsQuotient(a, ws[0]);
      assert Pow2(0) == 1;
    } else {
      var a' := Shr(a, ws[0]);
      SliceIsDigit(a', ws[1..], k - 1);
      assert ws[..k][1..] == ws[1..][..k - 1];
      var n := Sum(ws[1..][..k - 1]);
      ShrTwice(a, ws[0], n);
      ShiftIsQuotient(a', n);
      ShiftIsQuotient(a, ws[0] + n);
    }
  }
}

/** The orders in which the memories cut an address. */
module Address {
  import opened Arith
  import opened Bits

  /** Each of `n` places is named once. */
  ghost predicate Permutes(order: seq<nat>, n: nat) {
    && |order| == n
    && (forall k :: 0 <= k < n ==> order[k] < n)
    && (forall j, k :: 0 <= j < k < n ==> order[j] != order[k])
    && (forall i :: 0 <= i < n ==> i in order)
  }

  /** The widths, or values, in the order they are cut. */
  function Gather(order: seq<nat>, vs: seq<nat>): (r: seq<nat>)
    requires forall k :: 0 <= k < |order| ==> order[k] < |vs|
  {
    seq(|order|, k requires 0 <= k < |order| => vs[order[k]])
  }

  /** `vec` is the address vector of transaction `a`, cut in the given order. */
  ghost predicate IsVector(a: nat, ws: seq<nat>, order: seq<nat>, vec: seq<nat>)
    requires Permutes(order, |ws|)
  {
    |vec| == |ws| && Gather(order, vec) == Slices(a, Gather(order, ws))
  }

  /** The inverse: the parts put back in the order they were cut. */
  function Index(vec: seq<nat>, ws: seq<nat>, order: seq<nat>): (a: nat)
    requires |vec| == |ws| && forall k :: 0 <= k < |order| ==> order[k] < |ws|
  {
    Join(Gather(order, vec), Gather(order, ws))
  }

  lemma GatheredInRange(vec: seq<nat>, ws: seq<nat>, order: seq<nat>)
    requires Permutes(order, |ws|) && |vec| == |ws|
    ensures InRange(Gather(order, vec), Gather(order, ws)) <==> InRange(vec, ws)
  {
    var gv, gw := Gather(order, vec), Gather(order, ws);
    if InRange(gv, gw) {
      forall i | 0 <= i < |ws| ensures vec[i] < Pow2(ws[i]) {
        assert i in order;
        var k :| 0 <= k < |order| && order[k] == i;
        assert gv[k] < Pow2(gw[k]);
      }
    }
  }

  lemma SameGather(vec: seq<nat>, vec': seq<nat>, order: seq<nat>)
    requires Permutes(order, |vec|) && |vec'| == |vec| && Gather(order, vec) == Gather(order, vec')
    ensures vec == vec'
  {
    forall i | 0 <= i < |vec| ensures vec[i] == vec'[i] {
      assert i in order;
      var k :| 0 <= k < |order| && order[k] == i;
      assert Gather(order, vec)[k] == Gather(order, vec')[k];
    }
  }

  /**
   Cutting in any order is a bijection between the transactions below the capacity and the
   vectors within their widths, and `Index` is its inverse.
   */
  lemma CutIsBijective(a: nat, ws: seq<nat>, order: seq<nat>, vec: seq<nat>)
    requires Permutes(order, |ws|) && |vec| == |ws|
    ensures a < Capacity(Gather(order, ws)) && IsVector(a, ws, order, vec) <==> InRange(vec, ws) && a == Index(vec, ws, order)
  {
    var gv, gw := Gather(order, vec), Gather(order, ws);
    GatheredInRange(vec, ws, order);
    if InRange(vec, ws) {
      SlicesJoin(gv, gw);
    }
    if IsVector(a, ws, order, vec) {
      SlicesInRange(a, gw);
      if a < Capacity(gw) {
        JoinSlices(a, gw);
      }
    }
  }

  lemma VectorUnique(a: nat, ws: seq<nat>, order: seq<nat>, vec: seq<nat>, vec': seq<nat>)
    requires Permutes(order, |ws|) && IsVector(a, ws, order, vec) && IsVector(a, ws, order, vec')
    ensures vec == vec'
  {
    SameGather(vec, vec', order);
  }

  // ----- the generic memory -----

  datatype GenericOrder = ChRaBaRoCo | RoBaRaCoCh

  /** Levels from channel to column; the low bits are cut first. */
  function Order(t: GenericOrder, n: nat): (order: seq<nat>)
    requires 2 <= n
    ensures |order| == n
  {
    match t
    case ChRaBaRoCo => seq(n, k requires 0 <= k < n => n - 1 - k)
    case RoBaRaCoCh => seq(n, k requires 0 <= k < n => if k == 0 then 0 else if k == 1 then n - 1 else k - 1)
  }

  lemma OrderPermutes(t: GenericOrder, n: nat)
    requires 2 <= n
    ensures Permutes(Order(t, n), n)
  {
    var order := Order(t, n);
    forall i | 0 <= i < n ensures i in order {
      match t
      case ChRaBaRoCo => assert order[n - 1 - i] == i;
      case RoBaRaCoCh => assert order[if i == 0 then 0 else if i == n - 1 then 1 else i + 1] == i;
    }
  }

  lemma VectorIsDigits(a: nat, ws: seq<nat>, order: seq<nat>, vec: seq<nat>, k: nat)
    requires Permutes(order, |ws|) && IsVector(a, ws, order, vec) && k < |ws|
    ensures vec[order[k]] == Digit(a, Sum(Gather(order, ws)[..k]), ws[order[k]])
  {
    SliceIsDigit(a, Gather(order, ws), k);
    assert Gather(order, vec)[k] == vec[order[k]];
  }

  lemma {:induction false} FromTheRight(ws: seq<nat>, k: nat)
    requires 2 <= |ws| && k <= |ws|
    ensures Sum(Gather(Order(ChRaBaRoCo, |ws|), ws)[..k]) == Sum(ws[|ws| - k..])
    decreases k
  {
    var gw := Gather(Order(ChRaBaRoCo, |ws|), ws);
    if k == 0 {
      assert gw[..0] == [] && ws[|ws|..] == [];
    } else {
      FromTheRight(ws, k - 1);
      SumPush(gw[..k - 1], gw[k - 1]);
      assert gw[..k] == gw[..k - 1] + [gw[k - 1]];
      assert ws[|ws| - k..][1..] == ws[|ws| - (k - 1)..];
    }
  }

  /** ChRaBaRoCo: each part lies above all the parts of the levels below it. */
  lemma ColumnLowest(a: nat, ws: seq<nat>, vec: seq<nat>, level: nat)
    requires 2 <= |ws| && Permutes(Order(ChRaBaRoCo, |ws|), |ws|) && IsVector(a, ws, Order(ChRaBaRoCo, |ws|), vec)
    requires level < |ws|
    ensures vec[level] == Digit(a, Sum(ws[level + 1..]), ws[level])
  {
    var k := |ws| - 1 - level;
    VectorIsDigits(a, ws, Order(ChRaBaRoCo, |ws|), vec, k);
    FromTheRight(ws, k);
  }

  lemma {:induction false} AfterChannelAndColumn(ws: seq<nat>, k: nat)
    requires 2 <= |ws| && 2 <= k <= |ws|
    ensures Sum(Gather(Order(RoBaRaCoCh, |ws|), ws)[..k]) == ws[0] + ws[|ws| - 1] + Sum(ws[1..k - 1])
    decreases k
  {
    var gw := Gather(Order(RoBaRaCoCh, |ws|), ws);
    if k == 2 {
      assert gw[..2] == [ws[0], ws[|ws| - 1]];
      assert gw[..2][1..] == [ws[|ws| - 1]] && gw[..2][1..][1..] == [];
      assert ws[1..1] == [];
    } else {
      AfterChannelAndColumn(ws, k - 1);
      SumPush(gw[..k - 1], gw[k - 1]);
      assert gw[..k] == gw[..k - 1] + [gw[k - 1]];
      SumPush(ws[1..k - 2], ws[k - 2]);
      assert ws[1..k - 1] == ws[1..k - 2] + [ws[k - 2]];
    }
  }

  /** RoBaRaCoCh: the channel is lowest, the column next, and the levels between follow, the row highest. */
  lemma ChannelLowest(a: nat, ws: seq<nat>, vec: seq<nat>, level: nat)
    requires 2 <= |ws| && Permutes(Order(RoBaRaCoCh, |ws|), |ws|) && IsVector(a, ws, Order(RoBaRaCoCh, |ws|), vec)
    requires level < |ws|
    ensures level == 0 ==> vec[level] == a % Pow2(ws[0])
    ensures level == |ws| - 1 ==> vec[level] == Digit(a, ws[0], ws[level])
    ensures 0 < level < |ws| - 1 ==> vec[level] == Digit(a, ws[0] + ws[|ws| - 1] + Sum(ws[1..level]), ws[level])
  {
    var order := Order(RoBaRaCoCh, |ws|);
    var gw := Gather(order, ws);
    var k := if level == 0 then 0 else if level == |ws| - 1 then 1 else level + 1;
    VectorIsDigits(a, ws, order, vec, k);
    if k == 0 {
      assert Pow2(0) == 1;
    } else if k == 1 {
      assert gw[..1] == [ws[0]] && gw[..1][1..] == [];
    } else {
      AfterChannelAndColumn(ws, k);
    }
  }

  /** The first `k` parts are where they belong. */
  ghost predicate Filled(vec: seq<nat>, order: seq<nat>, parts: seq<nat>, k: nat) {
    k <= |order| == |parts| && forall j :: 0 <= j < k ==> order[j] < |vec| && vec[order[j]] == parts[j]
  }

  lemma FillStep(vec: seq<nat>, order: seq<nat>, parts: seq<nat>, k: nat)
    requires Permutes(order, |vec|) && Filled(vec, order, parts, k) && k < |order|
    ensures Filled(vec[order[k] := parts[k]], order, parts, k + 1)
  {
  }

  /** The cutting loops of `send`: the address shrinks as the vector is filled. */
  method CutGeneric(t: GenericOrder, a: nat, ws: seq<nat>) returns (vec: seq<nat>)
    requires 2 <= |ws|
    ensures Permutes(Order(t, |ws|), |ws|) && IsVector(a, ws, Order(t, |ws|), vec)
  {
    var n := |ws|;
    var order := Order(t, n);
    OrderPermutes(t, n);
    ghost var gw := Gather(order, ws);
    ghost var parts := Slices(a, gw);
    vec := seq(n, _ => 0);
    var addr := a;
    assert parts[0..] == parts && gw[0..] == gw;
    for k := 0 to n
      invariant |vec| == n && parts[k..] == Slices(addr, gw[k..]) && Filled(vec, order, parts, k)
    {
      var low, rest := SliceLowerBits(addr, ws[order[k]]);
      CutStep(a, addr, gw, k);
      FillStep(vec, order, parts, k);
      addr := rest;
      vec := vec[order[k] := low];
    }
    assert Gather(order, vec) == parts;
  }

  lemma CutStep(a: nat, addr: nat, ws: seq<nat>, k: nat)
    requires k < |ws| && Slices(a, ws)[k..] == Slices(addr, ws[k..])
    ensures Slices(a, ws)[k] == Low(addr, ws[k])
    ensures Slices(a, ws)[k + 1..] == Slices(Shr(addr, ws[k]), ws[k + 1..])
  {
    assert ws[k..][0] == ws[k] && ws[k..][1..] == ws[k + 1..];
    var all, tail := Slices(a, ws), Slices(addr, ws[k..]);
    assert tail == [Low(addr, ws[k])] + Slices(Shr(addr, ws[k]), ws[k + 1..]);
    assert all[k] == all[k..][0] == tail[0];
    assert all[k + 1..] == all[k..][1..] == tail[1..];
  }

  // ----- HMC -----

  datatype HmcOrder = RoCoBaVa | RoBaCoVa | RoCoBaBgVa

  /** Widths of the parts; the lowest `low` bits of the column lie below the vault, so that a block stays in one vault. */
  datatype Widths = Widths(vault: nat, group: nat, bank: nat, row: nat, column: nat, low: nat)

  datatype Vector = Vector(vault: nat, group: nat, bank: nat, row: nat, column: nat)

  /** Vault, bank group, bank, row, low column, high column. */
  function Fields(w: Widths): (ws: seq<nat>)
    requires w.low <= w.column
  {
    [w.vault, w.group, w.bank, w.row, w.low, w.column - w.low]
  }

  /** The order in which the fields are cut. */
  function FieldOrder(t: HmcOrder): (order: seq<nat>) {
    match t
    case RoCoBaVa => [4, 0, 2, 1, 5, 3]
    case RoBaCoVa => [4, 0, 5, 2, 1, 3]
    case RoCoBaBgVa => [4, 0, 1, 2, 5, 3]
  }

  lemma FieldOrderPermutes(t: HmcOrder)
    ensures Permutes(FieldOrder(t), 6)
  {
    var o := FieldOrder(t);
    match t
    case RoCoBaVa => assert o[1] == 0 && o[3] == 1 && o[2] == 2 && o[5] == 3 && o[0] == 4 && o[4] == 5;
    case RoBaCoVa => assert o[1] == 0 && o[4] == 1 && o[3] == 2 && o[5] == 3 && o[0] == 4 && o[2] == 5;
    case RoCoBaBgVa => assert o[1] == 0 && o[2] == 1 && o[3] == 2 && o[5] == 3 && o[0] == 4 && o[4] == 5;
  }

  predicate VectorInRange(v: Vector, w: Widths) {
    && v.vault < Pow2(w.vault) && v.group < Pow2(w.group) && v.bank < Pow2(w.bank)
    && v.row < Pow2(w.row) && v.column < Pow2(w.column)
  }

  /** The fields of a vector: its column is split again. */
  function Split(v: Vector, w: Widths): (vs: seq<nat>) {
    [v.vault, v.group, v.bank, v.row, Low(v.column, w.low), Shr(v.column, w.low)]
  }

  /** The transaction of a vector. */
  function HmcIndex(t: HmcOrder, v: Vector, w: Widths): (a: nat)
    requires w.low <= w.column
  {
    Index(Split(v, w), Fields(w), FieldOrder(t))
  }

  function HmcCapacity(t: HmcOrder, w: Widths): (c: nat)
    requires w.low <= w.column
  {
    Capacity(Gather(FieldOrder(t), Fields(w)))
  }

  lemma {:induction false} PowAdds(j: nat, k: nat)
    ensures Pow2(j + k) == Pow2(k) * Pow2(j)
    decreases j
  {
    if j == 0 {
    } else {
      PowAdds(j - 1, k);
      assert Pow2(k) * Pow2(j) == 2 * (Pow2(k) * Pow2(j - 1));
    }
  }

  /** A column is within its width exactly if its high part is. */
  lemma SplitInRange(v: Vector, w: Widths)
    requires w.low <= w.column
    ensures InRange(Split(v, w), Fields(w)) <==> VectorInRange(v, w)
  {
    PowAdds(w.low, w.column - w.low);
    var q, m := Shr(v.column, w.low), Low(v.column, w.low);
    Recompose(v.column, w.low);
    Below(q, Pow2(w.column - w.low), m, Pow2(w.low));
    var vs, ws := Split(v, w), Fields(w);
    assert vs[0] == v.vault && vs[1] == v.group && vs[2] == v.bank && vs[3] == v.row && vs[4] == m && vs[5] == q;
  }

  lemma SplitUnique(v: Vector, v': Vector, w: Widths)
    requires Split(v, w) == Split(v', w)
    ensures v == v'
  {
    var s, s' := Split(v, w), Split(v', w);
    assert s[0] == s'[0] && s[1] == s'[1] && s[2] == s'[2] && s[3] == s'[3] && s[4] == s'[4] && s[5] == s'[5];
    Recompose(v.column, w.low);
    Recompose(v'.column, w.low);
  }

  /** `v` is what cutting transaction `a` gives. */
  ghost predicate IsHmcVector(t: HmcOrder, a: nat, w: Widths, v: Vector)
    requires w.low <= w.column
  {
    FieldOrderPermutes(t);
    IsVector(a, Fields(w), FieldOrder(t), Split(v, w))
  }

  /** Each of the three orders is a bijection, with an inverse that cuts the column in two again. */
  lemma HmcCutIsBijective(t: HmcOrder, a: nat, w: Widths, v: Vector)
    requires w.low <= w.column
    ensures a < HmcCapacity(t, w) && IsHmcVector(t, a, w, v) <==> VectorInRange(v, w) && a == HmcIndex(t, v, w)
  {
    FieldOrderPermutes(t);
    SplitInRange(v, w);
    CutIsBijective(a, Fields(w), FieldOrder(t), Split(v, w));
  }

  lemma HmcVectorUnique(t: HmcOrder, a: nat, w: Widths, v: Vector, v': Vector)
    requires w.low <= w.column && IsHmcVector(t, a, w, v) && IsHmcVector(t, a, w, v')
    ensures v == v'
  {
    FieldOrderPermutes(t);
    VectorUnique(a, Fields(w), FieldOrder(t), Split(v, w), Split(v', w));
    SplitUnique(v, v', w);
  }

  /** Whatever the address, its vault is one of the vaults. */
  lemma VaultInRange(t: HmcOrder, a: nat, w: Widths, v: Vector)
    requires w.low <= w.column && IsHmcVector(t, a, w, v)
    ensures VectorInRange(v, w)
  {
    FieldOrderPermutes(t);
    SlicesInRange(a, Gather(FieldOrder(t), Fields(w)));
    GatheredInRange(Split(v, w), Fields(w), FieldOrder(t));
    SplitInRange(v, w);
  }

  lemma SixDigits(a: nat, ws: seq<nat>)
    requires |ws| == 6
    ensures Slices(a, ws)
            == [a % Pow2(ws[0]), Digit(a, ws[0], ws[1]), Digit(a, ws[0] + ws[1], ws[2]), Digit(a, ws[0] + ws[1] + ws[2], ws[3]),
                Digit(a, ws[0] + ws[1] + ws[2] + ws[3], ws[4]), Digit(a, ws[0] + ws[1] + ws[2] + ws[3] + ws[4], ws[5])]
  {
    forall k | 0 <= k < 6
      ensures Slices(a, ws)[k] == Digit(a, Sum(ws[..k]), ws[k])
      ensures Sum(ws[..k + 1]) == Sum(ws[..k]) + ws[k]
    {
      SliceIsDigit(a, ws, k);
      SumPush(ws[..k], ws[k]);
      assert ws[..k + 1] == ws[..k] + [ws[k]];
    }
    assert Sum(ws[..0]) == 0 && Pow2(0) == 1;
    assert Sum(ws[..1]) == ws[0] && Sum(ws[..2]) == ws[0] + ws[1];
    assert Sum(ws[..3]) == ws[0] + ws[1] + ws[2];
    assert Sum(ws[..4]) == ws[0] + ws[1] + ws[2] + ws[3];
    assert Sum(ws[..5]) == ws[0] + ws[1] + ws[2] + ws[3] + ws[4];
  }

  /** The bits below bank, bank group, high column and row in each order; the low column and the vault are always lowest. */
  datatype Skips = Skips(bank: nat, group: nat, high: nat, row: nat)

  function SkipsOf(t: HmcOrder, w: Widths): (k: Skips)
    requires w.low <= w.column
  {
    var vault, high := w.low + w.vault, w.column - w.low;
    match t
    case RoCoBaVa => Skips(vault, vault + w.bank, vault + w.bank + w.group, vault + w.bank + w.group + high)
    case RoBaCoVa => Skips(vault + high, vault + high + w.bank, vault, vault + high + w.bank + w.group)
    case RoCoBaBgVa => Skips(vault + w.group, vault, vault + w.group + w.bank, vault + w.group + w.bank + high)
  }

  /** Each part as a quotient and a remainder of the address; the column has two of them. */
  predicate HasDigits(a: nat, w: Widths, k: Skips, v: Vector)
    requires w.low <= w.column
  {
    && v.vault == Digit(a, w.low, w.vault)
    && v.group == Digit(a, k.group, w.group)
    && v.bank == Digit(a, k.bank, w.bank)
    && v.row == Digit(a, k.row, w.row)
    && v.column == Digit(a, k.high, w.column - w.low) * Pow2(w.low) + a % Pow2(w.low)
  }

  lemma RoCoBaVaDigits(a: nat, w: Widths, v: Vector)
    requires w.low <= w.column && IsHmcVector(RoCoBaVa, a, w, v)
    ensures HasDigits(a, w, SkipsOf(RoCoBaVa, w), v)
  {
    var low, high, ws := Low(v.column, w.low), Shr(v.column, w.low), [w.low, w.vault, w.bank, w.group, w.column - w.low, w.row];
    assert Gather(FieldOrder(RoCoBaVa), Fields(w)) == ws;
    assert Gather(FieldOrder(RoCoBaVa), Split(v, w)) == [low, v.vault, v.bank, v.group, high, v.row];
    SixDigits(a, ws);
    Recompose(v.column, w.low);
  }

  lemma RoBaCoVaDigits(a: nat, w: Widths, v: Vector)
    requires w.low <= w.column && IsHmcVector(RoBaCoVa, a, w, v)
    ensures HasDigits(a, w, SkipsOf(RoBaCoVa, w), v)
  {
    var low, high, ws := Low(v.column, w.low), Shr(v.column, w.low), [w.low, w.vault, w.column - w.low, w.bank, w.group, w.row];
    assert Gather(FieldOrder(RoBaCoVa), Fields(w)) == ws;
    assert Gather(FieldOrder(RoBaCoVa), Split(v, w)) == [low, v.vault, high, v.bank, v.group, v.row];
    SixDigits(a, ws);
    Recompose(v.column, w.low);
  }

  lemma RoCoBaBgVaDigits(a: nat, w: Widths, v: Vector)
    requires w.low <= w.column && IsHmcVector(RoCoBaBgVa, a, w, v)
    ensures HasDigits(a, w, SkipsOf(RoCoBaBgVa, w), v)
  {
    var low, high, ws := Low(v.column, w.low), Shr(v.column, w.low), [w.low, w.vault, w.group, w.bank, w.column - w.low, w.row];
    assert Gather(FieldOrder(RoCoBaBgVa), Fields(w)) == ws;
    assert Gather(FieldOrder(RoCoBaBgVa), Split(v, w)) == [low, v.vault, v.group, v.bank, high, v.row];
    SixDigits(a, ws);
    Recompose(v.column, w.low);
  }

  /** In each order the parts of an HMC vector are these digits of the address. */
  lemma HmcVectorIsDigits(t: HmcOrder, a: nat, w: Widths, v: Vector)
    requires w.low <= w.column && IsHmcVector(t, a, w, v)
    ensures HasDigits(a, w, SkipsOf(t, w), v)
  {
    match t
    case RoCoBaVa => RoCoBaVaDigits(a, w, v);
    case RoBaCoVa => RoBaCoVaDigits(a, w, v);
    case RoCoBaBgVa => RoCoBaBgVaDigits(a, w, v);
  }

  /** The two parts of a column are put together bit by bit, and can be told apart again. */
  method JoinColumn(low: nat, high: nat, bits: nat) returns (column: nat)
    requires low < Pow2(bits)
    ensures Low(column, bits) == low && Shr(column, bits) == high
  {
    column := Or(low, Shl(high, bits));
    OrIsSum(low, high, bits);
    ShlIsProduct(high, bits);
    CutOff(high, low, bits);
  }

  method CutRoCoBaVa(a: nat, w: Widths) returns (v: Vector)
    requires w.low <= w.column
    ensures IsHmcVector(RoCoBaVa, a, w, v)
  {
    var low, high, vault, group, bank, row;
    var addr := a;
    low, addr := SliceLowerBits(addr, w.low);
    vault, addr := SliceLowerBits(addr, w.vault);
    bank, addr := SliceLowerBits(addr, w.bank);
    group, addr := SliceLowerBits(addr, w.group);
    high, addr := SliceLowerBits(addr, w.column - w.low);
    row, addr := SliceLowerBits(addr, w.row);
    var column := JoinColumn(low, high, w.low);
    v := Vector(vault, group, bank, row, column);
    ghost var ws := [w.low, w.vault, w.bank, w.group, w.column - w.low, w.row];
    assert Gather(FieldOrder(RoCoBaVa), Fields(w)) == ws;
    SixSlices(a, ws);
    assert Gather(FieldOrder(RoCoBaVa), Split(v, w)) == [low, vault, bank, group, high, row];
  }

  method CutRoBaCoVa(a: nat, w: Widths) returns (v: Vector)
    requires w.low <= w.column
    ensures IsHmcVector(RoBaCoVa, a, w, v)
  {
    var low, high, vault, group, bank, row;
    var addr := a;
    low, addr := SliceLowerBits(addr, w.low);
    vault, addr := SliceLowerBits(addr, w.vault);
    high, addr := SliceLowerBits(addr, w.column - w.low);
    bank, addr := SliceLowerBits(addr, w.bank);
    group, addr := SliceLowerBits(addr, w.group);
    row, addr := SliceLowerBits(addr, w.row);
    var column := JoinColumn(low, high, w.low);
    v := Vector(vault, group, bank, row, column);
    ghost var ws := [w.low, w.vault, w.column - w.low, w.bank, w.group, w.row];
    assert Gather(FieldOrder(RoBaCoVa), Fields(w)) == ws;
    SixSlices(a, ws);
    assert Gather(FieldOrder(RoBaCoVa), Split(v, w)) == [low, vault, high, bank, group, row];
  }

  method CutRoCoBaBgVa(a: nat, w: Widths) returns (v: Vector)
    requires w.low <= w.column
    ensures IsHmcVector(RoCoBaBgVa, a, w, v)
  {
    var low, high, vault, group, bank, row;
    var addr := a;
    low, addr := SliceLowerBits(addr, w.low);
    vault, addr := SliceLowerBits(addr, w.vault);
    group, addr := SliceLowerBits(addr, w.group);
    bank, addr := SliceLowerBits(addr, w.bank);
    high, addr := SliceLowerBits(addr, w.column - w.low);
    row, addr := SliceLowerBits(addr, w.row);
    var column := JoinColumn(low, high, w.low);
    v := Vector(vault, group, bank, row, column);
    ghost var ws := [w.low, w.vault, w.group, w.bank, w.column - w.low, w.row];
    assert Gather(FieldOrder(RoCoBaBgVa), Fields(w)) == ws;
    SixSlices(a, ws);
    assert Gather(FieldOrder(RoCoBaBgVa), Split(v, w)) == [low, vault, group, bank, high, row];
  }

  /** The cutting of `send`. */
  method CutHmc(t: HmcOrder, a: nat, w: Widths) returns (v: Vector)
    requires w.low <= w.column
    ensures IsHmcVector(t, a, w, v)
  {
    match t
    case RoCoBaVa => v := CutRoCoBaVa(a, w);
    case RoBaCoVa => v := CutRoBaCoVa(a, w);
    case RoCoBaBgVa => v := CutRoCoBaBgVa(a, w);
  }

  lemma SixSlices(a: nat, ws: seq<nat>)
    requires |ws| == 6
    ensures var a1 := Shr(a, ws[0]); var a2 := Shr(a1, ws[1]); var a3 := Shr(a2, ws[2]);
            var a4 := Shr(a3, ws[3]); var a5 := Shr(a4, ws[4]);
            Slices(a, ws) == [Low(a, ws[0]), Low(a1, ws[1]), Low(a2, ws[2]), Low(a3, ws[3]), Low(a4, ws[4]), Low(a5, ws[5])]
  {
    var a1 := Shr(a, ws[0]);
    var a2 := Shr(a1, ws[1]);
    var a3 := Shr(a2, ws[2]);
    var a4 := Shr(a3, ws[3]);
    assert Slices(a, ws)[0..] == Slices(a, ws) && ws[0..] == ws;
    CutStep(a, a, ws, 0);
    CutStep(a, a1, ws, 1);
    CutStep(a, a2, ws, 2);
    CutStep(a, a3, ws, 3);
    CutStep(a, a4, ws, 4);
    CutStep(a, Shr(a4, ws[4]), ws, 5);
  }
}
