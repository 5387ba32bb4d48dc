/** The comparison kernels of the filter: one element at a time, and by lanes with a bit mask. */
module Simd {
  import opened Sequences

  datatype Op = Eq | Gt | Lt | Ge | Le

  predicate Matches(op: Op, x: int, v: int) {
    match op
    case Eq => x == v
    case Gt => x > v
    case Lt => x < v
    case Ge => x >= v
    case Le => x <= v
  }

  /** The matching indices below n, ascending. */
  function Matching(data: seq<int>, v: int, op: Op, n: nat): (out: seq<nat>)
    requires n <= |data|
  {
    if n == 0 then []
    else Matching(data, v, op, n - 1) + if Matches(op, data[n - 1], v) then [n - 1] else []
  }

  /** Exactly the matching indices, each once, in order. */
  lemma {:induction false} MatchingMeans(data: seq<int>, v: int, op: Op, n: nat)
    requires n <= |data|
    ensures Ascending(Matching(data, v, op, n))
    ensures forall i: nat :: i in Matching(data, v, op, n) <==> i < n && Matches(op, data[i], v)
  {
    if n > 0 {
      MatchingMeans(data, v, op, n - 1);
      var front := Matching(data, v, op, n - 1);
      assert forall i :: 0 <= i < |front| ==> front[i] in front;
    }
  }

  method FilterScalar(data: seq<int>, v: int, op: Op) returns (out: seq<nat>)
    ensures out == Matching(data, v, op, |data|)
  {
    out := [];
    for i := 0 to |data|
      invariant out == Matching(data, v, op, i)
    {
      var hit := match op
        case Eq => data[i] == v
        case Gt => data[i] > v
        case Lt => data[i] < v
        case Ge => data[i] >= v
        case Le => data[i] <= v;
      if hit { out := out + [i]; }
    }
  }

  // ── Masks ──

  /** Bit k of a mask: what shifting down by k and masking with one tests. */
  predicate Bit(m: nat, k: nat) { if k == 0 then m % 2 == 1 else Bit(m / 2, k - 1) }

  function And(a: nat, b: nat): nat {
    if a == 0 || b == 0 then 0 else 2 * And(a / 2, b / 2) + (a % 2) * (b % 2)
  }

  /** The number of trailing zeros. */
  function Ctz(m: nat): nat
    requires m > 0
  {
    if m % 2 == 1 then 0 else 1 + Ctz(m / 2)
  }

  lemma {:induction false} AndSelf(a: nat)
    ensures And(a, a) == a
  {
    if a > 0 { AndSelf(a / 2); }
  }

  lemma {:induction false} NoBits(k: nat)
    ensures !Bit(0, k)
  {
    if k > 0 { NoBits(k - 1); }
  }

  /** The trailing zeros end at the lowest bit. */
  lemma {:induction false} CtzLowest(m: nat, k: nat)
    requires m > 0
    ensures Bit(m, Ctz(m)) && (k < Ctz(m) ==> !Bit(m, k))
  {
    if m % 2 == 0 { CtzLowest(m / 2, if k == 0 then 0 else k - 1); }
  }

  /** Masking with one less clears the lowest bit and nothing else. */
  lemma {:induction false} LowestCleared(m: nat, k: nat)
    requires m > 0
    ensures Bit(And(m, m - 1), k) <==> Bit(m, k) && k != Ctz(m)
  {
    if m % 2 == 1 {
      AndOdd(m);
    } else {
      AndEven(m);
      if k > 0 { LowestCleared(m / 2, k - 1); }
    }
  }

  lemma {:induction false} AndOdd(m: nat)
    requires m % 2 == 1
    ensures And(m, m - 1) == m - 1
    ensures (m - 1) % 2 == 0 && (m - 1) / 2 == m / 2
  {
    if m > 1 { AndSelf(m / 2); }
  }

  lemma {:induction false} AndEven(m: nat)
    requires m > 0 && m % 2 == 0
    ensures And(m, m - 1) == 2 * And(m / 2, m / 2 - 1)
  {
    assert (m - 1) / 2 == m / 2 - 1;
  }

  /** The mask a vector comparison gives: bit k for lane k. */
  function MaskOf(lanes: seq<bool>): nat {
    if lanes == [] then 0 else (if lanes[0] then 1 else 0) + 2 * MaskOf(lanes[1..])
  }

  lemma {:induction false} MaskBit(lanes: seq<bool>, k: nat)
    ensures Bit(MaskOf(lanes), k) <==> k < |lanes| && lanes[k]
  {
    if lanes == [] {
      NoBits(k);
    } else if k > 0 {
      MaskBit(lanes[1..], k - 1);
    }
  }

  // ── Lanes ──

  /** AVX2 compares for equality and greater only; the other orders swap operands or invert. */
  function Lane256(op: Op, x: int, v: int): bool {
    match op
    case Eq => x == v
    case Gt => x > v
    case Lt => v > x
    case Ge => !(v > x)
    case Le => !(x > v)
  }

  function Lanes256(data: seq<int>, i: nat, w: nat, op: Op, v: int): seq<bool>
    requires i + w <= |data|
  {
    seq(w, k requires 0 <= k < w => Lane256(op, data[i + k], v))
  }

  function Lanes512(data: seq<int>, i: nat, w: nat, op: Op, v: int): seq<bool>
    requires i + w <= |data|
  {
    seq(w, k requires 0 <= k < w => Matches(op, data[i + k], v))
  }

  lemma {:induction false} SkipMisses(data: seq<int>, v: int, op: Op, n: nat, m: nat)
    requires n <= m <= |data| && forall k :: n <= k < m ==> !Matches(op, data[k], v)
    ensures Matching(data, v, op, m) == Matching(data, v, op, n)
  {
    if n < m { SkipMisses(data, v, op, n, m - 1); }
  }

  /** Eight lanes of 32 bits or four of 64: every bit of the mask is tested in turn. */
  method FilterAvx2(data: seq<int>, v: int, op: Op, w: nat) returns (out: seq<nat>)
    requires w == 4 || w == 8
    ensures out == Matching(data, v, op, |data|)
  {
    out := [];
    var i := 0;
    while i + w - 1 < |data|
      invariant i <= |data| && out == Matching(data, v, op, i)
    {
      var lanes := Lanes256(data, i, w, op, v);
      var mask := MaskOf(lanes);
      out := TestBits(data, v, op, w, i, mask, out);
      i := i + w;
    }
    out := Tail(data, v, op, i, out);
  }

  method TestBits(data: seq<int>, v: int, op: Op, w: nat, i: nat, mask: nat, start: seq<nat>) returns (out: seq<nat>)
    requires i + w <= |data| && mask == MaskOf(Lanes256(data, i, w, op, v)) && start == Matching(data, v, op, i)
    ensures out == Matching(data, v, op, i + w)
  {
    out := start;
    if mask != 0 {
      for bit := 0 to w
        invariant out == Matching(data, v, op, i + bit)
      {
        Lane256Is(data, v, op, w, i, bit);
        if Bit(mask, bit) { out := out + [i + bit]; }
      }
    } else {
      NoLane256(data, v, op, w, i);
    }
  }

  lemma {:induction false} Lane256Is(data: seq<int>, v: int, op: Op, w: nat, i: nat, k: nat)
    requires i + w <= |data| && k < w
    ensures Bit(MaskOf(Lanes256(data, i, w, op, v)), k) <==> Matches(op, data[i + k], v)
  {
    var lanes := Lanes256(data, i, w, op, v);
    MaskBit(lanes, k);
    assert lanes[k] == Lane256(op, data[i + k], v);
    SameOrder(op, data[i + k], v);
  }

  lemma SameOrder(op: Op, x: int, v: int)
    ensures Lane256(op, x, v) <==> Matches(op, x, v)
  {
  }

  lemma {:induction false} NoLane256(data: seq<int>, v: int, op: Op, w: nat, i: nat)
    requires i + w <= |data| && MaskOf(Lanes256(data, i, w, op, v)) == 0
    ensures Matching(data, v, op, i + w) == Matching(data, v, op, i)
  {
    forall k | i <= k < i + w ensures !Matches(op, data[k], v) {
      Lane256Is(data, v, op, w, i, k - i);
      NoBits(k - i);
    }
    SkipMisses(data, v, op, i, i + w);
  }

  /** The remaining elements, one by one. */
  method Tail(data: seq<int>, v: int, op: Op, from: nat, start: seq<nat>) returns (out: seq<nat>)
    requires from <= |data| && start == Matching(data, v, op, from)
    ensures out == Matching(data, v, op, |data|)
  {
    out := start;
    for i := from to |data|
      invariant out == Matching(data, v, op, i)
    {
      if Matches(op, data[i], v) { out := out + [i]; }
    }
  }

  /** Sixteen lanes of 32 bits or eight of 64: only the set bits are visited, lowest first. */
  method FilterAvx512(data: seq<int>, v: int, op: Op, w: nat) returns (out: seq<nat>)
    requires w == 8 || w == 16
    ensures out == Matching(data, v, op, |data|)
  {
    out := [];
    var i := 0;
    while i + w - 1 < |data|
      invariant i <= |data| && out == Matching(data, v, op, i)
    {
      out := TakeBits(data, v, op, w, i, MaskOf(Lanes512(data, i, w, op, v)), out);
      i := i + w;
    }
    out := Tail(data, v, op, i, out);
  }

  /** The bits of the mask still to visit are the matching lanes from the given one on. */
  ghost predicate Left(data: seq<int>, v: int, op: Op, w: nat, i: nat, mask: nat, from: nat)
    requires i + w <= |data|
  {
    forall k: nat :: Bit(mask, k) <==> from <= k < w && Matches(op, data[i + k], v)
  }

  method TakeBits(data: seq<int>, v: int, op: Op, w: nat, i: nat, all: nat, start: seq<nat>) returns (out: seq<nat>)
    requires i + w <= |data| && all == MaskOf(Lanes512(data, i, w, op, v)) && start == Matching(data, v, op, i)
    ensures out == Matching(data, v, op, i + w)
  {
    out := start;
    var mask := all;
    ghost var from := 0;
    forall k: nat ensures Bit(mask, k) <==> k < w && Matches(op, data[i + k], v) {
      MaskBit(Lanes512(data, i, w, op, v), k);
    }
    while mask != 0
      invariant from <= w && Left(data, v, op, w, i, mask, from)
      invariant out == Matching(data, v, op, i + from)
      decreases w - from
    {
      var bit := Ctz(mask);
      LowestLane(data, v, op, w, i, mask, from);
      out := out + [i + bit];
      from := bit + 1;
      mask := And(mask, mask - 1);
    }
    NoneLeft(data, v, op, w, i, from);
  }

  lemma {:induction false} LowestLane(data: seq<int>, v: int, op: Op, w: nat, i: nat, mask: nat, from: nat)
    requires i + w <= |data| && mask > 0 && from <= w && Left(data, v, op, w, i, mask, from)
    ensures from <= Ctz(mask) < w
    ensures Matching(data, v, op, i + Ctz(mask) + 1) == Matching(data, v, op, i + from) + [i + Ctz(mask)]
    ensures Left(data, v, op, w, i, And(mask, mask - 1), Ctz(mask) + 1)
  {
    var bit := Ctz(mask);
    CtzLowest(mask, 0);
    forall k | i + from <= k < i + bit ensures !Matches(op, data[k], v) { CtzLowest(mask, k - i); }
    SkipMisses(data, v, op, i + from, i + bit);
    var rest := And(mask, mask - 1);
    forall k: nat ensures Bit(rest, k) <==> bit + 1 <= k < w && Matches(op, data[i + k], v) {
      LowestCleared(mask, k);
      CtzLowest(mask, k);
    }
  }

  lemma {:induction false} NoneLeft(data: seq<int>, v: int, op: Op, w: nat, i: nat, from: nat)
    requires i + w <= |data| && from <= w && Left(data, v, op, w, i, 0, from)
    ensures Matching(data, v, op, i + w) == Matching(data, v, op, i + from)
  {
    forall k | i + from <= k < i + w ensures !Matches(op, data[k], v) { NoBits(k - i); }
    SkipMisses(data, v, op, i + from, i + w);
  }
}
