/** Bits, bytes and the bit-group packing loops that several parts of the
    library share. Keys are lists of 0/1 integers; they are packed into
    integers group by group, either most significant bit first
    (`v = (v << 1) | bit`, in the key-to-bytes conversion and the key export)
    or least significant bit first (`v |= bit << j`, in the lattice byte
    decryption). A final group shorter than the width is packed as it is,
    so its value is right-aligned rather than padded with zeros on the right. */
module Bits {
  import opened Wrappers

  type Bit = b: int | 0 <= b <= 1
  type Byte = b: int | 0 <= b < 256

  /** The digits of Python's lower-case hexadecimal output. */
  const HexDigits := "0123456789abcdef"

  lemma HexDigitsDistinct(i: nat, j: nat)
    requires i < 16 && j < 16 && HexDigits[i] == HexDigits[j]
    ensures i == j
  {
  }

  function Pow2(k: nat): (r: nat)
    ensures r >= 1
  {
    if k == 0 then 1 else 2 * Pow2(k - 1)
  }

  /** Bit `i` of the non-negative integer `x`: Python's `(x >> i) & 1`. */
  function BitOf(x: nat, i: nat): Bit {
    (x / Pow2(i)) % 2
  }

  /** Python's `a | b` on non-negative integers, bit by bit from the bottom. */
  function BitOr(a: nat, b: nat): nat
    decreases a + b
  {
    if a == 0 && b == 0 then 0
    else 2 * BitOr(a / 2, b / 2) + (if a % 2 == 1 || b % 2 == 1 then 1 else 0)
  }

  lemma {:induction false} BitOrZero(a: nat)
    ensures BitOr(a, 0) == a
    decreases a
  {
    if a != 0 {
      BitOrZero(a / 2);
    }
  }

  /** `(v << 1) | bit` places `bit` below the bits of `v`. */
  lemma BitOrShiftIn(v: nat, bit: Bit)
    ensures BitOr(2 * v, bit) == 2 * v + bit
  {
    if v != 0 || bit != 0 {
      assert (2 * v) / 2 == v && bit / 2 == 0 && (2 * v) % 2 == 0;
      BitOrZero(v);
    }
  }

  /** `v | (bit << j)` adds `bit * 2^j` when `v` has no bit at position `j` or above. */
  lemma {:induction false} BitOrHighBit(v: nat, bit: Bit, j: nat)
    requires v < Pow2(j)
    ensures BitOr(v, bit * Pow2(j)) == v + bit * Pow2(j)
    decreases j
  {
    if j == 0 {
      assert v == 0;
    } else if v != 0 || bit != 0 {
      var high := bit * Pow2(j);
      assert high == 2 * (bit * Pow2(j - 1));
      assert high / 2 == bit * Pow2(j - 1) && high % 2 == 0;
      BitOrHighBit(v / 2, bit, j - 1);
      assert BitOr(v, high) == 2 * BitOr(v / 2, high / 2) + v % 2;
    }
  }

  lemma Pow2Eight()
    ensures Pow2(8) == 256
  {
  }

  /** Group values below 256 as bytes. */
  function AsBytes(groups: seq<nat>): (bytes: seq<Byte>)
    requires forall k :: 0 <= k < |groups| ==> groups[k] < 256
    ensures |bytes| == |groups|
    ensures forall k :: 0 <= k < |bytes| ==> bytes[k] == groups[k]
  {
    seq(|groups|, k requires 0 <= k < |groups| => groups[k] as Byte)
  }

  // ---------------------------------------------------------------------
  // Values of bit groups

  /** Value of a group read most significant bit first: what the loop
      `v = (v << 1) | bit` leaves in `v` after running over the group. */
  function MsbValue(s: seq<Bit>): nat {
    if s == [] then 0 else 2 * MsbValue(s[..|s| - 1]) + s[|s| - 1]
  }

  /** The same value written positionally: bit `j` of an `n`-bit group
      weighs `2^(n-1-j)`, i.e. the sum of `s[j] << (n-1-j)`. */
  function MsbWeighted(s: seq<Bit>): nat {
    if s == [] then 0 else s[0] * Pow2(|s| - 1) + MsbWeighted(s[1..])
  }

  lemma {:induction false} MsbWeightedAppend(s: seq<Bit>, b: Bit)
    ensures MsbWeighted(s + [b]) == 2 * MsbWeighted(s) + b
    decreases |s|
  {
    if s == [] {
      assert s + [b] == [b];
    } else {
      assert (s + [b])[1..] == s[1..] + [b];
      MsbWeightedAppend(s[1..], b);
      assert Pow2(|s|) == 2 * Pow2(|s| - 1);
    }
  }

  /** The shift-and-or loop computes the positional sum. */
  lemma {:induction false} MsbValueIsWeighted(s: seq<Bit>)
    ensures MsbValue(s) == MsbWeighted(s)
    decreases |s|
  {
    if s != [] {
      var init := s[..|s| - 1];
      MsbValueIsWeighted(init);
      MsbWeightedAppend(init, s[|s| - 1]);
      assert init + [s[|s| - 1]] == s;
    }
  }

  lemma {:induction false} MsbValueBound(s: seq<Bit>)
    ensures MsbValue(s) < Pow2(|s|)
    decreases |s|
  {
    if s != [] {
      MsbValueBound(s[..|s| - 1]);
    }
  }

  /** Value of a group read least significant bit first: what the loop
      `v |= bit << j` leaves in `v` after running over the group. */
  function LsbValue(s: seq<Bit>): nat {
    if s == [] then 0 else s[0] + 2 * LsbValue(s[1..])
  }

  lemma {:induction false} LsbValueAppend(s: seq<Bit>, b: Bit)
    ensures LsbValue(s + [b]) == LsbValue(s) + b * Pow2(|s|)
    decreases |s|
  {
    if s == [] {
      assert s + [b] == [b];
      assert [b][1..] == [];
    } else {
      assert (s + [b])[1..] == s[1..] + [b];
      LsbValueAppend(s[1..], b);
      assert Pow2(|s|) == 2 * Pow2(|s| - 1);
    }
  }

  lemma {:induction false} LsbValueBound(s: seq<Bit>)
    ensures LsbValue(s) < Pow2(|s|)
    decreases |s|
  {
    if s != [] {
      LsbValueBound(s[1..]);
    }
  }

  /** The `w` low bits of `x`, least significant first: `[(x >> i) & 1 for i in range(w)]`. */
  function LsbBits(x: nat, w: nat): (bits: seq<Bit>)
    ensures |bits| == w
  {
    if w == 0 then [] else [x % 2] + LsbBits(x / 2, w - 1)
  }

  lemma {:induction false} DivPow2Step(x: nat, i: nat)
    ensures (x / 2) / Pow2(i) == x / Pow2(i + 1)
  {
    var p := Pow2(i);
    assert Pow2(i + 1) == 2 * p;
    var q, r := (x / 2) / p, (x / 2) % p;
    assert x / 2 == q * p + r && 0 <= r < p;
    assert x == 2 * (x / 2) + x % 2;
    assert x == q * (2 * p) + (2 * r + x % 2);
    assert 0 <= 2 * r + x % 2 < 2 * p;
    DivUnique(x, 2 * p, q, 2 * r + x % 2);
  }

  lemma {:induction false} MulMonotone(a: int, b: int, d: nat)
    requires a <= b
    ensures a * d <= b * d
    decreases d
  {
    if d > 0 {
      MulMonotone(a, b, d - 1);
      assert a * d == a * (d - 1) + a && b * d == b * (d - 1) + b;
    }
  }

  /** Euclidean division has one quotient. */
  lemma DivUnique(x: int, d: int, q: int, r: int)
    requires d > 0 && x == q * d + r && 0 <= r < d
    ensures x / d == q && x % d == r
  {
    var q', r' := x / d, x % d;
    assert x == q' * d + r' && 0 <= r' < d;
    if q' < q {
      assert false by { MulMonotone(q' + 1, q, d); }
    } else if q' > q {
      assert false by { MulMonotone(q + 1, q', d); }
    }
  }

  lemma {:induction false} LsbBitsAt(x: nat, w: nat, i: nat)
    requires i < w
    ensures LsbBits(x, w)[i] == BitOf(x, i)
    decreases i
  {
    if i > 0 {
      LsbBitsAt(x / 2, w - 1, i - 1);
      DivPow2Step(x, i - 1);
    }
  }

  /** Expanding `x` into its `w` low bits and packing them LSB-first gives `x` back. */
  lemma {:induction false} LsbBitsValue(x: nat, w: nat)
    requires x < Pow2(w)
    ensures LsbValue(LsbBits(x, w)) == x
    decreases w
  {
    if w == 0 {
      assert x == 0;
    } else {
      LsbBitsValue(x / 2, w - 1);
    }
  }

  /** One step of the loop `v = (v << 1) | bit` over the bits `s[lo..hi]`. */
  lemma MsbShiftIn(s: seq<Bit>, lo: nat, hi: nat)
    requires lo <= hi < |s|
    ensures BitOr(2 * MsbValue(s[lo..hi]), s[hi]) == MsbValue(s[lo..hi + 1])
    ensures MsbValue(s[lo..hi + 1]) < Pow2(hi + 1 - lo)
  {
    BitOrShiftIn(MsbValue(s[lo..hi]), s[hi]);
    assert s[lo..hi + 1] == s[lo..hi] + [s[hi]];
    MsbValueBound(s[lo..hi + 1]);
  }

  // ---------------------------------------------------------------------
  // Packing a bit list group by group

  /** Number of groups of width `w` a list of `n` bits falls into: ceil(n / w). */
  function GroupCount(n: nat, w: nat): nat
    requires w > 0
  {
    (n + w - 1) / w
  }

  /** MSB-first packing of `s` into groups of `w` bits, as Python's
      `for i in range(0, len(s), w)` with the inner `if i + j < len(s)` guard:
      a short last group keeps its value, it is not shifted left. */
  function PackMsb(s: seq<Bit>, w: nat): seq<nat>
    requires w > 0
    decreases |s|
  {
    if s == [] then []
    else
      var c := Min(w, |s|);
      [MsbValue(s[..c])] + PackMsb(s[c..], w)
  }

  /** LSB-first packing of `s` into groups of `w` bits. */
  function PackLsb(s: seq<Bit>, w: nat): seq<nat>
    requires w > 0
    decreases |s|
  {
    if s == [] then []
    else
      var c := Min(w, |s|);
      [LsbValue(s[..c])] + PackLsb(s[c..], w)
  }

  /** Every packed group fits in `w` bits. */
  lemma {:induction false} PackBound(s: seq<Bit>, w: nat)
    requires w > 0
    ensures forall k :: 0 <= k < |PackMsb(s, w)| ==> PackMsb(s, w)[k] < Pow2(w)
    ensures forall k :: 0 <= k < |PackLsb(s, w)| ==> PackLsb(s, w)[k] < Pow2(w)
    decreases |s|
  {
    if s != [] {
      var c := Min(w, |s|);
      MsbValueBound(s[..c]);
      LsbValueBound(s[..c]);
      Pow2Monotone(c, w);
      PackBound(s[c..], w);
    }
  }

  lemma {:induction false} Pow2Monotone(a: nat, b: nat)
    requires a <= b
    ensures Pow2(a) <= Pow2(b)
    decreases b
  {
    if a < b {
      Pow2Monotone(a, b - 1);
    }
  }

  lemma DivStep(n: nat, w: nat)
    requires w > 0 && n > w
    ensures (n + w - 1) / w == 1 + (n - w + w - 1) / w
  {
    var x := n - w + w - 1;
    DivUnique(x + w, w, x / w + 1, x % w);
  }

  /** Both packings produce ceil(n / w) groups. */
  lemma {:induction false} PackCount(s: seq<Bit>, w: nat)
    requires w > 0
    ensures |PackMsb(s, w)| == GroupCount(|s|, w)
    ensures |PackLsb(s, w)| == GroupCount(|s|, w)
    decreases |s|
  {
    if s == [] {
      assert (w - 1) / w == 0 by { DivUnique(w - 1, w, 0, w - 1); }
    } else if |s| <= w {
      assert s[Min(w, |s|)..] == [];
      DivUnique(|s| + w - 1, w, 1, |s| - 1);
    } else {
      PackCount(s[w..], w);
      DivStep(|s|, w);
    }
  }

  /** Packing from position `i` on emits the group starting at `i` first. */
  lemma PackMsbFrom(s: seq<Bit>, w: nat, i: nat)
    requires w > 0 && i < |s|
    ensures PackMsb(s[i..], w) == [MsbValue(s[i..Min(i + w, |s|)])] + PackMsb(s[Min(i + w, |s|)..], w)
  {
    assert s[i..][..Min(w, |s| - i)] == s[i..Min(i + w, |s|)];
    assert s[i..][Min(w, |s| - i)..] == s[Min(i + w, |s|)..];
  }

  lemma PackMsbStep(bits: seq<Bit>, w: nat, i: nat, done: seq<nat>)
    requires w > 0 && i < |bits|
    requires done + PackMsb(bits[i..], w) == PackMsb(bits, w)
    ensures (done + [MsbValue(bits[i..Min(i + w, |bits|)])]) + PackMsb(bits[Min(i + w, |bits|)..], w)
            == PackMsb(bits, w)
  {
    PackMsbFrom(bits, w, i);
    var v := MsbValue(bits[i..Min(i + w, |bits|)]);
    var rest := PackMsb(bits[Min(i + w, |bits|)..], w);
    assert done + ([v] + rest) == (done + [v]) + rest;
  }

  /** The inner loop of the packers:
      `v = 0; for j in range(w): if i + j < len(bits): v = (v << 1) | bits[i + j]`. */
  method ShiftInGroup(bits: seq<Bit>, i: nat, w: nat) returns (v: nat)
    requires i < |bits|
    ensures v == MsbValue(bits[i..Min(i + w, |bits|)])
    ensures v < Pow2(w)
  {
    v := 0;
    var j := 0;
    while j < w
      invariant 0 <= j <= w
      invariant v == MsbValue(bits[i..Min(i + j, |bits|)])
      invariant v < Pow2(j)
    {
      if i + j < |bits| {
        MsbShiftIn(bits, i, i + j);
        v := BitOr(2 * v, bits[i + j]);
      }
      j := j + 1;
    }
  }

  /** The outer loop of the packers: `for i in range(0, len(bits), w)`,
      appending the value of each group. */
  method PackGroupsMsb(bits: seq<Bit>, w: nat) returns (groups: seq<nat>)
    requires w > 0
    ensures |groups| == GroupCount(|bits|, w)
    ensures forall k :: 0 <= k < |groups| ==> groups[k] < Pow2(w)
    ensures groups == PackMsb(bits, w)
  {
    groups := [];
    var i := 0;
    while i < |bits|
      invariant 0 <= i
      invariant groups + PackMsb(bits[Min(i, |bits|)..], w) == PackMsb(bits, w)
      decreases |bits| - i
    {
      var v := ShiftInGroup(bits, i, w);
      PackMsbStep(bits, w, i, groups);
      groups := groups + [v];
      i := i + w;
    }
    assert bits[Min(i, |bits|)..] == [];
    assert groups == PackMsb(bits, w);
    PackCount(bits, w);
    PackBound(bits, w);
  }

  lemma PackLsbFrom(s: seq<Bit>, w: nat, i: nat)
    requires w > 0 && i < |s|
    ensures PackLsb(s[i..], w) == [LsbValue(s[i..Min(i + w, |s|)])] + PackLsb(s[Min(i + w, |s|)..], w)
  {
    assert s[i..][..Min(w, |s| - i)] == s[i..Min(i + w, |s|)];
    assert s[i..][Min(w, |s| - i)..] == s[Min(i + w, |s|)..];
  }

  lemma PackLsbStep(bits: seq<Bit>, w: nat, i: nat, done: seq<nat>)
    requires w > 0 && i < |bits|
    requires done + PackLsb(bits[i..], w) == PackLsb(bits, w)
    ensures (done + [LsbValue(bits[i..Min(i + w, |bits|)])]) + PackLsb(bits[Min(i + w, |bits|)..], w)
            == PackLsb(bits, w)
  {
    PackLsbFrom(bits, w, i);
    var v := LsbValue(bits[i..Min(i + w, |bits|)]);
    var rest := PackLsb(bits[Min(i + w, |bits|)..], w);
    assert done + ([v] + rest) == (done + [v]) + rest;
  }

  /** One step of the loop `v |= bit << j` over the bits `s[lo..hi]`. */
  lemma OrInStep(s: seq<Bit>, lo: nat, hi: nat)
    requires lo <= hi < |s|
    ensures BitOr(LsbValue(s[lo..hi]), s[hi] * Pow2(hi - lo)) == LsbValue(s[lo..hi + 1])
    ensures LsbValue(s[lo..hi + 1]) < Pow2(hi + 1 - lo)
  {
    LsbValueBound(s[lo..hi]);
    BitOrHighBit(LsbValue(s[lo..hi]), s[hi], hi - lo);
    assert s[lo..hi + 1] == s[lo..hi] + [s[hi]];
    LsbValueAppend(s[lo..hi], s[hi]);
    LsbValueBound(s[lo..hi + 1]);
  }

  /** The inner loop of the LSB-first packer:
      `v = 0; for j in range(w): if i + j < len(bits): v |= bits[i + j] << j`. */
  method OrInGroup(bits: seq<Bit>, i: nat, w: nat) returns (v: nat)
    requires i < |bits|
    ensures v == LsbValue(bits[i..Min(i + w, |bits|)])
    ensures v < Pow2(w)
  {
    v := 0;
    var j := 0;
    while j < w
      invariant 0 <= j <= w
      invariant v == LsbValue(bits[i..Min(i + j, |bits|)])
      invariant v < Pow2(j)
    {
      if i + j < |bits| {
        OrInStep(bits, i, i + j);
        v := BitOr(v, bits[i + j] * Pow2(j));
      }
      j := j + 1;
    }
  }

  /** The outer loop of the LSB-first packer: `for i in range(0, len(bits), w)`,
      appending the value of each group. */
  method PackGroupsLsb(bits: seq<Bit>, w: nat) returns (groups: seq<nat>)
    requires w > 0
    ensures |groups| == GroupCount(|bits|, w)
    ensures forall k :: 0 <= k < |groups| ==> groups[k] < Pow2(w)
    ensures groups == PackLsb(bits, w)
  {
    groups := [];
    var i := 0;
    while i < |bits|
      invariant 0 <= i
      invariant groups + PackLsb(bits[Min(i, |bits|)..], w) == PackLsb(bits, w)
      decreases |bits| - i
    {
      var v := OrInGroup(bits, i, w);
      PackLsbStep(bits, w, i, groups);
      groups := groups + [v];
      i := i + w;
    }
    assert bits[Min(i, |bits|)..] == [];
    assert groups == PackLsb(bits, w);
    PackCount(bits, w);
    PackBound(bits, w);
  }

  /** Group `k` exists exactly when it starts inside the list. */
  lemma GroupIndex(n: nat, w: nat, k: nat)
    requires w > 0
    ensures k * w < n <==> k < GroupCount(n, w)
  {
    var g := GroupCount(n, w);
    assert n + w - 1 == g * w + (n + w - 1) % w;
    if k * w < n {
      if k >= g {
        assert false by { MulMonotone(g + 1, k + 1, w); }
      }
    } else if k < g {
      assert false by { MulMonotone(k + 1, g, w); }
    }
  }

  lemma ShiftedGroup(s: seq<Bit>, w: nat, before: nat)
    requires w + before < |s|
    ensures s[w..][before .. Min(before + w, |s| - w)] == s[w + before .. Min(w + before + w, |s|)]
  {
  }

  /** The first bit of group `k`: `k * w`, written as a repeated sum. */
  function GroupStart(k: nat, w: nat): nat {
    if k == 0 then 0 else GroupStart(k - 1, w) + w
  }

  lemma {:induction false} GroupStartIsProduct(k: nat, w: nat)
    ensures GroupStart(k, w) == k * w
  {
    if k > 0 {
      GroupStartIsProduct(k - 1, w);
    }
  }

  /** Group `k` of `s` cut into groups of `w` bits. */
  function Group(s: seq<Bit>, w: nat, k: nat): seq<Bit>
    requires w > 0 && GroupStart(k, w) < |s|
    decreases k
  {
    if k == 0 then s[..Min(w, |s|)] else Group(s[w..], w, k - 1)
  }

  /** Group `k` is the slice `s[k*w .. min(k*w + w, n)]`. */
  lemma {:induction false} GroupIsSlice(s: seq<Bit>, w: nat, k: nat)
    requires w > 0 && GroupStart(k, w) < |s|
    ensures Group(s, w, k) == s[GroupStart(k, w) .. Min(GroupStart(k, w) + w, |s|)]
    decreases k
  {
    if k > 0 {
      var before := GroupStart(k - 1, w);
      GroupIsSlice(s[w..], w, k - 1);
      ShiftedGroup(s, w, before);
    }
  }

  lemma PackMsbHead(s: seq<Bit>, w: nat)
    requires w > 0 && s != []
    ensures var c := Min(w, |s|);
            |PackMsb(s, w)| == 1 + |PackMsb(s[c..], w)|
            && PackMsb(s, w)[0] == MsbValue(s[..c])
            && forall k :: 1 <= k < |PackMsb(s, w)| ==> PackMsb(s, w)[k] == PackMsb(s[c..], w)[k - 1]
  {
  }

  lemma PackLsbHead(s: seq<Bit>, w: nat)
    requires w > 0 && s != []
    ensures var c := Min(w, |s|);
            |PackLsb(s, w)| == 1 + |PackLsb(s[c..], w)|
            && PackLsb(s, w)[0] == LsbValue(s[..c])
            && forall k :: 1 <= k < |PackLsb(s, w)| ==> PackLsb(s, w)[k] == PackLsb(s[c..], w)[k - 1]
  {
  }

  lemma {:induction false} PackMsbGroup(s: seq<Bit>, w: nat, k: nat)
    requires w > 0 && GroupStart(k, w) < |s|
    ensures k < |PackMsb(s, w)| && PackMsb(s, w)[k] == MsbValue(Group(s, w, k))
    decreases k
  {
    PackMsbHead(s, w);
    if k > 0 {
      PackMsbGroup(s[w..], w, k - 1);
    }
  }

  lemma {:induction false} PackLsbGroup(s: seq<Bit>, w: nat, k: nat)
    requires w > 0 && GroupStart(k, w) < |s|
    ensures k < |PackLsb(s, w)| && PackLsb(s, w)[k] == LsbValue(Group(s, w, k))
    decreases k
  {
    PackLsbHead(s, w);
    if k > 0 {
      PackLsbGroup(s[w..], w, k - 1);
    }
  }

  /** Group `k` of the MSB-first packing is the value of the bits
      `s[k*w .. min(k*w + w, n)]`. */
  lemma PackMsbAt(s: seq<Bit>, w: nat, k: nat)
    requires w > 0 && GroupStart(k, w) < |s|
    ensures k < |PackMsb(s, w)|
    ensures PackMsb(s, w)[k] == MsbValue(s[GroupStart(k, w) .. Min(GroupStart(k, w) + w, |s|)])
  {
    PackMsbGroup(s, w, k);
    GroupIsSlice(s, w, k);
  }

  /** Group `k` of the LSB-first packing is the value of the bits
      `s[k*w .. min(k*w + w, n)]`. */
  lemma PackLsbAt(s: seq<Bit>, w: nat, k: nat)
    requires w > 0 && GroupStart(k, w) < |s|
    ensures k < |PackLsb(s, w)|
    ensures PackLsb(s, w)[k] == LsbValue(s[GroupStart(k, w) .. Min(GroupStart(k, w) + w, |s|)])
  {
    PackLsbGroup(s, w, k);
    GroupIsSlice(s, w, k);
  }

}
