/** The BB84 quantum-key-distribution engine (ncrypt/core/qkd.py).

    A run prepares Alice's qubits, lets Bob measure them over a discrete noisy
    channel, sifts both keys down to the positions where the bases agree,
    publicly compares a random sample of the sifted key to estimate the error
    rate (and discards the sampled bits), aborts when the error rate is above
    the threshold, and otherwise compresses Alice's remaining bits by XOR
    folding.

    The library draws all of its randomness from numpy's global generator; here
    every draw is an explicit input: Alice's bits and bases, Bob's bases, one
    uniform number in [0, 1) per qubit (the bit flips when it is below the
    noise level), one fair coin per qubit (Bob's result in the wrong basis)
    and the sampled check positions. Error rates and factors are exact reals. */
module Qkd {
  import opened Wrappers
  import opened Bits

  const DefaultErrorThreshold: real := 0.11
  const DefaultCompressionFactor: real := 0.7

  /** Python's `int(x)` on a float: truncation toward zero. */
  function Trunc(x: real): int {
    if x >= 0.0 then x.Floor else -((-x).Floor)
  }

  datatype Basis = Rectilinear | Diagonal

  /** A prepared qubit: the bit Alice encodes and the basis she encodes it in. */
  datatype Qubit = Qubit(bit: Bit, basis: Basis)

  datatype QkdResult = QkdResult(
    rawKey: seq<Bit>,
    siftedKey: seq<Bit>,
    finalKey: seq<Bit>,
    errorRate: real,
    keyLength: int,
    discardedBits: int)

  /** The dictionary `QKDResult.to_dict` returns. */
  datatype ResultSummary = ResultSummary(
    finalKeyLength: int,
    errorRate: real,
    discardedBits: int,
    efficiency: real)

  datatype QkdError =
    | SampleTooLarge      // ValueError: the sample must be smaller than the key
    | NegativeSampleSize  // ValueError raised by numpy's choice for a negative size
    | DivisionByZero      // ZeroDivisionError: an error rate over an empty sample

  function ToDict(r: QkdResult): (d: ResultSummary)
    ensures d.finalKeyLength == r.keyLength && d.errorRate == r.errorRate
    ensures d.discardedBits == r.discardedBits
    ensures r.keyLength >= 0 && r.discardedBits >= 0 ==> 0.0 <= d.efficiency <= 1.0
    ensures r.keyLength + r.discardedBits > 0 ==>
              d.efficiency * (r.keyLength + r.discardedBits) as real == r.keyLength as real
    ensures r.keyLength + r.discardedBits <= 0 ==> d.efficiency == 0.0
  {
    var total := r.keyLength + r.discardedBits;
    ResultSummary(r.keyLength, r.errorRate, r.discardedBits,
                  if total > 0 then r.keyLength as real / total as real else 0.0)
  }

  // ---------------------------------------------------------------------
  // Preparation and measurement

  /** `prepare_qubits`: one (bit, basis) pair per position; `zip` stops at the shorter list. */
  function PrepareQubits(bits: seq<Bit>, bases: seq<Basis>): (qubits: seq<Qubit>)
    ensures |qubits| == Min(|bits|, |bases|)
    ensures forall i :: 0 <= i < |qubits| ==> qubits[i].bit == bits[i] && qubits[i].basis == bases[i]
  {
    seq(Min(|bits|, |bases|), i requires 0 <= i < Min(|bits|, |bases|) => Qubit(bits[i], bases[i]))
  }

  /** Bob's reading of one qubit: in Alice's basis he gets her bit, flipped when
      the uniform draw `u` is below the noise level; in the other basis he gets
      the fair coin. */
  function Measurement(q: Qubit, bobBasis: Basis, noiseLevel: real, u: real, coin: Bit): Bit {
    if q.basis == bobBasis then
      if u < noiseLevel then 1 - q.bit else q.bit
    else
      coin
  }

  predicate UniformDraws(draws: seq<real>) {
    forall i :: 0 <= i < |draws| ==> 0.0 <= draws[i] < 1.0
  }

  /** Bob's readings of all exchanged qubits. */
  function Measurements(qubits: seq<Qubit>, bases: seq<Basis>, noiseLevel: real,
                        draws: seq<real>, coins: seq<Bit>): (measured: seq<Bit>)
    requires |draws| >= Min(|qubits|, |bases|) && |coins| >= Min(|qubits|, |bases|)
    ensures |measured| == Min(|qubits|, |bases|)
    ensures forall i :: 0 <= i < |measured| && qubits[i].basis == bases[i] ==>
              measured[i] == (if draws[i] < noiseLevel then 1 - qubits[i].bit else qubits[i].bit)
    ensures forall i :: 0 <= i < |measured| && qubits[i].basis != bases[i] ==> measured[i] == coins[i]
  {
    seq(Min(|qubits|, |bases|),
        i requires 0 <= i < Min(|qubits|, |bases|) =>
          Measurement(qubits[i], bases[i], noiseLevel, draws[i], coins[i]))
  }

  /** `measure_qubits`: one reading per (qubit, basis) pair. */
  method MeasureQubits(qubits: seq<Qubit>, bases: seq<Basis>, noiseLevel: real,
                       draws: seq<real>, coins: seq<Bit>) returns (measured: seq<Bit>)
    requires |draws| >= Min(|qubits|, |bases|) && |coins| >= Min(|qubits|, |bases|)
    ensures |measured| == Min(|qubits|, |bases|)
    ensures forall i :: 0 <= i < |measured| && qubits[i].basis == bases[i] ==>
              measured[i] == (if draws[i] < noiseLevel then 1 - qubits[i].bit else qubits[i].bit)
    ensures forall i :: 0 <= i < |measured| && qubits[i].basis != bases[i] ==> measured[i] == coins[i]
    ensures noiseLevel <= 0.0 && UniformDraws(draws) ==>
              forall i :: 0 <= i < |measured| && qubits[i].basis == bases[i] ==> measured[i] == qubits[i].bit
    ensures measured == Measurements(qubits, bases, noiseLevel, draws, coins)
  {
    var n := Min(|qubits|, |bases|);
    measured := [];
    var i := 0;
    while i < n
      invariant 0 <= i <= n
      invariant |measured| == i
      invariant forall k :: 0 <= k < i ==>
                  measured[k] == Measurement(qubits[k], bases[k], noiseLevel, draws[k], coins[k])
    {
      var q := qubits[i];
      if q.basis == bases[i] {
        if draws[i] < noiseLevel {
          measured := measured + [1 - q.bit];
        } else {
          measured := measured + [q.bit];
        }
      } else {
        measured := measured + [coins[i]];
      }
      i := i + 1;
    }
  }

  // ---------------------------------------------------------------------
  // Sifting

  predicate Increasing(s: seq<nat>) {
    forall i, j :: 0 <= i < j < |s| ==> s[i] < s[j]
  }

  /** The positions at which Alice and Bob chose the same basis, in increasing order. */
  function MatchingPositions(aliceBases: seq<Basis>, bobBases: seq<Basis>): (idx: seq<nat>)
    requires |aliceBases| == |bobBases|
    ensures forall k :: 0 <= k < |idx| ==> idx[k] < |aliceBases|
    decreases |aliceBases|
  {
    if aliceBases == [] then []
    else
      var n := |aliceBases| - 1;
      MatchingPositions(aliceBases[..n], bobBases[..n]) + (if aliceBases[n] == bobBases[n] then [n] else [])
  }

  /** The matching positions are listed once each, in increasing order, and a
      position is listed exactly when the two bases agree there. */
  lemma {:induction false} MatchingPositionsSpec(aliceBases: seq<Basis>, bobBases: seq<Basis>)
    requires |aliceBases| == |bobBases|
    ensures Increasing(MatchingPositions(aliceBases, bobBases))
    ensures forall i :: 0 <= i < |aliceBases| ==>
              (i in MatchingPositions(aliceBases, bobBases) <==> aliceBases[i] == bobBases[i])
    decreases |aliceBases|
  {
    if aliceBases != [] {
      var n := |aliceBases| - 1;
      MatchingPositionsSpec(aliceBases[..n], bobBases[..n]);
    }
  }

  /** The elements of `s` at positions `idx`, in the order of `idx`. */
  function Pick<T>(s: seq<T>, idx: seq<nat>): (r: seq<T>)
    requires forall k :: 0 <= k < |idx| ==> idx[k] < |s|
    ensures |r| == |idx|
  {
    seq(|idx|, k requires 0 <= k < |idx| => s[idx[k]])
  }

  /** `alice_bases == bob_bases` on two numpy arrays. */
  function BasisMask(aliceBases: seq<Basis>, bobBases: seq<Basis>): (mask: seq<bool>)
    requires |aliceBases| == |bobBases|
    ensures |mask| == |aliceBases|
  {
    seq(|aliceBases|, i requires 0 <= i < |aliceBases| => aliceBases[i] == bobBases[i])
  }

  /** numpy's boolean-mask indexing `bits[mask]`. */
  function Masked(bits: seq<Bit>, mask: seq<bool>): seq<Bit>
    requires |bits| == |mask|
    decreases |bits|
  {
    if bits == [] then []
    else
      var n := |bits| - 1;
      Masked(bits[..n], mask[..n]) + (if mask[n] then [bits[n]] else [])
  }

  /** `sift_keys`. */
  function SiftKeys(aliceBits: seq<Bit>, aliceBases: seq<Basis>,
                    bobBits: seq<Bit>, bobBases: seq<Basis>): (sifted: (seq<Bit>, seq<Bit>))
    requires |aliceBits| == |aliceBases| == |bobBits| == |bobBases|
    ensures var m := MatchingPositions(aliceBases, bobBases);
            sifted.0 == Pick(aliceBits, m) && sifted.1 == Pick(bobBits, m)
  {
    MaskedPicksMatchingPositions(aliceBits, aliceBases, bobBases);
    MaskedPicksMatchingPositions(bobBits, aliceBases, bobBases);
    var mask := BasisMask(aliceBases, bobBases);
    (Masked(aliceBits, mask), Masked(bobBits, mask))
  }

  /** The sifting example of the test suite: the bases agree at positions 0,
      1, 2, 4 and 5, so both sifted keys hold five bits. */
  lemma SiftingExample()
    ensures var sifted := SiftKeys([0, 1, 1, 0, 1, 0],
                                   [Rectilinear, Rectilinear, Diagonal, Diagonal, Rectilinear, Diagonal],
                                   [0, 1, 0, 0, 1, 1],
                                   [Rectilinear, Rectilinear, Diagonal, Rectilinear, Rectilinear, Diagonal]);
            sifted.0 == [0, 1, 1, 1, 0] && sifted.1 == [0, 1, 0, 1, 1]
  {
    var mask := BasisMask([Rectilinear, Rectilinear, Diagonal, Diagonal, Rectilinear, Diagonal],
                          [Rectilinear, Rectilinear, Diagonal, Rectilinear, Rectilinear, Diagonal]);
    assert mask == [true, true, true, false, true, true];
    MaskedExample([0, 1, 1, 0, 1, 0], mask);
    MaskedExample([0, 1, 0, 0, 1, 1], mask);
  }

  lemma MaskedExample(bits: seq<Bit>, mask: seq<bool>)
    requires |bits| == 6 && mask == [true, true, true, false, true, true]
    ensures Masked(bits, mask) == [bits[0], bits[1], bits[2], bits[4], bits[5]]
  {
    assert bits[..1][..0] == [] && mask[..1][..0] == [];
    assert Masked(bits[..1], mask[..1]) == [bits[0]];
    assert bits[..2][..1] == bits[..1] && mask[..2][..1] == mask[..1];
    assert Masked(bits[..2], mask[..2]) == [bits[0], bits[1]];
    assert bits[..3][..2] == bits[..2] && mask[..3][..2] == mask[..2];
    assert Masked(bits[..3], mask[..3]) == [bits[0], bits[1], bits[2]];
    assert bits[..4][..3] == bits[..3] && mask[..4][..3] == mask[..3];
    assert Masked(bits[..4], mask[..4]) == [bits[0], bits[1], bits[2]];
    assert bits[..5][..4] == bits[..4] && mask[..5][..4] == mask[..4];
    assert Masked(bits[..5], mask[..5]) == [bits[0], bits[1], bits[2], bits[4]];
  }

  lemma PickPrefix<T>(s: seq<T>, n: nat, idx: seq<nat>)
    requires n <= |s|
    requires forall k :: 0 <= k < |idx| ==> idx[k] < n
    ensures Pick(s, idx) == Pick(s[..n], idx)
  {
  }

  lemma {:induction false} MaskedPicksMatchingPositions(bits: seq<Bit>, aliceBases: seq<Basis>, bobBases: seq<Basis>)
    requires |bits| == |aliceBases| == |bobBases|
    ensures Masked(bits, BasisMask(aliceBases, bobBases)) == Pick(bits, MatchingPositions(aliceBases, bobBases))
    decreases |bits|
  {
    if bits != [] {
      var n := |bits| - 1;
      var mask := BasisMask(aliceBases, bobBases);
      assert mask[..n] == BasisMask(aliceBases[..n], bobBases[..n]);
      MaskedPicksMatchingPositions(bits[..n], aliceBases[..n], bobBases[..n]);
      var before := MatchingPositions(aliceBases[..n], bobBases[..n]);
      PickPrefix(bits, n, before);
      var tail := if aliceBases[n] == bobBases[n] then [n] else [];
      assert Pick(bits, before + tail) == Pick(bits, before) + Pick(bits, tail);
    }
  }

  /** Sifting keeps, for both parties, exactly the bits at the positions where
      the bases agree, in their original order; the two sifted keys therefore
      have the same length, the number of agreeing positions. */
  lemma {:induction false} SiftKeysKeepMatchingPositions(aliceBits: seq<Bit>, aliceBases: seq<Basis>,
                                                         bobBits: seq<Bit>, bobBases: seq<Basis>)
    requires |aliceBits| == |aliceBases| == |bobBits| == |bobBases|
    ensures var m := MatchingPositions(aliceBases, bobBases);
            var sifted := SiftKeys(aliceBits, aliceBases, bobBits, bobBases);
            && sifted.0 == Pick(aliceBits, m)
            && sifted.1 == Pick(bobBits, m)
            && |sifted.0| == |sifted.1| == |m| == |set i | 0 <= i < |aliceBases| && aliceBases[i] == bobBases[i]|
  {
    MatchingPositionsSpec(aliceBases, bobBases);
    var m := MatchingPositions(aliceBases, bobBases);
    IncreasingCard(m);
    assert Elems(m) == (set i | 0 <= i < |aliceBases| && aliceBases[i] == bobBases[i]);
  }

  /** The set of values in `s`. */
  function Elems(s: seq<nat>): set<nat> {
    set x | x in s
  }

  /** An increasing list of positions has as many elements as its set. */
  lemma {:induction false} IncreasingCard(s: seq<nat>)
    requires Increasing(s)
    ensures |Elems(s)| == |s|
    decreases |s|
  {
    if s != [] {
      var n := |s| - 1;
      var init := s[..n];
      assert Increasing(init);
      IncreasingCard(init);
      assert Elems(s) == Elems(init) + {s[n]} by {
        assert s == init + [s[n]];
      }
      assert s[n] !in Elems(init) by {
        forall k | 0 <= k < n
          ensures init[k] != s[n]
        {
          assert init[k] == s[k];
        }
      }
    }
  }

  // ---------------------------------------------------------------------
  // Error estimation

  predicate Distinct(s: seq<nat>) {
    forall i, j :: 0 <= i < j < |s| ==> s[i] != s[j]
  }

  /** `check` is a possible result of `np.random.choice(n, size, replace=False)`. */
  predicate IsSample(check: seq<nat>, n: nat, size: nat) {
    |check| == size && Distinct(check) && forall k :: 0 <= k < |check| ==> check[k] < n
  }

  /** `keep_indices`: the positions below `n` that were not checked, in increasing order. */
  function KeepPositions(n: nat, check: seq<nat>): (keep: seq<nat>)
    ensures forall k :: 0 <= k < |keep| ==> keep[k] < n
    decreases n
  {
    if n == 0 then []
    else KeepPositions(n - 1, check) + (if n - 1 in check then [] else [n - 1])
  }

  /** The kept positions are increasing, and a position below `n` is kept
      exactly when it was not checked. */
  lemma {:induction false} KeepPositionsSpec(n: nat, check: seq<nat>)
    ensures Increasing(KeepPositions(n, check))
    ensures forall i :: 0 <= i < n ==> (i in KeepPositions(n, check) <==> i !in check)
  {
    if n > 0 {
      KeepPositionsSpec(n - 1, check);
    }
  }

  /** No kept position was checked. */
  lemma KeepPositionsAvoidCheck(n: nat, check: seq<nat>)
    ensures forall k :: 0 <= k < |KeepPositions(n, check)| ==> KeepPositions(n, check)[k] !in check
  {
    KeepPositionsSpec(n, check);
    var keep := KeepPositions(n, check);
    forall k | 0 <= k < |keep|
      ensures keep[k] !in check
    {
      assert keep[k] in keep;
    }
  }

  lemma RateBounds(errors: nat, size: nat)
    requires 0 < size && errors <= size
    ensures 0.0 <= errors as real / size as real <= 1.0
  {
  }

  /** How many positions below `n` occur in `check`. */
  function CountBelow(n: nat, check: seq<nat>): nat {
    if n == 0 then 0 else CountBelow(n - 1, check) + (if n - 1 in check then 1 else 0)
  }

  lemma {:induction false} KeepPositionsLength(n: nat, check: seq<nat>)
    ensures |KeepPositions(n, check)| + CountBelow(n, check) == n
  {
    if n > 0 {
      KeepPositionsLength(n - 1, check);
    }
  }

  lemma {:induction false} CountBelowAppend(n: nat, c: seq<nat>, x: nat)
    ensures CountBelow(n, c + [x]) == CountBelow(n, c) + (if x < n && x !in c then 1 else 0)
  {
    if n > 0 {
      CountBelowAppend(n - 1, c, x);
      assert (n - 1 in c + [x]) == (n - 1 in c || n - 1 == x);
    }
  }

  lemma {:induction false} CountBelowSample(n: nat, check: seq<nat>)
    requires IsSample(check, n, |check|)
    ensures CountBelow(n, check) == |check|
    decreases |check|
  {
    if check == [] {
      CountBelowEmpty(n);
    } else {
      var c := check[..|check| - 1];
      var x := check[|check| - 1];
      assert check == c + [x];
      CountBelowSample(n, c);
      CountBelowAppend(n, c, x);
    }
  }

  lemma {:induction false} CountBelowEmpty(n: nat)
    ensures CountBelow(n, []) == 0
  {
    if n > 0 {
      CountBelowEmpty(n - 1);
    }
  }

  /** Removing a sample of `size` distinct positions below `n` leaves `n - size` positions. */
  lemma KeepPositionsOfSample(n: nat, check: seq<nat>)
    requires IsSample(check, n, |check|)
    ensures |KeepPositions(n, check)| == n - |check|
  {
    KeepPositionsLength(n, check);
    CountBelowSample(n, check);
  }

  /** `sum(1 for i in check_indices if alice_key[i] != bob_key[i])`. */
  function Mismatches(a: seq<Bit>, b: seq<Bit>, check: seq<nat>): (errors: nat)
    requires forall k :: 0 <= k < |check| ==> check[k] < |a| && check[k] < |b|
    ensures errors <= |check|
    decreases |check|
  {
    if check == [] then 0
    else
      var n := |check| - 1;
      Mismatches(a, b, check[..n]) + (if a[check[n]] != b[check[n]] then 1 else 0)
  }

  lemma {:induction false} MismatchesOfAgreeingKeys(a: seq<Bit>, b: seq<Bit>, check: seq<nat>)
    requires forall k :: 0 <= k < |check| ==> check[k] < |a| && check[k] < |b|
    requires forall k :: 0 <= k < |check| ==> a[check[k]] == b[check[k]]
    ensures Mismatches(a, b, check) == 0
    decreases |check|
  {
    if check != [] {
      MismatchesOfAgreeingKeys(a, b, check[..|check| - 1]);
    }
  }

  datatype Estimate = Estimate(errorRate: real, aliceRemaining: seq<Bit>, bobRemaining: seq<Bit>)

  /** The sample size `estimate_error_rate` uses: the given one, or half the key. */
  function SampleSize(sampleSize: Option<int>, keyLength: nat): int {
    match sampleSize
    case None => keyLength / 2
    case Some(s) => s
  }

  /** `estimate_error_rate`: compares the keys at the sampled positions `check`
      and keeps both keys at the other positions. */
  function EstimateErrorRate(aliceKey: seq<Bit>, bobKey: seq<Bit>, sampleSize: Option<int>,
                             check: seq<nat>): (r: Result<Estimate, QkdError>)
    requires |aliceKey| == |bobKey|
    requires var s := SampleSize(sampleSize, |aliceKey|);
             0 <= s < |aliceKey| ==> IsSample(check, |aliceKey|, s)
    ensures var n, s := |aliceKey|, SampleSize(sampleSize, |aliceKey|);
            && (r == Err(SampleTooLarge) <==> s >= n)
            && (r == Err(NegativeSampleSize) <==> s < 0)
            && (r == Err(DivisionByZero) <==> s == 0 < n)
            && (r.Err? <==> !(0 < s < n))
    ensures r.Ok? ==>
              var n, s := |aliceKey|, SampleSize(sampleSize, |aliceKey|);
              var keep := KeepPositions(n, check);
              && 0 < s < n
              && r.value.errorRate == Mismatches(aliceKey, bobKey, check) as real / s as real
              && 0.0 <= r.value.errorRate <= 1.0
              && r.value.aliceRemaining == Pick(aliceKey, keep)
              && r.value.bobRemaining == Pick(bobKey, keep)
              && |r.value.aliceRemaining| == |r.value.bobRemaining| == n - s
              && (forall k :: 0 <= k < |keep| ==> keep[k] !in check)
  {
    var n := |aliceKey|;
    var s := SampleSize(sampleSize, n);
    if s >= n then Err(SampleTooLarge)
    else if s < 0 then Err(NegativeSampleSize)
    else
      var keep := KeepPositions(n, check);
      var errors := Mismatches(aliceKey, bobKey, check);
      if s == 0 then Err(DivisionByZero)
      else
        KeepPositionsOfSample(n, check);
        KeepPositionsAvoidCheck(n, check);
        RateBounds(errors, s);
        Ok(Estimate(errors as real / s as real, Pick(aliceKey, keep), Pick(bobKey, keep)))
  }

  // ---------------------------------------------------------------------
  // Privacy amplification

  function Ones(s: seq<Bit>): nat {
    if s == [] then 0 else Ones(s[..|s| - 1]) + s[|s| - 1]
  }

  /** The XOR of all bits of `s`: 1 exactly when `s` holds an odd number of ones. */
  function Parity(s: seq<Bit>): Bit {
    Ones(s) % 2
  }

  /** Python's `^` on two bits. */
  function Xor(a: Bit, b: Bit): Bit {
    if a == b then 0 else 1
  }

  lemma ParityAppend(s: seq<Bit>, b: Bit)
    ensures Parity(s + [b]) == Xor(Parity(s), b)
  {
    assert (s + [b])[..|s|] == s;
  }

  /** `new_length = int(len(key) * compression_factor)`. */
  function AmplifiedLength(keyLength: nat, compressionFactor: real): int {
    Trunc(keyLength as real * compressionFactor)
  }

  /** With `step = n // new_length`, segment `i` ends at or before `n`; the
      `min(start_idx + step, len(key))` of the loop never cuts a segment short. */
  lemma SegmentFits(n: nat, newLength: nat, i: nat)
    requires 0 <= i < newLength
    ensures i * (n / newLength) + n / newLength <= n
  {
    var step := n / newLength;
    assert newLength * step + n % newLength == n;
    MulMonotone(i + 1, newLength, step);
    assert (i + 1) * step == i * step + step;
  }

  /** The compressed key: `new_length` bits, bit `i` the XOR of the `i`-th
      segment of `step = len(key) // new_length` bits. */
  function Amplified(key: seq<Bit>, compressionFactor: real): (amplified: seq<Bit>)
    ensures |amplified| == Max(AmplifiedLength(|key|, compressionFactor), 0)
  {
    var newLength := AmplifiedLength(|key|, compressionFactor);
    if newLength <= 0 then []
    else
      var step := |key| / newLength;
      seq(newLength, i requires 0 <= i < newLength =>
            SegmentFits(|key|, newLength, i);
            Parity(key[i * step .. i * step + step]))
  }

  /** `privacy_amplification`: XOR-folds the key segment by segment. */
  method PrivacyAmplification(key: seq<Bit>, compressionFactor: real) returns (amplified: seq<Bit>)
    ensures |amplified| == Max(AmplifiedLength(|key|, compressionFactor), 0)
    ensures amplified == Amplified(key, compressionFactor)
  {
    var newLength := Trunc(|key| as real * compressionFactor);
    if newLength <= 0 {
      // new_length == 0 returns at once; a negative new_length gives an empty range
      return [];
    }
    ghost var spec := Amplified(key, compressionFactor);
    amplified := [];
    var step := |key| / newLength;
    var i := 0;
    while i < newLength
      invariant 0 <= i <= newLength
      invariant amplified == spec[..i]
    {
      SegmentFits(|key|, newLength, i);
      var startIdx := i * step;
      var endIdx := Min(startIdx + step, |key|);
      var segmentBit: Bit := 0;
      var j := startIdx;
      while j < endIdx
        invariant startIdx <= j <= endIdx
        invariant segmentBit == Parity(key[startIdx..j])
      {
        ParityAppend(key[startIdx..j], key[j]);
        assert key[startIdx..j + 1] == key[startIdx..j] + [key[j]];
        segmentBit := Xor(segmentBit, key[j]);
        j := j + 1;
      }
      assert segmentBit == spec[i];
      amplified := amplified + [segmentBit];
      i := i + 1;
    }
    assert spec[..i] == spec;
  }

  lemma AmplifiedAt(key: seq<Bit>, compressionFactor: real, i: nat)
    requires 0 <= i < AmplifiedLength(|key|, compressionFactor)
    ensures var newLength := AmplifiedLength(|key|, compressionFactor);
            var step := |key| / newLength;
            && |Amplified(key, compressionFactor)| == newLength
            && i * step + step <= |key|
            && Amplified(key, compressionFactor)[i] == Parity(key[i * step .. i * step + step])
  {
    SegmentFits(|key|, AmplifiedLength(|key|, compressionFactor), i);
  }

  /** Segment `i` lies below `new_length * step`, which lies within the key. */
  lemma SegmentBelowUsed(n: nat, newLength: nat, i: nat)
    requires 0 <= i < newLength
    ensures 0 <= i * (n / newLength)
    ensures i * (n / newLength) + n / newLength <= newLength * (n / newLength) <= n
  {
    MulMonotone(0, i, n / newLength);
    var step := n / newLength;
    MulMonotone(i + 1, newLength, step);
    assert (i + 1) * step == i * step + step;
    assert newLength * step + n % newLength == n;
  }

  /** Bit `i` of the compressed key only reads the key below `used`. */
  lemma AmplifiedAtPrefix(key: seq<Bit>, compressionFactor: real, used: nat, i: nat)
    requires 0 <= i < AmplifiedLength(|key|, compressionFactor)
    requires used == AmplifiedLength(|key|, compressionFactor) * (|key| / AmplifiedLength(|key|, compressionFactor))
    ensures var step := |key| / AmplifiedLength(|key|, compressionFactor);
            && used <= |key|
            && i * step + step <= used
            && Amplified(key, compressionFactor)[i] == Parity(key[..used][i * step .. i * step + step])
  {
    var newLength := AmplifiedLength(|key|, compressionFactor);
    var step := |key| / newLength;
    AmplifiedAt(key, compressionFactor, i);
    SegmentBelowUsed(|key|, newLength, i);
    SliceBelow(key, used, i * step, i * step + step);
  }

  lemma SliceBelow(key: seq<Bit>, used: nat, lo: nat, hi: nat)
    requires lo <= hi <= used <= |key|
    ensures key[lo..hi] == key[..used][lo..hi]
  {
  }

  lemma AmplifiedBitsAgree(key1: seq<Bit>, key2: seq<Bit>, compressionFactor: real, used: nat, i: nat)
    requires |key1| == |key2|
    requires 0 <= i < AmplifiedLength(|key1|, compressionFactor)
    requires used == AmplifiedLength(|key1|, compressionFactor) * (|key1| / AmplifiedLength(|key1|, compressionFactor))
    requires used <= |key1| && key1[..used] == key2[..used]
    ensures Amplified(key1, compressionFactor)[i] == Amplified(key2, compressionFactor)[i]
  {
    AmplifiedAtPrefix(key1, compressionFactor, used, i);
    AmplifiedAtPrefix(key2, compressionFactor, used, i);
  }

  /** The fold never reads a bit at or after `new_length * step`: two keys that
      agree below that index compress to the same key. */
  lemma AmplifiedIgnoresTail(key1: seq<Bit>, key2: seq<Bit>, compressionFactor: real)
    requires |key1| == |key2|
    requires var newLength := AmplifiedLength(|key1|, compressionFactor);
             newLength > 0 ==>
               var used := newLength * (|key1| / newLength);
               used <= |key1| && key1[..used] == key2[..used]
    ensures Amplified(key1, compressionFactor) == Amplified(key2, compressionFactor)
  {
    var newLength := AmplifiedLength(|key1|, compressionFactor);
    if newLength > 0 {
      var used := newLength * (|key1| / newLength);
      var a1, a2 := Amplified(key1, compressionFactor), Amplified(key2, compressionFactor);
      assert |a1| == |a2| == newLength;
      forall i | 0 <= i < newLength
        ensures a1[i] == a2[i]
      {
        AmplifiedBitsAgree(key1, key2, compressionFactor, used, i);
      }
    }
  }

  /** With a compression factor large enough that `int(len(key) * factor)`
      exceeds the key length, `step` is 0 and every segment is empty: the
      result is longer than the key and every bit of it is 0. */
  lemma OverCompressionGivesZeros(key: seq<Bit>, compressionFactor: real)
    requires |key| as real * compressionFactor >= (|key| + 1) as real
    ensures |Amplified(key, compressionFactor)| == AmplifiedLength(|key|, compressionFactor) > |key|
    ensures forall i :: 0 <= i < |Amplified(key, compressionFactor)| ==> Amplified(key, compressionFactor)[i] == 0
  {
    var n := |key|;
    var newLength := AmplifiedLength(n, compressionFactor);
    assert newLength >= n + 1;
    DivUnique(n, newLength, 0, n);
  }

  // ---------------------------------------------------------------------
  // The protocol run

  /** Every random draw of one run. */
  datatype Draws = Draws(
    aliceBits: seq<Bit>,
    aliceBases: seq<Basis>,
    bobBases: seq<Basis>,
    channel: seq<real>,
    coins: seq<Bit>,
    checkIndices: seq<nat>)

  /** `n * ratio` lies in [0, n], and below `n` when the ratio is below one. */
  lemma ScaleBounds(n: nat, ratio: real)
    requires 0.0 <= ratio
    ensures 0.0 <= n as real * ratio
    ensures ratio < 1.0 && n > 0 ==> n as real * ratio < n as real
  {
    if ratio < 1.0 && n > 0 {
      assert n as real - n as real * ratio == n as real * (1.0 - ratio);
    }
  }

  lemma TruncBounds(x: real)
    requires 0.0 <= x
    ensures 0 <= Trunc(x) && Trunc(x) as real <= x < Trunc(x) as real + 1.0
  {
  }

  /** `int(len(alice_sifted) * check_sample_ratio)`. */
  function CheckSampleSize(siftedLength: nat, checkSampleRatio: real): (s: int)
    ensures 0.0 <= checkSampleRatio ==>
              0 <= s && s as real <= siftedLength as real * checkSampleRatio < s as real + 1.0
    ensures 0.0 <= checkSampleRatio < 1.0 && siftedLength > 0 ==> s < siftedLength
  {
    var x := siftedLength as real * checkSampleRatio;
    if 0.0 <= checkSampleRatio then
      ScaleBounds(siftedLength, checkSampleRatio);
      TruncBounds(x);
      Trunc(x)
    else
      Trunc(x)
  }

  /** The draws of a run over `nBits` qubits: one of each per qubit, and a
      valid sample of the sifted key whenever the run gets to sample it. */
  predicate DrawsFor(d: Draws, nBits: nat, checkSampleRatio: real) {
    && |d.aliceBits| == nBits && |d.aliceBases| == nBits && |d.bobBases| == nBits
    && |d.channel| == nBits && |d.coins| == nBits
    && UniformDraws(d.channel)
    && var m := |MatchingPositions(d.aliceBases, d.bobBases)|;
       var s := CheckSampleSize(m, checkSampleRatio);
       0 <= s < m ==> IsSample(d.checkIndices, m, s)
  }

  /** Bob's measured bits in a run. */
  function BobBits(d: Draws, nBits: nat, noiseLevel: real, checkSampleRatio: real): (bits: seq<Bit>)
    requires DrawsFor(d, nBits, checkSampleRatio)
    ensures |bits| == nBits
  {
    Measurements(PrepareQubits(d.aliceBits, d.aliceBases), d.bobBases, noiseLevel, d.channel, d.coins)
  }

  /** The two sifted keys of a run: both parties' bits at the matching positions. */
  function SiftedKeys(d: Draws, nBits: nat, noiseLevel: real, checkSampleRatio: real): (keys: (seq<Bit>, seq<Bit>))
    requires DrawsFor(d, nBits, checkSampleRatio)
    ensures var m := MatchingPositions(d.aliceBases, d.bobBases);
            && |keys.0| == |keys.1| == |m|
            && keys.0 == Pick(d.aliceBits, m)
            && keys.1 == Pick(BobBits(d, nBits, noiseLevel, checkSampleRatio), m)
  {
    var bobBits := BobBits(d, nBits, noiseLevel, checkSampleRatio);
    SiftKeysKeepMatchingPositions(d.aliceBits, d.aliceBases, bobBits, d.bobBases);
    SiftKeys(d.aliceBits, d.aliceBases, bobBits, d.bobBases)
  }

  /** `run_protocol` with the protocol's `error_threshold`. `Ok(None)` is the
      source's `None` (no matching basis, or an error rate above the
      threshold); `Err` is an exception escaping the error estimation. */
  function RunProtocol(errorThreshold: real, nBits: nat, noiseLevel: real, checkSampleRatio: real,
                       d: Draws): (r: Result<Option<QkdResult>, QkdError>)
    requires DrawsFor(d, nBits, checkSampleRatio)
    ensures var m := MatchingPositions(d.aliceBases, d.bobBases);
            var s := CheckSampleSize(|m|, checkSampleRatio);
            && (|m| == 0 ==> r == Ok(None))
            && (|m| > 0 ==> (r.Err? <==> !(0 < s < |m|)))
    ensures var m := MatchingPositions(d.aliceBases, d.bobBases);
            var s := CheckSampleSize(|m|, checkSampleRatio);
            r.Err? ==> r.error == (if s >= |m| then SampleTooLarge
                                   else if s < 0 then NegativeSampleSize
                                   else DivisionByZero)
    ensures var m := MatchingPositions(d.aliceBases, d.bobBases);
            var s := CheckSampleSize(|m|, checkSampleRatio);
            0 < s < |m| ==>
              var errors := Mismatches(Pick(d.aliceBits, m),
                                       Pick(BobBits(d, nBits, noiseLevel, checkSampleRatio), m),
                                       d.checkIndices);
              (r == Ok(None) <==> errors as real / s as real > errorThreshold)
    ensures r.Ok? && r.value.Some? ==>
              var res := r.value.value;
              var m := MatchingPositions(d.aliceBases, d.bobBases);
              && res.rawKey == d.aliceBits
              && res.siftedKey == Pick(d.aliceBits, m)
              && res.errorRate == Mismatches(Pick(d.aliceBits, m),
                                             Pick(BobBits(d, nBits, noiseLevel, checkSampleRatio), m),
                                             d.checkIndices) as real
                                  / CheckSampleSize(|m|, checkSampleRatio) as real
              && 0.0 <= res.errorRate <= errorThreshold
              && res.finalKey == Amplified(Pick(res.siftedKey, KeepPositions(|m|, d.checkIndices)),
                                           DefaultCompressionFactor)
              && res.keyLength == |res.finalKey|
              && res.discardedBits == nBits - res.keyLength
  {
    var sifted := SiftedKeys(d, nBits, noiseLevel, checkSampleRatio);
    var aliceSifted, bobSifted := sifted.0, sifted.1;
    if |aliceSifted| == 0 then Ok(None)
    else
      var sampleSize := CheckSampleSize(|aliceSifted|, checkSampleRatio);
      var estimate := EstimateErrorRate(aliceSifted, bobSifted, Some(sampleSize), d.checkIndices);
      if estimate.Err? then Err(estimate.error)
      else if estimate.value.errorRate > errorThreshold then Ok(None)
      else
        var finalKey := Amplified(estimate.value.aliceRemaining, DefaultCompressionFactor);
        Ok(Some(QkdResult(d.aliceBits, aliceSifted, finalKey, estimate.value.errorRate,
                          |finalKey|, nBits - |finalKey|)))
  }

  /** Over a noiseless channel Bob reads Alice's bit wherever the bases
      agree, so the two sifted keys are equal. */
  lemma NoiselessSiftedKeysAgree(nBits: nat, noiseLevel: real, checkSampleRatio: real, d: Draws)
    requires DrawsFor(d, nBits, checkSampleRatio)
    requires noiseLevel <= 0.0
    ensures SiftedKeys(d, nBits, noiseLevel, checkSampleRatio).0 == SiftedKeys(d, nBits, noiseLevel, checkSampleRatio).1
  {
    var m := MatchingPositions(d.aliceBases, d.bobBases);
    var bob := BobBits(d, nBits, noiseLevel, checkSampleRatio);
    MatchingPositionsSpec(d.aliceBases, d.bobBases);
    forall k | 0 <= k < |m|
      ensures d.aliceBits[m[k]] == bob[m[k]]
    {
      var i := m[k];
      assert i in m;
      assert d.aliceBases[i] == d.bobBases[i];
      assert 0.0 <= d.channel[i];
    }
  }

  /** Over a noiseless channel a run that gets to the error check measures an
      error rate of 0 and never aborts for suspected eavesdropping (for any
      non-negative threshold). */
  lemma NoiselessRunSucceeds(errorThreshold: real, nBits: nat, noiseLevel: real, checkSampleRatio: real, d: Draws)
    requires DrawsFor(d, nBits, checkSampleRatio)
    requires noiseLevel <= 0.0 && errorThreshold >= 0.0
    requires var m := |MatchingPositions(d.aliceBases, d.bobBases)|;
             0 < CheckSampleSize(m, checkSampleRatio) < m
    ensures var r := RunProtocol(errorThreshold, nBits, noiseLevel, checkSampleRatio, d);
            r.Ok? && r.value.Some? && r.value.value.errorRate == 0.0
  {
    var m := MatchingPositions(d.aliceBases, d.bobBases);
    var sifted := SiftedKeys(d, nBits, noiseLevel, checkSampleRatio);
    NoiselessSiftedKeysAgree(nBits, noiseLevel, checkSampleRatio, d);
    MismatchesOfAgreeingKeys(sifted.0, sifted.1, d.checkIndices);
    assert Mismatches(Pick(d.aliceBits, m), Pick(BobBits(d, nBits, noiseLevel, checkSampleRatio), m),
                      d.checkIndices) == 0;
  }
}
