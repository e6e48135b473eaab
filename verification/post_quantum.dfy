/** Lattice-based primitives: single-bit Module-LWE public-key encryption
    with its byte-level wrappers, and a Module-SIS hash with a commitment
    scheme on top. The random matrix, secret, noise and randomness are
    inputs; SHA-256 is a parameter. */
module Lattice {
  import opened Wrappers
  import opened Bits

  type Vector = seq<int>
  type Matrix = seq<Vector>

  predicate IsMatrix(a: Matrix, rows: nat, cols: nat) {
    |a| == rows && forall i :: 0 <= i < rows ==> |a[i]| == cols
  }

  // ---------------------------------------------------------------------
  // Vectors and matrices over the integers

  /** `x @ y` for vectors. */
  function Dot(x: Vector, y: Vector): int
    requires |x| == |y|
  {
    if x == [] then 0 else x[0] * y[0] + Dot(x[1..], y[1..])
  }

  function Add(x: Vector, y: Vector): (z: Vector)
    requires |x| == |y|
    ensures |z| == |x| && forall i :: 0 <= i < |z| ==> z[i] == x[i] + y[i]
  {
    seq(|x|, i requires 0 <= i < |x| => x[i] + y[i])
  }

  function Scale(c: int, x: Vector): (z: Vector)
    ensures |z| == |x| && forall i :: 0 <= i < |z| ==> z[i] == c * x[i]
  {
    seq(|x|, i requires 0 <= i < |x| => c * x[i])
  }

  function Zeros(n: nat): (z: Vector)
    ensures |z| == n && forall i :: 0 <= i < n ==> z[i] == 0
  {
    seq(n, i => 0)
  }

  /** `x % q` componentwise; Python's `%` with a positive modulus. */
  function ModVec(x: Vector, q: int): (z: Vector)
    requires q >= 1
    ensures |z| == |x| && forall i :: 0 <= i < |z| ==> z[i] == x[i] % q && 0 <= z[i] < q
  {
    seq(|x|, i requires 0 <= i < |x| => x[i] % q)
  }

  /** `a @ x`: row by row. */
  function MatVec(a: Matrix, x: Vector): (z: Vector)
    requires forall i :: 0 <= i < |a| ==> |a[i]| == |x|
    ensures |z| == |a| && forall i :: 0 <= i < |z| ==> z[i] == Dot(a[i], x)
  {
    seq(|a|, i requires 0 <= i < |a| => Dot(a[i], x))
  }

  /** `a.T @ r` for a matrix with `cols` columns: the rows of `a` weighted by `r`. */
  function TransposeMatVec(a: Matrix, r: Vector, cols: nat): (z: Vector)
    requires |r| == |a| && forall i :: 0 <= i < |a| ==> |a[i]| == cols
    ensures |z| == cols
  {
    if a == [] then Zeros(cols) else Add(Scale(r[0], a[0]), TransposeMatVec(a[1..], r[1..], cols))
  }

  lemma {:induction false} DotCommutes(x: Vector, y: Vector)
    requires |x| == |y|
    ensures Dot(x, y) == Dot(y, x)
  {
    if x != [] {
      DotCommutes(x[1..], y[1..]);
    }
  }

  lemma {:induction false} DotAdd(s: Vector, x: Vector, y: Vector)
    requires |s| == |x| == |y|
    ensures Dot(s, Add(x, y)) == Dot(s, x) + Dot(s, y)
  {
    if s != [] {
      assert Add(x, y)[1..] == Add(x[1..], y[1..]);
      DotAdd(s[1..], x[1..], y[1..]);
    }
  }

  lemma {:induction false} DotScale(s: Vector, c: int, x: Vector)
    requires |s| == |x|
    ensures Dot(s, Scale(c, x)) == c * Dot(s, x)
  {
    if s != [] {
      assert Scale(c, x)[1..] == Scale(c, x[1..]);
      DotScale(s[1..], c, x[1..]);
      assert s[0] * (c * x[0]) == c * (s[0] * x[0]);
    }
  }

  lemma {:induction false} DotZeros(s: Vector)
    ensures Dot(s, Zeros(|s|)) == 0
  {
    if s != [] {
      assert Zeros(|s|)[1..] == Zeros(|s| - 1);
      DotZeros(s[1..]);
    }
  }

  /** `(a @ s) @ r == s @ (a.T @ r)`. */
  lemma {:induction false} DotTranspose(a: Matrix, s: Vector, r: Vector)
    requires |r| == |a| && forall i :: 0 <= i < |a| ==> |a[i]| == |s|
    ensures Dot(MatVec(a, s), r) == Dot(s, TransposeMatVec(a, r, |s|))
  {
    if a == [] {
      DotZeros(s);
    } else {
      assert MatVec(a, s)[1..] == MatVec(a[1..], s);
      DotTranspose(a[1..], s, r[1..]);
      var rest := TransposeMatVec(a[1..], r[1..], |s|);
      DotAdd(s, Scale(r[0], a[0]), rest);
      DotScale(s, r[0], a[0]);
      DotCommutes(a[0], s);
    }
  }

  /** A dot product with a vector of entries in [-1, 1]. */
  lemma {:induction false} DotBoundUnit(x: Vector, r: Vector, bound: int)
    requires |x| == |r| && bound >= 0
    requires forall i :: 0 <= i < |x| ==> -bound <= x[i] <= bound && -1 <= r[i] <= 1
    ensures -(|x| * bound) <= Dot(x, r) <= |x| * bound
  {
    if x != [] {
      DotBoundUnit(x[1..], r[1..], bound);
      assert -bound <= x[0] * r[0] <= bound by {
        assert r[0] == -1 || r[0] == 0 || r[0] == 1;
      }
      assert |x| * bound == (|x| - 1) * bound + bound;
    }
  }

  /** A dot product with a vector of entries in [-2, 2]. */
  lemma {:induction false} DotBoundSecret(s: Vector, y: Vector, bound: int)
    requires |s| == |y| && bound >= 0
    requires forall i :: 0 <= i < |s| ==> -2 <= s[i] <= 2 && -bound <= y[i] <= bound
    ensures -(|s| * (2 * bound)) <= Dot(s, y) <= |s| * (2 * bound)
  {
    if s != [] {
      DotBoundSecret(s[1..], y[1..], bound);
      assert -2 * bound <= s[0] * y[0] <= 2 * bound by {
        assert s[0] == -2 || s[0] == -1 || s[0] == 0 || s[0] == 1 || s[0] == 2;
      }
      assert |s| * (2 * bound) == (|s| - 1) * (2 * bound) + 2 * bound;
    }
  }

  // ---------------------------------------------------------------------
  // Congruences modulo q

  lemma ModShift(x: int, k: int, q: int)
    requires q >= 1
    ensures (x + k * q) % q == x % q
  {
    var d, r := x / q, x % q;
    assert x == d * q + r;
    assert x + k * q == (d + k) * q + r;
    DivUnique(x + k * q, q, d + k, r);
  }

  /** Equal remainders differ by a multiple of `q`. */
  lemma CongruentDiffer(a: int, c: int, q: int)
    requires q >= 1 && a % q == c % q
    ensures a == c + (a / q - c / q) * q
  {
    assert a == (a / q) * q + a % q && c == (c / q) * q + c % q;
  }

  lemma ModAdd(a: int, b: int, c: int, d: int, q: int)
    requires q >= 1 && a % q == c % q && b % q == d % q
    ensures (a + b) % q == (c + d) % q
  {
    CongruentDiffer(a, c, q);
    CongruentDiffer(b, d, q);
    var k := (a / q - c / q) + (b / q - d / q);
    assert a + b == (c + d) + k * q;
    ModShift(c + d, k, q);
  }

  lemma ModSub(a: int, b: int, c: int, d: int, q: int)
    requires q >= 1 && a % q == c % q && b % q == d % q
    ensures (a - b) % q == (c - d) % q
  {
    CongruentDiffer(a, c, q);
    CongruentDiffer(b, d, q);
    var k := (a / q - c / q) - (b / q - d / q);
    assert a - b == (c - d) + k * q;
    ModShift(c - d, k, q);
  }

  lemma ModOfMod(a: int, q: int)
    requires q >= 1
    ensures (a % q) % q == a % q
  {
    ModShift(a % q, a / q, q);
    assert a == a % q + (a / q) * q;
  }

  lemma ModMul(a: int, y: int, q: int)
    requires q >= 1
    ensures ((a % q) * y) % q == (a * y) % q
  {
    var d := a / q;
    assert a == d * q + a % q;
    assert a * y == (a % q) * y + (d * y) * q;
    ModShift((a % q) * y, d * y, q);
  }

  /** Reducing one side of a dot product modulo q keeps it modulo q. */
  lemma {:induction false} DotModLeft(x: Vector, y: Vector, q: int)
    requires q >= 1 && |x| == |y|
    ensures Dot(ModVec(x, q), y) % q == Dot(x, y) % q
  {
    if x != [] {
      assert ModVec(x, q)[1..] == ModVec(x[1..], q);
      DotModLeft(x[1..], y[1..], q);
      ModMul(x[0], y[0], q);
      ModAdd((x[0] % q) * y[0], Dot(ModVec(x[1..], q), y[1..]), x[0] * y[0], Dot(x[1..], y[1..]), q);
    }
  }

  lemma CongruentDifference(a: int, b: int, c: int, d: int, x: int, q: int)
    requires q >= 1 && a % q == c % q && b % q == d % q && c - d == x
    ensures (a - b) % q == x % q
  {
    ModSub(a, b, c, d, q);
  }

  // ---------------------------------------------------------------------
  // Module-LWE

  datatype PublicKey = PublicKey(a: Matrix, b: Vector)
  datatype Ciphertext = Ciphertext(u: Vector, v: int)

  /** The random draws of one encryption: the short vector `r` and the
      rounded Gaussian errors `e1` and `e2`. */
  datatype EncryptionNoise = EncryptionNoise(r: Vector, e1: Vector, e2: int)

  /** The rounding decoder: 0 near 0 modulo q, 1 near q/2; the boundary
      values `q // 4` and `3q // 4` decode to 1. */
  function Decode(q: int, mp: int): (bit: Bit)
    ensures bit == 0 <==> mp < q / 4 || mp > 3 * q / 4
  {
    if mp < q / 4 || mp > 3 * q / 4 then 0 else 1
  }

  /** `m * (q // 2)`: the message bit lifted to 0 or q // 2. */
  function Lift(m: Bit, q: int): int {
    if m == 0 then 0 else q / 2
  }

  /** The noise that decryption sees, `e @ r + e2 - s @ e1`. */
  function DecryptionNoise(s: Vector, e: Vector, noise: EncryptionNoise): int
    requires |e| == |noise.r| && |s| == |noise.e1|
  {
    Dot(e, noise.r) + noise.e2 - Dot(s, noise.e1)
  }

  /** Before reduction, `b @ r - s @ u` is the decryption noise without `e2`:
      the `a` terms cancel. */
  lemma BeforeReduction(a: Matrix, s: Vector, e: Vector, noise: EncryptionNoise)
    requires IsMatrix(a, |s|, |s|) && |e| == |s| && |noise.r| == |s| && |noise.e1| == |s|
    ensures Dot(Add(MatVec(a, s), e), noise.r) - Dot(s, Add(TransposeMatVec(a, noise.r, |s|), noise.e1))
            == DecryptionNoise(s, e, noise) - noise.e2
  {
    var r, e1 := noise.r, noise.e1;
    DotCommutes(Add(MatVec(a, s), e), r);
    DotAdd(r, MatVec(a, s), e);
    DotCommutes(r, MatVec(a, s));
    DotCommutes(r, e);
    DotTranspose(a, s, r);
    DotAdd(s, TransposeMatVec(a, r, |s|), e1);
  }

  /** `b = (a @ s + e) % q`. */
  function KeyVector(a: Matrix, s: Vector, e: Vector, q: int): Vector
    requires q >= 1 && IsMatrix(a, |s|, |s|) && |e| == |s|
  {
    ModVec(Add(MatVec(a, s), e), q)
  }

  /** `u = (a.T @ r + e1) % q`. */
  function CipherU(a: Matrix, r: Vector, e1: Vector, q: int): Vector
    requires q >= 1 && IsMatrix(a, |e1|, |e1|) && |r| == |e1|
  {
    ModVec(Add(TransposeMatVec(a, r, |e1|), e1), q)
  }

  /** The value decryption rounds: `(v - s @ u) % q`. */
  function Rounded(s: Vector, ct: Ciphertext, q: int): int
    requires q >= 1 && |s| == |ct.u|
  {
    (ct.v - Dot(s, ct.u)) % q
  }

  /** `v = (b @ r + e2 + m * (q // 2)) % q`. */
  function CipherV(b: Vector, r: Vector, e2: int, m: Bit, q: int): int
    requires q >= 1 && |b| == |r|
  {
    (Dot(b, r) + e2 + Lift(m, q)) % q
  }

  lemma ReducedPublicKey(a: Matrix, s: Vector, e: Vector, r: Vector, e2: int, m: Bit, q: int)
    requires q >= 1 && IsMatrix(a, |s|, |s|) && |e| == |s| && |r| == |s|
    ensures CipherV(KeyVector(a, s, e, q), r, e2, m, q) % q == (Dot(Add(MatVec(a, s), e), r) + e2 + Lift(m, q)) % q
  {
    var b := Add(MatVec(a, s), e);
    DotModLeft(b, r, q);
    ModAdd(Dot(ModVec(b, q), r), e2 + Lift(m, q), Dot(b, r), e2 + Lift(m, q), q);
    ModOfMod(Dot(ModVec(b, q), r) + e2 + Lift(m, q), q);
  }

  lemma ReducedCipherU(a: Matrix, s: Vector, r: Vector, e1: Vector, q: int)
    requires q >= 1 && IsMatrix(a, |s|, |s|) && |r| == |s| && |e1| == |s|
    ensures Dot(s, CipherU(a, r, e1, q)) % q == Dot(s, Add(TransposeMatVec(a, r, |s|), e1)) % q
  {
    var uFull := Add(TransposeMatVec(a, r, |s|), e1);
    DotModLeft(uFull, s, q);
    DotCommutes(uFull, s);
    DotCommutes(s, ModVec(uFull, q));
  }

  /** The value decryption rounds, `(v - s @ u) % q`, is the lifted message
      plus the decryption noise, modulo q. */
  lemma DecryptionCongruence(a: Matrix, s: Vector, e: Vector, m: Bit, noise: EncryptionNoise, q: int)
    requires q >= 1 && IsMatrix(a, |s|, |s|) && |e| == |s| && |noise.r| == |s| && |noise.e1| == |s|
    ensures Rounded(s, Ciphertext(CipherU(a, noise.r, noise.e1, q), CipherV(KeyVector(a, s, e, q), noise.r, noise.e2, m, q)), q)
      == (DecryptionNoise(s, e, noise) + Lift(m, q)) % q
  {
    var r, e1 := noise.r, noise.e1;
    var bFull := Add(MatVec(a, s), e);
    var uFull := Add(TransposeMatVec(a, r, |s|), e1);
    ReducedPublicKey(a, s, e, r, noise.e2, m, q);
    ReducedCipherU(a, s, r, e1, q);
    BeforeReduction(a, s, e, noise);
    var v := CipherV(KeyVector(a, s, e, q), r, noise.e2, m, q);
    var su := Dot(s, CipherU(a, r, e1, q));
    var br := Dot(bFull, r);
    var sUnreduced := Dot(s, uFull);
    var noiseValue := DecryptionNoise(s, e, noise);
    assert v % q == (br + noise.e2 + Lift(m, q)) % q;
    assert su % q == sUnreduced % q;
    assert br - sUnreduced == noiseValue - noise.e2;
    CongruentDifference(v, su, br + noise.e2 + Lift(m, q), sUnreduced, noiseValue + Lift(m, q), q);
    assert Rounded(s, Ciphertext(CipherU(a, r, e1, q), v), q) == (v - su) % q;
  }

  /** Noise of magnitude below q // 4 leaves the message recoverable. */
  lemma DecodeRecovers(q: int, noise: int, m: Bit)
    requires q >= 1 && -(q / 4) < noise < q / 4
    ensures Decode(q, (noise + Lift(m, q)) % q) == m
  {
    var k, h, t := q / 4, q / 2, 3 * q / 4;
    var rem := q % 4;
    assert q == 4 * k + rem;
    assert h == 2 * k + rem / 2;
    assert t == 3 * k + (3 * rem) / 4;
    if m == 0 {
      if noise >= 0 {
        DivUnique(noise, q, 0, noise);
      } else {
        DivUnique(noise, q, -1, noise + q);
      }
    } else {
      DivUnique(noise + h, q, 0, noise + h);
    }
  }

  class ModuleLwe {
    const n: nat
    const q: int

    constructor(n: nat, q: int)
      requires q >= 1
      ensures this.n == n && this.q == q
    {
      this.n := n;
      this.q := q;
    }

    predicate KeyShape(pk: PublicKey) {
      IsMatrix(pk.a, n, n) && |pk.b| == n
    }

    predicate NoiseShape(noise: EncryptionNoise) {
      |noise.r| == n && |noise.e1| == n
    }

    /** `generate_keypair` for the drawn matrix `a`, secret `s` and error `e`:
        the public key is `(a, (a @ s + e) % q)`. */
    function GenerateKeypair(a: Matrix, s: Vector, e: Vector): (pk: PublicKey)
      requires q >= 1 && IsMatrix(a, n, n) && |s| == n && |e| == n
      ensures KeyShape(pk) && pk.a == a
      ensures forall i :: 0 <= i < n ==> 0 <= pk.b[i] < q && pk.b[i] == (Dot(a[i], s) + e[i]) % q
    {
      PublicKey(a, KeyVector(a, s, e, q))
    }

    /** `encrypt`: `u = (a.T @ r + e1) % q`, `v = (b @ r + e2 + m * (q // 2)) % q`. */
    function Encrypt(pk: PublicKey, m: Bit, noise: EncryptionNoise): (ct: Ciphertext)
      requires q >= 1 && KeyShape(pk) && NoiseShape(noise)
      ensures |ct.u| == n && forall j :: 0 <= j < n ==> 0 <= ct.u[j] < q
      ensures 0 <= ct.v < q
    {
      Ciphertext(CipherU(pk.a, noise.r, noise.e1, q), CipherV(pk.b, noise.r, noise.e2, m, q))
    }

    /** `decrypt`: rounds `(v - s @ u) % q`. */
    function Decrypt(s: Vector, ct: Ciphertext): (m: Bit)
      requires q >= 1 && |s| == |ct.u|
      ensures m == 0 <==> Rounded(s, ct, q) < q / 4 || Rounded(s, ct, q) > 3 * q / 4
    {
      Decode(q, Rounded(s, ct, q))
    }

    /** What decryption computes before rounding is the message, scaled to
        q // 2, plus the decryption noise, modulo q. */
    lemma DecryptionSees(a: Matrix, s: Vector, e: Vector, m: Bit, noise: EncryptionNoise)
      requires q >= 1 && IsMatrix(a, n, n) && |s| == n && |e| == n && NoiseShape(noise)
      ensures Rounded(s, Encrypt(GenerateKeypair(a, s, e), m, noise), q) == (DecryptionNoise(s, e, noise) + Lift(m, q)) % q
    {
      DecryptionCongruence(a, s, e, m, noise, q);
    }

    /** Decryption inverts encryption whenever the decryption noise is below
        q // 4 in magnitude. */
    lemma DecryptInvertsEncrypt(a: Matrix, s: Vector, e: Vector, m: Bit, noise: EncryptionNoise)
      requires q >= 1 && IsMatrix(a, n, n) && |s| == n && |e| == n && NoiseShape(noise)
      requires -(q / 4) < DecryptionNoise(s, e, noise) < q / 4
      ensures Decrypt(s, Encrypt(GenerateKeypair(a, s, e), m, noise)) == m
    {
      DecryptionSees(a, s, e, m, noise);
      DecodeRecovers(q, DecryptionNoise(s, e, noise), m);
    }

    /** With the draws in the ranges `generate_keypair` and `encrypt` use (s
        in [-2, 2], r in [-1, 1]) and every error at most `bound` in
        magnitude, decryption is correct once (3n + 1) * bound < q // 4. */
    lemma SmallDrawsDecrypt(a: Matrix, s: Vector, e: Vector, m: Bit, noise: EncryptionNoise, bound: int)
      requires q >= 1 && IsMatrix(a, n, n) && |s| == n && |e| == n && NoiseShape(noise) && bound >= 0
      requires forall i :: 0 <= i < n ==> -2 <= s[i] <= 2 && -1 <= noise.r[i] <= 1
      requires forall i :: 0 <= i < n ==> -bound <= e[i] <= bound && -bound <= noise.e1[i] <= bound
      requires -bound <= noise.e2 <= bound
      requires (3 * n + 1) * bound < q / 4
      ensures Decrypt(s, Encrypt(GenerateKeypair(a, s, e), m, noise)) == m
    {
      DotBoundUnit(e, noise.r, bound);
      DotBoundSecret(s, noise.e1, bound);
      assert (3 * n + 1) * bound == n * bound + n * (2 * bound) + bound;
      DecryptInvertsEncrypt(a, s, e, m, noise);
    }

    /** One ciphertext per bit, each with its own draws. */
    function EncryptBits(pk: PublicKey, bits: seq<Bit>, noises: seq<EncryptionNoise>): (cts: seq<Ciphertext>)
      requires q >= 1 && KeyShape(pk) && |noises| == |bits|
      requires forall j :: 0 <= j < |noises| ==> NoiseShape(noises[j])
      ensures |cts| == |bits| && forall j :: 0 <= j < |cts| ==> cts[j] == Encrypt(pk, bits[j], noises[j])
    {
      seq(|bits|, j requires 0 <= j < |bits| => Encrypt(pk, bits[j], noises[j]))
    }

    /** `[decrypt(s, ct) for ct in ciphertexts]`. */
    function DecryptBits(s: Vector, cts: seq<Ciphertext>): (bits: seq<Bit>)
      requires q >= 1 && forall j :: 0 <= j < |cts| ==> |cts[j].u| == |s|
      ensures |bits| == |cts| && forall j :: 0 <= j < |bits| ==> bits[j] == Decrypt(s, cts[j])
    {
      seq(|cts|, j requires 0 <= j < |cts| => Decrypt(s, cts[j]))
    }

    /** `encrypt_bytes`: eight ciphertexts per byte, for its bits from the
        least significant up. */
    method EncryptBytes(pk: PublicKey, data: seq<Byte>, noises: seq<EncryptionNoise>) returns (cts: seq<Ciphertext>)
      requires q >= 1 && KeyShape(pk) && |noises| == 8 * |data|
      requires forall j :: 0 <= j < |noises| ==> NoiseShape(noises[j])
      ensures |cts| == 8 * |data|
      ensures cts == EncryptBits(pk, ExpandLsb(data), noises)
    {
      cts := [];
      var k := 0;
      while k < |data|
        invariant 0 <= k <= |data|
        invariant |cts| == 8 * k
        invariant forall j :: 0 <= j < |cts| ==> cts[j] == Encrypt(pk, ExpandLsb(data)[j], noises[j])
      {
        var byte := data[k];
        var i := 0;
        while i < 8
          invariant 0 <= i <= 8
          invariant |cts| == 8 * k + i
          invariant forall j :: 0 <= j < |cts| ==> cts[j] == Encrypt(pk, ExpandLsb(data)[j], noises[j])
        {
          var bit := BitOf(byte, i);
          ExpandLsbAt(data, k, i);
          cts := cts + [Encrypt(pk, bit, noises[8 * k + i])];
          i := i + 1;
        }
        k := k + 1;
      }
    }

    /** `decrypt_bytes`: decrypts every ciphertext and packs the bits eight at
        a time, least significant first; a short last group gives a last byte
        with its high bits clear. */
    method DecryptBytes(s: Vector, cts: seq<Ciphertext>) returns (data: seq<Byte>)
      requires q >= 1 && forall j :: 0 <= j < |cts| ==> |cts[j].u| == |s|
      ensures |data| == GroupCount(|cts|, 8)
      ensures data == PackLsb(DecryptBits(s, cts), 8)
    {
      var bits := DecryptBits(s, cts);
      var groups := PackGroupsLsb(bits, 8);
      Pow2Eight();
      data := AsBytes(groups);
    }

    /** Byte k of `decrypt_bytes` holds decrypted bits 8k.. as its bits 0.. */
    lemma DecryptedByteAt(s: Vector, cts: seq<Ciphertext>, k: nat)
      requires q >= 1 && forall j :: 0 <= j < |cts| ==> |cts[j].u| == |s|
      requires 8 * k < |cts|
      ensures k < |PackLsb(DecryptBits(s, cts), 8)|
      ensures PackLsb(DecryptBits(s, cts), 8)[k] == LsbValue(DecryptBits(s, cts)[8 * k..Min(8 * k + 8, |cts|)])
    {
      GroupStartIsProduct(k, 8);
      PackLsbAt(DecryptBits(s, cts), 8, k);
    }

    /** Bytes encrypted under a key decrypt to themselves under its secret
        when every ciphertext's decryption noise is below q // 4. */
    lemma BytesRoundTrip(a: Matrix, s: Vector, e: Vector, data: seq<Byte>, noises: seq<EncryptionNoise>)
      requires q >= 1 && IsMatrix(a, n, n) && |s| == n && |e| == n && |noises| == 8 * |data|
      requires forall j :: 0 <= j < |noises| ==>
        NoiseShape(noises[j]) && -(q / 4) < DecryptionNoise(s, e, noises[j]) < q / 4
      ensures PackLsb(DecryptBits(s, EncryptBits(GenerateKeypair(a, s, e), ExpandLsb(data), noises)), 8) == data
    {
      var pk := GenerateKeypair(a, s, e);
      var bits := ExpandLsb(data);
      var cts := EncryptBits(pk, bits, noises);
      forall j | 0 <= j < |bits|
        ensures DecryptBits(s, cts)[j] == bits[j]
      {
        DecryptInvertsEncrypt(a, s, e, bits[j], noises[j]);
      }
      assert DecryptBits(s, cts) == bits;
      PackLsbExpand(data);
    }
  }

  // ---------------------------------------------------------------------
  // Bytes as bits, least significant bit first

  /** `[(byte >> i) & 1 for byte in data for i in range(8)]`. */
  function ExpandLsb(data: seq<Byte>): (bits: seq<Bit>)
    ensures |bits| == 8 * |data|
  {
    if data == [] then [] else LsbBits(data[0], 8) + ExpandLsb(data[1..])
  }

  lemma {:induction false} ExpandLsbAt(data: seq<Byte>, k: nat, i: nat)
    requires k < |data| && i < 8
    ensures ExpandLsb(data)[8 * k + i] == BitOf(data[k], i)
    decreases k
  {
    if k == 0 {
      LsbBitsAt(data[0], 8, i);
    } else {
      ExpandLsbAt(data[1..], k - 1, i);
    }
  }

  /** Packing the expanded bits eight at a time, LSB first, gives the bytes back. */
  lemma {:induction false} PackLsbExpand(data: seq<Byte>)
    ensures PackLsb(ExpandLsb(data), 8) == data
  {
    if data != [] {
      var bits := ExpandLsb(data);
      assert bits[..8] == LsbBits(data[0], 8);
      assert bits[8..] == ExpandLsb(data[1..]);
      Pow2Eight();
      LsbBitsValue(data[0], 8);
      PackLsbExpand(data[1..]);
    }
  }

  // ---------------------------------------------------------------------
  // Module-SIS hash and commitments

  datatype SisError = Overflow

  function Pow256(k: nat): (r: nat)
    ensures r >= 1
  {
    if k == 0 then 1 else 256 * Pow256(k - 1)
  }

  /** `v.to_bytes(k, 'big')` for `0 <= v < 256^k`. */
  function ToBytesBig(v: nat, k: nat): (bytes: seq<Byte>)
    ensures |bytes| == k
  {
    if k == 0 then [] else ToBytesBig(v / 256, k - 1) + [v % 256]
  }

  /** The value that big-endian bytes encode. */
  function FromBytesBig(bytes: seq<Byte>): (v: nat)
    ensures v < Pow256(|bytes|)
  {
    if bytes == [] then 0 else 256 * FromBytesBig(bytes[..|bytes| - 1]) + bytes[|bytes| - 1]
  }

  lemma {:induction false} BigEndianRoundTrip(v: nat, k: nat)
    requires v < Pow256(k)
    ensures FromBytesBig(ToBytesBig(v, k)) == v
  {
    if k > 0 {
      var bytes := ToBytesBig(v, k);
      assert bytes[..k - 1] == ToBytesBig(v / 256, k - 1);
      BigEndianRoundTrip(v / 256, k - 1);
    }
  }

  /** The bytes a commitment hashes: the value as 8 big-endian bytes, then
      the randomness; values outside [0, 2^64) overflow. */
  function CommitBytes(value: int, randomness: seq<Byte>): (r: Result<seq<Byte>, SisError>)
    ensures r.Err? <==> value < 0 || value >= Pow256(8)
    ensures r.Ok? ==> |r.value| == 8 + |randomness| && r.value[8..] == randomness
    ensures r.Ok? ==> FromBytesBig(r.value[..8]) == value
  {
    if value < 0 || value >= Pow256(8) then Err(Overflow)
    else
      BigEndianRoundTrip(value, 8);
      assert (ToBytesBig(value, 8) + randomness)[..8] == ToBytesBig(value, 8);
      Ok(ToBytesBig(value, 8) + randomness)
  }

  /** Different (value, randomness) pairs give different hashed bytes, so only
      a collision of the hash opens a commitment to two values. */
  lemma CommitBytesInjective(v1: int, r1: seq<Byte>, v2: int, r2: seq<Byte>)
    requires CommitBytes(v1, r1).Ok? && CommitBytes(v2, r2).Ok?
    requires CommitBytes(v1, r1).value == CommitBytes(v2, r2).value
    ensures v1 == v2 && r1 == r2
  {
  }

  /** The short vector of `hash`: bit i of the digest (bit i % 8 of byte
      i // 8) mapped to -1 or 1, for i below min(m, 8 * digest length); 0 beyond. */
  function Coefficients(h: seq<Byte>, m: nat): (x: Vector)
    ensures |x| == m
    ensures forall i :: 0 <= i < m && i < 8 * |h| ==> x[i] == 2 * BitOf(h[i / 8], i % 8) - 1
    ensures forall i :: 0 <= i < m && i >= 8 * |h| ==> x[i] == 0
    ensures forall i :: 0 <= i < m ==> -1 <= x[i] <= 1
  {
    seq(m, i requires 0 <= i < m => if i < 8 * |h| then 2 * BitOf(h[i / 8], i % 8) - 1 else 0)
  }

  class ModuleSis {
    const n: nat
    const m: nat
    const q: int
    /** The public random n-by-m matrix, fixed at construction. */
    const a: Matrix
    /** SHA-256 digest. */
    const sha256: seq<Byte> -> seq<Byte>

    constructor(n: nat, m: nat, q: int, a: Matrix, sha256: seq<Byte> -> seq<Byte>)
      requires q >= 1 && IsMatrix(a, n, m)
      ensures this.n == n && this.m == m && this.q == q && this.a == a && this.sha256 == sha256
      ensures Valid()
    {
      this.n := n;
      this.m := m;
      this.q := q;
      this.a := a;
      this.sha256 := sha256;
    }

    predicate Valid() {
      q >= 1 && IsMatrix(a, n, m)
    }

    /** The hash value: `(a @ x) % q` for the coefficient vector of the digest. */
    function HashValue(data: seq<Byte>): (hv: Vector)
      requires Valid()
      ensures |hv| == n && forall i :: 0 <= i < n ==> 0 <= hv[i] < q
    {
      ModVec(MatVec(a, Coefficients(sha256(data), m)), q)
    }

    /** `hash`: fills the coefficient array and multiplies. */
    method Hash(data: seq<Byte>) returns (hv: Vector)
      requires Valid()
      ensures hv == HashValue(data)
    {
      var h := sha256(data);
      var x := new int[m](_ => 0);
      var bound := Min(m, |h| * 8);
      var i := 0;
      while i < bound
        invariant 0 <= i <= bound
        invariant forall j :: 0 <= j < i ==> x[j] == 2 * BitOf(h[j / 8], j % 8) - 1
        invariant forall j :: i <= j < m ==> x[j] == 0
      {
        x[i] := BitOf(h[i / 8], i % 8) * 2 - 1;
        i := i + 1;
      }
      assert x[..] == Coefficients(h, m);
      hv := ModVec(MatVec(a, x[..]), q);
    }

    /** `commit`: hashes the value with the given randomness, or with `drawn`
        (32 fresh random bytes) when none is given; returns both. */
    method Commit(value: int, randomness: Option<seq<Byte>>, drawn: seq<Byte>)
      returns (r: Result<(Vector, seq<Byte>), SisError>)
      requires Valid()
      ensures r.Err? <==> value < 0 || value >= Pow256(8)
      ensures r.Ok? ==> r.value.1 == (if randomness.Some? then randomness.value else drawn)
      ensures r.Ok? ==> r.value.0 == HashValue(CommitBytes(value, r.value.1).value)
    {
      var opening := if randomness.Some? then randomness.value else drawn;
      var bytes := CommitBytes(value, opening);
      if bytes.Err? {
        return Err(bytes.error);
      }
      var commitment := Hash(bytes.value);
      r := Ok((commitment, opening));
    }

    /** `verify_commitment`: recomputes the commitment and compares. */
    method VerifyCommitment(commitment: Vector, value: int, randomness: seq<Byte>)
      returns (r: Result<bool, SisError>)
      requires Valid()
      ensures r.Err? <==> value < 0 || value >= Pow256(8)
      ensures r.Ok? ==> (r.value <==> commitment == HashValue(CommitBytes(value, randomness).value))
    {
      var bytes := CommitBytes(value, randomness);
      if bytes.Err? {
        return Err(bytes.error);
      }
      var expected := Hash(bytes.value);
      r := Ok(commitment == expected);
    }
  }
}
