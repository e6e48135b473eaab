/** The Braket back end of the library: BB84 circuits built gate by gate, a
    device that runs one circuit at a time, batched exchanges, and the
    BB84 post-processing (sifting, sampling, thresholding) done on the
    device's measurements.

    The quantum device is an oracle: `Device.outcome(circuit, shots, k)` is
    the first measured bit of the `k`-th circuit the device has run. The
    random bits and bases that the source draws with numpy are inputs. A
    discrete single-qubit state model (the four BB84 states, up to global
    phase) gives the circuits a meaning, so that an ideal device can be
    stated and BB84's agreement on matching bases proved. */
module Braket {
  import opened Wrappers
  import opened Bits

  // ---------------------------------------------------------------------------
  // Circuits and their meaning
  // ---------------------------------------------------------------------------

  datatype Gate = X | H | Z | Measure

  /** The four states a BB84 circuit can reach from |0>, up to global phase. */
  datatype QubitState = Zero | One | Plus | Minus

  function Apply(g: Gate, st: QubitState): QubitState {
    match g
    case X => (match st case Zero => One case One => Zero case Plus => Plus case Minus => Minus)
    case H => (match st case Zero => Plus case One => Minus case Plus => Zero case Minus => One)
    case Z => (match st case Zero => Zero case One => One case Plus => Minus case Minus => Plus)
    case Measure => st
  }

  /** The state before the final read-out, gates applied left to right. */
  function Evolve(circuit: seq<Gate>, st: QubitState): QubitState
    decreases |circuit|
  {
    if circuit == [] then st else Evolve(circuit[1..], Apply(circuit[0], st))
  }

  /** The state a circuit leaves a qubit in, starting from |0>. */
  function Prepared(circuit: seq<Gate>): QubitState {
    Evolve(circuit, Zero)
  }

  /** A computational-basis measurement of `st` is certain to give `b`. */
  predicate Certain(st: QubitState, b: Bit) {
    (st == Zero && b == 0) || (st == One && b == 1)
  }

  /** How many times gate `g` occurs in `c`. */
  function Occurrences(c: seq<Gate>, g: Gate): nat
    decreases |c|
  {
    if c == [] then 0 else (if c[0] == g then 1 else 0) + Occurrences(c[1..], g)
  }

  lemma {:induction false} OccurrencesAppend(a: seq<Gate>, b: seq<Gate>, g: Gate)
    ensures Occurrences(a + b, g) == Occurrences(a, g) + Occurrences(b, g)
    decreases |a|
  {
    if a == [] {
      assert a + b == b;
    } else {
      assert (a + b)[0] == a[0] && (a + b)[1..] == a[1..] + b;
      OccurrencesAppend(a[1..], b, g);
    }
  }

  /** `Occurrences` is the multiplicity of `g` in the multiset of `c`. */
  lemma {:induction false} OccurrencesMultiplicity(c: seq<Gate>, g: Gate)
    ensures Occurrences(c, g) == multiset(c)[g]
    decreases |c|
  {
    if c != [] {
      assert c == [c[0]] + c[1..];
      OccurrencesMultiplicity(c[1..], g);
    }
  }

  /** The BB84 circuit for one qubit: prepare `bit` in `basis` (0 rectilinear,
      anything else diagonal), rotate for a diagonal measurement when
      `measureBasis` is 1, and measure. It ends in its only measurement; it
      holds an X exactly for a 1 in the rectilinear basis; it starts with H,
      followed by Z exactly for a 1, in the diagonal basis; and it holds one
      H for a diagonal encoding and one more for a diagonal measurement. */
  function Bb84Circuit(bit: int, basis: int, measureBasis: int): (c: seq<Gate>)
    ensures |c| >= 1 && c[|c| - 1] == Measure && Occurrences(c, Measure) == 1
    ensures Occurrences(c, X) == if basis == 0 && bit == 1 then 1 else 0
    ensures Occurrences(c, Z) == if basis != 0 && bit == 1 then 1 else 0
    ensures Occurrences(c, H) == (if basis != 0 then 1 else 0) + (if measureBasis == 1 then 1 else 0)
    ensures basis != 0 ==> c[0] == H
    ensures basis != 0 && bit == 1 ==> c[1] == Z
    ensures measureBasis == 1 ==> |c| >= 2 && c[|c| - 2] == H
  {
    var encode := if basis == 0 then [] else [H];
    var flip := if bit != 1 then [] else if basis == 0 then [X] else [Z];
    var rotate := if measureBasis == 1 then [H] else [];
    PiecesOccurrences(encode, flip, rotate, [Measure], X);
    PiecesOccurrences(encode, flip, rotate, [Measure], Z);
    PiecesOccurrences(encode, flip, rotate, [Measure], H);
    PiecesOccurrences(encode, flip, rotate, [Measure], Measure);
    encode + flip + rotate + [Measure]
  }

  /** A circuit of four pieces of at most one gate each holds `g` once per
      piece that is `[g]`. */
  lemma PiecesOccurrences(a: seq<Gate>, b: seq<Gate>, c: seq<Gate>, d: seq<Gate>, g: Gate)
    requires |a| <= 1 && |b| <= 1 && |c| <= 1 && |d| <= 1
    ensures Occurrences(a + b + c + d, g)
            == (if a == [g] then 1 else 0) + (if b == [g] then 1 else 0)
               + (if c == [g] then 1 else 0) + (if d == [g] then 1 else 0)
  {
    OccurrencesAppend(a + b + c, d, g);
    OccurrencesAppend(a + b, c, g);
    OccurrencesAppend(a, b, g);
    ShortOccurrences(a, g);
    ShortOccurrences(b, g);
    ShortOccurrences(c, g);
    ShortOccurrences(d, g);
  }

  lemma ShortOccurrences(s: seq<Gate>, g: Gate)
    requires |s| <= 1
    ensures Occurrences(s, g) == if s == [g] then 1 else 0
  {
    if s != [] {
      assert s[1..] == [];
    }
  }

  /** The gates of a BB84 circuit as a multiset: a single measurement,
      last; an X exactly for a 1 in the rectilinear basis; a leading H and
      then a Z exactly for a 1 in the diagonal basis; one H per diagonal
      basis. */
  lemma Bb84CircuitShape(bit: int, basis: int, measureBasis: int)
    ensures var c := Bb84Circuit(bit, basis, measureBasis);
            && |c| >= 1 && c[|c| - 1] == Measure && Measure !in c[..|c| - 1]
            && (X in c <==> basis == 0 && bit == 1)
            && (Z in c <==> basis != 0 && bit == 1)
            && (basis != 0 ==> c[0] == H)
            && (basis != 0 && bit == 1 ==> c[1] == Z)
            && (measureBasis == 1 ==> |c| >= 2 && c[|c| - 2] == H)
            && multiset(c)[H] == (if basis != 0 then 1 else 0) + (if measureBasis == 1 then 1 else 0)
  {
    var c := Bb84Circuit(bit, basis, measureBasis);
    OccurrencesMultiplicity(c, X);
    OccurrencesMultiplicity(c, Z);
    OccurrencesMultiplicity(c, H);
    OccurrencesMultiplicity(c, Measure);
    OccurrencesMultiplicity(c[..|c| - 1], Measure);
    OccurrencesAppend(c[..|c| - 1], [Measure], Measure);
    assert c[..|c| - 1] + [Measure] == c;
  }

  lemma {:induction false} EvolveAppend(a: seq<Gate>, b: seq<Gate>, st: QubitState)
    ensures Evolve(a + b, st) == Evolve(b, Evolve(a, st))
    decreases |a|
  {
    if a != [] {
      assert (a + b)[0] == a[0] && (a + b)[1..] == a[1..] + b;
      EvolveAppend(a[1..], b, Apply(a[0], st));
    } else {
      assert a + b == b;
    }
  }

  /** Measuring in the basis the bit was prepared in gives the bit back with
      certainty; measuring in the other basis leaves the qubit in |+> or |->,
      whose read-out is a fair coin independent of the bit. */
  lemma CircuitMeasuresEncodedBit(bit: Bit, basis: Bit, measureBasis: Bit)
    ensures basis == measureBasis ==> Certain(Prepared(Bb84Circuit(bit, basis, measureBasis)), bit)
    ensures basis != measureBasis ==> Prepared(Bb84Circuit(bit, basis, measureBasis)) in {Plus, Minus}
  {
    var prepared := if basis == 0 then (if bit == 1 then [X] else [])
                    else [H] + (if bit == 1 then [Z] else []);
    var rotation := if measureBasis == 1 then [H] else [];
    assert Bb84Circuit(bit, basis, measureBasis) == prepared + rotation + [Measure];
    EvolveAppend(prepared + rotation, [Measure], Zero);
    EvolveAppend(prepared, rotation, Zero);
    if basis != 0 {
      EvolveAppend([H], if bit == 1 then [Z] else [], Zero);
    }
  }

  /** A device without noise: whenever the circuit's state has a certain
      read-out, every run of it returns that read-out. */
  ghost predicate Ideal(outcome: (seq<Gate>, int, nat) -> Bit) {
    forall c: seq<Gate>, shots: int, k: nat, b: Bit ::
      Certain(Prepared(c), b) ==> outcome(c, shots, k) == b
  }

  // ---------------------------------------------------------------------------
  // Devices and configuration
  // ---------------------------------------------------------------------------

  /** A quantum device. It keeps count of the circuits it has run; the
      `k`-th run of `circuit` with `shots` shots reads out
      `outcome(circuit, shots, k)` as its first measurement. */
  class Device {
    const outcome: (seq<Gate>, int, nat) -> Bit
    var calls: nat

    constructor (outcome: (seq<Gate>, int, nat) -> Bit)
      ensures this.outcome == outcome && calls == 0
    {
      this.outcome := outcome;
      calls := 0;
    }

    method Run(circuit: seq<Gate>, shots: int) returns (measured: Bit)
      modifies this
      ensures measured == outcome(circuit, shots, old(calls))
      ensures calls == old(calls) + 1
    {
      measured := outcome(circuit, shots, calls);
      calls := calls + 1;
    }
  }

  datatype DeviceKind = LocalSimulator | AwsDevice(arn: string)

  datatype BraketError = NoDevice | ZeroBatchSize | NegativeSize | DivisionByZero

  /** Which device a back end is built on: the local simulator when asked
      for, otherwise the device named by a non-empty ARN, otherwise an error. */
  function Configure(deviceArn: Option<string>, useLocalSimulator: bool): (r: Result<DeviceKind, BraketError>)
    ensures r == Err(NoDevice) <==> !useLocalSimulator && (deviceArn == None || deviceArn == Some(""))
    ensures useLocalSimulator ==> r == Ok(LocalSimulator)
    ensures r.Ok? && !useLocalSimulator ==> r.value.AwsDevice? && deviceArn == Some(r.value.arn) && r.value.arn != ""
  {
    if useLocalSimulator then Ok(LocalSimulator)
    else if deviceArn.Some? && deviceArn.value != "" then Ok(AwsDevice(deviceArn.value))
    else Err(NoDevice)
  }

  /** What a cloud device reports about itself. */
  datatype DeviceProperties = DeviceProperties(name: string, deviceType: string, provider: string, status: string)

  datatype DeviceInfo = DeviceInfo(name: string, deviceType: string, provider: string,
                                   status: Option<string>, arn: Option<string>)

  datatype CostEstimate =
    | Free(totalCost: real, currency: string)
    | Priced(costPerTask: real, costPerShot: real, totalCost: real, currency: string, nCircuits: int)

  const IonqShotCost: real := 0.01
  const RigettiShotCost: real := 0.00035
  const OtherShotCost: real := 0.001
  const TaskCost: real := 0.30

  /** The integer nearest to `c`, the even one on a tie. */
  function RoundHalfEven(c: real): (n: int)
    ensures c - 0.5 <= n as real <= c + 0.5
    ensures c.Floor as real == c ==> n as real == c
  {
    var below := c.Floor;
    var excess := c - below as real;
    if excess < 0.5 then below
    else if excess > 0.5 then below + 1
    else if below % 2 == 0 then below else below + 1
  }

  /** A whole number of cents within half a cent of `100 x`, read back in dollars. */
  lemma CentsToDollars(x: real, n: int)
    requires x * 100.0 - 0.5 <= n as real <= x * 100.0 + 0.5
    ensures (n as real / 100.0) * 100.0 == n as real
    ensures ((n as real / 100.0) * 100.0).Floor == n
    ensures x - 0.005 <= n as real / 100.0 <= x + 0.005
    ensures n as real == x * 100.0 ==> n as real / 100.0 == x
  {
  }

  /** A price rounded to whole cents, ties to the even cent, as Python's
      two-digit `round` does on an exactly represented amount. */
  function RoundCents(x: real): (r: real)
    ensures (r * 100.0).Floor as real == r * 100.0
    ensures x - 0.005 <= r <= x + 0.005
    ensures (x * 100.0).Floor as real == x * 100.0 ==> r == x
  {
    var n := RoundHalfEven(x * 100.0);
    CentsToDollars(x, n);
    n as real / 100.0
  }

  /** ASCII lower case. */
  function Lower(s: string): (r: string)
    ensures |r| == |s|
    ensures forall i :: 0 <= i < |s| ==> r[i] == (if 'A' <= s[i] <= 'Z' then (s[i] as int + 32) as char else s[i])
  {
    if s == [] then []
    else [if 'A' <= s[0] <= 'Z' then (s[0] as int + 32) as char else s[0]] + Lower(s[1..])
  }

  /** Python's `sub in s` on strings. */
  predicate Contains(s: string, sub: string)
    decreases |s|
  {
    |s| >= |sub| && (s[..|sub|] == sub || Contains(s[1..], sub))
  }

  lemma {:induction false} ContainsAt(s: string, sub: string, i: nat)
    requires i + |sub| <= |s| && s[i..i + |sub|] == sub
    ensures Contains(s, sub)
    decreases i
  {
    if i > 0 {
      assert s[1..][i - 1..i - 1 + |sub|] == s[i..i + |sub|];
      ContainsAt(s[1..], sub, i - 1);
    }
  }

  /** The per-shot price charged for a cloud device, by its ARN. */
  function ShotCost(arn: string): (c: real)
    ensures Contains(Lower(arn), "ionq") ==> c == IonqShotCost
    ensures !Contains(Lower(arn), "ionq") && Contains(Lower(arn), "rigetti") ==> c == RigettiShotCost
    ensures !Contains(Lower(arn), "ionq") && !Contains(Lower(arn), "rigetti") ==> c == OtherShotCost
  {
    var lower := Lower(arn);
    if Contains(lower, "ionq") then IonqShotCost
    else if Contains(lower, "rigetti") then RigettiShotCost
    else OtherShotCost
  }

  // ---------------------------------------------------------------------------
  // Exchanges
  // ---------------------------------------------------------------------------

  function Min3(a: int, b: int, c: int): int {
    Min(a, Min(b, c))
  }

  /** Python's `s[i:j]` for `0 <= i <= j`: clipped to the list. */
  function PySlice<T>(s: seq<T>, i: nat, j: nat): (r: seq<T>)
    requires i <= j
    ensures |r| == Min(j, |s|) - Min(i, |s|)
    ensures forall k :: 0 <= k < |r| ==> r[k] == s[i + k]
  {
    s[Min(i, |s|)..Min(j, |s|)]
  }

  /** What a device reports for the BB84 circuit of one position, run as
      its `k`-th circuit. */
  function Round(outcome: (seq<Gate>, int, nat) -> Bit, bit: int, basis: int, measureBasis: int,
                 shots: int, k: nat): Bit {
    outcome(Bb84Circuit(bit, basis, measureBasis), shots, k)
  }

  /** What a device reports for one BB84 circuit per position of
      `zip(bits, aliceBases, bobBases)`, run in order from call `start`. */
  function Exchange(outcome: (seq<Gate>, int, nat) -> Bit, bits: seq<int>, aliceBases: seq<int>,
                    bobBases: seq<int>, shots: int, start: nat): (results: seq<Bit>)
    ensures |results| == Min3(|bits|, |aliceBases|, |bobBases|)
  {
    seq(Min3(|bits|, |aliceBases|, |bobBases|),
        j requires 0 <= j < Min3(|bits|, |aliceBases|, |bobBases|) =>
          Round(outcome, bits[j], aliceBases[j], bobBases[j], shots, start + j))
  }

  /** Running the positions `i..j` of an exchange on their own, from the call
      where the whole exchange would reach them, gives that part of the whole
      exchange. This is what makes batching invisible. */
  lemma ExchangeBatch(outcome: (seq<Gate>, int, nat) -> Bit, bits: seq<int>, aliceBases: seq<int>,
                      bobBases: seq<int>, shots: int, start: nat, i: nat, j: nat)
    requires i <= j <= |bits|
    ensures var m := Min3(|bits|, |aliceBases|, |bobBases|);
            Exchange(outcome, bits[i..j], PySlice(aliceBases, i, j), PySlice(bobBases, i, j), shots, start + Min(i, m))
            == Exchange(outcome, bits, aliceBases, bobBases, shots, start)[Min(i, m)..Min(j, m)]
  {
    var m := Min3(|bits|, |aliceBases|, |bobBases|);
    var lo, hi := Min(i, m), Min(j, m);
    var part := Exchange(outcome, bits[i..j], PySlice(aliceBases, i, j), PySlice(bobBases, i, j), shots, start + lo);
    var whole := Exchange(outcome, bits, aliceBases, bobBases, shots, start);
    BatchLength(|bits|, |aliceBases|, |bobBases|, i, j);
    ExchangeBatchElements(outcome, bits, aliceBases, bobBases, shots, start, i, j);
    SliceByIndex(part, whole, lo, hi);
  }

  lemma ExchangeBatchElements(outcome: (seq<Gate>, int, nat) -> Bit, bits: seq<int>, aliceBases: seq<int>,
                              bobBases: seq<int>, shots: int, start: nat, i: nat, j: nat)
    requires i <= j <= |bits|
    ensures var part := Exchange(outcome, bits[i..j], PySlice(aliceBases, i, j), PySlice(bobBases, i, j), shots,
                                 start + Min(i, Min3(|bits|, |aliceBases|, |bobBases|)));
            var whole := Exchange(outcome, bits, aliceBases, bobBases, shots, start);
            forall k :: 0 <= k < |part| ==> i + k < |whole| && part[k] == whole[i + k]
  {
    var part := Exchange(outcome, bits[i..j], PySlice(aliceBases, i, j), PySlice(bobBases, i, j), shots,
                         start + Min(i, Min3(|bits|, |aliceBases|, |bobBases|)));
    var whole := Exchange(outcome, bits, aliceBases, bobBases, shots, start);
    forall k | 0 <= k < |part|
      ensures i + k < |whole| && part[k] == whole[i + k]
    {
      ExchangeBatchAt(outcome, bits, aliceBases, bobBases, shots, start, i, j, k);
    }
  }

  lemma SliceByIndex<T>(part: seq<T>, whole: seq<T>, lo: nat, hi: nat)
    requires lo <= hi <= |whole| && |part| == hi - lo
    requires forall k :: 0 <= k < |part| ==> part[k] == whole[lo + k]
    ensures part == whole[lo..hi]
  {
  }

  lemma ExchangeBatchAt(outcome: (seq<Gate>, int, nat) -> Bit, bits: seq<int>, aliceBases: seq<int>,
                        bobBases: seq<int>, shots: int, start: nat, i: nat, j: nat, k: nat)
    requires i <= j <= |bits|
    requires k < |Exchange(outcome, bits[i..j], PySlice(aliceBases, i, j), PySlice(bobBases, i, j), shots, start + i)|
    ensures i + k < |Exchange(outcome, bits, aliceBases, bobBases, shots, start)|
    ensures Exchange(outcome, bits[i..j], PySlice(aliceBases, i, j), PySlice(bobBases, i, j), shots, start + i)[k]
            == Exchange(outcome, bits, aliceBases, bobBases, shots, start)[i + k]
  {
    var sa, sb := PySlice(aliceBases, i, j), PySlice(bobBases, i, j);
    assert bits[i..j][k] == bits[i + k] && sa[k] == aliceBases[i + k] && sb[k] == bobBases[i + k];
  }

  /** One more batch of the loop in `RunBatchQkd`: the results so far, the
      prefix of the whole exchange up to `i`, followed by the batch `i..j`
      are the prefix up to `j`. */
  lemma BatchStep(outcome: (seq<Gate>, int, nat) -> Bit, bits: seq<int>, aliceBases: seq<int>,
                  bobBases: seq<int>, start: nat, i: nat, j: nat, done: seq<Bit>, batch: seq<Bit>)
    requires i <= j <= |bits|
    requires done == Exchange(outcome, bits, aliceBases, bobBases, 1, start)[..Min(i, Min3(|bits|, |aliceBases|, |bobBases|))]
    requires batch == Exchange(outcome, bits[i..j], PySlice(aliceBases, i, j), PySlice(bobBases, i, j), 1, start + |done|)
    ensures done + batch == Exchange(outcome, bits, aliceBases, bobBases, 1, start)[..Min(j, Min3(|bits|, |aliceBases|, |bobBases|))]
  {
    var m := Min3(|bits|, |aliceBases|, |bobBases|);
    ExchangeBatch(outcome, bits, aliceBases, bobBases, 1, start, i, j);
    PrefixExtend(Exchange(outcome, bits, aliceBases, bobBases, 1, start), Min(i, m), Min(j, m));
  }

  lemma PrefixExtend<T>(s: seq<T>, a: nat, b: nat)
    requires a <= b <= |s|
    ensures s[..a] + s[a..b] == s[..b]
  {
  }

  lemma BatchLength(n: nat, na: nat, nb: nat, i: nat, j: nat)
    requires i <= j <= n
    ensures Min3(j - i, Min(j, na) - Min(i, na), Min(j, nb) - Min(i, nb))
            == Min(j, Min3(n, na, nb)) - Min(i, Min3(n, na, nb))
  {
  }

  /** The cloud back end: a device, how it was configured, and what the
      cloud reports about it. */
  class BraketBackend {
    const device: Device
    const deviceArn: Option<string>
    const useLocalSimulator: bool
    const kind: DeviceKind
    const properties: DeviceProperties

    constructor (deviceArn: Option<string>, useLocalSimulator: bool, device: Device, properties: DeviceProperties)
      requires Configure(deviceArn, useLocalSimulator).Ok?
      ensures this.deviceArn == deviceArn && this.useLocalSimulator == useLocalSimulator
      ensures this.device == device && this.properties == properties
      ensures kind == Configure(deviceArn, useLocalSimulator).value
      ensures Valid()
    {
      this.deviceArn := deviceArn;
      this.useLocalSimulator := useLocalSimulator;
      this.device := device;
      this.properties := properties;
      kind := Configure(deviceArn, useLocalSimulator).value;
    }

    ghost predicate Valid() {
      Configure(deviceArn, useLocalSimulator) == Ok(kind)
    }

    /** The device description: fixed for the simulator, reported by the
        cloud otherwise. */
    function GetDeviceInfo(): (info: DeviceInfo)
      ensures useLocalSimulator ==> info.name == "Local Simulator" && info.deviceType == "simulator"
                                    && info.provider == "Amazon Braket" && info.status == None
                                    && info.arn == None
      ensures !useLocalSimulator ==> info.name == properties.name && info.deviceType == properties.deviceType
                                     && info.provider == properties.provider
                                     && info.status == Some(properties.status) && info.arn == deviceArn
    {
      if useLocalSimulator then DeviceInfo("Local Simulator", "simulator", "Amazon Braket", None, None)
      else DeviceInfo(properties.name, properties.deviceType, properties.provider, Some(properties.status), deviceArn)
    }

    /** The price of running `nCircuits` circuits: nothing on the simulator,
        a per-task price plus a device-dependent per-shot price otherwise. */
    function EstimateCost(nCircuits: int): (e: CostEstimate)
      requires Valid()
      ensures e.currency == "USD"
      ensures e.Free? <==> useLocalSimulator
      ensures e.Free? ==> e.totalCost == 0.0
      ensures e.Priced? ==> e.costPerTask == TaskCost && e.costPerShot == ShotCost(kind.arn)
                            && e.totalCost == RoundCents((TaskCost + ShotCost(kind.arn)) * nCircuits as real)
                            && e.nCircuits == nCircuits
    {
      if useLocalSimulator then Free(0.0, "USD")
      else
        Priced(TaskCost, ShotCost(kind.arn), RoundCents((TaskCost + ShotCost(kind.arn)) * nCircuits as real),
               "USD", nCircuits)
    }

    /** One BB84 circuit per position of the three lists (up to the shortest),
        each run once on the device, in order. */
    method RunQkdExchange(aliceBits: seq<int>, aliceBases: seq<int>, bobBases: seq<int>, shots: int)
      returns (results: seq<Bit>)
      modifies device
      ensures results == Exchange(device.outcome, aliceBits, aliceBases, bobBases, shots, old(device.calls))
      ensures device.calls == old(device.calls) + |results|
    {
      var n := Min3(|aliceBits|, |aliceBases|, |bobBases|);
      ghost var start := device.calls;
      results := [];
      for j := 0 to n
        invariant device.calls == start + j
        invariant results == Exchange(device.outcome, aliceBits, aliceBases, bobBases, shots, start)[..j]
      {
        var circuit := Bb84Circuit(aliceBits[j], aliceBases[j], bobBases[j]);
        var measured := device.Run(circuit, shots);
        results := results + [measured];
      }
    }

    /** The exchange run in slices of `batchSize` positions of `aliceBits`,
        one shot per circuit. A zero batch size is an error; a negative one
        runs nothing. */
    method RunBatchQkd(aliceBits: seq<int>, aliceBases: seq<int>, bobBases: seq<int>, batchSize: int)
      returns (r: Result<seq<Bit>, BraketError>)
      modifies device
      ensures r.Err? <==> batchSize == 0
      ensures r.Err? ==> r.error == ZeroBatchSize && device.calls == old(device.calls)
      ensures batchSize < 0 ==> r == Ok([]) && device.calls == old(device.calls)
      ensures batchSize > 0 ==>
                r == Ok(Exchange(device.outcome, aliceBits, aliceBases, bobBases, 1, old(device.calls)))
                && device.calls == old(device.calls) + |r.value|
    {
      if batchSize == 0 {
        return Err(ZeroBatchSize);
      }
      if batchSize < 0 {
        return Ok([]);
      }
      ghost var start := device.calls;
      ghost var whole := Exchange(device.outcome, aliceBits, aliceBases, bobBases, 1, start);
      ghost var m := |whole|;
      var nBits := |aliceBits|;
      var allResults: seq<Bit> := [];
      var i := 0;
      while i < nBits
        invariant 0 <= i
        invariant allResults == whole[..Min(i, m)]
        invariant device.calls == start + |allResults|
        decreases nBits - i
      {
        var endIdx := Min(i + batchSize, nBits);
        var batchResults := RunQkdExchange(aliceBits[i..endIdx], PySlice(aliceBases, i, endIdx),
                                           PySlice(bobBases, i, endIdx), 1);
        BatchStep(device.outcome, aliceBits, aliceBases, bobBases, start, i, endIdx, allResults, batchResults);
        allResults := allResults + batchResults;
        i := i + batchSize;
      }
      assert allResults == whole;
      r := Ok(allResults);
    }
  }

  // ---------------------------------------------------------------------------
  // BB84 on a Braket device
  // ---------------------------------------------------------------------------

  /** The number of positions where the two base lists agree. */
  function Matches(aliceBases: seq<int>, bobBases: seq<int>): nat
    requires |aliceBases| == |bobBases|
    decreases |aliceBases|
  {
    if aliceBases == [] then 0
    else
      var n := |aliceBases| - 1;
      Matches(aliceBases[..n], bobBases[..n]) + (if aliceBases[n] == bobBases[n] then 1 else 0)
  }

  /** The entries of `s` at the positions where the two base lists agree. */
  function Sift<T>(s: seq<T>, aliceBases: seq<int>, bobBases: seq<int>): (r: seq<T>)
    requires |s| == |aliceBases| == |bobBases|
    ensures |r| == Matches(aliceBases, bobBases) <= |s|
    decreases |s|
  {
    if s == [] then []
    else
      var n := |s| - 1;
      Sift(s[..n], aliceBases[..n], bobBases[..n]) + (if aliceBases[n] == bobBases[n] then [s[n]] else [])
  }

  /** Sifting two lists through the same bases keeps the same number of
      entries, and keeps them equal where the lists agree on matching bases. */
  lemma {:induction false} SiftAgrees<T>(a: seq<T>, b: seq<T>, aliceBases: seq<int>, bobBases: seq<int>)
    requires |a| == |b| == |aliceBases| == |bobBases|
    ensures (forall j :: 0 <= j < |a| && aliceBases[j] == bobBases[j] ==> a[j] == b[j])
            ==> Sift(a, aliceBases, bobBases) == Sift(b, aliceBases, bobBases)
    decreases |a|
  {
    if a != [] {
      var n := |a| - 1;
      SiftAgrees(a[..n], b[..n], aliceBases[..n], bobBases[..n]);
    }
  }

  /** Positions `j < n` where `a` and `b` differ. */
  function Mismatches(a: seq<Bit>, b: seq<Bit>, n: nat): (errors: nat)
    requires n <= |a| && n <= |b|
    ensures errors <= n
    ensures a[..n] == b[..n] ==> errors == 0
  {
    if n == 0 then 0
    else
      assert a[..n - 1] == a[..n][..n - 1] && b[..n - 1] == b[..n][..n - 1];
      Mismatches(a, b, n - 1) + (if a[n - 1] != b[n - 1] then 1 else 0)
  }

  datatype Bb84Report = Bb84Report(finalKey: seq<Bit>, keyLength: nat, errorRate: real,
                                   siftedBits: nat, rawBits: nat, device: string)

  /** The classical half of BB84 on the device's measurements: sift, estimate
      the error rate on the first half of the sifted bits, and keep the
      second half as the key when the rate is within `errorThreshold`. */
  function Bb84(aliceBits: seq<Bit>, aliceBases: seq<Bit>, bobBits: seq<Bit>, bobBases: seq<Bit>,
                errorThreshold: real, deviceName: string): (r: Result<Option<Bb84Report>, BraketError>)
    requires |aliceBits| == |aliceBases| == |bobBits| == |bobBases|
    ensures r.Err? ==> r.error == DivisionByZero
    ensures var sifted := Sift(aliceBits, aliceBases, bobBases);
            r == Err(DivisionByZero) <==> |sifted| == 1
    ensures var sifted := Sift(aliceBits, aliceBases, bobBases);
            r == Ok(None) <==>
              |sifted| == 0 ||
              (|sifted| >= 2 && SampleErrorRate(sifted, Sift(bobBits, aliceBases, bobBases)) > errorThreshold)
    ensures var sifted := Sift(aliceBits, aliceBases, bobBases);
            r.Ok? && r.value.Some? ==>
              && r.value.value.finalKey == sifted[|sifted| / 2..]
              && r.value.value.keyLength == |sifted| - |sifted| / 2
              && r.value.value.siftedBits == |sifted|
              && r.value.value.rawBits == |aliceBits|
              && r.value.value.device == deviceName
              && |sifted| >= 2
              && r.value.value.errorRate == SampleErrorRate(sifted, Sift(bobBits, aliceBases, bobBases))
              && 0.0 <= r.value.value.errorRate <= errorThreshold
  {
    var siftedAlice := Sift(aliceBits, aliceBases, bobBases);
    var siftedBob := Sift(bobBits, aliceBases, bobBases);
    if |siftedAlice| == 0 then Ok(None)
    else if |siftedAlice| / 2 == 0 then Err(DivisionByZero)
    else
      var errorRate := SampleErrorRate(siftedAlice, siftedBob);
      if errorRate > errorThreshold then Ok(None)
      else
        var finalKey := siftedAlice[|siftedAlice| / 2..];
        Ok(Some(Bb84Report(finalKey, |finalKey|, errorRate, |siftedAlice|, |aliceBits|, deviceName)))
  }

  lemma RatioAtMostOne(errors: nat, size: nat)
    requires 0 < size && errors <= size
    ensures 0.0 <= errors as real / size as real <= 1.0
  {
    assert errors as real / size as real * size as real == errors as real;
  }

  /** The error rate on the first half of the sifted bits (rounded down). */
  function SampleErrorRate(siftedAlice: seq<Bit>, siftedBob: seq<Bit>): (rate: real)
    requires |siftedAlice| == |siftedBob| >= 2
    ensures 0.0 <= rate <= 1.0
    ensures siftedAlice[..|siftedAlice| / 2] == siftedBob[..|siftedAlice| / 2] ==> rate == 0.0
  {
    var sampleSize := |siftedAlice| / 2;
    var errors := Mismatches(siftedAlice, siftedBob, sampleSize);
    RatioAtMostOne(errors, sampleSize);
    errors as real / sampleSize as real
  }

  /** On an ideal device Bob reads Alice's bit wherever their bases match. */
  lemma IdealExchangeAgrees(outcome: (seq<Gate>, int, nat) -> Bit, aliceBits: seq<Bit>, aliceBases: seq<Bit>,
                            bobBases: seq<Bit>, start: nat)
    requires Ideal(outcome)
    requires |aliceBits| == |aliceBases| == |bobBases|
    ensures var bob := Exchange(outcome, aliceBits, aliceBases, bobBases, 1, start);
            |bob| == |aliceBits| &&
            forall j :: 0 <= j < |aliceBits| && aliceBases[j] == bobBases[j] ==> bob[j] == aliceBits[j]
  {
    var bob := Exchange(outcome, aliceBits, aliceBases, bobBases, 1, start);
    forall j | 0 <= j < |aliceBits| && aliceBases[j] == bobBases[j]
      ensures bob[j] == aliceBits[j]
    {
      CircuitMeasuresEncodedBit(aliceBits[j], aliceBases[j], bobBases[j]);
    }
  }

  /** When Bob's bits agree with Alice's wherever their bases match and at
      least two bits survive sifting, BB84 yields a key: the sampled error
      rate is zero, and the key is the second half of Alice's sifted bits. */
  lemma AgreeingRunYieldsKey(aliceBits: seq<Bit>, aliceBases: seq<Bit>, bobBits: seq<Bit>, bobBases: seq<Bit>,
                             errorThreshold: real, deviceName: string)
    requires |aliceBits| == |aliceBases| == |bobBits| == |bobBases|
    requires forall j :: 0 <= j < |aliceBits| && aliceBases[j] == bobBases[j] ==> bobBits[j] == aliceBits[j]
    requires |Sift(aliceBits, aliceBases, bobBases)| >= 2
    requires errorThreshold >= 0.0
    ensures var sifted := Sift(aliceBits, aliceBases, bobBases);
            Bb84(aliceBits, aliceBases, bobBits, bobBases, errorThreshold, deviceName)
              == Ok(Some(Bb84Report(sifted[|sifted| / 2..], |sifted| - |sifted| / 2, 0.0,
                                    |sifted|, |aliceBits|, deviceName)))
  {
    SiftAgrees(aliceBits, bobBits, aliceBases, bobBases);
    var sifted := Sift(aliceBits, aliceBases, bobBases);
    assert SampleErrorRate(sifted, Sift(bobBits, aliceBases, bobBases)) == 0.0;
  }

  /** BB84 on an ideal device with at least two sifted bits always yields a
      key, whatever the threshold (as long as it is not negative). */
  lemma IdealRunYieldsKey(outcome: (seq<Gate>, int, nat) -> Bit, aliceBits: seq<Bit>, aliceBases: seq<Bit>,
                          bobBases: seq<Bit>, start: nat, errorThreshold: real, deviceName: string)
    requires Ideal(outcome)
    requires |aliceBits| == |aliceBases| == |bobBases|
    requires |Sift(aliceBits, aliceBases, bobBases)| >= 2
    requires errorThreshold >= 0.0
    ensures var bob := Exchange(outcome, aliceBits, aliceBases, bobBases, 1, start);
            var sifted := Sift(aliceBits, aliceBases, bobBases);
            |bob| == |aliceBits| &&
            Bb84(aliceBits, aliceBases, bob, bobBases, errorThreshold, deviceName)
              == Ok(Some(Bb84Report(sifted[|sifted| / 2..], |sifted| - |sifted| / 2, 0.0,
                                    |sifted|, |aliceBits|, deviceName)))
  {
    IdealExchangeAgrees(outcome, aliceBits, aliceBases, bobBases, start);
    AgreeingRunYieldsKey(aliceBits, aliceBases, Exchange(outcome, aliceBits, aliceBases, bobBases, 1, start),
                         bobBases, errorThreshold, deviceName);
  }

  /** Extending the sifted prefix by one position keeps that position's
      entry exactly when its bases agree. */
  lemma SiftStep<T>(s: seq<T>, aliceBases: seq<int>, bobBases: seq<int>, j: nat)
    requires |s| == |aliceBases| == |bobBases| && j < |s|
    ensures Sift(s[..j + 1], aliceBases[..j + 1], bobBases[..j + 1])
            == Sift(s[..j], aliceBases[..j], bobBases[..j]) + (if aliceBases[j] == bobBases[j] then [s[j]] else [])
  {
    assert s[..j + 1][..j] == s[..j];
    assert aliceBases[..j + 1][..j] == aliceBases[..j] && bobBases[..j + 1][..j] == bobBases[..j];
  }

  /** The sifting loop: Alice's and Bob's bits at the positions where their
      bases agree, in order. */
  method SiftPairs(aliceBits: seq<Bit>, aliceBases: seq<Bit>, bobBits: seq<Bit>, bobBases: seq<Bit>)
    returns (siftedAlice: seq<Bit>, siftedBob: seq<Bit>)
    requires |aliceBits| == |aliceBases| == |bobBits| == |bobBases|
    ensures siftedAlice == Sift(aliceBits, aliceBases, bobBases)
    ensures siftedBob == Sift(bobBits, aliceBases, bobBases)
  {
    siftedAlice, siftedBob := [], [];
    for j := 0 to |aliceBits|
      invariant siftedAlice == Sift(aliceBits[..j], aliceBases[..j], bobBases[..j])
      invariant siftedBob == Sift(bobBits[..j], aliceBases[..j], bobBases[..j])
    {
      SiftStep(aliceBits, aliceBases, bobBases, j);
      SiftStep(bobBits, aliceBases, bobBases, j);
      if aliceBases[j] == bobBases[j] {
        siftedAlice := siftedAlice + [aliceBits[j]];
        siftedBob := siftedBob + [bobBits[j]];
      }
    }
    assert aliceBits[..|aliceBits|] == aliceBits && bobBits[..|aliceBits|] == bobBits;
    assert aliceBases[..|aliceBits|] == aliceBases && bobBases[..|aliceBits|] == bobBases;
  }

  /** The BB84 driver: a back end and the protocol run on it. */
  class BraketQkd {
    const backend: BraketBackend

    constructor (backend: BraketBackend)
      ensures this.backend == backend
    {
      this.backend := backend;
    }

    /** One BB84 run over `nBits` qubits whose bits and bases were drawn
        beforehand: the exchange in batches of 100, then the sifting loop
        and the post-processing. */
    method RunBb84(nBits: int, errorThreshold: real, aliceBits: seq<Bit>, aliceBases: seq<Bit>, bobBases: seq<Bit>)
      returns (r: Result<Option<Bb84Report>, BraketError>)
      requires nBits >= 0 ==> |aliceBits| == |aliceBases| == |bobBases| == nBits
      modifies backend.device
      ensures nBits < 0 ==> r == Err(NegativeSize) && backend.device.calls == old(backend.device.calls)
      ensures nBits >= 0 ==>
                var bob := Exchange(backend.device.outcome, aliceBits, aliceBases, bobBases, 1, old(backend.device.calls));
                |bob| == nBits
                && r == Bb84(aliceBits, aliceBases, bob, bobBases, errorThreshold, backend.GetDeviceInfo().name)
                && backend.device.calls == old(backend.device.calls) + nBits
    {
      if nBits < 0 {
        return Err(NegativeSize);
      }
      var exchanged := backend.RunBatchQkd(aliceBits, aliceBases, bobBases, 100);
      var bobBits := exchanged.value;
      var siftedAlice, siftedBob := SiftPairs(aliceBits, aliceBases, bobBits, bobBases);
      if |siftedAlice| == 0 {
        return Ok(None);
      }
      var sampleSize := |siftedAlice| / 2;
      if sampleSize == 0 {
        return Err(DivisionByZero);
      }
      var errorRate := SampleErrorRate(siftedAlice, siftedBob);
      if errorRate > errorThreshold {
        return Ok(None);
      }
      var finalKey := siftedAlice[sampleSize..];
      r := Ok(Some(Bb84Report(finalKey, |finalKey|, errorRate, |siftedAlice|, nBits, backend.GetDeviceInfo().name)));
    }
  }
}
