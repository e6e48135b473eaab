/** The three privacy modes of a transaction: transparent (everything
    visible), private (addresses and amounts hidden, encrypted output
    blobs) and accountable (amount hidden behind a commitment, with a
    tracking key that lets an auditor see the transaction).

    SHA-256 (with the UTF-8 encoding in front of it) and the hash of a
    transaction's sorted-key JSON form are parameters: `sha256` maps the text
    that is hashed to the digest bytes and `digestHex` maps the fields that
    are hashed to the hexadecimal digest. */
module PrivacyModes {
  import opened Wrappers
  import opened Bits

  datatype PrivacyMode = Transparent | Private | Accountable

  /** The mode argument a caller passes: one of the three modes, or a value
      the framework does not recognise. */
  datatype ModeArg = Known(mode: PrivacyMode) | Unknown(repr: string)

  datatype TxoType = PublicTxo | ValueHidden | PrivateTxo

  function ModeValue(m: PrivacyMode): string {
    match m
    case Transparent => "transparent"
    case Private => "private"
    case Accountable => "accountable"
  }

  function TxoValue(t: TxoType): string {
    match t
    case PublicTxo => "public"
    case ValueHidden => "value_hidden"
    case PrivateTxo => "private"
  }

  datatype TransactionOutput = TransactionOutput(
    txoType: TxoType,
    address: Option<string>,
    amount: Option<int>,
    commitment: Option<seq<Byte>>,
    encryptedData: Option<seq<Byte>>)

  datatype Transaction = Transaction(
    txType: string,
    privacyMode: PrivacyMode,
    inputs: seq<string>,
    outputs: seq<TransactionOutput>,
    trackingKey: Option<string>,
    timestamp: Option<int>,
    signature: Option<seq<Byte>>)

  // ---------------------------------------------------------------------------
  // Serialisation and hashing
  // ---------------------------------------------------------------------------

  /** Python's `bytes.hex()`: two lower-case digits per byte. */
  function Hex(bytes: seq<Byte>): (h: string)
    ensures |h| == 2 * |bytes|
  {
    if bytes == [] then ""
    else [HexDigits[bytes[0] / 16], HexDigits[bytes[0] % 16]] + Hex(bytes[1..])
  }

  /** Different byte strings have different hexadecimal forms. */
  lemma {:induction false} HexInjective(a: seq<Byte>, b: seq<Byte>)
    requires Hex(a) == Hex(b)
    ensures a == b
    decreases |a|
  {
    if a != [] {
      assert |b| == |a|;
      assert Hex(a)[0] == HexDigits[a[0] / 16] && Hex(a)[1] == HexDigits[a[0] % 16];
      assert Hex(b)[0] == HexDigits[b[0] / 16] && Hex(b)[1] == HexDigits[b[0] % 16];
      HexDigitsDistinct(a[0] / 16, b[0] / 16);
      HexDigitsDistinct(a[0] % 16, b[0] % 16);
      assert Hex(a)[2..] == Hex(a[1..]) && Hex(b)[2..] == Hex(b[1..]);
      HexInjective(a[1..], b[1..]);
      assert a == [a[0]] + a[1..] && b == [b[0]] + b[1..];
    }
  }

  /** `x.hex() if x else None`: absent and empty byte strings both become
      None. */
  function HexOrNone(x: Option<seq<Byte>>): (h: Option<string>)
    ensures h == None <==> x == None || x == Some([])
    ensures h.Some? ==> h.value == Hex(x.value)
  {
    if x.Some? && x.value != [] then Some(Hex(x.value)) else None
  }

  datatype OutputDict = OutputDict(txoType: string, address: Option<string>, amount: Option<int>,
                                   commitment: Option<string>, encryptedData: Option<string>)

  /** `to_dict`: byte fields as hexadecimal text, absent or empty ones as None. */
  function OutputToDict(o: TransactionOutput): (d: OutputDict)
    ensures d.txoType == TxoValue(o.txoType) && d.address == o.address && d.amount == o.amount
    ensures d.commitment == None <==> o.commitment == None || o.commitment == Some([])
    ensures d.commitment.Some? ==> d.commitment.value == Hex(o.commitment.value)
    ensures d.encryptedData == None <==> o.encryptedData == None || o.encryptedData == Some([])
    ensures d.encryptedData.Some? ==> d.encryptedData.value == Hex(o.encryptedData.value)
  {
    OutputDict(TxoValue(o.txoType), o.address, o.amount, HexOrNone(o.commitment), HexOrNone(o.encryptedData))
  }

  /** No byte field is present but empty. */
  predicate NoEmptyBytes(o: TransactionOutput) {
    o.commitment != Some([]) && o.encryptedData != Some([])
  }

  /** The serialised output determines the output, as long as no byte field
      is present but empty. */
  lemma OutputToDictInjective(o1: TransactionOutput, o2: TransactionOutput)
    requires NoEmptyBytes(o1) && NoEmptyBytes(o2)
    requires OutputToDict(o1) == OutputToDict(o2)
    ensures o1 == o2
  {
    assert o1.txoType == o2.txoType by {
      assert TxoValue(o1.txoType) == TxoValue(o2.txoType);
    }
    if o1.commitment.Some? {
      HexInjective(o1.commitment.value, o2.commitment.value);
    }
    if o1.encryptedData.Some? {
      HexInjective(o1.encryptedData.value, o2.encryptedData.value);
    }
  }

  /** An empty commitment serialises, and so hashes, as no commitment. */
  lemma EmptyCommitmentSerialisesAsNone(o: TransactionOutput)
    ensures OutputToDict(o.(commitment := Some([]))) == OutputToDict(o.(commitment := None))
  {
  }

  /** The fields a transaction hash covers: everything but the signature. */
  datatype HashedFields = HashedFields(txType: string, privacyMode: string, inputs: seq<string>,
                                       outputs: seq<OutputDict>, trackingKey: Option<string>,
                                       timestamp: Option<int>)

  function Hashed(tx: Transaction): (f: HashedFields)
    ensures |f.outputs| == |tx.outputs|
    ensures forall i :: 0 <= i < |tx.outputs| ==> f.outputs[i] == OutputToDict(tx.outputs[i])
  {
    HashedFields(tx.txType, ModeValue(tx.privacyMode), tx.inputs,
                 seq(|tx.outputs|, i requires 0 <= i < |tx.outputs| => OutputToDict(tx.outputs[i])),
                 tx.trackingKey, tx.timestamp)
  }

  /** `compute_hash`: the digest of every field but the signature. */
  function ComputeHash(tx: Transaction, digestHex: HashedFields -> string): (h: string)
    ensures h == digestHex(Hashed(tx.(signature := None)))
  {
    digestHex(Hashed(tx))
  }

  /** The hash does not cover the signature: signing a transaction does not
      change its hash. */
  lemma ComputeHashIgnoresSignature(tx: Transaction, signature: Option<seq<Byte>>, digestHex: HashedFields -> string)
    ensures ComputeHash(tx.(signature := signature), digestHex) == ComputeHash(tx, digestHex)
  {
  }

  /** The hash covers everything else: two transactions whose hashed fields
      coincide agree on type, mode, inputs, tracking key, timestamp and
      (byte fields being non-empty) every output. */
  lemma HashedFieldsDetermineTransaction(tx1: Transaction, tx2: Transaction)
    requires Hashed(tx1) == Hashed(tx2)
    requires forall i :: 0 <= i < |tx1.outputs| ==> NoEmptyBytes(tx1.outputs[i])
    requires forall i :: 0 <= i < |tx2.outputs| ==> NoEmptyBytes(tx2.outputs[i])
    ensures tx1.(signature := tx2.signature) == tx2
  {
    assert ModeValue(tx1.privacyMode) == ModeValue(tx2.privacyMode);
    assert |tx1.outputs| == |tx2.outputs|;
    forall i | 0 <= i < |tx1.outputs|
      ensures tx1.outputs[i] == tx2.outputs[i]
    {
      assert Hashed(tx1).outputs[i] == Hashed(tx2).outputs[i];
      OutputToDictInjective(tx1.outputs[i], tx2.outputs[i]);
    }
  }

  datatype TransactionDict = TransactionDict(
    hash: string, txType: string, privacyMode: string, inputs: seq<string>, outputs: seq<OutputDict>,
    trackingKey: Option<string>, timestamp: Option<int>, signature: Option<string>)

  /** The serialised transaction: its hashed fields, their hash, and the
      signature in hexadecimal. */
  function ToDict(tx: Transaction, digestHex: HashedFields -> string): (d: TransactionDict)
    ensures d.hash == ComputeHash(tx, digestHex)
    ensures d.signature == HexOrNone(tx.signature)
    ensures HashedFields(d.txType, d.privacyMode, d.inputs, d.outputs, d.trackingKey, d.timestamp) == Hashed(tx)
  {
    var f := Hashed(tx);
    TransactionDict(ComputeHash(tx, digestHex), f.txType, f.privacyMode, f.inputs, f.outputs,
                    f.trackingKey, f.timestamp, HexOrNone(tx.signature))
  }

  // ---------------------------------------------------------------------------
  // Visibility
  // ---------------------------------------------------------------------------

  /** What each output type shows: a public output shows address and amount;
      a value-hidden one shows the address and a commitment but no amount;
      a private one shows neither address nor amount and carries encrypted
      data. */
  predicate Visibility(o: TransactionOutput) {
    match o.txoType
    case PublicTxo => o.address.Some? && o.amount.Some?
    case ValueHidden => o.address.Some? && o.amount == None && o.commitment.Some?
    case PrivateTxo => o.address == None && o.amount == None && o.encryptedData.Some?
  }

  function OutputTypeOf(m: PrivacyMode): TxoType {
    match m
    case Transparent => PublicTxo
    case Private => PrivateTxo
    case Accountable => ValueHidden
  }

  /** Every output has the type its transaction's mode calls for and shows
      only what that type allows. */
  predicate WellFormed(tx: Transaction) {
    forall i :: 0 <= i < |tx.outputs| ==>
      tx.outputs[i].txoType == OutputTypeOf(tx.privacyMode) && Visibility(tx.outputs[i])
  }

  // ---------------------------------------------------------------------------
  // Transactions
  // ---------------------------------------------------------------------------

  /** A transparent transaction: one public output with the recipient and
      the amount in the clear. The sender is not recorded. */
  function CreateTransparent(sender: string, recipient: string, amount: int, inputs: seq<string>): (tx: Transaction)
    ensures tx.txType == "public" && tx.privacyMode == Transparent && tx.inputs == inputs
    ensures tx.outputs == [TransactionOutput(PublicTxo, Some(recipient), Some(amount), None, None)]
    ensures tx.trackingKey == None && tx.timestamp == None && tx.signature == None
    ensures WellFormed(tx)
  {
    Transaction("public", Transparent, inputs,
                [TransactionOutput(PublicTxo, Some(recipient), Some(amount), None, None)], None, None, None)
  }

  /** A private transaction: one private output per encrypted blob, in
      order, signed with the ring signature if one is given. */
  function CreatePrivate(inputs: seq<string>, encryptedOutputs: seq<seq<Byte>>,
                         ringSignature: Option<seq<Byte>>): (tx: Transaction)
    ensures tx.txType == "private" && tx.privacyMode == Private && tx.inputs == inputs
    ensures |tx.outputs| == |encryptedOutputs|
    ensures forall i :: 0 <= i < |encryptedOutputs| ==>
              tx.outputs[i] == TransactionOutput(PrivateTxo, None, None, None, Some(encryptedOutputs[i]))
    ensures tx.trackingKey == None && tx.timestamp == None && tx.signature == ringSignature
    ensures WellFormed(tx)
  {
    Transaction("private", Private, inputs,
                seq(|encryptedOutputs|, i requires 0 <= i < |encryptedOutputs| =>
                      TransactionOutput(PrivateTxo, None, None, None, Some(encryptedOutputs[i]))),
                None, None, ringSignature)
  }

  /** An accountable transaction: one value-hidden output with the recipient
      and the commitment, and the auditor's tracking key (possibly None). */
  function CreateAccountable(inputs: seq<string>, recipient: string, amount: int,
                             trackingPublicKey: Option<string>, commitment: seq<Byte>): (tx: Transaction)
    ensures tx.txType == "accountable" && tx.privacyMode == Accountable && tx.inputs == inputs
    ensures tx.outputs == [TransactionOutput(ValueHidden, Some(recipient), None, Some(commitment), None)]
    ensures tx.trackingKey == trackingPublicKey && tx.timestamp == None && tx.signature == None
    ensures WellFormed(tx)
  {
    Transaction("accountable", Accountable, inputs,
                [TransactionOutput(ValueHidden, Some(recipient), None, Some(commitment), None)],
                trackingPublicKey, None, None)
  }

  // ---------------------------------------------------------------------------
  // The framework
  // ---------------------------------------------------------------------------

  function DigitChar(d: nat): (c: char)
    requires d < 10
    ensures '0' <= c <= '9'
  {
    ('0' as int + d) as char
  }

  /** Python's `str(n)` for a non-negative integer. */
  function NatDecimal(n: nat): (s: string)
    ensures |s| >= 1 && (|s| == 1 <==> n < 10)
    ensures forall i :: 0 <= i < |s| ==> '0' <= s[i] <= '9'
  {
    if n < 10 then [DigitChar(n)] else NatDecimal(n / 10) + [DigitChar(n % 10)]
  }

  /** Python's `str(n)`. */
  function Decimal(n: int): string {
    if n < 0 then "-" + NatDecimal(-n) else NatDecimal(n)
  }

  lemma {:induction false} NatDecimalInjective(a: nat, b: nat)
    requires NatDecimal(a) == NatDecimal(b)
    ensures a == b
    decreases a
  {
    if a >= 10 {
      var sa, sb := NatDecimal(a), NatDecimal(b);
      assert sa[|sa| - 1] == DigitChar(a % 10) && sb[|sb| - 1] == DigitChar(b % 10);
      assert sa[..|sa| - 1] == NatDecimal(a / 10) && sb[..|sb| - 1] == NatDecimal(b / 10);
      NatDecimalInjective(a / 10, b / 10);
    }
  }

  lemma DecimalSign(n: int)
    ensures |Decimal(n)| >= 1 && (Decimal(n)[0] == '-' <==> n < 0)
  {
    if n >= 0 {
      assert '0' <= NatDecimal(n)[0] <= '9';
    }
  }

  /** Different amounts have different decimal forms. */
  lemma DecimalInjective(a: int, b: int)
    requires Decimal(a) == Decimal(b)
    ensures a == b
  {
    DecimalSign(a);
    DecimalSign(b);
    if a < 0 {
      assert Decimal(a)[1..] == NatDecimal(-a) && Decimal(b)[1..] == NatDecimal(-b);
      NatDecimalInjective(-a, -b);
    } else {
      NatDecimalInjective(a, b);
    }
  }

  /** Every character of `str(n)` is a digit or the minus sign. */
  lemma DecimalChars(n: int, i: nat)
    requires i < |Decimal(n)|
    ensures Decimal(n)[i] == '-' || '0' <= Decimal(n)[i] <= '9'
  {
    if n < 0 {
      if i > 0 {
        assert Decimal(n)[i] == NatDecimal(-n)[i - 1];
      }
    }
  }

  /** The text `recipient:amount` that the placeholder encryption hashes. */
  function OutputText(recipient: string, amount: int): (t: string)
    ensures |t| > |recipient| && t[..|recipient|] == recipient && t[|recipient|] == ':'
    ensures t[|recipient| + 1..] == Decimal(amount)
  {
    recipient + ":" + Decimal(amount)
  }

  /** The amount's decimal form holds no colon, so the last colon of the text
      separates the recipient from the amount, and the text determines both. */
  lemma OutputTextInjective(r1: string, a1: int, r2: string, a2: int)
    requires OutputText(r1, a1) == OutputText(r2, a2)
    ensures r1 == r2 && a1 == a2
  {
    if |r1| < |r2| {
      DecimalChars(a1, |r2| - |r1| - 1);
    } else if |r2| < |r1| {
      DecimalChars(a2, |r1| - |r2| - 1);
    } else {
      DecimalInjective(a1, a2);
    }
  }

  lemma OutputTextDetermines(recipient: string, amount: int)
    ensures forall r, a :: OutputText(r, a) == OutputText(recipient, amount) ==> r == recipient && a == amount
  {
    forall r, a | OutputText(r, a) == OutputText(recipient, amount)
      ensures r == recipient && a == amount
    {
      OutputTextInjective(r, a, recipient, amount);
    }
  }

  /** The placeholder output encryption: the digest of a text from which the
      recipient and the amount can both be read back. */
  function EncryptOutput(recipient: string, amount: int, sha256: string -> seq<Byte>): (e: seq<Byte>)
    ensures e == sha256(OutputText(recipient, amount))
    ensures forall r, a :: OutputText(r, a) == OutputText(recipient, amount) ==> r == recipient && a == amount
  {
    OutputTextDetermines(recipient, amount);
    sha256(OutputText(recipient, amount))
  }

  /** The placeholder amount commitment: the digest of the amount's decimal
      form, which no other amount shares. */
  function CreateCommitment(amount: int, sha256: string -> seq<Byte>): (c: seq<Byte>)
    ensures c == sha256(Decimal(amount))
    ensures forall other :: Decimal(other) == Decimal(amount) ==> other == amount
  {
    DecimalDetermines(amount);
    sha256(Decimal(amount))
  }

  lemma DecimalDetermines(amount: int)
    ensures forall other :: Decimal(other) == Decimal(amount) ==> other == amount
  {
    forall other | Decimal(other) == Decimal(amount)
      ensures other == amount
    {
      DecimalInjective(other, amount);
    }
  }

  /** A commitment is a function of the amount alone, and distinct amounts
      are hashed from distinct texts. */
  lemma CommitmentDependsOnAmountOnly(a1: int, a2: int, sha256: string -> seq<Byte>)
    ensures a1 == a2 ==> CreateCommitment(a1, sha256) == CreateCommitment(a2, sha256)
    ensures a1 != a2 ==> Decimal(a1) != Decimal(a2)
  {
    if Decimal(a1) == Decimal(a2) {
      DecimalInjective(a1, a2);
    }
  }

  datatype PrivacyError = UnknownMode(repr: string)

  /** A transaction in the requested mode; an unrecognised mode is an error. */
  function CreateTransaction(mode: ModeArg, sender: string, recipient: string, amount: int,
                             inputs: seq<string>, trackingKey: Option<string>,
                             sha256: string -> seq<Byte>): (r: Result<Transaction, PrivacyError>)
    ensures r.Err? <==> mode.Unknown?
    ensures r.Err? ==> r.error == UnknownMode(mode.repr)
    ensures r.Ok? ==> r.value.privacyMode == mode.mode && r.value.inputs == inputs && WellFormed(r.value)
    ensures mode == Known(Transparent) ==> r == Ok(CreateTransparent(sender, recipient, amount, inputs))
    ensures mode == Known(Private) ==>
              r == Ok(CreatePrivate(inputs, [EncryptOutput(recipient, amount, sha256)], None))
    ensures mode == Known(Accountable) ==>
              r == Ok(CreateAccountable(inputs, recipient, amount, trackingKey, CreateCommitment(amount, sha256)))
  {
    match mode
    case Known(Transparent) => Ok(CreateTransparent(sender, recipient, amount, inputs))
    case Known(Private) => Ok(CreatePrivate(inputs, [EncryptOutput(recipient, amount, sha256)], None))
    case Known(Accountable) =>
      Ok(CreateAccountable(inputs, recipient, amount, trackingKey, CreateCommitment(amount, sha256)))
    case Unknown(repr) => Err(UnknownMode(repr))
  }

  datatype Revealed = Revealed(transactionHash: string, sender: string, recipient: string, amount: string,
                               timestamp: Option<int>, note: string)

  /** What an auditor gets: nothing unless the transaction is accountable
      and carries a tracking key; then its hash and timestamp beside fixed
      placeholders. The auditor's key is not checked. */
  function RevealToAuditor(tx: Transaction, trackingPrivateKey: string,
                           digestHex: HashedFields -> string): (r: Option<Revealed>)
    ensures r.Some? <==> tx.privacyMode == Accountable && tx.trackingKey.Some?
    ensures r.Some? ==> r.value.transactionHash == ComputeHash(tx, digestHex) && r.value.timestamp == tx.timestamp
    ensures r.Some? ==> r.value.sender == "revealed_sender" && r.value.recipient == "revealed_recipient"
                        && r.value.amount == "revealed_amount"
  {
    if tx.privacyMode != Accountable then None
    else if tx.trackingKey == None then None
    else Some(Revealed(ComputeHash(tx, digestHex), "revealed_sender", "revealed_recipient", "revealed_amount",
                       tx.timestamp, "Revealed to authorized auditor"))
  }

  /** Of the transactions the framework creates, exactly the accountable ones
      created with a tracking key can be revealed, whatever key the auditor
      presents. */
  lemma RevealOnlyAccountable(mode: PrivacyMode, sender: string, recipient: string, amount: int,
                              inputs: seq<string>, trackingKey: Option<string>, sha256: string -> seq<Byte>,
                              auditorKey: string, digestHex: HashedFields -> string)
    ensures var tx := CreateTransaction(Known(mode), sender, recipient, amount, inputs, trackingKey, sha256).value;
            RevealToAuditor(tx, auditorKey, digestHex).Some? <==> mode == Accountable && trackingKey.Some?
  {
  }
}
