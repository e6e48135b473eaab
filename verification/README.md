# ncrypt core in Dafny

A model of the core of ncrypt, a toolkit built around quantum key
distribution. It covers:

- **Qkd** (`qkd.dfy`): the BB84 engine. It prepares qubits, measures them with
  a noise level, sifts on matching bases, estimates the error rate on a
  random sample, and applies privacy amplification by segment parity.
- **Encryption** (`encryption.dfy`): the authenticated encryption layer.
  Quantum key bits are packed into bytes, HMAC-SHA-256 over them derives an AES-256 key, and
  messages are sealed with CBC encryption plus an HMAC-SHA-256 tag over
  `iv || ciphertext`.
- **KeyManagement** (`key_manager.dfy`): the key store. It saves keys with
  stamped metadata and an integrity hash, loads them (with a warning when
  that hash does not match), lists them newest first, deletes them, and
  exports them as hex, binary or base64.
- **Lattice** (`post_quantum.dfy`): the post-quantum primitives. Module-LWE
  bit encryption, its byte-wise wrapper, the Module-SIS hash and the
  commitment built on it.
- **Braket** (`quantum_backend.dfy`): the AWS Braket back end. BB84
  circuits, exchanges run one circuit at a time or in batches on a device,
  device information, the cost estimate, and the BB84 run on the device.
- **PrivacyModes** (`privacy_modes.dfy`): the transaction framework with
  three privacy modes (transparent, private, accountable). It covers
  serialisation, transaction hashing, transaction creation per mode, and
  auditor reveal.
- **Bits** (`bits.dfy`) holds the bit/byte packing loops shared by several
  files. **Wrappers** holds `Option`, `Result`, `Min` and `Max`.

Everything random in the original is an input to the model: bits, bases,
noise draws, sample indices, Gaussian and uniform draws, IVs and salts.
Opaque primitives are parameters of the functions that use them: SHA-256,
HMAC, AES, PKCS#7, base64, JSON digest, and the quantum device's read-out.
Floating-point quantities (error rates, factors, prices) are exact reals.

## Model

| member | source | states |
|---|---|---|
| Qkd.ToDict | ncrypt/core/qkd.py:24-31 | The summary keeps key length, error rate and discarded bits. Efficiency is the share of the final key among key plus discarded bits, in [0, 1], and 0 when that total is not positive. |
| Qkd.PrepareQubits | ncrypt/core/qkd.py:74-87 | One qubit per position, up to the shorter list, carrying that position's bit and basis. |
| Qkd.MeasureQubits | ncrypt/core/qkd.py:89-121 | Bob reads Alice's bit when the bases match, flipped exactly when the noise draw is below the noise level. With mismatched bases he reads his coin. Without noise, every matching-basis read-out equals the sent bit. |
| Qkd.Measurements | ncrypt/core/qkd.py:89-121 | One read-out per (qubit, basis) pair. With matching bases it is Alice's bit, flipped exactly when the noise draw is below the noise level. With mismatched bases it is Bob's coin. |
| Qkd.MatchingPositionsSpec | ncrypt/core/qkd.py:136 | The matching positions are increasing and contain exactly the indices where the two bases agree. |
| Qkd.MaskedPicksMatchingPositions | ncrypt/core/qkd.py:136-138 | Boolean-mask indexing with the basis mask equals picking the matching positions in order. |
| Qkd.SiftKeysKeepMatchingPositions | ncrypt/core/qkd.py:123-141 | Both sifted keys are the bits at the matching positions, in order. Their length is the number of agreeing bases. |
| Qkd.SiftKeys | ncrypt/core/qkd.py:123-141 | The boolean-mask sifting keeps, for each party, exactly the bits at the positions where the two bases agree, in order. |
| Qkd.SiftingExample | ncrypt/core/qkd.py:123-141 | A concrete six-qubit run keeps the five positions with agreeing bases. |
| Qkd.KeepPositionsSpec | ncrypt/core/qkd.py:172 | The kept indices are increasing and are exactly the positions below the key length that were not checked. |
| Qkd.KeepPositionsOfSample | ncrypt/core/qkd.py:171-172 | For a sample of distinct in-range indices, key length minus sample size positions remain. |
| Qkd.Mismatches | ncrypt/core/qkd.py:175 | The error count never exceeds the sample size. |
| Qkd.MismatchesOfAgreeingKeys | ncrypt/core/qkd.py:175 | Keys that agree on every sampled index give zero errors. |
| Qkd.EstimateErrorRate | ncrypt/core/qkd.py:143-183 | Errors: sample at least the key length is rejected, a negative sample size fails, and a zero sample on a non-empty key is a division by zero. Otherwise the rate is errors over sample size, lies in [0, 1], and both keys keep exactly the unsampled positions, n − s of them. |
| Qkd.ParityAppend | ncrypt/core/qkd.py:211-213 | The running XOR of a segment extended by one bit is the old parity XOR that bit. |
| Qkd.PrivacyAmplification | ncrypt/core/qkd.py:185-217 | The loop's output has max(int(n·f), 0) bits and equals the segment-parity specification. |
| Qkd.Amplified | ncrypt/core/qkd.py:185-214 | The compressed key has max(int(n·f), 0) bits. Bit i is the parity of segment i, as AmplifiedAt states. |
| Qkd.AmplifiedAt | ncrypt/core/qkd.py:205-214 | Output bit i is the parity of key[i·step .. i·step+step], with step = n / new_length, and that segment lies inside the key. |
| Qkd.AmplifiedIgnoresTail | ncrypt/core/qkd.py:205-214 | Only the first new_length·step key bits matter; the leftover tail never influences the output. |
| Qkd.OverCompressionGivesZeros | ncrypt/core/qkd.py:199-214 | When n·f ≥ n + 1, the step is 0: the output is longer than the key and every bit is 0. |
| Qkd.SiftedKeys | ncrypt/core/qkd.py:243-252 | In a protocol run, the sifted keys are Alice's bits and Bob's read-outs at the matching positions. |
| Qkd.RunProtocol | ncrypt/core/qkd.py:219-285 | No matching bases gives None. A bad sample size gives an error, and which one: SampleTooLarge when the sample is not smaller than the sifted key, NegativeSampleSize when it is negative, and DivisionByZero when it is 0. An error rate above the threshold gives None. On success, the result records the raw and sifted keys. The rate is exactly the sampled mismatches over the sample size `int(len · ratio)`, and lies in [0, threshold]. The final key is the amplified unsampled sifted bits, and discarded bits is n minus the key length. |
| Qkd.CheckSampleSize | ncrypt/core/qkd.py:259 | For a non-negative ratio the sample size is int(n·ratio): non-negative and within one below n·ratio. For a ratio below one and a non-empty key, it is smaller than the key. |
| Qkd.NoiselessSiftedKeysAgree | ncrypt/core/qkd.py:243-252 | With noise level 0, Alice's and Bob's sifted keys are equal. |
| Qkd.NoiselessRunSucceeds | ncrypt/core/qkd.py:254-285 | With noise level 0, a valid sample size and a non-negative threshold, the protocol succeeds with error rate 0. |
| Bits.ShiftInGroup | ncrypt/core/encryption.py:54-57 | The inner shift-or loop leaves the most-significant-first value of the group's bits (a short last group is not shifted), below 2^w. |
| Bits.PackGroupsMsb | ncrypt/core/encryption.py:52-58 | The outer loop emits ceil(n/w) groups, each below 2^w, equal to the group-by-group MSB packing. |
| Bits.OrInGroup | ncrypt/lattice/post_quantum.py:159-162 | The inner or-in loop leaves the least-significant-first value of the group's bits, below 2^w. |
| Bits.PackGroupsLsb | ncrypt/lattice/post_quantum.py:157-163 | The outer loop emits ceil(n/w) groups, each below 2^w, equal to the LSB packing. |
| Bits.PackMsbAt | ncrypt/core/encryption.py:53-58 | Group k of the MSB packing is the value of bits k·w up to min(k·w + w, n). |
| Bits.PackLsbAt | ncrypt/lattice/post_quantum.py:158-163 | Group k of the LSB packing is the value of bits k·w up to min(k·w + w, n). |
| Bits.MsbValueIsWeighted | ncrypt/core/encryption.py:57 | The shift-or value of a bit list is its positional binary value. |
| Bits.LsbBitsValue | ncrypt/lattice/post_quantum.py:135-136 | Splitting a value below 2^w into its w low bits and packing them LSB-first gives it back. |
| Encryption.KeyToBytes | ncrypt/core/encryption.py:31-60 | Fewer than 8·target bits fail with KeyTooShort. Otherwise the result is the key bits truncated to 8·target and packed MSB-first. |
| Encryption.KeyBytes | ncrypt/core/encryption.py:31-60 | The conversion fails, with KeyTooShort, exactly when there are fewer than 8·target bits. |
| Encryption.KeyBytesLength | ncrypt/core/encryption.py:49-60 | A long enough key yields exactly target bytes. |
| Encryption.KeyBytesAt | ncrypt/core/encryption.py:49-60 | Byte k is the positional value of key bits 8k .. 8k+8. |
| Encryption.KeyBytesIgnoresTail | ncrypt/core/encryption.py:49 | Bits past 8·target never affect the bytes. |
| Encryption.DeriveKey | ncrypt/core/encryption.py:62-81 | Derivation fails exactly when the key has fewer than 256 bits. |
| Encryption.DeriveKeyDefaultSalt | ncrypt/core/encryption.py:76-77 | An empty salt derives the same key as the default salt. |
| Encryption.DeriveKeyUsesFirst256Bits | ncrypt/core/encryption.py:73-79 | Keys agreeing on their first 256 bits derive the same AES key. |
| Encryption.Encrypt | ncrypt/core/encryption.py:83-123 | Fails exactly on a short key. Otherwise it returns the IV, CBC encryption of the padded plaintext under the derived key, and the HMAC of IV ‖ ciphertext. |
| Encryption.Decrypt | ncrypt/core/encryption.py:125-171 | A short key fails. Authentication fails exactly when the tag differs from the HMAC of IV ‖ ciphertext. |
| Encryption.DecryptChecksTagFirst | ncrypt/core/encryption.py:150-155 | A wrong tag is rejected whatever the cipher and padding do; the tag is checked before decryption. |
| Encryption.DecryptInvertsEncrypt | ncrypt/core/encryption.py:83-171 | When the cipher and the padding invert, decrypting a sealed message under the same key returns the plaintext. |
| Encryption.DecryptUnderOtherKeyFails | ncrypt/core/encryption.py:150-155 | A key whose derived HMAC does not reproduce the tag gets AuthenticationFailed. |
| KeyManagement.FileNameInjective | ncrypt/utils/key_manager.py:68 | Different key ids map to different file names. |
| KeyManagement.FileNameEndsWithJson | ncrypt/utils/key_manager.py:68 | Every key file name ends in ".json", so list_keys sees it. |
| KeyManagement.JoinPath | ncrypt/utils/key_manager.py:69 | os.path.join: an absolute name replaces the directory; otherwise the path starts with the directory and ends with the name. |
| KeyManagement.Stamped | ncrypt/utils/key_manager.py:52-61 | The stored metadata keeps the caller's fields and sets key id, timestamp, key length and key hash. |
| KeyManagement.StrLessTotal | ncrypt/utils/key_manager.py:129 | Python string order is total. |
| KeyManagement.StrLessTransitive | ncrypt/utils/key_manager.py:129 | Python string order is transitive. |
| KeyManagement.StrLessIrreflexive | ncrypt/utils/key_manager.py:129 | Python string order is irreflexive. |
| KeyManagement.InsertNewestFirstSorted | ncrypt/utils/key_manager.py:129 | Inserting into a newest-first list keeps it newest first. |
| KeyManagement.InsertNewestFirstPermutes | ncrypt/utils/key_manager.py:129 | Insertion adds exactly the inserted metadata. |
| KeyManagement.SortNewestFirstSpec | ncrypt/utils/key_manager.py:129 | The reverse sort by timestamp is newest first and a permutation of its input. |
| KeyManagement.SortNewestFirst | ncrypt/utils/key_manager.py:129 | The sort keeps the number of entries. Its order and permutation are in SortNewestFirstSpec, its stability in SortNewestFirstStable. |
| KeyManagement.SortNewestFirstStable | ncrypt/utils/key_manager.py:129 | Python's sort is stable: for every timestamp, the entries carrying it appear in the sorted list in their listing order. |
| KeyManagement.NewestFirstPairwise | ncrypt/utils/key_manager.py:129 | In a newest-first list, no later entry has a larger timestamp than an earlier one. |
| KeyManagement.CollectedMembers | ncrypt/utils/key_manager.py:119-127 | Listed metadata are exactly those of the ".json" files in the listing that parse and have a "metadata" entry, whether or not they hold a loadable key. |
| KeyManagement.Collected | ncrypt/utils/key_manager.py:117-127 | At most one metadata entry per listed name, in listing order. Which entries appear is stated by CollectedMembers. |
| KeyManagement.HexString | ncrypt/utils/key_manager.py:185 | Each nibble becomes its lower-case hex digit. |
| KeyManagement.Encode | ncrypt/utils/key_manager.py:177-219 | Formats other than hex, binary and base64 fail with UnknownFormat. Hex gives ceil(n/4) digits and binary ceil(n/8) bytes. |
| KeyManagement.EncodeHexDigit | ncrypt/utils/key_manager.py:179-185 | Hex digit k is the digit of the MSB-first value of key bits 4k .. min(4k+4, n). |
| KeyManagement.EncodeBinaryByte | ncrypt/utils/key_manager.py:192-198 | Byte k is the MSB-first value of key bits 8k .. min(8k+8, n). |
| KeyManagement.EncodeBase64OfBinary | ncrypt/utils/key_manager.py:206-214 | The base64 export is the base64 of the binary export's bytes. |
| KeyManagement.KeyManager.constructor | ncrypt/utils/key_manager.py:24-33 | The manager works on the given directory and its existing files. |
| KeyManagement.KeyManager.LoadKey | ncrypt/utils/key_manager.py:77-108 | A missing file gives FileNotFound. A file that does not parse, or lacks its "key", gives MalformedKeyFile. A stored key file is returned as stored, with an integrity warning exactly when a stored hash differs from the recomputed one. |
| KeyManagement.KeyManager.HashKey | ncrypt/utils/key_manager.py:152-163 | The digest is taken over `bytes(key)`, which ByteString states holds one byte per key bit, of that bit's value. SaveKey stores this hash and LoadKey recomputes it. |
| KeyManagement.ByteString | ncrypt/utils/key_manager.py:162 | `bytes` of a bit list has one byte per bit, holding that bit. |
| KeyManagement.KeyManager.GetKeyInfo | ncrypt/utils/key_manager.py:223-234 | Succeeds exactly when loading does, and returns the stored metadata. |
| KeyManagement.KeyManager.SaveKey | ncrypt/utils/key_manager.py:35-75 | Writes the key file at the joined path with stamped metadata. Loading it back gives the key without a warning. Every other key loads as before. |
| KeyManagement.KeyManager.DeleteKey | ncrypt/utils/key_manager.py:131-150 | Returns whether the file existed and removes exactly it. The key is then not found; every other key loads as before. |
| KeyManagement.KeyManager.ListKeys | ncrypt/utils/key_manager.py:110-129 | Returns the collected metadata, metadata-only files included, sorted newest first. The result is a permutation of what was collected, and entries with equal timestamps keep their listing order. |
| KeyManagement.KeyManager.ExportKey | ncrypt/utils/key_manager.py:165-219 | Load errors propagate. Otherwise the export is the encoding of the stored key in the requested format. |
| KeyManagement.TamperedKeyWarns | ncrypt/utils/key_manager.py:100-105 | A key whose bits changed after saving loads with an integrity warning. |
| KeyManagement.MissingHashNoWarning | ncrypt/utils/key_manager.py:103 | Metadata without a key hash never triggers the warning. |
| Lattice.DotTranspose | ncrypt/lattice/post_quantum.py:81-89 | ⟨A·s, r⟩ = ⟨s, Aᵀ·r⟩, the identity decryption relies on. |
| Lattice.DotModLeft | ncrypt/lattice/post_quantum.py:59-62 | Reducing a vector mod q does not change a dot product mod q. |
| Lattice.BeforeReduction | ncrypt/lattice/post_quantum.py:81-116 | Before any reduction, ⟨b, r⟩ − ⟨s, u⟩ equals the decryption noise minus e2, that is ⟨e, r⟩ − ⟨s, e1⟩: the terms in a cancel. |
| Lattice.DecryptionCongruence | ncrypt/lattice/post_quantum.py:42-116 | After every mod-q reduction, (v − ⟨s, u⟩) mod q is (noise + m·⌊q/2⌋) mod q. |
| Lattice.Decode | ncrypt/lattice/post_quantum.py:112-118 | Decodes 0 exactly when the value is below q/4 or above 3q/4. |
| Lattice.DecodeRecovers | ncrypt/lattice/post_quantum.py:112-118 | Noise strictly between −q/4 and q/4 leaves the encoded bit recoverable. |
| Lattice.ModuleLwe.constructor | ncrypt/lattice/post_quantum.py:28-40 | Fixes the dimension n and modulus q. |
| Lattice.ModuleLwe.GenerateKeypair | ncrypt/lattice/post_quantum.py:42-67 | The public key keeps A, and b = (A·s + e) mod q with every entry in [0, q). |
| Lattice.ModuleLwe.Encrypt | ncrypt/lattice/post_quantum.py:69-94 | u has n entries in [0, q) and v lies in [0, q). |
| Lattice.ModuleLwe.Decrypt | ncrypt/lattice/post_quantum.py:96-120 | Returns 0 exactly when (v − ⟨s, u⟩) mod q is nearer 0 than q/2. |
| Lattice.ModuleLwe.DecryptionSees | ncrypt/lattice/post_quantum.py:42-120 | What decryption rounds is the encoded bit plus the decryption noise, mod q. |
| Lattice.ModuleLwe.DecryptInvertsEncrypt | ncrypt/lattice/post_quantum.py:42-120 | Decryption returns the encrypted bit whenever the noise is below q/4 in size. |
| Lattice.ModuleLwe.SmallDrawsDecrypt | ncrypt/lattice/post_quantum.py:42-120 | Decryption returns the bit under these bounds: secret in [−2, 2], r in [−1, 1], error draws bounded by B, and (3n+1)·B < q/4. |
| Lattice.ModuleLwe.EncryptBits | ncrypt/lattice/post_quantum.py:134-138 | Each bit is encrypted on its own, in order. |
| Lattice.ModuleLwe.DecryptBits | ncrypt/lattice/post_quantum.py:154 | Each ciphertext is decrypted on its own, in order. |
| Lattice.ModuleLwe.EncryptBytes | ncrypt/lattice/post_quantum.py:122-141 | The loop emits 8 ciphertexts per byte, encrypting its bits least significant first. |
| Lattice.ModuleLwe.DecryptBytes | ncrypt/lattice/post_quantum.py:143-166 | The loop yields ceil(k/8) bytes, packing the decrypted bits LSB-first. |
| Lattice.ModuleLwe.DecryptedByteAt | ncrypt/lattice/post_quantum.py:157-163 | Byte k is the LSB-first value of decrypted bits 8k .. min(8k+8, number of ciphertexts). |
| Lattice.ModuleLwe.BytesRoundTrip | ncrypt/lattice/post_quantum.py:122-166 | With every noise below q/4, decrypt_bytes(encrypt_bytes(data)) == data. |
| Lattice.PackLsbExpand | ncrypt/lattice/post_quantum.py:134-163 | Packing the LSB-first bit expansion of bytes gives the bytes back. |
| Lattice.ExpandLsb | ncrypt/lattice/post_quantum.py:134-138 | The bytes are split into 8 bits each, least significant first. ExpandLsbAt states that bit i of byte k lands at position 8k + i. |
| Lattice.BigEndianRoundTrip | ncrypt/lattice/post_quantum.py:239 | Reading back the k big-endian bytes of a value below 256^k gives the value. |
| Lattice.ToBytesBig | ncrypt/lattice/post_quantum.py:239 | `to_bytes(8, 'big')` gives exactly k bytes. BigEndianRoundTrip shows that they encode the value. |
| Lattice.CommitBytes | ncrypt/lattice/post_quantum.py:239 | value.to_bytes(8, 'big') + randomness: fails (OverflowError) exactly outside [0, 2^64). Otherwise the first 8 bytes encode the value and the rest is the randomness. |
| Lattice.CommitBytesInjective | ncrypt/lattice/post_quantum.py:239 | Equal commitment inputs come from the same value and randomness. |
| Lattice.Coefficients | ncrypt/lattice/post_quantum.py:212-216 | Coefficient i is ±1 from bit i%8 of hash byte i/8 while the hash lasts, and 0 afterwards. |
| Lattice.ModuleSis.constructor | ncrypt/lattice/post_quantum.py:179-195 | Fixes n, m, q and the n×m matrix A. |
| Lattice.ModuleSis.HashValue | ncrypt/lattice/post_quantum.py:197-222 | The hash has n entries, each in [0, q). |
| Lattice.ModuleSis.Hash | ncrypt/lattice/post_quantum.py:197-222 | The coefficient loop and matrix product compute the hash value. |
| Lattice.ModuleSis.Commit | ncrypt/lattice/post_quantum.py:224-245 | The given randomness is used, or fresh bytes when none is given. The commitment is the hash of value ‖ randomness. Values outside [0, 2^64) fail. |
| Lattice.ModuleSis.VerifyCommitment | ncrypt/lattice/post_quantum.py:247-267 | Accepts exactly when the commitment equals the recomputed hash. Values outside [0, 2^64) fail. |
| Braket.Bb84Circuit | ncrypt/braket/quantum_backend.py:89-124 | The circuit ends in its only measurement. It holds one X exactly for bit 1 in the rectilinear basis, and one Z exactly for bit 1 in the diagonal basis, right after the leading H. It holds one H for a diagonal encoding plus one more for a diagonal measurement, and no other; the measurement H comes right before Measure. |
| Braket.Bb84CircuitShape | ncrypt/braket/quantum_backend.py:89-124 | The same shape in terms of membership and the multiset of gates: no measurement before the last gate, X and Z present exactly in their cases, a leading H then Z for a diagonal 1, the multiplicity of H, and an H right before Measure for a diagonal measurement. |
| Braket.EvolveAppend | ncrypt/braket/quantum_backend.py:106-122 | Running two gate lists one after the other is running their concatenation. |
| Braket.CircuitMeasuresEncodedBit | ncrypt/braket/quantum_backend.py:106-122 | With equal bases, the measured state is certainly the encoded bit. With different bases, it is an equal superposition. |
| Braket.Device.constructor | ncrypt/braket/quantum_backend.py:80-85 | A fresh device has run no circuit. |
| Braket.Device.Run | ncrypt/braket/quantum_backend.py:154-159 | A run reads out the device's outcome for this circuit and run index, and counts one run. |
| Braket.Configure | ncrypt/braket/quantum_backend.py:80-87 | The simulator when asked for, otherwise the device of a non-empty ARN. With neither, it fails exactly then. |
| Braket.BraketBackend.constructor | ncrypt/braket/quantum_backend.py:49-87 | Records the configuration and the device it selected, so the back end is valid. |
| Braket.Lower | ncrypt/braket/quantum_backend.py:246 | ASCII lower case, character by character. |
| Braket.ContainsAt | ncrypt/braket/quantum_backend.py:246-249 | A substring occurring at any position is found. |
| Braket.ShotCost | ncrypt/braket/quantum_backend.py:246-254 | The IonQ price when the lower-cased ARN contains "ionq". Otherwise the Rigetti price when it contains "rigetti". Otherwise the default price. |
| Braket.RoundCents | ncrypt/braket/quantum_backend.py:259 | The rounded price is a whole number of cents within half a cent of the amount, and unchanged when already whole. |
| Braket.BraketBackend.GetDeviceInfo | ncrypt/braket/quantum_backend.py:204-225 | The simulator reports the fixed simulator description. It names the simulator, has type "simulator" and provider "Amazon Braket", and has no status or ARN. A cloud device reports the name, type and provider of its properties, its status and its ARN. |
| Braket.BraketBackend.EstimateCost | ncrypt/braket/quantum_backend.py:227-265 | The simulator is free. Otherwise the estimate is (task + shot price)·n rounded to cents, in USD, with the device's shot price. |
| Braket.PySlice | ncrypt/braket/quantum_backend.py:189-191 | A Python slice clipped to the list: length min(j,n) − min(i,n), elements from position i on. |
| Braket.Exchange | ncrypt/braket/quantum_backend.py:149-160 | One read-out per position, up to the shortest of the three lists. |
| Braket.BraketBackend.RunQkdExchange | ncrypt/braket/quantum_backend.py:126-163 | The loop runs one BB84 circuit per position, in order. It returns the device's read-outs and counts that many runs. |
| Braket.ExchangeBatch | ncrypt/braket/quantum_backend.py:187-198 | Running a batch slice from the right run index gives that slice of the whole exchange. |
| Braket.BraketBackend.RunBatchQkd | ncrypt/braket/quantum_backend.py:165-202 | A zero batch size fails as range() does, before the device runs anything. A negative one runs nothing. A positive one gives exactly the single whole exchange. |
| Braket.Sift | ncrypt/braket/quantum_backend.py:313-320 | Keeps as many entries as there are matching bases. |
| Braket.SiftAgrees | ncrypt/braket/quantum_backend.py:313-320 | Lists agreeing wherever the bases match sift to the same list. |
| Braket.SiftPairs | ncrypt/braket/quantum_backend.py:313-320 | The sifting loop keeps Alice's and Bob's bits at the matching bases. |
| Braket.Mismatches | ncrypt/braket/quantum_backend.py:328-331 | The error count is at most the sample size, and 0 when the sampled prefixes agree. |
| Braket.SampleErrorRate | ncrypt/braket/quantum_backend.py:327-332 | The error rate lies in [0, 1], and is 0 when the first halves agree. |
| Braket.Bb84 | ncrypt/braket/quantum_backend.py:312-351 | Fails only with a division by zero, and exactly at one sifted bit. Gives None exactly when nothing sifts or the sample rate exceeds the threshold. Otherwise the key is the second half of Alice's sifted bits. The rate is exactly the mismatch rate over the first half of the sifted bits and lies in [0, threshold]. The report also records the counts and the device name. |
| Braket.IdealExchangeAgrees | ncrypt/braket/quantum_backend.py:126-163 | On a noiseless device, Bob's read-out equals Alice's bit wherever the bases match. |
| Braket.AgreeingRunYieldsKey | ncrypt/braket/quantum_backend.py:312-351 | When Bob agrees with Alice on every matching basis and at least two bits sift, the run yields a key with error rate 0. |
| Braket.IdealRunYieldsKey | ncrypt/braket/quantum_backend.py:305-351 | On a noiseless device with at least two sifted bits, BB84 yields a key with error rate 0. |
| Braket.BraketQkd.constructor | ncrypt/braket/quantum_backend.py:275-283 | Wraps the given back end. |
| Braket.BraketQkd.RunBb84 | ncrypt/braket/quantum_backend.py:285-351 | Runs n circuits on the device and then the BB84 post-processing on the read-outs, named after the device. A negative n fails. |
| PrivacyModes.Hex | ncrypt/transactions/privacy_modes.py:53-54 | Two hex digits per byte. |
| PrivacyModes.HexInjective | ncrypt/transactions/privacy_modes.py:53-54 | Different bytes have different hex. |
| PrivacyModes.HexOrNone | ncrypt/transactions/privacy_modes.py:53-54 | None exactly when the bytes are absent or empty; otherwise their hex. |
| PrivacyModes.OutputToDictInjective | ncrypt/transactions/privacy_modes.py:47-55 | Outputs without empty byte fields are determined by their dictionary. |
| PrivacyModes.OutputToDict | ncrypt/transactions/privacy_modes.py:47-55 | Type, address and amount are copied. A byte field becomes None exactly when it is absent or empty, and otherwise its hexadecimal text. |
| PrivacyModes.EmptyCommitmentSerialisesAsNone | ncrypt/transactions/privacy_modes.py:53 | An empty commitment serialises like a missing one (falsy bytes). |
| PrivacyModes.Hashed | ncrypt/transactions/privacy_modes.py:75-82 | The hashed fields include every output's dictionary, in order. |
| PrivacyModes.ComputeHashIgnoresSignature | ncrypt/transactions/privacy_modes.py:73-85 | The signature does not enter the transaction hash. |
| PrivacyModes.ComputeHash | ncrypt/transactions/privacy_modes.py:73-85 | The hash is the digest of the transaction's fields with the signature cleared. |
| PrivacyModes.HashedFieldsDetermineTransaction | ncrypt/transactions/privacy_modes.py:73-85 | The hashed fields determine everything but the signature. |
| PrivacyModes.ToDict | ncrypt/transactions/privacy_modes.py:87-98 | The dictionary holds the transaction hash, the hex signature or None, and exactly the hashed fields. |
| PrivacyModes.CreateTransparent | ncrypt/transactions/privacy_modes.py:110-142 | A "public" transparent transaction with one public output of recipient and amount. |
| PrivacyModes.CreatePrivate | ncrypt/transactions/privacy_modes.py:154-189 | A "private" transaction with one private output per encrypted blob, and the ring signature as signature. |
| PrivacyModes.CreateAccountable | ncrypt/transactions/privacy_modes.py:201-237 | An "accountable" transaction with one value-hidden output carrying the commitment, and the tracking key. |
| PrivacyModes.NatDecimal | ncrypt/transactions/privacy_modes.py:298 | Decimal digits only, a single digit exactly below 10. |
| PrivacyModes.DecimalInjective | ncrypt/transactions/privacy_modes.py:298 | str() of an int is injective. |
| PrivacyModes.CommitmentDependsOnAmountOnly | ncrypt/transactions/privacy_modes.py:302-305 | Equal amounts commit alike; different amounts hash different texts. |
| PrivacyModes.EncryptOutput | ncrypt/transactions/privacy_modes.py:296-300 | The digest of the text `recipient:amount`. No other recipient and amount pair gives the same text. |
| PrivacyModes.OutputTextInjective | ncrypt/transactions/privacy_modes.py:299 | The amount's decimal form holds no colon, so the text `recipient:amount` determines both the recipient and the amount. |
| PrivacyModes.CreateCommitment | ncrypt/transactions/privacy_modes.py:302-305 | The digest of `str(amount)`, a text that no other amount shares. |
| PrivacyModes.CreateTransaction | ncrypt/transactions/privacy_modes.py:255-294 | Dispatches on the mode to the three constructors. Private encrypts one output; accountable commits to the amount. An unknown mode fails. Every result is well formed. |
| PrivacyModes.RevealToAuditor | ncrypt/transactions/privacy_modes.py:307-343 | Reveals exactly accountable transactions with a tracking key, giving their hash, timestamp and placeholder details. |
| PrivacyModes.RevealOnlyAccountable | ncrypt/transactions/privacy_modes.py:255-343 | A created transaction can be revealed exactly when it is accountable and has a tracking key. |

## Left out

- The clock: the save timestamp (`datetime.utcnow()`) is a parameter of SaveKey.
- Logging, file I/O (JSON files, export files), directory creation, the CLI, the local quantum simulator, and the example scripts.
- Randomness: numpy and `secrets` draws are inputs. The model states nothing about their distribution; only that sampled indices are distinct and in range.
- Floating point: error rates, compression and sample ratios, prices and the noise level are exact reals. Python `int(x)` on a float is truncation of the exact product, so `int(n*0.7)` may differ from the float result by one for some n (for example n = 90).
- Qkd.OverCompressionGivesZeros: a compression factor above 1 alone does not force step 0 (one key bit with factor 1.5 gives new length 1, step 1), so the lemma requires n·f ≥ n + 1.
- Qkd.MeasureQubits: the noisy flip is stated for a uniform draw below the noise level. The probability of a flip is not modelled.
- Qkd.RunProtocol: keys are bits 0/1; `generate_random_bits` and `generate_random_bases` are inputs. `n_bits` is a natural number: the ValueError that numpy raises for a negative `n_bits` is not modelled.
- SHA-256, HMAC-SHA-256, AES-CBC, PKCS#7, base64 and JSON serialisation are function parameters. Their cryptographic strength is not modelled, and DecryptInvertsEncrypt assumes the cipher and padding invert.
- Encryption.Decrypt: the constant-time tag comparison is plain equality; timing is not modelled. encrypt_file and decrypt_file are file wrappers around encrypt and decrypt and are not modelled. The `associated_data` argument is accepted but unused by the source, so it is not modelled.
- KeyManagement: a metadata dictionary passed to save_key is updated by the source in place (aliasing); the model returns the stamped copy. Non-text timestamps are excluded by the manager's invariant. The source sorts them when all sort keys compare, such as one file or all-numeric timestamps, and raises TypeError otherwise. Key ids containing a path separator are not modelled faithfully: the model stores such a key under a flat file name that the listing shows, whereas the source writes into a subdirectory (FileNotFoundError when it does not exist) that `os.listdir` does not list. Key bits are assumed to be 0/1, as `bytes(key)` needs values below 256.
- Lattice: Gaussian draws from numpy and their rounding are integer inputs, and q ≥ 1 is required. The LatticeCrypto convenience class (account keys, message and value-commitment wrappers) only forwards to ModuleLWE and ModuleSIS and is not modelled. numpy int64 overflow is not modelled.
- Braket: the ImportError raised when the Braket SDK is missing is not modelled. The device is an oracle from (circuit, shots, run index) to a read-out bit; its physics is captured only by CircuitMeasuresEncodedBit and the Ideal device. Non-simulator device properties are given values.
- Braket.Lower: only ASCII letters are lower-cased.
- Braket.BraketBackend.RunBatchQkd: the source calls run_qkd_exchange with its default of 1 shot; a shot count below 1, which the cloud rejects, is not modelled.
- Braket.BraketQkd.RunBb84: a negative n_bits, which makes numpy raise, is the error NegativeSize; the random lists are inputs of length n_bits.
- PrivacyModes: the auditor's private key is never checked by the source, and the model does not check it either. UTF-8 encoding of the hashed text is part of the sha256 parameter.
