// Storage of quantum-generated keys as one JSON file per key in a storage
// directory: saving with stamped metadata, loading with an integrity check,
// listing newest first, deleting, and exporting as hex, raw bytes or base64.
//
// The directory is the `files` field of a `KeyManager`: a map from file name
// to what that file parses as. The clock, SHA-256 and base64 are parameters.

module KeyManagement {
  import opened Wrappers
  import opened Bits

  /** A JSON value stored in key metadata. */
  datatype MetaValue = Text(s: string) | Number(n: int) | Null

  type Metadata = map<string, MetaValue>

  /** The content of a key file: `{"key": [...], "metadata": {...}}`. */
  datatype KeyData = KeyData(key: seq<Bit>, metadata: Metadata)

  /** A file of the storage directory: a key file; a JSON file with a
      "metadata" entry but no usable "key", which is listed but cannot be
      loaded; or one that is not valid JSON or has no "metadata" entry. */
  datatype StoredFile = KeyFile(data: KeyData) | MetadataOnly(metadata: Metadata) | Unparsable

  /** The metadata `list_keys` reads from a file, when `key_data["metadata"]` succeeds. */
  function ListedMetadata(f: StoredFile): (r: Option<Metadata>)
    ensures r.Some? <==> !f.Unparsable?
    ensures f.KeyFile? ==> r == Some(f.data.metadata)
  {
    match f
    case KeyFile(data) => Some(data.metadata)
    case MetadataOnly(metadata) => Some(metadata)
    case Unparsable => None
  }

  datatype KeyError =
    | FileNotFound(keyId: string)
    | MalformedKeyFile
    | UnknownFormat(format: string)

  /** What `load_key` returns, with the integrity warning it logs. */
  datatype Loaded = Loaded(data: KeyData, integrityWarning: bool)

  /** What `export_key` writes to its output path. */
  datatype ExportContent = HexText(hex: string) | BinaryBytes(bytes: seq<Byte>) | Base64Text(b64: string)

  const KeyIdField := "key_id"
  const TimestampField := "timestamp"
  const KeyLengthField := "key_length"
  const KeyHashField := "key_hash"
  const JsonSuffix := ".json"
  function FileName(keyId: string): string {
    keyId + JsonSuffix
  }

  lemma FileNameInjective(a: string, b: string)
    ensures FileName(a) == FileName(b) <==> a == b
  {
    if FileName(a) == FileName(b) {
      assert |a| == |b|;
      assert a == FileName(a)[..|a|];
    }
  }

  predicate EndsWithJson(name: string) {
    |name| >= |JsonSuffix| && name[|name| - |JsonSuffix|..] == JsonSuffix
  }

  lemma FileNameEndsWithJson(keyId: string)
    ensures EndsWithJson(FileName(keyId))
  {
    assert FileName(keyId)[|keyId|..] == JsonSuffix;
  }

  /** Two-argument `os.path.join` on POSIX paths. */
  function JoinPath(dir: string, name: string): (path: string)
    ensures |name| > 0 && name[0] == '/' ==> path == name
    ensures |path| >= |name| && path[|path| - |name|..] == name
    ensures !(|name| > 0 && name[0] == '/') ==> |path| >= |dir| && path[..|dir|] == dir
  {
    if |name| > 0 && name[0] == '/' then name
    else if dir == [] || dir[|dir| - 1] == '/' then dir + name
    else dir + "/" + name
  }

  /** Python truthiness of a value looked up with `dict.get`. */
  predicate Truthy(v: Option<MetaValue>) {
    match v
    case None => false
    case Some(Text(s)) => s != ""
    case Some(Number(n)) => n != 0
    case Some(Null) => false
  }

  function Get(md: Metadata, field: string): Option<MetaValue> {
    if field in md then Some(md[field]) else None
  }

  /** The caller's metadata after `save_key`'s `update`: the four default
      fields are set, overriding the caller's values, and nothing else changes. */
  function Stamped(md: Metadata, keyId: string, timestamp: string, keyLength: nat, keyHash: string): (r: Metadata)
    ensures r.Keys == md.Keys + {KeyIdField, TimestampField, KeyLengthField, KeyHashField}
    ensures r[KeyIdField] == Text(keyId) && r[TimestampField] == Text(timestamp)
    ensures r[KeyLengthField] == Number(keyLength) && r[KeyHashField] == Text(keyHash)
    ensures forall f :: f in md && f !in {KeyIdField, TimestampField, KeyLengthField, KeyHashField} ==> r[f] == md[f]
  {
    md[KeyIdField := Text(keyId)][TimestampField := Text(timestamp)]
      [KeyLengthField := Number(keyLength)][KeyHashField := Text(keyHash)]
  }

  /** `bytes(key)` on a list of bits: one byte per bit, holding that bit. */
  function ByteString(key: seq<Bit>): (b: seq<Byte>)
    ensures |b| == |key| && forall i :: 0 <= i < |key| ==> b[i] == key[i]
  {
    seq(|key|, i requires 0 <= i < |key| => key[i] as Byte)
  }

  /** The stored hash is present, truthy and not the recomputed one. */
  predicate IntegrityFails(md: Metadata, computedHash: string) {
    var stored := Get(md, KeyHashField);
    Truthy(stored) && stored != Some(Text(computedHash))
  }

  /** The timestamp, when present, is text. */
  predicate TextTimestamp(md: Metadata) {
    TimestampField in md ==> md[TimestampField].Text?
  }

  /** Every listed file's timestamp, when present, is text, so that the
      timestamps of a listing can be compared with one another. */
  ghost predicate TimestampsAreText(files: map<string, StoredFile>) {
    forall name | name in files && ListedMetadata(files[name]).Some? ::
      TextTimestamp(ListedMetadata(files[name]).value)
  }

  /** Freshly stamped metadata passes the integrity check against the hash it was stamped with. */
  lemma StampedPassesIntegrity(md: Metadata, keyId: string, timestamp: string, keyLength: nat, keyHash: string)
    ensures !IntegrityFails(Stamped(md, keyId, timestamp, keyLength, keyHash), keyHash)
  {
  }

  /** Writing a key file whose timestamp is text keeps every timestamp text. */
  lemma StoreKeepsTimestampsText(files: map<string, StoredFile>, name: string, data: KeyData)
    requires TimestampsAreText(files)
    requires TimestampField in data.metadata && data.metadata[TimestampField].Text?
    ensures TimestampsAreText(files[name := KeyFile(data)])
  {
  }

  // ---------------------------------------------------------------------
  // Listing order: newest timestamp first

  /** Python's `<` on strings: lexicographic by code point. */
  predicate StrLess(a: string, b: string) {
    if a == [] then b != []
    else if b == [] then false
    else if a[0] != b[0] then a[0] < b[0]
    else StrLess(a[1..], b[1..])
  }

  lemma {:induction false} StrLessIrreflexive(a: string)
    ensures !StrLess(a, a)
  {
    if a != [] {
      StrLessIrreflexive(a[1..]);
    }
  }

  lemma {:induction false} StrLessTotal(a: string, b: string)
    ensures StrLess(a, b) || a == b || StrLess(b, a)
  {
    if a != [] && b != [] && a[0] == b[0] {
      StrLessTotal(a[1..], b[1..]);
      if a[1..] == b[1..] {
        assert a == [a[0]] + a[1..] && b == [b[0]] + b[1..];
      }
    }
  }

  lemma {:induction false} StrLessTransitive(a: string, b: string, c: string)
    requires StrLess(a, b) && StrLess(b, c)
    ensures StrLess(a, c)
  {
    if a != [] && a[0] == b[0] && b[0] == c[0] {
      StrLessTransitive(a[1..], b[1..], c[1..]);
    }
  }

  lemma StrLessAsymmetric(a: string, b: string)
    requires StrLess(a, b)
    ensures !StrLess(b, a)
  {
    if StrLess(b, a) {
      StrLessTransitive(a, b, a);
      StrLessIrreflexive(a);
    }
  }

  /** The sort key of `list_keys`: the timestamp, or "" when there is none. */
  function SortKey(md: Metadata): string {
    if TimestampField in md && md[TimestampField].Text? then md[TimestampField].s else ""
  }

  /** No entry has an earlier timestamp than the one after it. */
  predicate NewestFirst(s: seq<Metadata>) {
    forall i :: 0 <= i < |s| - 1 ==> !StrLess(SortKey(s[i]), SortKey(s[i + 1]))
  }

  /** Puts `md` before the first entry with a strictly earlier timestamp, so
      that it follows every entry with the same timestamp. */
  function InsertNewestFirst(md: Metadata, s: seq<Metadata>): (r: seq<Metadata>)
    ensures |r| == |s| + 1
  {
    if s == [] then [md]
    else if StrLess(SortKey(s[0]), SortKey(md)) then [md] + s
    else [s[0]] + InsertNewestFirst(md, s[1..])
  }

  /** `sorted(..., key=timestamp, reverse=True)`: a stable sort, newest first. */
  function SortNewestFirst(s: seq<Metadata>): (r: seq<Metadata>)
    ensures |r| == |s|
  {
    if s == [] then []
    else InsertNewestFirst(s[|s| - 1], SortNewestFirst(s[..|s| - 1]))
  }

  lemma {:induction false} InsertNewestFirstSorted(md: Metadata, s: seq<Metadata>)
    requires NewestFirst(s)
    ensures NewestFirst(InsertNewestFirst(md, s))
    ensures InsertNewestFirst(md, s)[0] == md || InsertNewestFirst(md, s)[0] == s[0]
  {
    if s == [] {
    } else if StrLess(SortKey(s[0]), SortKey(md)) {
      StrLessAsymmetric(SortKey(s[0]), SortKey(md));
    } else {
      var rest := InsertNewestFirst(md, s[1..]);
      InsertNewestFirstSorted(md, s[1..]);
      var r := [s[0]] + rest;
      forall i | 0 <= i < |r| - 1
        ensures !StrLess(SortKey(r[i]), SortKey(r[i + 1]))
      {
        if i > 0 {
          assert r[i] == rest[i - 1] && r[i + 1] == rest[i];
        }
      }
    }
  }

  lemma {:induction false} InsertNewestFirstPermutes(md: Metadata, s: seq<Metadata>)
    ensures multiset(InsertNewestFirst(md, s)) == multiset(s) + multiset{md}
  {
    if s == [] {
      assert InsertNewestFirst(md, s) == [md] + s;
      PrependPermutes(md, s);
    } else if StrLess(SortKey(s[0]), SortKey(md)) {
      assert InsertNewestFirst(md, s) == [md] + s;
      PrependPermutes(md, s);
    } else {
      InsertNewestFirstPermutes(md, s[1..]);
      ConsKeepsPermutation(s[0], md, s[1..], InsertNewestFirst(md, s[1..]));
      assert s == [s[0]] + s[1..];
    }
  }

  lemma PrependPermutes<T>(x: T, s: seq<T>)
    ensures multiset([x] + s) == multiset(s) + multiset{x}
  {
    assert multiset([x] + s) == multiset{x} + multiset(s);
  }

  lemma ConsKeepsPermutation<T>(x: T, y: T, tail: seq<T>, rest: seq<T>)
    requires multiset(rest) == multiset(tail) + multiset{y}
    ensures multiset([x] + rest) == multiset([x] + tail) + multiset{y}
  {
    assert multiset([x] + rest) == multiset{x} + multiset(rest);
    assert multiset([x] + tail) == multiset{x} + multiset(tail);
  }

  lemma {:induction false} SortNewestFirstSpec(s: seq<Metadata>)
    ensures NewestFirst(SortNewestFirst(s))
    ensures multiset(SortNewestFirst(s)) == multiset(s)
  {
    if s != [] {
      var init := s[..|s| - 1];
      SortNewestFirstSpec(init);
      InsertNewestFirstSorted(s[|s| - 1], SortNewestFirst(init));
      InsertNewestFirstPermutes(s[|s| - 1], SortNewestFirst(init));
      assert s == init + [s[|s| - 1]];
    }
  }

  /** Newest first between any two entries, not only neighbours. */
  lemma {:induction false} NewestFirstPairwise(s: seq<Metadata>, i: nat, j: nat)
    requires NewestFirst(s)
    requires i <= j < |s|
    ensures !StrLess(SortKey(s[i]), SortKey(s[j]))
    decreases j - i
  {
    if i == j {
      StrLessIrreflexive(SortKey(s[i]));
    } else {
      NewestFirstPairwise(s, i + 1, j);
      if StrLess(SortKey(s[i]), SortKey(s[j])) {
        StrLessTotal(SortKey(s[i]), SortKey(s[i + 1]));
        if SortKey(s[i]) != SortKey(s[i + 1]) {
          StrLessTransitive(SortKey(s[i + 1]), SortKey(s[i]), SortKey(s[j]));
        }
      }
    }
  }

  /** The entries whose sort key is `k`, in their order. */
  function WithKey(s: seq<Metadata>, k: string): seq<Metadata> {
    if s == [] then []
    else (if SortKey(s[0]) == k then [s[0]] else []) + WithKey(s[1..], k)
  }

  lemma {:induction false} WithKeyAppend(a: seq<Metadata>, b: seq<Metadata>, k: string)
    ensures WithKey(a + b, k) == WithKey(a, k) + WithKey(b, k)
  {
    if a == [] {
      assert a + b == b;
    } else {
      var head: seq<Metadata> := if SortKey(a[0]) == k then [a[0]] else [];
      WithKeyAppend(a[1..], b, k);
      assert (a + b)[0] == a[0] && (a + b)[1..] == a[1..] + b;
      assert WithKey(a + b, k) == head + WithKey(a[1..] + b, k);
      assert WithKey(a, k) == head + WithKey(a[1..], k);
    }
  }

  lemma NewestFirstTail(s: seq<Metadata>)
    requires NewestFirst(s) && s != []
    ensures NewestFirst(s[1..])
  {
    forall i | 0 <= i < |s[1..]| - 1
      ensures !StrLess(SortKey(s[1..][i]), SortKey(s[1..][i + 1]))
    {
      assert s[1..][i] == s[i + 1] && s[1..][i + 1] == s[i + 2];
    }
  }

  /** In a newest-first sequence whose head is older than `md`, no entry has
      `md`'s timestamp. */
  lemma {:induction false} OlderThanHeadHasOtherKey(s: seq<Metadata>, md: Metadata)
    requires NewestFirst(s) && s != [] && StrLess(SortKey(s[0]), SortKey(md))
    ensures WithKey(s, SortKey(md)) == []
  {
    StrLessIrreflexive(SortKey(md));
    if |s| > 1 {
      StrLessTotal(SortKey(s[0]), SortKey(s[1]));
      if SortKey(s[1]) != SortKey(s[0]) {
        StrLessTransitive(SortKey(s[1]), SortKey(s[0]), SortKey(md));
      }
      NewestFirstTail(s);
      OlderThanHeadHasOtherKey(s[1..], md);
    }
  }

  /** Prepending one entry to two sequences that agree on key `k`, up to a
      tail `extra`, keeps them in agreement. */
  lemma WithKeyCons(x: Metadata, rest: seq<Metadata>, t: seq<Metadata>, k: string, extra: seq<Metadata>)
    requires WithKey(rest, k) == WithKey(t, k) + extra
    ensures WithKey([x] + rest, k) == WithKey([x] + t, k) + extra
  {
    WithKeyAppend([x], rest, k);
    WithKeyAppend([x], t, k);
  }

  /** Inserting in front of an older head: no entry of `s` shares `md`'s timestamp. */
  lemma InsertInFrontStable(md: Metadata, s: seq<Metadata>, k: string)
    requires NewestFirst(s) && s != [] && StrLess(SortKey(s[0]), SortKey(md))
    ensures WithKey([md] + s, k) == WithKey(s, k) + (if SortKey(md) == k then [md] else [])
  {
    WithKeyCons(md, s, [], k, WithKey(s, k));
    assert [md] + [] == [md] && [md][1..] == [];
    if SortKey(md) == k {
      OlderThanHeadHasOtherKey(s, md);
    }
  }

  /** Insertion adds `md` after every entry with the same timestamp. */
  lemma {:induction false} InsertNewestFirstStable(md: Metadata, s: seq<Metadata>, k: string)
    requires NewestFirst(s)
    ensures WithKey(InsertNewestFirst(md, s), k) == WithKey(s, k) + (if SortKey(md) == k then [md] else [])
  {
    if s == [] {
      assert [md][1..] == [];
    } else if StrLess(SortKey(s[0]), SortKey(md)) {
      InsertInFrontStable(md, s, k);
    } else {
      NewestFirstTail(s);
      InsertNewestFirstStable(md, s[1..], k);
      WithKeyCons(s[0], InsertNewestFirst(md, s[1..]), s[1..], k, if SortKey(md) == k then [md] else []);
      assert [s[0]] + s[1..] == s;
    }
  }

  /** The sort is stable: entries with the same timestamp keep their order. */
  lemma {:induction false} SortNewestFirstStable(s: seq<Metadata>, k: string)
    ensures WithKey(SortNewestFirst(s), k) == WithKey(s, k)
  {
    if s != [] {
      var init, last := s[..|s| - 1], s[|s| - 1];
      SortNewestFirstStable(init, k);
      SortNewestFirstSpec(init);
      InsertNewestFirstStable(last, SortNewestFirst(init), k);
      WithKeyAppend(init, [last], k);
      assert s == init + [last];
      assert [last][1..] == [];
    }
  }

  // ---------------------------------------------------------------------
  // Listing

  /** The metadata `list_keys` collects from a directory listing, in listing
      order: every file whose name ends in ".json" and that has a "metadata"
      entry, whether or not it holds a loadable key; other files are skipped. */
  function Collected(listing: seq<string>, files: map<string, StoredFile>): (c: seq<Metadata>)
    requires forall name :: name in listing ==> name in files
    ensures |c| <= |listing|
  {
    if listing == [] then []
    else
      var name := listing[|listing| - 1];
      Collected(listing[..|listing| - 1], files)
        + (if EndsWithJson(name) && ListedMetadata(files[name]).Some? then [ListedMetadata(files[name]).value] else [])
  }

  lemma {:induction false} CollectedMembers(listing: seq<string>, files: map<string, StoredFile>, md: Metadata)
    requires forall name :: name in listing ==> name in files
    ensures md in Collected(listing, files) <==>
      exists name :: name in listing && EndsWithJson(name) && ListedMetadata(files[name]) == Some(md)
  {
    if listing != [] {
      var init := listing[..|listing| - 1];
      var name := listing[|listing| - 1];
      CollectedMembers(init, files, md);
      assert listing == init + [name];
      forall other | other in init
        ensures other in listing
      {
      }
    }
  }

  // ---------------------------------------------------------------------
  // Export encodings

  function HexString(nibbles: seq<nat>): (hex: string)
    requires forall k :: 0 <= k < |nibbles| ==> nibbles[k] < 16
    ensures |hex| == |nibbles|
    ensures forall k :: 0 <= k < |hex| ==> hex[k] == HexDigits[nibbles[k]]
  {
    seq(|nibbles|, k requires 0 <= k < |nibbles| => HexDigits[nibbles[k]])
  }

  /** The file content `export_key` writes for a key, or the format error. */
  function Encode(key: seq<Bit>, format: string, base64Encode: seq<Byte> -> string): (r: Result<ExportContent, KeyError>)
    ensures r.Err? <==> format !in {"hex", "binary", "base64"}
    ensures r.Err? ==> r.error == UnknownFormat(format)
    ensures format == "hex" ==> r.Ok? && r.value.HexText? && |r.value.hex| == GroupCount(|key|, 4)
    ensures format == "binary" ==> r.Ok? && r.value.BinaryBytes? && |r.value.bytes| == GroupCount(|key|, 8)
    ensures format == "base64" ==> r.Ok? && r.value.Base64Text?
  {
    PackCount(key, 4);
    PackCount(key, 8);
    PackBound(key, 4);
    PackBound(key, 8);
    Pow2Eight();
    assert Pow2(4) == 16;
    if format == "hex" then Ok(HexText(HexString(PackMsb(key, 4))))
    else if format == "binary" then Ok(BinaryBytes(AsBytes(PackMsb(key, 8))))
    else if format == "base64" then Ok(Base64Text(base64Encode(AsBytes(PackMsb(key, 8)))))
    else Err(UnknownFormat(format))
  }

  /** Hex digit k of an export is the value of bits 4k.. read most significant
      first; a short last group is not padded. */
  lemma EncodeHexDigit(key: seq<Bit>, base64Encode: seq<Byte> -> string, k: nat)
    requires 4 * k < |key|
    ensures MsbValue(key[4 * k..Min(4 * k + 4, |key|)]) < 16
    ensures Encode(key, "hex", base64Encode).value.hex[k] == HexDigits[MsbValue(key[4 * k..Min(4 * k + 4, |key|)])]
  {
    GroupStartIsProduct(k, 4);
    PackMsbAt(key, 4, k);
    PackBound(key, 4);
    assert Pow2(4) == 16;
  }

  /** Byte k of a binary export is the value of bits 8k.. read most
      significant first. */
  lemma EncodeBinaryByte(key: seq<Bit>, base64Encode: seq<Byte> -> string, k: nat)
    requires 8 * k < |key|
    ensures Encode(key, "binary", base64Encode).value.bytes[k] == MsbValue(key[8 * k..Min(8 * k + 8, |key|)])
  {
    GroupStartIsProduct(k, 8);
    PackMsbAt(key, 8, k);
    PackBound(key, 8);
    Pow2Eight();
  }

  /** Base64 export encodes exactly the bytes of the binary export. */
  lemma EncodeBase64OfBinary(key: seq<Bit>, base64Encode: seq<Byte> -> string)
    ensures Encode(key, "base64", base64Encode).value.b64 == base64Encode(Encode(key, "binary", base64Encode).value.bytes)
  {
  }

  class KeyManager {
    const storageDir: string
    /** SHA-256 hex digest of a byte string. */
    const sha256Hex: seq<Byte> -> string
    /** Base64 encoding of a byte string. */
    const base64Encode: seq<Byte> -> string
    /** The storage directory: file name to content. */
    var files: map<string, StoredFile>

    ghost predicate Valid()
      reads this
    {
      TimestampsAreText(files)
    }

    /** Opens the storage directory with its existing files. */
    constructor(storageDir: string, sha256Hex: seq<Byte> -> string, base64Encode: seq<Byte> -> string,
                existing: map<string, StoredFile>)
      requires TimestampsAreText(existing)
      ensures Valid()
      ensures this.storageDir == storageDir && this.sha256Hex == sha256Hex && this.base64Encode == base64Encode
      ensures files == existing
    {
      this.storageDir := storageDir;
      this.sha256Hex := sha256Hex;
      this.base64Encode := base64Encode;
      files := existing;
    }

    /** `_hash_key`: the hex digest of `bytes(key)`. */
    function HashKey(key: seq<Bit>): (h: string)
      ensures h == sha256Hex(ByteString(key))
    {
      sha256Hex(ByteString(key))
    }

    /** `load_key`: the stored key file; a failed integrity check is only a
        warning, and the data is returned as stored. */
    function LoadKey(keyId: string): (r: Result<Loaded, KeyError>)
      reads this
      ensures FileName(keyId) !in files ==> r == Err(FileNotFound(keyId))
      ensures r.Ok? <==> FileName(keyId) in files && files[FileName(keyId)].KeyFile?
      ensures r.Err? && FileName(keyId) in files ==> r.error == MalformedKeyFile
      ensures r.Ok? ==> r.value.data == files[FileName(keyId)].data
      ensures r.Ok? ==> (r.value.integrityWarning <==>
        IntegrityFails(r.value.data.metadata, HashKey(r.value.data.key)))
    {
      var name := FileName(keyId);
      if name !in files then Err(FileNotFound(keyId))
      else match files[name]
        case Unparsable => Err(MalformedKeyFile)
        case MetadataOnly(_) => Err(MalformedKeyFile)
        case KeyFile(data) => Ok(Loaded(data, IntegrityFails(data.metadata, HashKey(data.key))))
    }

    /** `get_key_info`: the metadata of a stored key. */
    function GetKeyInfo(keyId: string): (r: Result<Metadata, KeyError>)
      reads this
      ensures r.Ok? <==> LoadKey(keyId).Ok?
      ensures r.Ok? ==> r.value == files[FileName(keyId)].data.metadata
      ensures r.Err? ==> r.error == LoadKey(keyId).error
    {
      var loaded :- LoadKey(keyId);
      Ok(loaded.data.metadata)
    }

    /** `save_key`: writes the key with its stamped metadata, which is also
        what the caller's metadata dictionary becomes; returns the path. */
    method SaveKey(key: seq<Bit>, keyId: string, metadata: Option<Metadata>, timestamp: string)
      returns (path: string, stored: Metadata)
      requires Valid()
      modifies this
      ensures Valid()
      ensures path == JoinPath(storageDir, FileName(keyId))
      ensures stored == Stamped(if metadata.Some? then metadata.value else map[], keyId, timestamp, |key|, HashKey(key))
      ensures files == old(files)[FileName(keyId) := KeyFile(KeyData(key, stored))]
      ensures LoadKey(keyId) == Ok(Loaded(KeyData(key, stored), false))
      ensures forall other :: other != keyId ==> LoadKey(other) == old(LoadKey(other))
    {
      var md: Metadata := if metadata.Some? then metadata.value else map[];
      stored := Stamped(md, keyId, timestamp, |key|, HashKey(key));
      StampedPassesIntegrity(md, keyId, timestamp, |key|, HashKey(key));
      var name := FileName(keyId);
      path := JoinPath(storageDir, name);
      StoreKeepsTimestampsText(files, name, KeyData(key, stored));
      files := files[name := KeyFile(KeyData(key, stored))];
      forall other | other != keyId
        ensures LoadKey(other) == old(LoadKey(other))
      {
        FileNameInjective(other, keyId);
      }
    }

    /** `delete_key`: removes the key file; reports whether there was one. */
    method DeleteKey(keyId: string) returns (deleted: bool)
      requires Valid()
      modifies this
      ensures Valid()
      ensures deleted <==> FileName(keyId) in old(files)
      ensures files == old(files) - {FileName(keyId)}
      ensures LoadKey(keyId) == Err(FileNotFound(keyId))
      ensures forall other :: other != keyId ==> LoadKey(other) == old(LoadKey(other))
    {
      var name := FileName(keyId);
      deleted := name in files;
      if deleted {
        files := files - {name};
      }
      forall other | other != keyId
        ensures LoadKey(other) == old(LoadKey(other))
      {
        FileNameInjective(other, keyId);
      }
    }

    /** `list_keys`: the metadata of every readable key file of `listing`
        (the directory's names in `os.listdir` order), newest first. */
    method ListKeys(listing: seq<string>) returns (keys: seq<Metadata>)
      requires Valid()
      requires forall name :: name in listing <==> name in files
      ensures keys == SortNewestFirst(Collected(listing, files))
      ensures NewestFirst(keys)
      ensures multiset(keys) == multiset(Collected(listing, files))
      ensures forall k :: WithKey(keys, k) == WithKey(Collected(listing, files), k)
    {
      var collected: seq<Metadata> := [];
      var i := 0;
      while i < |listing|
        invariant 0 <= i <= |listing|
        invariant collected == Collected(listing[..i], files)
      {
        var name := listing[i];
        assert listing[..i + 1][..i] == listing[..i];
        if EndsWithJson(name) {
          match files[name]
          case KeyFile(data) =>
            collected := collected + [data.metadata];
          case MetadataOnly(metadata) =>
            collected := collected + [metadata];
          case Unparsable =>
        }
        i := i + 1;
      }
      assert listing[..i] == listing;
      keys := SortNewestFirst(collected);
      SortNewestFirstSpec(collected);
      forall k
        ensures WithKey(keys, k) == WithKey(collected, k)
      {
        SortNewestFirstStable(collected, k);
      }
    }

    /** `export_key`: the content written to the output path. The key is
        loaded first, so a missing key is reported before a bad format. */
    method ExportKey(keyId: string, format: string) returns (r: Result<ExportContent, KeyError>)
      ensures LoadKey(keyId).Err? ==> r == Err(LoadKey(keyId).error)
      ensures LoadKey(keyId).Ok? ==> r == Encode(LoadKey(keyId).value.data.key, format, base64Encode)
    {
      var loaded := LoadKey(keyId);
      if loaded.Err? {
        return Err(loaded.error);
      }
      var key := loaded.value.data.key;
      if format == "hex" {
        var nibbles := PackGroupsMsb(key, 4);
        assert Pow2(4) == 16;
        r := Ok(HexText(HexString(nibbles)));
      } else if format == "binary" || format == "base64" {
        var groups := PackGroupsMsb(key, 8);
        Pow2Eight();
        var bytes := AsBytes(groups);
        if format == "binary" {
          r := Ok(BinaryBytes(bytes));
        } else {
          r := Ok(Base64Text(base64Encode(bytes)));
        }
      } else {
        r := Err(UnknownFormat(format));
      }
    }
  }

  /** A key file whose key no longer hashes to its stored hash is reported
      when it is loaded. */
  lemma TamperedKeyWarns(km: KeyManager, keyId: string, original: seq<Bit>, tampered: seq<Bit>, md: Metadata)
    requires km.HashKey(original) != km.HashKey(tampered) && km.HashKey(original) != ""
    requires FileName(keyId) in km.files
    requires km.files[FileName(keyId)] == KeyFile(KeyData(tampered, md[KeyHashField := Text(km.HashKey(original))]))
    ensures km.LoadKey(keyId).Ok? && km.LoadKey(keyId).value.integrityWarning
  {
  }

  /** A key file without a stored hash is never reported. */
  lemma MissingHashNoWarning(km: KeyManager, keyId: string)
    requires FileName(keyId) in km.files && km.files[FileName(keyId)].KeyFile?
    requires KeyHashField !in km.files[FileName(keyId)].data.metadata
    ensures km.LoadKey(keyId).Ok? && !km.LoadKey(keyId).value.integrityWarning
  {
  }
}
