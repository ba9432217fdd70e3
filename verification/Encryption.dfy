/**
 * Envelope encryption of raw text (security/encryption.py) and the keyring that chooses the key
 * (security/keyring.py).
 */
module Encryption {
  import opened Wrappers

  newtype byte = b: int | 0 <= b < 0x100
  type Bytes = seq<byte>

  const TAG_BYTES := 16
  const KEY_BYTES := 32
  const IV_BYTES := 12
  const ALGORITHM := "AES-256-GCM"

  // ---------------------------------------------------------------------------
  // What the program takes from its libraries
  // ---------------------------------------------------------------------------

  /**
   * Authenticated encryption (key, iv, message, associated data), the UTF-8 codec and base64.
   * Open and Decode answer None where the library raises, and so does Encode on lone surrogates.
   */
  datatype Primitives = Primitives(
    Seal: (Bytes, Bytes, Bytes, string) -> Bytes,
    Open: (Bytes, Bytes, Bytes, string) -> Option<Bytes>,
    Encode: string -> Option<Bytes>,
    Decode: Bytes -> Option<string>,
    FromBase64: string -> Option<Bytes>)
  {
    /** Opening what was sealed gives the message back; sealing appends a tag of 16 bytes. */
    ghost predicate Seals() {
      forall key, iv, m, ad :: |key| == KEY_BYTES && |iv| == IV_BYTES ==>
        && |Seal(key, iv, m, ad)| == |m| + TAG_BYTES
        && Open(key, iv, Seal(key, iv, m, ad), ad) == Some(m)
    }

    /** Encoding and decoding undo each other wherever they are defined. */
    ghost predicate Codes() {
      && (forall text :: Encode(text).Some? ==> Decode(Encode(text).value) == Some(text))
      && (forall bytes :: Decode(bytes).Some? ==> Encode(Decode(bytes).value) == Some(bytes))
    }

    ghost predicate Correct() {
      Seals() && Codes()
    }
  }

  /** Correctness can be met: a cipher that only appends a blank tag, and one byte per character. */
  function Toy(): Primitives {
    Primitives(
      (key: Bytes, iv: Bytes, m: Bytes, ad: string) => m + BLANK_TAG,
      (key: Bytes, iv: Bytes, c: Bytes, ad: string) =>
        if |c| < TAG_BYTES then None else Some(c[..|c| - TAG_BYTES]),
      (text: string) => if Narrow(text) then Some(Narrowed(text)) else None,
      (bytes: Bytes) => Some(Widened(bytes)),
      (text: string) => None)
  }

  const BLANK_TAG: Bytes := [0, 0, 0, 0, 0, 0, 0, 0, 0, 0, 0, 0, 0, 0, 0, 0]

  lemma ToyIsCorrect()
    ensures Toy().Correct()
  {
    hide Narrowed, Widened;
    forall m: Bytes ensures (m + BLANK_TAG)[..|m + BLANK_TAG| - TAG_BYTES] == m {
    }
    forall bytes: Bytes ensures Narrow(Widened(bytes)) && Narrowed(Widened(bytes)) == bytes {
      WidenedIsNarrow(bytes);
    }
  }

  predicate Narrow(text: string) {
    forall i :: 0 <= i < |text| ==> text[i] as int < 0x100
  }

  function Narrowed(text: string): (bytes: Bytes)
    requires Narrow(text)
    ensures Widened(bytes) == text
  {
    seq(|text|, i requires 0 <= i < |text| => text[i] as int as byte)
  }

  function Widened(bytes: Bytes): (text: string)
    ensures |text| == |bytes| && forall i :: 0 <= i < |text| ==> text[i] as int == bytes[i] as int
  {
    seq(|bytes|, i requires 0 <= i < |bytes| => bytes[i] as int as char)
  }

  lemma WidenedIsNarrow(bytes: Bytes)
    ensures Narrow(Widened(bytes)) && Narrowed(Widened(bytes)) == bytes
  {
    var narrowed := Narrowed(Widened(bytes));
    forall i | 0 <= i < |bytes| ensures narrowed[i] == bytes[i] {
      assert Widened(narrowed)[i] as int == narrowed[i] as int;
    }
  }

  // ---------------------------------------------------------------------------
  // One key
  // ---------------------------------------------------------------------------

  datatype EncryptedText = EncryptedText(
    ciphertext: Bytes,
    encryptedDek: Bytes,
    keyId: string,
    iv: Bytes,
    authTag: Bytes,
    algorithm: string,
    encryptedDekIv: Bytes,
    encryptedDekAuthTag: Bytes)

  datatype EncryptionError =
    | AlgorithmMismatch | KeyIdMismatch | BadEnvelope | InvalidTag | NotText | NoSuchKey

  datatype Entropy = Entropy(dek: Bytes, iv: Bytes, dekIv: Bytes)

  const SOME_ENTROPY :=
    Entropy(seq(KEY_BYTES, _ => 0 as byte), seq(IV_BYTES, _ => 0 as byte), seq(IV_BYTES, _ => 0 as byte))

  /** What one encryption draws from the system's random source. */
  type Randomness = r: Entropy | |r.dek| == KEY_BYTES && |r.iv| == IV_BYTES && |r.dekIv| == IV_BYTES
    witness SOME_ENTROPY

  /** The associated data; a context is given as its canonical JSON. */
  function AssociatedData(keyId: string, algorithm: string, context: Option<string>): string {
    "key_id=" + keyId + ";algorithm=" + algorithm
    + if context.Some? then ";context=" + context.value else ""
  }

  datatype Encryptor = Encryptor(kekId: string, kek: Bytes) {

    predicate Valid() {
      |kek| == KEY_BYTES
    }

    function EncryptText(p: Primitives, text: string, context: Option<string>, r: Randomness)
      : Result<EncryptedText, EncryptionError>
    {
      var ad := AssociatedData(kekId, ALGORITHM, context);
      match p.Encode(text)
      case None => Err(NotText)
      case Some(message) =>
        var (ciphertext, authTag) := SplitTag(p.Seal(r.dek, r.iv, message, ad));
        var (encryptedDek, dekTag) := SplitTag(p.Seal(kek, r.dekIv, r.dek, ad));
        Ok(EncryptedText(ciphertext, encryptedDek, kekId, r.iv, authTag, ALGORITHM, r.dekIv, dekTag))
    }

    function DecryptText(p: Primitives, e: EncryptedText, context: Option<string>): Result<string, EncryptionError> {
      if e.algorithm != ALGORITHM then Err(AlgorithmMismatch)
      else if e.keyId != kekId then Err(KeyIdMismatch)
      else if !ValidEnvelope(e) then Err(BadEnvelope)
      else
        var ad := AssociatedData(e.keyId, e.algorithm, context);
        match p.Open(kek, e.encryptedDekIv, e.encryptedDek + e.encryptedDekAuthTag, ad)
        case None => Err(InvalidTag)
        case Some(dek) =>
          match p.Open(dek, e.iv, e.ciphertext + e.authTag, ad)
          case None => Err(InvalidTag)
          case Some(message) =>
            match p.Decode(message)
            case None => Err(NotText)
            case Some(text) => Ok(text)
    }
  }

  /** The last 16 bytes are the tag; of a shorter sequence everything is. */
  function SplitTag(sealed: Bytes): (Bytes, Bytes) {
    var cut := if |sealed| < TAG_BYTES then 0 else |sealed| - TAG_BYTES;
    (sealed[..cut], sealed[cut..])
  }

  predicate ValidEnvelope(e: EncryptedText) {
    && |e.iv| == IV_BYTES && |e.encryptedDekIv| == IV_BYTES
    && |e.authTag| == TAG_BYTES && |e.encryptedDekAuthTag| == TAG_BYTES
    && |e.encryptedDek| == KEY_BYTES
  }

  /** Decryption returns the text that was encrypted, under the same context. */
  lemma EncryptorRoundTrip(p: Primitives, key: Encryptor, text: string, context: Option<string>, r: Randomness)
    requires p.Correct() && key.Valid() && p.Encode(text).Some?
    ensures var e := key.EncryptText(p, text, context, r);
            e.Ok? && ValidEnvelope(e.value) && key.DecryptText(p, e.value, context) == Ok(text)
  {
    var ad := AssociatedData(key.kekId, ALGORITHM, context);
    var message := p.Encode(text).value;
    var body, wrapped := p.Seal(r.dek, r.iv, message, ad), p.Seal(key.kek, r.dekIv, r.dek, ad);
    SplitTagJoins(body);
    SplitTagJoins(wrapped);
    assert p.Open(key.kek, r.dekIv, wrapped, ad) == Some(r.dek);
    assert p.Open(r.dek, r.iv, body, ad) == Some(message);
  }

  lemma SplitTagJoins(sealed: Bytes)
    ensures SplitTag(sealed).0 + SplitTag(sealed).1 == sealed
  {
  }

  /** Whatever decrypts can be encrypted again: decoded text always encodes. */
  lemma DecryptedTextEncodes(p: Primitives, key: Encryptor, e: EncryptedText, context: Option<string>)
    requires p.Correct() && key.DecryptText(p, e, context).Ok?
    ensures p.Encode(key.DecryptText(p, e, context).value).Some?
  {
    var ad := AssociatedData(e.keyId, e.algorithm, context);
    var dek := p.Open(key.kek, e.encryptedDekIv, e.encryptedDek + e.encryptedDekAuthTag, ad).value;
    var message := p.Open(dek, e.iv, e.ciphertext + e.authTag, ad).value;
    assert p.Encode(p.Decode(message).value) == Some(message);
  }

  /** What both layers of an envelope are bound to: the key, the algorithm and the context, if there is one. */
  function BoundTo(keyId: string, context: Option<string>): string {
    match context
    case None => "key_id=" + keyId + ";algorithm=AES-256-GCM"
    case Some(json) => "key_id=" + keyId + ";algorithm=AES-256-GCM;context=" + json
  }

  lemma BindingMeaning(keyId: string, context: Option<string>)
    ensures AssociatedData(keyId, "AES-256-GCM", context) == BoundTo(keyId, context)
  {
    if context.Some? {
      assert ";algorithm=" + "AES-256-GCM" + ";context=" == ";algorithm=AES-256-GCM;context=";
    } else {
      assert ";algorithm=" + "AES-256-GCM" + "" == ";algorithm=AES-256-GCM";
    }
  }

  /**
   * What an envelope is: the text sealed under a key drawn for it, and that key sealed under the
   * key-encryption key, each under an iv of its own, with the last 16 bytes of each kept apart.
   */
  lemma EnvelopeIsSealed(p: Primitives, key: Encryptor, text: string, context: Option<string>, r: Randomness)
    requires p.Correct() && key.Valid() && p.Encode(text).Some?
    ensures var e, ad := key.EncryptText(p, text, context, r), BoundTo(key.kekId, context);
            && e.Ok?
            && e.value.ciphertext + e.value.authTag == p.Seal(r.dek, r.iv, p.Encode(text).value, ad)
            && e.value.encryptedDek + e.value.encryptedDekAuthTag == p.Seal(key.kek, r.dekIv, r.dek, ad)
            && |e.value.authTag| == |e.value.encryptedDekAuthTag| == 16
            && e.value.iv == r.iv && e.value.encryptedDekIv == r.dekIv
            && e.value.keyId == key.kekId && e.value.algorithm == "AES-256-GCM"
  {
    BindingMeaning(key.kekId, context);
  }

  /** What an envelope reads as: exactly what the two layers open to, where its lengths and its key are right. */
  lemma EnvelopeOpensIff(p: Primitives, key: Encryptor, e: EncryptedText, context: Option<string>, text: string)
    ensures key.DecryptText(p, e, context) == Ok(text) <==>
              && e.algorithm == "AES-256-GCM" && e.keyId == key.kekId
              && |e.iv| == |e.encryptedDekIv| == 12 && |e.authTag| == |e.encryptedDekAuthTag| == 16
              && |e.encryptedDek| == 32
              && var ad := BoundTo(key.kekId, context);
                 var dek := p.Open(key.kek, e.encryptedDekIv, e.encryptedDek + e.encryptedDekAuthTag, ad);
                 && dek.Some?
                 && var message := p.Open(dek.value, e.iv, e.ciphertext + e.authTag, ad);
                    message.Some? && p.Decode(message.value) == Some(text)
  {
    BindingMeaning(key.kekId, context);
  }

  // ---------------------------------------------------------------------------
  // The keyring
  // ---------------------------------------------------------------------------

  datatype Keyring = Keyring(activeKeyId: string, encryptors: map<string, Encryptor>) {

    /** What every constructed keyring satisfies. */
    predicate Valid() {
      && activeKeyId in encryptors
      && forall id :: id in encryptors ==> encryptors[id].kekId == id && encryptors[id].Valid()
    }

    function EncryptText(p: Primitives, text: string, context: Option<string>, r: Randomness)
      : Result<EncryptedText, EncryptionError>
      requires Valid()
    {
      encryptors[activeKeyId].EncryptText(p, text, context, r)
    }

    function DecryptText(p: Primitives, e: EncryptedText, context: Option<string>): Result<string, EncryptionError> {
      if e.keyId !in encryptors then Err(NoSuchKey)
      else encryptors[e.keyId].DecryptText(p, e, context)
    }

    /** Two keyrings that give each id they share the same key. */
    predicate AgreesWith(other: Keyring) {
      forall id :: id in encryptors && id in other.encryptors ==> encryptors[id] == other.encryptors[id]
    }
  }

  /** A text written under one keyring is read by every keyring that still has the key it was written with. */
  lemma KeyringRoundTrip(p: Primitives, writer: Keyring, reader: Keyring, text: string, context: Option<string>,
                         r: Randomness)
    requires p.Correct() && writer.Valid() && reader.Valid()
    requires writer.AgreesWith(reader) && writer.activeKeyId in reader.encryptors
    requires p.Encode(text).Some?
    ensures var e := writer.EncryptText(p, text, context, r);
            e.Ok? && e.value.keyId == writer.activeKeyId && reader.DecryptText(p, e.value, context) == Ok(text)
  {
    EncryptorRoundTrip(p, writer.encryptors[writer.activeKeyId], text, context, r);
  }

  /** An envelope stays as it is under the active key, and is decrypted and encrypted again otherwise. */
  function ReencryptEnvelope(p: Primitives, k: Keyring, e: EncryptedText, r: Randomness)
    : Result<EncryptedText, EncryptionError>
    requires k.Valid()
  {
    if e.keyId == k.activeKeyId then Ok(e)
    else
      var text :- k.DecryptText(p, e, None);
      k.EncryptText(p, text, None, r)
  }

  /**
   * Re-encryption succeeds exactly where decryption does. The result is under the active key and
   * means the same text, to this keyring and to every other one that has that key.
   */
  lemma ReencryptKeepsText(p: Primitives, k: Keyring, e: EncryptedText, r: Randomness, reader: Keyring)
    requires p.Correct() && k.Valid() && reader.Valid()
    requires k.AgreesWith(reader) && k.activeKeyId in reader.encryptors
    requires e.keyId != k.activeKeyId
    ensures var again := ReencryptEnvelope(p, k, e, r);
            && (again.Ok? <==> k.DecryptText(p, e, None).Ok?)
            && (again.Ok? ==>
                  again.value.keyId == k.activeKeyId
                  && reader.DecryptText(p, again.value, None) == k.DecryptText(p, e, None))
  {
    var plain := k.DecryptText(p, e, None);
    if plain.Ok? {
      DecryptedTextEncodes(p, k.encryptors[e.keyId], e, None);
      KeyringRoundTrip(p, k, reader, plain.value, None, r);
    }
  }

  // ---------------------------------------------------------------------------
  // Building a keyring from configuration values
  // ---------------------------------------------------------------------------

  /** White space as the program's strings know it. */
  predicate IsSpace(c: char) {
    var n := c as int;
    || 0x09 <= n <= 0x0D || 0x1C <= n <= 0x20 || n == 0x85 || n == 0xA0 || n == 0x1680
    || 0x2000 <= n <= 0x200A || n == 0x2028 || n == 0x2029 || n == 0x202F || n == 0x205F || n == 0x3000
  }

  function Strip(s: string): string {
    if s != "" && IsSpace(s[0]) then Strip(s[1..])
    else if s != "" && IsSpace(s[|s| - 1]) then Strip(s[..|s| - 1])
    else s
  }

  lemma {:induction false} StripIsDone(s: string)
    ensures Strip(s) != "" ==> !IsSpace(Strip(s)[0]) && !IsSpace(Strip(s)[|Strip(s)| - 1])
    ensures Strip(Strip(s)) == Strip(s)
  {
    if s != "" && IsSpace(s[0]) {
      StripIsDone(s[1..]);
    } else if s != "" && IsSpace(s[|s| - 1]) {
      StripIsDone(s[..|s| - 1]);
    }
  }

  datatype KeyringError = BlankKeyId | DuplicateKeyId | BadKek

  function MakeEncryptor(p: Primitives, kekId: string, kekBase64: string): (r: Result<Encryptor, KeyringError>)
    ensures r.Ok? ==> r.value.kekId == kekId && r.value.Valid()
  {
    match p.FromBase64(kekBase64)
    case None => Err(BadKek)
    case Some(kek) => if |kek| == KEY_BYTES then Ok(Encryptor(kekId, kek)) else Err(BadKek)
  }

  datatype ConfiguredKek = ConfiguredKek(rawId: string, kekBase64: string)

  /** Adds the configured legacy keys, first to last; the first one that is refused decides the error. */
  function AddLegacy(p: Primitives, encryptors: map<string, Encryptor>, legacy: seq<ConfiguredKek>)
    : Result<map<string, Encryptor>, KeyringError>
    decreases |legacy|
  {
    if legacy == [] then Ok(encryptors)
    else
      var id := Strip(legacy[0].rawId);
      if id == "" then Err(BlankKeyId)
      else if id in encryptors then Err(DuplicateKeyId)
      else
        var encryptor :- MakeEncryptor(p, id, legacy[0].kekBase64);
        AddLegacy(p, encryptors[id := encryptor], legacy[1..])
  }

  function KeyringFrom(p: Primitives, rawActiveId: string, activeKek: string, legacy: seq<ConfiguredKek>)
    : Result<Keyring, KeyringError>
  {
    var activeId := Strip(rawActiveId);
    if activeId == "" then Err(BlankKeyId)
    else if exists c :: c in legacy && c.rawId == activeId then Err(DuplicateKeyId)
    else
      var active :- MakeEncryptor(p, activeId, activeKek);
      var encryptors :- AddLegacy(p, map[activeId := active], legacy);
      Ok(Keyring(activeId, encryptors))
  }

  /** The constructor as the program runs it, filling the dictionary key by key. */
  method FromValues(p: Primitives, rawActiveId: string, activeKek: string, legacy: seq<ConfiguredKek>)
    returns (r: Result<Keyring, KeyringError>)
    ensures r == KeyringFrom(p, rawActiveId, activeKek, legacy)
  {
    var activeId := Strip(rawActiveId);
    if activeId == "" {
      return Err(BlankKeyId);
    }
    if exists c :: c in legacy && c.rawId == activeId {
      return Err(DuplicateKeyId);
    }
    var active := MakeEncryptor(p, activeId, activeKek);
    if active.Err? {
      return Err(active.error);
    }
    var encryptors := map[activeId := active.value];
    for i := 0 to |legacy|
      invariant AddLegacy(p, map[activeId := active.value], legacy) == AddLegacy(p, encryptors, legacy[i..])
    {
      var id := Strip(legacy[i].rawId);
      assert legacy[i..][1..] == legacy[i + 1..];
      if id == "" {
        return Err(BlankKeyId);
      }
      if id in encryptors {
        return Err(DuplicateKeyId);
      }
      var encryptor := MakeEncryptor(p, id, legacy[i].kekBase64);
      if encryptor.Err? {
        return Err(encryptor.error);
      }
      encryptors := encryptors[id := encryptor.value];
    }
    return Ok(Keyring(activeId, encryptors));
  }

  predicate UsableKek(p: Primitives, kekBase64: string) {
    p.FromBase64(kekBase64).Some? && |p.FromBase64(kekBase64).value| == KEY_BYTES
  }

  /** The stripped ids are not blank, differ from each other and from those taken, and every key is usable. */
  predicate Addable(p: Primitives, taken: set<string>, legacy: seq<ConfiguredKek>) {
    forall i :: 0 <= i < |legacy| ==>
      && Strip(legacy[i].rawId) != "" && Strip(legacy[i].rawId) !in taken
      && UsableKek(p, legacy[i].kekBase64)
      && forall j :: 0 <= j < i ==> Strip(legacy[j].rawId) != Strip(legacy[i].rawId)
  }

  lemma {:induction false} AddLegacyMeaning(p: Primitives, encryptors: map<string, Encryptor>,
                                            legacy: seq<ConfiguredKek>)
    ensures AddLegacy(p, encryptors, legacy).Ok? <==> Addable(p, encryptors.Keys, legacy)
    ensures AddLegacy(p, encryptors, legacy).Ok? ==>
              var m := AddLegacy(p, encryptors, legacy).value;
              && (forall id :: id in m <==> id in encryptors || exists c :: c in legacy && Strip(c.rawId) == id)
              && (forall id :: id in encryptors ==> m[id] == encryptors[id])
              && (forall c :: c in legacy ==>
                    m[Strip(c.rawId)] == Encryptor(Strip(c.rawId), p.FromBase64(c.kekBase64).value))
    decreases |legacy|
  {
    hide Strip;
    if legacy != [] {
      var id := Strip(legacy[0].rawId);
      assert forall c :: c in legacy <==> c == legacy[0] || c in legacy[1..];
      if id != "" && id !in encryptors && UsableKek(p, legacy[0].kekBase64) {
        var next := encryptors[id := MakeEncryptor(p, id, legacy[0].kekBase64).value];
        AddLegacyMeaning(p, next, legacy[1..]);
        AddableStep(p, encryptors.Keys, legacy);
        assert next.Keys == encryptors.Keys + {id};
      }
    }
  }

  lemma AddableStep(p: Primitives, taken: set<string>, legacy: seq<ConfiguredKek>)
    requires legacy != []
    ensures var id := Strip(legacy[0].rawId);
            Addable(p, taken, legacy) <==>
              id != "" && id !in taken && UsableKek(p, legacy[0].kekBase64) && Addable(p, taken + {id}, legacy[1..])
  {
    hide Strip, UsableKek;
    var id, rest := Strip(legacy[0].rawId), legacy[1..];
    if Addable(p, taken, legacy) {
      forall i | 0 <= i < |rest|
        ensures Strip(rest[i].rawId) != "" && Strip(rest[i].rawId) !in taken + {id} && UsableKek(p, rest[i].kekBase64)
        ensures forall j :: 0 <= j < i ==> Strip(rest[j].rawId) != Strip(rest[i].rawId)
      {
        assert rest[i] == legacy[i + 1];
        forall j | 0 <= j < i ensures Strip(rest[j].rawId) != Strip(rest[i].rawId) {
          assert rest[j] == legacy[j + 1];
        }
      }
    }
    if id != "" && id !in taken && UsableKek(p, legacy[0].kekBase64) && Addable(p, taken + {id}, rest) {
      forall i | 0 <= i < |legacy|
        ensures Strip(legacy[i].rawId) != "" && Strip(legacy[i].rawId) !in taken && UsableKek(p, legacy[i].kekBase64)
        ensures forall j :: 0 <= j < i ==> Strip(legacy[j].rawId) != Strip(legacy[i].rawId)
      {
        if i > 0 {
          assert legacy[i] == rest[i - 1];
          forall j | 0 <= j < i ensures Strip(legacy[j].rawId) != Strip(legacy[i].rawId) {
            assert j > 0 ==> legacy[j] == rest[j - 1];
          }
        }
      }
    }
  }

  /**
   * A keyring is built exactly when all ids, stripped, are different and not blank and all keys have
   * 32 bytes. It then holds exactly those keys under exactly those ids. The program's separate test
   * of the active id against the unstripped legacy ids never decides the outcome alone.
   */
  lemma KeyringFromMeaning(p: Primitives, rawActiveId: string, activeKek: string, legacy: seq<ConfiguredKek>)
    ensures KeyringFrom(p, rawActiveId, activeKek, legacy).Ok? <==>
              && Strip(rawActiveId) != "" && UsableKek(p, activeKek) && Addable(p, {Strip(rawActiveId)}, legacy)
    ensures KeyringFrom(p, rawActiveId, activeKek, legacy).Ok? ==>
              var k := KeyringFrom(p, rawActiveId, activeKek, legacy).value;
              && k.Valid() && k.activeKeyId == Strip(rawActiveId)
              && k.encryptors[k.activeKeyId].kek == p.FromBase64(activeKek).value
              && (forall id :: id in k.encryptors <==>
                    id == k.activeKeyId || exists c :: c in legacy && Strip(c.rawId) == id)
              && (forall c :: c in legacy ==> k.encryptors[Strip(c.rawId)].kek == p.FromBase64(c.kekBase64).value)
  {
    var activeId := Strip(rawActiveId);
    StripIsDone(rawActiveId);
    forall c | c in legacy && c.rawId == activeId ensures !Addable(p, {activeId}, legacy) {
      var i :| 0 <= i < |legacy| && legacy[i] == c;
      assert Strip(legacy[i].rawId) == activeId;
    }
    var active := MakeEncryptor(p, activeId, activeKek);
    if active.Ok? {
      AddLegacyMeaning(p, map[activeId := active.value], legacy);
      assert map[activeId := active.value].Keys == {activeId};
    }
  }
}
