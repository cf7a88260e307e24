/** The length-prefixed transcript that finishes a recovery: what is signed determines every field. */
module Transcript {
  import opened Seqs
  import opened Base64Url
  import NativeHandles

  /** Text is taken as its UTF-8 bytes. */
  type Text = seq<nat>

  datatype Kdf = Kdf(alg: Text, salt: string, memoryKib: nat, iterations: nat, parallelism: nat)

  datatype RecoveryPacket = RecoveryPacket(version: nat, alg: Text, kdf: Kdf, nonce: string, ciphertext: string)

  datatype KeyEnvelope = KeyEnvelope(alg: Text, nonce: string, ciphertext: string)

  datatype KeyPacket = KeyPacket(version: nat, recipientDeviceId: Text, recipientPublicKey: string,
                                 ephemeralPublicKey: string, encryptedVaultKey: KeyEnvelope)

  datatype Device = Device(id: Text, name: Text, fingerprint: Text, publicKey: string, credential: string,
                           encryptedVaultKeyPacket: KeyPacket)

  datatype Input = Input(recoveryAttemptId: Text, challenge: string, email: Text, registrationSessionId: Text,
                         registrationRecord: string, newEncryptedRecoveryPacket: RecoveryPacket,
                         newRecoverySigningPublicKey: string, device: Device)

  // ---------------------------------------------------------------------------
  // The schema
  // ---------------------------------------------------------------------------

  /** The literals of the schema, as text. */
  datatype Literals = Literals(cipherAlg: Text, kdfAlg: Text)

  predicate CanonicalBytes(value: string, bytes: nat) {
    |value| == (bytes * 8 + 5) / 6 && IsCanonical(value) && DecodedLength(value) == bytes
  }

  predicate OpaqueMessage(value: string) {
    1 <= |value| <= (16_384 * 8 + 5) / 6 && IsCanonical(value) && DecodedLength(value) <= 16_384
  }

  /** The older base64url pattern: a non-empty body and at most two padding characters. */
  predicate LaxBase64(value: string) {
    Unpadded(value) != "" && InAlphabet(Unpadded(value)) && |value| - |Unpadded(value)| <= 2
  }

  predicate PacketValid(p: RecoveryPacket, lits: Literals) {
    && p.version == 2 && p.alg == lits.cipherAlg && p.kdf.alg == lits.kdfAlg
    && CanonicalBytes(p.kdf.salt, 16) && p.kdf.memoryKib == 65_536 && p.kdf.iterations == 3 && p.kdf.parallelism == 4
    && CanonicalBytes(p.nonce, 24) && CanonicalBytes(p.ciphertext, 81)
  }

  predicate DeviceValid(d: Device, lits: Literals) {
    var packet := d.encryptedVaultKeyPacket;
    var key := packet.encryptedVaultKey;
    && CanonicalBytes(d.publicKey, 32) && CanonicalBytes(d.credential, 32)
    && packet.version == 1 && packet.recipientDeviceId == d.id && packet.recipientPublicKey == d.publicKey
    && CanonicalBytes(packet.ephemeralPublicKey, 32)
    && key.alg == lits.cipherAlg
    && |key.nonce| <= 128 && LaxBase64(key.nonce) && DecodedLength(key.nonce) == 24
    && |key.ciphertext| <= 64 && LaxBase64(key.ciphertext) && DecodedLength(key.ciphertext) == 48
  }

  /** The constraints of the schema on a parsed input; the text patterns bound no length of interest here. */
  predicate SchemaValid(i: Input, lits: Literals) {
    && CanonicalBytes(i.challenge, 32) && OpaqueMessage(i.registrationRecord)
    && PacketValid(i.newEncryptedRecoveryPacket, lits)
    && CanonicalBytes(i.newRecoverySigningPublicKey, 32)
    && DeviceValid(i.device, lits)
  }

  /** Length arithmetic alone makes the two laxer envelope fields canonical. */
  lemma LaxIsCanonical(value: string, bytes: nat)
    requires LaxBase64(value) && DecodedLength(value) == bytes && bytes % 3 == 0 && bytes > 0
    ensures IsCanonical(value) && Unpadded(value) == value && |value| == bytes / 3 * 4
  {
    var n := |Unpadded(value)|;
    assert n % 4 != 1 && n * 6 / 8 == bytes;
    ThreeToFour(n, bytes);
    UnpaddedFull(value);
  }

  lemma ThreeToFour(n: nat, bytes: nat)
    requires n % 4 != 1 && n * 6 / 8 == bytes && bytes % 3 == 0
    ensures n == bytes / 3 * 4 && n % 4 == 0
  {
    var k, r := n / 4, n % 4;
    assert n * 6 == 24 * k + 6 * r && bytes == 3 * k + 6 * r / 8;
  }

  lemma {:induction false} UnpaddedFull(value: string)
    requires |Unpadded(value)| == |value|
    ensures Unpadded(value) == value
  {}

  // ---------------------------------------------------------------------------
  // The transcript
  // ---------------------------------------------------------------------------

  const MAX_TRANSCRIPT_BYTES: nat := 65_536

  function U32be(value: nat): (r: seq<nat>)
    ensures |r| == 4
  {
    [value / 0x1_000000 % 256, value / 0x1_0000 % 256, value / 0x100 % 256, value % 256]
  }

  /** One call of an appender: `append`, or `appendBase64`, which decodes first. */
  datatype Part = Plain(raw: seq<nat>) | Coded(text: string)
  {
    /** What is appended; `None` is the decoder's exception. */
    function Field(): Option<seq<nat>> {
      match this
      case Plain(raw) => Some(raw)
      case Coded(text) => Decoded(text)
    }
  }

  function HeadParts(i: Input): seq<Part> {
    [ Plain(i.recoveryAttemptId), Coded(i.challenge), Plain(i.email), Plain(i.registrationSessionId),
      Coded(i.registrationRecord) ]
  }

  function PacketParts(p: RecoveryPacket): seq<Part> {
    [ Plain([p.version % 256]), Plain(p.alg), Plain(p.kdf.alg), Coded(p.kdf.salt), Plain(U32be(p.kdf.memoryKib)),
      Plain(U32be(p.kdf.iterations)), Plain(U32be(p.kdf.parallelism)), Coded(p.nonce), Coded(p.ciphertext) ]
  }

  function DeviceParts(d: Device): seq<Part> {
    [Plain(d.id), Plain(d.name), Plain(d.fingerprint), Coded(d.publicKey), Coded(d.credential)]
  }

  function KeyParts(k: KeyPacket): seq<Part> {
    [ Plain([k.version % 256]), Plain(k.recipientDeviceId), Coded(k.recipientPublicKey), Coded(k.ephemeralPublicKey),
      Plain(k.encryptedVaultKey.alg), Coded(k.encryptedVaultKey.nonce), Coded(k.encryptedVaultKey.ciphertext) ]
  }

  /** The appender calls, in order. */
  function Parts(i: Input): (parts: seq<Part>)
    ensures |parts| == 27
  {
    HeadParts(i) + PacketParts(i.newEncryptedRecoveryPacket) + [Coded(i.newRecoverySigningPublicKey)] +
    DeviceParts(i.device) + KeyParts(i.device.encryptedVaultKeyPacket)
  }

  predicate AllDecode(parts: seq<Part>) {
    forall k :: 0 <= k < |parts| ==> parts[k].Field().Some?
  }

  function Fields(parts: seq<Part>): (fields: seq<seq<nat>>)
    requires AllDecode(parts)
    ensures |fields| == |parts|
  {
    seq(|parts|, k requires 0 <= k < |parts| => parts[k].Field().value)
  }

  /** Each field behind its four-byte length. */
  function Framed(fields: seq<seq<nat>>): seq<nat> {
    if fields == [] then []
    else Framed(fields[..|fields| - 1]) + U32be(|fields[|fields| - 1]|) + fields[|fields| - 1]
  }

  function Transcript(prefix: seq<nat>, i: Input): seq<nat>
    requires AllDecode(Parts(i))
  {
    prefix + Framed(Fields(Parts(i)))
  }

  // ---------------------------------------------------------------------------
  // Reading the frames back
  // ---------------------------------------------------------------------------

  function ReadU32be(b: seq<nat>): nat
    requires |b| == 4
  {
    b[0] * 0x1_000000 + b[1] * 0x1_0000 + b[2] * 0x100 + b[3]
  }

  lemma ReadBack(n: nat)
    requires n < 0x1_0000_0000
    ensures ReadU32be(U32be(n)) == n
  {
    var a, b, c := n / 0x100, n / 0x1_0000, n / 0x1_000000;
    assert a / 0x100 == b && b / 0x100 == c;
  }

  /** A parser of frames: `None` when the bytes do not end with a frame. */
  function Unframed(bytes: seq<nat>): Option<seq<seq<nat>>> {
    if bytes == [] then Some([])
    else if |bytes| < 4 then None
    else
      var n := ReadU32be(bytes[..4]);
      if |bytes| < 4 + n then None
      else
        var rest := Unframed(bytes[4 + n..]);
        if rest.None? then None else Some([bytes[4..4 + n]] + rest.value)
  }

  predicate Short(fields: seq<seq<nat>>) {
    forall k :: 0 <= k < |fields| ==> |fields[k]| < 0x1_0000_0000
  }

  lemma {:induction false} FramedFront(field: seq<nat>, rest: seq<seq<nat>>)
    ensures Framed([field] + rest) == U32be(|field|) + field + Framed(rest)
  {
    var all, n := [field] + rest, |rest|;
    if n == 0 {
      assert all[..0] == [] && Framed(all[..0]) == [];
      assert U32be(|field|) + field == [] + U32be(|field|) + field + [];
    } else {
      FramedFront(field, rest[..n - 1]);
      assert all[..n] == [field] + rest[..n - 1] && all[n] == rest[n - 1];
      var head, last := U32be(|field|) + field, U32be(|rest[n - 1]|);
      Regroup(head, Framed(rest[..n - 1]), last);
      Regroup(head, Framed(rest[..n - 1]) + last, rest[n - 1]);
    }
  }

  /** Parsing what was framed gives back the fields, whatever they contain. */
  lemma {:induction false} FramesReadBack(fields: seq<seq<nat>>)
    requires Short(fields)
    ensures Unframed(Framed(fields)) == Some(fields)
  {
    if fields != [] {
      var field, rest := fields[0], fields[1..];
      FramesReadBack(rest);
      FramedFront(field, rest);
      ReadBack(|field|);
      assert fields == [field] + rest;
      CutFrame(U32be(|field|), field, Framed(rest));
    }
  }

  lemma CutFrame(head: seq<nat>, field: seq<nat>, rest: seq<nat>)
    requires |head| == 4
    ensures var all := head + field + rest;
            all[..4] == head && all[4..4 + |field|] == field && all[4 + |field|..] == rest
  {}

  lemma {:induction false} FramedLength(fields: seq<seq<nat>>, k: nat)
    requires k < |fields|
    ensures |fields[k]| < |Framed(fields)|
  {
    var n := |fields| - 1;
    if k < n { FramedLength(fields[..n], k); }
  }

  // ---------------------------------------------------------------------------
  // What the schema guarantees
  // ---------------------------------------------------------------------------

  /** A schema-valid input never makes the decoder fail: the two laxer fields are canonical too. */
  lemma ValidDecodes(i: Input, lits: Literals)
    requires SchemaValid(i, lits)
    ensures AllDecode(Parts(i))
  {
    var key := i.device.encryptedVaultKeyPacket.encryptedVaultKey;
    LaxIsCanonical(key.nonce, 24);
    LaxIsCanonical(key.ciphertext, 48);
  }

  /** Equal fields come from equal strings. */
  lemma SameField(parts: seq<Part>, others: seq<Part>, k: nat)
    requires AllDecode(parts) && AllDecode(others) && Fields(parts) == Fields(others)
    requires k < |parts| && parts[k].Plain? == others[k].Plain?
    ensures parts[k] == others[k]
  {
    assert Fields(parts)[k] == Fields(others)[k];
    if parts[k].Coded? { DecodedInjective(parts[k].text, others[k].text); }
  }

  lemma SameParts(parts: seq<Part>, others: seq<Part>)
    requires AllDecode(parts) && AllDecode(others) && Fields(parts) == Fields(others)
    requires forall k :: 0 <= k < |parts| && k < |others| ==> parts[k].Plain? == others[k].Plain?
    ensures parts == others
  {
    assert |Fields(parts)| == |Fields(others)|;
    forall k | 0 <= k < |parts| ensures parts[k] == others[k] { SameField(parts, others, k); }
  }

  lemma SameKinds(i: Input, j: Input)
    ensures forall k :: 0 <= k < 27 ==> Parts(i)[k].Plain? == Parts(j)[k].Plain?
  {}

  lemma Blocks(i: Input)
    ensures var parts := Parts(i);
            && parts[0..5] == HeadParts(i) && parts[5..14] == PacketParts(i.newEncryptedRecoveryPacket)
            && parts[14] == Coded(i.newRecoverySigningPublicKey)
            && parts[15..20] == DeviceParts(i.device) && parts[20..27] == KeyParts(i.device.encryptedVaultKeyPacket)
  {}

  lemma PacketDetermined(p: RecoveryPacket, q: RecoveryPacket, lits: Literals)
    requires PacketValid(p, lits) && PacketValid(q, lits) && PacketParts(p) == PacketParts(q)
    ensures p == q
  {
    var a, b := PacketParts(p), PacketParts(q);
    assert a[3] == b[3] && a[7] == b[7] && a[8] == b[8];
  }

  lemma DeviceDetermined(d: Device, e: Device, lits: Literals)
    requires DeviceValid(d, lits) && DeviceValid(e, lits) && DeviceParts(d) == DeviceParts(e)
    requires KeyParts(d.encryptedVaultKeyPacket) == KeyParts(e.encryptedVaultKeyPacket)
    ensures d == e
  {
    var a, b := DeviceParts(d), DeviceParts(e);
    assert a[0] == b[0] && a[1] == b[1] && a[2] == b[2] && a[3] == b[3] && a[4] == b[4];
    var k, l := KeyParts(d.encryptedVaultKeyPacket), KeyParts(e.encryptedVaultKeyPacket);
    assert k[3] == l[3] && k[5] == l[5] && k[6] == l[6];
  }

  lemma PartsDetermine(i: Input, j: Input, lits: Literals)
    requires SchemaValid(i, lits) && SchemaValid(j, lits) && Parts(i) == Parts(j)
    ensures i == j
  {
    Blocks(i);
    Blocks(j);
    var a, b := HeadParts(i), HeadParts(j);
    assert a[0] == b[0] && a[1] == b[1] && a[2] == b[2] && a[3] == b[3] && a[4] == b[4];
    PacketDetermined(i.newEncryptedRecoveryPacket, j.newEncryptedRecoveryPacket, lits);
    DeviceDetermined(i.device, j.device, lits);
  }

  /** The email as the schema hands it on: trimmed and lower-cased, by a function not modelled here. */
  function Parsed(i: Input, normalize: Text -> Text): Input {
    i.(email := normalize(i.email))
  }

  /** Equal transcripts come from inputs that parse to the same value, field by field, and only from those. */
  lemma TranscriptDetermines(prefix: seq<nat>, i: Input, j: Input, lits: Literals, normalize: Text -> Text)
    requires SchemaValid(i, lits) && SchemaValid(j, lits)
    ensures AllDecode(Parts(Parsed(i, normalize))) && AllDecode(Parts(Parsed(j, normalize)))
    ensures var t, u := Transcript(prefix, Parsed(i, normalize)), Transcript(prefix, Parsed(j, normalize));
            |t| <= 65_536 ==> (t == u <==> Parsed(i, normalize) == Parsed(j, normalize))
  {
    var i', j' := Parsed(i, normalize), Parsed(j, normalize);
    ValidDecodes(i', lits);
    ValidDecodes(j', lits);
    if Transcript(prefix, i') == Transcript(prefix, j') && |Transcript(prefix, i')| <= MAX_TRANSCRIPT_BYTES {
      SameFrames(prefix, Fields(Parts(i')), Fields(Parts(j')));
      SameKinds(i', j');
      SameParts(Parts(i'), Parts(j'));
      PartsDetermine(i', j', lits);
    }
  }

  lemma SameFrames(prefix: seq<nat>, fields: seq<seq<nat>>, others: seq<seq<nat>>)
    requires prefix + Framed(fields) == prefix + Framed(others) && |prefix + Framed(fields)| < 0x1_0000_0000
    ensures fields == others
  {
    assert Framed(fields) == (prefix + Framed(fields))[|prefix|..];
    assert Framed(others) == (prefix + Framed(others))[|prefix|..];
    forall k | 0 <= k < |fields| ensures |fields[k]| < 0x1_0000_0000 { FramedLength(fields, k); }
    forall k | 0 <= k < |others| ensures |others[k]| < 0x1_0000_0000 { FramedLength(others, k); }
    FramesReadBack(fields);
    FramesReadBack(others);
  }

  // ---------------------------------------------------------------------------
  // The schema, by what the texts decode to
  // ---------------------------------------------------------------------------

  predicate Carries(text: string, bytes: nat) {
    Decoded(text).Some? && |Decoded(text).value| == bytes
  }

  lemma CanonicalCarries(text: string, bytes: nat)
    requires bytes > 0
    ensures CanonicalBytes(text, bytes) <==> Carries(text, bytes)
  {
    if IsCanonical(text) {
      DecodedNumeral(text);
      DecodeThenEncode(text);
      TextLength(|text|, bytes);
    }
  }

  lemma TextLength(n: nat, bytes: nat)
    requires n % 4 != 1
    ensures n * 6 / 8 == bytes ==> n == (bytes * 8 + 5) / 6
  {
    var k, r := n / 4, n % 4;
    assert n == 4 * k + r && (r == 0 || r == 2 || r == 3);
    assert n * 6 / 8 == 3 * k + r * 6 / 8;
  }

  lemma OpaqueCarries(text: string)
    ensures OpaqueMessage(text) <==> Decoded(text).Some? && 1 <= |Decoded(text).value| <= 16_384
  {
    if IsCanonical(text) { DecodeThenEncode(text); }
  }

  /** The two laxer fields: their lengths leave no room for padding or spare bits. */
  lemma LaxCarries(text: string, most: nat, bytes: nat)
    requires bytes % 3 == 0 && 0 < bytes / 3 * 4 <= most
    ensures |text| <= most && LaxBase64(text) && DecodedLength(text) == bytes <==> Carries(text, bytes)
  {
    if LaxBase64(text) && DecodedLength(text) == bytes {
      LaxIsCanonical(text, bytes);
      DecodeThenEncode(text);
    }
    if Carries(text, bytes) {
      DecodeThenEncode(text);
      AlphabetUnpadded(text);
      LaxIsCanonical(text, bytes);
    }
  }

  predicate PacketCarries(p: RecoveryPacket, lits: Literals) {
    && p.version == 2 && p.alg == lits.cipherAlg && p.kdf.alg == lits.kdfAlg
    && p.kdf.memoryKib == 65_536 && p.kdf.iterations == 3 && p.kdf.parallelism == 4
    && Carries(p.kdf.salt, 16) && Carries(p.nonce, 24) && Carries(p.ciphertext, 81)
  }

  predicate DeviceCarries(d: Device, lits: Literals) {
    var k := d.encryptedVaultKeyPacket;
    && Carries(d.publicKey, 32) && Carries(d.credential, 32) && k.version == 1
    && k.recipientDeviceId == d.id && k.recipientPublicKey == d.publicKey && Carries(k.ephemeralPublicKey, 32)
    && k.encryptedVaultKey.alg == lits.cipherAlg
    && Carries(k.encryptedVaultKey.nonce, 24) && Carries(k.encryptedVaultKey.ciphertext, 48)
  }

  /** The schema takes an input exactly when every text decodes to as many bytes as its field has. */
  lemma SchemaExactly(i: Input, lits: Literals)
    ensures SchemaValid(i, lits) <==>
            && Carries(i.challenge, 32) && Carries(i.newRecoverySigningPublicKey, 32)
            && Decoded(i.registrationRecord).Some? && 1 <= |Decoded(i.registrationRecord).value| <= 16_384
            && PacketCarries(i.newEncryptedRecoveryPacket, lits) && DeviceCarries(i.device, lits)
  {
    CanonicalCarries(i.challenge, 32);
    CanonicalCarries(i.newRecoverySigningPublicKey, 32);
    OpaqueCarries(i.registrationRecord);
    PacketExactly(i.newEncryptedRecoveryPacket, lits);
    DeviceExactly(i.device, lits);
  }

  lemma PacketExactly(p: RecoveryPacket, lits: Literals)
    ensures PacketValid(p, lits) <==> PacketCarries(p, lits)
  {
    CanonicalCarries(p.kdf.salt, 16);
    CanonicalCarries(p.nonce, 24);
    CanonicalCarries(p.ciphertext, 81);
  }

  lemma DeviceExactly(d: Device, lits: Literals)
    ensures DeviceValid(d, lits) <==> DeviceCarries(d, lits)
  {
    var k := d.encryptedVaultKeyPacket;
    CanonicalCarries(d.publicKey, 32);
    CanonicalCarries(d.credential, 32);
    CanonicalCarries(k.ephemeralPublicKey, 32);
    LaxCarries(k.encryptedVaultKey.nonce, 128, 24);
    LaxCarries(k.encryptedVaultKey.ciphertext, 64, 48);
  }

  // ---------------------------------------------------------------------------
  // The layout
  // ---------------------------------------------------------------------------

  /** A field holding the bytes of a base64url text, so many of them. */
  predicate Holds(field: seq<nat>, text: string, bytes: nat) {
    Decoded(text) == Some(field) && |field| == bytes
  }

  predicate HeadFields(f: seq<seq<nat>>, i: Input) {
    && |f| == 5 && f[0] == i.recoveryAttemptId && Holds(f[1], i.challenge, 32) && f[2] == i.email
    && f[3] == i.registrationSessionId && Decoded(i.registrationRecord) == Some(f[4])
  }

  /** Version 2, 65 536 KiB, three passes and four lanes, as single bytes and big-endian words. */
  predicate PacketFields(f: seq<seq<nat>>, p: RecoveryPacket) {
    && |f| == 9 && f[0] == [2] && f[1] == p.alg && f[2] == p.kdf.alg && Holds(f[3], p.kdf.salt, 16)
    && f[4] == [0, 1, 0, 0] && f[5] == [0, 0, 0, 3] && f[6] == [0, 0, 0, 4]
    && Holds(f[7], p.nonce, 24) && Holds(f[8], p.ciphertext, 81)
  }

  predicate DeviceFields(f: seq<seq<nat>>, d: Device) {
    && |f| == 5 && f[0] == d.id && f[1] == d.name && f[2] == d.fingerprint
    && Holds(f[3], d.publicKey, 32) && Holds(f[4], d.credential, 32)
  }

  predicate KeyFields(f: seq<seq<nat>>, d: Device) {
    var k := d.encryptedVaultKeyPacket;
    && |f| == 7 && f[0] == [1] && f[1] == d.id && Holds(f[2], d.publicKey, 32) && Holds(f[3], k.ephemeralPublicKey, 32)
    && f[4] == k.encryptedVaultKey.alg && Holds(f[5], k.encryptedVaultKey.nonce, 24)
    && Holds(f[6], k.encryptedVaultKey.ciphertext, 48)
  }

  lemma HeldAt(parts: seq<Part>, k: nat, text: string, bytes: nat)
    requires AllDecode(parts) && k < |parts| && parts[k] == Coded(text)
    requires CanonicalBytes(text, bytes)
    ensures Holds(Fields(parts)[k], text, bytes)
  {
    DecodeThenEncode(text);
  }

  lemma HeadLaidOut(i: Input)
    requires AllDecode(HeadParts(i)) && CanonicalBytes(i.challenge, 32)
    ensures HeadFields(Fields(HeadParts(i)), i)
  {
    HeldAt(HeadParts(i), 1, i.challenge, 32);
  }

  lemma Words()
    ensures U32be(65_536) == [0, 1, 0, 0] && U32be(3) == [0, 0, 0, 3] && U32be(4) == [0, 0, 0, 4]
  {}

  lemma PacketLaidOut(p: RecoveryPacket, lits: Literals)
    requires AllDecode(PacketParts(p)) && PacketValid(p, lits)
    ensures PacketFields(Fields(PacketParts(p)), p)
  {
    var parts := PacketParts(p);
    Words();
    HeldAt(parts, 3, p.kdf.salt, 16);
    HeldAt(parts, 7, p.nonce, 24);
    HeldAt(parts, 8, p.ciphertext, 81);
  }

  lemma DeviceLaidOut(d: Device)
    requires AllDecode(DeviceParts(d)) && CanonicalBytes(d.publicKey, 32) && CanonicalBytes(d.credential, 32)
    ensures DeviceFields(Fields(DeviceParts(d)), d)
  {
    HeldAt(DeviceParts(d), 3, d.publicKey, 32);
    HeldAt(DeviceParts(d), 4, d.credential, 32);
  }

  lemma KeyLaidOut(d: Device, k: KeyPacket)
    requires k == d.encryptedVaultKeyPacket && AllDecode(KeyParts(k)) && k.version == 1
    requires k.recipientDeviceId == d.id && k.recipientPublicKey == d.publicKey
    requires CanonicalBytes(d.publicKey, 32) && CanonicalBytes(k.ephemeralPublicKey, 32)
    requires CanonicalBytes(k.encryptedVaultKey.nonce, 24) && CanonicalBytes(k.encryptedVaultKey.ciphertext, 48)
    ensures KeyFields(Fields(KeyParts(k)), d)
  {
    var parts := KeyParts(k);
    HeldAt(parts, 2, d.publicKey, 32);
    HeldAt(parts, 3, k.ephemeralPublicKey, 32);
    EnvelopeHeld(k);
    PlainKeyFields(k);
  }

  lemma PlainKeyFields(k: KeyPacket)
    requires AllDecode(KeyParts(k)) && k.version == 1
    ensures var f := Fields(KeyParts(k)); f[0] == [1] && f[1] == k.recipientDeviceId && f[4] == k.encryptedVaultKey.alg
  {}

  lemma EnvelopeHeld(k: KeyPacket)
    requires AllDecode(KeyParts(k))
    requires CanonicalBytes(k.encryptedVaultKey.nonce, 24) && CanonicalBytes(k.encryptedVaultKey.ciphertext, 48)
    ensures Holds(Fields(KeyParts(k))[5], k.encryptedVaultKey.nonce, 24)
    ensures Holds(Fields(KeyParts(k))[6], k.encryptedVaultKey.ciphertext, 48)
  {
    HeldAt(KeyParts(k), 5, k.encryptedVaultKey.nonce, 24);
    HeldAt(KeyParts(k), 6, k.encryptedVaultKey.ciphertext, 48);
  }

  lemma KeyCanonical(d: Device, lits: Literals)
    requires DeviceValid(d, lits)
    ensures var key := d.encryptedVaultKeyPacket.encryptedVaultKey;
            CanonicalBytes(key.nonce, 24) && CanonicalBytes(key.ciphertext, 48)
  {
    var key := d.encryptedVaultKeyPacket.encryptedVaultKey;
    LaxIsCanonical(key.nonce, 24);
    LaxIsCanonical(key.ciphertext, 48);
  }

  lemma FieldsOfSlice(parts: seq<Part>, lo: nat, hi: nat)
    requires AllDecode(parts) && lo <= hi <= |parts|
    ensures AllDecode(parts[lo..hi]) && Fields(parts[lo..hi]) == Fields(parts)[lo..hi]
  {}

  /** The named fields, in this order. */
  predicate FieldsNamed(f: seq<seq<nat>>, i: Input) {
    && |f| == 27 && HeadFields(f[0..5], i) && PacketFields(f[5..14], i.newEncryptedRecoveryPacket)
    && Holds(f[14], i.newRecoverySigningPublicKey, 32)
    && DeviceFields(f[15..20], i.device) && KeyFields(f[20..27], i.device)
  }

  lemma AllLaidOut(i: Input, lits: Literals)
    requires SchemaValid(i, lits) && AllDecode(Parts(i))
    ensures FieldsNamed(Fields(Parts(i)), i)
  {
    var parts := Parts(i);
    Blocks(i);
    FieldsOfSlice(parts, 0, 5);
    FieldsOfSlice(parts, 5, 14);
    FieldsOfSlice(parts, 15, 20);
    FieldsOfSlice(parts, 20, 27);
    KeyCanonical(i.device, lits);
    HeadLaidOut(i);
    PacketLaidOut(i.newEncryptedRecoveryPacket, lits);
    HeldAt(parts, 14, i.newRecoverySigningPublicKey, 32);
    DeviceLaidOut(i.device);
    KeyLaidOut(i.device, i.device.encryptedVaultKeyPacket);
  }

  /**
   * A reader of the transcript: after the prefix come 27 frames, which hold the named fields in this order. What is
   * within the limit is what the native signer takes.
   */
  lemma Layout(prefix: seq<nat>, i: Input, lits: Literals)
    requires SchemaValid(i, lits)
    ensures AllDecode(Parts(i))
    ensures |Transcript(prefix, i)| <= 65_536 ==>
              var t := Transcript(prefix, i);
              && |prefix| <= |t| && t[..|prefix|] == prefix
              && Unframed(t[|prefix|..]).Some? && FieldsNamed(Unframed(t[|prefix|..]).value, i)
    ensures |Transcript(prefix, i)| <= 65_536 <==> NativeHandles.TranscriptAccepted(Transcript(prefix, i), prefix)
  {
    ValidDecodes(i, lits);
    if |Transcript(prefix, i)| <= 65_536 {
      ReadsFields(prefix, i);
      AllLaidOut(i, lits);
    }
  }

  lemma ReadsFields(prefix: seq<nat>, i: Input)
    requires AllDecode(Parts(i)) && |Transcript(prefix, i)| <= 65_536
    ensures Unframed(Transcript(prefix, i)[|prefix|..]) == Some(Fields(Parts(i)))
  {
    var fields := Fields(Parts(i));
    assert Transcript(prefix, i)[|prefix|..] == Framed(fields);
    forall k | 0 <= k < |fields| ensures |fields[k]| < 0x1_0000_0000 { FramedLength(fields, k); }
    FramesReadBack(fields);
  }

  // ---------------------------------------------------------------------------
  // The source's loop
  // ---------------------------------------------------------------------------

  datatype Error = Schema | NotCanonical | TooLarge
  datatype Result = Ok(transcript: seq<nat>) | Failed(error: Error)

  lemma FlattenPush(chunks: seq<seq<nat>>, a: seq<nat>, b: seq<nat>)
    ensures Flatten(chunks + [a, b]) == Flatten(chunks) + a + b
  {
    assert (chunks + [a, b])[..|chunks| + 1] == chunks + [a];
    assert (chunks + [a])[..|chunks|] == chunks;
  }

  /** The chunks pushed so far and their running length. */
  class Writer {
    var chunks: seq<seq<nat>>
    var length: nat

    ghost predicate Valid()
      reads this
    {
      length == |Flatten(chunks)|
    }

    constructor (prefix: seq<nat>)
      ensures Valid() && Flatten(chunks) == prefix
    {
      chunks, length := [prefix], |prefix|;
      new;
      assert [prefix][..0] == [];
      assert Flatten([prefix]) == [] + prefix;
    }

    /** `append`: false is the exception `recovery_finish_transcript_too_large`. */
    method Append(raw: seq<nat>) returns (ok: bool)
      requires Valid()
      modifies this
      ensures Valid() && Flatten(chunks) == old(Flatten(chunks)) + U32be(|raw|) + raw
      ensures ok <==> |Flatten(chunks)| <= MAX_TRANSCRIPT_BYTES
    {
      FlattenPush(chunks, U32be(|raw|), raw);
      chunks, length := chunks + [U32be(|raw|), raw], length + 4 + |raw|;
      ok := length <= MAX_TRANSCRIPT_BYTES;
    }

    /** The copy into one buffer. */
    method Output() returns (output: array<nat>)
      requires Valid()
      ensures fresh(output) && output[..] == Flatten(chunks)
    {
      output := new nat[length];
      var offset: nat := 0;
      for k := 0 to |chunks|
        invariant offset == |Flatten(chunks[..k])| <= output.Length
        invariant output[..offset] == Flatten(chunks[..k])
      {
        assert chunks[..k + 1][..k] == chunks[..k];
        FlattenPrefix(chunks, k + 1);
        CopyInto(output, chunks[k], offset);
        offset := offset + |chunks[k]|;
      }
      assert chunks[..|chunks|] == chunks;
      assert output[..offset] == output[..];
    }
  }

  /** `output.set(chunk, offset)`. */
  method CopyInto(output: array<nat>, chunk: seq<nat>, offset: nat)
    requires offset + |chunk| <= output.Length
    modifies output
    ensures output[..offset + |chunk|] == old(output[..offset]) + chunk
  {
    forall k | 0 <= k < |chunk| { output[offset + k] := chunk[k]; }
  }

  /** The appender calls one after another; `None` when all of them return. */
  method AppendAll(writer: Writer, ghost prefix: seq<nat>, parts: seq<Part>) returns (failure: Option<Error>)
    requires writer.Valid() && Flatten(writer.chunks) == prefix && |prefix| <= MAX_TRANSCRIPT_BYTES && AllDecode(parts)
    modifies writer
    ensures writer.Valid()
    ensures var all := prefix + Framed(Fields(parts));
            && (|all| <= MAX_TRANSCRIPT_BYTES ==> failure == None && Flatten(writer.chunks) == all)
            && (|all| > MAX_TRANSCRIPT_BYTES ==> failure == Some(TooLarge))
  {
    ghost var fields := Fields(parts);
    for k := 0 to |parts|
      invariant writer.Valid()
      invariant Flatten(writer.chunks) == prefix + Framed(fields[..k])
      invariant |Flatten(writer.chunks)| <= MAX_TRANSCRIPT_BYTES
    {
      var field: Option<seq<nat>>;
      match parts[k] {
        case Plain(raw) => field := Some(raw);
        case Coded(text) => field := Decode(text);
      }
      if field.None? { return Some(NotCanonical); }
      NextFrame(prefix, fields, k);
      var ok := writer.Append(field.value);
      if !ok { return Some(TooLarge); }
    }
    assert fields[..|parts|] == fields;
    failure := None;
  }

  lemma NextFrame(prefix: seq<nat>, fields: seq<seq<nat>>, k: nat)
    requires k < |fields|
    ensures prefix + Framed(fields[..k + 1]) ==
            prefix + Framed(fields[..k]) + U32be(|fields[k]|) + fields[k]
    ensures |Framed(fields[..k + 1])| <= |Framed(fields)|
  {
    assert fields[..k + 1][..k] == fields[..k];
    Regroup(prefix, Framed(fields[..k]), U32be(|fields[k]|));
    Regroup(prefix, Framed(fields[..k]) + U32be(|fields[k]|), fields[k]);
    FramedGrows(fields, k + 1);
  }

  /**
   * `buildRecoveryFinishTranscript`: a schema-valid input fails only for its size, and then exactly when the
   * transcript of the parsed input is longer than the limit. The prefix is the source's constant of 30 bytes.
   */
  method BuildTranscript(prefix: seq<nat>, input: Input, lits: Literals, normalize: Text -> Text)
    returns (r: Result)
    requires |prefix| == 30
    ensures !SchemaValid(input, lits) <==> r == Failed(Schema)
    ensures SchemaValid(input, lits) ==>
              && AllDecode(Parts(Parsed(input, normalize)))
              && var t := Transcript(prefix, Parsed(input, normalize));
                 r == if |t| <= 65_536 then Ok(t) else Failed(TooLarge)
  {
    if !SchemaValid(input, lits) { return Failed(Schema); }
    var parsed := Parsed(input, normalize);
    ValidDecodes(parsed, lits);
    var writer := new Writer(prefix);
    var failure := AppendAll(writer, prefix, Parts(parsed));
    if failure.Some? { return Failed(failure.value); }
    var output := writer.Output();
    r := Ok(output[..]);
  }

  lemma {:induction false} FramedGrows(fields: seq<seq<nat>>, k: nat)
    requires k <= |fields|
    ensures |Framed(fields[..k])| <= |Framed(fields)|
  {
    var n := |fields| - 1;
    if k <= n {
      FramedGrows(fields[..n], k);
      assert fields[..n][..k] == fields[..k];
    } else {
      assert fields[..k] == fields;
    }
  }
}
