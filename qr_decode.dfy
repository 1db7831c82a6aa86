/** The decoder script `scripts/decode_qr_video.py`: two passes over the QR
    codes read from the frames — one for the public key, the protected
    private key and the FEC information, one for the `QDV2` records — then
    the choice between direct reassembly and Reed–Solomon recovery, and the
    decryption of the reassembled envelope. The library primitives and
    CRC-32 are parameters; a frame is the sequence of byte strings its QR
    codes carry. */
module QrDecode {
  import opened Wrappers
  import opened Bytes
  import QrEncode

  /** The library primitives the decoder calls: PBKDF2 key derivation,
      AES-GCM opening (`None` is the InvalidTag exception), loading an RSA
      private key in PEM form and OAEP-unwrapping with it (`None` is any
      exception of either), and `json.loads` of UTF-8 text to an object,
      kept with its integer entries (`None` is a decode or parse error). */
  datatype Primitives = Primitives(
    kdf: (string, Bytes) -> Bytes,
    open: (Bytes, Bytes, Bytes) -> Option<Bytes>,
    unwrapKey: (Bytes, Bytes) -> Option<Bytes>,
    parseJson: Bytes -> Option<map<string, int>>)

  /** The decoder's primitives undo the encoder's: the same key derivation,
      and opening what was sealed under the same key and nonce. */
  ghost predicate Opens(c: QrEncode.Crypto, d: Primitives) {
    && c.kdf == d.kdf
    && forall k, n, m :: d.open(k, n, c.seal(k, n, m)) == Some(m)
  }

  /** `privPem` unwraps what was wrapped under `pubPem`. */
  ghost predicate KeyPair(c: QrEncode.Crypto, d: Primitives, pubPem: Bytes, privPem: Bytes) {
    forall k :: d.unwrapKey(privPem, c.wrapKey(pubPem, k)) == Some(k)
  }

  // ---------------------------------------------------------------------
  // Envelopes

  datatype KeyParts = KeyParts(salt: Bytes, nonce: Bytes, ct: Bytes)

  /** The framing checks of `unprotect_privkey_aes`: the "PRIVKEY_AES"
      prefix and at least 28 bytes after it, split into a 16-byte salt, a
      12-byte nonce and the ciphertext. */
  function ParseKeyEnvelope(q: Bytes): (r: Option<KeyParts>)
    ensures r.Some? <==> StartsWith(q, QrEncode.MagicKey()) && |q| >= 11 + 28
  {
    if !StartsWith(q, QrEncode.MagicKey()) then None
    else
      var data := q[11..];
      if |data| < 28 then None
      else Some(KeyParts(data[..16], data[16..28], data[28..]))
  }

  /** The parts of a key envelope put back together give the envelope. */
  lemma KeyPartsReassemble(q: Bytes)
    requires ParseKeyEnvelope(q).Some?
    ensures var p := ParseKeyEnvelope(q).value;
      |p.salt| == 16 && |p.nonce| == 12 && q == QrEncode.KeyEnvelope(p.salt, p.nonce, p.ct)
  {
    var data := q[11..];
    assert q == q[..11] + data[..16] + data[16..28] + data[28..];
  }

  /** The key envelope the encoder writes parses back into its parts. */
  lemma KeyEnvelopeRoundTrip(salt: Bytes, nonce: Bytes, ct: Bytes)
    requires |salt| == 16 && |nonce| == 12
    ensures ParseKeyEnvelope(QrEncode.KeyEnvelope(salt, nonce, ct)) == Some(KeyParts(salt, nonce, ct))
  {
    var e := QrEncode.KeyEnvelope(salt, nonce, ct);
    assert e[11..][..16] == salt && e[11..][16..28] == nonce && e[11..][28..] == ct;
  }

  datatype PayloadParts = PayloadParts(salt: Bytes, nonce: Bytes, encKey: Bytes, ct: Bytes)

  /** The framing checks of `decrypt_payload_aes_gcm`: the "AES256GCM"
      prefix and at least 30 bytes after it; the two bytes after salt and
      nonce give the wrapped key's length, and slicing clamps, so a short
      envelope yields a short key and an empty ciphertext. */
  function ParsePayloadEnvelope(q: Bytes): (r: Option<PayloadParts>)
    ensures r.Some? <==> StartsWith(q, QrEncode.MagicPayload()) && |q| >= 9 + 30
  {
    if !StartsWith(q, QrEncode.MagicPayload()) then None
    else
      var data := q[9..];
      if |data| < 30 then None
      else
        var keyLen := FromBe(data[28..30]);
        Some(PayloadParts(data[..16], data[16..28], Slice(data, 30, 30 + keyLen), From(data, 30 + keyLen)))
  }

  /** The parts of a payload envelope put back together give the envelope;
      the wrapped key is cut short only when no ciphertext is left. */
  lemma PayloadPartsReassemble(q: Bytes)
    requires ParsePayloadEnvelope(q).Some?
    ensures var p := ParsePayloadEnvelope(q).value;
      && |p.salt| == 16 && |p.nonce| == 12
      && |p.encKey| <= FromBe(q[37..39])
      && (p.ct != [] ==> |p.encKey| == FromBe(q[37..39]))
      && q == QrEncode.MagicPayload() + p.salt + p.nonce + q[37..39] + p.encKey + p.ct
  {
    var data := q[9..];
    var keyLen := FromBe(data[28..30]);
    var encKey := Slice(data, 30, 30 + keyLen);
    var ct := From(data, 30 + keyLen);
    assert data[28..30] == q[37..39];
    if 30 + keyLen <= |data| {
      assert data[30..] == encKey + ct;
    } else {
      assert data[30..] == encKey;
    }
    assert data == data[..16] + data[16..28] + data[28..30] + data[30..];
    assert q == q[..9] + data;
  }

  /** The payload envelope the encoder writes parses back into its parts. */
  lemma PayloadEnvelopeRoundTrip(salt: Bytes, nonce: Bytes, encKey: Bytes, ct: Bytes)
    requires |salt| == 16 && |nonce| == 12
    requires QrEncode.PayloadEnvelope(salt, nonce, encKey, ct).Some?
    ensures ParsePayloadEnvelope(QrEncode.PayloadEnvelope(salt, nonce, encKey, ct).value)
            == Some(PayloadParts(salt, nonce, encKey, ct))
  {
    var e := QrEncode.PayloadEnvelope(salt, nonce, encKey, ct).value;
    QrEncode.Pow256Small();
    var l := ToBytesBig(|encKey|, 2).value;
    assert e == QrEncode.MagicPayload() + salt + nonce + l + encKey + ct;
    var data := e[9..];
    assert data == salt + nonce + l + encKey + ct;
    assert data[..16] == salt && data[16..28] == nonce;
    assert data[28..30] == l && FromBe(l) == |encKey|;
    assert data[30..30 + |encKey|] == encKey;
    assert data[30 + |encKey|..] == ct;
  }

  /** `unprotect_privkey_aes`: `None` is any exception it raises. */
  function Unprotect(q: Bytes, password: string, d: Primitives): (r: Option<Bytes>)
    ensures r.Some? ==> ParseKeyEnvelope(q).Some?
  {
    match ParseKeyEnvelope(q)
    case None => None
    case Some(p) => d.open(d.kdf(password, p.salt), p.nonce, p.ct)
  }

  /** The key frame protected under the frame password opens under the same
      password to the private key. */
  lemma UnprotectProtect(privPem: Bytes, password: string, salt: Bytes, nonce: Bytes, c: QrEncode.Crypto, d: Primitives)
    requires |salt| == 16 && |nonce| == 12 && Opens(c, d)
    ensures Unprotect(QrEncode.ProtectKey(privPem, password, salt, nonce, c), password, d) == Some(privPem)
  {
    var key := c.kdf(password, salt);
    KeyEnvelopeRoundTrip(salt, nonce, c.seal(key, nonce, privPem));
    assert d.open(key, nonce, c.seal(key, nonce, privPem)) == Some(privPem);
  }

  /** `decrypt_payload_aes_gcm`: the AES key is recovered with the private
      key alone (the public key argument is unused); `None` is any
      exception it raises. */
  function DecryptPayload(enc: Bytes, privPem: Bytes, d: Primitives): (r: Option<Bytes>)
    ensures r.Some? ==> ParsePayloadEnvelope(enc).Some?
  {
    match ParsePayloadEnvelope(enc)
    case None => None
    case Some(p) =>
      match d.unwrapKey(privPem, p.encKey)
      case None => None
      case Some(key) => d.open(key, p.nonce, p.ct)
  }

  /** Decryption undoes `encrypt_payload_aes_gcm` for the matching private
      key, whatever the passphrase was. */
  lemma DecryptEncrypt(data: Bytes, passphrase: string, pubPem: Bytes, privPem: Bytes, salt: Bytes, nonce: Bytes,
                       c: QrEncode.Crypto, d: Primitives)
    requires |salt| == 16 && |nonce| == 12 && Opens(c, d) && KeyPair(c, d, pubPem, privPem)
    requires QrEncode.EncryptPayload(data, passphrase, pubPem, salt, nonce, c).Some?
    ensures DecryptPayload(QrEncode.EncryptPayload(data, passphrase, pubPem, salt, nonce, c).value, privPem, d) == Some(data)
  {
    var key := c.kdf(passphrase, salt);
    var encKey := c.wrapKey(pubPem, key);
    var ct := c.seal(key, nonce, data);
    PayloadEnvelopeRoundTrip(salt, nonce, encKey, ct);
    assert d.unwrapKey(privPem, encKey) == Some(key);
    assert d.open(key, nonce, ct) == Some(data);
  }

  // ---------------------------------------------------------------------
  // QDV2 records

  datatype Record = Record(idx: nat, total: nat, isFec: bool, payload: Bytes)

  /** One code of the record pass: a "QDV2" code of at least 16 bytes is
      split by its length field, and accepted when the four bytes after the
      payload are the payload's CRC-32. `None` is a code skipped. */
  function ParseRecord(q: Bytes, crc: Bytes -> bv32): (r: Option<Record>)
    ensures r.Some? ==> StartsWith(q, QrEncode.MagicData())
  {
    if !StartsWith(q, QrEncode.MagicData()) || |q| < 16 then None
    else
      var length := FromBe(q[12..14]);
      var payload := Slice(q, 15, 15 + length);
      var received := Slice(q, 15 + length, 19 + length);
      if QrEncode.CrcBytes(crc(payload)) != received then None
      else Some(Record(FromBe(q[4..8]), FromBe(q[8..12]), q[14] == 1, payload))
  }

  /** An accepted code holds all of its payload and the payload's CRC: the
      length field is the payload's length, so a truncated code is never
      accepted. */
  lemma ParseRecordFields(q: Bytes, crc: Bytes -> bv32)
    requires ParseRecord(q, crc).Some?
    ensures var r := ParseRecord(q, crc).value;
      && |q| >= 19 + |r.payload|
      && r.idx == FromBe(q[4..8]) && r.total == FromBe(q[8..12])
      && FromBe(q[12..14]) == |r.payload| && (r.isFec <==> q[14] == 1)
      && q[15..15 + |r.payload|] == r.payload
      && q[15 + |r.payload|..19 + |r.payload|] == QrEncode.CrcBytes(crc(r.payload))
  {
  }

  /** Every record the encoder wraps is accepted with its own fields. */
  lemma ParseWrapped(idx: nat, total: nat, blob: Bytes, isFec: bool, crc: Bytes -> bv32)
    requires QrEncode.WrapChunk(idx, total, blob, isFec, crc).Some?
    ensures ParseRecord(QrEncode.WrapChunk(idx, total, blob, isFec, crc).value, crc) == Some(Record(idx, total, isFec, blob))
  {
  }

  /** Conversely an accepted code that ends with its CRC and carries a
      0 or 1 flag byte is exactly the wrapping of its fields. */
  lemma AcceptedIsWrapped(q: Bytes, crc: Bytes -> bv32)
    requires ParseRecord(q, crc).Some?
    requires |q| == 19 + |ParseRecord(q, crc).value.payload| && q[14] <= 1
    ensures var r := ParseRecord(q, crc).value;
            QrEncode.WrapChunk(r.idx, r.total, r.payload, r.isFec, crc) == Some(q)
  {
    var r := ParseRecord(q, crc).value;
    ParseRecordFields(q, crc);
    var w := QrEncode.WrapChunk(r.idx, r.total, r.payload, r.isFec, crc).value;
    FromBeInjective(w[4..8], q[4..8]);
    FromBeInjective(w[8..12], q[8..12]);
    FromBeInjective(w[12..14], q[12..14]);
    SameRecord(w, q, |r.payload|);
  }

  /** Two records of one length that agree field by field are equal. */
  lemma SameRecord(w: Bytes, q: Bytes, p: nat)
    requires |w| == |q| == 19 + p
    requires w[..4] == q[..4] && w[4..8] == q[4..8] && w[8..12] == q[8..12] && w[12..14] == q[12..14]
    requires w[14] == q[14] && w[15..15 + p] == q[15..15 + p] && w[15 + p..] == q[15 + p..]
    ensures w == q
  {
    forall i | 0 <= i < |q|
      ensures w[i] == q[i]
    {
      if i < 4 {
        assert w[i] == w[..4][i] && q[i] == q[..4][i];
      } else if i < 8 {
        assert w[i] == w[4..8][i - 4] && q[i] == q[4..8][i - 4];
      } else if i < 12 {
        assert w[i] == w[8..12][i - 8] && q[i] == q[8..12][i - 8];
      } else if i < 14 {
        assert w[i] == w[12..14][i - 12] && q[i] == q[12..14][i - 12];
      } else if i < 15 {
      } else if i < 15 + p {
        assert w[i] == w[15..15 + p][i - 15] && q[i] == q[15..15 + p][i - 15];
      } else {
        assert w[i] == w[15 + p..][i - 15 - p] && q[i] == q[15 + p..][i - 15 - p];
      }
    }
  }

  lemma DivMod256(x: nat, r: nat)
    requires r < 256
    ensures (x * 256 + r) % 256 == r && (x * 256 + r) / 256 == x
  {
  }

  /** Big-endian decoding tells byte strings of one length apart. */
  lemma {:induction false} FromBeInjective(a: Bytes, b: Bytes)
    requires |a| == |b| && FromBe(a) == FromBe(b)
    ensures a == b
  {
    if a != [] {
      var n := |a| - 1;
      DivMod256(FromBe(a[..n]), a[n]);
      DivMod256(FromBe(b[..n]), b[n]);
      FromBeInjective(a[..n], b[..n]);
      assert a == a[..n] + [a[n]] && b == b[..n] + [b[n]];
    }
  }

  /** The wire prefixes differ in their first byte ("M", "F", "P", "Q"), so
      a code belongs to at most one branch of either pass. */
  lemma PrefixesDisjoint(q: Bytes)
    ensures StartsWith(q, QrEncode.MagicMeta()) ==>
      !StartsWith(q, QrEncode.MagicFecInfo()) && !StartsWith(q, QrEncode.MagicKey()) && !StartsWith(q, QrEncode.MagicData())
    ensures StartsWith(q, QrEncode.MagicFecInfo()) ==>
      !StartsWith(q, QrEncode.MagicKey()) && !StartsWith(q, QrEncode.MagicData())
    ensures StartsWith(q, QrEncode.MagicKey()) ==> !StartsWith(q, QrEncode.MagicData())
  {
    if |q| > 0 {
      assert StartsWith(q, QrEncode.MagicMeta()) ==> q[0] == 0x4D;
      assert StartsWith(q, QrEncode.MagicFecInfo()) ==> q[0] == 0x46;
      assert StartsWith(q, QrEncode.MagicKey()) ==> q[0] == 0x50;
      assert StartsWith(q, QrEncode.MagicData()) ==> q[0] == 0x51;
    }
  }

  // ---------------------------------------------------------------------
  // The record pass

  /** What the record pass has gathered: payloads by index, and the total
      announced by the first accepted record. */
  datatype Collection = Collection(chunks: map<nat, Bytes>, total: Option<nat>)

  /** The verdict of the record pass on each code. */
  function Parsed(codes: seq<Bytes>, crc: Bytes -> bv32): (recs: seq<Option<Record>>)
    ensures |recs| == |codes|
  {
    if codes == [] then [] else Parsed(codes[..|codes| - 1], crc) + [ParseRecord(codes[|codes| - 1], crc)]
  }

  lemma {:induction false} ParsedAt(codes: seq<Bytes>, crc: Bytes -> bv32, i: nat)
    requires i < |codes|
    ensures Parsed(codes, crc)[i] == ParseRecord(codes[i], crc)
  {
    if i < |codes| - 1 {
      ParsedAt(codes[..|codes| - 1], crc, i);
    }
  }

  /** The record pass over the verdicts in reading order: an accepted record
      overwrites any earlier payload of its index, and the first one sets
      the total. */
  function Gathered(recs: seq<Option<Record>>): Collection {
    if recs == [] then Collection(map[], None) else Absorb(Gathered(recs[..|recs| - 1]), recs[|recs| - 1])
  }

  /** One verdict of the record pass. */
  function Absorb(c: Collection, x: Option<Record>): Collection {
    match x
    case None => c
    case Some(r) => Collection(c.chunks[r.idx := r.payload], if c.total.None? then Some(r.total) else c.total)
  }

  /** The record pass over the codes read from the frames. */
  function Collected(codes: seq<Bytes>, crc: Bytes -> bv32): Collection {
    if codes == [] then Collection(map[], None)
    else Absorb(Collected(codes[..|codes| - 1], crc), ParseRecord(codes[|codes| - 1], crc))
  }

  lemma {:induction false} CollectedIsGathered(codes: seq<Bytes>, crc: Bytes -> bv32)
    ensures Collected(codes, crc) == Gathered(Parsed(codes, crc))
  {
    if codes != [] {
      CollectedIsGathered(codes[..|codes| - 1], crc);
      var recs := Parsed(codes, crc);
      assert recs[..|recs| - 1] == Parsed(codes[..|codes| - 1], crc);
    }
  }

  /** Verdict `i` is an accepted record of index `k`. */
  predicate Carries(recs: seq<Option<Record>>, i: int, k: nat) {
    0 <= i < |recs| && recs[i].Some? && recs[i].value.idx == k
  }

  /** An index is gathered exactly when some accepted record carries it. */
  lemma {:induction false} GatheredKeys(recs: seq<Option<Record>>, k: nat)
    ensures k in Gathered(recs).chunks <==> exists i :: Carries(recs, i, k)
  {
    if recs != [] {
      var init := recs[..|recs| - 1];
      GatheredKeys(init, k);
      if exists i :: Carries(init, i, k) {
        var i :| Carries(init, i, k);
        assert recs[i] == init[i] && Carries(recs, i, k);
      } else if k in Gathered(recs).chunks {
        assert Carries(recs, |recs| - 1, k);
      }
      if exists i :: Carries(recs, i, k) {
        var i :| Carries(recs, i, k);
        if i < |init| {
          assert recs[i] == init[i] && Carries(init, i, k);
        } else {
          var r := recs[i].value;
          assert Gathered(recs).chunks == Gathered(init).chunks[r.idx := r.payload];
        }
      }
    }
  }

  /** The payload kept for an index is the one of the last accepted record
      carrying it. */
  lemma {:induction false} GatheredLastWins(recs: seq<Option<Record>>, i: nat)
    requires i < |recs| && recs[i].Some?
    requires forall j :: i < j < |recs| ==> !Carries(recs, j, recs[i].value.idx)
    ensures recs[i].value.idx in Gathered(recs).chunks
    ensures Gathered(recs).chunks[recs[i].value.idx] == recs[i].value.payload
  {
    var init := recs[..|recs| - 1];
    if i < |init| {
      assert recs[i] == init[i];
      forall j | i < j < |init|
        ensures !Carries(init, j, init[i].value.idx)
      {
        assert recs[j] == init[j] && !Carries(recs, j, recs[i].value.idx);
      }
      GatheredLastWins(init, i);
      assert !Carries(recs, |recs| - 1, recs[i].value.idx);
    }
  }

  /** The total is the one the first accepted record announces. */
  lemma {:induction false} GatheredTotal(recs: seq<Option<Record>>, i: nat)
    requires i < |recs| && recs[i].Some?
    requires forall j :: 0 <= j < i ==> recs[j].None?
    ensures Gathered(recs).total == Some(recs[i].value.total)
  {
    var init := recs[..|recs| - 1];
    assert forall j :: 0 <= j < |init| ==> init[j] == recs[j];
    if i < |init| {
      GatheredTotal(init, i);
    } else {
      NothingGathered(init);
    }
  }

  /** Without an accepted record nothing is gathered. */
  lemma {:induction false} NothingGathered(recs: seq<Option<Record>>)
    requires forall j :: 0 <= j < |recs| ==> recs[j].None?
    ensures Gathered(recs) == Collection(map[], None)
  {
    if recs != [] {
      var init := recs[..|recs| - 1];
      assert forall j :: 0 <= j < |init| ==> init[j] == recs[j];
      NothingGathered(init);
    }
  }

  /** The encoder's chunk `k` of `blobs`, as the record pass accepts it. */
  predicate FromEncoder(rec: Option<Record>, blobs: seq<Bytes>) {
    rec.Some? ==> rec.value.idx < |blobs| && rec.value.payload == blobs[rec.value.idx] && rec.value.total == |blobs|
  }

  /** When every accepted record is one of the encoder's chunks, each
      gathered payload is the encoder's chunk of that index, every index
      accepted is gathered, and the total is the encoder's chunk count. */
  lemma {:induction false} GatherFaithful(recs: seq<Option<Record>>, blobs: seq<Bytes>)
    requires forall i :: 0 <= i < |recs| ==> FromEncoder(recs[i], blobs)
    ensures forall k :: k in Gathered(recs).chunks ==> k < |blobs| && Gathered(recs).chunks[k] == blobs[k]
    ensures forall i :: 0 <= i < |recs| && recs[i].Some? ==> recs[i].value.idx in Gathered(recs).chunks
    ensures Gathered(recs).total.Some? ==> Gathered(recs).total == Some(|blobs|)
    ensures (exists i :: 0 <= i < |recs| && recs[i].Some?) ==> Gathered(recs).total == Some(|blobs|)
  {
    if recs != [] {
      var init := recs[..|recs| - 1];
      assert forall j :: 0 <= j < |init| ==> init[j] == recs[j];
      GatherFaithful(init, blobs);
    }
  }

  /** The record pass over codes in which every "QDV2" code is one of the
      encoder's records, and every record is read: the gathered chunks are
      exactly the encoder's and the total is its chunk count. */
  lemma CollectFaithful(codes: seq<Bytes>, blobs: seq<Bytes>, wrapped: seq<Bytes>, original: nat, crc: Bytes -> bv32)
    requires |wrapped| == |blobs|
    requires forall i :: 0 <= i < |blobs| ==>
      QrEncode.WrapChunk(i, |blobs|, blobs[i], i >= original, crc) == Some(wrapped[i])
    requires forall q :: q in codes ==> q in wrapped || !StartsWith(q, QrEncode.MagicData())
    requires forall i :: 0 <= i < |blobs| ==> wrapped[i] in codes
    ensures forall k :: k in Collected(codes, crc).chunks ==> k < |blobs| && Collected(codes, crc).chunks[k] == blobs[k]
    ensures forall i :: 0 <= i < |blobs| ==> i in Collected(codes, crc).chunks
    ensures |blobs| > 0 ==> Collected(codes, crc).total == Some(|blobs|)
  {
    var recs := Parsed(codes, crc);
    CollectedIsGathered(codes, crc);
    forall i | 0 <= i < |recs|
      ensures FromEncoder(recs[i], blobs)
    {
      ParsedAt(codes, crc, i);
      if codes[i] in wrapped {
        var j :| 0 <= j < |wrapped| && wrapped[j] == codes[i];
        ParseWrapped(j, |blobs|, blobs[j], j >= original, crc);
      }
    }
    GatherFaithful(recs, blobs);
    forall i | 0 <= i < |blobs|
      ensures i in Gathered(recs).chunks && Gathered(recs).total == Some(|blobs|)
    {
      assert wrapped[i] in codes;
      var p :| 0 <= p < |codes| && codes[p] == wrapped[i];
      ParseWrapped(i, |blobs|, blobs[i], i >= original, crc);
      ParsedAt(codes, crc, p);
      assert recs[p] == Some(Record(i, |blobs|, i >= original, blobs[i]));
    }
    assert Collected(codes, crc) == Gathered(recs);
    if |blobs| > 0 {
      assert 0 in Gathered(recs).chunks;
    }
  }

  /** The frames' codes in reading order: frame by frame, each frame's
      codes in the order they are read. */
  lemma {:induction false} FlattenSnoc(frames: seq<seq<Bytes>>, last: seq<Bytes>)
    ensures QrEncode.Flatten(frames + [last]) == QrEncode.Flatten(frames) + last
  {
    if frames == [] {
      assert QrEncode.Flatten([last]) == last + QrEncode.Flatten([last][1..]);
    } else {
      assert (frames + [last])[1..] == frames[1..] + [last];
      FlattenSnoc(frames[1..], last);
    }
  }

  /** Reading one more code is one more step of the pass. */
  lemma CollectedSnoc(codes: seq<Bytes>, q: Bytes, crc: Bytes -> bv32)
    ensures Collected(codes + [q], crc) == Absorb(Collected(codes, crc), ParseRecord(q, crc))
  {
    assert (codes + [q])[..|codes|] == codes;
  }

  /** The body of the second loop for one code. */
  method CollectCode(chunks: map<nat, Bytes>, total: Option<nat>, q: Bytes, crc: Bytes -> bv32)
    returns (chunks': map<nat, Bytes>, total': Option<nat>)
    ensures Collection(chunks', total') == Absorb(Collection(chunks, total), ParseRecord(q, crc))
  {
    chunks', total' := chunks, total;
    var r := ParseRecord(q, crc);
    if r.Some? {
      chunks' := chunks'[r.value.idx := r.value.payload];
      if total'.None? {
        total' := Some(r.value.total);
      }
    }
  }

  /** The second loop of `main`, over frames and their codes. */
  method CollectChunks(frames: seq<seq<Bytes>>, crc: Bytes -> bv32) returns (col: Collection)
    ensures col == Collected(QrEncode.Flatten(frames), crc)
  {
    var chunks: map<nat, Bytes> := map[];
    var total: Option<nat> := None;
    var f := 0;
    while f < |frames|
      invariant 0 <= f <= |frames|
      invariant Collection(chunks, total) == Collected(QrEncode.Flatten(frames[..f]), crc)
    {
      chunks, total := CollectFrame(chunks, total, frames[f], crc, QrEncode.Flatten(frames[..f]));
      assert frames[..f + 1] == frames[..f] + [frames[f]];
      FlattenSnoc(frames[..f], frames[f]);
      f := f + 1;
    }
    assert frames[..|frames|] == frames;
    return Collection(chunks, total);
  }

  /** The second loop over the codes of one frame, read after `before`. */
  method CollectFrame(chunks: map<nat, Bytes>, total: Option<nat>, qrs: seq<Bytes>, crc: Bytes -> bv32, ghost before: seq<Bytes>)
    returns (chunks': map<nat, Bytes>, total': Option<nat>)
    requires Collection(chunks, total) == Collected(before, crc)
    ensures Collection(chunks', total') == Collected(before + qrs, crc)
  {
    chunks', total' := chunks, total;
    var j := 0;
    assert before + qrs[..0] == before;
    while j < |qrs|
      invariant 0 <= j <= |qrs|
      invariant Collection(chunks', total') == Collected(before + qrs[..j], crc)
    {
      assert before + qrs[..j + 1] == (before + qrs[..j]) + [qrs[j]];
      CollectedSnoc(before + qrs[..j], qrs[j], crc);
      chunks', total' := CollectCode(chunks', total', qrs[j], crc);
      j := j + 1;
    }
    assert qrs[..|qrs|] == qrs;
  }

  // ---------------------------------------------------------------------
  // The metadata pass

  /** What the metadata pass has found. */
  datatype Keys = Keys(pub: Option<Bytes>, priv: Option<Bytes>, fecInfo: map<string, int>)

  /** One code of the metadata pass. A "META2" code replaces the public key;
      a "FEC_INFO" code replaces the FEC information when its JSON parses;
      a "PRIVKEY_AES" code replaces the private key when it unprotects (the
      later PEM validation prints an error but keeps the new value). */
  function ScanStep(k: Keys, q: Bytes, password: string, d: Primitives): Keys {
    if StartsWith(q, QrEncode.MagicMeta()) then k.(pub := Some(q[5..]))
    else if StartsWith(q, QrEncode.MagicFecInfo()) then
      match d.parseJson(q[8..])
      case Some(obj) => k.(fecInfo := obj)
      case None => k
    else if StartsWith(q, QrEncode.MagicKey()) then
      match Unprotect(q, password, d)
      case Some(p) => k.(priv := Some(p))
      case None => k
    else k
  }

  /** The metadata pass over the codes in reading order. */
  function Scanned(codes: seq<Bytes>, password: string, d: Primitives): Keys {
    if codes == [] then Keys(None, None, map[])
    else ScanStep(Scanned(codes[..|codes| - 1], password, d), codes[|codes| - 1], password, d)
  }

  /** The public key is found exactly when a "META2" code is read, and it
      is the one the last such code carries. */
  lemma {:induction false} ScannedPub(codes: seq<Bytes>, password: string, d: Primitives)
    ensures Scanned(codes, password, d).pub.Some? <==>
      exists i :: 0 <= i < |codes| && StartsWith(codes[i], QrEncode.MagicMeta())
    ensures forall i ::
      (&& 0 <= i < |codes| && StartsWith(codes[i], QrEncode.MagicMeta())
       && (forall j :: i < j < |codes| ==> !StartsWith(codes[j], QrEncode.MagicMeta()))) ==>
        Scanned(codes, password, d).pub == Some(codes[i][5..])
  {
    if codes != [] {
      var init := codes[..|codes| - 1];
      ScannedPub(init, password, d);
      assert forall i :: 0 <= i < |init| ==> init[i] == codes[i];
    }
  }

  /** The private key is found exactly when a "PRIVKEY_AES" code
      unprotects, and it is the plaintext of the last one that does. */
  lemma {:induction false} ScannedPriv(codes: seq<Bytes>, password: string, d: Primitives)
    ensures Scanned(codes, password, d).priv.Some? <==>
      exists i :: 0 <= i < |codes| && Unprotect(codes[i], password, d).Some?
    ensures forall i ::
      (&& 0 <= i < |codes| && Unprotect(codes[i], password, d).Some?
       && (forall j :: i < j < |codes| ==> Unprotect(codes[j], password, d).None?)) ==>
        Scanned(codes, password, d).priv == Unprotect(codes[i], password, d)
  {
    if codes != [] {
      var init := codes[..|codes| - 1];
      ScannedPriv(init, password, d);
      assert forall i :: 0 <= i < |init| ==> init[i] == codes[i];
      PrefixesDisjoint(codes[|codes| - 1]);
    }
  }

  /** The metadata pass over codes in which every metadata code is one of
      the encoder's: each key is found exactly when its code is read. */
  lemma {:induction false} ScanUniform(codes: seq<Bytes>, password: string, d: Primitives,
                                       pub: Bytes, fecCode: Bytes, info: map<string, int>, keyCode: Bytes, priv: Bytes)
    requires StartsWith(fecCode, QrEncode.MagicFecInfo()) && d.parseJson(fecCode[8..]) == Some(info)
    requires Unprotect(keyCode, password, d) == Some(priv)
    requires forall q :: q in codes ==>
      || q == QrEncode.MagicMeta() + pub || q == fecCode || q == keyCode
      || (!StartsWith(q, QrEncode.MagicMeta()) && !StartsWith(q, QrEncode.MagicFecInfo()) && !StartsWith(q, QrEncode.MagicKey()))
    ensures Scanned(codes, password, d).pub == if QrEncode.MagicMeta() + pub in codes then Some(pub) else None
    ensures Scanned(codes, password, d).fecInfo == if fecCode in codes then info else map[]
    ensures Scanned(codes, password, d).priv == if keyCode in codes then Some(priv) else None
  {
    if codes != [] {
      var init := codes[..|codes| - 1];
      var q := codes[|codes| - 1];
      assert codes == init + [q];
      ScanUniform(init, password, d, pub, fecCode, info, keyCode, priv);
      PrefixesDisjoint(q);
      assert (QrEncode.MagicMeta() + pub)[5..] == pub;
    }
  }

  /** Reading one more code is one more step of the pass. */
  lemma ScannedSnoc(codes: seq<Bytes>, q: Bytes, password: string, d: Primitives)
    ensures Scanned(codes + [q], password, d) == ScanStep(Scanned(codes, password, d), q, password, d)
  {
    assert (codes + [q])[..|codes|] == codes;
  }

  /** The body of the first loop for one code. */
  method ScanCode(found: Keys, q: Bytes, password: string, d: Primitives) returns (keys: Keys)
    ensures keys == ScanStep(found, q, password, d)
  {
    keys := found;
    if StartsWith(q, QrEncode.MagicMeta()) {
      keys := keys.(pub := Some(q[5..]));
    } else if StartsWith(q, QrEncode.MagicFecInfo()) {
      var obj := d.parseJson(q[8..]);
      if obj.Some? {
        keys := keys.(fecInfo := obj.value);
      }
    } else if StartsWith(q, QrEncode.MagicKey()) {
      var p := Unprotect(q, password, d);
      if p.Some? {
        keys := keys.(priv := p);
      }
    }
  }

  /** The first loop of `main`, over frames and their codes. */
  method ScanMetadata(frames: seq<seq<Bytes>>, password: string, d: Primitives) returns (keys: Keys)
    ensures keys == Scanned(QrEncode.Flatten(frames), password, d)
  {
    keys := Keys(None, None, map[]);
    var f := 0;
    while f < |frames|
      invariant 0 <= f <= |frames|
      invariant keys == Scanned(QrEncode.Flatten(frames[..f]), password, d)
    {
      keys := ScanFrame(keys, frames[f], password, d, QrEncode.Flatten(frames[..f]));
      assert frames[..f + 1] == frames[..f] + [frames[f]];
      FlattenSnoc(frames[..f], frames[f]);
      f := f + 1;
    }
    assert frames[..|frames|] == frames;
  }

  /** The first loop over the codes of one frame, read after `before`. */
  method ScanFrame(found: Keys, qrs: seq<Bytes>, password: string, d: Primitives, ghost before: seq<Bytes>) returns (keys: Keys)
    requires found == Scanned(before, password, d)
    ensures keys == Scanned(before + qrs, password, d)
  {
    keys := found;
    var j := 0;
    assert before + qrs[..0] == before;
    while j < |qrs|
      invariant 0 <= j <= |qrs|
      invariant keys == Scanned(before + qrs[..j], password, d)
    {
      assert before + qrs[..j + 1] == (before + qrs[..j]) + [qrs[j]];
      ScannedSnoc(before + qrs[..j], qrs[j], password, d);
      keys := ScanCode(keys, qrs[j], password, d);
      j := j + 1;
    }
    assert qrs[..|qrs|] == qrs;
  }


  // ---------------------------------------------------------------------
  // Reassembly

  /** `d.get(key)` on a JSON object. */
  function Get(m: map<string, int>, key: string): (v: Option<int>)
    ensures v.Some? <==> key in m
  {
    if key in m then Some(m[key]) else None
  }

  /** Where the chunk counts come from: the FEC information when it is a
      non-empty object, else the manifest when one is given and exists; a
      missing "total_chunks" keeps the total the first record announced. */
  function Counts(fecInfo: map<string, int>, manifest: Option<map<string, int>>, seen: Option<nat>): (Option<int>, Option<int>)
  {
    var announced: Option<int> := if seen.Some? then Some(seen.value) else None;
    if fecInfo != map[] then (Get(fecInfo, "original_chunks"), GetOr(fecInfo, "total_chunks", announced))
    else if manifest.Some? then (Get(manifest.value, "original_chunks"), GetOr(manifest.value, "total_chunks", announced))
    else (None, announced)
  }

  /** `d.get(key, default)` on a JSON object. */
  function GetOr(m: map<string, int>, key: string, default: Option<int>): Option<int> {
    if key in m then Some(m[key]) else default
  }

  /** The FEC information takes precedence over the manifest, and the
      records' own total is used only where neither names one. */
  lemma CountsPrecedence(fecInfo: map<string, int>, m1: Option<map<string, int>>, m2: Option<map<string, int>>, seen: Option<nat>)
    ensures fecInfo != map[] ==> Counts(fecInfo, m1, seen) == Counts(fecInfo, m2, seen)
    ensures fecInfo == map[] && m1.None? ==> Counts(fecInfo, m1, seen).0.None?
    ensures fecInfo == map[] && m1.None? && seen.Some? ==> Counts(fecInfo, m1, seen).1 == Some(seen.value as int)
    ensures "total_chunks" in fecInfo ==> Counts(fecInfo, m1, seen).1 == Some(fecInfo["total_chunks"])
  {
  }

  /** The decision after the record pass. */
  datatype Plan = Direct(original: int) | Recover(original: int, total: int) | Stop

  /** Data indices, below `original`, that were gathered. */
  function DataPresent(chunks: map<nat, Bytes>, original: int): set<nat> {
    set k | k in chunks && k < original
  }

  /** There are at most `original` data indices, and all of them are
      present exactly when `original` of them are. */
  lemma {:induction false} CountPresent(chunks: map<nat, Bytes>, original: int)
    ensures original >= 0 ==> |DataPresent(chunks, original)| <= original
    ensures |DataPresent(chunks, original)| >= original <==> forall i :: 0 <= i < original ==> i in chunks
    decreases if original < 0 then 0 else original
  {
    if original <= 0 {
      assert DataPresent(chunks, original) == {};
    } else {
      var o := original - 1;
      CountPresent(chunks, o);
      if o in chunks {
        assert DataPresent(chunks, original) == DataPresent(chunks, o) + {o};
      } else {
        assert DataPresent(chunks, original) == DataPresent(chunks, o);
      }
    }
  }

  /** The decision as lines 299-322 of the script write it: the number of
      gathered chunks, parity chunks included, is compared with the number
      of data chunks. */
  function PlanAsWritten(chunks: map<nat, Bytes>, original: Option<int>, total: Option<int>): (p: Plan)
    ensures total.None? || |chunks| == 0 ==> p == Stop
    ensures p.Direct? ==> |chunks| >= p.original
    ensures p.Recover? ==> |chunks| < p.original < p.total
  {
    if total.None? || |chunks| == 0 then Stop
    else
      var o := original.GetOr(total.value);
      if |chunks| < o then (if o < total.value then Recover(o, total.value) else Stop)
      else Direct(o)
  }

  /** The decision with only the data indices counted. */
  function PlanFor(chunks: map<nat, Bytes>, original: Option<int>, total: Option<int>): (p: Plan)
    ensures p.Direct? ==> forall i :: 0 <= i < p.original ==> i in chunks
    ensures p.Recover? ==> p.original < p.total && exists i :: 0 <= i < p.original && i !in chunks
  {
    if total.None? || |chunks| == 0 then Stop
    else
      var o := original.GetOr(total.value);
      CountPresent(chunks, o);
      if |DataPresent(chunks, o)| < o then (if o < total.value then Recover(o, total.value) else Stop)
      else Direct(o)
  }

  /** Direct reassembly is chosen exactly when every data chunk is present,
      so it never stops on a missing one; recovery is chosen whenever a data
      chunk is missing and parity was announced; otherwise the script
      stops. */
  lemma PlanForChoice(chunks: map<nat, Bytes>, original: Option<int>, total: Option<int>)
    requires total.Some? && |chunks| > 0
    ensures var o := original.GetOr(total.value);
      && (PlanFor(chunks, original, total) == Direct(o) <==> forall i :: 0 <= i < o ==> i in chunks)
      && (PlanFor(chunks, original, total) == Recover(o, total.value) <==>
            o < total.value && exists i :: 0 <= i < o && i !in chunks)
      && (PlanFor(chunks, original, total) == Stop <==>
            o >= total.value && exists i :: 0 <= i < o && i !in chunks)
  {
    CountPresent(chunks, original.GetOr(total.value));
  }

  /** Without a total or without any record the script stops. */
  lemma PlanForNothing(chunks: map<nat, Bytes>, original: Option<int>, total: Option<int>)
    requires total.None? || |chunks| == 0
    ensures PlanFor(chunks, original, total) == Stop
  {
  }

  /** With data chunk 1 of 2 lost and a parity chunk read, the script as
      written counts two chunks, skips recovery, and direct reassembly stops
      on the missing chunk; counting data chunks only chooses recovery. */
  lemma AsWrittenSkipsRecovery(a: Bytes, b: Bytes)
    ensures var chunks := map[0 := a, 2 := b];
      && PlanAsWritten(chunks, Some(2), Some(3)) == Direct(2)
      && 1 !in chunks
      && PlanFor(chunks, Some(2), Some(3)) == Recover(2, 3)
  {
    var chunks := map[0 := a, 2 := b];
    assert chunks.Keys == {0, 2};
    assert |chunks| == 2;
  }

  /** When no parity chunk was gathered the two decisions agree: the
      script's count and the count of data chunks are the same. */
  lemma PlansAgree(chunks: map<nat, Bytes>, original: Option<int>, total: Option<int>)
    requires total.Some? ==> forall k :: k in chunks ==> k < original.GetOr(total.value)
    ensures PlanAsWritten(chunks, original, total) == PlanFor(chunks, original, total)
  {
    if total.Some? {
      var o := original.GetOr(total.value);
      assert DataPresent(chunks, o) == chunks.Keys;
    }
  }

  /** The data chunks in index order. */
  function InOrder(chunks: map<nat, Bytes>, n: int): (s: seq<Bytes>)
    requires forall i :: 0 <= i < n ==> i in chunks
    ensures |s| == if n < 0 then 0 else n
    ensures forall i :: 0 <= i < |s| ==> s[i] == chunks[i]
    decreases if n < 0 then 0 else n
  {
    if n <= 0 then [] else InOrder(chunks, n - 1) + [chunks[n - 1]]
  }

  /** The direct-reassembly loop: the data chunks in index order, or `None`
      for the exit on the first missing one. */
  method DirectReassemble(chunks: map<nat, Bytes>, original: int) returns (r: Option<seq<Bytes>>)
    ensures r.Some? <==> forall i :: 0 <= i < original ==> i in chunks
    ensures r.Some? ==> |r.value| == (if original < 0 then 0 else original)
    ensures r.Some? ==> forall i :: 0 <= i < |r.value| ==> r.value[i] == chunks[i]
  {
    var recovered: seq<Bytes> := [];
    var i := 0;
    while i < original
      invariant 0 <= i <= (if original < 0 then 0 else original)
      invariant |recovered| == i
      invariant forall k :: 0 <= k < i ==> k in chunks && recovered[k] == chunks[k]
    {
      if i !in chunks {
        return None;
      }
      recovered := recovered + [chunks[i]];
      i := i + 1;
    }
    return Some(recovered);
  }

  // ---------------------------------------------------------------------
  // The script

  /** The `--obfuscation-check` file: not given, given but unreadable (a
      missing file, say), or read. Its content only feeds a printed seed. */
  datatype CheckFile = NoCheck | Unreadable | Readable

  /** The password argument, the manifest, parsed (`None` when it is not
      given or the file does not exist), and the obfuscation-check file. */
  datatype DecodeArgs = DecodeArgs(password: string, manifest: Option<map<string, int>>, check: CheckFile)

  /** The end of a run: the decrypted file, an exit status, or the hand-off
      to Reed–Solomon recovery. */
  datatype DecodeOutcome = Decoded(plain: Bytes) | Exit(code: int) | Recovering(original: int, total: int)

  /** The script from the frames' codes to its outcome. No frames, or an
      obfuscation-check file that cannot be read, end it with status 1
      before any code is scanned. */
  function Decoding(args: DecodeArgs, frames: seq<seq<Bytes>>, d: Primitives, crc: Bytes -> bv32): (r: DecodeOutcome)
    ensures frames == [] ==> r == Exit(1)
    ensures args.check == Unreadable ==> r == Exit(1)
    ensures r.Decoded? || r.Recovering? ==>
      var keys := Scanned(QrEncode.Flatten(frames), args.password, d);
      frames != [] && args.check != Unreadable && keys.pub.Some? && keys.priv.Some?
  {
    if frames == [] then Exit(1)
    else if args.check == Unreadable then Exit(1)
    else
      var codes := QrEncode.Flatten(frames);
      Concluded(Scanned(codes, args.password, d), Collected(codes, crc), args.manifest, d)
  }

  /** The script after both passes: both keys are needed, then the
      decision of lines 299-322 as written, the reassembly and the
      decryption decide. */
  function Concluded(keys: Keys, col: Collection, manifest: Option<map<string, int>>, d: Primitives): (r: DecodeOutcome)
    ensures keys.pub.None? || keys.priv.None? ==> r == Exit(1)
    ensures r.Recovering? ==> |col.chunks| < r.original < r.total
    ensures r.Decoded? ==> (
      var plan := PlanAsWritten(col.chunks, Counts(keys.fecInfo, manifest, col.total).0, Counts(keys.fecInfo, manifest, col.total).1);
      keys.priv.Some? && plan.Direct? && DecryptsChunks(col.chunks, plan.original, keys.priv.value, d, r.plain))
  {
    if keys.pub.None? || keys.priv.None? then Exit(1)
    else
      var counts := Counts(keys.fecInfo, manifest, col.total);
      Finish(PlanAsWritten(col.chunks, counts.0, counts.1), col.chunks, keys.priv.value, d)
  }

  /** The same with the decision that counts data chunks only. */
  function ConcludedIntended(keys: Keys, col: Collection, manifest: Option<map<string, int>>, d: Primitives): (r: DecodeOutcome)
    ensures keys.pub.None? || keys.priv.None? ==> r == Exit(1)
    ensures r.Recovering? ==> r.original < r.total && exists i :: 0 <= i < r.original && i !in col.chunks
    ensures r.Decoded? ==> (
      var plan := PlanFor(col.chunks, Counts(keys.fecInfo, manifest, col.total).0, Counts(keys.fecInfo, manifest, col.total).1);
      keys.priv.Some? && plan.Direct? && DecryptsChunks(col.chunks, plan.original, keys.priv.value, d, r.plain))
  {
    if keys.pub.None? || keys.priv.None? then Exit(1)
    else
      var counts := Counts(keys.fecInfo, manifest, col.total);
      Finish(PlanFor(col.chunks, counts.0, counts.1), col.chunks, keys.priv.value, d)
  }

  /** `plain` is the decryption of data chunks `0 .. o-1`, all present,
      joined in index order. */
  predicate DecryptsChunks(chunks: map<nat, Bytes>, o: int, priv: Bytes, d: Primitives, plain: Bytes) {
    && (forall i :: 0 <= i < o ==> i in chunks)
    && DecryptPayload(Concat(InOrder(chunks, o)), priv, d) == Some(plain)
  }

  /** Carrying out a plan: exit, hand off to recovery, or reassemble the
      data chunks in order (exiting on the first missing one) and decrypt. */
  function Finish(plan: Plan, chunks: map<nat, Bytes>, priv: Bytes, d: Primitives): (r: DecodeOutcome)
    ensures r.Recovering? <==> plan.Recover?
    ensures r.Recovering? ==> r.original == plan.original && r.total == plan.total
    ensures r.Decoded? ==> plan.Direct? && DecryptsChunks(chunks, plan.original, priv, d, r.plain)
  {
    match plan
    case Stop => Exit(1)
    case Recover(o, t) => Recovering(o, t)
    case Direct(o) =>
      if exists i :: 0 <= i < o && i !in chunks then Exit(1)
      else
        match DecryptPayload(Concat(InOrder(chunks, o)), priv, d)
        case None => Exit(1)
        case Some(plain) => Decoded(plain)
  }

  /** With both keys, FEC information announcing 2 data chunks of 3, and
      chunks 0 and 2 read, the script as written exits with status 1 while
      the intended decision hands off to recovery. */
  lemma AsWrittenExits(pub: Bytes, priv: Bytes, a: Bytes, b: Bytes, total: Option<nat>,
                       manifest: Option<map<string, int>>, d: Primitives)
    ensures var keys := Keys(Some(pub), Some(priv), map["original_chunks" := 2, "total_chunks" := 3]);
      var col := Collection(map[0 := a, 2 := b], total);
      && Concluded(keys, col, manifest, d) == Exit(1)
      && ConcludedIntended(keys, col, manifest, d) == Recovering(2, 3)
  {
    var info := map["original_chunks" := 2, "total_chunks" := 3];
    assert "original_chunks" in info && "total_chunks" in info;
    assert Counts(info, manifest, total) == (Some(2), Some(3));
    AsWrittenSkipsRecovery(a, b);
    assert 1 !in map[0 := a, 2 := b];
  }

  /** Under the intended decision, a lost data chunk with parity announced
      always reaches recovery, and a run with every data chunk never exits
      for a missing one. */
  lemma IntendedRecovers(keys: Keys, col: Collection, manifest: Option<map<string, int>>, d: Primitives)
    requires keys.pub.Some? && keys.priv.Some?
    requires var counts := Counts(keys.fecInfo, manifest, col.total);
      counts.1.Some? && |col.chunks| > 0
    ensures var counts := Counts(keys.fecInfo, manifest, col.total);
      var o := counts.0.GetOr(counts.1.value);
      && ((o < counts.1.value && exists i :: 0 <= i < o && i !in col.chunks) ==>
            ConcludedIntended(keys, col, manifest, d) == Recovering(o, counts.1.value))
      && ((forall i :: 0 <= i < o ==> i in col.chunks) ==>
            ConcludedIntended(keys, col, manifest, d) ==
              match DecryptPayload(Concat(InOrder(col.chunks, o)), keys.priv.value, d)
              case None => Exit(1)
              case Some(plain) => Decoded(plain))
  {
    var counts := Counts(keys.fecInfo, manifest, col.total);
    PlanForChoice(col.chunks, counts.0, counts.1);
  }

  /** `main`. */
  method DecodeVideo(args: DecodeArgs, frames: seq<seq<Bytes>>, d: Primitives, crc: Bytes -> bv32) returns (out: DecodeOutcome)
    ensures out == Decoding(args, frames, d, crc)
  {
    if |frames| == 0 {
      return Exit(1);
    }
    if args.check == Unreadable {
      // the uncaught exception of `read_bytes` ends the script with status 1
      return Exit(1);
    }
    var keys := ScanMetadata(frames, args.password, d);
    if keys.pub.None? {
      return Exit(1);
    }
    if keys.priv.None? {
      return Exit(1);
    }
    var col := CollectChunks(frames, crc);
    out := Conclude(keys, col, args.manifest, d);
  }

  /** The part of `main` after both passes. */
  method Conclude(keys: Keys, col: Collection, manifest: Option<map<string, int>>, d: Primitives) returns (out: DecodeOutcome)
    requires keys.pub.Some? && keys.priv.Some?
    ensures out == Concluded(keys, col, manifest, d)
  {
    var counts := Counts(keys.fecInfo, manifest, col.total);
    var plan := PlanAsWritten(col.chunks, counts.0, counts.1);
    if plan.Stop? {
      return Exit(1);
    }
    if plan.Recover? {
      return Recovering(plan.original, plan.total);
    }
    var recovered := DirectReassemble(col.chunks, plan.original);
    if recovered.None? {
      return Exit(1);
    }
    assert recovered.value == InOrder(col.chunks, plan.original);
    var plain := DecryptPayload(Concat(recovered.value), keys.priv.value, d);
    if plain.None? {
      return Exit(1);
    }
    return Decoded(plain.value);
  }

  /** A run without a public key or without an opened private key exits
      with status 1 before any record is read. */
  lemma MissingKeysExit(args: DecodeArgs, frames: seq<seq<Bytes>>, d: Primitives, crc: Bytes -> bv32)
    requires forall i :: 0 <= i < |QrEncode.Flatten(frames)| ==> !StartsWith(QrEncode.Flatten(frames)[i], QrEncode.MagicMeta())
    ensures Decoding(args, frames, d, crc) == Exit(1)
  {
    ScannedPub(QrEncode.Flatten(frames), args.password, d);
  }

  /** A video the encoder made without parity decodes to the original
      file: the codes read are the metadata code, the protected key, the
      records of every chunk of the encrypted payload and, unless the grid
      is 1x1, the FEC information, in any order and with repeats; the frame
      password is the one the key frame was protected with, and the private
      key matches the public key the payload key was wrapped for. Without
      the FEC information the counts come from the encoder's manifest when
      one is given, else from the records' own total. */
  lemma DecodeRoundTrip(data: Bytes, passphrase: string, pubPem: Bytes, privPem: Bytes, salt: Bytes, nonce: Bytes,
                        password: string, keySalt: Bytes, keyNonce: Bytes, env: Bytes, blobs: seq<Bytes>, wrapped: seq<Bytes>,
                        fecCode: Bytes, info: map<string, int>, manifest: Option<map<string, int>>, check: CheckFile,
                        frames: seq<seq<Bytes>>, c: QrEncode.Crypto, d: Primitives, crc: Bytes -> bv32)
    requires |salt| == 16 && |nonce| == 12 && |keySalt| == 16 && |keyNonce| == 12
    requires Opens(c, d) && KeyPair(c, d, pubPem, privPem)
    requires QrEncode.EncryptPayload(data, passphrase, pubPem, salt, nonce, c) == Some(env)
    requires blobs == QrEncode.Chunks(env, QrEncode.ChunkSize) && |wrapped| == |blobs|
    requires forall i :: 0 <= i < |blobs| ==> QrEncode.WrapChunk(i, |blobs|, blobs[i], false, crc) == Some(wrapped[i])
    requires StartsWith(fecCode, QrEncode.MagicFecInfo()) && d.parseJson(fecCode[8..]) == Some(info)
    requires Get(info, "original_chunks") == Some(|blobs|) && Get(info, "total_chunks") == Some(|blobs|)
    requires frames != []
    requires forall q :: q in QrEncode.Flatten(frames) ==>
      || q == QrEncode.MagicMeta() + pubPem || q == fecCode
      || q == QrEncode.ProtectKey(privPem, password, keySalt, keyNonce, c) || q in wrapped
    requires QrEncode.MagicMeta() + pubPem in QrEncode.Flatten(frames)
    requires QrEncode.ProtectKey(privPem, password, keySalt, keyNonce, c) in QrEncode.Flatten(frames)
    requires manifest.Some? ==>
      Get(manifest.value, "original_chunks") == Some(|blobs|) && Get(manifest.value, "total_chunks") == Some(|blobs|)
    requires check != Unreadable
    requires forall i :: 0 <= i < |wrapped| ==> wrapped[i] in QrEncode.Flatten(frames)
    ensures Decoding(DecodeArgs(password, manifest, check), frames, d, crc) == Decoded(data)
  {
    var codes := QrEncode.Flatten(frames);
    var keyCode := QrEncode.ProtectKey(privPem, password, keySalt, keyNonce, c);
    StreamClasses(codes, pubPem, fecCode, keyCode, wrapped);
    UnprotectProtect(privPem, password, keySalt, keyNonce, c, d);
    ScanUniform(codes, password, d, pubPem, fecCode, info, keyCode, privPem);
    forall i | 0 <= i < |blobs|
      ensures QrEncode.WrapChunk(i, |blobs|, blobs[i], i >= |blobs|, crc) == Some(wrapped[i])
    {
    }
    CollectFaithful(codes, blobs, wrapped, |blobs|, crc);
    DecryptEncrypt(data, passphrase, pubPem, privPem, salt, nonce, c, d);
    EnvelopeChunks(env);
    var fecInfo := if fecCode in codes then info else map[];
    CountsFromEncoder(fecInfo, manifest, |blobs|);
    ConcludeRoundTrip(data, pubPem, privPem, env, blobs, fecInfo, Collected(codes, crc), manifest, d);
  }

  /** In a stream of the encoder's codes, each code is of one kind only. */
  lemma StreamClasses(codes: seq<Bytes>, pubPem: Bytes, fecCode: Bytes, keyCode: Bytes, wrapped: seq<Bytes>)
    requires StartsWith(fecCode, QrEncode.MagicFecInfo()) && StartsWith(keyCode, QrEncode.MagicKey())
    requires forall q :: q in wrapped ==> StartsWith(q, QrEncode.MagicData())
    requires forall q :: q in codes ==> q == QrEncode.MagicMeta() + pubPem || q == fecCode || q == keyCode || q in wrapped
    ensures forall q :: q in codes ==>
      || q == QrEncode.MagicMeta() + pubPem || q == fecCode || q == keyCode
      || (!StartsWith(q, QrEncode.MagicMeta()) && !StartsWith(q, QrEncode.MagicFecInfo()) && !StartsWith(q, QrEncode.MagicKey()))
    ensures forall q :: q in codes ==> q in wrapped || !StartsWith(q, QrEncode.MagicData())
  {
    var meta := QrEncode.MagicMeta() + pubPem;
    assert StartsWith(meta, QrEncode.MagicMeta());
    PrefixesDisjoint(meta);
    PrefixesDisjoint(fecCode);
    PrefixesDisjoint(keyCode);
    forall q | q in wrapped
      ensures !StartsWith(q, QrEncode.MagicMeta()) && !StartsWith(q, QrEncode.MagicFecInfo()) && !StartsWith(q, QrEncode.MagicKey())
    {
      PrefixesDisjoint(q);
    }
  }

  /** After both passes over the encoder's stream, the plan is direct
      reassembly of every chunk, which gives the envelope back. */
  lemma ConcludeRoundTrip(data: Bytes, pubPem: Bytes, privPem: Bytes, env: Bytes, blobs: seq<Bytes>,
                          fecInfo: map<string, int>, col: Collection, manifest: Option<map<string, int>>, d: Primitives)
    requires DecryptPayload(env, privPem, d) == Some(data)
    requires blobs == QrEncode.Chunks(env, QrEncode.ChunkSize)
    requires EncoderCounts(Counts(fecInfo, manifest, col.total), |blobs|)
    requires forall k :: k in col.chunks ==> k < |blobs| && col.chunks[k] == blobs[k]
    requires forall i :: 0 <= i < |blobs| ==> i in col.chunks
    ensures Concluded(Keys(Some(pubPem), Some(privPem), fecInfo), col, manifest, d) == Decoded(data)
  {
    EnvelopeChunks(env);
    var counts := Counts(fecInfo, manifest, col.total);
    DirectPlan(blobs, counts.0, counts.1, col);
    var keys := Keys(Some(pubPem), Some(privPem), fecInfo);
    assert Concluded(keys, col, manifest, d) == Finish(Direct(|blobs|), col.chunks, privPem, d);
    InOrderAll(col.chunks, blobs);
    FinishComplete(col.chunks, |blobs|, privPem, d);
  }

  /** With every data chunk present, direct reassembly decrypts them joined
      in order. */
  lemma FinishComplete(chunks: map<nat, Bytes>, o: int, priv: Bytes, d: Primitives)
    requires forall i :: 0 <= i < o ==> i in chunks
    ensures Finish(Direct(o), chunks, priv, d) ==
      match DecryptPayload(Concat(InOrder(chunks, o)), priv, d)
      case None => Exit(1)
      case Some(plain) => Decoded(plain)
  {
  }

  /** A well-formed payload envelope is sliced into at least one chunk,
      and joining the chunks gives it back. */
  lemma EnvelopeChunks(env: Bytes)
    requires ParsePayloadEnvelope(env).Some?
    ensures |QrEncode.Chunks(env, QrEncode.ChunkSize)| > 0
    ensures Concat(QrEncode.Chunks(env, QrEncode.ChunkSize)) == env
  {
    assert env != [];
    QrEncode.ChunkBytesJoin(env);
  }

  /** With every chunk gathered and FEC information naming as many data
      chunks as there are, the plan is direct reassembly of all of them. */
  lemma DirectPlan(blobs: seq<Bytes>, original: Option<int>, total: Option<int>, col: Collection)
    requires |blobs| > 0
    requires EncoderCounts((original, total), |blobs|)
    requires forall i :: 0 <= i < |blobs| ==> i in col.chunks
    requires forall k :: k in col.chunks ==> k < |blobs|
    ensures PlanAsWritten(col.chunks, original, total) == Direct(|blobs|)
  {
    assert 0 in col.chunks;
    PlanForChoice(col.chunks, original, total);
    PlansAgree(col.chunks, original, total);
  }

  /** Counts as the encoder of a video without parity states them: `n`
      chunks in all, and `n` data chunks or none named (the script then
      takes the total). */
  predicate EncoderCounts(counts: (Option<int>, Option<int>), n: nat) {
    counts.1 == Some(n) && counts.0 in {None, Some(n)}
  }

  /** Whichever source the script takes its counts from, the encoder's FEC
      information, its manifest or the records' own total, they are the
      encoder's. */
  lemma CountsFromEncoder(fecInfo: map<string, int>, manifest: Option<map<string, int>>, n: nat)
    requires fecInfo == map[] || (Get(fecInfo, "original_chunks") == Some(n) && Get(fecInfo, "total_chunks") == Some(n))
    requires manifest.Some? ==>
      Get(manifest.value, "original_chunks") == Some(n) && Get(manifest.value, "total_chunks") == Some(n)
    ensures EncoderCounts(Counts(fecInfo, manifest, Some(n)), n)
    ensures fecInfo == map[] && manifest.None? ==> Counts(fecInfo, manifest, Some(n)) == (None, Some(n))
  {
  }

  /** The gathered chunks in index order are the encoder's chunks. */
  lemma InOrderAll(chunks: map<nat, Bytes>, blobs: seq<Bytes>)
    requires forall i :: 0 <= i < |blobs| ==> i in chunks && chunks[i] == blobs[i]
    ensures InOrder(chunks, |blobs|) == blobs
  {
  }


}
