/** The encoder script `scripts/encode_qr_video.py`: how the encrypted payload
    is sliced, wrapped into `QDV2` records, batched into n×n frames and
    interleaved with the metadata frame, the key frame and an optional
    obfuscation frame. Cryptography, CRC-32 and Reed–Solomon parity are
    parameters; the QR images themselves are the byte strings they carry. */
module QrEncode {
  import opened Wrappers
  import opened Bytes
  import JavaText
  import Argv

  /** Wire prefixes: the ASCII bytes of "QDV2", "AES256GCM", "PRIVKEY_AES",
      "META2" and "FEC_INFO". */
  function MagicData(): (b: Bytes) ensures |b| == 4 { [0x51, 0x44, 0x56, 0x32] }
  function MagicPayload(): (b: Bytes) ensures |b| == 9 {
    [0x41, 0x45, 0x53, 0x32, 0x35, 0x36, 0x47, 0x43, 0x4D]
  }
  function MagicKey(): (b: Bytes) ensures |b| == 11 {
    [0x50, 0x52, 0x49, 0x56, 0x4B, 0x45, 0x59, 0x5F, 0x41, 0x45, 0x53]
  }
  function MagicMeta(): (b: Bytes) ensures |b| == 5 { [0x4D, 0x45, 0x54, 0x41, 0x32] }
  function MagicFecInfo(): (b: Bytes) ensures |b| == 8 {
    [0x46, 0x45, 0x43, 0x5F, 0x49, 0x4E, 0x46, 0x4F]
  }

  /** Payload slice size. */
  const ChunkSize: nat := 800

  lemma Pow256Small()
    ensures Pow256(2) == 0x1_0000 && Pow256(4) == 0x1_0000_0000
  {
    assert Pow256(1) == 256;
    assert Pow256(2) == 0x1_0000;
    assert Pow256(3) == 0x100_0000;
  }

  // ---------------------------------------------------------------------
  // Slicing (`chunk_bytes`, and `wrapped[idx: idx + n*n]` in the frame loop)

  /** Consecutive slices of `size` elements, the last one possibly shorter. */
  function Chunks<T>(s: seq<T>, size: nat): (cs: seq<seq<T>>)
    requires size > 0
    ensures forall k :: 0 <= k < |cs| ==> 0 < |cs[k]| <= size
    decreases |s|
  {
    if s == [] then []
    else if |s| <= size then [s]
    else [s[..size]] + Chunks(s[size..], size)
  }

  /** There are ⌈|s| / size⌉ slices: enough to hold `s`, and one fewer
      would not be. */
  lemma {:induction false} ChunksCount<T>(s: seq<T>, size: nat)
    requires size > 0
    ensures |s| <= |Chunks(s, size)| * size
    ensures |Chunks(s, size)| > 0 ==> (|Chunks(s, size)| - 1) * size < |s|
    decreases |s|
  {
    if s != [] && |s| > size {
      ChunksCount(s[size..], size);
      var m := |Chunks(s[size..], size)|;
      assert |Chunks(s, size)| == m + 1;
      assert (m + 1) * size == m * size + size;
    }
  }

  function Flatten<T>(ss: seq<seq<T>>): seq<T> {
    if ss == [] then [] else ss[0] + Flatten(ss[1..])
  }

  /** Putting the slices back together gives the input; every slice but the
      last is full. */
  lemma {:induction false} ChunksPartition<T>(s: seq<T>, size: nat)
    requires size > 0
    ensures Flatten(Chunks(s, size)) == s
    ensures forall k :: 0 <= k < |Chunks(s, size)| - 1 ==> |Chunks(s, size)[k]| == size
    decreases |s|
  {
    if s != [] && |s| > size {
      ChunksPartition(s[size..], size);
      var cs := Chunks(s, size);
      assert cs[1..] == Chunks(s[size..], size);
      assert s == s[..size] + s[size..];
    } else if s != [] {
      assert Chunks(s, size) == [s];
      assert Flatten([s][1..]) == [];
    }
  }

  /** Slice `k` is `s[k*size .. (k+1)*size)`, clamped to the end. */
  lemma {:induction false} ChunkAt<T>(s: seq<T>, size: nat, k: nat)
    requires size > 0 && k < |Chunks(s, size)|
    ensures k * size < |s|
    ensures Chunks(s, size)[k] == s[k * size .. if (k + 1) * size < |s| then (k + 1) * size else |s|]
    decreases |s|
  {
    if k == 0 {
      if |s| <= size {
        assert Chunks(s, size) == [s] && s == s[0..|s|];
      } else {
        assert Chunks(s, size)[0] == s[..size];
      }
    } else {
      assert |s| > size;
      var rest := s[size..];
      assert Chunks(s, size)[k] == Chunks(rest, size)[k - 1];
      ChunkAt(rest, size, k - 1);
      var lo, mid, hi := (k - 1) * size, k * size, (k + 1) * size;
      StepProducts(k, size);
      var end := if mid < |rest| then mid else |rest|;
      SuffixSlice(s, size, lo, end);
    }
  }

  lemma StepProducts(k: nat, size: nat)
    requires k > 0
    ensures (k - 1) * size + size == k * size && k * size + size == (k + 1) * size
  {
  }

  /** Slicing the suffix after `d` is slicing `s` shifted by `d`. */
  lemma SuffixSlice<T>(s: seq<T>, d: nat, lo: nat, hi: nat)
    requires d <= |s| && lo <= hi <= |s| - d
    ensures s[d..][lo..hi] == s[d + lo..d + hi]
  {
  }

  /** `b''.join` of the slices of a byte string gives it back. */
  lemma ChunkBytesJoin(data: Bytes)
    ensures Concat(Chunks(data, ChunkSize)) == data
  {
    ChunksPartition(data, ChunkSize);
    ConcatFlatten(Chunks(data, ChunkSize));
  }

  lemma {:induction false} ConcatFlatten(parts: seq<Bytes>)
    ensures Concat(parts) == Flatten(parts)
  {
    if parts != [] {
      assert parts == [parts[0]] + parts[1..];
      ConcatCons(parts[0], parts[1..]);
      ConcatFlatten(parts[1..]);
    }
  }

  // ---------------------------------------------------------------------
  // QDV2 records

  /** The four CRC bytes, big-endian. */
  function CrcBytes(c: bv32): (b: Bytes)
    ensures |b| == 4 && FromBe(b) == c as int
  {
    Pow256Small();
    FromBeBe(c as int, 4);
    Be(c as int, 4)
  }

  /** `wrap_chunk(idx, total, blob, is_fec)`: "QDV2", idx and total as four
      big-endian bytes, the blob length as two, the FEC flag byte, the blob
      and its CRC-32. `None` is the OverflowError of `to_bytes`. */
  function WrapChunk(idx: nat, total: nat, blob: Bytes, isFec: bool, crc: Bytes -> bv32): (r: Option<Bytes>)
    ensures r.Some? <==> idx < 0x1_0000_0000 && total < 0x1_0000_0000 && |blob| < 0x1_0000
    ensures r.Some? ==> |r.value| == 19 + |blob|
    ensures r.Some? ==> StartsWith(r.value, MagicData())
    ensures r.Some? ==> FromBe(r.value[4..8]) == idx && FromBe(r.value[8..12]) == total
    ensures r.Some? ==> FromBe(r.value[12..14]) == |blob| && (r.value[14] == 1 <==> isFec)
    ensures r.Some? ==> r.value[15..15 + |blob|] == blob && r.value[15 + |blob|..] == CrcBytes(crc(blob))
  {
    Pow256Small();
    var i := ToBytesBig(idx, 4);
    var t := ToBytesBig(total, 4);
    var l := ToBytesBig(|blob|, 2);
    if i.None? || t.None? || l.None? then None
    else
      var flag: byte := if isFec then 1 else 0;
      var w := MagicData() + i.value + t.value + l.value + [flag] + blob + CrcBytes(crc(blob));
      RecordFields(MagicData(), i.value, t.value, l.value, flag, blob, CrcBytes(crc(blob)));
      Some(w)
  }

  /** Where each field of a wrapped record sits. */
  lemma RecordFields(m: Bytes, i: Bytes, t: Bytes, l: Bytes, flag: byte, blob: Bytes, c: Bytes)
    requires |m| == 4 && |i| == 4 && |t| == 4 && |l| == 2 && |c| == 4
    ensures var w := m + i + t + l + [flag] + blob + c;
      && |w| == 19 + |blob|
      && w[..4] == m && w[4..8] == i && w[8..12] == t && w[12..14] == l && w[14] == flag
      && w[15..15 + |blob|] == blob && w[15 + |blob|..] == c
  {
    var head := m + i + t + l + [flag];
    assert |head| == 15;
    assert head[..4] == m && head[4..8] == i && head[8..12] == t && head[12..14] == l && head[14] == flag;
    var w := head + blob + c;
    assert w == m + i + t + l + [flag] + blob + c;
    assert w[..15] == head;
    assert w[15..15 + |blob|] == blob;
    assert w[15 + |blob|..] == c;
  }

  /** The loop that wraps every chunk: chunk `i` of `total` carries the FEC
      flag exactly when it lies past the `original` data chunks. `None` is
      the script dying on an oversized chunk or count. */
  method WrapAll(fecChunks: seq<Bytes>, original: nat, crc: Bytes -> bv32) returns (wrapped: Option<seq<Bytes>>)
    ensures wrapped.Some? <==> Fits(fecChunks)
    ensures wrapped.Some? ==> |wrapped.value| == |fecChunks|
    ensures wrapped.Some? ==> forall i :: 0 <= i < |fecChunks| ==>
      WrapChunk(i, |fecChunks|, fecChunks[i], i >= original, crc) == Some(wrapped.value[i])
    ensures wrapped.Some? ==> Fits(fecChunks) && wrapped.value == Records(fecChunks, original, crc)
  {
    var acc: seq<Bytes> := [];
    var i := 0;
    while i < |fecChunks|
      invariant 0 <= i <= |fecChunks| && |acc| == i
      invariant i > 0 ==> |fecChunks| < 0x1_0000_0000
      invariant forall k :: 0 <= k < i ==>
        WrapChunk(k, |fecChunks|, fecChunks[k], k >= original, crc) == Some(acc[k])
    {
      var w := WrapChunk(i, |fecChunks|, fecChunks[i], i >= original, crc);
      if w.None? {
        assert !Fits(fecChunks) by {
          assert |fecChunks| >= 0x1_0000_0000 || |fecChunks[i]| >= 0x1_0000;
        }
        return None;
      }
      WrapStep(fecChunks, original, crc, acc, w.value);
      acc := acc + [w.value];
      i := i + 1;
    }
    RecordsUnique(fecChunks, original, crc, acc);
    return Some(acc);
  }

  /** One turn of the wrapping loop keeps every record the wrapping of its
      chunk. */
  lemma WrapStep(fecChunks: seq<Bytes>, original: nat, crc: Bytes -> bv32, acc: seq<Bytes>, w: Bytes)
    requires |acc| < |fecChunks|
    requires forall k :: 0 <= k < |acc| ==>
      WrapChunk(k, |fecChunks|, fecChunks[k], k >= original, crc) == Some(acc[k])
    requires WrapChunk(|acc|, |fecChunks|, fecChunks[|acc|], |acc| >= original, crc) == Some(w)
    ensures forall k :: 0 <= k < |acc| + 1 ==>
      WrapChunk(k, |fecChunks|, fecChunks[k], k >= original, crc) == Some((acc + [w])[k])
  {
    forall k | 0 <= k < |acc| + 1
      ensures WrapChunk(k, |fecChunks|, fecChunks[k], k >= original, crc) == Some((acc + [w])[k])
    {
      if k < |acc| {
        assert (acc + [w])[k] == acc[k];
      } else {
        assert (acc + [w])[k] == w;
      }
    }
  }

  /** The wrapped records are the only sequence that wraps every chunk. */
  lemma RecordsUnique(fecChunks: seq<Bytes>, original: nat, crc: Bytes -> bv32, w: seq<Bytes>)
    requires |w| == |fecChunks| && |fecChunks| < 0x1_0000_0000
    requires forall i :: 0 <= i < |fecChunks| ==> WrapChunk(i, |fecChunks|, fecChunks[i], i >= original, crc) == Some(w[i])
    ensures Fits(fecChunks) && w == Records(fecChunks, original, crc)
  {
    var r := Records(fecChunks, original, crc);
    assert forall i :: 0 <= i < |w| ==> w[i] == r[i];
  }

  /** Every chunk and the chunk count fit their wrapped-record fields. */
  predicate Fits(fecChunks: seq<Bytes>) {
    |fecChunks| < 0x1_0000_0000 && forall i :: 0 <= i < |fecChunks| ==> |fecChunks[i]| < 0x1_0000
  }

  /** The wrapped records of all chunks, as one value. */
  function Records(fecChunks: seq<Bytes>, original: nat, crc: Bytes -> bv32): (r: seq<Bytes>)
    requires Fits(fecChunks)
    ensures |r| == |fecChunks|
    ensures forall i :: 0 <= i < |r| ==> WrapChunk(i, |fecChunks|, fecChunks[i], i >= original, crc) == Some(r[i])
  {
    seq(|fecChunks|, i requires 0 <= i < |fecChunks| => WrapChunk(i, |fecChunks|, fecChunks[i], i >= original, crc).value)
  }

  // ---------------------------------------------------------------------
  // Envelopes

  /** The payload envelope: "AES256GCM", salt, nonce, the wrapped key's
      length as two big-endian bytes, the wrapped key and the ciphertext. */
  function PayloadEnvelope(salt: Bytes, nonce: Bytes, encKey: Bytes, ct: Bytes): (r: Option<Bytes>)
    ensures r.Some? <==> |encKey| < 0x1_0000
    ensures r.Some? ==> |r.value| == 9 + |salt| + |nonce| + 2 + |encKey| + |ct|
  {
    Pow256Small();
    var l := ToBytesBig(|encKey|, 2);
    if l.None? then None else Some(MagicPayload() + salt + nonce + l.value + encKey + ct)
  }

  /** The key envelope: "PRIVKEY_AES", salt, nonce and the ciphertext. */
  function KeyEnvelope(salt: Bytes, nonce: Bytes, ct: Bytes): (r: Bytes)
    ensures |r| == 11 + |salt| + |nonce| + |ct| && StartsWith(r, MagicKey())
  {
    MagicKey() + salt + nonce + ct
  }

  /** The library primitives: PBKDF2-HMAC-SHA256 of a passphrase and salt,
      AES-GCM sealing under a key and nonce, RSA-OAEP wrapping under a public
      key in PEM form. */
  datatype Crypto = Crypto(
    kdf: (string, Bytes) -> Bytes,
    seal: (Bytes, Bytes, Bytes) -> Bytes,
    wrapKey: (Bytes, Bytes) -> Bytes)

  /** `encrypt_payload_aes_gcm` with its random salt and nonce given. */
  function EncryptPayload(data: Bytes, passphrase: string, pubPem: Bytes, salt: Bytes, nonce: Bytes, c: Crypto): (r: Option<Bytes>)
    ensures r.Some? <==> |c.wrapKey(pubPem, c.kdf(passphrase, salt))| < 0x1_0000
  {
    var key := c.kdf(passphrase, salt);
    PayloadEnvelope(salt, nonce, c.wrapKey(pubPem, key), c.seal(key, nonce, data))
  }

  /** `protect_privkey_aes` with its random salt and nonce given. */
  function ProtectKey(privPem: Bytes, password: string, salt: Bytes, nonce: Bytes, c: Crypto): (r: Bytes)
    ensures StartsWith(r, MagicKey())
  {
    KeyEnvelope(salt, nonce, c.seal(c.kdf(password, salt), nonce, privPem))
  }

  // ---------------------------------------------------------------------
  // Arguments

  /** Python truthiness of an optional integer argument. */
  predicate Truthy(v: Option<int>) {
    v.Some? && v.value != 0
  }

  /** Frame size: explicit width and height when both are truthy, otherwise
      the named preset (case-insensitive), otherwise 1920×1080. */
  function Resolution(width: Option<int>, height: Option<int>, resolution: string): (wh: (int, int))
    ensures Truthy(width) && Truthy(height) ==> wh == (width.value, height.value)
    ensures !(Truthy(width) && Truthy(height)) ==>
      (wh == (1280, 720) <==> JavaText.LowerAscii(resolution) == "720p") &&
      (wh == (3840, 2160) <==> JavaText.LowerAscii(resolution) in ["4k", "2160p"]) &&
      (wh == (1920, 1080) <==> JavaText.LowerAscii(resolution) !in ["720p", "4k", "2160p"])
  {
    if Truthy(width) && Truthy(height) then (width.value, height.value)
    else
      var r := JavaText.LowerAscii(resolution);
      if r in ["1080p"] then (1920, 1080)
      else if r in ["720p"] then (1280, 720)
      else if r in ["4k", "2160p"] then (3840, 2160)
      else (1920, 1080)
  }

  /** `--enable-fec` is true exactly for the text "true" in any ASCII
      letter case. */
  function EnableFecArg(text: string): bool {
    JavaText.LowerAscii(text) == "true"
  }

  /** The text the Java services pass for a boolean is read back as that
      boolean; other spellings of true are accepted, anything else is
      false. */
  lemma EnableFecFromJava(b: bool)
    ensures EnableFecArg(Argv.BoolText(b)) == b
    ensures EnableFecArg("True") && EnableFecArg("TRUE")
    ensures !EnableFecArg("1") && !EnableFecArg("yes") && !EnableFecArg("")
  {
    assert JavaText.LowerAscii("True") == "true";
    assert JavaText.LowerAscii("TRUE") == "true";
  }

  /** The ratio handed to the FEC encoder, clamped to [0.15, 0.35]. */
  function EffectiveFecRatio(ratio: real): (r: real)
    ensures 0.15 <= r <= 0.35
    ensures 0.15 <= ratio <= 0.35 ==> r == ratio
    ensures ratio < 0.15 ==> r == 0.15
    ensures ratio > 0.35 ==> r == 0.35
  {
    if 0.35 < ratio then 0.35 else if ratio < 0.15 then 0.15 else ratio
  }

  /** Grid side: at least one. */
  function GridSide(grid: int): (n: nat)
    ensures n >= 1 && (grid >= 1 ==> n == grid)
  {
    if grid < 1 then 1 else grid
  }

  // ---------------------------------------------------------------------
  // Frames

  type Cells = seq<seq<Option<Bytes>>>

  /** A video frame: an n×n grid of QR codes (row-major, `None` for an empty
      cell), the single key QR code, or an image of random rectangles. The
      obfuscation frame carries the seed computed from the file, but the
      operating system's random source ignores that seed, so the rectangles
      do not depend on it. */
  datatype Frame = Grid(cells: Cells) | KeyCode(envelope: Bytes) | Obfuscation(seed: nat)

  /** The content of the cell with row-major number `k`. */
  function Cell(blobs: seq<Bytes>, k: nat): Option<Bytes> {
    if k < |blobs| then Some(blobs[k]) else None
  }

  /** `make_frame_with_codes`: cell (i, j) shows blob i·n + j when there is
      one. */
  method LayoutFrame(blobs: seq<Bytes>, n: nat) returns (cells: Cells)
    requires n >= 1
    ensures |cells| == n && forall i :: 0 <= i < n ==> |cells[i]| == n
    ensures forall i, j :: 0 <= i < n && 0 <= j < n ==> cells[i][j] == Cell(blobs, i * n + j)
    ensures Grid(cells) == Layout(blobs, n)
  {
    cells := [];
    var k := 0;
    var i := 0;
    while i < n
      invariant 0 <= i <= n && k == i * n && |cells| == i
      invariant forall r :: 0 <= r < i ==> |cells[r]| == n
      invariant forall r, j :: 0 <= r < i && 0 <= j < n ==> cells[r][j] == Cell(blobs, r * n + j)
    {
      var row: seq<Option<Bytes>> := [];
      var j := 0;
      while j < n
        invariant 0 <= j <= n && k == i * n + j && |row| == j
        invariant forall c :: 0 <= c < j ==> row[c] == Cell(blobs, i * n + c)
      {
        row := row + [if k < |blobs| then Some(blobs[k]) else None];
        k := k + 1;
        j := j + 1;
      }
      assert k == (i + 1) * n;
      cells := cells + [row];
      i := i + 1;
    }
    ShowsLayout(Grid(cells), blobs, n);
  }

  lemma MulMono(a: int, b: int, n: nat)
    ensures a <= b ==> a * n <= b * n
  {
  }

  /** Blob `k` of the first n² is drawn in row `k / n`, column `k % n`. */
  lemma BlobPlacement(cells: Cells, blobs: seq<Bytes>, n: nat, k: nat)
    requires n >= 1 && |cells| == n && forall i :: 0 <= i < n ==> |cells[i]| == n
    requires forall i, j :: 0 <= i < n && 0 <= j < n ==> cells[i][j] == Cell(blobs, i * n + j)
    requires k < |blobs| && k < n * n
    ensures k / n < n && cells[k / n][k % n] == Some(blobs[k])
  {
    var i, j := k / n, k % n;
    assert k == i * n + j;
    MulMono(n, i, n);
  }

  /** Every drawn cell holds one of the first n² blobs, so blobs past n² are
      never drawn. */
  lemma OnlyLeadingBlobsDrawn(cells: Cells, blobs: seq<Bytes>, n: nat, i: nat, j: nat)
    requires n >= 1 && |cells| == n && forall r :: 0 <= r < n ==> |cells[r]| == n
    requires forall r, c :: 0 <= r < n && 0 <= c < n ==> cells[r][c] == Cell(blobs, r * n + c)
    requires i < n && j < n && cells[i][j].Some?
    ensures i * n + j < n * n && i * n + j < |blobs| && cells[i][j] == Some(blobs[i * n + j])
  {
    assert i * n + j < (i + 1) * n;
    assert (i + 1) * n <= n * n;
  }

  /** `frame` is the grid that `make_frame_with_codes(batch)` draws. */
  ghost predicate Shows(frame: Frame, batch: seq<Bytes>, n: nat) {
    frame.Grid? && |frame.cells| == n &&
    (forall i :: 0 <= i < n ==> |frame.cells[i]| == n) &&
    forall i, j :: 0 <= i < n && 0 <= j < n ==> frame.cells[i][j] == Cell(batch, i * n + j)
  }

  /** The grid `make_frame_with_codes(batch)` draws, as one value. */
  function Layout(batch: seq<Bytes>, n: nat): (f: Frame)
    ensures Shows(f, batch, n)
  {
    Grid(seq(n, i requires 0 <= i < n => seq(n, j requires 0 <= j < n => Cell(batch, i * n + j))))
  }

  /** A frame shows a batch exactly when it is that batch's layout. */
  lemma ShowsLayout(f: Frame, batch: seq<Bytes>, n: nat)
    ensures Shows(f, batch, n) <==> f == Layout(batch, n)
  {
    if Shows(f, batch, n) {
      var g := Layout(batch, n);
      forall i | 0 <= i < n
        ensures f.cells[i] == g.cells[i]
      {
        assert forall j :: 0 <= j < n ==> f.cells[i][j] == g.cells[i][j];
      }
      assert f.cells == g.cells;
    }
  }

  /** One grid per batch, in order. */
  function GridFrames(batches: seq<seq<Bytes>>, n: nat): (frames: seq<Frame>)
    ensures |frames| == |batches|
    ensures forall f :: 0 <= f < |frames| ==> Shows(frames[f], batches[f], n)
  {
    seq(|batches|, f requires 0 <= f < |batches| => Layout(batches[f], n))
  }

  /** One step of the frame loop: the next slice starts at `idx`. */
  lemma ChunksStep(s: seq<Bytes>, idx: nat, size: nat)
    requires size > 0 && idx < |s|
    ensures var end := if idx + size < |s| then idx + size else |s|;
      Chunks(s[idx..], size) == [s[idx..end]] + Chunks(s[end..], size)
  {
    var rest := s[idx..];
    if idx + size < |s| {
      assert rest[..size] == s[idx..idx + size] && rest[size..] == s[idx + size..];
    } else {
      assert s[|s|..] == [] && s[idx..|s|] == rest;
      assert Chunks(rest, size) == [rest] == [rest] + [];
    }
  }

  /** The frame loop: frame `f` shows the `f`-th slice of n² wrapped records. */
  method DataFrames(wrapped: seq<Bytes>, n: nat) returns (frames: seq<Frame>)
    requires n >= 1
    ensures |frames| == |Chunks(wrapped, n * n)|
    ensures forall f :: 0 <= f < |frames| ==> Shows(frames[f], Chunks(wrapped, n * n)[f], n)
    ensures frames == GridFrames(Chunks(wrapped, n * n), n)
  {
    var nn := n * n;
    frames := [];
    ghost var batches: seq<seq<Bytes>> := [];
    var idx := 0;
    while idx < |wrapped|
      invariant idx <= |wrapped| ==> batches + Chunks(wrapped[idx..], nn) == Chunks(wrapped, nn)
      invariant idx > |wrapped| ==> batches == Chunks(wrapped, nn)
      invariant |frames| == |batches|
      invariant forall f :: 0 <= f < |frames| ==> Shows(frames[f], batches[f], n)
    {
      var end := if idx + nn < |wrapped| then idx + nn else |wrapped|;
      var batch := wrapped[idx..end];
      ChunksStep(wrapped, idx, nn);
      var cells := LayoutFrame(batch, n);
      assert Shows(Grid(cells), batch, n);
      frames := frames + [Grid(cells)];
      batches := batches + [batch];
      idx := idx + nn;
      assert idx <= |wrapped| ==> end == idx;
    }
    if idx == |wrapped| {
      assert wrapped[idx..] == [];
      assert batches + [] == batches;
    }
    GridFramesOf(frames, batches, n);
  }

  /** Frames that show the batches one by one are the batches' grids. */
  lemma GridFramesOf(frames: seq<Frame>, batches: seq<seq<Bytes>>, n: nat)
    requires |frames| == |batches|
    requires forall f :: 0 <= f < |frames| ==> Shows(frames[f], batches[f], n)
    ensures frames == GridFrames(batches, n)
  {
    forall f | 0 <= f < |frames|
      ensures frames[f] == GridFrames(batches, n)[f]
    {
      ShowsLayout(frames[f], batches[f], n);
    }
  }

  /** `priv_frame_index` before the obfuscation frame: clamped to the
      number of data frames. */
  function ClampIndex(requested: int, count: nat): (p: nat)
    ensures p <= count
    ensures 0 <= requested <= count ==> p == requested
    ensures requested < 0 ==> p == 0
    ensures requested > count ==> p == count
  {
    if requested < 0 then 0 else if requested > count then count else requested
  }

  /** `list.insert(i, x)` for an index within the list. */
  function Insert<T>(s: seq<T>, i: nat, x: T): (r: seq<T>)
    requires i <= |s|
    ensures |r| == |s| + 1 && r[i] == x
  {
    s[..i] + [x] + s[i..]
  }

  /** The frame sequence: the metadata frame at the clamped index and the key
      frame right after it, then the obfuscation frame (when there is one)
      in front of everything. `keyIndex` is the key frame's position. */
  method PlaceKeyFrames(data: seq<Frame>, meta: Frame, key: Frame, obfuscation: Option<Frame>, requested: int)
    returns (frames: seq<Frame>, keyIndex: nat)
    ensures var p := ClampIndex(requested, |data|);
      var front := if obfuscation.Some? then [obfuscation.value] else [];
      frames == front + data[..p] + [meta, key] + data[p..] &&
      keyIndex == |front| + p + 1
    ensures keyIndex < |frames| && frames[keyIndex] == key && frames[keyIndex - 1] == meta
  {
    var p := ClampIndex(requested, |data|);
    frames := Insert(data, p, meta);
    frames := Insert(frames, p + 1, key);
    assert frames == data[..p] + [meta, key] + data[p..];
    keyIndex := p;
    if obfuscation.Some? {
      frames := Insert(frames, 0, obfuscation.value);
      keyIndex := keyIndex + 1;
    }
    keyIndex := keyIndex + 1;
  }

  /** A single-cell grid draws only the first code, so with `--grid 1` (or
      below) the metadata frame carries the public key but not the FEC
      information. */
  lemma SingleCellMetaFrame(cells: Cells, pub: Bytes, fecInfo: Bytes)
    requires |cells| == 1 && |cells[0]| == 1
    requires forall i, j :: 0 <= i < 1 && 0 <= j < 1 ==> cells[i][j] == Cell([pub, fecInfo], i * 1 + j)
    ensures cells == [[Some(pub)]]
  {
    assert cells[0][0] == Cell([pub, fecInfo], 0);
    assert cells[0] == [Some(pub)];
  }

  // ---------------------------------------------------------------------
  // The script as a whole

  /** The parsed command line. */
  datatype EncodeArgs = EncodeArgs(
    grid: int, fps: int, resolution: string, width: Option<int>, height: Option<int>,
    enableFec: bool, fecRatio: real, passphrase: string, privkeyFrame: int,
    privkeyFramePass: string, obfuscation: Option<string>)

  /** The `FEC_INFO` record. */
  datatype FecInfo = FecInfo(originalChunks: nat, totalChunks: nat, fecRatio: real, chunkSize: nat)

  /** What the script draws from outside: the fresh key pair, the random
      salts and nonces, the obfuscation seed (`None` when the file cannot be
      read), the Reed–Solomon encoder, JSON rendering of the `FEC_INFO`
      record, and whether ffmpeg succeeds. `fec` is `None` when
      `create_cross_frame_fec` raises: the codec works on blocks of at most
      255 bytes, so a column of more than 255 minus the parity count bytes
      yields more symbols than the chunk list has room for, and the index
      past its end raises `IndexError`. */
  datatype Environment = Environment(
    pubPem: Bytes, privPem: Bytes,
    payloadSalt: Bytes, payloadNonce: Bytes, keySalt: Bytes, keyNonce: Bytes,
    obfuscationSeed: Option<nat>,
    fec: (seq<Bytes>, real) -> Option<seq<Bytes>>,
    fecInfoJson: FecInfo -> Bytes,
    ffmpegOk: bool)

  /** The manifest written next to the video (its constant and hash fields
      aside). */
  datatype Manifest = Manifest(
    frames: nat, grid: nat, fps: int, width: int, height: int, privkeyFrameIndex: nat,
    fecEnabled: bool, fecRatio: real, originalChunks: nat, totalChunks: nat, chunkSize: nat,
    obfuscation: bool)

  /** The frames handed to ffmpeg and the manifest, an exit code, or an
      uncaught exception. */
  datatype EncodeOutcome = Encoded(frames: seq<Frame>, manifest: Manifest) | Exit(code: int) | Crashed

  /** The wrapped records laid out on data frames; `None` when wrapping
      overflows. */
  method RecordFrames(fecChunks: seq<Bytes>, original: nat, n: nat, crc: Bytes -> bv32)
    returns (frames: Option<seq<Frame>>)
    requires n >= 1
    ensures frames.Some? <==> Fits(fecChunks)
    ensures frames.Some? ==> frames.value == GridFrames(Chunks(Records(fecChunks, original, crc), n * n), n)
  {
    var wrapped := WrapAll(fecChunks, original, crc);
    if wrapped.None? {
      return None;
    }
    var fs := DataFrames(wrapped.value, n);
    return Some(fs);
  }

  /** The metadata frame: the public key record, then the `FEC_INFO`
      record. */
  method MetaFrame(pubPem: Bytes, fecInfoJson: Bytes, n: nat) returns (meta: Frame)
    requires n >= 1
    ensures Shows(meta, [MagicMeta() + pubPem, MagicFecInfo() + fecInfoJson], n)
    ensures meta == Layout([MagicMeta() + pubPem, MagicFecInfo() + fecInfoJson], n)
  {
    var cells := LayoutFrame([MagicMeta() + pubPem, MagicFecInfo() + fecInfoJson], n);
    meta := Grid(cells);
  }

  /** `PlaceKeyFrames` as the script's main sees it: the frame in front is
      the obfuscation frame exactly when there is one. */
  method Interleave(data: seq<Frame>, meta: Frame, key: Frame, obfuscation: Option<Frame>, requested: int)
    returns (frames: seq<Frame>, keyIndex: nat)
    requires forall f :: 0 <= f < |data| ==> data[f].Grid?
    requires meta.Grid? && (obfuscation.Some? ==> obfuscation.value.Obfuscation?)
    ensures var p := ClampIndex(requested, |data|);
      var front := if obfuscation.Some? then [obfuscation.value] else [];
      frames == front + data[..p] + [meta, key] + data[p..] &&
      keyIndex == |front| + p + 1
    ensures 1 <= keyIndex < |frames| && frames[keyIndex] == key && frames[keyIndex - 1] == meta
    ensures frames[0].Obfuscation? <==> obfuscation.Some?
  {
    frames, keyIndex := PlaceKeyFrames(data, meta, key, obfuscation, requested);
    var p := ClampIndex(requested, |data|);
    if obfuscation.None? && p > 0 {
      assert frames[0] == data[0];
    }
  }

  /** Frame `index` (counting from zero) is the key frame carrying
      `envelope`, right after a grid frame. */
  predicate KeyFrameAt(frames: seq<Frame>, index: nat, envelope: Bytes) {
    1 <= index < |frames| && frames[index] == KeyCode(envelope) && frames[index - 1].Grid?
  }

  /** The slices of the encrypted payload, before FEC. */
  function PayloadChunks(data: Bytes, args: EncodeArgs, c: Crypto, env: Environment): seq<Bytes> {
    var payload := EncryptPayload(data, args.passphrase, env.pubPem, env.payloadSalt, env.payloadNonce, c);
    if payload.None? then [] else Chunks(payload.value, ChunkSize)
  }

  /** The chunks that are wrapped: the payload chunks followed by the
      parity chunks when FEC is on, the payload chunks alone otherwise;
      `None` when the parity computation raises. */
  function ParityChunks(chunks: seq<Bytes>, args: EncodeArgs, env: Environment): (r: Option<seq<Bytes>>)
    ensures !args.enableFec ==> r == Some(chunks)
  {
    if args.enableFec then env.fec(chunks, EffectiveFecRatio(args.fecRatio)) else Some(chunks)
  }

  /** The frames `main` hands to ffmpeg: the obfuscation frame when there is
      one, the data frames up to the clamped key-frame index, the metadata
      frame (public key and `FEC_INFO`), the key frame, then the remaining
      data frames. Empty when the parity computation raises or a record does
      not fit. */
  function VideoFrames(args: EncodeArgs, data: Bytes, c: Crypto, crc: Bytes -> bv32, env: Environment): seq<Frame> {
    var chunks := PayloadChunks(data, args, c, env);
    var parity := ParityChunks(chunks, args, env);
    if parity.None? || !Fits(parity.value) then []
    else
      var fecChunks := parity.value;
      var n := GridSide(args.grid);
      var info := FecInfo(|chunks|, |fecChunks|, if args.enableFec then args.fecRatio else 0.0, ChunkSize);
      var meta := Layout([MagicMeta() + env.pubPem, MagicFecInfo() + env.fecInfoJson(info)], n);
      var key := KeyCode(ProtectKey(env.privPem, args.privkeyFramePass, env.keySalt, env.keyNonce, c));
      var dataFrames := GridFrames(Chunks(Records(fecChunks, |chunks|, crc), n * n), n);
      var p := ClampIndex(args.privkeyFrame, |dataFrames|);
      var obfuscated := args.obfuscation.Some? && args.obfuscation.value != "" && env.obfuscationSeed.Some?;
      var front := if obfuscated then [Obfuscation(env.obfuscationSeed.value)] else [];
      front + dataFrames[..p] + [meta, key] + dataFrames[p..]
  }

  /** `main`: encrypt, slice, add parity, wrap, lay out and interleave the
      frames, then write the manifest. The manifest's frame count and key
      frame position (the metadata frame's position plus one, so the key
      frame's position counted from zero) describe the frames produced. */
  method EncodeVideo(args: EncodeArgs, data: Bytes, c: Crypto, crc: Bytes -> bv32, env: Environment)
    returns (out: EncodeOutcome)
    ensures EncryptPayload(data, args.passphrase, env.pubPem, env.payloadSalt, env.payloadNonce, c).None? ==> out.Crashed?
    ensures out.Exit? ==> out.code == 3 && !env.ffmpegOk
    ensures out.Encoded? ==> env.ffmpegOk
    ensures out.Encoded? ==>
      KeyFrameAt(out.frames, out.manifest.privkeyFrameIndex,
        ProtectKey(env.privPem, args.privkeyFramePass, env.keySalt, env.keyNonce, c))
    ensures out.Encoded? ==>
      var m := out.manifest;
      var chunks := PayloadChunks(data, args, c, env);
      m.frames == |out.frames| &&
      m.grid == GridSide(args.grid) && (m.width, m.height) == Resolution(args.width, args.height, args.resolution) &&
      m.originalChunks == |chunks| &&
      ParityChunks(chunks, args, env).Some? &&
      m.totalChunks == |ParityChunks(chunks, args, env).value| &&
      m.fecRatio == (if args.enableFec then args.fecRatio else 0.0) &&
      m.obfuscation == (args.obfuscation.Some? && args.obfuscation.value != "") &&
      (out.frames[0].Obfuscation? <==> m.obfuscation && env.obfuscationSeed.Some?)
    ensures EncryptPayload(data, args.passphrase, env.pubPem, env.payloadSalt, env.payloadNonce, c).Some? ==>
      var parity := ParityChunks(PayloadChunks(data, args, c, env), args, env);
      (out.Crashed? <==> parity.None? || !Fits(parity.value))
    ensures out.Encoded? ==> out.frames == VideoFrames(args, data, c, crc, env)
  {
    var wh := Resolution(args.width, args.height, args.resolution);
    var payload := EncryptPayload(data, args.passphrase, env.pubPem, env.payloadSalt, env.payloadNonce, c);
    if payload.None? {
      return Crashed;
    }
    var chunks := Chunks(payload.value, ChunkSize);
    var parity := ParityChunks(chunks, args, env);
    if parity.None? {
      return Crashed;
    }
    var fecChunks := parity.value;
    var keyEnvelope := ProtectKey(env.privPem, args.privkeyFramePass, env.keySalt, env.keyNonce, c);
    var n := GridSide(args.grid);
    var dataFrames := RecordFrames(fecChunks, |chunks|, n, crc);
    if dataFrames.None? {
      return Crashed;
    }
    var ratio := if args.enableFec then args.fecRatio else 0.0;
    var info := FecInfo(|chunks|, |fecChunks|, ratio, ChunkSize);
    var meta := MetaFrame(env.pubPem, env.fecInfoJson(info), n);
    var obfArg := args.obfuscation.Some? && args.obfuscation.value != "";
    var obf := if obfArg && env.obfuscationSeed.Some? then Some(Obfuscation(env.obfuscationSeed.value)) else None;
    var frames, keyIndex := Interleave(dataFrames.value, meta, KeyCode(keyEnvelope), obf, args.privkeyFrame);
    assert KeyFrameAt(frames, keyIndex, keyEnvelope) by {
      assert frames[keyIndex] == KeyCode(keyEnvelope);
      assert frames[keyIndex - 1].Grid?;
    }
    if !env.ffmpegOk {
      return Exit(3);
    }
    out := Encoded(frames, Manifest(|frames|, n, args.fps, wh.0, wh.1, keyIndex, args.enableFec, ratio,
      |chunks|, |fecChunks|, ChunkSize, obfArg));
  }
}
