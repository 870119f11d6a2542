/** Upload arithmetic of the blob client (modal/_utils/blob_utils.py): how a
    blob is cut into the parts of a multipart upload, how one part's payload
    is read chunk by chunk, the size of a stream, when a mounted file travels
    as a blob, the file-mode mask, the S3 host test and the dispatch on the
    server's upload mode. Open files become byte sequences with a position;
    server and HTTP responses become parameters. */
module Blob {
  import opened Errors
  import opened Collections

  /** Payloads above this size travel as blobs (2 MiB). */
  const MAX_OBJECT_SIZE_BYTES: nat := 2 * 1024 * 1024
  /** Files at least this large are uploaded as blobs (4 MiB). */
  const LARGE_FILE_LIMIT: nat := 4 * 1024 * 1024
  const BLOB_MAX_PARALLELISM: nat := 10
  /** 2**24 bytes are read at a time from a part. */
  const DEFAULT_SEGMENT_CHUNK_SIZE: nat := 0x100_0000

  /** Python's `min(a, b)`: `a` unless `b` is smaller. */
  function Min(a: int, b: int): (r: int)
    ensures r <= a && r <= b && (r == a || r == b)
  {
    if b < a then b else a
  }

  /** Python's `s[i:j]` for non-negative bounds: both ends are clamped to
      the sequence, so reading past the end gives fewer bytes. */
  function Window(s: Bytes, i: int, j: int): (r: Bytes)
    requires 0 <= i
    ensures 0 <= i <= j <= |s| ==> r == s[i..j]
  {
    var lo := Min(i, |s|);
    var hi := if j < lo then lo else Min(j, |s|);
    s[lo..hi]
  }

  // ---------------------------------------------------------------------
  // Multipart tiling (`_perform_multipart_upload`)

  /** Python's `a // b`, which rounds toward negative infinity. */
  function FloorDiv(a: int, b: int): (q: int)
    requires b != 0
    ensures b > 0 ==> q * b <= a < q * b + b
    ensures b < 0 ==> q * b + b < a <= q * b
  {
    if b > 0 then a / b
    else
      var c := -b;
      assert (-a) / c * c == -((-a) / c * b);
      (-a) / c
  }

  /** `ceildiv(a, b) = -(a // -b)`: the least integer at or above `a / b`.
      A zero divisor raises. */
  function CeilDiv(a: int, b: int): (r: Result<int>)
    ensures r.Err? <==> b == 0
    ensures r.Err? ==> r.error == ZeroDivisionError
    ensures r.Ok? && b > 0 ==> (r.value - 1) * b < a <= r.value * b
    ensures r.Ok? && b < 0 ==> r.value * b <= a < (r.value - 1) * b
  {
    if b == 0 then Err(ZeroDivisionError) else Ok(-FloorDiv(a, -b))
  }

  /** One part of a multipart upload: its number, where it starts in the
      file and how many bytes it carries. */
  datatype Part = Part(index: nat, start: int, length: int)

  function End(p: Part): int
  {
    p.start + p.length
  }

  /** The parts are non-empty and lie end to end from `from` to `to`. */
  predicate Covers(parts: seq<Part>, from: int, to: int)
    decreases |parts|
  {
    if |parts| == 0 then from == to
    else parts[0].start == from && 0 < parts[0].length && Covers(parts[1..], End(parts[0]), to)
  }

  lemma {:induction false} CoversOrdered(parts: seq<Part>, from: int, to: int)
    requires Covers(parts, from, to)
    ensures from <= to
    ensures |parts| > 0 ==> from < to
    decreases |parts|
  {
    if |parts| > 0 {
      CoversOrdered(parts[1..], End(parts[0]), to);
    }
  }

  /** The part list `_perform_multipart_upload` builds: part `k` starts at
      the running offset and takes `min(bytes left, max_part_size)` bytes.
      With a positive part size the parts tile the blob exactly, every part
      but the last is full, and there are `ceil(blob_size / part_size)` of
      them; a zero part size raises and a negative one gives no parts. */
  method PlanParts(blobSize: nat, maxPartSize: int) returns (r: Result<seq<Part>>)
    ensures r.Err? <==> maxPartSize == 0
    ensures r.Err? ==> r.error == ZeroDivisionError
    ensures (maxPartSize < 0 || blobSize == 0) && maxPartSize != 0 ==> r == Ok([])
    ensures r.Ok? && maxPartSize > 0 ==>
      |r.value| == CeilDiv(blobSize, maxPartSize).value
      && Covers(r.value, 0, blobSize)
      && (forall k | 0 <= k < |r.value| :: r.value[k].index == k && r.value[k].length <= maxPartSize)
      && (forall k | 0 <= k < |r.value| - 1 :: r.value[k].length == maxPartSize)
  {
    var numParts :- CeilDiv(blobSize, maxPartSize);
    PartCount(blobSize, maxPartSize, numParts);
    var parts: seq<Part> := [];
    var fileOffset := 0;
    var numBytesLeft := blobSize;
    var part := 0;
    while part < numParts
      invariant 0 <= part && (part <= numParts || part == 0)
      invariant |parts| == part
      invariant fileOffset + numBytesLeft == blobSize
      invariant part < numParts ==> fileOffset == part * maxPartSize
      invariant forall k | 0 <= k < part :: parts[k] == PlannedPart(blobSize, maxPartSize, k)
    {
      NextPart(blobSize, maxPartSize, numParts, part);
      var partLength := Min(numBytesLeft, maxPartSize);
      parts := parts + [Part(part, fileOffset, partLength)];
      numBytesLeft := numBytesLeft - partLength;
      fileOffset := fileOffset + partLength;
      part := part + 1;
    }
    if maxPartSize > 0 {
      PlannedTiling(parts, blobSize, maxPartSize, numParts);
    }
    return Ok(parts);
  }

  /** A positive part count needs a positive part size and a non-empty blob. */
  lemma PartCount(blobSize: nat, m: int, n: int)
    requires m != 0
    requires m > 0 ==> (n - 1) * m < blobSize <= n * m
    requires m < 0 ==> n * m <= blobSize < (n - 1) * m
    ensures n > 0 ==> m > 0 && blobSize > 0
  {
    if n > 0 && m > 0 {
      MulMono(0, n - 1, m);
    }
  }

  /** Part `k` of the loop has the closed form, and the offset after it is
      `(k + 1) * m` unless it is the last part. */
  lemma NextPart(blobSize: nat, m: int, n: int, k: nat)
    requires 0 <= k < n && (m > 0 ==> (n - 1) * m < blobSize <= n * m)
    requires n > 0 ==> m > 0
    ensures Part(k, k * m, Min(blobSize - k * m, m)) == PlannedPart(blobSize, m, k)
    ensures k + 1 < n ==> k * m + Min(blobSize - k * m, m) == (k + 1) * m
  {
    if k + 1 < n {
      PartFull(blobSize, m, n, k);
      assert (k + 1) * m == k * m + m;
    }
  }

  /** Part `k` of the plan in closed form. */
  function PlannedPart(blobSize: int, maxPartSize: int, k: nat): Part
  {
    Part(k, k * maxPartSize, Min(blobSize - k * maxPartSize, maxPartSize))
  }

  lemma PlannedTiling(parts: seq<Part>, blobSize: nat, m: nat, n: int)
    requires m > 0 && |parts| == n
    requires (n - 1) * m < blobSize <= n * m
    requires forall k | 0 <= k < n :: parts[k] == PlannedPart(blobSize, m, k)
    ensures Covers(parts, 0, blobSize)
    ensures forall k | 0 <= k < n :: parts[k].length <= m
    ensures forall k | 0 <= k < n - 1 :: parts[k].length == m
  {
    if n > 0 {
      PlannedSuffix(parts, blobSize, m, n, 0);
      assert parts[0..] == parts;
    }
    forall k | 0 <= k < n - 1 ensures parts[k].length == m {
      PartFull(blobSize, m, n, k);
    }
  }

  lemma PartFull(blobSize: nat, m: nat, n: int, k: nat)
    requires m > 0 && k < n - 1 && (n - 1) * m < blobSize
    ensures blobSize - k * m >= m
  {
    MulMono(k + 1, n - 1, m);
    assert (k + 1) * m == k * m + m;
  }

  lemma MulMono(a: int, b: int, m: nat)
    requires a <= b
    ensures a * m <= b * m
  {
    assert b * m - a * m == (b - a) * m;
  }

  lemma {:induction false} PlannedSuffix(parts: seq<Part>, blobSize: nat, m: nat, n: int, j: nat)
    requires m > 0 && |parts| == n && j < n
    requires (n - 1) * m < blobSize <= n * m
    requires forall k | 0 <= k < n :: parts[k] == PlannedPart(blobSize, m, k)
    ensures Covers(parts[j..], j * m, blobSize)
    decreases n - j
  {
    PlannedPartShape(blobSize, m, n, j);
    assert parts[j] == PlannedPart(blobSize, m, j);
    assert parts[j..][0] == parts[j] && parts[j..][1..] == parts[j + 1..];
    if j < n - 1 {
      PlannedSuffix(parts, blobSize, m, n, j + 1);
    }
  }

  /** Each planned part starts at `j * m`, is not empty, and ends where the
      next one starts, or at the end of the blob for the last one. */
  lemma PlannedPartShape(blobSize: nat, m: nat, n: int, j: nat)
    requires m > 0 && j < n
    requires (n - 1) * m < blobSize <= n * m
    ensures PlannedPart(blobSize, m, j).start == j * m
    ensures 0 < PlannedPart(blobSize, m, j).length
    ensures End(PlannedPart(blobSize, m, j)) == if j == n - 1 then blobSize else (j + 1) * m
  {
    MulMono(j, n - 1, m);
    assert (j + 1) * m == j * m + m;
    if j < n - 1 {
      PartFull(blobSize, m, n, j);
    } else {
      assert n * m == j * m + m;
    }
  }

  /** The bytes each part covers. */
  function ReadParts(data: Bytes, parts: seq<Part>): (r: seq<Bytes>)
    requires forall k | 0 <= k < |parts| :: 0 <= parts[k].start
    ensures |r| == |parts|
    ensures forall k | 0 <= k < |parts| :: r[k] == Window(data, parts[k].start, End(parts[k]))
  {
    seq(|parts|, k requires 0 <= k < |parts| => Window(data, parts[k].start, End(parts[k])))
  }

  lemma {:induction false} CoversNonNegative(parts: seq<Part>, from: int, to: int)
    requires 0 <= from && Covers(parts, from, to)
    ensures forall k | 0 <= k < |parts| :: from <= parts[k].start
    decreases |parts|
  {
    if |parts| > 0 {
      CoversNonNegative(parts[1..], End(parts[0]), to);
      forall k | 1 <= k < |parts| ensures from <= parts[k].start {
        assert parts[k] == parts[1..][k - 1];
      }
    }
  }

  /** Reading the parts of a tiling in order gives back exactly the bytes
      they tile: the server reassembles the original blob. */
  lemma {:induction false} CoversReassemble(data: Bytes, parts: seq<Part>, from: int, to: int)
    requires 0 <= from && to <= |data| && Covers(parts, from, to)
    ensures from <= to
    ensures forall k | 0 <= k < |parts| :: 0 <= parts[k].start
    ensures Flatten(ReadParts(data, parts)) == data[from..to]
    decreases |parts|
  {
    CoversNonNegative(parts, from, to);
    CoversOrdered(parts, from, to);
    if |parts| > 0 {
      var rest := parts[1..];
      CoversOrdered(rest, End(parts[0]), to);
      CoversReassemble(data, rest, End(parts[0]), to);
      assert ReadParts(data, parts) == [data[from..End(parts[0])]] + ReadParts(data, rest);
      assert data[from..to] == data[from..End(parts[0])] + data[End(parts[0])..to];
    }
  }

  // ---------------------------------------------------------------------
  // One part's payload (`BytesIOSegmentPayload`)

  /** A segment payload: `source` holds the reader's bytes from its initial
      position on; the payload covers `segmentLength` bytes starting
      `segmentStart` bytes in and reads them `chunkSize` at a time;
      `numBytesRead` counts what it has read so far. */
  datatype Segment = Segment(
    source: Bytes,
    segmentStart: nat,
    segmentLength: nat,
    chunkSize: nat,
    numBytesRead: nat)

  /** What every payload keeps: the segment lies inside the reader's bytes
      (the constructor asserts it) and the counter has not passed the
      segment's end. */
  predicate ValidSegment(seg: Segment)
  {
    seg.segmentStart + seg.segmentLength <= |seg.source| && seg.numBytesRead <= seg.segmentLength
  }

  /** The payload's reported `size`. */
  function Size(seg: Segment): nat
  {
    seg.segmentLength
  }

  function RemainingBytes(seg: Segment): int
  {
    seg.segmentLength - seg.numBytesRead
  }

  /** The bytes of the segment not yet read. */
  function Unread(seg: Segment): Bytes
    requires ValidSegment(seg)
  {
    seg.source[seg.segmentStart + seg.numBytesRead..seg.segmentStart + seg.segmentLength]
  }

  /** The constructor: it asserts that the segment fits in what is left of
      the reader after `segmentStart`, and starts with nothing read. */
  function NewSegment(source: Bytes, segmentStart: nat, segmentLength: nat, chunkSize: nat): (r: Result<Segment>)
    ensures r.Ok? <==> segmentStart + segmentLength <= |source|
    ensures r.Err? ==> r.error == AssertionError
    ensures r.Ok? ==> ValidSegment(r.value) && Unread(r.value) == source[segmentStart..segmentStart + segmentLength]
    ensures r.Ok? ==> Size(r.value) == segmentLength && RemainingBytes(r.value) == Size(r.value)
    ensures r.Ok? ==> r.value.source == source && r.value.segmentStart == segmentStart
                      && r.value.chunkSize == chunkSize
  {
    if segmentLength <= |source| - segmentStart then
      Ok(Segment(source, segmentStart, segmentLength, chunkSize, 0))
    else
      Err(AssertionError)
  }

  /** `reset_state`: forgets what was read, so the whole segment is unread
      again; nothing else changes. */
  function ResetState(seg: Segment): (r: Segment)
    requires ValidSegment(seg)
    ensures ValidSegment(r) && RemainingBytes(r) == Size(r) == Size(seg)
    ensures Unread(r) == seg.source[seg.segmentStart..seg.segmentStart + seg.segmentLength]
    ensures r.(numBytesRead := seg.numBytesRead) == seg
  {
    seg.(numBytesRead := 0)
  }

  /** One `safe_read` after `numRead` bytes: `min(chunk_size, remaining)`
      bytes from the current read position. */
  function SafeRead(seg: Segment, numRead: nat): (r: Bytes)
    requires seg.segmentStart + seg.segmentLength <= |seg.source| && numRead <= seg.segmentLength
    ensures |r| == Min(seg.chunkSize, seg.segmentLength - numRead)
  {
    var pos := seg.segmentStart + numRead;
    seg.source[pos..pos + Min(seg.chunkSize, seg.segmentLength - numRead)]
  }

  /** `write`: the chunks handed to the writer and the payload afterwards.
      With a positive chunk size the unread rest of the segment is sent in
      exactly the chunks `Collections.Chunks` describes and the counter ends
      at `segmentLength`, so nothing past the segment is ever read; with a
      zero chunk size the first read is empty and nothing is sent. */
  method Write(seg: Segment) returns (written: seq<Bytes>, after: Segment)
    requires ValidSegment(seg)
    ensures ValidSegment(after) && after == seg.(numBytesRead := after.numBytesRead)
    ensures forall k | 0 <= k < |written| :: 0 < |written[k]| <= seg.chunkSize
    ensures seg.chunkSize > 0 ==>
      after.numBytesRead == seg.segmentLength && RemainingBytes(after) == 0
      && written == Chunks(Unread(seg), seg.chunkSize)
    ensures seg.chunkSize == 0 ==> written == [] && after == seg
  {
    var chunk, numRead;
    written, chunk, numRead := WriteLoop(seg);
    WriteDone(seg, written, chunk, numRead);
    if |chunk| > 0 {
      written := written + [chunk];
    }
    after := seg.(numBytesRead := numRead);
  }

  /** The read-and-write loop of `write`, up to the final chunk it holds
      when it stops. */
  method WriteLoop(seg: Segment) returns (written: seq<Bytes>, chunk: Bytes, numRead: nat)
    requires ValidSegment(seg)
    ensures WriteInv(seg, written, chunk, numRead)
    ensures !(|chunk| > 0 && seg.segmentLength - numRead > 0)
  {
    numRead := seg.numBytesRead;
    chunk := SafeRead(seg, numRead);
    numRead := numRead + |chunk|;
    written := [];
    assert Flatten(written) + chunk == chunk;
    while |chunk| > 0 && seg.segmentLength - numRead > 0
      invariant WriteInv(seg, written, chunk, numRead)
      decreases seg.segmentLength - numRead, |chunk|
    {
      WriteStep(seg, written, chunk, numRead);
      written := written + [chunk];
      chunk := SafeRead(seg, numRead);
      numRead := numRead + |chunk|;
    }
  }

  /** What holds while `write` loops: `written` and the chunk in hand are
      the segment's bytes from where the payload started up to the counter,
      every written chunk is full, and the chunk in hand is as long as
      `safe_read` makes it. */
  predicate WriteInv(seg: Segment, written: seq<Bytes>, chunk: Bytes, numRead: int)
  {
    seg.segmentStart + seg.segmentLength <= |seg.source|
    && seg.numBytesRead + |chunk| <= numRead <= seg.segmentLength
    && |chunk| == Min(seg.chunkSize, seg.segmentLength - (numRead - |chunk|))
    && Flatten(written) + chunk
       == seg.source[seg.segmentStart + seg.numBytesRead..seg.segmentStart + numRead]
    && (forall k | 0 <= k < |written| :: |written[k]| == seg.chunkSize)
    && (seg.chunkSize == 0 ==> numRead == seg.numBytesRead && written == [])
  }

  lemma WriteStep(seg: Segment, written: seq<Bytes>, chunk: Bytes, numRead: nat)
    requires WriteInv(seg, written, chunk, numRead)
    requires |chunk| > 0 && seg.segmentLength - numRead > 0
    ensures WriteInv(seg, written + [chunk], SafeRead(seg, numRead), numRead + |SafeRead(seg, numRead)|)
  {
    var next := SafeRead(seg, numRead);
    var base := seg.segmentStart + seg.numBytesRead;
    var pos := seg.segmentStart + numRead;
    FlattenAppend(written, chunk);
    assert seg.source[base..pos + |next|] == seg.source[base..pos] + next;
  }

  lemma WriteDone(seg: Segment, written: seq<Bytes>, chunk: Bytes, numRead: nat)
    requires WriteInv(seg, written, chunk, numRead)
    requires !(|chunk| > 0 && seg.segmentLength - numRead > 0)
    ensures seg.chunkSize > 0 ==> numRead == seg.segmentLength
    ensures var all := if |chunk| > 0 then written + [chunk] else written;
      (forall k | 0 <= k < |all| :: 0 < |all[k]| <= seg.chunkSize)
      && (seg.chunkSize > 0 ==> all == Chunks(seg.source[seg.segmentStart + seg.numBytesRead..seg.segmentStart + seg.segmentLength],
                                              seg.chunkSize))
  {
    var all := if |chunk| > 0 then written + [chunk] else written;
    FlattenAppend(written, chunk);
    assert Flatten(all) == Flatten(written) + chunk;
    if seg.chunkSize > 0 {
      ChunksUnique(all, seg.source[seg.segmentStart + seg.numBytesRead..seg.segmentStart + seg.segmentLength],
                   seg.chunkSize);
    }
  }

  // ---------------------------------------------------------------------
  // Streams and file upload specs

  /** An open binary stream: its whole content and the current position
      (kept within the content). */
  datatype StreamState = StreamState(content: Bytes, pos: nat)
  type Stream = s: StreamState | s.pos <= |s.content| witness StreamState([], 0)

  /** `_get_blob_size`: the number of bytes from the current position to
      the end; the stream comes back at the position it had. */
  function GetBlobSize(data: Stream): (r: (nat, Stream))
    ensures r.0 == |data.content[data.pos..]|
    ensures r.1 == data
  {
    (|data.content| - data.pos, data)
  }

  /** `FileUploadSpec`, without the source callable and its description. */
  datatype FileUploadSpec = FileUploadSpec(
    mountFilename: string,
    useBlob: bool,
    content: Option<Bytes>,
    sha256Hex: string,
    mode: int,
    size: nat)

  /** Python's `a & b` on non-negative integers, bit by bit. */
  function BitAnd(a: nat, b: nat): nat
  {
    if a == 0 || b == 0 then 0
    else 2 * BitAnd(a / 2, b / 2) + (if a % 2 == 1 && b % 2 == 1 then 1 else 0)
  }

  function Pow2(k: nat): (r: nat)
    ensures r >= 1
  {
    if k == 0 then 1 else 2 * Pow2(k - 1)
  }

  /** Masking with `2**k - 1` keeps exactly the remainder modulo `2**k`;
      so `mode & 0o7777` is `mode % 4096`. */
  lemma {:induction false} MaskIsLowBits(x: nat, k: nat)
    ensures BitAnd(x, Pow2(k) - 1) == x % Pow2(k)
  {
    if k == 0 {
      assert Pow2(k) - 1 == 0;
    } else if x > 0 {
      var m := Pow2(k - 1);
      var low := BitAnd(x / 2, m - 1);
      MaskIsLowBits(x / 2, k - 1);
      assert low == (x / 2) % m;
      BitAndOdd(x, m - 1);
      assert 2 * (m - 1) + 1 == Pow2(k) - 1;
      assert BitAnd(x, Pow2(k) - 1) == 2 * low + x % 2;
      HalfMod(x, m);
      assert 2 * low + x % 2 == x % Pow2(k);
    } else {
      assert x == 0;
      ZeroMod(Pow2(k));
    }
  }

  lemma ZeroMod(p: int)
    requires p > 0
    ensures 0 % p == 0
  {
  }

  /** One step of `&` against an odd mask keeps the lowest bit of `x`. */
  lemma BitAndOdd(x: nat, n: nat)
    requires x > 0
    ensures BitAnd(x, 2 * n + 1) == 2 * BitAnd(x / 2, n) + x % 2
  {
    var b := 2 * n + 1;
    assert b / 2 == n && b % 2 == 1;
  }

  lemma HalfMod(x: nat, m: nat)
    requires m >= 1
    ensures 2 * ((x / 2) % m) + x % 2 == x % (2 * m)
  {
    var q := (x / 2) / m;
    var r := 2 * ((x / 2) % m) + x % 2;
    assert x / 2 == q * m + (x / 2) % m;
    assert x == 2 * (x / 2) + x % 2;
    assert x == q * (2 * m) + r;
    DivUnique(x, 2 * m, q, r);
  }

  /** The mask never sets a bit the mask itself lacks, so the result is no
      larger than the mask. */
  lemma {:induction false} BitAndAtMost(a: nat, b: nat)
    ensures BitAnd(a, b) <= b
  {
    if a != 0 && b != 0 {
      BitAndAtMost(a / 2, b / 2);
    }
  }

  /** 0o7777: the permission, setuid, setgid and sticky bits. */
  const MODE_MASK: nat := 4095
  /** 0o7755: the mask used on Windows, which drops group and other write. */
  const WINDOWS_MODE_MASK: nat := 4077
  /** 0o022: the group-write and other-write bits. */
  const GROUP_OTHER_WRITE: nat := 18

  /** Masks without a common bit split a mask of their sum: `a & (m1 | m2)`
      is `(a & m1) + (a & m2)` when `m1 & m2 == 0`. */
  lemma {:induction false} BitAndDisjointSum(a: nat, m1: nat, m2: nat)
    requires BitAnd(m1, m2) == 0
    ensures BitAnd(a, m1) + BitAnd(a, m2) == BitAnd(a, m1 + m2)
  {
    if a != 0 && m1 != 0 && m2 != 0 {
      assert !(m1 % 2 == 1 && m2 % 2 == 1);
      assert BitAnd(m1 / 2, m2 / 2) == 0;
      assert (m1 + m2) / 2 == m1 / 2 + m2 / 2;
      BitAndDisjointSum(a / 2, m1 / 2, m2 / 2);
    }
  }

  /** The Windows mask and the write bits it drops make up 0o7777. */
  lemma WindowsMaskSplit()
    ensures BitAnd(WINDOWS_MODE_MASK, GROUP_OTHER_WRITE) == 0
    ensures WINDOWS_MODE_MASK + GROUP_OTHER_WRITE == MODE_MASK
  {
    assert BitAnd(254, 1) == 0;
    assert BitAnd(509, 2) == 0;
    assert BitAnd(1019, 4) == 0;
    assert BitAnd(2038, 9) == 0;
  }

  /** `_get_file_upload_spec` for a file with the given content: files of
      at least 4 MiB are uploaded as blobs and carry no inline content,
      smaller ones carry their whole content; the hash is over the whole
      file from position 0 either way, and the mode keeps its low 12 bits
      (Python's `&` on a negative int agrees with the floored remainder). */
  function GetFileUploadSpec(file: Bytes, mountFilename: string, mode: int, sha256Hex: Bytes -> string)
    : (r: FileUploadSpec)
    ensures r.useBlob <==> |file| >= LARGE_FILE_LIMIT
    ensures r.content.Some? <==> !r.useBlob
    ensures r.content.Some? ==> r.content.value == file
    ensures r.size == |file| && r.sha256Hex == sha256Hex(file) && r.mountFilename == mountFilename
    ensures 0 <= r.mode <= MODE_MASK && (mode - r.mode) % (MODE_MASK + 1) == 0
  {
    var useBlob := |file| >= LARGE_FILE_LIMIT;
    FileUploadSpec(mountFilename, useBlob, if useBlob then None else Some(file),
                   sha256Hex(file), mode % (MODE_MASK + 1), |file|)
  }

  /** The mode `get_file_upload_spec_from_path` passes on: the given mode
      unless it is missing or 0, else the stat mode masked with 0o7777
      (0o7755 on Windows). */
  function ModeFromPath(mode: Option<int>, stMode: nat, windows: bool): (r: int)
    ensures mode.Some? && mode.value != 0 ==> r == mode.value
    ensures (mode.None? || mode.value == 0) ==> 0 <= r <= MODE_MASK
    ensures (mode.None? || mode.value == 0) && !windows ==> r == stMode % (MODE_MASK + 1)
    ensures (mode.None? || mode.value == 0) && windows ==>
      r == stMode % (MODE_MASK + 1) - BitAnd(stMode, GROUP_OTHER_WRITE)
  {
    if mode.Some? && mode.value != 0 then mode.value
    else if windows then
      BitAndAtMost(stMode, WINDOWS_MODE_MASK);
      WindowsMaskSplit();
      BitAndDisjointSum(stMode, WINDOWS_MODE_MASK, GROUP_OTHER_WRITE);
      assert Pow2(12) == MODE_MASK + 1;
      MaskIsLowBits(stMode, 12);
      BitAnd(stMode, WINDOWS_MODE_MASK)
    else
      assert Pow2(12) == MODE_MASK + 1;
      MaskIsLowBits(stMode, 12);
      BitAnd(stMode, MODE_MASK)
  }

  /** `get_file_upload_spec_from_path`: a stat mode that was already masked
      survives the second mask unchanged. */
  lemma FromPathModeIsStatBits(file: Bytes, mountFilename: string, stMode: nat, sha256Hex: Bytes -> string)
    ensures GetFileUploadSpec(file, mountFilename, ModeFromPath(None, stMode, false), sha256Hex).mode
            == stMode % (MODE_MASK + 1)
  {
    var m := ModeFromPath(None, stMode, false);
    assert m % (MODE_MASK + 1) == m;
  }

  // ---------------------------------------------------------------------
  // S3 host classification (`use_md5`)

  /** `netloc.split(":")[0]`: everything before the first colon. */
  function HostOf(netloc: string): (host: string)
    ensures StartsWith(netloc, host) && ':' !in host
    ensures |host| < |netloc| ==> netloc[|host|] == ':'
  {
    if |netloc| == 0 || netloc[0] == ':' then []
    else [netloc[0]] + HostOf(netloc[1..])
  }

  const LOCAL_HOSTS: seq<string> := ["127.0.0.1", "localhost", "172.21.0.1"]

  predicate IsS3Host(host: string)
  {
    EndsWith(host, ".amazonaws.com") || EndsWith(host, ".r2.cloudflarestorage.com")
  }

  /** `use_md5` on the URL's network location: checksums go to AWS and R2
      hosts, not to the local test servers, and any other host raises. */
  function UseMd5(netloc: string): (r: Result<bool>)
    ensures r == Ok(true) <==> IsS3Host(HostOf(netloc))
    ensures r == Ok(false) <==> !IsS3Host(HostOf(netloc)) && HostOf(netloc) in LOCAL_HOSTS
    ensures r.Err? ==> r.error == GenericException
  {
    var host := HostOf(netloc);
    if IsS3Host(host) then Ok(true)
    else if host in LOCAL_HOSTS then Ok(false)
    else Err(GenericException)
  }

  /** The port never matters: only the host before the colon is looked at. */
  lemma {:induction false} UseMd5IgnoresPort(host: string, port: string)
    requires ':' !in host
    ensures UseMd5(host + ":" + port) == UseMd5(host)
  {
    HostBeforeColon(host, port);
  }

  lemma {:induction false} HostBeforeColon(host: string, port: string)
    requires ':' !in host
    ensures HostOf(host + ":" + port) == host
    ensures HostOf(host) == host
  {
    if |host| > 0 {
      assert (host + ":" + port)[1..] == host[1..] + ":" + port;
      HostBeforeColon(host[1..], port);
    }
  }

  // ---------------------------------------------------------------------
  // Upload dispatch (`_blob_upload`)

  /** The `upload_status` one-of of the create-upload response. */
  datatype UploadStatus =
    | AlreadyExists
    | MultiPartUpload(partSize: int)
    | SinglePartUpload
    | OtherStatus

  /** What an upload did: the blob id it returns, the parts it staged, the
      bytes each part sent, and whether it committed. */
  datatype UploadReport = UploadReport(blobId: string, parts: seq<Part>, sent: seq<Bytes>, committed: bool)

  /** `_upload_with_request_details`: only 200 and 204 are success. */
  predicate UploadAccepted(httpStatus: int)
  {
    httpStatus == 200 || httpStatus == 204
  }

  /** `_download_from_url`: only 200 is success. */
  function CheckDownload(httpStatus: int, body: Bytes): (r: Result<Bytes>)
    ensures r.Ok? <==> httpStatus == 200
    ensures r.Ok? ==> r.value == body
    ensures r.Err? ==> r.error == ExecutionError
  {
    if httpStatus != 200 then Err(ExecutionError) else Ok(body)
  }

  /** `_blob_upload` for one response of the server and one HTTP status that
      every part request receives. An existing blob returns the given hash
      without uploading; an unknown mode raises; otherwise the data is sent
      (multipart parts read a fresh reader from byte 0, the single part
      reads from the current position) and the commit's hash is returned.
      A successful upload sends exactly the blob's bytes. */
  method BlobUpload(sha256Hex: string, data: Stream, status: UploadStatus, httpStatus: int, commitHash: string)
    returns (r: Result<UploadReport>)
    ensures status.AlreadyExists? ==> r == Ok(UploadReport(sha256Hex, [], [], false))
    ensures status.OtherStatus? ==> r == Err(NotImplementedError)
    ensures status.SinglePartUpload? ==> (r.Ok? <==> UploadAccepted(httpStatus))
    ensures status.SinglePartUpload? && r.Ok? ==> r.value.sent == [data.content[data.pos..]]
    ensures status.MultiPartUpload? && status.partSize == 0 ==> r == Err(ZeroDivisionError)
    ensures status.MultiPartUpload? && status.partSize > 0 && data.pos < |data.content| ==>
      (r.Ok? <==> UploadAccepted(httpStatus))
    ensures status.MultiPartUpload? && r.Ok? && status.partSize > 0 ==>
      Covers(r.value.parts, 0, |data.content| - data.pos)
      && Flatten(r.value.sent) == data.content[..|data.content| - data.pos]
    ensures r.Ok? && !status.AlreadyExists? ==> r.value.blobId == commitHash && r.value.committed
    ensures r.Err? && !status.MultiPartUpload? && !status.OtherStatus? ==> r.error == ExecutionError
  {
    var (blobSize, _) := GetBlobSize(data);
    match status {
      case AlreadyExists =>
        return Ok(UploadReport(sha256Hex, [], [], false));
      case OtherStatus =>
        return Err(NotImplementedError);
      case SinglePartUpload =>
        var payload := Segment(data.content[data.pos..], 0, blobSize, DEFAULT_SEGMENT_CHUNK_SIZE, 0);
        var written, _ := Write(payload);
        assert Unread(payload) == data.content[data.pos..];
        if !UploadAccepted(httpStatus) {
          return Err(ExecutionError);
        }
        return Ok(UploadReport(commitHash, [Part(0, 0, blobSize)], [Flatten(written)], true));
      case MultiPartUpload(partSize) =>
        var parts :- PlanParts(blobSize, partSize);
        var sent := SendParts(data.content, parts, blobSize, partSize);
        if |parts| > 0 && !UploadAccepted(httpStatus) {
          return Err(ExecutionError);
        }
        return Ok(UploadReport(commitHash, parts, sent, true));
    }
  }

  /** Every part writes its segment from a reader positioned at byte 0;
      what a part sends is exactly the bytes it covers. */
  method SendParts(content: Bytes, parts: seq<Part>, blobSize: nat, partSize: int) returns (sent: seq<Bytes>)
    requires blobSize <= |content|
    requires partSize > 0 ==> Covers(parts, 0, blobSize)
    requires partSize <= 0 ==> parts == []
    ensures |sent| == |parts|
    ensures partSize > 0 ==> Flatten(sent) == content[..blobSize]
  {
    if partSize <= 0 {
      return [];
    }
    CoversReassemble(content, parts, 0, blobSize);
    CoversNonNegative(parts, 0, blobSize);
    sent := [];
    var k := 0;
    while k < |parts|
      invariant 0 <= k <= |parts| && |sent| == k
      invariant forall i | 0 <= i < k :: sent[i] == Window(content, parts[i].start, End(parts[i]))
    {
      var p := parts[k];
      PartWithin(parts, 0, blobSize, k);
      var seg := Segment(content, p.start, p.length, DEFAULT_SEGMENT_CHUNK_SIZE, 0);
      var written, _ := Write(seg);
      sent := sent + [Flatten(written)];
      k := k + 1;
    }
    assert sent == ReadParts(content, parts);
  }

  /** Each part of a tiling starts at or after `from` and ends by `to`. */
  lemma {:induction false} PartWithin(parts: seq<Part>, from: int, to: int, k: nat)
    requires 0 <= from && Covers(parts, from, to) && k < |parts|
    ensures from <= parts[k].start && 0 < parts[k].length && End(parts[k]) <= to
    decreases k
  {
    CoversOrdered(parts[1..], End(parts[0]), to);
    if k > 0 {
      PartWithin(parts[1..], End(parts[0]), to, k - 1);
    }
  }
}
