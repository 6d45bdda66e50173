/** The cache directory as the reader sees it, and the two file operations
    the readers perform on it: `os.Open` and `Seek` followed by `Read`. A file
    is its byte sequence; the reader never writes. */
module Disk {
  import opened GoInt
  import opened Bytes
  import opened Errors
  import C = CacheConf

  /** `files`: the bytes of every file that exists, by path.
      `cacheInfos`, `envelopes`: the `conf.xml` and `conf.cdi` files that exist
      and unmarshal, by path, already decoded. */
  datatype Disk = Disk(
    files: map<string, seq<byte>>,
    cacheInfos: map<string, C.CacheInfo>,
    envelopes: map<string, C.Envelope>)

  /** Byte `pos` of `file`; past the end, the zero a freshly made buffer holds. */
  function ByteAt(file: seq<byte>, pos: int): byte {
    if 0 <= pos < |file| then file[pos] else 0
  }

  /** The `n`-byte buffer after reading `file` from `pos`: the file's bytes as
      far as they go, zeros after. */
  function Padded(file: seq<byte>, pos: nat, n: nat): (r: seq<byte>)
    ensures |r| == n
    ensures forall i :: 0 <= i < n ==> r[i] == ByteAt(file, pos + i)
    decreases n
  {
    if n == 0 then [] else [ByteAt(file, pos)] + Padded(file, pos + 1, n - 1)
  }

  function ZeroBytes(k: nat): (z: seq<byte>)
    ensures |z| == k && forall i :: 0 <= i < k ==> z[i] == 0
  {
    if k == 0 then [] else [0] + ZeroBytes(k - 1)
  }

  /** The most bytes one `f.Read` asks of the operating system: Go's
      `internal/poll` cuts every read of a file to `maxRW`, 1 GiB. */
  const MaxRead := 0x4000_0000

  /** The `n`-byte buffer after one `f.Read` from `pos`: the file's bytes as
      far as they go, but no more than `MaxRead` of them, zeros after. */
  function Filled(file: seq<byte>, pos: nat, n: nat): (r: seq<byte>)
    ensures |r| == n
    ensures forall i :: 0 <= i < n ==> r[i] == (if i < MaxRead then ByteAt(file, pos + i) else 0)
  {
    if n <= MaxRead then Padded(file, pos, n) else Padded(file, pos, MaxRead) + ZeroBytes(n - MaxRead)
  }

  /** Every payload is short enough for one read to return it whole. */
  predicate ReadWhole(payloads: seq<seq<byte>>) {
    forall k :: 0 <= k < |payloads| ==> |payloads[k]| <= MaxRead
  }

  /** Within the file, the buffer holds exactly the file's bytes. */
  lemma PaddedInside(file: seq<byte>, pos: nat, n: nat)
    requires pos + n <= |file|
    ensures Padded(file, pos, n) == file[pos..pos + n]
  {
  }

  /** A read that lies inside the file succeeds with the file's bytes, with
      or without a seek before it. */
  lemma ReadInside(file: seq<byte>, pos: nat, n: nat)
    requires pos + n <= |file| && pos < 0x8000_0000_0000_0000 && n <= MaxRead
    ensures Read(file, pos, n) == Ok(file[pos..pos + n])
    ensures SeekRead(file, pos, n) == Ok(file[pos..pos + n])
  {
    PaddedInside(file, pos, n);
  }

  /** `f.Read(buf)` into a fresh `n`-byte buffer with the file at `pos`: a
      read that starts at or past the end of the file (of a non-empty buffer)
      fails with io.EOF; one that starts inside the file succeeds and leaves
      the buffer's tail zero if the file ends first or `MaxRead` is reached. */
  function Read(file: seq<byte>, pos: nat, n: nat): (r: Result<seq<byte>>)
    ensures r.Ok? <==> pos < |file| || n == 0
    ensures r.Err? ==> r.error == EndOfFile
    ensures r.Ok? ==> |r.value| == n && forall i :: 0 <= i < n && i < MaxRead ==> r.value[i] == ByteAt(file, pos + i)
    ensures r.Ok? ==> forall i :: MaxRead <= i < n ==> r.value[i] == 0
  {
    if n > 0 && pos >= |file| then Err(EndOfFile) else Ok(Filled(file, pos, n))
  }

  /** `f.Seek(pos, 0)` then `f.Read(buf)`, both errors checked: a negative
      offset fails the seek. */
  function SeekRead(file: seq<byte>, pos: int64, n: nat): (r: Result<seq<byte>>)
    ensures r.Ok? <==> 0 <= pos && (pos < |file| || n == 0)
    ensures pos < 0 ==> r == Err(InvalidSeek)
    ensures r.Err? ==> !IsPanic(r.error)
    ensures r.Ok? ==> |r.value| == n && forall i :: 0 <= i < n && i < MaxRead ==> r.value[i] == ByteAt(file, pos + i)
    ensures r.Ok? ==> forall i :: MaxRead <= i < n ==> r.value[i] == 0
  {
    if pos < 0 then Err(InvalidSeek) else Read(file, pos, n)
  }

  /** The file position after a successful `SeekRead`. */
  function PositionAfter(file: seq<byte>, pos: nat, n: nat): nat {
    Min(pos + Min(n, MaxRead), |file|)
  }

  /** Reading the length of a record and then that many bytes after it gives
      the payload back. */
  lemma ReadsRecord(file: seq<byte>, o: nat, payload: seq<byte>)
    requires HoldsRecord(file, o, payload) && |payload| <= MaxRead
    ensures Filled(file, PositionAfter(file, o, 4), LittleEndian(Padded(file, o, 4))) == payload
  {
    assert LittleEndian(Padded(file, o, 4)) == |payload| by {
      PaddedInside(file, o, 4);
    }
    assert PositionAfter(file, o, 4) == o + 4;
    PaddedInside(file, o + 4, |payload|);
  }

  /** A payload longer than `MaxRead` is read back only in part: its first
      `MaxRead` bytes, then zeros to the declared length. */
  lemma ReadsLongRecord(file: seq<byte>, o: nat, payload: seq<byte>)
    requires HoldsRecord(file, o, payload) && |payload| > MaxRead
    ensures Filled(file, PositionAfter(file, o, 4), LittleEndian(Padded(file, o, 4)))
         == payload[..MaxRead] + ZeroBytes(|payload| - MaxRead)
  {
    assert LittleEndian(Padded(file, o, 4)) == |payload| by {
      PaddedInside(file, o, 4);
    }
    assert PositionAfter(file, o, 4) == o + 4;
    PaddedInside(file, o + 4, MaxRead);
    assert file[o + 4..o + 4 + MaxRead] == payload[..MaxRead];
  }
}
