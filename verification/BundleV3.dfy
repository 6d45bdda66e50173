/** The 10.3 compact cache: a block is a single `.bundle` file. A 64-byte
    header is followed by one 8-byte index entry per record, row-major; the
    low 4 bytes of entry k hold, little-endian, the offset of record k's tile
    bytes, and the 4 bytes just before that offset hold the tile's length
    (arcgisCache10_3.go `getImageData`, `GetTileBytes`). */
module BundleV3 {
  import opened GoInt
  import opened Bytes
  import opened Errors
  import opened Disk
  import opened Addressing
  import W = BundleWriter

  const HeaderSize := 64
  const EntrySize := 8

  /** `64 + recordNumber*8`, in int64 arithmetic: where the record's entry
      starts. For any record number a block can have, it does not wrap. */
  function EntryOffset(recordNumber: int64): (r: int64)
    ensures 0 <= recordNumber < 0x100_0000_0000_0000 ==> r == HeaderSize + EntrySize * recordNumber
  {
    Add(HeaderSize, Mul(recordNumber, EntrySize))
  }

  /** Where the length is read. `Seek(imageOffset-4, 0)` is not checked: when
      the entry holds an offset below 4 the seek fails and the file stays
      where the 4-byte entry read left it. */
  function LengthPosition(file: seq<byte>, tileOffset: nat, imageOffset: nat): nat {
    if imageOffset >= 4 then imageOffset - 4 else PositionAfter(file, tileOffset, 4)
  }

  /** The first half of `getImageData`: seek to the entry (checked), read its
      4 low bytes (checked), and move to where the length is read. The
      decoding is written `LittleEndian`: on a field shorter than 8 bytes
      that is what `bytesToInt64` computes (`Bytes.ShortFieldExact`). */
  function LengthField(file: seq<byte>, tileOffset: int64): (r: Result<nat>)
    ensures r.Ok? <==> 0 <= tileOffset < |file|
    ensures tileOffset < 0 ==> r == Err(InvalidSeek)
    ensures r.Err? ==> !IsPanic(r.error)
    ensures 0 <= tileOffset < |file| ==> r.value == LengthPosition(file, tileOffset, LittleEndian(Padded(file, tileOffset, 4)))
  {
    var offsetBytes :- SeekRead(file, tileOffset, 4);
    Ok(LengthPosition(file, tileOffset, LittleEndian(offsetBytes)))
  }

  /** `getImageData`: open the bundle, find the entry, read the length (that
      read is checked), then read that many bytes. The data read's error is
      ignored, so a file that ends early leaves zeros in the buffer, and so
      does a length above `MaxRead` after the first `MaxRead` bytes. */
  function ImageData(disk: Disk, stem: string, recordNumber: int64): (r: Result<seq<byte>>)
    ensures BundlePath(stem) !in disk.files ==> r == Err(FileNotFound(BundlePath(stem)))
    ensures BundlePath(stem) in disk.files && EntryOffset(recordNumber) < 0 ==> r == Err(InvalidSeek)
    ensures BundlePath(stem) in disk.files && EntryOffset(recordNumber) >= |disk.files[BundlePath(stem)]| ==>
      r == Err(EndOfFile)
    ensures r.Ok? ==> |r.value| < 0x1_0000_0000
    ensures r.Err? ==> !IsPanic(r.error)
  {
    var path := BundlePath(stem);
    if path !in disk.files then Err(FileNotFound(path))
    else
      var file := disk.files[path];
      var pos :- LengthField(file, EntryOffset(recordNumber));
      var lengthBytes :- Read(file, pos, 4);
      DecodedWidthsFitInt64(lengthBytes);
      Ok(Filled(file, PositionAfter(file, pos, 4), LittleEndian(lengthBytes)))
  }

  /** `GetTileBytes`: address the tile, then read its bytes; the first error
      ends the lookup. */
  function TileBytes(disk: Disk, base: string, p: PacketSize, level: uint63, row: uint63, col: uint63): (r: Result<seq<byte>>)
    ensures TileInfoV3(base, p, level, row, col).Err? ==> r == Err(InvalidLevelRowCol)
    ensures r.Err? ==> !IsPanic(r.error)
    ensures TileInfoV3(base, p, level, row, col).Ok? ==>
      r == ImageData(disk, TileInfoV3(base, p, level, row, col).value.stem, TileInfoV3(base, p, level, row, col).value.number)
  {
    var record :- TileInfoV3(base, p, level, row, col);
    ImageData(disk, record.stem, record.number)
  }

  /** Once the length field is located at `pos`, the result is the record
      read from there: nothing else about the entry is used. */
  lemma ImageDataAt(disk: Disk, stem: string, recordNumber: int64, file: seq<byte>, pos: nat)
    requires BundlePath(stem) in disk.files && disk.files[BundlePath(stem)] == file
    requires LengthField(file, EntryOffset(recordNumber)) == Ok(pos)
    ensures pos < |file| ==>
      ImageData(disk, stem, recordNumber) == Ok(Filled(file, PositionAfter(file, pos, 4), LittleEndian(Padded(file, pos, 4))))
    ensures pos >= |file| ==> ImageData(disk, stem, recordNumber) == Err(EndOfFile)
  {
  }

  /** A zero length gives an empty tile, whatever follows the length field. */
  lemma ZeroLength(disk: Disk, stem: string, recordNumber: int64, file: seq<byte>, pos: nat)
    requires BundlePath(stem) in disk.files && disk.files[BundlePath(stem)] == file
    requires LengthField(file, EntryOffset(recordNumber)) == Ok(pos)
    requires pos < |file| && LittleEndian(Padded(file, pos, 4)) == 0
    ensures ImageData(disk, stem, recordNumber) == Ok([])
  {
    ImageDataAt(disk, stem, recordNumber, file, pos);
  }

  /** An entry holding an offset below 4 sends the length read to the
      entry's own high half: the 4 bytes after the entry's low half are taken
      as the length, and the data is read from the next entry on. */
  lemma ShortOffset(disk: Disk, stem: string, recordNumber: int64, file: seq<byte>, t: nat)
    requires BundlePath(stem) in disk.files && disk.files[BundlePath(stem)] == file
    requires EntryOffset(recordNumber) == t && t + 8 <= |file|
    requires LittleEndian(file[t..t + 4]) < 4
    ensures ImageData(disk, stem, recordNumber) == Ok(Filled(file, t + 8, LittleEndian(file[t + 4..t + 8])))
  {
    ReadInside(file, t, 4);
    assert LengthField(file, t) == Ok(t + 4);
    ImageDataAt(disk, stem, recordNumber, file, t + 4);
    PaddedInside(file, t + 4, 4);
  }

  /** Only the entry's low 4 bytes and the file from the length field on are
      read: two bundles that agree there give the same result, whatever the
      entry's high half and the other entries hold. */
  lemma HighHalfIgnored(disk1: Disk, disk2: Disk, stem: string, recordNumber: int64, t: nat, at: nat)
    requires BundlePath(stem) in disk1.files && BundlePath(stem) in disk2.files
    requires EntryOffset(recordNumber) == t
    requires t + 4 <= |disk1.files[BundlePath(stem)]| && t + 4 <= |disk2.files[BundlePath(stem)]|
    requires disk1.files[BundlePath(stem)][t..t + 4] == disk2.files[BundlePath(stem)][t..t + 4]
    requires LittleEndian(disk1.files[BundlePath(stem)][t..t + 4]) == at + 4
    requires at <= |disk1.files[BundlePath(stem)]| && at <= |disk2.files[BundlePath(stem)]|
    requires disk1.files[BundlePath(stem)][at..] == disk2.files[BundlePath(stem)][at..]
    ensures ImageData(disk1, stem, recordNumber) == ImageData(disk2, stem, recordNumber)
  {
    var f1, f2 := disk1.files[BundlePath(stem)], disk2.files[BundlePath(stem)];
    ReadInside(f1, t, 4);
    ReadInside(f2, t, 4);
    assert LengthField(f1, t) == Ok(at);
    assert LengthField(f2, t) == Ok(at);
    ImageDataAt(disk1, stem, recordNumber, f1, at);
    ImageDataAt(disk2, stem, recordNumber, f2, at);
    SameTail(f1, f2, at);
  }

  /** Files with the same bytes from `at` on read the same from there. */
  lemma SameTail(f1: seq<byte>, f2: seq<byte>, at: nat)
    requires at <= |f1| && at <= |f2| && f1[at..] == f2[at..]
    ensures |f1| == |f2|
    ensures forall pos: nat, n: nat :: at <= pos ==> Filled(f1, pos, n) == Filled(f2, pos, n)
  {
    assert |f1| == at + |f1[at..]|;
    forall pos: nat, n: nat | at <= pos
      ensures Filled(f1, pos, n) == Filled(f2, pos, n)
    {
      forall i | 0 <= i < n
        ensures Filled(f1, pos, n)[i] == Filled(f2, pos, n)[i]
      {
        if pos + i < |f1| {
          assert f1[pos + i] == f1[at..][pos + i - at];
        }
      }
    }
  }

  /** An entry pointing at a written record (4-byte length, then a payload
      one read can return) yields that payload. */
  lemma ReadsPayload(disk: Disk, stem: string, recordNumber: int64, t: nat, at: nat, payload: seq<byte>)
    requires BundlePath(stem) in disk.files && EntryOffset(recordNumber) == t && |payload| <= MaxRead
    requires HoldsValue(disk.files[BundlePath(stem)], t, 4, at + 4)
    requires HoldsRecord(disk.files[BundlePath(stem)], at, payload)
    ensures ImageData(disk, stem, recordNumber) == Ok(payload)
  {
    var file := disk.files[BundlePath(stem)];
    ReadInside(file, t, 4);
    assert LengthField(file, t) == Ok(at);
    ImageDataAt(disk, stem, recordNumber, file, at);
    ReadsRecord(file, at, payload);
  }

  /** An entry pointing at a record whose payload is longer than one read
      returns yields the payload cut: its first `MaxRead` bytes, then zeros. */
  lemma LongPayloadCut(disk: Disk, stem: string, recordNumber: int64, t: nat, at: nat, payload: seq<byte>)
    requires BundlePath(stem) in disk.files && EntryOffset(recordNumber) == t && |payload| > MaxRead
    requires HoldsValue(disk.files[BundlePath(stem)], t, 4, at + 4)
    requires HoldsRecord(disk.files[BundlePath(stem)], at, payload)
    ensures ImageData(disk, stem, recordNumber) == Ok(payload[..MaxRead] + ZeroBytes(|payload| - MaxRead))
  {
    var file := disk.files[BundlePath(stem)];
    ReadInside(file, t, 4);
    assert LengthField(file, t) == Ok(at);
    ImageDataAt(disk, stem, recordNumber, file, at);
    ReadsLongRecord(file, at, payload);
  }

  /** An absent bundle makes the tile lookup fail with the bundle's name. */
  lemma MissingBundle(disk: Disk, base: string, p: PacketSize, level: uint63, row: uint63, col: uint63)
    requires TileInfoV3(base, p, level, row, col).Ok?
    requires BundlePath(TileInfoV3(base, p, level, row, col).value.stem) !in disk.files
    ensures TileBytes(disk, base, p, level, row, col)
         == Err(FileNotFound(BundlePath(TileInfoV3(base, p, level, row, col).value.stem)))
  {
  }

  /** The writer's side of the format, for one block. */

  /** The offset written into entry k: where record k's payload starts. */
  function PayloadStart(header: seq<byte>, payloads: seq<seq<byte>>): nat {
    |header| + EntrySize * |payloads| + 4
  }

  /** A block whose every payload offset fits the entry's low 4 bytes. */
  predicate Indexable(header: seq<byte>, payloads: seq<seq<byte>>) {
    W.Storable(payloads) && PayloadStart(header, payloads) + W.RecordOffset(payloads, |payloads|) < Pow256(4)
  }

  /** The bundle: the 64-byte header, one entry per record (the payload's
      offset in 4 little-endian bytes, then 4 bytes `filler` the reader does
      not look at), then the records back to back. */
  function WriteBundle(header: seq<byte>, payloads: seq<seq<byte>>, filler: seq<byte>): seq<byte>
    requires Indexable(header, payloads)
  {
    W.OffsetsFit(payloads, PayloadStart(header, payloads), 4);
    header
      + W.Join(W.EntryList(W.Offsets(payloads, PayloadStart(header, payloads)), 4, filler, 0), |payloads|)
      + W.Join(W.RecordList(payloads, 0), |payloads|)
  }

  /** The 10.3 bundle stem of the block holding (row, col). */
  function BlockStem(base: string, p: PacketSize, level: uint63, row: uint63, col: uint63): string {
    BundleStem(base, '/', level, BlockOrigin(row, p), BlockOrigin(col, p))
  }

  /** Write then read: when a block's N*N tiles are written row by row into a
      bundle, `GetTileBytes` of any tile of the block returns exactly the
      payload written for it, whatever the entries' high halves hold. */
  lemma WrittenBlockReadsBack(
    disk: Disk, base: string, p: PacketSize, level: uint63, row: uint63, col: uint63,
    header: seq<byte>, payloads: seq<seq<byte>>, filler: seq<byte>)
    requires 0 < p <= MaxPacket
    requires |payloads| == p * p && |header| == HeaderSize && |filler| == 4
    requires Indexable(header, payloads) && ReadWhole(payloads)
    requires BundlePath(BlockStem(base, p, level, row, col)) in disk.files
    requires disk.files[BundlePath(BlockStem(base, p, level, row, col))] == WriteBundle(header, payloads, filler)
    ensures 0 <= RecordNumberV3(p, row, col) < |payloads|
    ensures TileBytes(disk, base, p, level, row, col) == Ok(payloads[RecordNumberV3(p, row, col)])
  {
    var k := TileRecord(base, p, level, row, col);
    ReadsWrittenRecord(disk, BlockStem(base, p, level, row, col), k, header, payloads, filler);
  }

  /** With a positive packet size, tile (row, col) is record k of its block's bundle. */
  lemma TileRecord(base: string, p: PacketSize, level: uint63, row: uint63, col: uint63) returns (k: nat)
    requires 0 < p <= MaxPacket
    ensures k == RecordNumberV3(p, row, col) && k < p * p && k < 0x100_0000_0000_0000
    ensures TileInfoV3(base, p, level, row, col) == Ok(Record(BlockStem(base, p, level, row, col), k))
  {
    RecordNumberV3Range(p, row, col);
    TileInfoV3Succeeds(base, p, level, row, col);
    ProductBelowSquare(p, 0, 0);
    k := RecordNumberV3(p, row, col);
  }

  /** Record k of a written bundle is read back. */
  lemma ReadsWrittenRecord(disk: Disk, stem: string, k: nat, header: seq<byte>, payloads: seq<seq<byte>>, filler: seq<byte>)
    requires k < |payloads| && k < 0x100_0000_0000_0000 && |header| == HeaderSize && |filler| == 4
    requires Indexable(header, payloads) && ReadWhole(payloads)
    requires BundlePath(stem) in disk.files && disk.files[BundlePath(stem)] == WriteBundle(header, payloads, filler)
    ensures ImageData(disk, stem, k) == Ok(payloads[k])
  {
    var at := WrittenRecordAt(header, payloads, filler, k);
    assert |payloads[k]| <= MaxRead;
    ReadsPayload(disk, stem, k, EntryOffset(k), at, payloads[k]);
  }

  /** Entry k of a written bundle points 4 bytes past record k, which holds
      payload k. */
  lemma WrittenRecordAt(header: seq<byte>, payloads: seq<seq<byte>>, filler: seq<byte>, k: nat) returns (at: nat)
    requires k < |payloads| && k < 0x100_0000_0000_0000 && |header| == HeaderSize && |filler| == 4
    requires Indexable(header, payloads)
    ensures HoldsValue(WriteBundle(header, payloads, filler), EntryOffset(k), 4, at + 4)
    ensures HoldsRecord(WriteBundle(header, payloads, filler), at, payloads[k])
  {
    at := EntryHolds(header, payloads, filler, k);
    RecordHolds(header, payloads, filler, k, at);
  }

  /** Entry k of a written bundle, at `64 + 8k`, holds the offset of record
      k's payload; the record itself starts 4 bytes earlier, at `at`. */
  lemma EntryHolds(header: seq<byte>, payloads: seq<seq<byte>>, filler: seq<byte>, k: nat) returns (at: nat)
    requires Indexable(header, payloads) && |header| == HeaderSize && |filler| == 4 && k < |payloads|
    ensures at == |header| + EntrySize * |payloads| + W.RecordOffset(payloads, k)
    ensures HoldsValue(WriteBundle(header, payloads, filler), HeaderSize + EntrySize * k, 4, at + 4)
  {
    var start := PayloadStart(header, payloads);
    W.OffsetsFit(payloads, start, 4);
    var offsets := W.Offsets(payloads, start);
    var entries := W.EntryList(offsets, 4, filler, 0);
    assert |W.Join(entries, k)| == EntrySize * k by {
      W.JoinUniform(entries, EntrySize, k);
    }
    W.EntryAt(header, offsets, 4, filler, W.Join(W.RecordList(payloads, 0), |payloads|), k, HeaderSize + EntrySize * k);
    at := offsets[k] - 4;
    assert at + 4 < 0x1_0000_0000 by {
      FourAndFiveBytePowers();
    }
  }

  /** Record k of a written bundle, at `at`: its length, then its payload. */
  lemma RecordHolds(header: seq<byte>, payloads: seq<seq<byte>>, filler: seq<byte>, k: nat, at: nat)
    requires Indexable(header, payloads) && |filler| == 4 && k < |payloads|
    requires at == |header| + EntrySize * |payloads| + W.RecordOffset(payloads, k)
    ensures HoldsRecord(WriteBundle(header, payloads, filler), at, payloads[k])
  {
    W.OffsetsFit(payloads, PayloadStart(header, payloads), 4);
    var entries := W.Join(W.EntryList(W.Offsets(payloads, PayloadStart(header, payloads)), 4, filler, 0), |payloads|);
    assert |entries| == EntrySize * |payloads| by {
      W.JoinUniform(W.EntryList(W.Offsets(payloads, PayloadStart(header, payloads)), 4, filler, 0), 8, |payloads|);
    }
    W.RecordAt(header + entries, payloads, k, at, payloads[k]);
    FourAndFiveBytePowers();
  }
}
