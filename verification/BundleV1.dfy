/** The 10.1/10.2 compact cache: every block is a pair of files. The
    `.bundlx` index holds a 16-byte header and then one 5-byte little-endian
    offset per record, column-major; the `.bundle` file holds, at that
    offset, a 4-byte little-endian length followed by the tile's bytes
    (arcgisCache10_1.go `getImageOffset`, `getImageData`, `GetTileBytes`). */
module BundleV1 {
  import opened GoInt
  import opened Bytes
  import opened Errors
  import opened Disk
  import opened Addressing
  import W = BundleWriter

  const IndexHeaderSize := 16

  /** `getImageOffset`: open the index, seek to the entry, read 5 bytes and
      decode them. Every step's error is returned. The decoding is written
      `LittleEndian`: on a field shorter than 8 bytes that is what
      `bytesToInt64` computes (`Bytes.ShortFieldExact`). */
  function ImageOffset(disk: Disk, stem: string, tileOffset: int64): (r: Result<int64>)
    ensures IndexPath(stem) !in disk.files ==> r == Err(FileNotFound(IndexPath(stem)))
    ensures r.Ok? <==> IndexPath(stem) in disk.files && 0 <= tileOffset < |disk.files[IndexPath(stem)]|
    ensures r.Ok? ==> 0 <= r.value < 0x100_0000_0000
    ensures r.Err? ==> !IsPanic(r.error)
    ensures r.Ok? ==> r.value == LittleEndian(Padded(disk.files[IndexPath(stem)], tileOffset, 5))
  {
    var path := IndexPath(stem);
    if path !in disk.files then Err(FileNotFound(path))
    else
      var bytes :- SeekRead(disk.files[path], tileOffset, 5);
      DecodedWidthsFitInt64(bytes);
      Ok(LittleEndian(bytes))
  }

  /** Where `getImageData` reads the length: its `Seek` error is not checked,
      so a negative offset leaves the freshly opened file at position 0. */
  function LengthPosition(imageOffset: int64): nat {
    if imageOffset >= 0 then imageOffset else 0
  }

  /** `getImageData`: open the bundle, seek, read the 4-byte length, then read
      that many bytes. Only the open and the length read can fail; the data
      read's error is ignored, so a file that ends early leaves zeros, a
      zero length gives an empty payload, and a length above `MaxRead` leaves
      zeros after the first `MaxRead` bytes. */
  function ImageData(disk: Disk, stem: string, imageOffset: int64): (r: Result<seq<byte>>)
    ensures BundlePath(stem) !in disk.files ==> r == Err(FileNotFound(BundlePath(stem)))
    ensures r.Ok? <==> BundlePath(stem) in disk.files && LengthPosition(imageOffset) < |disk.files[BundlePath(stem)]|
    ensures r.Err? ==> !IsPanic(r.error)
    ensures r.Ok? ==>
      var file := disk.files[BundlePath(stem)];
      var pos := LengthPosition(imageOffset);
      && |r.value| == LittleEndian(Padded(file, pos, 4))
      && (forall i :: 0 <= i < |r.value| && i < MaxRead ==> r.value[i] == ByteAt(file, Min(pos + 4, |file|) + i))
      && (forall i :: MaxRead <= i < |r.value| ==> r.value[i] == 0)
  {
    var path := BundlePath(stem);
    if path !in disk.files then Err(FileNotFound(path))
    else
      var file := disk.files[path];
      var pos := LengthPosition(imageOffset);
      var lengthBytes :- SeekRead(file, pos, 4);
      Ok(Filled(file, PositionAfter(file, pos, 4), LittleEndian(lengthBytes)))
  }

  /** `GetTileBytes`: address the tile, read its offset, read its bytes; the
      first error ends the lookup. */
  function TileBytes(disk: Disk, base: string, p: PacketSize, level: uint63, row: uint63, col: uint63): (r: Result<seq<byte>>)
    ensures TileInfoV1(base, p, level, row, col).Err? ==> r == Err(InvalidLevelRowCol)
    ensures r.Err? ==> !IsPanic(r.error)
    ensures r.Ok? ==>
      var entry := TileInfoV1(base, p, level, row, col).value;
      && ImageOffset(disk, entry.stem, entry.offset).Ok?
      && r == ImageData(disk, entry.stem, ImageOffset(disk, entry.stem, entry.offset).value)
  {
    var entry :- TileInfoV1(base, p, level, row, col);
    var imageOffset :- ImageOffset(disk, entry.stem, entry.offset);
    ImageData(disk, entry.stem, imageOffset)
  }

  /** The index entry written as the 5-byte encoding of `o` is read back as `o`. */
  lemma ReadsOffset(disk: Disk, stem: string, tileOffset: nat, o: nat)
    requires IndexPath(stem) in disk.files && tileOffset < TwoTo63
    requires HoldsValue(disk.files[IndexPath(stem)], tileOffset, 5, o)
    ensures ImageOffset(disk, stem, tileOffset) == Ok(o)
  {
    FourAndFiveBytePowers();
    ReadInside(disk.files[IndexPath(stem)], tileOffset, 5);
  }

  /** A record written at `o` (4-byte length, then a payload one read can
      return) is read back whole. */
  lemma ReadsPayload(disk: Disk, stem: string, o: nat, payload: seq<byte>)
    requires o < TwoTo63 && BundlePath(stem) in disk.files && |payload| <= MaxRead
    requires HoldsRecord(disk.files[BundlePath(stem)], o, payload)
    ensures ImageData(disk, stem, o) == Ok(payload)
  {
    var bundle := disk.files[BundlePath(stem)];
    ImageDataInside(disk, stem, o, bundle);
    ReadsRecord(bundle, o, payload);
  }

  /** A record whose payload is longer than one read returns comes back cut:
      its first `MaxRead` bytes, then zeros. */
  lemma LongPayloadCut(disk: Disk, stem: string, o: nat, payload: seq<byte>)
    requires o < TwoTo63 && BundlePath(stem) in disk.files && |payload| > MaxRead
    requires HoldsRecord(disk.files[BundlePath(stem)], o, payload)
    ensures ImageData(disk, stem, o) == Ok(payload[..MaxRead] + ZeroBytes(|payload| - MaxRead))
  {
    var bundle := disk.files[BundlePath(stem)];
    ImageDataInside(disk, stem, o, bundle);
    ReadsLongRecord(bundle, o, payload);
  }

  /** With the length inside the bundle, `getImageData` reads the length at
      `o` and then that many bytes after it. */
  lemma ImageDataInside(disk: Disk, stem: string, o: int64, bundle: seq<byte>)
    requires BundlePath(stem) in disk.files && disk.files[BundlePath(stem)] == bundle
    requires 0 <= o < |bundle|
    ensures ImageData(disk, stem, o) == Ok(Filled(bundle, PositionAfter(bundle, o, 4), LittleEndian(Padded(bundle, o, 4))))
  {
  }

  /** A bundle cut short inside the payload still yields a payload of the
      declared length: the bytes that exist, then zeros. */
  lemma TruncatedPayload(disk: Disk, stem: string, front: seq<byte>, length: nat, rest: seq<byte>)
    requires |front| < TwoTo63 && length < 0x1_0000_0000 && |rest| < length && |rest| <= MaxRead
    requires BundlePath(stem) in disk.files
    requires disk.files[BundlePath(stem)] == front + EncodeLittleEndian(length, 4) + rest
    ensures ImageData(disk, stem, |front|) == Ok(rest + ZeroBytes(length - |rest|))
  {
    FourAndFiveBytePowers();
    var o := |front|;
    var bundle := disk.files[BundlePath(stem)];
    assert bundle[o..o + 4] == EncodeLittleEndian(length, 4);
    ReadInside(bundle, o, 4);
    assert PositionAfter(bundle, o, 4) == o + 4;
    TailPadding(bundle, o + 4, rest, length);
  }

  /** Reading `n` bytes where only `rest` is left gives `rest` and then zeros. */
  lemma TailPadding(file: seq<byte>, pos: nat, rest: seq<byte>, n: nat)
    requires pos + |rest| == |file| && file[pos..] == rest && |rest| <= n && |rest| <= MaxRead
    ensures Filled(file, pos, n) == rest + ZeroBytes(n - |rest|)
  {
    var got := Filled(file, pos, n);
    forall i | 0 <= i < n
      ensures got[i] == (rest + ZeroBytes(n - |rest|))[i]
    {
      if i < |rest| {
        assert file[pos + i] == rest[i];
      }
    }
  }

  /** An absent index or bundle makes the tile lookup fail with that file's name. */
  lemma MissingFiles(disk: Disk, base: string, p: PacketSize, level: uint63, row: uint63, col: uint63)
    requires TileInfoV1(base, p, level, row, col).Ok?
    ensures var stem := TileInfoV1(base, p, level, row, col).value.stem;
      IndexPath(stem) !in disk.files ==> TileBytes(disk, base, p, level, row, col) == Err(FileNotFound(IndexPath(stem)))
    ensures var stem := TileInfoV1(base, p, level, row, col).value.stem;
      BundlePath(stem) !in disk.files ==> TileBytes(disk, base, p, level, row, col).Err?
  {
  }

  /** The writer's side of the format, for one block. */

  /** The bundle file: a header of any length, then the records back to back. */
  function WriteBundle(header: seq<byte>, payloads: seq<seq<byte>>): seq<byte>
    requires W.Storable(payloads)
  {
    header + W.Join(W.RecordList(payloads, 0), |payloads|)
  }

  /** A block whose every record offset fits the 5-byte index entry. */
  predicate Indexable(header: seq<byte>, payloads: seq<seq<byte>>) {
    W.Storable(payloads) && |header| + W.RecordOffset(payloads, |payloads|) < Pow256(5)
  }

  /** The index file: a 16-byte header, one 5-byte offset per record in
      record order, and a trailer. */
  function WriteIndex(indexHeader: seq<byte>, header: seq<byte>, payloads: seq<seq<byte>>, trailer: seq<byte>): seq<byte>
    requires Indexable(header, payloads)
  {
    W.OffsetsFit(payloads, |header|, 5);
    indexHeader + W.Join(W.EntryList(W.Offsets(payloads, |header|), 5, [], 0), |payloads|) + trailer
  }

  /** The bundle stem of the block holding (row, col). */
  function BlockStem(base: string, p: PacketSize, level: uint63, row: uint63, col: uint63): string {
    BundleStem(base, '\\', level, BlockOrigin(row, p), BlockOrigin(col, p))
  }

  /** Write then read: when a block's N*N tiles are written, record by record
      in column-major order, into an index and a bundle, `GetTileBytes` of any
      tile of the block returns exactly the payload written for it. */
  lemma WrittenBlockReadsBack(
    disk: Disk, base: string, p: PacketSize, level: uint63, row: uint63, col: uint63,
    indexHeader: seq<byte>, header: seq<byte>, payloads: seq<seq<byte>>, trailer: seq<byte>)
    requires 0 < p <= MaxPacket
    requires |payloads| == p * p && |indexHeader| == IndexHeaderSize
    requires Indexable(header, payloads) && ReadWhole(payloads)
    requires IndexPath(BlockStem(base, p, level, row, col)) in disk.files
    requires BundlePath(BlockStem(base, p, level, row, col)) in disk.files
    requires disk.files[IndexPath(BlockStem(base, p, level, row, col))] == WriteIndex(indexHeader, header, payloads, trailer)
    requires disk.files[BundlePath(BlockStem(base, p, level, row, col))] == WriteBundle(header, payloads)
    ensures 0 <= RecordNumberV1(p, row, col) < |payloads|
    ensures TileBytes(disk, base, p, level, row, col) == Ok(payloads[RecordNumberV1(p, row, col)])
  {
    var k, offset := TileEntry(base, p, level, row, col);
    ReadsWrittenRecord(disk, base, p, level, row, col, BlockStem(base, p, level, row, col), k, offset,
                       indexHeader, header, payloads, trailer);
  }

  /** The same, once the tile is known to be record k of the block. */
  lemma ReadsWrittenRecord(
    disk: Disk, base: string, p: PacketSize, level: uint63, row: uint63, col: uint63, stem: string, k: nat, offset: int64,
    indexHeader: seq<byte>, header: seq<byte>, payloads: seq<seq<byte>>, trailer: seq<byte>)
    requires TileInfoV1(base, p, level, row, col) == Ok(IndexEntry(stem, offset)) && offset == 16 + 5 * k
    requires k < |payloads| && |indexHeader| == IndexHeaderSize
    requires Indexable(header, payloads) && ReadWhole(payloads)
    requires IndexPath(stem) in disk.files && BundlePath(stem) in disk.files
    requires disk.files[IndexPath(stem)] == WriteIndex(indexHeader, header, payloads, trailer)
    requires disk.files[BundlePath(stem)] == WriteBundle(header, payloads)
    ensures TileBytes(disk, base, p, level, row, col) == Ok(payloads[k])
  {
    var o := IndexEntryAt(indexHeader, header, payloads, trailer, k, offset);
    BundleRecordAt(header, payloads, k, o);
    ReadsTile(disk, base, p, level, row, col, stem, offset, o, payloads[k],
              WriteIndex(indexHeader, header, payloads, trailer), WriteBundle(header, payloads));
  }

  /** The tile whose index entry holds `o`, with its record at `o`, is read back. */
  lemma ReadsTile(disk: Disk, base: string, p: PacketSize, level: uint63, row: uint63, col: uint63,
                  stem: string, offset: uint63, o: nat, payload: seq<byte>, index: seq<byte>, bundle: seq<byte>)
    requires TileInfoV1(base, p, level, row, col) == Ok(IndexEntry(stem, offset))
    requires IndexPath(stem) in disk.files && disk.files[IndexPath(stem)] == index
    requires BundlePath(stem) in disk.files && disk.files[BundlePath(stem)] == bundle
    requires HoldsValue(index, offset, 5, o) && HoldsRecord(bundle, o, payload) && |payload| <= MaxRead
    ensures TileBytes(disk, base, p, level, row, col) == Ok(payload)
  {
    assert o < TwoTo63 by {
      FourAndFiveBytePowers();
    }
    ReadsOffset(disk, stem, offset, o);
    ReadsPayload(disk, stem, o, payload);
    TileBytesChain(disk, base, p, level, row, col, stem, offset, o);
  }

  /** `GetTileBytes` is the data read at the offset the index gives. */
  lemma TileBytesChain(disk: Disk, base: string, p: PacketSize, level: uint63, row: uint63, col: uint63,
                       stem: string, offset: int64, o: int64)
    requires TileInfoV1(base, p, level, row, col) == Ok(IndexEntry(stem, offset))
    requires ImageOffset(disk, stem, offset) == Ok(o)
    ensures TileBytes(disk, base, p, level, row, col) == ImageData(disk, stem, o)
  {
  }

  /** With a positive packet size, tile (row, col) is entry `16 + 5k` of its
      block's index, k its record number. */
  lemma TileEntry(base: string, p: PacketSize, level: uint63, row: uint63, col: uint63) returns (k: nat, offset: int64)
    requires 0 < p <= MaxPacket
    ensures k == RecordNumberV1(p, row, col) && k < p * p && offset == 16 + 5 * k
    ensures TileInfoV1(base, p, level, row, col) == Ok(IndexEntry(BlockStem(base, p, level, row, col), offset))
  {
    RecordNumberV1Range(p, row, col);
    TileInfoV1Succeeds(base, p, level, row, col);
    k := RecordNumberV1(p, row, col);
    offset := TileInfoV1(base, p, level, row, col).value.offset;
  }

  /** Entry k of a written index, at `16 + 5k`, holds the offset of record k
      in the bundle. */
  lemma IndexEntryAt(indexHeader: seq<byte>, header: seq<byte>, payloads: seq<seq<byte>>, trailer: seq<byte>, k: nat, offset: nat)
    returns (o: nat)
    requires Indexable(header, payloads) && |indexHeader| == IndexHeaderSize && k < |payloads|
    requires offset == 16 + 5 * k
    ensures o == |header| + W.RecordOffset(payloads, k) && o < 0x100_0000_0000
    ensures HoldsValue(WriteIndex(indexHeader, header, payloads, trailer), offset, 5, o)
  {
    o := EntryOffset(header, payloads, k);
    var entries := W.EntryList(W.Offsets(payloads, |header|), 5, [], 0);
    assert |W.Join(entries, k)| == 5 * k by {
      W.JoinUniform(entries, 5, k);
    }
    W.EntryAt(indexHeader, W.Offsets(payloads, |header|), 5, [], trailer, k, offset);
  }

  /** The offset entry k of the index holds, and that every entry fits 5 bytes. */
  lemma EntryOffset(header: seq<byte>, payloads: seq<seq<byte>>, k: nat) returns (o: nat)
    requires Indexable(header, payloads) && k < |payloads|
    ensures W.Fits(W.Offsets(payloads, |header|), 5)
    ensures o == W.Offsets(payloads, |header|)[k] == |header| + W.RecordOffset(payloads, k)
    ensures o < 0x100_0000_0000
  {
    W.OffsetsFit(payloads, |header|, 5);
    o := W.Offsets(payloads, |header|)[k];
    FourAndFiveBytePowers();
  }

  /** Record k of a written bundle, at `o`: its length prefix, then its payload. */
  lemma BundleRecordAt(header: seq<byte>, payloads: seq<seq<byte>>, k: nat, o: nat)
    requires W.Storable(payloads) && k < |payloads|
    requires o == |header| + W.RecordOffset(payloads, k)
    ensures HoldsRecord(WriteBundle(header, payloads), o, payloads[k])
  {
    W.RecordAt(header, payloads, k, o, payloads[k]);
    FourAndFiveBytePowers();
  }
}
