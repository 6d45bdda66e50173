/** Tile addressing in a compact cache (the `getTileInfo` of both readers).
    Tiles are grouped in blocks of `packetSize` x `packetSize`; a block is one
    bundle whose file name encodes the level and the block's first row and
    column, and a tile is a record inside it. The 10.1 dialect numbers records
    column by column, the 10.3 dialect row by row. */
module Addressing {
  import opened GoInt
  import opened Errors
  import opened Text

  /** `CacheStorageInfo.PacketSize`. Go's `/` panics on zero; any other value,
      negative ones included, is accepted. */
  type PacketSize = p: int64 | p != 0 witness 128

  /** The largest packet size the bounds lemmas cover; below it no record
      number or index offset can overflow an int64. */
  const MaxPacket: int := 0x1000_0000

  /** `(x / packetSize) * packetSize`: the first row (or column) of the block
      holding row (or column) `x`, the largest multiple of the packet size's
      magnitude not above `x`. */
  function BlockOrigin(x: uint63, p: PacketSize): (o: uint63)
    ensures o == (x / Abs(p)) * Abs(p)
    ensures o <= x < o + Abs(p)
  {
    OriginBounds(x, Abs(p));
    QuotTimes(x, p);
    Mul(Quot(x, p), p)
  }

  /** Truncating division then multiplication by the same packet size, of
      either sign, rounds down to a multiple of its magnitude. */
  lemma QuotTimes(x: uint63, p: PacketSize)
    ensures Quot(x, p) * p == (x / Abs(p)) * Abs(p)
  {
    if p < 0 {
      assert Quot(x, p) == -(x / Abs(p));
      assert -(x / Abs(p)) * p == (x / Abs(p)) * Abs(p);
    }
  }

  lemma OriginBounds(x: nat, n: nat)
    requires n > 0
    ensures 0 <= (x / n) * n <= x < (x / n) * n + n
  {
  }

  /** The bundle path without extension: `base`, then `_alllayers`, then `L`
      and the level in at least two decimal digits, then `R` and `C` with the
      block's first row and column in at least four upper-case hexadecimal
      digits. 10.1 separates with `\`, 10.3 with `/`. */
  function BundleStem(base: string, sep: char, level: nat, rowOrigin: nat, colOrigin: nat): string {
    base + [sep] + "_alllayers" + [sep] + "L" + Dec2(level) + [sep] + "R" + Hex4(rowOrigin) + "C" + Hex4(colOrigin)
  }

  /** The 10.1 index file of a block. */
  function IndexPath(stem: string): string {
    stem + ".bundlx"
  }

  /** The bundle file of a block, in both dialects. */
  function BundlePath(stem: string): string {
    stem + ".bundle"
  }

  /** The 10.1 record number, column-major: `N*(col-colIndex) + (row-rowIndex)`
      in int64 arithmetic. */
  function RecordNumberV1(p: PacketSize, row: uint63, col: uint63): int64 {
    Add(Mul(p, Sub(col, BlockOrigin(col, p))), Sub(row, BlockOrigin(row, p)))
  }

  /** The 10.3 record number, row-major: `N*(row-rowIndex) + (col-colIndex)`. */
  function RecordNumberV3(p: PacketSize, row: uint63, col: uint63): int64 {
    Add(Mul(p, Sub(row, BlockOrigin(row, p))), Sub(col, BlockOrigin(col, p)))
  }

  /** What 10.1's `getTileInfo` returns: the bundle stem and the byte offset of
      the tile's entry in the `.bundlx` index. */
  datatype IndexEntry = IndexEntry(stem: string, offset: int64)

  /** What 10.3's `getTileInfo` returns: the bundle stem and the record number. */
  datatype Record = Record(stem: string, number: int64)

  /** 10.1 `getTileInfo`: a negative record number is rejected, anything else
      addresses the index entry `16 + 5*recordNumber` (a 16-byte header, then
      5 bytes per record). */
  function TileInfoV1(base: string, p: PacketSize, level: uint63, row: uint63, col: uint63): (r: Result<IndexEntry>)
    ensures r.Err? <==> RecordNumberV1(p, row, col) < 0
    ensures r.Err? ==> r.error == InvalidLevelRowCol
    ensures r.Ok? ==> r.value.stem == BundleStem(base, '\\', level, BlockOrigin(row, p), BlockOrigin(col, p))
  {
    var recordNumber := RecordNumberV1(p, row, col);
    if recordNumber < 0 then Err(InvalidLevelRowCol)
    else Ok(IndexEntry(BundleStem(base, '\\', level, BlockOrigin(row, p), BlockOrigin(col, p)),
                       Add(16, Mul(recordNumber, 5))))
  }

  /** 10.3 `getTileInfo`: the same block and stem (with `/`), a row-major
      record number, and the same rejection of a negative one. */
  function TileInfoV3(base: string, p: PacketSize, level: uint63, row: uint63, col: uint63): (r: Result<Record>)
    ensures r.Err? <==> RecordNumberV3(p, row, col) < 0
    ensures r.Err? ==> r.error == InvalidLevelRowCol
    ensures r.Ok? ==> r.value.stem == BundleStem(base, '/', level, BlockOrigin(row, p), BlockOrigin(col, p))
  {
    var recordNumber := RecordNumberV3(p, row, col);
    if recordNumber < 0 then Err(InvalidLevelRowCol)
    else Ok(Record(BundleStem(base, '/', level, BlockOrigin(row, p), BlockOrigin(col, p)), recordNumber))
  }

  /** For a positive packet size N, `N*a + b` with `a, b` in [0, N) fits an
      int64 and lies in [0, N*N). */
  lemma ProductBelowSquare(n: int64, a: int64, b: int64)
    requires 0 < n <= MaxPacket && 0 <= a < n && 0 <= b < n
    ensures 0 <= n * a + b < n * n
    ensures n * n <= MaxPacket * MaxPacket
  {
    MulMonotone(a, n - 1, n);
    MulMonotone(n, MaxPacket, n);
    MulMonotone(n, MaxPacket, MaxPacket);
  }

  /** The 10.1 record number is exactly `N*(col-colIndex) + (row-rowIndex)`,
      with no overflow, and numbers the N*N tiles of the block from 0. */
  lemma RecordNumberV1Range(p: PacketSize, row: uint63, col: uint63)
    requires 0 < p <= MaxPacket
    ensures RecordNumberV1(p, row, col) == p * (col - BlockOrigin(col, p)) + (row - BlockOrigin(row, p))
    ensures 0 <= RecordNumberV1(p, row, col) < p * p
  {
    var dc := col - BlockOrigin(col, p);
    var dr := row - BlockOrigin(row, p);
    ProductBelowSquare(p, dc, dr);
    MulMonotone(p, MaxPacket, dc);
    MulMonotone(dc, MaxPacket, MaxPacket);
  }

  /** The 10.3 record number is exactly `N*(row-rowIndex) + (col-colIndex)`
      and lies in [0, N*N). */
  lemma RecordNumberV3Range(p: PacketSize, row: uint63, col: uint63)
    requires 0 < p <= MaxPacket
    ensures RecordNumberV3(p, row, col) == p * (row - BlockOrigin(row, p)) + (col - BlockOrigin(col, p))
    ensures 0 <= RecordNumberV3(p, row, col) < p * p
  {
    RecordNumberV1Range(p, col, row);
    RecordNumbersTransposed(p, row, col);
  }

  /** The two dialects differ only in the order of the in-block offsets: the
      10.3 number of (row, col) is the 10.1 number of (col, row). */
  lemma RecordNumbersTransposed(p: PacketSize, row: uint63, col: uint63)
    ensures RecordNumberV3(p, row, col) == RecordNumberV1(p, col, row)
  {
  }

  /** Division by N with a remainder in [0, N) has one answer. */
  lemma DivModUnique(a: int, n: int, q: int, r: int)
    requires n > 0 && 0 <= r < n && a == q * n + r
    ensures a / n == q && a % n == r
  {
    var q' := a / n;
    var r' := a % n;
    assert a == q' * n + r';
    if q' < q {
      MulMonotone(q' + 1, q, n);
    } else if q < q' {
      MulMonotone(q + 1, q', n);
    }
  }

  /** The 10.1 record number gives the tile back: its quotient by N is the
      column within the block and its remainder the row. */
  lemma RecordNumberV1Inverse(p: PacketSize, row: uint63, col: uint63)
    requires 0 < p <= MaxPacket
    ensures RecordNumberV1(p, row, col) / p == col - BlockOrigin(col, p)
    ensures RecordNumberV1(p, row, col) % p == row - BlockOrigin(row, p)
  {
    var dc, dr := col - BlockOrigin(col, p), row - BlockOrigin(row, p);
    RecordNumberV1Range(p, row, col);
    assert p * dc == dc * p;
    DivModUnique(RecordNumberV1(p, row, col), p, dc, dr);
  }

  /** The 10.3 record number gives the tile back: quotient row, remainder column. */
  lemma RecordNumberV3Inverse(p: PacketSize, row: uint63, col: uint63)
    requires 0 < p <= MaxPacket
    ensures RecordNumberV3(p, row, col) / p == row - BlockOrigin(row, p)
    ensures RecordNumberV3(p, row, col) % p == col - BlockOrigin(col, p)
  {
    RecordNumbersTransposed(p, row, col);
    RecordNumberV1Inverse(p, col, row);
  }

  /** Two tiles of one block share a record number only if they are the same
      tile, in either dialect. */
  lemma RecordNumbersDistinct(p: PacketSize, row1: uint63, col1: uint63, row2: uint63, col2: uint63)
    requires 0 < p <= MaxPacket
    requires BlockOrigin(row1, p) == BlockOrigin(row2, p) && BlockOrigin(col1, p) == BlockOrigin(col2, p)
    ensures RecordNumberV1(p, row1, col1) == RecordNumberV1(p, row2, col2) ==> row1 == row2 && col1 == col2
    ensures RecordNumberV3(p, row1, col1) == RecordNumberV3(p, row2, col2) ==> row1 == row2 && col1 == col2
  {
    RecordNumberV1Inverse(p, row1, col1);
    RecordNumberV1Inverse(p, row2, col2);
    RecordNumberV3Inverse(p, row1, col1);
    RecordNumberV3Inverse(p, row2, col2);
  }

  /** With a positive packet size the 10.1 lookup always succeeds, and the
      index entry lies in the 5*N*N bytes after the 16-byte header. */
  lemma TileInfoV1Succeeds(base: string, p: PacketSize, level: uint63, row: uint63, col: uint63)
    requires 0 < p <= MaxPacket
    ensures TileInfoV1(base, p, level, row, col).Ok?
    ensures TileInfoV1(base, p, level, row, col).value.offset == 16 + 5 * RecordNumberV1(p, row, col)
    ensures 16 <= TileInfoV1(base, p, level, row, col).value.offset < 16 + 5 * (p * p)
  {
    RecordNumberV1Range(p, row, col);
    ProductBelowSquare(p, 0, 0);
  }

  /** With a positive packet size the 10.3 lookup always succeeds. */
  lemma TileInfoV3Succeeds(base: string, p: PacketSize, level: uint63, row: uint63, col: uint63)
    requires 0 < p <= MaxPacket
    ensures TileInfoV3(base, p, level, row, col).Ok?
    ensures TileInfoV3(base, p, level, row, col).value.number == p * (row - BlockOrigin(row, p)) + (col - BlockOrigin(col, p))
  {
    RecordNumberV3Range(p, row, col);
  }

  /** The guard is reachable only through a negative packet size: with N = -2
      the tile at row 0, column 1 gets 10.1 record number -2 and is rejected,
      while 10.3 gives it record 1; the transposed tile is rejected by 10.3. */
  lemma NegativePacketSize()
    ensures TileInfoV1("c", -2, 0, 0, 1) == Err(InvalidLevelRowCol)
    ensures TileInfoV3("c", -2, 0, 0, 1).Ok? && TileInfoV3("c", -2, 0, 0, 1).value.number == 1
    ensures TileInfoV3("c", -2, 0, 1, 0) == Err(InvalidLevelRowCol)
  {
    assert BlockOrigin(1, -2) == 0 && BlockOrigin(0, -2) == 0;
    assert RecordNumberV1(-2, 0, 1) == -2;
    assert RecordNumberV3(-2, 0, 1) == 1;
    assert RecordNumberV3(-2, 1, 0) == -2;
  }

  /** Tile (level 2, row 36, column 28) with 128-tile blocks: block (0, 0),
      10.1 record 3620 at index offset 18116, 10.3 record 4636. */
  lemma SameTileBothDialects()
    ensures TileInfoV1("c", 128, 2, 36, 28) == Ok(IndexEntry(BundleStem("c", '\\', 2, 0, 0), 18116))
    ensures TileInfoV3("c", 128, 2, 36, 28) == Ok(Record(BundleStem("c", '/', 2, 0, 0), 4636))
  {
    assert BlockOrigin(36, 128) == 0;
    assert BlockOrigin(28, 128) == 0;
  }

  /** Row 128 opens the second block: (level 0, row 128, column 0) is record 0
      of bundle `c/_alllayers/L00/R0080C0000`. */
  lemma BlockBoundary()
    ensures TileInfoV3("c", 128, 0, 128, 0) == Ok(Record("c/_alllayers/L00/R0080C0000", 0))
  {
    assert BlockOrigin(128, 128) == 128;
    assert BlockOrigin(0, 128) == 0;
    assert RecordNumberV3(128, 128, 0) == 0;
    BoundaryStem();
  }

  lemma BoundaryStem()
    ensures BundleStem("c", '/', 0, 128, 0) == "c/_alllayers/L00/R0080C0000"
  {
    Hex4Pads();
    ZeroPads();
  }

  lemma ZeroPads()
    ensures Hex4(0) == "0000" && Dec2(0) == "00"
  {
    assert Numeral(0, 16) == "0";
    assert Numeral(0, 10) == "0";
  }

  /** Within the four-digit range the bundle name is unambiguous: one stem
      names one (level, block row, block column). */
  lemma StemDeterminesBlock(base: string, sep: char, level1: nat, row1: nat, col1: nat, level2: nat, row2: nat, col2: nat)
    requires level1 < 100 && level2 < 100
    requires row1 < 0x10000 && col1 < 0x10000 && row2 < 0x10000 && col2 < 0x10000
    requires BundleStem(base, sep, level1, row1, col1) == BundleStem(base, sep, level2, row2, col2)
    ensures level1 == level2 && row1 == row2 && col1 == col2
  {
    Dec2Exact(level1); Dec2Exact(level2);
    Hex4Exact(row1); Hex4Exact(row2); Hex4Exact(col1); Hex4Exact(col2);
    StemParts(base, sep, Dec2(level1), Hex4(row1), Hex4(col1), Dec2(level2), Hex4(row2), Hex4(col2));
  }

  /** Two stems with equal-width fields agree field by field. */
  lemma StemParts(base: string, sep: char, l1: string, r1: string, c1: string, l2: string, r2: string, c2: string)
    requires |l1| == |l2| && |r1| == |r2| && |c1| == |c2|
    requires base + [sep] + "_alllayers" + [sep] + "L" + l1 + [sep] + "R" + r1 + "C" + c1
          == base + [sep] + "_alllayers" + [sep] + "L" + l2 + [sep] + "R" + r2 + "C" + c2
    ensures l1 == l2 && r1 == r2 && c1 == c2
  {
    var u := base + [sep] + "_alllayers" + [sep] + "L";
    var w1 := u + l1 + [sep] + "R";
    var w2 := u + l2 + [sep] + "R";
    SplitEqual(w1 + r1 + "C", c1, w2 + r2 + "C", c2);
    SplitEqual(w1 + r1, "C", w2 + r2, "C");
    SplitEqual(w1, r1, w2, r2);
    assert w1 == (u + l1) + ([sep] + "R") && w2 == (u + l2) + ([sep] + "R");
    SplitEqual(u + l1, [sep] + "R", u + l2, [sep] + "R");
    SplitEqual(u, l1, u, l2);
  }

  /** Equal concatenations with equal-length tails have equal parts. */
  lemma SplitEqual(a1: string, b1: string, a2: string, b2: string)
    requires a1 + b1 == a2 + b2 && |b1| == |b2|
    ensures a1 == a2 && b1 == b2
  {
    assert a1 == (a1 + b1)[..|a1|];
    assert a2 == (a2 + b2)[..|a2|];
    assert b1 == (a1 + b1)[|a1|..];
    assert b2 == (a2 + b2)[|a2|..];
  }

  /** Past four digits the names widen and stop being unambiguous: block row
      0x1000C100 with column 0 and block row 0x1000 with column 0x100C0000
      (both multiples of 128) name the same bundle. */
  lemma WideStemsCollide(base: string, sep: char, level: nat)
    ensures BundleStem(base, sep, level, 0x1000C100, 0) == BundleStem(base, sep, level, 0x1000, 0x100C0000)
  {
    WideRowDigits();
    WideColumnDigits();
    assert Hex4(0x1000C100) == "1000C100";
    assert Hex4(0x100C0000) == "100C0000";
    assert Hex4(0x1000) == "1000";
    ZeroPads();
    WideNamesAgree();
    Regroup(base + [sep] + "_alllayers" + [sep] + "L" + Dec2(level) + [sep] + "R", "1000C100", "0000", "1000", "100C0000");
  }

  lemma WideNamesAgree()
    ensures "1000C100" + "C" + "0000" == "1000" + "C" + "100C0000"
  {
    assert "1000C100" + "C" + "0000" == "1000C100C0000";
    assert "1000" + "C" + "100C0000" == "1000C100C0000";
  }

  /** The same characters after a common prefix, however they split. */
  lemma Regroup(prefix: string, a: string, b: string, c: string, d: string)
    requires a + "C" + b == c + "C" + d
    ensures prefix + a + "C" + b == prefix + c + "C" + d
  {
    assert prefix + a + "C" + b == prefix + (a + "C" + b);
    assert prefix + c + "C" + d == prefix + (c + "C" + d);
  }

  lemma WideRowDigits()
    ensures Numeral(0x1000, 16) == "1000"
    ensures Numeral(0x1000C100, 16) == "1000C100"
  {
    assert Numeral(0x1, 16) == "1";
    assert Numeral(0x10, 16) == "10";
    assert Numeral(0x100, 16) == "100";
    assert Numeral(0x1000, 16) == "1000";
    assert Numeral(0x1000C, 16) == "1000C";
    assert Numeral(0x1000C1, 16) == "1000C1";
    assert Numeral(0x1000C10, 16) == "1000C10";
  }

  lemma WideColumnDigits()
    ensures Numeral(0x100C0000, 16) == "100C0000"
    ensures Numeral(0, 16) == "0"
  {
    assert Numeral(0x1, 16) == "1";
    assert Numeral(0x10, 16) == "10";
    assert Numeral(0x100, 16) == "100";
    assert Numeral(0x100C, 16) == "100C";
    assert Numeral(0x100C0, 16) == "100C0";
    assert Numeral(0x100C00, 16) == "100C00";
    assert Numeral(0x100C000, 16) == "100C000";
  }
}
