# ArcGIS compact-cache tile server, modelled in Dafny

basemapServer serves ArcGIS Server tile caches over HTTP. This project models
its core, the **compact-cache reader**, plus the HTTP handlers that expose it:

- **Version dispatch.** `GetArcgisCache` reads the last `/`-separated segment
  of `conf.xml`'s `Typens`. It compares that segment with `"10.1"` and
  `"10.3"` as Go strings and builds a 10.1 reader, a 10.3 reader, or neither.
- **10.1/10.2 reader.** It uses two files per block of `packetSize × packetSize`
  tiles, with records numbered column-major.
  - The `.bundlx` index holds a 5-byte little-endian offset per tile, at
    `16 + 5·record`.
  - At that offset in the `.bundle` file there is a 4-byte length, then the
    tile's bytes.
- **10.3 reader.** It uses a single `.bundle` per block, with records numbered
  row-major. The index is embedded at `64 + 8·record`. Its first 4 bytes hold
  the offset of the tile's bytes, and the 4-byte length sits just before them.
- **`bytesToInt64`.** It ORs bytes shifted by `8·i` into an int64.
- **MapServer document.** `getMapServerJSONString` builds it from `conf.xml`
  and `conf.cdi`.
- **HTTP handlers.**
  - `/` redirects.
  - The services directory lists services as HTML or JSON, with an optional
    JSONP callback.
  - The MapServer page comes as HTML, JSON or the JS API page. A 10.3
    cache with an empty LOD table panics when asked for JSON, and the
    request is aborted.
  - The tile handler writes the tile bytes with an `image/<format>` content
    type.

Go semantics are written out where they matter:

- **Integers.** int64 wrap-around (`GoInt.Wrap`), and truncating division
  (`GoInt.Quot`).
- **Strings.** Go's byte-wise string `<`, shown to be a strict total order on
  code points (`Text.Less`). `strings.Split`, `strings.ToLower` and
  `strings.TrimSpace` are modelled.
- **Number formatting.** `%02d` and `%04X`, which widen rather than truncate.
- **Files.**
  - `Seek` to a negative offset fails.
  - `Read` at or past the end fails with `io.EOF`.
  - A short read leaves the rest of the fresh buffer zero.
  - One `Read` returns at most 1 GiB (`maxRW` in Go's `internal/poll`).
- **Panics.** Two run-time panics are carried as errors and told apart by
  `Errors.IsPanic`: a packet size of 0 divides by zero, and an empty LOD
  table is indexed.

The files read from disk are a `Disk.Disk` value: file bytes by path, plus the
already-decoded `conf.xml`/`conf.cdi` contents by path. Every reader is proved
against an independent writer (`BundleWriter`, `BundleV1.WriteIndex`,
`BundleV1.WriteBundle`, `BundleV3.WriteBundle`): reading a tile from a
well-formed written block returns exactly the bytes written for it.

Modules, bottom up:

- `GoInt`, `Bytes`, `Text`, `Errors`, `CacheConf` and `Service` are the
  foundations: integers, bytes, strings, errors, and the data shapes.
- `Disk` models the files.
- `Addressing` models `getTileInfo` in both dialects.
- `BundleWriter` is the writer the readers are proved against.
- `BundleV1` and `BundleV3` are the two readers.
- `MapServerDoc` builds the MapServer document.
- `Cache` is the facade and the version dispatch.
- `Routes` holds the handlers.

Two behaviours of the code that a reader may not expect; the model follows
the code:

- **Version comparison.** The dispatcher compares the whole version string
  with `"10.1"` and `"10.3"` using Go's `<` on strings, byte by byte, not
  number by number. So `"10.10"` selects the 10.1 reader and `"9.3"` the
  10.3 reader (see `Cache.DialectExamples`).
- **The 10.1 `conf.xml` path.** The 10.1 reader opens `path\conf.xml` with a
  backslash. The dispatcher and the 10.3 reader use `path/conf.xml`.

## Model

| member | source | states |
|---|---|---|
| Bytes.BytesToInt64 | dataSource/arcgisCache/utils.go:69-75 | The OR-and-shift loop yields the little-endian value of the first 8 bytes, wrapped to int64: later bytes are shifted out, and an eighth byte of 0x80 or more makes the result negative. |
| Bytes.ShortFieldExact | dataSource/arcgisCache/utils.go:69-75 | For fewer than 8 bytes, that result is exactly their little-endian value. |
| Bytes.OrStep | dataSource/arcgisCache/utils.go:72 | OR-ing byte i, shifted by 8·i, into a value below 256^i adds byte·256^i. The patterns never overlap. |
| Bytes.EncodeDecode | dataSource/arcgisCache/utils.go:68-75 | Little-endian decoding is inverted by the writer's encoding: re-encoding a decoded field at its width gives the same bytes. |
| Bytes.DecodedWidthsFitInt64 | dataSource/arcgisCache/arcgisCache10_1.go:101-107 | The 4- and 5-byte fields the readers decode lie in [0, 2^40), and 4-byte fields below 2^32. No int64 wrap-around happens. |
| Bytes.LittleEndianAppend | dataSource/arcgisCache/utils.go:71-73 | Appending a byte to a little-endian field adds it at the next power of 256. |
| Text.Split | dataSource/arcgisCache/utils.go:19 | `strings.Split` returns at least one part. No part contains the separator, and joining the parts with it gives the input back. |
| Text.LessTransitive | dataSource/arcgisCache/utils.go:22-24 | Go's byte-wise string `<` is transitive. |
| Text.LessTotal | dataSource/arcgisCache/utils.go:22-24 | For distinct strings, exactly one is below the other. |
| Text.LessIrreflexive | dataSource/arcgisCache/utils.go:22-24 | No string is below itself. |
| Cache.Version | dataSource/arcgisCache/utils.go:19-21 | The version taken from `Typens` holds no `/`. |
| Cache.VersionAfterLastSlash | dataSource/arcgisCache/utils.go:19-21 | For `Typens = prefix + "/" + v` with no `/` in v, the version is exactly v and the split has at least two parts. |
| Cache.NoSeparator | dataSource/arcgisCache/utils.go:19-21 | A `Typens` without `/` splits into itself alone. That is why the `len(arr) > 0` guard always holds. |
| Cache.DialectIntervals | dataSource/arcgisCache/utils.go:22-34 | Unsupported iff the version is below "10.1". The 10.1 reader iff it is in ["10.1", "10.3"). The 10.3 reader iff it is not below "10.3". The boundaries "10.1" and "10.3" themselves select 10.1 and 10.3. |
| Cache.DialectExamples | dataSource/arcgisCache/utils.go:22-34 | Byte-wise comparison sends "10.10" and "10.2" to the 10.1 reader, and "9.3" and "11" to the 10.3 reader. It rejects "10.0", "10" and "". |
| Cache.GetArcgisCache | dataSource/arcgisCache/utils.go:15-38 | A cache that is built keeps the directory path. Its variant is the one the declared version's interval selects. |
| Cache.DispatchByNamespace | dataSource/arcgisCache/utils.go:15-38 | Given `conf.xml` with `Typens = prefix/version`: below "10.1" the result is UnsupportedCacheVersion. Between "10.1" and "10.3" it is exactly the 10.1 constructor's result. From "10.3" on it is exactly the 10.3 constructor's result. |
| Cache.MissingConfIsUnsupported | dataSource/arcgisCache/utils.go:18-23 | With no readable `path/conf.xml`, the ignored error leaves an empty `Typens`. Its version "" is below "10.1", so the result is UnsupportedCacheVersion. |
| Cache.MapServerDocument | dataSource/arcgisCache/utils.go:78-156 | The document fails with an index panic iff the LOD table is empty. Otherwise it describes the cache (LODs in order, spatial reference, tile grid, both extents from the envelope, scales from the first and last LOD) and carries every constant field. |
| MapServerDoc.MapServerOf | dataSource/arcgisCache/utils.go:79-156 | The built document describes the cache info and envelope, and has the constant fields (map name, units, formats, capabilities, size limits, document info). |
| MapServerDoc.DescribesDeterminesDocument | dataSource/arcgisCache/utils.go:79-156 | Any document that describes the inputs and has the constant fields is the built one, so the description is complete. |
| MapServerDoc.LodsRoundTrip | dataSource/arcgisCache/utils.go:79-86 | The LOD copy loop loses nothing: mapping the LODs back gives the LOD infos. |
| MapServerDoc.LodsOf | dataSource/arcgisCache/utils.go:79-86 | One LOD per LOD info, in order, with level, resolution and scale copied. |
| MapServerDoc.ScaleRange | dataSource/arcgisCache/utils.go:137-138 | When LOD scales strictly decrease, every LOD's scale lies between maxScale and minScale. |
| MapServerDoc.TwoLodExample | dataSource/arcgisCache/utils.go:137-138 | minScale is the first LOD's scale and maxScale the last's. |
| Cache.NewV1 | dataSource/arcgisCache/arcgisCache10_1.go:22-30 | Building fails iff `path\conf.xml` cannot be read, with that path as the error. Otherwise the reader holds the path and that cache info. |
| Cache.V1ReadsBackslashConf | dataSource/arcgisCache/arcgisCache10_1.go:50-61 | A 10.1 cache whose `conf.xml` is reachable only as `path/conf.xml` is dispatched to the 10.1 reader. That reader then fails on `path\conf.xml`. |
| Addressing.BlockOrigin | dataSource/arcgisCache/arcgisCache10_1.go:67-68 | The block origin is the largest multiple of the packet size not above the row or column. The row or column lies in [origin, origin + size). |
| Addressing.TileInfoV1 | dataSource/arcgisCache/arcgisCache10_1.go:64-82 | It fails with InvalidLevelRowCol iff the record number is negative. Otherwise the stem is `base\_alllayers\Lll\RrrrrCcccc`, built from the block origins. |
| Addressing.RecordNumberV1Range | dataSource/arcgisCache/arcgisCache10_1.go:73 | For a positive packet size N, the 10.1 record number is N·(col − colBlock) + (row − rowBlock), in [0, N²). |
| Addressing.RecordNumberV1Inverse | dataSource/arcgisCache/arcgisCache10_1.go:73 | The 10.1 record number divided by N gives the column within the block, and the remainder gives the row: column-major order. |
| Addressing.RecordNumbersDistinct | dataSource/arcgisCache/arcgisCache10_1.go:73 | Within one block, distinct tiles get distinct record numbers in both dialects. |
| Addressing.TileInfoV1Succeeds | dataSource/arcgisCache/arcgisCache10_1.go:73-81 | For a positive packet size, the index entry offset is 16 + 5·record, in [16, 16 + 5·N²). |
| Addressing.NegativePacketSize | dataSource/arcgisCache/arcgisCache10_1.go:73-76 | With a negative packet size, the `recordNumber < 0` guard rejects some tiles and passes others. |
| Addressing.SameTileBothDialects | dataSource/arcgisCache/arcgisCache10_1.go:67-80 | Level 2, row 36, col 28 with N = 128: index offset 18116 in block `L02\R0000C0000`; 10.3 record 4636. |
| Addressing.StemDeterminesBlock | dataSource/arcgisCache/arcgisCache10_1.go:71 | Below level 100 and block origin 0x10000, the bundle path determines the level and both block origins. |
| Addressing.WideStemsCollide | dataSource/arcgisCache/arcgisCache10_1.go:71 | `%04X` widens rather than truncates. Past 0xFFFF, two different blocks get the same bundle path. |
| Text.Hex4 | dataSource/arcgisCache/arcgisCache10_1.go:71 | `%04X` gives upper-case hexadecimal digits of the value, at least 4 of them, with no leading zero beyond the padding. |
| Text.Dec2 | dataSource/arcgisCache/arcgisCache10_1.go:71 | `%02d` gives decimal digits of the value, at least 2 of them, with no leading zero beyond the padding. |
| BundleV1.ImageOffset | dataSource/arcgisCache/arcgisCache10_1.go:85-110 | A missing `.bundlx` fails with that path. The read succeeds iff the entry offset is inside the file. The offset read is the little-endian value of the 5 bytes there, zero-padded past the end, below 2^40. |
| BundleV1.ImageData | dataSource/arcgisCache/arcgisCache10_1.go:113-145 | A missing `.bundle` fails with that path. It succeeds iff the length position is inside the file; a negative offset's seek error is ignored. The data has the 4-byte length read there, and holds the bytes after it, zero past the end of the file and past the first 1 GiB (`MaxRead`), the most one `Read` returns. |
| BundleV1.TileBytes | dataSource/arcgisCache/arcgisCache10_1.go:33-47 | An invalid record gives InvalidLevelRowCol. Any error is returned, not a panic. A tile read is the data at the offset the index entry holds. |
| BundleV1.ReadsOffset | dataSource/arcgisCache/arcgisCache10_1.go:96-107 | An index holding offset o at the entry reads back o. |
| BundleV1.ReadsPayload | dataSource/arcgisCache/arcgisCache10_1.go:124-144 | A bundle holding a length-prefixed record of at most 1 GiB at o reads back exactly the record's bytes. |
| BundleV1.LongPayloadCut | dataSource/arcgisCache/arcgisCache10_1.go:129-144 | A record longer than 1 GiB reads back as its first 1 GiB, then zeros to the declared length: one unchecked `Read` fills the buffer no further. |
| Disk.Filled | dataSource/arcgisCache/arcgisCache10_1.go:138-139 | The buffer after one unchecked `Read` holds the file's bytes up to the end of the file and up to 1 GiB, and zeros after. |
| Disk.ReadsLongRecord | dataSource/arcgisCache/arcgisCache10_1.go:129-139 | Reading a length-prefixed record longer than 1 GiB gives its first 1 GiB and then zeros. |
| BundleV1.TruncatedPayload | dataSource/arcgisCache/arcgisCache10_1.go:138-139 | A record of at most 1 GiB cut short by the end of the file reads back as its bytes followed by zeros: the short read's error is not checked. |
| BundleV1.MissingFiles | dataSource/arcgisCache/arcgisCache10_1.go:89-91 | A missing `.bundlx` makes the tile read fail with its path. A missing `.bundle` makes it fail. |
| BundleV1.WrittenBlockReadsBack | dataSource/arcgisCache/arcgisCache10_1.go:33-145 | For a block written by the writer (index of 5-byte offsets after a 16-byte header, bundle of length-prefixed records of at most 1 GiB each), every tile of the block reads back exactly the bytes written for its record. |
| BundleV1.ReadsWrittenRecord | dataSource/arcgisCache/arcgisCache10_1.go:80-144 | The written index's entry k and record k read back as record k's bytes. |
| Cache.NewV3 | dataSource/arcgisCache/arcgisCache10_3.go:19-33 | Building fails iff `path/conf.xml` or `path/conf.cdi` cannot be read. The `conf.xml` error comes first. Otherwise the reader holds the path, the cache info and the envelope. |
| Cache.TileFormatLowered | dataSource/arcgisCache/arcgisCache10_3.go:41-43 | The tile format is the cache's format lower-cased character by character. It has the same length, holds no upper-case ASCII, and lower-casing it again changes nothing. |
| Cache.TileFormatExamples | dataSource/arcgisCache/arcgisCache10_3.go:41-43 | "PNG" is served as "png" and "JPEG" as "jpeg". |
| Addressing.TileInfoV3 | dataSource/arcgisCache/arcgisCache10_3.go:59-75 | It fails with InvalidLevelRowCol iff the record number is negative. Otherwise the stem is `base/_alllayers/Lll/RrrrrCcccc`. |
| Addressing.RecordNumberV3Range | dataSource/arcgisCache/arcgisCache10_3.go:69 | For a positive N, the 10.3 record number is N·(row − rowBlock) + (col − colBlock), in [0, N²). |
| Addressing.RecordNumberV3Inverse | dataSource/arcgisCache/arcgisCache10_3.go:69 | Dividing the 10.3 record number by N gives the row within the block, and the remainder gives the column: row-major order. |
| Addressing.RecordNumbersTransposed | dataSource/arcgisCache/arcgisCache10_3.go:69 | The 10.3 record number of (row, col) is the 10.1 record number of (col, row). |
| Addressing.TileInfoV3Succeeds | dataSource/arcgisCache/arcgisCache10_3.go:69-74 | For a positive packet size, the tile lookup succeeds with the row-major record number. |
| Addressing.BlockBoundary | dataSource/arcgisCache/arcgisCache10_3.go:59-75 | With packet size 128, (level 0, row 128, column 0) is record 0 of the bundle `c/_alllayers/L00/R0080C0000`: row 128 starts the second block and the stem is zero-padded hex. |
| BundleV3.EntryOffset | dataSource/arcgisCache/arcgisCache10_3.go:89 | Record r's entry starts at 64 + 8r, computed in wrapping int64 arithmetic; for every record number below 2^56 it does not wrap. |
| BundleV3.LengthField | dataSource/arcgisCache/arcgisCache10_3.go:89-107 | Reading the entry succeeds iff its offset is inside the file; a negative offset fails the seek. The length field lies 4 bytes before the offset read. Below 4, the failed seek is ignored and the position stays after the entry. |
| BundleV3.ImageData | dataSource/arcgisCache/arcgisCache10_3.go:78-125 | A missing `.bundle` fails with that path. A negative entry offset fails the seek. An entry at or past the end fails with EOF. Data read is below 2^32 bytes long. |
| BundleV3.TileBytes | dataSource/arcgisCache/arcgisCache10_3.go:46-56 | An invalid record gives InvalidLevelRowCol. Otherwise it is the data read for the tile's record. It never panics. |
| BundleV3.ImageDataAt | dataSource/arcgisCache/arcgisCache10_3.go:104-124 | Once the length position is known: inside the file the data is the bytes after the length, zero past the end of the file and past the first 1 GiB, and at or past the end the read fails with EOF. |
| BundleV3.ZeroLength | dataSource/arcgisCache/arcgisCache10_3.go:110-124 | A zero length field reads back an empty tile. |
| BundleV3.ShortOffset | dataSource/arcgisCache/arcgisCache10_3.go:104-107 | An entry offset below 4 makes the ignored seek error leave the file after the entry. The entry's high half is then read as the length. |
| BundleV3.HighHalfIgnored | dataSource/arcgisCache/arcgisCache10_3.go:96-101 | Only the first 4 of the 8 entry bytes are read. Two bundles that agree on those 4 bytes and on the file from the record on read the same tile. |
| BundleV3.ReadsPayload | dataSource/arcgisCache/arcgisCache10_3.go:89-124 | An entry holding at + 4, with a length-prefixed record of at most 1 GiB at `at`, reads back exactly the record's bytes. |
| BundleV3.LongPayloadCut | dataSource/arcgisCache/arcgisCache10_3.go:109-124 | An entry pointing at a record longer than 1 GiB reads back its first 1 GiB, then zeros to the declared length. |
| BundleV3.MissingBundle | dataSource/arcgisCache/arcgisCache10_3.go:82-85 | A missing `.bundle` makes the tile read fail with its path. |
| BundleV3.WrittenBlockReadsBack | dataSource/arcgisCache/arcgisCache10_3.go:46-125 | For a bundle written by the writer (64-byte header, 8-byte entries, then length-prefixed records of at most 1 GiB each), every tile of the block reads back exactly the bytes written for its record. |
| BundleV3.ReadsWrittenRecord | dataSource/arcgisCache/arcgisCache10_3.go:78-125 | Record k of a written bundle, at most 1 GiB long, reads back as its bytes. |
| Cache.TileBytes | dataSource/arcgisCache/arcgisCache10_3.go:59-63 | Reading a tile panics (division by zero) iff the packet size is 0. With any other packet size, the result is that of the reader of the cache's dialect. |
| Routes.RootHandler | route_main.go:17-20 | `/` answers 302 Found with Location `/rest/services`. |
| Routes.ServicesDirectoryHandler | route_main.go:22-59 | The answer is a page or JSON. It is the 400 error page iff the normalized `f` is none of "", html, json, pjson. It is JSON iff `f` is json or pjson. |
| Routes.DirectoryJsonBody | route_main.go:35-50 | For json/pjson, the answer is JSON whose body is the encoded services directory (pretty iff pjson); with a non-empty trimmed callback `cb`, the body is exactly `cb(` + that JSON + `);`. |
| Routes.DirectoryFormats | route_main.go:28-58 | After lower-casing and trimming, "" and html select the page, json and pjson select JSON (indented exactly for pjson), and every other value, jsapi included, selects the 400 page. |
| Routes.MapServerFormats | route_main.go:105-141 | The MapServer endpoint chooses as the directory does, except that jsapi selects the jsapi page; it answers 400 iff `f` is none of "", html, json, pjson, jsapi. |
| Routes.DirectoryListsEachServiceOnce | route_main.go:61-90 | The directory lists one MapServer entry per configured service name, each once, and nothing else. It has no folders and version 10.11. |
| Routes.DirectoryOrderIrrelevant | route_main.go:64-69 | Whatever order the map is iterated in, the directory lists the same entries. |
| Routes.FormatIgnoresCaseAndSpace | route_main.go:28 | Normalizing `f` (lower-case, then trim) a second time chooses the same format. |
| Routes.CallbackRoundTrip | route_main.go:43-47 | An empty trimmed callback leaves the JSON as is. Otherwise the body is `cb(` + JSON + `);`, and stripping the wrapper gives the JSON back. |
| Routes.WrapInjective | route_main.go:43-47 | With the same callback, different JSON gives different bodies. |
| Routes.MapServerHandler | route_main.go:92-146 | NotFound iff the service name is unknown. For a known name: the 400 page iff `f` is not "", html, json, pjson or jsapi; the jsapi page iff `f` is jsapi. For json or pjson, the request aborts iff the cache is a 10.3 cache with an empty LOD table (`lods[0]` panics); otherwise JSON is written. |
| Routes.MapServerJson | dataSource/arcgisCache/utils.go:78-138 | A cache's JSON answer aborts iff it is a 10.3 cache whose LOD table is empty; otherwise JSON is written. |
| Routes.MapServerJsonBody | route_main.go:112-127 | For a known name and json/pjson: a 10.3 cache without LODs aborts. A 10.3 cache with LODs answers its MapServer document (`Cache.MapServerDocument`) encoded, pretty iff pjson. A 10.1 cache answers its encoded parameter. With a non-empty trimmed callback `cb`, the body is exactly `cb(` + JSON + `);`. |
| Routes.TileHandler | route_main.go:148-168 | NotFound iff the name is unknown. The request aborts iff the cache's packet size is 0. Otherwise the content type is `image/` + the lower-cased format, and the body is the tile, or empty when reading failed. |
| Routes.ServesWrittenTile | route_main.go:148-168 | For a 10.3 cache whose block was written by the writer, with tiles of at most 1 GiB, the tile handler answers with exactly the bytes written for the tile's record. |
| Text.NormalizeIdempotent | route_main.go:28 | Lower-casing then trimming is idempotent. |
| Text.TrimLeftToLower | route_main.go:28 | Trimming leading space commutes with lower-casing. |
| Text.TrimRightToLower | route_main.go:28 | Trimming trailing space commutes with lower-casing. |
| Text.ToLowerIdempotent | route_main.go:28 | Lower-casing twice is lower-casing once, and leaves no upper-case ASCII. |

## Left out

- XML decoding of `conf.xml`/`conf.cdi` is left out: the model takes the decoded values (`Disk.cacheInfos`, `Disk.envelopes`). Its only error, a file that is absent or does not unmarshal, is `Unparsable`.
- JSON encoding (`json.Marshal`, `json.MarshalIndent`) is a parameter of the handlers. The model states which value is encoded and how the body is wrapped.
- HTML templates are left out, and so is `log.Fatal` on a template or encoding error. The model names the template and its data.
- `main.go` is not part of this model: route registration, the cache-directory scan, and the HTTP server.
- Go's map iteration order is unspecified. It is a parameter: any enumeration of the keys (`Routes.Enumerates`).
- Routes.TileHandler: `strconv.ParseInt` is left out, including its errors and overflow. Level, row and column are the parsed non-negative values.
- Floating-point values (LOD resolutions and scales, envelope and extent coordinates, `currentVersion` 10.11) are carried as bit patterns and never computed with.
- OS errors other than an absent file (permissions, I/O failures) are left out, and so is closing the files. A `read` system call on a regular file is taken to return every byte asked of it up to the end of the file; only Go's 1 GiB cut (`Disk.MaxRead`) shortens it.
- `strings.ToLower` is modelled for ASCII plus the two code points that lower to ASCII (U+0130, U+212A). Other non-ASCII letters are left unchanged. A tile format or `f` parameter with other non-ASCII letters is outside the model.
- The 10.1 reader in this snapshot defines neither `GetTileFormat` nor `GetMapServerJSONString`. It also repeats `bytesToInt64` from utils.go. `Cache.TileFormat` applies the 10.3 rule to both variants. For a 10.1 cache, which has no envelope, `Routes.MapServerHandler` takes the JSON answer as a parameter (`encodeV1`); a 10.3 cache's answer is built by `Cache.MapServerDocument`.
- A failed constructor returns its half-built reader together with the error; `GetArcgisCache` passes it on. The model returns only the error.
- `BundleV3.WriteBundle` writes the same 4 filler bytes after every entry's offset. The reader ignores those bytes (`BundleV3.HighHalfIgnored`).
- Addressing: bounds and round-trip lemmas assume 0 < packetSize ≤ 2^28, so that N² does not wrap. Negative sizes are modelled only in `TileInfoV1`/`TileInfoV3` and `NegativePacketSize`.
