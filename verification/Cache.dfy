/** A cache directory opened as a tile source: the `ArcgisCache` interface
    (arcgisCache.go) with its 10.1 and 10.3 implementations, and
    `GetArcgisCache`, which picks one from the version at the end of the
    `Typens` namespace in `conf.xml`. */
module Cache {
  import opened GoInt
  import opened Errors
  import opened Text
  import opened Disk
  import opened Addressing
  import opened Bytes
  import C = CacheConf
  import S = Service
  import Doc = MapServerDoc
  import BundleV1
  import BundleV3

  /** An opened cache: its directory and what was read from it. A 10.3 cache
      also holds the envelope from `conf.cdi`. */
  datatype Cache =
    | V1(path: string, info: C.CacheInfo)
    | V3(path: string, info: C.CacheInfo, envelope: C.Envelope)

  /** `conf.xml` in the cache directory, joined with `sep`: the 10.1 reader
      writes `\`, the 10.3 reader and the dispatcher `/`. */
  function ConfXmlPath(path: string, sep: char): string {
    path + [sep] + "conf.xml"
  }

  function ConfCdiPath(path: string): string {
    path + "/conf.cdi"
  }

  /** `getCacheInfo`: the file read and unmarshalled, or the error. */
  function ReadCacheInfo(disk: Disk, file: string): Result<C.CacheInfo> {
    if file in disk.cacheInfos then Ok(disk.cacheInfos[file]) else Err(Unparsable(file))
  }

  /** `getEnvelope`: the file read and unmarshalled, or the error. */
  function ReadEnvelope(disk: Disk, file: string): Result<C.Envelope> {
    if file in disk.envelopes then Ok(disk.envelopes[file]) else Err(Unparsable(file))
  }

  /** `NewArcgisCache10_1`: fails exactly when `path\conf.xml` cannot be read
      or parsed. */
  function NewV1(disk: Disk, path: string): (r: Result<Cache>)
    ensures r.Err? <==> ConfXmlPath(path, '\\') !in disk.cacheInfos
    ensures r.Err? ==> r.error == Unparsable(ConfXmlPath(path, '\\'))
    ensures r.Ok? ==> r.value == V1(path, disk.cacheInfos[ConfXmlPath(path, '\\')])
  {
    var info :- ReadCacheInfo(disk, ConfXmlPath(path, '\\'));
    Ok(V1(path, info))
  }

  /** `NewArcgisCache10_3`: fails exactly when `conf.xml` or `conf.cdi`
      cannot be read or parsed, naming the first that fails. */
  function NewV3(disk: Disk, path: string): (r: Result<Cache>)
    ensures r.Err? <==> ConfXmlPath(path, '/') !in disk.cacheInfos || ConfCdiPath(path) !in disk.envelopes
    ensures ConfXmlPath(path, '/') !in disk.cacheInfos ==> r == Err(Unparsable(ConfXmlPath(path, '/')))
    ensures ConfXmlPath(path, '/') in disk.cacheInfos && ConfCdiPath(path) !in disk.envelopes ==>
      r == Err(Unparsable(ConfCdiPath(path)))
    ensures r.Ok? ==>
      r.value == V3(path, disk.cacheInfos[ConfXmlPath(path, '/')], disk.envelopes[ConfCdiPath(path)])
  {
    var info :- ReadCacheInfo(disk, ConfXmlPath(path, '/'));
    var envelope :- ReadEnvelope(disk, ConfCdiPath(path));
    Ok(V3(path, info, envelope))
  }

  /** The cache version: the last `/`-separated segment of `typens`.
      `strings.Split` never returns an empty list, so there always is one. */
  function Version(typens: string): (v: string)
    ensures '/' !in v
  {
    var parts := Split(typens, '/');
    parts[|parts| - 1]
  }

  /** The version is what follows the last `/`. */
  lemma {:induction false} VersionAfterLastSlash(prefix: string, v: string)
    requires '/' !in v
    ensures Version(prefix + "/" + v) == v
    ensures |Split(prefix + "/" + v, '/')| >= 2
    decreases |prefix|
  {
    var s := prefix + "/" + v;
    if |prefix| == 0 {
      assert s[1..] == v;
      NoSeparator(v);
    } else {
      assert s[1..] == prefix[1..] + "/" + v;
      VersionAfterLastSlash(prefix[1..], v);
    }
  }

  /** A string without `/` is its own version. */
  lemma {:induction false} NoSeparator(v: string)
    requires '/' !in v
    ensures Split(v, '/') == [v]
    decreases |v|
  {
    if |v| > 0 {
      assert '/' !in v[1..];
      NoSeparator(v[1..]);
      assert [v[0]] + v[1..] == v;
    }
  }

  /** Which reader a version string selects. */
  datatype Dialect = Unsupported | Dialect101 | Dialect103

  /** `version < "10.1"`, then `version < "10.3"`, with Go's byte-wise
      string order. */
  function DialectOf(version: string): Dialect {
    if Less(version, "10.1") then Unsupported
    else if Less(version, "10.3") then Dialect101
    else Dialect103
  }

  /** The three dialects are three consecutive intervals of the string
      order: below "10.1", from "10.1" up to "10.3", and from "10.3" on. */
  lemma DialectIntervals(version: string)
    ensures DialectOf(version) == Unsupported <==> Less(version, "10.1")
    ensures DialectOf(version) == Dialect101 <==> !Less(version, "10.1") && Less(version, "10.3")
    ensures DialectOf(version) == Dialect103 <==> !Less(version, "10.3")
    ensures DialectOf("10.1") == Dialect101 && DialectOf("10.3") == Dialect103
  {
    assert Less("10.1", "10.3");
    if Less(version, "10.1") {
      LessTransitive(version, "10.1", "10.3");
    }
    LessIrreflexive("10.1");
    LessIrreflexive("10.3");
  }

  /** The comparison is not numeric: "10.10" sorts between "10.1" and "10.3",
      "9.3" after "10.3", and the empty string first. */
  lemma DialectExamples()
    ensures DialectOf("10.10") == Dialect101
    ensures DialectOf("10.2") == Dialect101
    ensures DialectOf("9.3") == Dialect103
    ensures DialectOf("11") == Dialect103
    ensures DialectOf("10.0") == Unsupported
    ensures DialectOf("10") == Unsupported
    ensures DialectOf("") == Unsupported
  {
    assert Less("10.0", "10.1");
    assert !Less("10.10", "10.1") && Less("10.10", "10.3");
    assert !Less("10.2", "10.1") && Less("10.2", "10.3");
    assert !Less("9.3", "10.1") && !Less("9.3", "10.3");
    assert !Less("11", "10.1") && !Less("11", "10.3");
  }

  /** What the dispatcher reads: `path/conf.xml`, or Go's zero value when it
      cannot be read or parsed (the error is dropped). */
  function DispatchInfo(disk: Disk, path: string): C.CacheInfo {
    match ReadCacheInfo(disk, ConfXmlPath(path, '/'))
    case Ok(info) => info
    case Err(_) => C.ZeroCacheInfo
  }

  /** `GetArcgisCache`. A constructor's error is returned as the result's
      error; the half-built reader Go returns beside it is dropped. */
  function GetArcgisCache(disk: Disk, path: string): (r: Result<Cache>)
    ensures r.Ok? ==> r.value.path == path
    ensures r.Ok? && r.value.V1? ==> DialectOf(Version(DispatchInfo(disk, path).typens)) == Dialect101
    ensures r.Ok? && r.value.V3? ==> DialectOf(Version(DispatchInfo(disk, path).typens)) == Dialect103
  {
    match DialectOf(Version(DispatchInfo(disk, path).typens))
    case Unsupported => Err(UnsupportedCacheVersion)
    case Dialect101 => NewV1(disk, path)
    case Dialect103 => NewV3(disk, path)
  }

  /** Dispatch by the namespace in `conf.xml`: the segment after its last
      `/` decides between the error and the two readers. */
  lemma DispatchByNamespace(disk: Disk, path: string, prefix: string, version: string)
    requires ConfXmlPath(path, '/') in disk.cacheInfos
    requires disk.cacheInfos[ConfXmlPath(path, '/')].typens == prefix + "/" + version && '/' !in version
    ensures Less(version, "10.1") ==> GetArcgisCache(disk, path) == Err(UnsupportedCacheVersion)
    ensures !Less(version, "10.1") && Less(version, "10.3") ==> GetArcgisCache(disk, path) == NewV1(disk, path)
    ensures !Less(version, "10.3") ==> GetArcgisCache(disk, path) == NewV3(disk, path)
  {
    VersionAfterLastSlash(prefix, version);
    DialectIntervals(version);
  }

  /** A missing or unparsable `conf.xml` is not reported as such: the empty
      namespace sorts below "10.1", so the result is the version error. */
  lemma MissingConfIsUnsupported(disk: Disk, path: string)
    requires ConfXmlPath(path, '/') !in disk.cacheInfos
    ensures GetArcgisCache(disk, path) == Err(UnsupportedCacheVersion)
  {
    NoSeparator("");
  }

  /** The dispatcher reads `path/conf.xml` but the 10.1 reader reads
      `path\conf.xml`: where those name different files and only the first
      exists, a 10.1 cache fails to open, with the backslash name. */
  lemma V1ReadsBackslashConf(disk: Disk, path: string)
    requires ConfXmlPath(path, '/') in disk.cacheInfos && ConfXmlPath(path, '\\') !in disk.cacheInfos
    requires DialectOf(Version(disk.cacheInfos[ConfXmlPath(path, '/')].typens)) == Dialect101
    ensures GetArcgisCache(disk, path) == Err(Unparsable(ConfXmlPath(path, '\\')))
  {
  }

  /** `GetTileFormat`: the format name in lower case. */
  function TileFormat(cache: Cache): string {
    ToLower(cache.info.tileImageInfo.cacheTileFormat)
  }

  /** The tile format has the configured format's length, holds no upper-case
      ASCII letter, is unchanged by lowering it again, and lowers the
      configured name character by character. */
  lemma TileFormatLowered(cache: Cache)
    ensures |TileFormat(cache)| == |cache.info.tileImageInfo.cacheTileFormat|
    ensures forall i :: 0 <= i < |TileFormat(cache)| ==> !IsAsciiUpper(TileFormat(cache)[i])
    ensures ToLower(TileFormat(cache)) == TileFormat(cache)
    ensures forall i :: 0 <= i < |TileFormat(cache)| ==>
      TileFormat(cache)[i] == LowerChar(cache.info.tileImageInfo.cacheTileFormat[i])
  {
    ToLowerIdempotent(cache.info.tileImageInfo.cacheTileFormat);
  }

  /** "PNG" is served as "png", "JPEG" as "jpeg". */
  lemma TileFormatExamples(cache: Cache)
    ensures cache.info.tileImageInfo.cacheTileFormat == "PNG" ==> TileFormat(cache) == "png"
    ensures cache.info.tileImageInfo.cacheTileFormat == "JPEG" ==> TileFormat(cache) == "jpeg"
  {
  }

  /** `GetTileBytes` of either reader. A packet size of 0 makes Go's `/`
      panic before anything is read; that is the only panic a lookup can
      hit, every other failure is an error value. */
  function TileBytes(disk: Disk, cache: Cache, level: uint63, row: uint63, col: uint63): (r: Result<seq<byte>>)
    ensures r.Err? && IsPanic(r.error) <==> cache.info.cacheStorageInfo.packetSize == 0
    ensures cache.info.cacheStorageInfo.packetSize != 0 && cache.V1? ==>
      r == BundleV1.TileBytes(disk, cache.path, cache.info.cacheStorageInfo.packetSize, level, row, col)
    ensures cache.info.cacheStorageInfo.packetSize != 0 && cache.V3? ==>
      r == BundleV3.TileBytes(disk, cache.path, cache.info.cacheStorageInfo.packetSize, level, row, col)
  {
    var p := cache.info.cacheStorageInfo.packetSize;
    if p == 0 then Err(DivideByZero)
    else match cache
      case V1(path, _) => BundleV1.TileBytes(disk, path, p, level, row, col)
      case V3(path, _, _) => BundleV3.TileBytes(disk, path, p, level, row, col)
  }

  /** `GetMapServerJSONString` of the 10.3 reader, before JSON encoding: the
      capability document, or the panic of an empty LOD table. */
  function MapServerDocument(info: C.CacheInfo, envelope: C.Envelope): (r: Result<S.MapServer>)
    ensures r.Err? <==> |info.tileCacheInfo.lodInfos| == 0
    ensures r.Err? ==> r.error == IndexOutOfRange
    ensures r.Ok? ==> Doc.Describes(r.value, info, envelope) && Doc.HasConstantFields(r.value)
  {
    if |info.tileCacheInfo.lodInfos| == 0 then Err(IndexOutOfRange) else Ok(Doc.MapServerOf(info, envelope))
  }
}
