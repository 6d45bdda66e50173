/** The parsed cache description: `conf.xml` (tiling scheme, image format,
    storage layout and the schema version in `Typens`) and `conf.cdi` (the
    envelope). Shapes follow dataSource/arcgisCache/cacheInfo.go; XML decoding
    itself is not modelled, so these values are inputs. */
module CacheConf {
  import opened GoInt

  /** An IEEE-754 double, carried by its bit pattern: the server only copies
      such values, it never computes with them. */
  datatype Float64 = Float64(bits: bv64)

  datatype SpatialReference = SpatialReference(
    wkt: string,
    xOrigin: int64,
    yOrigin: int64,
    xyScale: Float64,
    zOrigin: int64,
    zScale: int64,
    mOrigin: int64,
    mScale: int64,
    xyTolerance: Float64,
    zTolerance: Float64,
    mTolerance: Float64,
    highPrecision: bool,
    leftLongitude: int64,
    wkid: int64,
    latestWkid: int64)

  datatype TileOrigin = TileOrigin(x: int64, y: int64)

  /** One level of detail. */
  datatype LODInfo = LODInfo(levelId: int64, scale: int64, resolution: Float64)

  datatype TileCacheInfo = TileCacheInfo(
    spatialReference: SpatialReference,
    tileOrigin: TileOrigin,
    tileCols: int64,
    tileRows: int64,
    dpi: int64,
    preciseDpi: int64,
    lodInfos: seq<LODInfo>)

  datatype TileImageInfo = TileImageInfo(cacheTileFormat: string, compressionQuality: int64, antialiasing: bool)

  /** `packetSize` is the edge N of the N x N block of tiles stored in one bundle. */
  datatype CacheStorageInfo = CacheStorageInfo(storageFormat: string, packetSize: int64)

  /** The root of `conf.xml`; `typens` is the schema namespace whose last
      `/`-separated segment is the cache version. */
  datatype CacheInfo = CacheInfo(
    typens: string,
    tileCacheInfo: TileCacheInfo,
    tileImageInfo: TileImageInfo,
    cacheStorageInfo: CacheStorageInfo)

  /** `conf.cdi`: the extent of the cached data. */
  datatype Envelope = Envelope(xMin: Float64, yMin: Float64, xMax: Float64, yMax: Float64)

  const ZeroFloat := Float64(0)

  /** Go's zero value of the cache description: what the dispatcher works on
      when `conf.xml` cannot be read or parsed. */
  const ZeroCacheInfo := CacheInfo(
    "",
    TileCacheInfo(
      SpatialReference("", 0, 0, ZeroFloat, 0, 0, 0, 0, ZeroFloat, ZeroFloat, ZeroFloat, false, 0, 0, 0),
      TileOrigin(0, 0), 0, 0, 0, 0, []),
    TileImageInfo("", 0, false),
    CacheStorageInfo("", 0))
}
