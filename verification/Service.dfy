/** The documents the REST surface returns, shaped as service/mapServer.go and
    service/servicesDirectory.go declare them (JSON field names in comments
    where they differ from the Dafny names). */
module Service {
  import opened GoInt
  import CacheConf

  /** An IEEE-754 single, carried by its bit pattern. */
  datatype Float32 = Float32(bits: bv32)

  /** `currentVersion` 10.11 as a float32. */
  const CurrentVersion := Float32(0x4121_C28F)

  /** An element of a JSON list typed `[]interface{}`; the server only ever
      sends such lists empty. */
  datatype Json = Json(encoded: string)

  datatype SpatialReference = SpatialReference(wkid: int64, latestWkid: int64)

  datatype Point = Point(x: int64, y: int64)

  datatype Lod = Lod(level: int64, resolution: CacheConf.Float64, scale: int64)

  datatype Extent = Extent(
    xMin: CacheConf.Float64,
    yMin: CacheConf.Float64,
    xMax: CacheConf.Float64,
    yMax: CacheConf.Float64,
    spatialReference: SpatialReference)

  datatype TileInfo = TileInfo(
    rows: int64,
    cols: int64,
    dpi: int64,
    format: string,
    compressionQuality: int64,
    origin: Point,
    spatialReference: SpatialReference,
    lods: seq<Lod>)

  datatype DocumentInfo = DocumentInfo(
    title: string,
    author: string,
    comments: string,
    subject: string,
    category: string,
    antialiasingMode: string,
    textAntialiasingMode: string,
    keywords: string)

  /** The MapServer capability document. */
  datatype MapServer = MapServer(
    currentVersion: Float32,
    serviceDescription: string,
    mapName: string,
    description: string,
    copyrightText: string,
    supportsDynamicLayers: bool,
    layers: seq<Json>,
    tables: seq<Json>,
    spatialReference: SpatialReference,
    singleFusedMapCache: bool,
    tileInfo: TileInfo,
    initialExtent: Extent,
    fullExtent: Extent,
    minScale: int64,
    maxScale: int64,
    units: string,
    supportedImageFormatTypes: string,
    documentInfo: DocumentInfo,
    capabilities: string,
    supportedQueryFormats: string,
    maxRecordCount: int64,
    maxImageHeight: int64,
    maxImageWidth: int64)

  /** One entry of the services directory; `kind` is the JSON field `type`. */
  datatype ServiceEntry = ServiceEntry(name: string, kind: string)

  datatype ServicesDirectory = ServicesDirectory(
    currentVersion: Float32,
    folders: seq<Json>,
    services: seq<ServiceEntry>)
}
