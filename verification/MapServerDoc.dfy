/** The MapServer capability document built from a parsed cache description
    and envelope (utils.go `getMapServerJSONString`, without the JSON
    encoding): a projection of the parsed values onto the document, with every
    other field a constant. */
module MapServerDoc {
  import opened GoInt
  import C = CacheConf
  import S = Service

  function LodOf(info: C.LODInfo): S.Lod {
    S.Lod(info.levelId, info.resolution, info.scale)
  }

  /** The `lods` list: one entry per LOD, in the same order, fields copied. */
  function LodsOf(infos: seq<C.LODInfo>): (lods: seq<S.Lod>)
    ensures |lods| == |infos|
    ensures forall i :: 0 <= i < |infos| ==>
      lods[i].level == infos[i].levelId && lods[i].resolution == infos[i].resolution && lods[i].scale == infos[i].scale
  {
    if |infos| == 0 then [] else LodsOf(infos[..|infos| - 1]) + [LodOf(infos[|infos| - 1])]
  }

  /** Reading the LOD table back out of a document's `lods`. */
  function LodInfosOf(lods: seq<S.Lod>): (infos: seq<C.LODInfo>)
    ensures |infos| == |lods|
  {
    seq(|lods|, i requires 0 <= i < |lods| => C.LODInfo(lods[i].level, lods[i].scale, lods[i].resolution))
  }

  /** Nothing of the LOD table is lost on the way into the document. */
  lemma LodsRoundTrip(infos: seq<C.LODInfo>)
    ensures LodInfosOf(LodsOf(infos)) == infos
  {
  }

  function SpatialReferenceOf(info: C.CacheInfo): S.SpatialReference {
    S.SpatialReference(info.tileCacheInfo.spatialReference.wkid, info.tileCacheInfo.spatialReference.latestWkid)
  }

  function ExtentOf(info: C.CacheInfo, envelope: C.Envelope): S.Extent {
    S.Extent(envelope.xMin, envelope.yMin, envelope.xMax, envelope.yMax, SpatialReferenceOf(info))
  }

  const SupportedImageFormatTypes := "PNG32,PNG24,PNG,JPG,DIB,TIFF,EMF,PS,PDF,GIF,SVG,SVGZ,BMP"

  /** The fields of the document that do not depend on the cache. */
  predicate HasConstantFields(doc: S.MapServer) {
    && doc.currentVersion == S.CurrentVersion
    && doc.serviceDescription == "" && doc.description == "" && doc.copyrightText == ""
    && doc.mapName == "Layers"
    && !doc.supportsDynamicLayers
    && doc.layers == [] && doc.tables == []
    && doc.singleFusedMapCache
    && doc.units == "esriDecimalDegrees"
    && doc.supportedImageFormatTypes == SupportedImageFormatTypes
    && doc.documentInfo == S.DocumentInfo("", "", "", "", "", "None", "Force", "")
    && doc.capabilities == "Map,Query,Data"
    && doc.supportedQueryFormats == "JSON, AMF"
    && doc.maxRecordCount == 1000
    && doc.maxImageHeight == 2048
    && doc.maxImageWidth == 2048
  }

  /** What the document says about the cache, field by field: the spatial
      reference in all four places, both extents equal to the envelope, the
      tile scheme copied (format in its original case), the LOD table in order,
      and the scale range taken from the first and last LOD. */
  predicate Describes(doc: S.MapServer, info: C.CacheInfo, envelope: C.Envelope)
    requires |info.tileCacheInfo.lodInfos| > 0
  {
    var t := info.tileCacheInfo;
    var sr := S.SpatialReference(t.spatialReference.wkid, t.spatialReference.latestWkid);
    var lods := t.lodInfos;
    && doc.spatialReference == sr
    && doc.tileInfo.spatialReference == sr
    && doc.initialExtent == S.Extent(envelope.xMin, envelope.yMin, envelope.xMax, envelope.yMax, sr)
    && doc.fullExtent == doc.initialExtent
    && doc.tileInfo.rows == t.tileRows && doc.tileInfo.cols == t.tileCols && doc.tileInfo.dpi == t.dpi
    && doc.tileInfo.format == info.tileImageInfo.cacheTileFormat
    && doc.tileInfo.compressionQuality == info.tileImageInfo.compressionQuality
    && doc.tileInfo.origin == S.Point(t.tileOrigin.x, t.tileOrigin.y)
    && |doc.tileInfo.lods| == |lods|
    && (forall i :: 0 <= i < |lods| ==>
          doc.tileInfo.lods[i] == S.Lod(lods[i].levelId, lods[i].resolution, lods[i].scale))
    && doc.minScale == lods[0].scale
    && doc.maxScale == lods[|lods| - 1].scale
  }

  /** The document for a cache. Go indexes the first and last LOD without a
      guard, so an empty LOD table panics: callers must supply at least one. */
  function MapServerOf(info: C.CacheInfo, envelope: C.Envelope): (doc: S.MapServer)
    requires |info.tileCacheInfo.lodInfos| > 0
    ensures Describes(doc, info, envelope)
    ensures HasConstantFields(doc)
  {
    var t := info.tileCacheInfo;
    var lods := LodsOf(t.lodInfos);
    var sr := SpatialReferenceOf(info);
    S.MapServer(
      S.CurrentVersion, "", "Layers", "", "", false, [], [],
      sr,
      true,
      S.TileInfo(t.tileRows, t.tileCols, t.dpi, info.tileImageInfo.cacheTileFormat,
                 info.tileImageInfo.compressionQuality, S.Point(t.tileOrigin.x, t.tileOrigin.y), sr, lods),
      ExtentOf(info, envelope),
      ExtentOf(info, envelope),
      lods[0].scale,
      lods[|lods| - 1].scale,
      "esriDecimalDegrees",
      SupportedImageFormatTypes,
      S.DocumentInfo("", "", "", "", "", "None", "Force", ""),
      "Map,Query,Data",
      "JSON, AMF",
      1000, 2048, 2048)
  }

  /** `Describes` and the constants leave no field open: a document that meets
      both is the one `MapServerOf` builds. */
  lemma DescribesDeterminesDocument(doc: S.MapServer, info: C.CacheInfo, envelope: C.Envelope)
    requires |info.tileCacheInfo.lodInfos| > 0
    requires Describes(doc, info, envelope) && HasConstantFields(doc)
    ensures doc == MapServerOf(info, envelope)
  {
    var built := MapServerOf(info, envelope);
    assert doc.tileInfo.lods == built.tileInfo.lods;
    assert doc.tileInfo == built.tileInfo;
  }

  /** The scale range: when the LOD scales fall strictly from the first level
      to the last (each level zooms in), every level's scale lies between
      `maxScale` and `minScale`. */
  lemma ScaleRange(info: C.CacheInfo, envelope: C.Envelope)
    requires |info.tileCacheInfo.lodInfos| > 0
    requires forall i, j :: 0 <= i < j < |info.tileCacheInfo.lodInfos| ==>
      info.tileCacheInfo.lodInfos[i].scale > info.tileCacheInfo.lodInfos[j].scale
    ensures forall lod :: lod in MapServerOf(info, envelope).tileInfo.lods ==>
      MapServerOf(info, envelope).maxScale <= lod.scale <= MapServerOf(info, envelope).minScale
  {
    var doc := MapServerOf(info, envelope);
    var lods := info.tileCacheInfo.lodInfos;
    forall lod | lod in doc.tileInfo.lods
      ensures doc.maxScale <= lod.scale <= doc.minScale
    {
      var i :| 0 <= i < |doc.tileInfo.lods| && doc.tileInfo.lods[i] == lod;
      assert lod.scale == lods[i].scale;
    }
  }

  /** The fixture of two LODs with scales 591657527 and 295828763: both appear
      in order and bound the scale range. */
  lemma TwoLodExample(info: C.CacheInfo, envelope: C.Envelope)
    requires info.tileCacheInfo.lodInfos == [
      C.LODInfo(0, 591657527, C.Float64(0)), C.LODInfo(1, 295828763, C.Float64(0))]
    ensures MapServerOf(info, envelope).minScale == 591657527
    ensures MapServerOf(info, envelope).maxScale == 295828763
    ensures |MapServerOf(info, envelope).tileInfo.lods| == 2
    ensures MapServerOf(info, envelope).tileInfo.lods[0].scale == 591657527
  {
  }
}
