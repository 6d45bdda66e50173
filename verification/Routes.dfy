/** The decisions the HTTP handlers of route_main.go take: which page or
    document a request gets, how a JSONP callback wraps the JSON, and how
    unknown service names and tile-reader failures are answered. Template
    rendering and JSON encoding are parameters or tags; a response is
    described, not written. */
module Routes {
  import opened GoInt
  import opened Bytes
  import opened Errors
  import opened Text
  import opened Disk
  import opened Addressing
  import S = Service
  import Cache
  import BundleV3

  /** What the `f` query parameter selects. */
  datatype Format = Html | Json(pretty: bool) | JsApi | Unknown

  /** `strings.TrimSpace(strings.ToLower(f))`, applied before any comparison. */
  function NormalizeF(f: string): string {
    TrimSpace(ToLower(f))
  }

  /** The format rule of the services directory, on the normalized value. */
  function DirectoryChoice(g: string): Format {
    if g == "" || g == "html" then Html
    else if g == "json" || g == "pjson" then Json(g == "pjson")
    else Unknown
  }

  /** The format rule of a MapServer endpoint: the directory's, plus `jsapi`. */
  function MapServerChoice(g: string): Format {
    if g == "" || g == "html" then Html
    else if g == "json" || g == "pjson" then Json(g == "pjson")
    else if g == "jsapi" then JsApi
    else Unknown
  }

  function DirectoryFormat(f: string): Format {
    DirectoryChoice(NormalizeF(f))
  }

  function MapServerFormat(f: string): Format {
    MapServerChoice(NormalizeF(f))
  }

  /** Case and surrounding white space of `f` never matter: a parameter
      already normalized selects what the raw one does. */
  lemma FormatIgnoresCaseAndSpace(f: string)
    ensures DirectoryFormat(NormalizeF(f)) == DirectoryFormat(f)
    ensures MapServerFormat(NormalizeF(f)) == MapServerFormat(f)
  {
    assert NormalizeF(NormalizeF(f)) == NormalizeF(f) by {
      NormalizeIdempotent(f);
    }
  }

  /** The directory serves HTML for "" and "html", JSON for "json" and
      "pjson" (pretty exactly for "pjson"), and nothing for any other value,
      "jsapi" included. */
  lemma DirectoryFormats(f: string)
    ensures DirectoryFormat(f) == Html <==> NormalizeF(f) == "" || NormalizeF(f) == "html"
    ensures DirectoryFormat(f).Json? <==> NormalizeF(f) == "json" || NormalizeF(f) == "pjson"
    ensures DirectoryFormat(f) == Json(true) <==> NormalizeF(f) == "pjson"
    ensures DirectoryFormat(f) != JsApi
    ensures DirectoryFormat(f) == Unknown <==> NormalizeF(f) !in {"", "html", "json", "pjson"}
  {
  }

  /** A MapServer endpoint agrees with the directory except that "jsapi"
      selects the jsapi page. */
  lemma MapServerFormats(f: string)
    ensures MapServerFormat(f) == (if NormalizeF(f) == "jsapi" then JsApi else DirectoryFormat(f))
    ensures MapServerFormat(f) == Unknown <==> NormalizeF(f) !in {"", "html", "json", "pjson", "jsapi"}
  {
  }

  /** The JSONP body: the trimmed callback name, then the JSON in
      parentheses and `;`; without a callback, the JSON alone. */
  function WrapCallback(callback: string, json: string): string {
    var cb := TrimSpace(callback);
    if cb == "" then json else cb + "(" + json + ");"
  }

  /** The client's side of the wrapping: drop the callback name and `(`
      before the JSON and `);` after it. */
  function UnwrapCallback(callback: string, body: string): string {
    var cb := TrimSpace(callback);
    if cb == "" || |body| < |cb| + 3 then body else body[|cb| + 1..|body| - 2]
  }

  /** Unwrapping gives the JSON back, and the wrapped body is the callback
      name, `(`, the JSON, `);` and nothing else. */
  lemma CallbackRoundTrip(callback: string, json: string)
    ensures UnwrapCallback(callback, WrapCallback(callback, json)) == json
    ensures TrimSpace(callback) == "" ==> WrapCallback(callback, json) == json
    ensures TrimSpace(callback) != "" ==>
      var cb := TrimSpace(callback);
      var body := WrapCallback(callback, json);
      && |body| == |cb| + |json| + 3
      && body[..|cb|] == cb && body[|cb|] == '('
      && body[|cb| + 1..|cb| + 1 + |json|] == json
      && body[|body| - 2..] == ");"
  {
    var cb := TrimSpace(callback);
    if cb != "" {
      var body := cb + "(" + json + ");";
      assert body[|cb| + 1..|body| - 2] == json;
      assert body[|cb| + 1..|cb| + 1 + |json|] == json;
    }
  }

  /** Different JSON documents stay different once wrapped. */
  lemma WrapInjective(callback: string, json1: string, json2: string)
    requires WrapCallback(callback, json1) == WrapCallback(callback, json2)
    ensures json1 == json2
  {
    CallbackRoundTrip(callback, json1);
    CallbackRoundTrip(callback, json2);
  }

  /** `names` is one pass of Go's `range` over a map with key set `keys`:
      every key once, in whatever order the pass took. */
  ghost predicate Enumerates(names: seq<string>, keys: set<string>) {
    && (forall i, j :: 0 <= i < j < |names| ==> names[i] != names[j])
    && (forall n :: n in names <==> n in keys)
  }

  /** `getServicesDirectoryJSONString` before encoding: one `MapServer`
      entry per name, in the order given. */
  function ServicesDirectoryOf(names: seq<string>): S.ServicesDirectory {
    S.ServicesDirectory(
      S.CurrentVersion,
      [],
      seq(|names|, i requires 0 <= i < |names| => S.ServiceEntry(names[i], "MapServer")))
  }

  /** The directory lists every registered service exactly once, each as a
      MapServer, and no folders. */
  lemma DirectoryListsEachServiceOnce(names: seq<string>, keys: set<string>)
    requires Enumerates(names, keys)
    ensures ServicesDirectoryOf(names).folders == []
    ensures ServicesDirectoryOf(names).currentVersion == S.CurrentVersion
    ensures |ServicesDirectoryOf(names).services| == |keys|
    ensures forall n :: n in keys <==> S.ServiceEntry(n, "MapServer") in ServicesDirectoryOf(names).services
    ensures forall e :: e in ServicesDirectoryOf(names).services ==> e.kind == "MapServer" && e.name in keys
    ensures forall i, j :: 0 <= i < j < |ServicesDirectoryOf(names).services| ==>
      ServicesDirectoryOf(names).services[i].name != ServicesDirectoryOf(names).services[j].name
  {
    var services := ServicesDirectoryOf(names).services;
    DistinctCount(names);
    assert (set n | n in names) == keys;
    forall n | n in keys
      ensures S.ServiceEntry(n, "MapServer") in services
    {
      var i :| 0 <= i < |names| && names[i] == n;
      assert services[i] == S.ServiceEntry(n, "MapServer");
    }
  }

  /** Whatever order the map is ranged in, the directory lists the same
      entries. */
  lemma DirectoryOrderIrrelevant(names1: seq<string>, names2: seq<string>, keys: set<string>)
    requires Enumerates(names1, keys) && Enumerates(names2, keys)
    ensures forall e :: e in ServicesDirectoryOf(names1).services <==> e in ServicesDirectoryOf(names2).services
  {
    DirectoryListsEachServiceOnce(names1, keys);
    DirectoryListsEachServiceOnce(names2, keys);
  }

  /** A sequence without repetitions has as many distinct elements as it is
      long. */
  lemma {:induction false} DistinctCount<T>(s: seq<T>)
    requires forall i, j :: 0 <= i < j < |s| ==> s[i] != s[j]
    ensures |set x | x in s| == |s|
    decreases |s|
  {
    if |s| > 0 {
      var front := s[..|s| - 1];
      DistinctCount(front);
      assert (set x | x in s) == (set x | x in front) + {s[|s| - 1]};
      assert s[|s| - 1] !in front;
    }
  }

  /** What a template is rendered with. */
  datatype TemplateData =
    | Caches                                  // the registered caches
    | ServiceName(name: string)
    | ErrorInfo(message: string, code: int)   // service.Error

  /** What a handler answers. `Aborted` is a handler that panicked: the
      server drops the response. */
  datatype Response =
    | Redirect(location: string)
    | Rendered(status: nat, template: string, data: TemplateData)
    | JsonWritten(json: string)
    | ImageWritten(contentType: string, bytes: seq<byte>)
    | NotFound
    | Aborted

  /** The status line of a response that was sent. */
  function Status(r: Response): nat
    requires !r.Aborted?
  {
    match r
    case Redirect(_) => 302
    case Rendered(status, _, _) => status
    case JsonWritten(_) => 200
    case ImageWritten(_, _) => 200
    case NotFound => 404
  }

  /** The error message, "format not supported". */
  const UnsupportedFormatMessage := "\U{4E0D}\U{652F}\U{6301}\U{6B64}\U{683C}\U{5F0F}"

  const BadFormat := Rendered(400, "error", ErrorInfo(UnsupportedFormatMessage, 400))

  /** `RootHandler`: a 302 to the services directory. */
  function RootHandler(): (r: Response)
    ensures r.Redirect? && Status(r) == 302 && r.location == "/rest/services"
  {
    Redirect("/rest/services")
  }

  /** `ServicesDirectoryHandler`; `encode` is `json.Marshal` (pretty: false)
      or `json.MarshalIndent` (pretty: true). */
  function ServicesDirectoryHandler(
    names: seq<string>, f: string, callback: string, encode: (S.ServicesDirectory, bool) -> string): (r: Response)
    ensures r.Rendered? || r.JsonWritten?
    ensures r == BadFormat <==> DirectoryFormat(f) == Unknown
    ensures r.JsonWritten? <==> DirectoryFormat(f).Json?
  {
    match DirectoryFormat(f)
    case Html => Rendered(200, "servicesDirectory", Caches)
    case Json(pretty) => JsonWritten(WrapCallback(callback, encode(ServicesDirectoryOf(names), pretty)))
    case JsApi => BadFormat
    case Unknown => BadFormat
  }

  /** The directory's JSON answer is the encoded directory, compact for
      "json" and indented for "pjson", inside `cb(` and `);` when the
      trimmed callback `cb` is not empty. */
  lemma DirectoryJsonBody(names: seq<string>, f: string, callback: string, encode: (S.ServicesDirectory, bool) -> string)
    requires NormalizeF(f) == "json" || NormalizeF(f) == "pjson"
    ensures
      var json := encode(ServicesDirectoryOf(names), NormalizeF(f) == "pjson");
      ServicesDirectoryHandler(names, f, callback, encode)
      == JsonWritten(if TrimSpace(callback) == "" then json else TrimSpace(callback) + "(" + json + ");")
  {
    DirectoryFormats(f);
  }

  /** A 10.3 cache whose LOD table is empty: building its document panics. */
  predicate NoLods(cache: Cache.Cache) {
    cache.V3? && |cache.info.tileCacheInfo.lodInfos| == 0
  }

  /** `GetMapServerJSONString` of a cache, wrapped in the callback. A 10.3
      cache builds its MapServer document, which panics on an empty LOD
      table, and `encode` encodes it. The 10.1 reader defines no such method;
      `encodeV1` stands for whatever it would answer. */
  function MapServerJson(
    cache: Cache.Cache, pretty: bool, callback: string,
    encode: (S.MapServer, bool) -> string, encodeV1: (Cache.Cache, bool) -> string): (r: Response)
    ensures r.Aborted? || r.JsonWritten?
    ensures r.Aborted? <==> NoLods(cache)
  {
    match cache
    case V1(_, _) => JsonWritten(WrapCallback(callback, encodeV1(cache, pretty)))
    case V3(_, info, envelope) =>
      var doc := Cache.MapServerDocument(info, envelope);
      if doc.Err? then Aborted else JsonWritten(WrapCallback(callback, encode(doc.value, pretty)))
  }

  /** `ArcgisCacheMapServerHandler`. */
  function MapServerHandler(
    caches: map<string, Cache.Cache>, name: string, f: string, callback: string,
    encode: (S.MapServer, bool) -> string, encodeV1: (Cache.Cache, bool) -> string): (r: Response)
    ensures r.Rendered? || r.JsonWritten? || r.NotFound? || r.Aborted?
    ensures r.NotFound? <==> name !in caches
    ensures r == BadFormat <==> name in caches && MapServerFormat(f) == Unknown
    ensures r.Rendered? && r.template == "jsapi" <==> name in caches && MapServerFormat(f) == JsApi
    ensures r.Aborted? <==> name in caches && MapServerFormat(f).Json? && NoLods(caches[name])
    ensures r.JsonWritten? <==> name in caches && MapServerFormat(f).Json? && !NoLods(caches[name])
  {
    if name !in caches then NotFound
    else
      match MapServerFormat(f)
      case Html => Rendered(200, "mapServer", ServiceName(name))
      case Json(pretty) => MapServerJson(caches[name], pretty, callback, encode, encodeV1)
      case JsApi => Rendered(200, "jsapi", ServiceName(name))
      case Unknown => BadFormat
  }

  /** A registered service's JSON answer: for a 10.3 cache with LODs, its
      MapServer document encoded compact for "json" and indented for
      "pjson"; with no LODs, the panic. Inside `cb(` and `);` when the
      trimmed callback `cb` is not empty. */
  lemma MapServerJsonBody(
    caches: map<string, Cache.Cache>, name: string, f: string, callback: string,
    encode: (S.MapServer, bool) -> string, encodeV1: (Cache.Cache, bool) -> string)
    requires name in caches
    requires NormalizeF(f) == "json" || NormalizeF(f) == "pjson"
    ensures NoLods(caches[name]) ==> MapServerHandler(caches, name, f, callback, encode, encodeV1) == Aborted
    ensures caches[name].V3? && !NoLods(caches[name]) ==>
      var doc := Cache.MapServerDocument(caches[name].info, caches[name].envelope);
      var json := encode(doc.value, NormalizeF(f) == "pjson");
      && doc.Ok?
      && MapServerHandler(caches, name, f, callback, encode, encodeV1)
         == JsonWritten(if TrimSpace(callback) == "" then json else TrimSpace(callback) + "(" + json + ");")
    ensures caches[name].V1? ==>
      var json := encodeV1(caches[name], NormalizeF(f) == "pjson");
      MapServerHandler(caches, name, f, callback, encode, encodeV1)
      == JsonWritten(if TrimSpace(callback) == "" then json else TrimSpace(callback) + "(" + json + ");")
  {
    MapServerFormats(f);
    DirectoryFormats(f);
  }

  /** `ArcgisCacheTileHandler`: the tile's bytes under the content type
      `image/` + the cache's tile format. A reader error is dropped and
      leaves the body empty; a panic of the reader aborts the response. */
  function TileHandler(disk: Disk, caches: map<string, Cache.Cache>, name: string, level: uint63, row: uint63, col: uint63): (r: Response)
    ensures r.NotFound? || r.Aborted? || r.ImageWritten?
    ensures r.NotFound? <==> name !in caches
    ensures r.Aborted? <==> name in caches && caches[name].info.cacheStorageInfo.packetSize == 0
    ensures r.ImageWritten? ==>
      var tile := Cache.TileBytes(disk, caches[name], level, row, col);
      && r.contentType == "image/" + Cache.TileFormat(caches[name])
      && (tile.Ok? ==> r.bytes == tile.value)
      && (tile.Err? ==> r.bytes == [])
  {
    if name !in caches then NotFound
    else
      var cache := caches[name];
      var tile := Cache.TileBytes(disk, cache, level, row, col);
      if tile.Err? && IsPanic(tile.error) then Aborted
      else ImageWritten("image/" + Cache.TileFormat(cache), if tile.Ok? then tile.value else [])
  }

  /** End to end: a registered 10.3 cache whose block bundle holds the
      block's tiles row by row serves each tile's own payload, typed by the
      lower-cased tile format. */
  lemma ServesWrittenTile(
    disk: Disk, caches: map<string, Cache.Cache>, name: string, level: uint63, row: uint63, col: uint63,
    header: seq<byte>, payloads: seq<seq<byte>>, filler: seq<byte>)
    requires name in caches && caches[name].V3?
    requires 0 < caches[name].info.cacheStorageInfo.packetSize <= MaxPacket
    requires
      var p := caches[name].info.cacheStorageInfo.packetSize;
      && |payloads| == p * p && |header| == BundleV3.HeaderSize && |filler| == 4
      && BundleV3.Indexable(header, payloads) && ReadWhole(payloads)
      && BundlePath(BundleV3.BlockStem(caches[name].path, p, level, row, col)) in disk.files
      && disk.files[BundlePath(BundleV3.BlockStem(caches[name].path, p, level, row, col))]
         == BundleV3.WriteBundle(header, payloads, filler)
    ensures
      var p := caches[name].info.cacheStorageInfo.packetSize;
      && 0 <= RecordNumberV3(p, row, col) < |payloads|
      && TileHandler(disk, caches, name, level, row, col)
         == ImageWritten("image/" + Cache.TileFormat(caches[name]), payloads[RecordNumberV3(p, row, col)])
  {
    var cache := caches[name];
    BundleV3.WrittenBlockReadsBack(
      disk, cache.path, cache.info.cacheStorageInfo.packetSize, level, row, col, header, payloads, filler);
  }
}
