/**
 The request handler of the stores' HTTP namespace: which requests it claims,
 how it routes OPTIONS, POST and GET, and what it answers. `Decide` gives the
 outcome of one request; the lemmas after it state the routing table.
 */
module Router {
  import opened Wrappers
  import opened Text
  import opened Http
  import opened Upload
  import opened Paths
  import opened Download

  /** The configured path of the stores' namespace, `UploadFS.config.storesPath`. */
  datatype Config = Config(storesPath: string)

  /**
   What the handler reads of a request: its method, its URL, the parsed
   `progress` query parameter, and the `Range` and `Accept-Encoding` headers
   (None when the header is not a string).
   */
  datatype Request = Request(
    httpMethod: string,
    url: string,
    progress: Float,
    range: Option<string>,
    acceptEncoding: Option<string>)

  /** How the handler disposes of a request. */
  datatype Outcome =
    | Next(headers: Headers)               // `next()` is called, after `headers` were set on the response
    | Reply(status: int, headers: Headers) // `writeHead(status)` and `end()`, with `headers` set before
    | StartUpload(store: string, fileId: string, fields: UpdateFields, headers: Headers)
    | StartDownload(store: string, fileId: string, delivery: Delivery)

  /** The URL names the stores' namespace somewhere, query included. */
  ghost predicate Mentions(url: string, storesPath: string) {
    exists j: nat :: OccursAt(url, storesPath, j)
  }

  /** The outcome of the handler for `req`, with `stores` the registered stores by name. */
  function Decide(cfg: Config, stores: map<string, Store>, req: Request): (o: Outcome)
    ensures IndexOf(req.url, cfg.storesPath) == -1 ==> o == Next(map[])
    ensures o.Reply? ==> o.status == 400 || o.status == 404 || o.status == 500
    ensures o.Reply? && o.status == 400 ==> req.httpMethod == "OPTIONS" || req.httpMethod == "POST"
    ensures o.Reply? && o.status == 500 ==> req.httpMethod == "GET"
    ensures o.Next? ==> o.headers == map[] || (req.httpMethod == "OPTIONS" && o.headers == CorsHeaders)
    ensures o.StartUpload? ==>
      && req.httpMethod == "POST" && o.store in stores && o.fileId in stores[o.store].files
      && o.fields == Fields(req.progress) && o.headers == CorsHeaders
    ensures o.StartDownload? ==>
      req.httpMethod == "GET" && o.store in stores && o.fileId in stores[o.store].files && '.' !in o.fileId
  {
    if IndexOf(req.url, cfg.storesPath) == -1 then Next(map[])
    else
      var path := RoutedPath(cfg.storesPath, req.url);
      if req.httpMethod == "OPTIONS" then
        match MatchStoreFile(path)
        case None => Reply(400, map[])
        case Some((name, _)) =>
          if name !in stores then Reply(404, map[]) else Next(CorsHeaders)
      else if req.httpMethod == "POST" then
        match MatchStoreFile(path)
        case None => Reply(400, map[])
        case Some((name, fileId)) =>
          if name !in stores then Reply(404, map[])
          else if fileId !in stores[name].files then Reply(404, CorsHeaders)
          else StartUpload(name, fileId, Fields(req.progress), CorsHeaders)
      else if req.httpMethod == "GET" then
        match MatchDownload(path)
        case None => Next(map[])
        case Some(m) =>
          if m.store !in stores then Reply(404, map[])
          else
            var store := stores[m.store];
            if MisconfiguredHook(store.onRead) then Reply(500, map[])
            else
              var fileId := FileIdOf(m.idSegment);
              if fileId !in store.files then Reply(404, map[])
              else StartDownload(m.store, fileId, Deliver(store, fileId, store.files[fileId], req.range, req.acceptEncoding))
      else Next(map[])
  }

  lemma MentionsIffFound(url: string, storesPath: string)
    ensures Mentions(url, storesPath) <==> IndexOf(url, storesPath) != -1
  {
    var i := IndexOf(url, storesPath);
    if i != -1 {
      assert OccursAt(url, storesPath, i);
    }
  }

  /**
   The handler passes a request on untouched exactly when its URL does not
   mention the stores' path, its method is not OPTIONS, POST or GET, or it is a
   GET whose path is outside the GET pattern's language.
   */
  lemma {:induction false} PassThroughExactly(cfg: Config, stores: map<string, Store>, req: Request)
    ensures Decide(cfg, stores, req) == Next(map[]) <==>
      || !Mentions(req.url, cfg.storesPath)
      || (req.httpMethod != "OPTIONS" && req.httpMethod != "POST" && req.httpMethod != "GET")
      || (req.httpMethod == "GET" &&
          forall s, i, n :: !IsDownloadPath(RoutedPath(cfg.storesPath, req.url), s, i, n))
  {
    MentionsIffFound(req.url, cfg.storesPath);
    var path := RoutedPath(cfg.storesPath, req.url);
    if req.httpMethod == "GET" && MatchDownload(path).None? {
      forall s, i, n ensures !IsDownloadPath(path, s, i, n) {
        if IsDownloadPath(path, s, i, n) {
          MatchDownloadComplete(path, s, i, n);
        }
      }
    }
    assert CorsHeaders != map[] by {
      assert "Access-Control-Allow-Origin" in CorsHeaders;
    }
  }

  /**
   OPTIONS and POST on a claimed URL give 400 exactly when the path is outside
   the language of their pattern, whatever stores are registered.
   */
  lemma {:induction false} MalformedPathIs400(cfg: Config, stores: map<string, Store>, req: Request)
    requires Mentions(req.url, cfg.storesPath)
    requires req.httpMethod == "OPTIONS" || req.httpMethod == "POST"
    ensures Decide(cfg, stores, req) == Reply(400, map[]) <==>
      forall s, i :: !IsStoreFilePath(RoutedPath(cfg.storesPath, req.url), s, i)
  {
    MentionsIffFound(req.url, cfg.storesPath);
    var path := RoutedPath(cfg.storesPath, req.url);
    if MatchStoreFile(path).None? {
      forall s, i ensures !IsStoreFilePath(path, s, i) {
        if IsStoreFilePath(path, s, i) {
          MatchStoreFileComplete(path, s, i);
        }
      }
    }
  }

  /** A store name that is not registered gives 404, for OPTIONS, POST and GET alike. */
  lemma {:induction false} UnknownStoreIs404(cfg: Config, stores: map<string, Store>, req: Request, s: string, i: string, n: Option<string>)
    requires Mentions(req.url, cfg.storesPath) && s !in stores
    requires
      || ((req.httpMethod == "OPTIONS" || req.httpMethod == "POST") && IsStoreFilePath(RoutedPath(cfg.storesPath, req.url), s, i))
      || (req.httpMethod == "GET" && IsDownloadPath(RoutedPath(cfg.storesPath, req.url), s, i, n))
    ensures Decide(cfg, stores, req) == Reply(404, map[])
  {
    MentionsIffFound(req.url, cfg.storesPath);
    var path := RoutedPath(cfg.storesPath, req.url);
    if req.httpMethod == "GET" {
      MatchDownloadComplete(path, s, i, n);
    } else {
      MatchStoreFileComplete(path, s, i);
    }
  }

  /** OPTIONS on a registered store sets the three CORS headers and passes the request on. */
  lemma {:induction false} PreflightOnKnownStore(cfg: Config, stores: map<string, Store>, req: Request, s: string, i: string)
    requires Mentions(req.url, cfg.storesPath) && req.httpMethod == "OPTIONS"
    requires IsStoreFilePath(RoutedPath(cfg.storesPath, req.url), s, i) && s in stores
    ensures Decide(cfg, stores, req) == Next(CorsHeaders)
  {
    MentionsIffFound(req.url, cfg.storesPath);
    MatchStoreFileComplete(RoutedPath(cfg.storesPath, req.url), s, i);
  }

  /**
   POST on a registered store: an unknown file gives 404 with the CORS headers
   already set; a known one starts the upload of exactly that file, with
   `uploading` set and a progress in (0, 1] when one is stored.
   */
  lemma {:induction false} PostOnKnownStore(cfg: Config, stores: map<string, Store>, req: Request, s: string, i: string)
    requires Mentions(req.url, cfg.storesPath) && req.httpMethod == "POST"
    requires IsStoreFilePath(RoutedPath(cfg.storesPath, req.url), s, i) && s in stores
    ensures i !in stores[s].files ==> Decide(cfg, stores, req) == Reply(404, CorsHeaders)
    ensures i in stores[s].files ==>
      && Decide(cfg, stores, req) == StartUpload(s, i, Fields(req.progress), CorsHeaders)
      && Fields(req.progress).uploading
      && (Fields(req.progress).progress.Some? ==> 0.0 < Fields(req.progress).progress.value <= 1.0)
  {
    MentionsIffFound(req.url, cfg.storesPath);
    MatchStoreFileComplete(RoutedPath(cfg.storesPath, req.url), s, i);
  }

  /**
   GET on a registered store: an `onRead` that is set but not a function gives
   500; otherwise the file id is the id segment cut at its first `.`, an
   unknown id gives 404, and a known one is delivered, refused outright when
   the hook returns `false`.
   */
  lemma {:induction false} GetOnKnownStore(cfg: Config, stores: map<string, Store>, req: Request, s: string, seg: string, n: Option<string>)
    requires Mentions(req.url, cfg.storesPath) && req.httpMethod == "GET"
    requires IsDownloadPath(RoutedPath(cfg.storesPath, req.url), s, seg, n) && s in stores
    ensures MisconfiguredHook(stores[s].onRead) ==> Decide(cfg, stores, req) == Reply(500, map[])
    ensures !MisconfiguredHook(stores[s].onRead) && FileIdOf(seg) !in stores[s].files ==>
      Decide(cfg, stores, req) == Reply(404, map[])
    ensures !MisconfiguredHook(stores[s].onRead) && FileIdOf(seg) in stores[s].files ==>
      var store, fileId := stores[s], FileIdOf(seg);
      && Decide(cfg, stores, req) == StartDownload(s, fileId, Deliver(store, fileId, store.files[fileId], req.range, req.acceptEncoding))
      && (store.onRead.Callable? && store.onRead.returnsFalse(fileId, store.files[fileId]) ==>
            Decide(cfg, stores, req).delivery == Refused)
  {
    MentionsIffFound(req.url, cfg.storesPath);
    MatchDownloadComplete(RoutedPath(cfg.storesPath, req.url), s, seg, n);
  }
}
