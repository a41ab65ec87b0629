/**
 The download pipeline of a GET once the store and the file record are known:
 the store's read-authorization hook, the status and headers computed from the
 `Range` header, the store's transform hook, the choice of a content coding
 and the guard before an uncompressed send.
 */
module Download {
  import opened Wrappers
  import opened Numbers
  import opened Http
  import opened Encodings
  import opened Ranges

  /** The catalog entry of a file: its declared content type and size. */
  datatype FileRecord = FileRecord(contentType: string, size: nat)

  /** The store's `onRead` property. */
  datatype ReadHook =
    | NoHook                                                // null or undefined
    | NotCallable                                           // set, but not a function
    | Callable(returnsFalse: (string, FileRecord) -> bool)  // a function; says whether a call returns exactly `false`

  /**
   What the handler uses of a store: its `onRead` hook, its catalog of records
   by file id, and the header changes its `transformRead` hook makes to the
   `headers` object it is handed.
   */
  datatype Store = Store(
    onRead: ReadHook,
    files: map<string, FileRecord>,
    transformRead: (string, FileRecord, Headers) -> Headers)

  /** The configuration error reported with 500: an `onRead` that is set but not a function. */
  predicate MisconfiguredHook(h: ReadHook) {
    h.NotCallable?
  }

  /** The options handed to the store's read stream. */
  datatype ReadOptions = AllBytes | Between(start: Num, end: Num)

  /** How a download ends. */
  datatype Delivery =
    | Refused        // the hook returned `false`: the response is ended with no status line of its own
    | Reject416      // 416 and an empty body
    | Send(status: int, headers: Headers, encoding: Encoding, options: ReadOptions)
    | Stalled        // the headers name a content coding that was not applied: nothing is written

  /** What the call of `onRead` does as the code is written. */
  datatype GateAsWritten = Proceed | Deny | Throws

  /**
   `store.onRead.call(store, fileId, file, req, res) !== false` as written: a
   missing hook has no `call`, so the expression throws.
   */
  function ReadGateAsWritten(hook: ReadHook, fileId: string, file: FileRecord): (g: GateAsWritten)
    ensures g == Throws <==> !hook.Callable?
  {
    match hook
    case Callable(returnsFalse) => if returnsFalse(fileId, file) then Deny else Proceed
    case _ => Throws
  }

  /** The guard against a misconfigured hook lets a missing hook through, and calling it then throws. */
  lemma MissingHookPassesGuardThenThrows(fileId: string, file: FileRecord)
    ensures !MisconfiguredHook(NoHook)
    ensures ReadGateAsWritten(NoHook, fileId, file) == Throws
  {
  }

  /**
   Whether the file may be read: a missing hook allows every read, and a
   function allows it unless it returns exactly `false`.
   */
  function ReadAllowed(hook: ReadHook, fileId: string, file: FileRecord): (allowed: bool)
    requires !MisconfiguredHook(hook)
    ensures hook.NoHook? ==> allowed
    ensures hook.Callable? ==> (allowed <==> ReadGateAsWritten(hook, fileId, file) == Proceed)
    ensures !allowed <==> ReadGateAsWritten(hook, fileId, file) == Deny
  {
    match hook
    case NoHook => true
    case Callable(returnsFalse) => !returnsFalse(fileId, file)
  }

  /** The status, headers and read options settled before the transform hook runs, or a 416. */
  datatype Prepared = RangeNotSatisfiable | Ready(status: int, headers: Headers, options: ReadOptions)

  /** The status, headers and read options of a download of `file` under the `Range` header `range`. */
  function Prepare(file: FileRecord, range: Option<string>): (p: Prepared)
    ensures p.RangeNotSatisfiable? <==> range == Some("")
    ensures p.Ready? ==> (p.status == 200 <==> range.None?) && (p.status == 206 <==> range.Some?)
    ensures p.Ready? ==> "Content-Type" in p.headers && p.headers["Content-Type"] == Text(file.contentType)
    ensures p.Ready? ==> "Content-Length" in p.headers
    ensures p.Ready? ==> (p.options == AllBytes <==> range.None?)
    ensures p.Ready? && range.Some? ==> "Content-Range" in p.headers && "Accept-Ranges" in p.headers && p.headers["Accept-Ranges"] == Text("bytes")
  {
    var base := BaseHeaders(file.contentType, file.size);
    match ParseRange(range, file.size)
    case Whole => Ready(200, base, AllBytes)
    case Unsatisfiable => RangeNotSatisfiable
    case Bounds(start, end) => Ready(206, WithRange(base, start, end, file.size), Between(start, end))
  }

  /**
   The response once the coding is chosen: a compressed response names its
   coding and drops `Content-Length`; an uncompressed one is sent with the
   headers as they are, unless they already name a content coding.
   */
  function Finalize(status: int, h: Headers, encoding: Encoding, options: ReadOptions): (d: Delivery)
    ensures encoding != Identity ==>
      && d.Send? && d.status == status && d.encoding == encoding && d.options == options
      && d.headers.Keys == h.Keys - {"Content-Length"} + {"Content-Encoding"}
      && d.headers["Content-Encoding"] == Text(Token(encoding))
      && forall k :: k in h && k != "Content-Length" && k != "Content-Encoding" ==> d.headers[k] == h[k]
    ensures encoding == Identity ==>
      && (d == Stalled <==> IsSet(h, "Content-Encoding"))
      && (d != Stalled ==> d == Send(status, h, Identity, options))
  {
    if encoding != Identity then
      Send(status, h["Content-Encoding" := Text(Token(encoding))] - {"Content-Length"}, encoding, options)
    else if IsSet(h, "Content-Encoding") then Stalled
    else Send(status, h, Identity, options)
  }

  /** The download of `fileId` from `store`, given the request's `Range` and `Accept-Encoding` headers. */
  function Deliver(store: Store, fileId: string, file: FileRecord, range: Option<string>, acceptEncoding: Option<string>): (d: Delivery)
    requires !MisconfiguredHook(store.onRead)
    ensures d == Refused <==> !ReadAllowed(store.onRead, fileId, file)
    ensures d == Reject416 <==> ReadAllowed(store.onRead, fileId, file) && range == Some("")
    ensures d.Send? ==> d.encoding == Negotiate(acceptEncoding, file.contentType)
    ensures d.Send? ==> (d.status == 200 <==> range.None?) && (d.status == 206 <==> range.Some?)
    ensures d.Send? && d.encoding != Identity ==>
      "Content-Length" !in d.headers && "Content-Encoding" in d.headers && d.headers["Content-Encoding"] == Text(Token(d.encoding))
    ensures d == Stalled ==> Negotiate(acceptEncoding, file.contentType) == Identity
  {
    if !ReadAllowed(store.onRead, fileId, file) then Refused
    else match Prepare(file, range)
      case RangeNotSatisfiable => Reject416
      case Ready(status, h, options) =>
        Finalize(status, store.transformRead(fileId, file, h), Negotiate(acceptEncoding, file.contentType), options)
  }

  /**
   The pipeline as the handler runs it: one `headers` object, changed in place
   by the range step, by the transform hook and by the coding step.
   */
  method Serve(store: Store, fileId: string, file: FileRecord, range: Option<string>, acceptEncoding: Option<string>)
    returns (d: Delivery)
    requires !MisconfiguredHook(store.onRead)
    ensures d == Deliver(store, fileId, file, range, acceptEncoding)
  {
    if !ReadAllowed(store.onRead, fileId, file) {
      return Refused;
    }
    var status := 200;
    var options := AllBytes;
    var headers := new HeaderMap(BaseHeaders(file.contentType, file.size));
    match ParseRange(range, file.size) {
      case Whole =>
      case Unsatisfiable =>
        return Reject416;
      case Bounds(start, end) =>
        headers.Set("Content-Range", Text(ContentRange(start, end, file.size)));
        headers.Set("Accept-Ranges", Text("bytes"));
        headers.Set("Content-Length", Number(PartialLength(start, end)));
        status := 206;
        options := Between(start, end);
    }
    headers.Replace(store.transformRead(fileId, file, headers.entries));
    var encoding := Negotiate(acceptEncoding, file.contentType);
    if encoding != Identity {
      headers.Set("Content-Encoding", Text(Token(encoding)));
      headers.Delete("Content-Length");
      return Send(status, headers.entries, encoding, options);
    }
    var encoded := headers.Has("Content-Encoding");
    if !encoded {
      return Send(status, headers.entries, Identity, options);
    }
    return Stalled;
  }

  /** Without a `Range` header: status 200, the declared size as `Content-Length`, the whole file read. */
  lemma WholeFile(file: FileRecord)
    ensures Prepare(file, None) == Ready(200, BaseHeaders(file.contentType, file.size), AllBytes)
    ensures BaseHeaders(file.contentType, file.size)["Content-Length"] == Number(Int(file.size))
  {
  }

  /**
   Any other `Range` header gives 206 with `Content-Range: bytes s-e/size`,
   `Accept-Ranges: bytes` and `Content-Length: e - s + 1`, and the stream is
   asked for bytes s to e; no check relates s and e to the size.
   */
  lemma {:induction false} PartialFile(file: FileRecord, s: nat, e: nat)
    ensures Prepare(file, Some("bytes=" + ShowNat(s) + "-" + ShowNat(e))) ==
      Ready(206, map[
        "Content-Type" := Text(file.contentType),
        "Content-Length" := Number(Int(e - s + 1)),
        "Content-Range" := Text("bytes " + ShowNat(s) + "-" + ShowNat(e) + "/" + ShowNat(file.size)),
        "Accept-Ranges" := Text("bytes")], Between(Int(s), Int(e)))
  {
    ClosedRange(s, e, file.size);
    var h := WithRange(BaseHeaders(file.contentType, file.size), Int(s), Int(e), file.size);
    var expected := map[
        "Content-Type" := Text(file.contentType),
        "Content-Length" := Number(Int(e - s + 1)),
        "Content-Range" := Text("bytes " + ShowNat(s) + "-" + ShowNat(e) + "/" + ShowNat(file.size)),
        "Accept-Ranges" := Text("bytes")];
    ContentRangeOfNats(s, e, file.size);
    assert h.Keys == expected.Keys;
    assert forall k :: k in h ==> h[k] == expected[k];
  }

  /** A range without an end runs to the last byte of the file. */
  lemma {:induction false} PartialToEnd(file: FileRecord, s: nat)
    ensures Prepare(file, Some("bytes=" + ShowNat(s) + "-")).options == Between(Int(s), Int(file.size - 1))
    ensures Prepare(file, Some("bytes=" + ShowNat(s) + "-")).headers["Content-Length"] == Number(Int(file.size - s))
  {
    OpenRange(s, file.size);
  }

  /** A file of size 100 with an identity transform, asked for without `Range` and `Accept-Encoding`. */
  lemma WholeDownloadExample(store: Store, fileId: string, file: FileRecord)
    requires !MisconfiguredHook(store.onRead) && ReadAllowed(store.onRead, fileId, file)
    requires forall h :: store.transformRead(fileId, file, h) == h
    requires file.size == 100
    ensures Deliver(store, fileId, file, None, None) ==
      Send(200, map["Content-Type" := Text(file.contentType), "Content-Length" := Number(Int(100))], Identity, AllBytes)
  {
    var base := BaseHeaders(file.contentType, file.size);
    assert store.transformRead(fileId, file, base) == base;
    assert !IsSet(base, "Content-Encoding");
  }

  /** `Range: bytes=10-19` on a file of size 100 asks for ten bytes. */
  lemma {:induction false} RangeHeadersExample(file: FileRecord)
    requires file.size == 100
    ensures Prepare(file, Some("bytes=10-19")) ==
      Ready(206, map[
        "Content-Type" := Text(file.contentType),
        "Content-Length" := Number(Int(10)),
        "Content-Range" := Text("bytes 10-19/100"),
        "Accept-Ranges" := Text("bytes")], Between(Int(10), Int(19)))
  {
    ShowNatExamples();
    assert "bytes=10-19" == "bytes=" + ShowNat(10) + "-" + ShowNat(19);
    assert "bytes 10-19/100" == "bytes " + ShowNat(10) + "-" + ShowNat(19) + "/" + ShowNat(100);
    PartialFile(file, 10, 19);
  }

  /** With an identity transform and no `Accept-Encoding`, what was prepared is what is sent. */
  lemma PreparedIsSent(store: Store, fileId: string, file: FileRecord, range: Option<string>)
    requires !MisconfiguredHook(store.onRead) && ReadAllowed(store.onRead, fileId, file)
    requires forall h :: store.transformRead(fileId, file, h) == h
    requires Prepare(file, range).Ready? && "Content-Encoding" !in Prepare(file, range).headers
    ensures Deliver(store, fileId, file, range, None) ==
      Send(Prepare(file, range).status, Prepare(file, range).headers, Identity, Prepare(file, range).options)
  {
    var p := Prepare(file, range);
    assert store.transformRead(fileId, file, p.headers) == p.headers;
  }

  /** The same file asked for with `Range: bytes=10-19`. */
  lemma RangeDownloadExample(store: Store, fileId: string, file: FileRecord)
    requires !MisconfiguredHook(store.onRead) && ReadAllowed(store.onRead, fileId, file)
    requires forall h :: store.transformRead(fileId, file, h) == h
    requires file.size == 100
    ensures Deliver(store, fileId, file, Some("bytes=10-19"), None) ==
      Send(206, map[
        "Content-Type" := Text(file.contentType),
        "Content-Length" := Number(Int(10)),
        "Content-Range" := Text("bytes 10-19/100"),
        "Accept-Ranges" := Text("bytes")], Identity, Between(Int(10), Int(19)))
  {
    RangeHeadersExample(file);
    PreparedIsSent(store, fileId, file, Some("bytes=10-19"));
  }
}
