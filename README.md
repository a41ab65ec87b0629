# UploadFS request handler, modelled in Dafny

This project models the HTTP request handler of UploadFS (`ufs-server.js`),
the gateway that routes file uploads and downloads to named stores. The model
covers the handler's decisions:

- which requests it claims: those whose URL mentions the stores path;
- how it strips that path and matches the rest against the OPTIONS/POST
  pattern `/{store}/{id}` and the GET pattern `/{store}/{id}[/{name}]`;
- which status or pass-through each method and lookup leads to;
- the progress field of the record update;
- the status and headers built from the `Range` header;
- the choice of gzip or deflate from `Accept-Encoding`;
- the guard before an uncompressed send;
- the event sequence of an upload that appends the request body to a
  temporary file.

Modules, one per component of the handler:

- `Text` (`text.dfy`): the JavaScript string operations the handler uses (`indexOf`, `substr`,
  non-global `replace`, `split`), with `split` proved to invert `join`.
- `Numbers` (`numbers.dfy`): `parseInt(s, 10)`, NaN arithmetic and the decimal
  rendering of numbers in template strings, with parse/print round trips.
- `Http` (`http.dfy`): header values, header maps, JavaScript truthiness, the
  CORS headers, and `HeaderMap`, the `headers` object that is updated in place.
- `Encodings` (`encodings.dfy`): `\bword\b` matching, proved equal to its
  regular-expression reading, and the gzip-before-deflate negotiation.
- `Ranges` (`ranges.dfy`): parsing of the `Range` header and the partial-content
  headers.
- `Paths` (`paths.dfy`): pathname extraction, the two route patterns as a
  hand-written `/` splitter, and proofs that the splitter accepts exactly the
  patterns' languages. Also the file id cut at its first `.`.
- `Upload` (`upload.dfy`): the progress clamp, the update fields, and
  `UploadSession`, a class whose methods are the events of the request and of
  the temporary file.
- `Download` (`download.dfy`): the read hook, `Prepare`/`Finalize`/`Deliver` as
  the specification of the download pipeline, and `Serve`, which runs the
  pipeline on a mutable `HeaderMap` and is proved equal to `Deliver`.
- `Router` (`router.dfy`): `Decide`, the outcome of one request, and the lemmas
  that state the routing table.

Behaviour of the handler worth noting, which the model follows:

- A POST's record update sets `uploading: true` rather than clearing the flag.
- Only an empty `Range` header gives 416. Any other value, malformed or out of
  bounds, gives 206.
- An OPTIONS request on a known store is not answered by the handler. It sets
  the CORS headers and calls `next()`.
- A GET whose path does not match the GET pattern passes through. An OPTIONS
  or POST whose path does not match their pattern gets 400. Both apply to any
  URL that mentions the stores path anywhere, even only in its query string.
  The first `storesPath.length + 1` characters of such a URL's pathname are cut off
  whatever they are: with stores path `ufs`, `/abc/s/i?ufs` is routed as store
  `s`, file `i`.

## Model

| member | source | states |
|---|---|---|
| `Text.IndexOf` | ufs-server.js:49 | `indexOf` returns the first index at which the pattern occurs, and -1 exactly when it occurs nowhere |
| `Paths.RoutedPath` | ufs-server.js:55-56 | the routed path is the pathname without its first `storesPath.length + 1` characters (empty when the pathname is not longer), so it holds no `?` or `#`; when the pathname starts with `/{storesPath}` this is what follows it (`RoutedPathOf`) |
| `Text.Drop` | ufs-server.js:56 | `substr(n)` leaves the text after the first n characters, or the empty string when the text is shorter |
| `Text.ReplaceFirst` | ufs-server.js:224 | a non-global `replace` changes only the first occurrence, and leaves the text unchanged when there is none |
| `Text.Split` | ufs-server.js:224 | `split('-')` gives at least one piece, no piece holds the separator, and joining the pieces with the separator gives back the input |
| `Text.SplitJoin` | ufs-server.js:224 | splitting inverts joining, for pieces free of the separator |
| `Numbers.ParseInt` | ufs-server.js:225-227 | `parseInt(s, 10)` is a number exactly when `s` starts with a digit, and then it is non-negative; `ParseShowNat` gives its value on rendered numbers |
| `Numbers.ShowNat` | ufs-server.js:230 | the decimal rendering of a number is a non-empty digit string, with a leading zero only for 0 |
| `Numbers.ParseShowNat` | ufs-server.js:225-227 | `parseInt` of a rendered number, followed by anything that does not start with a digit, gives the number back |
| `Http.HeaderMap.constructor` | ufs-server.js:206-209 | the headers object starts as the given map |
| `Http.HeaderMap.Set` | ufs-server.js:230-232 | assigning a header changes that entry only |
| `Http.HeaderMap.Delete` | ufs-server.js:269 | `delete` removes that entry only |
| `Http.HeaderMap.Replace` | ufs-server.js:258 | after the transform hook the object holds what the hook made of it |
| `Http.TruthyValues` | ufs-server.js:286 | a header value is falsy exactly when it is the empty string, 0 or NaN, which is what the raw-send test checks |
| `Encodings.Token` | ufs-server.js:268 | the `Content-Encoding` value is `gzip` for gzip and `deflate` for deflate |
| `Encodings.MatchesWordFrom` | ufs-server.js:267 | the scan from index i finds a match exactly when `\bword\b` matches at some index at or after i |
| `Encodings.MatchesWord` | ufs-server.js:275 | `s.match(/\bword\b/)` is truthy exactly when the word occurs with a word boundary on both sides |
| `Encodings.GzipPreferred` | ufs-server.js:263-273 | for a non-media type, a `gzip` word selects gzip, whatever else the header lists |
| `Encodings.DeflateOnlyWithoutGzip` | ufs-server.js:263-281 | for a non-media type, deflate is chosen exactly when a `deflate` word is present and no `gzip` word is |
| `Encodings.Negotiate` | ufs-server.js:263-281 | a coding is chosen only for a request with the header and a type that is not audio or video, gzip only when the header has a `gzip` word, deflate only when it has a `deflate` word; `GzipPreferred` and `DeflateOnlyWithoutGzip` give the converse |
| `Encodings.NegotiationExamples` | ufs-server.js:263-281 | `gzip, deflate` selects gzip, `deflate` selects deflate, and a video type gets no coding |
| `Ranges.ContentRange` | ufs-server.js:230 | the `Content-Range` value starts with its unit `bytes ` |
| `Ranges.ContentRangeOfNats` | ufs-server.js:230 | for natural bounds the value is `bytes s-e/total` in decimal |
| `Ranges.ContentRangeStart` | ufs-server.js:230 | `parseInt` reads a natural start back from after the unit |
| `Ranges.ContentRangeTotal` | ufs-server.js:230 | the total follows the last `/` |
| `Ranges.PartialLength` | ufs-server.js:232 | the partial length is end - start + 1, and NaN when either bound is NaN |
| `Ranges.BaseHeaders` | ufs-server.js:206-209 | a download starts with exactly `Content-Type` (the record's type) and `Content-Length` (its declared size) |
| `Ranges.WithRange` | ufs-server.js:229-232 | a partial response sets `Content-Range`, `Accept-Ranges: bytes` and the partial `Content-Length`, and keeps every other header |
| `Ranges.ParseRange` | ufs-server.js:212-227 | no header means the whole file, only an empty header is unsatisfiable, and every other header is served as a range; `ClosedRange`, `OpenRange`, `StartOnlyRange` and `SuffixRangeHasNoStart` give the bounds read |
| `Ranges.DropUnitPrefix` | ufs-server.js:224 | removing `bytes=` from `bytes=...` leaves the rest |
| `Ranges.ClosedRange` | ufs-server.js:224-227 | `bytes=s-e` is read as start s and end e |
| `Ranges.OpenRange` | ufs-server.js:227 | `bytes=s-` ends at size - 1 |
| `Ranges.StartOnlyRange` | ufs-server.js:224-227 | `bytes=s` without a dash also ends at size - 1 |
| `Ranges.SuffixRangeHasNoStart` | ufs-server.js:224-232 | a suffix range `bytes=-n` gets a NaN start and a NaN length |
| `Upload.ClampedProgress` | ufs-server.js:123-126 | progress is stored only for a number above 0; it then lies in (0, 1], equals the value up to 1 and is 1 beyond |
| `Upload.Fields` | ufs-server.js:122-126 | the update always sets `uploading`, and carries a progress in (0, 1] exactly when the parsed value is a positive number |
| `Upload.ProgressExamples` | ufs-server.js:122-126 | 1.5 is stored as 1, 0 is not stored, and 0.25 is stored as 0.25 |
| `Upload.FlattenAppend` | ufs-server.js:128-130 | the content written after one more chunk is the earlier content followed by that chunk |
| `Upload.UploadSession.constructor` | ufs-server.js:120-126 | the temporary file is opened in append mode with its old content, and nothing has been sent yet |
| `Upload.UploadSession.OnData` | ufs-server.js:128-130 | a chunk is appended after everything written before |
| `Upload.UploadSession.OnEnd` | ufs-server.js:135-139 | the record update is issued, then the temporary file is closed, whether or not the temporary file has already failed |
| `Upload.UploadSession.OnFinish` | ufs-server.js:148-151 | 204 with `Content-Type: text/plain` is sent, only after the close |
| `Upload.UploadSession.OnWriteError` | ufs-server.js:140-147 | the unlink is issued, then 500 is sent; the file is gone when the unlink succeeds and unchanged when it fails |
| `Upload.UploadSession.OnRequestError` | ufs-server.js:131-134 | 500 is sent, and the temporary file is left as it is |
| `Upload.RunUpload` | ufs-server.js:120-151 | after `data`* then `end` then `finish`, the file holds its old content followed by the chunks in order, and the effects are: record update, close, then 204 |
| `Upload.RunFailedUpload` | ufs-server.js:135-147 | a temporary file that fails at once gives the unlink and 500, then the request's end still updates the record and closes the file |
| `Upload.RunTwoUploads` | ufs-server.js:121 | two POSTs to the same file append their bodies one after the other |
| `Paths.Pathname` | ufs-server.js:55 | the pathname is the prefix of the URL before its first `?` or `#` |
| `Paths.PathnameOf` | ufs-server.js:55 | a URL whose path is free of `?` and `#` has that path as its pathname |
| `Paths.CutIgnoresPrefix` | ufs-server.js:56 | any `storesPath.length + 1` leading characters of the pathname are dropped, whether or not they spell `/{storesPath}` |
| `Paths.QueryOnlyMention` | ufs-server.js:49-56 | `/abc/s/i?ufs`, which mentions `ufs` only in its query, is routed as `/s/i` |
| `Paths.RoutedPathOf` | ufs-server.js:55-56 | for a URL `/{storesPath}{path}` plus a query, the routes match against `path` |
| `Paths.MatchStoreFile` | ufs-server.js:66-67 | a match of the OPTIONS/POST pattern means the path is `/store/id` with two non-empty segments free of `/` and `?` |
| `Paths.MatchStoreFileComplete` | ufs-server.js:91-92 | every path of that form is matched, with those two groups |
| `Paths.MatchDownload` | ufs-server.js:155-156 | a match of the GET pattern means the path is `/store/id` or `/store/id/name` with valid segments |
| `Paths.MatchDownloadComplete` | ufs-server.js:155-163 | every path of that form is matched, with those groups |
| `Paths.FileIdOf` | ufs-server.js:182-184 | the file id is a prefix of the segment without `.`, followed in the segment by `.` when shorter, and the whole segment when it holds no `.` |
| `Download.ReadGateAsWritten` | ufs-server.js:201 | as written, calling `onRead` throws exactly when the hook is not a function |
| `Download.MissingHookPassesGuardThenThrows` | ufs-server.js:175-201 | a null or undefined `onRead` passes the configuration guard, and the call then throws |
| `Download.ReadAllowed` | ufs-server.js:201 | a read is refused exactly when a callable hook returns `false`; a missing hook allows it |
| `Download.Prepare` | ufs-server.js:202-237 | 416 exactly for an empty `Range`; otherwise 200 and the whole file without `Range`, 206 with `Accept-Ranges` and `Content-Range` with one, always with the record's `Content-Type`; `WholeFile`, `PartialFile` and `PartialToEnd` give the exact headers |
| `Download.Finalize` | ufs-server.js:263-289 | compression sets `Content-Encoding`, drops `Content-Length` and keeps every other header; uncompressed, nothing is sent when the headers already name a coding, otherwise they are sent unchanged |
| `Download.Deliver` | ufs-server.js:199-293 | refused exactly when the read gate refuses; 416 exactly for an allowed read with an empty `Range`; a sent response has the negotiated coding, 200 without `Range` and 206 with it, and when compressed names its coding and has no `Content-Length`; nothing is written only for an uncompressed response |
| `Download.Serve` | ufs-server.js:199-293 | the in-place pipeline on one headers object gives the specified delivery |
| `Download.WholeFile` | ufs-server.js:202-209 | without `Range`: status 200, `Content-Length` equal to the declared size, the whole file read |
| `Download.PartialFile` | ufs-server.js:224-237 | `bytes=s-e` gives 206 with `Content-Range: bytes s-e/size`, `Accept-Ranges: bytes` and `Content-Length: e - s + 1`, and the stream is asked for bytes s to e |
| `Download.PartialToEnd` | ufs-server.js:227-236 | `bytes=s-` reads to size - 1 and sends size - s bytes |
| `Download.WholeDownloadExample` | ufs-server.js:202-289 | a file of size 100 with an identity transform is sent with 200 and `Content-Length: 100` |
| `Download.RangeHeadersExample` | ufs-server.js:224-236 | `bytes=10-19` on size 100 gives 206, `Content-Range: bytes 10-19/100` and `Content-Length: 10` |
| `Download.PreparedIsSent` | ufs-server.js:258-289 | with an identity transform and no `Accept-Encoding`, the prepared headers are sent unchanged |
| `Download.RangeDownloadExample` | ufs-server.js:224-289 | the same file asked for with `bytes=10-19` is sent with those headers and no coding |
| `Router.Decide` | ufs-server.js:47-298 | an unclaimed URL passes through untouched; the handler answers only 400 (OPTIONS/POST only), 404, or 500 (GET only); it passes on with the CORS headers only for OPTIONS; an upload or download starts only for a registered store and a file in its catalog, and a download id holds no `.`; the lemmas below give the routing table |
| `Router.MentionsIffFound` | ufs-server.js:49 | the request is claimed exactly when the stores path occurs somewhere in the URL |
| `Router.PassThroughExactly` | ufs-server.js:47-298 | `next()` is called with nothing written exactly when the URL lacks the stores path, the method is not OPTIONS/POST/GET, or a GET path is outside the GET pattern |
| `Router.MalformedPathIs400` | ufs-server.js:65-99 | OPTIONS and POST give 400 exactly when the path is outside their pattern, whatever stores exist |
| `Router.UnknownStoreIs404` | ufs-server.js:76-173 | an unregistered store gives 404, for OPTIONS, POST and GET |
| `Router.PreflightOnKnownStore` | ufs-server.js:84-87 | OPTIONS on a known store sets the three CORS headers and calls `next()` |
| `Router.PostOnKnownStore` | ufs-server.js:109-126 | POST on a known store: an unknown file gives 404 after the CORS headers; a known one starts the upload of that file, with `uploading` set and progress in (0, 1] |
| `Router.GetOnKnownStore` | ufs-server.js:165-201 | GET on a known store: a non-function `onRead` gives 500; the id cut at `.` selects the file; an unknown file gives 404; otherwise the file is delivered, refused when the hook returns `false` |

## Findings

| source | as written | input that shows it | evidently intended | confidence | as-written member | corrected member |
|---|---|---|---|---|---|---|
| ufs-server.js:175-201 | The guard at line 175 admits an `onRead` that is null or undefined. Line 201 then calls `store.onRead.call(...)`, which throws a TypeError synchronously inside `d.run`. The throw leaves `d.run` and the handler. What the response then gets depends on the handler's caller, which is outside this model. | A GET of an existing file from a store whose `onRead` is null | A missing hook allows the read, as the guard's explicit null and undefined cases suggest | medium, not executed (a store may always install a default function) | `Download.MissingHookPassesGuardThenThrows` | `Download.ReadAllowed` |

## Left out

- Temp-directory creation and permissions at startup: filesystem I/O outside the handler.
- The `domain` fault boundary: asynchronous error isolation. The only thrown error modelled is the call of a missing `onRead`, in `Download.ReadGateAsWritten`.
- The handler's caller (the connect dispatcher): what a response gets after the handler throws is outside this model.
- Router.Decide, Download.Deliver and Download.Serve use the corrected read gate `ReadAllowed` for a missing `onRead`: they deliver the file, where the code as written throws a TypeError at the hook call, out of `d.run` and out of the handler, and what the response then gets depends on the handler's caller (see Findings).
- Stream mechanics: the pass-through stream, `pipe`, the `close` event re-emitted as `end`, and backpressure. The model records only the read options, the status and headers written, and the coding applied.
- The gzip and deflate compressors: foreign library code. Only the choice of coding is modelled.
- The store hooks and the catalog: `onRead`, `transformRead`, `getReadStream`, `onReadError`, `find`, `findOne` and `update`. Their results are inputs: a verdict function, a header-rewriting function, and a map of records. Side effects of `onRead` on the response (such as its own status) are not modelled.
- The read-stream error handlers (`onReadError` and then `end()`): they belong to the streaming phase.
- `parseFloat`: the progress arrives already parsed, as a real, NaN or an infinity.
- `Numbers.ParseInt`: it reads only leading decimal digits. Leading whitespace and a `+` sign, which `parseInt` accepts, make it return NaN here.
- Numbers above 2^53, and their exponent rendering: the model uses unbounded integers.
- `Paths.Pathname`: it cuts at the first `?` or `#` only. The other normalisations of `url.parse` are not modelled: backslash conversion, absolute-form URLs, trimming and escaping. The TypeError on an empty URL is not modelled either.
- `simulateReadDelay`: a testing sleep with no effect on the outcome.
- Responses written twice: when both the request and the temporary file signal errors, or when data arrives after a write error. `UploadSession.OnRequestError` and `UploadSession.OnWriteError` require that no response has been written yet, and `OnData` requires the session to be receiving.
- UTF-16 code units: strings are sequences of Unicode characters, while JavaScript's `length`, `indexOf` and `substr` count UTF-16 code units. A stores path or id with characters outside the Basic Multilingual Plane would be cut at different places.
- Concurrent POSTs to one file id: each session is modelled alone. `RunTwoUploads` covers only POSTs run one after the other.
- `req.headers` that is not an object: Node always supplies one.
