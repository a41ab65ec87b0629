/**
 Choice of the response's content coding from the request's `Accept-Encoding`
 header: a loose form of section 5.3.4 of RFC 7231 without quality values, where
 `gzip` is preferred to `deflate` and audio and video are never compressed.
 */
module Encodings {
  import opened Wrappers
  import opened Text

  datatype Encoding = Identity | Gzip | Deflate

  /** The `Content-Encoding` value naming a compressing coding. */
  function Token(e: Encoding): (t: string)
    requires e != Identity
    ensures e == Gzip ==> t == "gzip"
    ensures e == Deflate ==> t == "deflate"
    ensures t == "gzip" <==> e == Gzip
  {
    if e == Gzip then "gzip" else "deflate"
  }

  /** A character of the class `\w` of JavaScript regular expressions. */
  predicate IsWordChar(c: char) {
    ('a' <= c <= 'z') || ('A' <= c <= 'Z') || ('0' <= c <= '9') || c == '_'
  }

  /** `/\bw\b/` matches `s` at index `i`, for a word `w` that starts and ends with word characters. */
  predicate WordAt(s: string, w: string, i: nat) {
    OccursAt(s, w, i)
    && (i == 0 || !IsWordChar(s[i - 1]))
    && (i + |w| == |s| || !IsWordChar(s[i + |w|]))
  }

  /** The regular expression `/\bw\b/` matches `s` at some index from `i` on. */
  function MatchesWordFrom(s: string, w: string, i: nat): (r: bool)
    ensures r <==> exists j: nat :: i <= j && WordAt(s, w, j)
    decreases |s| + 1 - i
  {
    if i > |s| then false
    else if WordAt(s, w, i) then true
    else
      var r := MatchesWordFrom(s, w, i + 1);
      assert forall j: nat :: i <= j && WordAt(s, w, j) ==> i + 1 <= j;
      r
  }

  /** `s.match(/\bw\b/)` is truthy. */
  function MatchesWord(s: string, w: string): (r: bool)
    ensures r <==> exists j: nat :: WordAt(s, w, j)
  {
    MatchesWordFrom(s, w, 0)
  }

  /** `/^(audio|video)/.test(contentType)`. */
  predicate IsMedia(contentType: string) {
    "audio" <= contentType || "video" <= contentType
  }

  /**
   The coding chosen for a response of type `contentType` when the request's
   `Accept-Encoding` header is `acceptEncoding` (None when it is not a string).
   */
  function Negotiate(acceptEncoding: Option<string>, contentType: string): (e: Encoding)
    ensures e != Identity ==> acceptEncoding.Some? && !IsMedia(contentType)
    ensures e == Gzip ==> exists j: nat :: WordAt(acceptEncoding.value, "gzip", j)
    ensures e == Deflate ==> exists j: nat :: WordAt(acceptEncoding.value, "deflate", j)
  {
    if acceptEncoding.Some? && !IsMedia(contentType) then
      if MatchesWord(acceptEncoding.value, "gzip") then Gzip
      else if MatchesWord(acceptEncoding.value, "deflate") then Deflate
      else Identity
    else Identity
  }

  /** A `gzip` word in the header wins, whatever else the header lists. */
  lemma GzipPreferred(accept: string, contentType: string, i: nat)
    requires !IsMedia(contentType)
    requires WordAt(accept, "gzip", i)
    ensures Negotiate(Some(accept), contentType) == Gzip
  {
  }

  /** `deflate` is chosen exactly when there is a `deflate` word and no `gzip` word. */
  lemma DeflateOnlyWithoutGzip(accept: string, contentType: string)
    requires !IsMedia(contentType)
    ensures Negotiate(Some(accept), contentType) == Deflate <==>
      (forall j: nat :: !WordAt(accept, "gzip", j)) && exists k: nat :: WordAt(accept, "deflate", k)
  {
  }

  /** `Accept-Encoding: gzip, deflate` selects gzip; `Accept-Encoding: deflate` selects deflate. */
  lemma NegotiationExamples()
    ensures Negotiate(Some("gzip, deflate"), "text/plain") == Gzip
    ensures Negotiate(Some("deflate"), "text/plain") == Deflate
    ensures Negotiate(Some("gzip"), "video/mp4") == Identity
  {
    assert !IsMedia("text/plain") by { assert "text/plain"[0] == 't'; }
    assert WordAt("gzip, deflate", "gzip", 0);
    assert MatchesWord("gzip, deflate", "gzip");
    assert WordAt("deflate", "deflate", 0);
    forall j: nat ensures !WordAt("deflate", "gzip", j) {
      if j + 4 <= 7 {
        assert "deflate"[j] != 'g';
      }
    }
  }
}
