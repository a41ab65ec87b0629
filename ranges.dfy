/**
 The `Range` request header and the response headers computed from it. The
 handler accepts a loose subset of the byte ranges of section 2.1 of RFC 7233:
 one range `bytes=<start>-[<end>]`, no suffix range, no list of ranges, and no
 check that the bounds lie inside the file. The partial response carries
 `Content-Range` as section 4.2 of RFC 7233 writes it.
 */
module Ranges {
  import opened Wrappers
  import opened Text
  import opened Numbers
  import opened Http

  /** What the `Range` header asks for. */
  datatype RangeRequest =
    | Whole                            // no `Range` header: status 200
    | Unsatisfiable                    // an empty `Range` header: status 416
    | Bounds(start: Num, end: Num)     // any other `Range` header: status 206

  /**
   The range asked for by `header` (None when `req.headers.range` is not a
   string) on a file whose declared size is `size`: the text after the first
   `bytes=` is split at `-`, the first piece gives the start, and the second,
   when present and non-empty, gives the end, which otherwise is the last byte.
   */
  function ParseRange(header: Option<string>, size: nat): (r: RangeRequest)
    ensures r == Whole <==> header.None?
    ensures r == Unsatisfiable <==> header == Some("")
    ensures r.Bounds? <==> header.Some? && header.value != ""
  {
    match header
    case None => Whole
    case Some(r) =>
      if r == [] then Unsatisfiable
      else
        var positions := Split(ReplaceFirst(r, "bytes=", ""), '-');
        var end := if |positions| > 1 && positions[1] != [] then ParseInt(positions[1]) else Int(size - 1);
        Bounds(ParseInt(positions[0]), end)
  }

  /**
   The `Content-Range` value `bytes {start}-{end}/{total}`, which starts with
   its unit.
   */
  function ContentRange(start: Num, end: Num, total: nat): (r: string)
    ensures |r| > 6 && r[..6] == "bytes "
  {
    "bytes " + Show(start) + "-" + Show(end) + "/" + ShowNat(total)
  }

  /** `parseInt` reads a natural start back from after the unit. */
  lemma ContentRangeStart(start: nat, end: Num, total: nat)
    ensures ParseInt(ContentRange(Int(start), end, total)[6..]) == Int(start)
  {
    var tail := "-" + Show(end) + "/" + ShowNat(total);
    var digits := ShowNat(start);
    assert Show(Int(start)) == digits;
    var r := ContentRange(Int(start), end, total);
    assert r == "bytes " + (digits + tail);
    assert |"bytes "| == 6;
    assert r[6..] == digits + tail;
    assert tail[0] == '-';
    ParseShowNat(start, tail);
  }

  /** The total follows the last `/`. */
  lemma ContentRangeTotal(start: Num, end: Num, total: nat)
    ensures var r, t := ContentRange(start, end, total), ShowNat(total);
      |r| > |t| && r[|r| - |t| - 1] == '/' && r[|r| - |t|..] == t
  {
    var t := ShowNat(total);
    var head := "bytes " + Show(start) + "-" + Show(end);
    var r := ContentRange(start, end, total);
    assert r == (head + "/") + t;
  }

  /** For natural bounds, `Content-Range` holds their decimal renderings. */
  lemma ContentRangeOfNats(start: nat, end: nat, total: nat)
    ensures ContentRange(Int(start), Int(end), total) == "bytes " + ShowNat(start) + "-" + ShowNat(end) + "/" + ShowNat(total)
  {
  }

  /** The `Content-Length` of a partial response, `(end - start) + 1`. */
  function PartialLength(start: Num, end: Num): (n: Num)
    ensures start.Int? && end.Int? ==> n == Int(end.i - start.i + 1)
    ensures start.NaN? || end.NaN? ==> n == NaN
  {
    Plus(Minus(end, start), Int(1))
  }

  /** The headers every download starts from: the declared type and size of the file. */
  function BaseHeaders(contentType: string, size: nat): (h: Headers)
    ensures h.Keys == {"Content-Type", "Content-Length"}
    ensures h["Content-Type"] == Text(contentType) && h["Content-Length"] == Number(Int(size))
  {
    map["Content-Type" := Text(contentType), "Content-Length" := Number(Int(size))]
  }

  /** The headers of a partial response: three headers set, every other header kept. */
  function WithRange(h: Headers, start: Num, end: Num, total: nat): (r: Headers)
    ensures r.Keys == h.Keys + {"Content-Range", "Accept-Ranges", "Content-Length"}
    ensures r["Content-Range"] == Text(ContentRange(start, end, total))
    ensures r["Accept-Ranges"] == Text("bytes")
    ensures r["Content-Length"] == Number(PartialLength(start, end))
    ensures forall k :: k in h && k !in {"Content-Range", "Accept-Ranges", "Content-Length"} ==> r[k] == h[k]
  {
    h["Content-Range" := Text(ContentRange(start, end, total))]
     ["Accept-Ranges" := Text("bytes")]
     ["Content-Length" := Number(PartialLength(start, end))]
  }

  /** Removing the leading `bytes=` leaves the rest of the header. */
  lemma DropUnitPrefix(rest: string)
    ensures ReplaceFirst("bytes=" + rest, "bytes=", "") == rest
  {
    var r := "bytes=" + rest;
    assert OccursAt(r, "bytes=", 0);
    assert r[6..] == rest;
  }

  /** `bytes=s-e` is read back as the bounds `s` and `e`. */
  lemma {:induction false} ClosedRange(s: nat, e: nat, size: nat)
    ensures ParseRange(Some("bytes=" + ShowNat(s) + "-" + ShowNat(e)), size) == Bounds(Int(s), Int(e))
  {
    var a, b := ShowNat(s), ShowNat(e);
    assert "bytes=" + a + "-" + b == "bytes=" + (a + "-" + b);
    DropUnitPrefix(a + "-" + b);
    assert '-' !in a && '-' !in b by {
      assert forall k :: 0 <= k < |a| ==> IsDigit(a[k]);
      assert forall k :: 0 <= k < |b| ==> IsDigit(b[k]);
    }
    assert Join([a, b], '-') == a + "-" + b;
    SplitJoin([a, b], '-');
    ParseShowNat(s, []);
    ParseShowNat(e, []);
    assert a + [] == a && b + [] == b;
  }

  /** `bytes=s-` ends at the last byte of the file. */
  lemma {:induction false} OpenRange(s: nat, size: nat)
    ensures ParseRange(Some("bytes=" + ShowNat(s) + "-"), size) == Bounds(Int(s), Int(size - 1))
  {
    var a := ShowNat(s);
    assert '-' !in a by {
      assert forall k :: 0 <= k < |a| ==> IsDigit(a[k]);
    }
    assert "bytes=" + a + "-" == "bytes=" + (a + "-");
    DropUnitPrefix(a + "-");
    assert Join([a, []], '-') == a + "-";
    SplitJoin([a, []], '-');
    ParseShowNat(s, []);
    assert a + [] == a;
  }

  /** `bytes=s`, without a `-`, also ends at the last byte of the file. */
  lemma {:induction false} StartOnlyRange(s: nat, size: nat)
    ensures ParseRange(Some("bytes=" + ShowNat(s)), size) == Bounds(Int(s), Int(size - 1))
  {
    var a := ShowNat(s);
    assert '-' !in a by {
      assert forall k :: 0 <= k < |a| ==> IsDigit(a[k]);
    }
    DropUnitPrefix(a);
    SplitWhole(a, '-');
    ParseShowNat(s, []);
    assert a + [] == a;
  }

  /** A suffix range `bytes=-n` is not understood: its start is NaN, and so is the length sent. */
  lemma {:induction false} SuffixRangeHasNoStart(n: nat, size: nat)
    ensures ParseRange(Some("bytes=-" + ShowNat(n)), size) == Bounds(NaN, Int(n))
    ensures PartialLength(NaN, Int(n)) == NaN
  {
    var b := ShowNat(n);
    assert "bytes=-" + b == "bytes=" + ("" + "-" + b);
    DropUnitPrefix("" + "-" + b);
    assert '-' !in b by {
      assert forall k :: 0 <= k < |b| ==> IsDigit(b[k]);
    }
    assert Join(["", b], '-') == "" + "-" + b;
    SplitJoin(["", b], '-');
    ParseShowNat(n, []);
    assert b + [] == b;
  }
}
