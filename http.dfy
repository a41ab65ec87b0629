/**
 Response headers as the handler builds them: a JavaScript object from header
 name to a string or a number, updated in place by assignment and `delete`.
 */
module Http {
  import opened Numbers

  datatype HeaderValue = Text(s: string) | Number(n: Num)

  type Headers = map<string, HeaderValue>

  /** JavaScript truthiness of a header value: a non-empty string or a number other than 0 and NaN. */
  predicate Truthy(v: HeaderValue) {
    match v
    case Text(s) => s != []
    case Number(n) => n.Int? && n.i != 0
  }

  /** The falsy header values are exactly the empty string, 0 and NaN. */
  lemma TruthyValues(v: HeaderValue)
    ensures Truthy(v) <==> v !in {Text(""), Number(NaN), Number(Int(0))}
  {
  }

  /** `!headers[name]` is false: the header is present with a truthy value. */
  predicate IsSet(h: Headers, name: string) {
    name in h && Truthy(h[name])
  }

  /** The three headers `allowCORS` puts on the response. */
  const CorsHeaders: Headers := map[
    "Access-Control-Allow-Methods" := Text("POST"),
    "Access-Control-Allow-Origin" := Text("*"),
    "Access-Control-Allow-Headers" := Text("Content-Type")]

  /** The `headers` object of the download pipeline, which its steps and the store's transform hook update in place. */
  class HeaderMap {
    var entries: Headers

    constructor (initial: Headers)
      ensures entries == initial
    {
      entries := initial;
    }

    /** `headers[name] = v`. */
    method Set(name: string, v: HeaderValue)
      modifies this
      ensures entries == old(entries)[name := v]
      ensures name in entries && entries[name] == v
    {
      entries := entries[name := v];
    }

    /** `delete headers[name]`. */
    method Delete(name: string)
      modifies this
      ensures entries == old(entries) - {name}
      ensures name !in entries
    {
      entries := entries - {name};
    }

    /** The whole object as a hook leaves it after changing it in place. */
    method Replace(h: Headers)
      modifies this
      ensures entries == h
    {
      entries := h;
    }

    /** `!!headers[name]`. */
    method Has(name: string) returns (b: bool)
      ensures b == IsSet(entries, name)
    {
      b := name in entries && Truthy(entries[name]);
    }
  }
}
