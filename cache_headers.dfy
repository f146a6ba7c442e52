/** The cache-header middleware: after the inner handler has produced a
    successful response, one of four header policies is set on it in place. */
module CacheHeaders {
  import opened Common

  const STATIC_CONTROL: string := "public, max-age=86400"
  const SEMI_STATIC_CONTROL: string := "public, max-age=3600"
  const USER_CONTROL: string := "private, max-age=300"
  const NO_STORE_CONTROL: string := "private, no-cache, no-store, must-revalidate"

  /** `isSuccessful`: a 2xx status. */
  predicate IsSuccessful(status: int)
  {
    200 <= status < 300
  }

  /** `generateEtag`: the quoted digest of the body; `md5` stands for the
      digest. */
  function Etag(content: string, md5: string -> string): (t: string)
    ensures |t| >= 2 && t[0] == '"' && t[|t| - 1] == '"'
  {
    ['"'] + md5(content) + ['"']
  }

  /** The headers after the middleware, for a response with `status` and
      `headers`, the route's `cacheType` and the body's ETag. */
  function HeadersAfter(status: int, headers: map<string, string>, cacheType: string, etag: string): map<string, string>
  {
    if !IsSuccessful(status) then headers
    else if cacheType == "static" then headers["Cache-Control" := STATIC_CONTROL]["ETag" := etag]
    else if cacheType == "semi-static" then headers["Cache-Control" := SEMI_STATIC_CONTROL]["ETag" := etag]
    else if cacheType == "user" then headers["Cache-Control" := USER_CONTROL]
    else headers["Cache-Control" := NO_STORE_CONTROL]["Pragma" := "no-cache"]["Expires" := "0"]
  }

  /** The headers a successful response gets under each policy, the
      headers it keeps, and that an unknown type means 'dynamic'. */
  lemma PoliciesSet(status: int, headers: map<string, string>, cacheType: string, etag: string)
    requires IsSuccessful(status)
    ensures var h := HeadersAfter(status, headers, cacheType, etag);
      && (cacheType == "static" ==>
            h["Cache-Control"] == "public, max-age=86400" && h["ETag"] == etag && h.Keys == headers.Keys + {"Cache-Control", "ETag"})
      && (cacheType == "semi-static" ==>
            h["Cache-Control"] == "public, max-age=3600" && h["ETag"] == etag && h.Keys == headers.Keys + {"Cache-Control", "ETag"})
      && (cacheType == "user" ==>
            h["Cache-Control"] == "private, max-age=300" && h.Keys == headers.Keys + {"Cache-Control"} && ("ETag" in headers <==> "ETag" in h))
      && (cacheType !in {"static", "semi-static", "user"} ==>
            h == HeadersAfter(status, headers, "dynamic", etag)
            && h["Cache-Control"] == NO_STORE_CONTROL && h["Pragma"] == "no-cache" && h["Expires"] == "0"
            && h.Keys == headers.Keys + {"Cache-Control", "Pragma", "Expires"})
      && (forall k :: k in headers && k !in {"Cache-Control", "ETag", "Pragma", "Expires"} ==> h[k] == headers[k])
  {
  }

  /** A response that is not 2xx leaves the middleware exactly as it came,
      whichever policy the route names. */
  lemma FailuresUntouched(status: int, headers: map<string, string>, cacheType: string, etag: string)
    requires !IsSuccessful(status)
    ensures HeadersAfter(status, headers, cacheType, etag) == headers
  {
  }

  /** A response gains an ETag only under the two shared policies. */
  lemma EtagOnlyWhenShared(status: int, headers: map<string, string>, cacheType: string, etag: string)
    ensures "ETag" !in headers && "ETag" in HeadersAfter(status, headers, cacheType, etag) <==>
      "ETag" !in headers && IsSuccessful(status) && (cacheType == "static" || cacheType == "semi-static")
  {
  }

  /** The response the middleware receives from the inner handler. */
  class Response {
    var status: int
    var headers: map<string, string>
    var content: string

    constructor (status: int, headers: map<string, string>, content: string)
      ensures this.status == status && this.headers == headers && this.content == content
    {
      this.status := status;
      this.headers := headers;
      this.content := content;
    }

    /** `handle`, after `$next`: the switch on the cache type, setting the
        headers one by one. */
    method ApplyCacheHeaders(cacheType: string, md5: string -> string)
      modifies this
      ensures headers == HeadersAfter(old(status), old(headers), cacheType, Etag(old(content), md5))
      ensures status == old(status) && content == old(content)
    {
      if !IsSuccessful(status) {
        return;
      }
      if cacheType == "static" {
        headers := headers["Cache-Control" := STATIC_CONTROL];
        headers := headers["ETag" := Etag(content, md5)];
      } else if cacheType == "semi-static" {
        headers := headers["Cache-Control" := SEMI_STATIC_CONTROL];
        headers := headers["ETag" := Etag(content, md5)];
      } else if cacheType == "user" {
        headers := headers["Cache-Control" := USER_CONTROL];
      } else {
        headers := headers["Cache-Control" := NO_STORE_CONTROL];
        headers := headers["Pragma" := "no-cache"];
        headers := headers["Expires" := "0"];
      }
    }
  }
}
