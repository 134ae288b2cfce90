/**
 * The slice of net/http the handlers touch: header maps, a request whose
 * path a handler may rewrite, and a response writer whose headers are set in
 * place.  What the library itself writes on the wire is not modelled; the
 * writer keeps instead a trace of the observable steps a handler takes.
 */
module Http {
  import opened GoStrings

  /** http.Header, with keys already in canonical form ("Accept", "Content-Type", ...). */
  type Header = map<string, seq<string>>

  /** Header.Get: the first value under `key`, or "" when there is none. */
  function Get(h: Header, key: string): string {
    if key in h && |h[key]| > 0 then h[key][0] else ""
  }

  /** The content codings the gzip wrapper can produce. */
  datatype Encoding = Gzip | Deflate

  /** The writer a handler is given: the client's own one, or one that compresses. */
  datatype Writer = Plain | Compressing(encoding: Encoding)

  /** Identity of a wrapped handler function. */
  type HandlerId = nat

  /** Observable steps of serving one request. */
  datatype Event =
    | ErrorReplied(status: int)                                // http.Error
    | CompressorOpened(encoding: Encoding)                     // gzip.NewWriterLevel / zlib.NewWriterLevel
    | CompressorClosed(encoding: Encoding)                     // the deferred Close
    | HandlerCalled(handler: HandlerId, writer: Writer)        // the wrapped handler runs
    | FileServed(path: string, writer: Writer, header: Header) // ServeFile, with the headers set so far

  class Request {
    var path: string
    var header: Header

    constructor (path: string, header: Header)
      ensures this.path == path && this.header == header
    {
      this.path := path;
      this.header := header;
    }
  }

  class ResponseWriter {
    var header: Header
    var trace: seq<Event>

    constructor ()
      ensures header == map[] && trace == []
    {
      header := map[];
      trace := [];
    }

    /** Header().Set: replaces every value under `key` by the one value. */
    method Set(key: string, value: string)
      modifies this
      ensures header == old(header)[key := [value]]
      ensures trace == old(trace)
    {
      header := header[key := [value]];
    }

    /**
     * http.Error: marks the reply as plain text that must not be sniffed,
     * then replies with the status code (the message body is not modelled).
     */
    method Error(code: int)
      modifies this
      ensures header == ErrorHeader(old(header))
      ensures trace == old(trace) + [ErrorReplied(code)]
    {
      Set("Content-Type", "text/plain; charset=utf-8");
      Set("X-Content-Type-Options", "nosniff");
      Record(ErrorReplied(code));
    }

    method Record(e: Event)
      modifies this
      ensures header == old(header)
      ensures trace == old(trace) + [e]
    {
      trace := trace + [e];
    }
  }

  /** The headers http.Error leaves: a plain-text Content-Type and nosniff, the rest kept. */
  function ErrorHeader(h: Header): (r: Header)
    ensures r.Keys == h.Keys + {"Content-Type", "X-Content-Type-Options"}
    ensures r["Content-Type"] == ["text/plain; charset=utf-8"] && r["X-Content-Type-Options"] == ["nosniff"]
    ensures forall k :: k in h && k != "Content-Type" && k != "X-Content-Type-Options" ==> r[k] == h[k]
  {
    h["Content-Type" := ["text/plain; charset=utf-8"]]["X-Content-Type-Options" := ["nosniff"]]
  }

  /**
   * The normalisation both file handlers start with: a path gets a leading
   * '/' when it has none, and only then.
   */
  function WithLeadingSlash(p: string): (r: string)
    ensures HasPrefix(r, "/")
    ensures HasPrefix(p, "/") ==> r == p
    ensures !HasPrefix(p, "/") ==> r[1..] == p
  {
    if HasPrefix(p, "/") then p else "/" + p
  }
}
