/**
 * The response wrapper of gzip.go: it picks the first Accept-Encoding token
 * (section 14.3 of RFC 2616) that is exactly "gzip" or "deflate", opens one
 * compressor for it, marks the response, runs the wrapped handler and closes
 * the compressor afterwards.  The codecs themselves are not modelled; whether
 * opening one fails is a parameter.
 */
module Gzip {
  import opened Wrappers
  import opened GoStrings
  import opened Http

  /** The token a coding is recognised by, and the Content-Encoding it sets. */
  function Name(e: Encoding): string {
    match e
    case Gzip => "gzip"
    case Deflate => "deflate"
  }

  /** The switch on one token: the trimmed token must equal a coding's name exactly. */
  function Recognise(token: string): (r: Option<Encoding>)
    ensures r.Some? ==> TrimSpace(token) == Name(r.value)
  {
    var t := TrimSpace(token);
    if t == "gzip" then Some(Gzip)
    else if t == "deflate" then Some(Deflate)
    else None
  }

  /** A token selects a coding exactly when, trimmed, it is that coding's name. */
  lemma RecognisedIffNamed(token: string, e: Encoding)
    ensures Recognise(token) == Some(e) <==> TrimSpace(token) == Name(e)
  {
  }

  /** Position of the first recognised token; every token before it is unrecognised. */
  function FirstRecognised(tokens: seq<string>): (r: Option<nat>)
    ensures r.Some? ==> r.value < |tokens| && Recognise(tokens[r.value]).Some?
    ensures r.Some? ==> forall j :: 0 <= j < r.value ==> Recognise(tokens[j]).None?
    ensures r.None? ==> forall j :: 0 <= j < |tokens| ==> Recognise(tokens[j]).None?
  {
    if |tokens| == 0 then None
    else if Recognise(tokens[0]).Some? then Some(0)
    else
      match FirstRecognised(tokens[1..])
      case None => None
      case Some(i) => Some(i + 1)
  }

  /** The comma-separated tokens of the request's Accept-Encoding header. */
  function Tokens(h: Header): seq<string> {
    Split(Get(h, "Accept-Encoding"), ',')
  }

  /** How a request is answered: an error, the plain writer, or a compressing one. */
  datatype Wrapping = Failed | Uncompressed | CompressedWith(encoding: Encoding) {
    function WriterOf(): Writer
      requires !Failed?
    {
      if Uncompressed? then Plain else Compressing(encoding)
    }
  }

  /** The decision the selection loop makes. */
  function Decide(h: Header, codecFails: set<Encoding>): Wrapping {
    var tokens := Tokens(h);
    match FirstRecognised(tokens)
    case None => Uncompressed
    case Some(i) =>
      var e := Recognise(tokens[i]).value;
      if e in codecFails then Failed else CompressedWith(e)
  }

  /** The headers the wrapper adds before the handler runs. */
  function MarkedHeader(h: Header, wr: Wrapping): Header {
    match wr
    case CompressedWith(e) => h["Content-Encoding" := [Name(e)]]["Vary" := ["Accept-Encoding"]]
    case Failed => ErrorHeader(h)
    case Uncompressed => h
  }

  /** The steps the wrapper records before the handler runs. */
  function Opening(wr: Wrapping): seq<Event> {
    match wr
    case Failed => [ErrorReplied(500)]
    case Uncompressed => []
    case CompressedWith(e) => [CompressorOpened(e)]
  }

  /** The steps the wrapper records after the handler returns. */
  function Closing(wr: Wrapping): seq<Event> {
    match wr
    case CompressedWith(e) => [CompressorClosed(e)]
    case _ => []
  }

  /** The first recognised token is the one the loop stops at: all before it are unrecognised. */
  lemma {:induction false} FirstRecognisedAt(tokens: seq<string>, i: nat)
    requires i < |tokens| && Recognise(tokens[i]).Some?
    requires forall j :: 0 <= j < i ==> Recognise(tokens[j]).None?
    ensures FirstRecognised(tokens) == Some(i)
    decreases i
  {
    if i > 0 {
      var rest := tokens[1..];
      assert Recognise(tokens[0]).None?;
      assert rest[i - 1] == tokens[i];
      assert forall j :: 0 <= j < i - 1 ==> rest[j] == tokens[j + 1];
      FirstRecognisedAt(rest, i - 1);
    }
  }

  /**
   * One case of the switch: gzip.NewWriterLevel or zlib.NewWriterLevel, the
   * 500 reply when that fails, and otherwise the Content-Encoding header.
   */
  method OpenCompressor(w: ResponseWriter, e: Encoding, codecFails: set<Encoding>) returns (ready: bool)
    modifies w
    ensures ready <==> e !in codecFails
    ensures w.header == if ready then old(w.header)["Content-Encoding" := [Name(e)]] else ErrorHeader(old(w.header))
    ensures w.trace == old(w.trace) + [if ready then CompressorOpened(e) else ErrorReplied(500)]
  {
    if e in codecFails {
      w.Error(500);
      return false;
    }
    w.Record(CompressorOpened(e));
    w.Set("Content-Encoding", Name(e));
    return true;
  }

  /**
   * The part of the wrapper before the handler is called: the loop over the
   * tokens, opening the compressor, the error reply, and the headers.
   */
  method Prepare(w: ResponseWriter, h: Header, codecFails: set<Encoding>) returns (wr: Wrapping)
    modifies w
    ensures wr == Decide(h, codecFails)
    ensures w.header == MarkedHeader(old(w.header), wr)
    ensures w.trace == old(w.trace) + Opening(wr)
  {
    var encodings := Split(Get(h, "Accept-Encoding"), ',');
    var chosen: Option<Encoding> := None;
    var i := 0;
    while i < |encodings|
      invariant 0 <= i <= |encodings|
      invariant forall j :: 0 <= j < i ==> Recognise(encodings[j]).None?
      invariant chosen.None?
      invariant w.header == old(w.header) && w.trace == old(w.trace)
    {
      var encoding := TrimSpace(encodings[i]);
      if encoding == "gzip" {
        FirstRecognisedAt(encodings, i);
        var ready := OpenCompressor(w, Gzip, codecFails);
        if !ready {
          return Failed;
        }
        chosen := Some(Gzip);
      } else if encoding == "deflate" {
        FirstRecognisedAt(encodings, i);
        var ready := OpenCompressor(w, Deflate, codecFails);
        if !ready {
          return Failed;
        }
        chosen := Some(Deflate);
      }
      if chosen.Some? {
        break;
      }
      i := i + 1;
    }
    if chosen.None? {
      return Uncompressed;
    }
    w.Set("Vary", "Accept-Encoding");
    return CompressedWith(chosen.value);
  }

  /** The deferred Close of the compressor, once the handler has returned. */
  method Finish(w: ResponseWriter, wr: Wrapping)
    modifies w
    ensures w.header == old(w.header)
    ensures w.trace == old(w.trace) + Closing(wr)
  {
    if wr.CompressedWith? {
      w.Record(CompressorClosed(wr.encoding));
    }
  }

  /** MakeGzipHandler(handler) serving one request whose headers are `h`. */
  method Serve(w: ResponseWriter, h: Header, codecFails: set<Encoding>, handler: HandlerId)
    modifies w
    ensures var wr := Decide(h, codecFails);
      && w.header == MarkedHeader(old(w.header), wr)
      && w.trace == old(w.trace) + Opening(wr)
           + (if wr.Failed? then [] else [HandlerCalled(handler, wr.WriterOf())])
           + Closing(wr)
  {
    var wr := Prepare(w, h, codecFails);
    if wr.Failed? {
      return;
    }
    w.Record(HandlerCalled(handler, wr.WriterOf()));
    Finish(w, wr);
  }

  /** Tokens after a recognised one are never looked at. */
  lemma {:induction false} LaterTokensIgnored(tokens: seq<string>, later: seq<string>)
    requires FirstRecognised(tokens).Some?
    ensures FirstRecognised(tokens + later) == FirstRecognised(tokens)
  {
    assert (tokens + later)[0] == tokens[0];
    if Recognise(tokens[0]).None? {
      assert (tokens + later)[1..] == tokens[1..] + later;
      LaterTokensIgnored(tokens[1..], later);
    }
  }

  /** Without an Accept-Encoding header the header splits to one empty token and nothing is compressed. */
  lemma AbsentHeaderIsUncompressed(h: Header, codecFails: set<Encoding>)
    requires "Accept-Encoding" !in h
    ensures Tokens(h) == [""]
    ensures Decide(h, codecFails) == Uncompressed
  {
    SplitNoSeparator("", ',');
    assert Recognise("").None? by { TrimUntouched("", Whitespace); }
  }

  /** A token carrying parameters is not recognised: only the bare name is. */
  lemma ParametersNotRecognised()
    ensures Recognise("gzip;q=0.5") == None
  {
    TrimUntouched("gzip;q=0.5", Whitespace);
  }

  /** The names are compared case-sensitively. */
  lemma UpperCaseNotRecognised()
    ensures Recognise("GZIP") == None
  {
    TrimUntouched("GZIP", Whitespace);
  }

  /** Blanks around a token are ignored. */
  lemma PaddedTokenRecognised()
    ensures Recognise(" gzip\t") == Some(Gzip)
  {
    TrimAround(" ", 'g', "zip\t", Whitespace);
    assert " gzip\t" == " " + ['g'] + "zip\t";
    assert TrimRight("zip\t", Whitespace) == "zip";
  }

  /** "deflate, gzip" selects deflate, the first recognised token. */
  lemma FirstTokenWins()
    ensures Decide(map["Accept-Encoding" := ["deflate, gzip"]], {}) == CompressedWith(Deflate)
  {
    var h := map["Accept-Encoding" := ["deflate, gzip"]];
    assert Get(h, "Accept-Encoding") == "deflate, gzip";
    DeflateGzipTokens();
    DecideDeflateFirst(h);
  }

  lemma DeflateGzipTokens()
    ensures Split("deflate, gzip", ',') == ["deflate", " gzip"]
  {
    var tokens := ["deflate", " gzip"];
    assert Join(tokens, ',') == "deflate, gzip" by {
      assert Join(tokens, ',') == "deflate" + [','] + " gzip";
    }
    SplitJoin(tokens, ',');
  }

  lemma DecideDeflateFirst(h: Header)
    requires Tokens(h) == ["deflate", " gzip"]
    ensures Decide(h, {}) == CompressedWith(Deflate)
  {
    TrimUntouched("deflate", Whitespace);
    assert Recognise(Tokens(h)[0]) == Some(Deflate);
  }
}
