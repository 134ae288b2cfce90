/**
 * The static file handler of static.go: request paths get a leading '/',
 * a version segment `ver=...` in the second position of the cleaned path is
 * removed and far-future caching headers are set, and the file is served
 * through the gzip wrapper.
 */
module Static {
  import opened GoStrings
  import opened Http
  import Gzip

  /** The Cache-Control value for versioned paths: one year. */
  const CacheControl := "public, max-age=31536000"

  /** The '/'-separated segments of a path; a rooted path starts with the empty one. */
  function Segments(upath: string): seq<string> {
    Split(upath, '/')
  }

  /** The cleaned path has more than three segments and the third one starts with "ver=". */
  predicate HasVersionSegment(upath: string) {
    var parts := Segments(upath);
    |parts| > 3 && HasPrefix(parts[2], "ver=")
  }

  /** The rewrite of a versioned path: the two leading segments, '/', and the rest. */
  function StripVersion(upath: string): string {
    var parts := Segments(upath);
    if HasVersionSegment(upath) then Join(parts[..2], '/') + "/" + Join(parts[3..], '/')
    else upath
  }

  /**
   * Stripping removes exactly the version segment: the segments of the
   * rewritten path are the old ones without the third, in the same order.
   */
  lemma StripRemovesOneSegment(upath: string)
    requires HasVersionSegment(upath)
    ensures Segments(StripVersion(upath)) == Segments(upath)[..2] + Segments(upath)[3..]
  {
    var parts := Segments(upath);
    var kept := parts[..2] + parts[3..];
    assert kept[..2] == parts[..2] && kept[2..] == parts[3..];
    JoinAppend(kept[..2], kept[2..], '/');
    assert kept[..2] + kept[2..] == kept;
    assert StripVersion(upath) == Join(kept, '/');
    assert forall k :: 0 <= k < |kept| ==> '/' !in kept[k] by {
      forall k | 0 <= k < |kept|
        ensures '/' !in kept[k]
      {
        if k < 2 { assert kept[k] == parts[k]; } else { assert kept[k] == parts[k + 1]; }
      }
    }
    SplitJoin(kept, '/');
  }

  /** The path is rewritten exactly when it carries a version segment. */
  lemma StrippedIffVersioned(upath: string)
    ensures StripVersion(upath) != upath <==> HasVersionSegment(upath)
  {
    if HasVersionSegment(upath) {
      StripRemovesOneSegment(upath);
      assert |Segments(StripVersion(upath))| == |Segments(upath)| - 1;
    }
  }

  /** `/a/ver=1/b/c` and its like: the version segment after the first name goes. */
  lemma StripsSecondPosition(parts: seq<string>)
    requires |parts| > 3 && forall k :: 0 <= k < |parts| ==> '/' !in parts[k]
    requires HasPrefix(parts[2], "ver=")
    ensures StripVersion(Join(parts, '/')) == Join(parts[..2] + parts[3..], '/')
  {
    SplitJoin(parts, '/');
    JoinAppend(parts[..2], parts[3..], '/');
  }

  /** `/a/ver=1`: a version segment with nothing after it is kept. */
  lemma KeepsTrailingVersion(parts: seq<string>)
    requires |parts| == 3 && forall k :: 0 <= k < |parts| ==> '/' !in parts[k]
    ensures StripVersion(Join(parts, '/')) == Join(parts, '/')
  {
    SplitJoin(parts, '/');
  }

  /** The rewrite of the literal path `/a/ver=1/b/c` is `/a/b/c`. */
  lemma StripExample()
    ensures StripVersion("/a/ver=1/b/c") == "/a/b/c"
  {
    StripExampleParts(["", "a", "ver=1", "b", "c"], "/a/ver=1/b/c", "/a/b/c");
  }

  lemma StripExampleParts(parts: seq<string>, upath: string, stripped: string)
    requires parts == ["", "a", "ver=1", "b", "c"]
    requires upath == "/a/ver=1/b/c" && stripped == "/a/b/c"
    ensures StripVersion(upath) == stripped
  {
    JoinExampleParts(parts, upath);
    StripsSecondPosition(parts);
    JoinKeptParts(parts[..2] + parts[3..], stripped);
  }

  /** The segments of the literal example path join to it. */
  lemma JoinExampleParts(parts: seq<string>, upath: string)
    requires parts == ["", "a", "ver=1", "b", "c"] && upath == "/a/ver=1/b/c"
    ensures Join(parts, '/') == upath
  {
    assert Join(parts[4..], '/') == "c";
    assert Join(parts[3..], '/') == "b/c";
    assert Join(parts[2..], '/') == "ver=1/b/c";
    assert Join(parts[1..], '/') == "a/ver=1/b/c";
  }

  /** The segments left after stripping join to the expected path. */
  lemma JoinKeptParts(kept: seq<string>, stripped: string)
    requires kept == ["", "a", "b", "c"] && stripped == "/a/b/c"
    ensures Join(kept, '/') == stripped
  {
    assert Join(kept[3..], '/') == "c";
    assert Join(kept[2..], '/') == "b/c";
    assert Join(kept[1..], '/') == "a/b/c";
  }

  /** `/a/b/ver=1/c`: a third segment that is not a version keeps the path as it is. */
  lemma KeepsOtherPositions(upath: string)
    requires |Segments(upath)| > 2 && !HasPrefix(Segments(upath)[2], "ver=")
    ensures StripVersion(upath) == upath
  {
  }

  /** The headers the inner handler sets when, and only when, the path was versioned. */
  function CacheHeaders(h: Header, upath: string, expires: string): (r: Header)
    ensures HasVersionSegment(upath) ==>
      && "Cache-Control" in r && r["Cache-Control"] == [CacheControl]
      && "X-Content-Type-Options" in r && r["X-Content-Type-Options"] == ["nosniff"]
      && "Expires" in r && r["Expires"] == [expires]
    ensures !HasVersionSegment(upath) ==> r == h
    ensures r.Keys == h.Keys + (if HasVersionSegment(upath) then {"Expires", "Cache-Control", "X-Content-Type-Options"} else {})
    ensures forall k :: k in h && k !in {"Expires", "Cache-Control", "X-Content-Type-Options"} ==> k in r && r[k] == h[k]
  {
    if HasVersionSegment(upath) then
      h["Expires" := [expires]]["Cache-Control" := [CacheControl]]["X-Content-Type-Options" := ["nosniff"]]
    else h
  }

  /**
   * Caching is announced exactly for the paths that were rewritten, provided
   * nothing else had set Cache-Control before.
   */
  lemma CachedIffStripped(h: Header, upath: string, expires: string)
    requires "Cache-Control" !in h
    ensures "Cache-Control" in CacheHeaders(h, upath, expires) <==> StripVersion(upath) != upath
  {
    StrippedIffVersioned(upath);
  }

  /**
   * fileStaticHandler.ServeHTTP.  `clean` stands for path.Clean and
   * `expires` for the formatted date one year ahead; `codecFails` says which
   * compressors fail to open.
   */
  method ServeStatic(w: ResponseWriter, r: Request, clean: string -> string, expires: string, codecFails: set<Encoding>)
    modifies w, r
    ensures r.path == WithLeadingSlash(old(r.path)) && r.header == old(r.header)
    ensures var wr := Gzip.Decide(r.header, codecFails);
      var upath := clean(r.path);
      var marked := Gzip.MarkedHeader(old(w.header), wr);
      var served := CacheHeaders(marked, upath, expires);
      if wr.Failed? then
        w.header == marked && w.trace == old(w.trace) + Gzip.Opening(wr)
      else
        && w.header == served
        && w.trace == old(w.trace) + Gzip.Opening(wr)
             + [FileServed(StripVersion(upath), wr.WriterOf(), served)] + Gzip.Closing(wr)
  {
    var upath := r.path;
    if !HasPrefix(upath, "/") {
      upath := "/" + upath;
      r.path := upath;
    }
    var wr := Gzip.Prepare(w, r.header, codecFails);
    if wr.Failed? {
      return;
    }
    // the handler given to the gzip wrapper
    upath := clean(upath);
    var parts := Split(upath, '/');
    if |parts| > 3 && HasPrefix(parts[2], "ver=") {
      upath := Join(parts[..2], '/') + "/" + Join(parts[3..], '/');
      w.Set("Expires", expires);
      w.Set("Cache-Control", CacheControl);
      w.Set("X-Content-Type-Options", "nosniff");
    }
    w.Record(FileServed(upath, wr.WriterOf(), w.header));
    Gzip.Finish(w, wr);
  }
}
