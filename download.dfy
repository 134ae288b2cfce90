/**
 * The download handler of download.go: request paths get a leading '/', and
 * the file is served with a Content-Disposition header (section 4.1 of
 * RFC 6266) naming the last element of the cleaned path as an attachment.
 */
module Download {
  import opened GoStrings
  import opened Http
  import GoPath

  const DispositionPrefix := "attachment;filename=\""

  /** The header value: the file name quoted verbatim, without any escaping. */
  function ContentDisposition(fn: string): (v: string)
    ensures HasPrefix(v, DispositionPrefix)
    ensures |v| == |DispositionPrefix| + |fn| + 1 && v[|v| - 1] == '"'
    ensures v[|DispositionPrefix|..|v| - 1] == fn
  {
    DispositionPrefix + fn + "\""
  }

  /** The file name a header value carries, read back from between the quotes. */
  function FilenameOf(v: string): (fn: string)
    requires HasPrefix(v, DispositionPrefix) && |v| > |DispositionPrefix| && v[|v| - 1] == '"'
    ensures ContentDisposition(fn) == v
  {
    var fn := v[|DispositionPrefix|..|v| - 1];
    assert v == v[..|DispositionPrefix|] + fn + [v[|v| - 1]];
    fn
  }

  /** Reading the name back gives the name that was written. */
  lemma DispositionRoundTrip(fn: string)
    ensures FilenameOf(ContentDisposition(fn)) == fn
  {
  }

  /** The attachment name of a cleaned path: the text after its last '/'. */
  function AttachmentName(upath: string): (fn: string)
    ensures '/' !in fn
    ensures exists dir :: upath == dir + fn && (dir == "" || dir[|dir| - 1] == '/')
  {
    var (dir, fn) := GoPath.Split(upath);
    fn
  }

  /**
   * fileDownloadHandler.ServeHTTP.  `clean` stands for path.Clean.  The
   * header is in place when ServeFile is called, so it is sent even when the
   * file turns out to be missing.
   */
  method ServeDownload(w: ResponseWriter, r: Request, clean: string -> string)
    modifies w, r
    ensures r.path == WithLeadingSlash(old(r.path)) && r.header == old(r.header)
    ensures var upath := clean(r.path);
      var h := old(w.header)["Content-Disposition" := [ContentDisposition(AttachmentName(upath))]];
      && w.header == h
      && w.trace == old(w.trace) + [FileServed(upath, Plain, h)]
  {
    var upath := r.path;
    if !HasPrefix(upath, "/") {
      upath := "/" + upath;
      r.path := upath;
    }
    // the handler, called directly with the client's writer
    upath := clean(upath);
    var (_, fn) := GoPath.Split(upath);
    w.Set("Content-Disposition", "attachment;filename=\"" + fn + "\"");
    w.Record(FileServed(upath, Plain, w.header));
  }
}
