/**
 * content_negotiation.go: a deliberately simple reading of the Accept header
 * (section 14.1 of RFC 2616) for endpoints that serve one fixed content type.
 * Media types are split into a type and a subtype; parameters such as `q`
 * are ignored.
 */
module ContentNegotiation {
  import opened GoStrings
  import opened Http

  /** The characters strings.Trim(raw, " ") removes. */
  const Blank: set<char> := {' '}

  datatype MimeType = MimeType(typ: string, subType: string) {

    /** Both parts present: the only targets Matches can accept. */
    predicate Complete() {
      typ != "" && subType != ""
    }

    /** The "type/subtype" form. */
    function String(): string {
      typ + "/" + subType
    }

    /**
     * Whether this pattern accepts `target`: an incomplete target never
     * matches; the pattern with both parts "*" matches every complete
     * target; a pattern T with subtype "*" matches the complete targets of
     * type T; any other pattern (including type "*" with subtype "xml")
     * matches only the identical complete type.
     */
    function Matches(target: MimeType): (r: bool)
      ensures !target.Complete() ==> !r
      ensures this == MimeType("*", "*") ==> (r <==> target.Complete())
      ensures typ != "*" && subType == "*" ==> (r <==> target.Complete() && target.typ == typ)
      ensures subType != "*" ==> (r <==> target.Complete() && target == this)
    {
      if target.typ == "" || target.subType == "" then false
      else if subType == "*" then target.typ == typ || typ == "*"
      else target.typ == typ && target.subType == subType
    }
  }

  /**
   * parseMimeType: everything from the first ';' on is dropped, blanks are
   * trimmed, and the rest is split at '/'; a third part is ignored, a lone
   * "*" stands for type and subtype "*", and any other lone token gets an empty subtype.
   */
  function ParseMimeType(raw: string): (m: MimeType)
    ensures '/' !in m.typ && '/' !in m.subType
  {
    var parts := Split(Trim(raw, Blank), ';');
    var typeParts := Split(Trim(parts[0], Blank), '/');
    var subType :=
      if |typeParts| > 1 then typeParts[1]
      else if |typeParts| == 1 && typeParts[0] == "*" then "*"
      else "";
    MimeType(typeParts[0], subType)
  }

  /** The parts of a media type that parsing its String() gives back unchanged. */
  predicate Printable(m: MimeType) {
    && '/' !in m.typ && ';' !in m.typ
    && '/' !in m.subType && ';' !in m.subType
    && (|m.typ| > 0 ==> m.typ[0] != ' ')
    && (|m.subType| > 0 ==> m.subType[|m.subType| - 1] != ' ')
  }

  /** Parsing is blind to blanks around the raw value. */
  lemma ParseTrims(raw: string)
    ensures ParseMimeType(raw) == ParseMimeType(Trim(raw, Blank))
  {
    TrimIdempotent(raw, Blank);
  }

  /** Everything after the first ';' is ignored: `text/xml ;q=0.6` parses as `text/xml`. */
  lemma ParseIgnoresParameters(pre: string, params: string)
    requires ';' !in pre
    ensures ParseMimeType(pre + ";" + params) == ParseMimeType(pre)
  {
    var left := TrimLeft(pre, Blank);
    TrimAround(pre, ';', params, Blank);
    assert pre + ";" + params == pre + [';'] + params;
    TrimLeftSpec(pre, Blank);
    assert ';' !in left;
    SplitCons(left, TrimRight(params, Blank), ';');
    // the first piece, trimmed, is the trimmed prefix
    TrimIdempotent(pre, Blank);
    assert TrimLeft(left, Blank) == left by {
      if |left| > 0 { assert left[0] !in Blank; }
    }
    assert Trim(left, Blank) == Trim(pre, Blank);
    // and parsing the prefix alone sees the same piece
    TrimKeepsAbsent(pre, Blank, ';');
    SplitNoSeparator(Trim(pre, Blank), ';');
  }

  /** A media type whose parts hold no '/' or ';' and no outer blanks survives printing and parsing. */
  lemma ParseString(m: MimeType)
    requires Printable(m)
    ensures ParseMimeType(m.String()) == m
  {
    var s := m.String();
    assert s == m.typ + ['/'] + m.subType;
    TrimUntouched(s, Blank);
    assert ';' !in s;
    SplitNoSeparator(s, ';');
    SplitJoin([m.typ, m.subType], '/');
  }

  /** A third '/'-separated part is ignored. */
  lemma ParseIgnoresThirdPart(m: MimeType, rest: string)
    requires Printable(m) && ';' !in rest
    ensures ParseMimeType(m.String() + "/" + rest) == m
  {
    var s := m.String() + "/" + rest;
    var x := m.subType + "/" + rest;
    assert s == m.typ + ['/'] + x;
    TrimAround(m.typ, '/', x, Blank);
    assert TrimLeft(m.typ, Blank) == m.typ;
    assert x == (m.subType + "/") + rest;
    TrimRightAround(m.subType + "/", rest, Blank);
    var t := m.typ + ['/'] + (m.subType + ['/'] + TrimRight(rest, Blank));
    assert Trim(s, Blank) == t;
    TrimRightSpec(rest, Blank);
    assert ';' !in TrimRight(rest, Blank);
    assert ';' !in t;
    SplitNoSeparator(t, ';');
    TrimIdempotent(s, Blank);
    SplitCons(m.typ, m.subType + ['/'] + TrimRight(rest, Blank), '/');
    SplitCons(m.subType, TrimRight(rest, Blank), '/');
  }

  /** A bare "*" parses as type "*" with subtype "*", so it accepts every complete target. */
  lemma BareStar(target: MimeType)
    ensures ParseMimeType("*") == MimeType("*", "*")
    ensures ParseMimeType("*").Matches(target) <==> target.Complete()
  {
    TrimUntouched("*", Blank);
    SplitNoSeparator("*", ';');
    SplitNoSeparator("*", '/');
  }

  /** Any other single token gets an empty subtype and so matches nothing. */
  lemma SingleToken(token: string, target: MimeType)
    requires '/' !in token && ';' !in token && token != "*"
    requires |token| > 0 ==> token[0] != ' ' && token[|token| - 1] != ' '
    ensures ParseMimeType(token) == MimeType(token, "")
    ensures !ParseMimeType(token).Matches(target)
  {
    TrimUntouched(token, Blank);
    SplitNoSeparator(token, ';');
    SplitNoSeparator(token, '/');
  }

  /** Some comma-separated element of one Accept value matches `target`. */
  predicate ValueAccepts(value: string, target: MimeType) {
    exists j :: 0 <= j < |Split(value, ',')| && ParseMimeType(Split(value, ',')[j]).Matches(target)
  }

  /**
   * The meaning of AcceptsContentType: no Accept header, or a first value
   * that is empty, accepts everything; otherwise some element of some value
   * must match the parsed content type.
   */
  predicate Accepts(h: Header, contentType: string)
    requires "Accept" in h ==> |h["Accept"]| > 0
  {
    || "Accept" !in h
    || h["Accept"][0] == ""
    || exists i :: 0 <= i < |h["Accept"]| && ValueAccepts(h["Accept"][i], ParseMimeType(contentType))
  }

  /**
   * AcceptsContentType.  An Accept key holding no values at all would make
   * the source index an empty slice, which net/http never produces.
   */
  method AcceptsContentType(h: Header, contentType: string) returns (r: bool)
    requires "Accept" in h ==> |h["Accept"]| > 0
    ensures r == Accepts(h, contentType)
    ensures ("Accept" !in h || h["Accept"][0] == "") ==> r
  {
    if "Accept" !in h || h["Accept"][0] == "" {
      return true;
    }
    var values := h["Accept"];
    var target := ParseMimeType(contentType);
    var i := 0;
    while i < |values|
      invariant 0 <= i <= |values|
      invariant forall k :: 0 <= k < i ==> !ValueAccepts(values[k], target)
    {
      var raws := Split(values[i], ',');
      var j := 0;
      while j < |raws|
        invariant 0 <= j <= |raws|
        invariant forall k :: 0 <= k < j ==> !ParseMimeType(raws[k]).Matches(target)
      {
        if ParseMimeType(raws[j]).Matches(target) {
          assert ValueAccepts(values[i], target);
          return true;
        }
        j := j + 1;
      }
      i := i + 1;
    }
    return false;
  }

  /** Adding a further Accept value never withdraws acceptance. */
  lemma AcceptsMoreValues(h: Header, contentType: string, v: string)
    requires "Accept" in h && |h["Accept"]| > 0
    requires Accepts(h, contentType)
    ensures Accepts(h["Accept" := h["Accept"] + [v]], contentType)
  {
    var h' := h["Accept" := h["Accept"] + [v]];
    assert h'["Accept"][0] == h["Accept"][0];
    if h["Accept"][0] != "" {
      var i :| 0 <= i < |h["Accept"]| && ValueAccepts(h["Accept"][i], ParseMimeType(contentType));
      assert h'["Accept"][i] == h["Accept"][i];
    }
  }

  /** One Accept value without commas accepts exactly what its media type matches. */
  lemma SingleAcceptValue(v: string, contentType: string)
    requires v != "" && ',' !in v
    ensures Accepts(map["Accept" := [v]], contentType)
        <==> ParseMimeType(v).Matches(ParseMimeType(contentType))
  {
    SplitNoSeparator(v, ',');
  }

  /** An Accept value naming the content type accepts it. */
  lemma AcceptsExactType()
    ensures Accepts(map["Accept" := ["text/xml"]], "text/xml")
  {
    AcceptsPrinted(MimeType("text", "xml"), MimeType("text", "xml"), "text/xml", "text/xml");
  }

  /** Any element of a comma-separated list may name it, blanks after the comma allowed. */
  lemma AcceptsListElement()
    ensures Accepts(map["Accept" := ["text/html, text/xml"]], "text/xml")
  {
    assert "text/html" + "," + " " + "text/xml" == "text/html, text/xml";
    AcceptsLaterElement("text/html", " ", MimeType("text", "xml"), MimeType("text", "xml"), "text/xml");
  }

  /** Parameters after ';' are ignored. */
  lemma AcceptsWithParameters()
    ensures Accepts(map["Accept" := ["text/xml ;q=0.6"]], "text/xml")
  {
    assert "text/xml" + " " + ";" + "q=0.6" == "text/xml ;q=0.6";
    AcceptsIgnoringParameters(MimeType("text", "xml"), " ", MimeType("text", "xml"), "text/xml", "q=0.6");
  }

  /** List elements need no blank after the comma. */
  lemma AcceptsAdjacentListElement()
    ensures Accepts(map["Accept" := ["text/html,text/xml"]], "text/xml")
  {
    assert "text/html" + "," + "" + "text/xml" == "text/html,text/xml";
    AcceptsLaterElement("text/html", "", MimeType("text", "xml"), MimeType("text", "xml"), "text/xml");
  }

  /** Parameters directly after the media type are ignored too. */
  lemma AcceptsWithAdjacentParameters()
    ensures Accepts(map["Accept" := ["text/xml;q=0.8"]], "text/xml")
  {
    assert "text/xml" + "" + ";" + "q=0.8" == "text/xml;q=0.8";
    AcceptsIgnoringParameters(MimeType("text", "xml"), "", MimeType("text", "xml"), "text/xml", "q=0.8");
  }

  /** A wildcard subtype accepts the content type. */
  lemma AcceptsSubtypeWildcard()
    ensures Accepts(map["Accept" := ["text/*"]], "text/xml")
  {
    AcceptsPrinted(MimeType("text", "*"), MimeType("text", "xml"), "text/*", "text/xml");
  }

  /** Wildcards in both parts accept the content type. */
  lemma AcceptsFullWildcard()
    ensures Accepts(map["Accept" := ["*/*"]], "text/xml")
  {
    AcceptsPrinted(MimeType("*", "*"), MimeType("text", "xml"), "*/*", "text/xml");
  }

  /** A lone "*" accepts every content type that has both parts. */
  lemma AcceptsBareStar(contentType: string)
    ensures Accepts(map["Accept" := ["*"]], contentType) <==> ParseMimeType(contentType).Complete()
  {
    BareStar(ParseMimeType(contentType));
    SingleAcceptValue("*", contentType);
  }

  /** A missing Accept header, or an empty first value, accepts anything. */
  lemma AcceptsWithoutPreference(contentType: string)
    ensures Accepts(map[], contentType)
    ensures Accepts(map["Accept" := [""]], contentType)
  {
  }

  /** An Accept value naming another type rejects the content type. */
  lemma RejectsOtherType()
    ensures !Accepts(map["Accept" := ["text/xml"]], "text/html")
  {
    AcceptsPrinted(MimeType("text", "xml"), MimeType("text", "html"), "text/xml", "text/html");
  }

  /** A wildcard type with a concrete subtype matches only itself. */
  lemma RejectsTypeWildcard()
    ensures !Accepts(map["Accept" := ["*/xml"]], "text/xml")
  {
    AcceptsPrinted(MimeType("*", "xml"), MimeType("text", "xml"), "*/xml", "text/xml");
  }

  /** A type without a subtype, such as "text", accepts nothing. */
  lemma RejectsMissingSubtype(token: string, contentType: string)
    requires token != "" && '/' !in token && ';' !in token && ',' !in token && token != "*"
    requires token[0] != ' ' && token[|token| - 1] != ' '
    ensures !Accepts(map["Accept" := [token]], contentType)
  {
    SingleToken(token, ParseMimeType(contentType));
    SingleAcceptValue(token, contentType);
  }

  /** An Accept header of one printed media type, against a printed content type. */
  lemma AcceptsPrinted(pattern: MimeType, target: MimeType, v: string, contentType: string)
    requires Printable(pattern) && Printable(target)
    requires v == pattern.String() && contentType == target.String() && ',' !in v
    ensures Accepts(map["Accept" := [v]], contentType) <==> pattern.Matches(target)
  {
    ParseString(pattern);
    ParseString(target);
    SingleAcceptValue(v, contentType);
  }

  /** The printed form of a media type starts and ends outside the blanks. */
  lemma PrintedUntrimmed(m: MimeType)
    requires Printable(m) && ',' !in m.typ + m.subType
    ensures var p := m.String(); |p| > 0 && p[0] != ' ' && p[|p| - 1] != ' ' && ',' !in p
  {
    var p := m.String();
    assert p == m.typ + ['/'] + m.subType;
    assert ',' !in m.typ && ',' !in m.subType by {
      assert forall k :: 0 <= k < |m.typ| ==> m.typ[k] == (m.typ + m.subType)[k];
      assert forall k :: 0 <= k < |m.subType| ==> m.subType[k] == (m.typ + m.subType)[|m.typ| + k];
    }
  }

  /** A printed media type listed after a comma and any run of blanks, none included, is still read. */
  lemma AcceptsLaterElement(first: string, gap: string, m: MimeType, target: MimeType, contentType: string)
    requires ',' !in first && ',' !in m.typ + m.subType
    requires forall k :: 0 <= k < |gap| ==> gap[k] == ' '
    requires Printable(m) && Printable(target) && contentType == target.String()
    requires m.Matches(target)
    ensures Accepts(map["Accept" := [first + "," + gap + m.String()]], contentType)
  {
    var p := m.String();
    PrintedUntrimmed(m);
    var value := first + "," + gap + p;
    var element := gap + p;
    assert value == first + [','] + element;
    assert ',' !in element by {
      assert forall k :: 0 <= k < |gap| ==> element[k] == gap[k];
      assert forall k :: 0 <= k < |p| ==> element[|gap| + k] == p[k];
    }
    SplitCons(first, element, ',');
    SplitNoSeparator(element, ',');
    assert Split(value, ',')[1] == element;
    ParseTrims(element);
    TrimLeftAround(gap, p, Blank);
    TrimLeftAll(gap, Blank);
    assert TrimLeft(element, Blank) == p;
    TrimUntouched(p, Blank);
    ParseString(m);
    ParseString(target);
    assert ParseMimeType(Split(value, ',')[1]).Matches(ParseMimeType(contentType));
  }

  /** A printed media type followed by any run of blanks and parameters accepts what the media type matches. */
  lemma AcceptsIgnoringParameters(m: MimeType, gap: string, target: MimeType, contentType: string, params: string)
    requires ',' !in m.typ + m.subType && ',' !in params
    requires forall k :: 0 <= k < |gap| ==> gap[k] == ' '
    requires Printable(m) && Printable(target) && contentType == target.String()
    ensures Accepts(map["Accept" := [m.String() + gap + ";" + params]], contentType) <==> m.Matches(target)
  {
    var value := m.String() + gap + ";" + params;
    ParsedWithParameters(m, gap, params);
    ParseString(target);
    SingleAcceptValue(value, contentType);
  }

  /** A printed media type followed by blanks and parameters parses back to itself. */
  lemma ParsedWithParameters(m: MimeType, gap: string, params: string)
    requires ',' !in m.typ + m.subType && ',' !in params
    requires forall k :: 0 <= k < |gap| ==> gap[k] == ' '
    requires Printable(m)
    ensures ParseMimeType(m.String() + gap + ";" + params) == m
    ensures ',' !in m.String() + gap + ";" + params
  {
    var p := m.String();
    PrintedUntrimmed(m);
    var pre := p + gap;
    var value := m.String() + gap + ";" + params;
    assert value == pre + ";" + params;
    assert ';' !in pre && ',' !in pre by {
      assert p == m.typ + ['/'] + m.subType;
      assert forall k :: 0 <= k < |p| ==> pre[k] == p[k];
      assert forall k :: 0 <= k < |gap| ==> pre[|p| + k] == gap[k];
    }
    ParseIgnoresParameters(pre, params);
    ParseTrims(pre);
    assert Trim(pre, Blank) == p by {
      assert pre[0] == p[0];
      assert TrimLeft(pre, Blank) == pre;
      TrimRightAround(p, gap, Blank);
      TrimRightAll(gap, Blank);
      TrimUntouched(p, Blank);
    }
    ParseString(m);
  }

  /**
   * ContainsContentType: whether the request's Content-Type matches the
   * pattern `contentType`; a request without a Content-Type never does,
   * not even for the all-wildcard pattern.
   */
  function ContainsContentType(h: Header, contentType: string): (r: bool)
    ensures r ==> ParseMimeType(Get(h, "Content-Type")).Complete()
    ensures "Content-Type" !in h ==> !r
  {
    var target := ParseMimeType(contentType);
    var header := Get(h, "Content-Type");
    assert header == "" ==> !ParseMimeType(header).Complete() by {
      if header == "" {
        TrimUntouched("", Blank);
        SplitNoSeparator("", ';');
        SplitNoSeparator("", '/');
      }
    }
    target.Matches(ParseMimeType(header))
  }

  /** A request with Content-Type text/xml contains text/xml. */
  lemma ContainsExactType()
    ensures ContainsContentType(map["Content-Type" := ["text/xml"]], "text/xml")
  {
    ContainsPrinted(MimeType("text", "xml"), MimeType("text", "xml"), "text/xml", "text/xml");
  }

  /** It also contains text with any subtype. */
  lemma ContainsSubtypeWildcard()
    ensures ContainsContentType(map["Content-Type" := ["text/xml"]], "text/*")
  {
    ContainsPrinted(MimeType("text", "*"), MimeType("text", "xml"), "text/*", "text/xml");
  }

  /** And it contains any type at all. */
  lemma ContainsFullWildcard()
    ensures ContainsContentType(map["Content-Type" := ["text/xml"]], "*/*")
  {
    ContainsPrinted(MimeType("*", "*"), MimeType("text", "xml"), "*/*", "text/xml");
  }

  /** A request whose Content-Type is a printed media type, against a printed pattern. */
  lemma ContainsPrinted(pattern: MimeType, target: MimeType, contentType: string, v: string)
    requires Printable(pattern) && Printable(target)
    requires contentType == pattern.String() && v == target.String()
    ensures ContainsContentType(map["Content-Type" := [v]], contentType) <==> pattern.Matches(target)
  {
    assert Get(map["Content-Type" := [v]], "Content-Type") == v;
    ParseString(pattern);
    ParseString(target);
  }
}
