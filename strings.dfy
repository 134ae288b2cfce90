/**
 * The parts of Go's `strings` package that the handlers rely on, over
 * strings as sequences of Unicode scalar values.  Separators are single
 * characters, which is how every caller in this model uses them.
 */
module GoStrings {

  /** strings.HasPrefix */
  predicate HasPrefix(s: string, prefix: string) {
    |prefix| <= |s| && s[..|prefix|] == prefix
  }

  /** Position of the first occurrence of `c` in `s`. */
  function IndexOf(s: string, c: char): (i: nat)
    requires c in s
    ensures i < |s| && s[i] == c && c !in s[..i]
  {
    if s[0] == c then 0
    else
      assert c in s[1..] by { var k :| 0 <= k < |s| && s[k] == c; assert s[1..][k - 1] == c; }
      var j := IndexOf(s[1..], c);
      assert s[..j + 1] == [s[0]] + s[1..][..j];
      j + 1
  }

  /** strings.Join with a one-character separator. */
  function Join(parts: seq<string>, sep: char): string {
    if |parts| == 0 then ""
    else if |parts| == 1 then parts[0]
    else parts[0] + [sep] + Join(parts[1..], sep)
  }

  /**
   * strings.Split with a one-character separator: the pieces between the
   * separators: at least one of them, and none holding a separator
   * (JoinSplit shows that joining them gives back the input).
   */
  function Split(s: string, sep: char): (parts: seq<string>)
    ensures |parts| >= 1
    ensures forall k :: 0 <= k < |parts| ==> sep !in parts[k]
    decreases |s|
  {
    if sep !in s then [s]
    else
      var i := IndexOf(s, sep);
      [s[..i]] + Split(s[i + 1..], sep)
  }

  /** Joining the pieces of a split with the separator gives back the input. */
  lemma {:induction false} JoinSplit(s: string, sep: char)
    ensures Join(Split(s, sep), sep) == s
    decreases |s|
  {
    if sep in s {
      var i := IndexOf(s, sep);
      var rest := Split(s[i + 1..], sep);
      SplitAtFirst(s, sep);
      JoinSplit(s[i + 1..], sep);
      JoinCons(s[..i], rest, sep);
      Around(s, i);
    } else {
      SplitNoSeparator(s, sep);
    }
  }

  /** With a separator present, the piece before its first occurrence is split off. */
  lemma SplitAtFirst(s: string, sep: char)
    requires sep in s
    ensures Split(s, sep) == [s[..IndexOf(s, sep)]] + Split(s[IndexOf(s, sep) + 1..], sep)
  {
  }

  /** A string is what comes before position `i`, the character there, and what follows. */
  lemma Around(s: string, i: nat)
    requires i < |s|
    ensures s == s[..i] + [s[i]] + s[i + 1..]
  {
  }

  /** A piece put in front of a non-empty list is joined to it with one separator. */
  lemma JoinCons(a: string, rest: seq<string>, sep: char)
    requires |rest| >= 1
    ensures Join([a] + rest, sep) == a + [sep] + Join(rest, sep)
  {
    var parts := [a] + rest;
    assert parts[0] == a && parts[1..] == rest;
  }

  /** Splitting a joined list of separator-free pieces gives the pieces back. */
  lemma {:induction false} SplitJoin(parts: seq<string>, sep: char)
    requires |parts| >= 1
    requires forall k :: 0 <= k < |parts| ==> sep !in parts[k]
    ensures Split(Join(parts, sep), sep) == parts
    decreases |parts|
  {
    if |parts| > 1 {
      var rest := parts[1..];
      JoinCons(parts[0], rest, sep);
      assert [parts[0]] + rest == parts;
      SplitCons(parts[0], Join(rest, sep), sep);
      assert forall k :: 0 <= k < |rest| ==> sep !in rest[k] by {
        forall k | 0 <= k < |rest| ensures sep !in rest[k] { assert rest[k] == parts[k + 1]; }
      }
      SplitJoin(rest, sep);
    } else {
      SplitNoSeparator(parts[0], sep);
      assert [parts[0]] == parts;
    }
  }

  /** Joining two non-empty lists is joining each and putting a separator between. */
  lemma {:induction false} JoinAppend(a: seq<string>, b: seq<string>, sep: char)
    requires |a| >= 1 && |b| >= 1
    ensures Join(a + b, sep) == Join(a, sep) + [sep] + Join(b, sep)
    decreases |a|
  {
    if |a| > 1 {
      assert (a + b)[1..] == a[1..] + b;
      JoinAppend(a[1..], b, sep);
    } else {
      assert (a + b)[1..] == b;
    }
  }

  /** A piece free of the separator, followed by the separator, is split off as the first piece. */
  lemma SplitCons(a: string, b: string, sep: char)
    requires sep !in a
    ensures Split(a + [sep] + b, sep) == [a] + Split(b, sep)
  {
    var s := a + [sep] + b;
    assert s[|a|] == sep;
    assert s[..|a|] == a;
    var i := IndexOf(s, sep);
    assert i == |a|;
    assert s[i + 1..] == b;
  }

  /** A string without the separator is one piece. */
  lemma SplitNoSeparator(s: string, sep: char)
    requires sep !in s
    ensures Split(s, sep) == [s]
  {
  }

  /** strings.TrimLeft: drops the longest prefix made of characters of `cutset`. */
  function TrimLeft(s: string, cutset: set<char>): string {
    if |s| > 0 && s[0] in cutset then TrimLeft(s[1..], cutset) else s
  }

  /** strings.TrimRight: drops the longest suffix made of characters of `cutset`. */
  function TrimRight(s: string, cutset: set<char>): string {
    if |s| > 0 && s[|s| - 1] in cutset then TrimRight(s[..|s| - 1], cutset) else s
  }

  /** strings.Trim: TrimLeft followed by TrimRight. */
  function Trim(s: string, cutset: set<char>): string {
    TrimRight(TrimLeft(s, cutset), cutset)
  }

  /** The characters Go's unicode.IsSpace accepts, which strings.TrimSpace removes. */
  const Whitespace: set<char> := {
    '\t', '\n', '\U{B}', '\U{C}', '\r', ' ', '\U{85}', '\U{A0}', '\U{1680}',
    '\U{2000}', '\U{2001}', '\U{2002}', '\U{2003}', '\U{2004}', '\U{2005}',
    '\U{2006}', '\U{2007}', '\U{2008}', '\U{2009}', '\U{200A}',
    '\U{2028}', '\U{2029}', '\U{202F}', '\U{205F}', '\U{3000}'
  }

  /** strings.TrimSpace */
  function TrimSpace(s: string): string {
    Trim(s, Whitespace)
  }

  /**
   * What TrimLeft removes: a prefix made only of cut characters, leaving a
   * string that does not start with one.
   */
  lemma {:induction false} TrimLeftSpec(s: string, cutset: set<char>)
    ensures var r := TrimLeft(s, cutset);
      && |r| <= |s| && r == s[|s| - |r|..]
      && (forall k :: 0 <= k < |s| - |r| ==> s[k] in cutset)
      && (|r| > 0 ==> r[0] !in cutset)
    decreases |s|
  {
    if |s| > 0 && s[0] in cutset {
      TrimLeftSpec(s[1..], cutset);
    }
  }

  /**
   * What TrimRight removes: a suffix made only of cut characters, leaving a
   * string that does not end with one.
   */
  lemma {:induction false} TrimRightSpec(s: string, cutset: set<char>)
    ensures var r := TrimRight(s, cutset);
      && |r| <= |s| && r == s[..|r|]
      && (forall k :: |r| <= k < |s| ==> s[k] in cutset)
      && (|r| > 0 ==> r[|r| - 1] !in cutset)
    decreases |s|
  {
    if |s| > 0 && s[|s| - 1] in cutset {
      TrimRightSpec(s[..|s| - 1], cutset);
    }
  }

  /** Trim keeps a contiguous part of its input. */
  lemma TrimSlice(s: string, cutset: set<char>)
    ensures exists i, j :: 0 <= i <= j <= |s| && Trim(s, cutset) == s[i..j]
  {
    TrimLeftSpec(s, cutset);
    var left := TrimLeft(s, cutset);
    TrimRightSpec(left, cutset);
    var i := |s| - |left|;
    var j := i + |TrimRight(left, cutset)|;
    assert Trim(s, cutset) == s[i..j];
  }

  /** A character absent from the input is absent from the trimmed string. */
  lemma TrimKeepsAbsent(s: string, cutset: set<char>, c: char)
    requires c !in s
    ensures c !in Trim(s, cutset)
  {
    TrimSlice(s, cutset);
    var i, j :| 0 <= i <= j <= |s| && Trim(s, cutset) == s[i..j];
  }

  /** Trimming twice is trimming once. */
  lemma TrimIdempotent(s: string, cutset: set<char>)
    ensures Trim(Trim(s, cutset), cutset) == Trim(s, cutset)
  {
    var left := TrimLeft(s, cutset);
    TrimLeftSpec(s, cutset);
    var t := TrimRight(left, cutset);
    TrimRightSpec(left, cutset);
    if |t| > 0 {
      assert t[0] == left[0];
    }
    assert TrimLeft(t, cutset) == t;
  }

  /** Trimming a string that neither starts nor ends with a cut character changes nothing. */
  lemma TrimUntouched(s: string, cutset: set<char>)
    requires |s| > 0 ==> s[0] !in cutset && s[|s| - 1] !in cutset
    ensures Trim(s, cutset) == s
  {
  }

  /**
   * Trimming stops at the first character outside the cut set, so a string
   * split at such a character trims on each side only.
   */
  lemma {:induction false} TrimAround(a: string, c: char, b: string, cutset: set<char>)
    requires c !in cutset
    ensures Trim(a + [c] + b, cutset) == TrimLeft(a, cutset) + [c] + TrimRight(b, cutset)
  {
    var left := TrimLeft(a, cutset);
    var x := left + [c];
    assert a + [c] + b == a + ([c] + b);
    TrimLeftAround(a, [c] + b, cutset);
    assert TrimLeft(a + [c] + b, cutset) == left + ([c] + b);
    assert left + ([c] + b) == x + b;
    TrimRightAround(x, b, cutset);
    assert TrimRight(x + b, cutset) == x + TrimRight(b, cutset);
  }

  /** A string made only of cut characters is trimmed away entirely from the left. */
  lemma {:induction false} TrimLeftAll(s: string, cutset: set<char>)
    requires forall k :: 0 <= k < |s| ==> s[k] in cutset
    ensures TrimLeft(s, cutset) == ""
    decreases |s|
  {
    if |s| > 0 {
      assert forall k :: 0 <= k < |s| - 1 ==> s[1..][k] == s[k + 1];
      TrimLeftAll(s[1..], cutset);
    }
  }

  /** A string made only of cut characters is trimmed away entirely from the right. */
  lemma {:induction false} TrimRightAll(s: string, cutset: set<char>)
    requires forall k :: 0 <= k < |s| ==> s[k] in cutset
    ensures TrimRight(s, cutset) == ""
    decreases |s|
  {
    if |s| > 0 {
      assert forall k :: 0 <= k < |s| - 1 ==> s[..|s| - 1][k] == s[k];
      TrimRightAll(s[..|s| - 1], cutset);
    }
  }

  lemma {:induction false} TrimLeftAround(a: string, b: string, cutset: set<char>)
    requires |b| > 0 && b[0] !in cutset
    ensures TrimLeft(a + b, cutset) == TrimLeft(a, cutset) + b
    decreases |a|
  {
    if |a| > 0 {
      assert (a + b)[1..] == a[1..] + b;
      if a[0] in cutset { TrimLeftAround(a[1..], b, cutset); }
    } else {
      assert a + b == b;
    }
  }

  lemma {:induction false} TrimRightAround(a: string, b: string, cutset: set<char>)
    requires |a| > 0 && a[|a| - 1] !in cutset
    ensures TrimRight(a + b, cutset) == a + TrimRight(b, cutset)
    decreases |b|
  {
    if |b| > 0 {
      assert (a + b)[..|a + b| - 1] == a + b[..|b| - 1];
      if b[|b| - 1] in cutset { TrimRightAround(a, b[..|b| - 1], cutset); }
    } else {
      assert a + b == a;
    }
  }

}

/** The part of Go's `path` package used by the download handler. */
module GoPath {

  /** Position of the last '/' in `p`, or -1 when there is none (strings.LastIndex). */
  function LastSlash(p: string): (i: int)
    ensures -1 <= i < |p|
    ensures i >= 0 ==> p[i] == '/'
    ensures forall k :: i < k < |p| ==> p[k] != '/'
  {
    if |p| == 0 then -1
    else if p[|p| - 1] == '/' then |p| - 1
    else LastSlash(p[..|p| - 1])
  }

  /**
   * path.Split: splits immediately after the last '/', so the file part holds
   * no '/', the directory part is empty or ends in '/', and the two together
   * are the input.
   */
  function Split(p: string): (r: (string, string))
    ensures r.0 + r.1 == p
    ensures '/' !in r.1
    ensures r.0 == "" || r.0[|r.0| - 1] == '/'
  {
    var i := LastSlash(p);
    if i < 0 then ("", p)
    else
      var dir, file := p[..i + 1], p[i + 1..];
      assert forall k :: 0 <= k < |file| ==> file[k] == p[i + 1 + k];
      (dir, file)
  }
}
