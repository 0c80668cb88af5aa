/** The parser that turns the Gemini CLI's captured stdout and stderr into a
    response: the whole of stdout, stripped of surrounding whitespace, is the
    content, and a non-blank stderr is kept as metadata. Blank stdout is an
    error. Stripping follows Python's `str.strip()` with no argument. */
module GeminiText {
  import opened Basics

  /** The characters for which Python's `str.isspace()` holds: the ASCII
      control whitespace, the information separators 0x1C-0x1F, NEL,
      no-break space and the Unicode space separators, line and paragraph
      separators. */
  predicate IsSpace(c: char)
  {
    || ('\t' <= c <= '\r')
    || ('\U{1C}' <= c <= '\U{1F}')
    || c == ' '
    || c == '\U{85}'
    || c == '\U{A0}'
    || c == '\U{1680}'
    || ('\U{2000}' <= c <= '\U{200A}')
    || c == '\U{2028}'
    || c == '\U{2029}'
    || c == '\U{202F}'
    || c == '\U{205F}'
    || c == '\U{3000}'
  }

  /** Every character of `s` is whitespace (vacuously so for ""). This is
      exactly when Python's `not s.strip()` holds. */
  predicate AllSpace(s: string)
  {
    forall i :: 0 <= i < |s| ==> IsSpace(s[i])
  }

  /** `t` neither starts nor ends with whitespace. */
  predicate Trimmed(t: string)
  {
    t == [] || (!IsSpace(t[0]) && !IsSpace(t[|t| - 1]))
  }

  /** `s` without its leading whitespace. */
  function StripLeading(s: string): (r: string)
    ensures |r| <= |s| && r == s[|s| - |r|..]
    ensures AllSpace(s[..|s| - |r|])
    ensures r == [] || !IsSpace(r[0])
  {
    if s != [] && IsSpace(s[0]) then
      var r := StripLeading(s[1..]);
      assert s[..|s| - |r|] == [s[0]] + s[1..][..|s[1..]| - |r|];
      r
    else s
  }

  /** `s` without its trailing whitespace. */
  function StripTrailing(s: string): (r: string)
    ensures |r| <= |s| && r == s[..|r|]
    ensures AllSpace(s[|r|..])
    ensures r == [] || !IsSpace(r[|r| - 1])
  {
    if s != [] && IsSpace(s[|s| - 1]) then
      var r := StripTrailing(s[..|s| - 1]);
      assert s[|r|..] == s[..|s| - 1][|r|..] + [s[|s| - 1]];
      r
    else s
  }

  /** Python's `s.strip()`. */
  function Strip(s: string): (r: string)
    ensures |r| <= |s|
    ensures Trimmed(r)
    ensures r == [] <==> AllSpace(s)
  {
    var l := StripLeading(s);
    var r := StripTrailing(l);
    assert r == [] ==> AllSpace(s) by {
      if r == [] {
        assert AllSpace(l);
        assert s == s[..|s| - |l|] + l;
      }
    }
    r
  }

  /** Removing leading whitespace from whitespace followed by a part that
      does not start with whitespace leaves exactly that part. */
  lemma {:induction false} StripLeadingSpacePrefix(a: string, u: string)
    requires AllSpace(a)
    requires u == [] || !IsSpace(u[0])
    ensures StripLeading(a + u) == u
  {
    if a != [] {
      assert (a + u)[1..] == a[1..] + u;
      StripLeadingSpacePrefix(a[1..], u);
    }
  }

  /** Removing trailing whitespace from a part that does not end with
      whitespace followed by whitespace leaves exactly that part. */
  lemma {:induction false} StripTrailingSpaceSuffix(u: string, b: string)
    requires AllSpace(b)
    requires u == [] || !IsSpace(u[|u| - 1])
    ensures StripTrailing(u + b) == u
  {
    if b != [] {
      assert (u + b)[..|u + b| - 1] == u + b[..|b| - 1];
      StripTrailingSpaceSuffix(u, b[..|b| - 1]);
    }
  }

  /** The reference definition of stripping: whenever `s` splits into
      whitespace, a trimmed middle and whitespace, the strip of `s` is that
      middle. Together with `StripBounds`, which finds such a split for every
      `s`, this pins `Strip` down completely. */
  lemma StripUnique(a: string, t: string, b: string)
    requires AllSpace(a) && AllSpace(b) && Trimmed(t)
    ensures Strip(a + t + b) == t
  {
    if t == [] {
      assert a + t + b == (a + b) + [];
      StripLeadingSpacePrefix(a + b, []);
    } else {
      assert a + t + b == a + (t + b);
      StripLeadingSpacePrefix(a, t + b);
      StripTrailingSpaceSuffix(t, b);
    }
  }

  /** Stripping twice strips nothing more. */
  lemma StripIdempotent(s: string)
    ensures Strip(Strip(s)) == Strip(s)
  {
    var t := Strip(s);
    assert [] + t + [] == t;
    StripUnique([], t, []);
  }

  /** The two scans of the strip algorithm: advance `lo` past leading
      whitespace, then pull `hi` back over trailing whitespace. The stripped
      string is the slice between them. */
  method StripBounds(s: string) returns (lo: nat, hi: nat)
    ensures lo <= hi <= |s|
    ensures AllSpace(s[..lo]) && AllSpace(s[hi..])
    ensures Trimmed(s[lo..hi])
    ensures s[lo..hi] == Strip(s)
  {
    lo := 0;
    while lo < |s| && IsSpace(s[lo])
      invariant lo <= |s|
      invariant AllSpace(s[..lo])
    {
      lo := lo + 1;
    }
    hi := |s|;
    while hi > lo && IsSpace(s[hi - 1])
      invariant lo <= hi <= |s|
      invariant AllSpace(s[hi..])
    {
      hi := hi - 1;
    }
    assert s[..lo] + s[lo..hi] + s[hi..] == s;
    StripUnique(s[..lo], s[lo..hi], s[hi..]);
  }

  /** What the parser returns on success. */
  datatype ParsedResponse = ParsedResponse(content: string, metadata: map<string, string>)

  /** What the parser raises on unusable output. */
  datatype ParserError = ParserError(message: string)

  const EmptyStdoutMessage: string := "Gemini CLI returned empty stdout"

  /** The only metadata key the parser ever sets. */
  const StderrKey: string := "stderr"

  /** `GeminiTextParser.parse`. */
  function Parse(stdout: string, stderr: string): (r: Result<ParsedResponse, ParserError>)
    ensures r.Err? <==> AllSpace(stdout)
    ensures r.Err? ==> r.error == ParserError(EmptyStdoutMessage)
    ensures r.Ok? ==> r.value.content == Strip(stdout)
    ensures r.Ok? ==> r.value.content != [] && Trimmed(r.value.content)
    ensures r.Ok? ==> r.value.metadata.Keys <= {StderrKey}
    ensures r.Ok? ==> (StderrKey in r.value.metadata <==> !AllSpace(stderr))
    ensures r.Ok? && StderrKey in r.value.metadata ==>
              r.value.metadata[StderrKey] == Strip(stderr) && r.value.metadata[StderrKey] != []
  {
    if Strip(stdout) == [] then
      Err(ParserError(EmptyStdoutMessage))
    else
      var metadata: map<string, string> :=
        if stderr != [] && Strip(stderr) != [] then map[StderrKey := Strip(stderr)] else map[];
      Ok(ParsedResponse(Strip(stdout), metadata))
  }

  /** Feeding the parsed content back in as stdout yields the same content,
      whatever stderr accompanies it. */
  lemma ReparseContent(stdout: string, stderr: string, stderr2: string)
    requires Parse(stdout, stderr).Ok?
    ensures Parse(Parse(stdout, stderr).value.content, stderr2).Ok?
    ensures Parse(Parse(stdout, stderr).value.content, stderr2).value.content
            == Parse(stdout, stderr).value.content
  {
    StripIdempotent(stdout);
  }

  /** Concatenating whitespace with whitespace gives whitespace. */
  lemma AllSpaceConcat(x: string, y: string)
    requires AllSpace(x) && AllSpace(y)
    ensures AllSpace(x + y)
  {
    forall i | 0 <= i < |x + y|
      ensures IsSpace((x + y)[i])
    {
      if i >= |x| {
        assert (x + y)[i] == y[i - |x|];
      }
    }
  }

  /** Moving the outer parts of a five-way concatenation inwards. */
  lemma Regroup(a: string, f: string, t: string, k: string, b: string)
    ensures a + (f + t + k) + b == (a + f) + t + (k + b)
  {
  }

  /** Every string is its strip surrounded by whitespace. */
  lemma StripDecomposes(s: string) returns (front: string, back: string)
    ensures AllSpace(front) && AllSpace(back)
    ensures s == front + Strip(s) + back
  {
    var l := StripLeading(s);
    front := s[..|s| - |l|];
    SplitAt(s, |s| - |l|);
    var t := StripTrailing(l);
    back := l[|t|..];
    SplitAt(l, |t|);
    assert t == Strip(s);
    ConcatAssoc(front, t, back);
  }

  /** A string is the concatenation of its two halves at any cut. */
  lemma SplitAt(s: string, k: nat)
    requires k <= |s|
    ensures s == s[..k] + s[k..]
  {
  }

  /** Whitespace added around a string is removed again by stripping. */
  lemma StripIgnoresSurroundingSpace(a: string, s: string, b: string)
    requires AllSpace(a) && AllSpace(b)
    ensures Strip(a + s + b) == Strip(s)
  {
    var front, back := StripDecomposes(s);
    var t := Strip(s);
    AllSpaceConcat(a, front);
    AllSpaceConcat(back, b);
    Regroup(a, front, t, back, b);
    StripUnique(a + front, t, back + b);
  }

  /** Whitespace around stdout never changes the outcome. */
  lemma ParseIgnoresSurroundingSpace(a: string, stdout: string, b: string, stderr: string)
    requires AllSpace(a) && AllSpace(b)
    ensures Parse(a + stdout + b, stderr) == Parse(stdout, stderr)
  {
    StripIgnoresSurroundingSpace(a, stdout, b);
  }
}
