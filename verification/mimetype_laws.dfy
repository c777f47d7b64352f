/**
 * Properties of the media-type parser and renderer taken together: what
 * parse gives back for a rendered media type, and the behaviour of parse on
 * the inputs the library's documentation discusses.
 */
module MimeTypeLaws {
  import opened Wrappers
  import opened Ascii
  import opened MimeTypes

  /** The parameters as toString writes their names. */
  function CanonParams(ps: seq<Param>): (r: seq<Param>)
    ensures |r| == |ps|
    ensures forall i :: 0 <= i < |ps| ==> r[i] == Param(CanonName(ps[i].name), ps[i].value)
  {
    if ps == [] then [] else [Param(CanonName(ps[0].name), ps[0].value)] + CanonParams(ps[1..])
  }

  lemma TokenCharsAreNotSpace(c: char)
    requires IsTokenChar(c)
    ensures !IsSpace(c) && c != '"' && c != ';' && c != '='
  {
  }

  lemma CharsetIsToken()
    ensures IsToken(CHARSET)
  {
  }

  lemma CanonShape(ps: seq<Param>)
    requires NoSameKeys(ps) && WellFormed(ps)
    ensures DistinctNames(CanonParams(ps)) && AtMostOneCharset(CanonParams(ps)) && WellFormed(CanonParams(ps))
  {
    CanonDistinct(ps);
    CanonOneCharset(ps);
    CanonWellFormed(ps);
  }

  /** Two names toString writes alike are names the comparator equates. */
  lemma CanonNameSameKey(a: string, b: string)
    requires CanonName(a) == CanonName(b)
    ensures SameKey(a, b)
  {
    CharsetIsCharsetName();
  }

  lemma CanonNameCharset(n: string)
    ensures IsCharsetName(CanonName(n)) <==> IsCharsetName(n)
  {
    CharsetIsCharsetName();
  }

  lemma CanonDistinct(ps: seq<Param>)
    requires NoSameKeys(ps)
    ensures DistinctNames(CanonParams(ps))
  {
    var cs := CanonParams(ps);
    forall i, j | 0 <= i < |cs| && 0 <= j < |cs| && i != j ensures cs[i].name != cs[j].name {
      if cs[i].name == cs[j].name {
        CanonNameSameKey(ps[i].name, ps[j].name);
      }
    }
  }

  lemma CanonOneCharset(ps: seq<Param>)
    requires NoSameKeys(ps)
    ensures AtMostOneCharset(CanonParams(ps))
  {
    var cs := CanonParams(ps);
    forall i, j | 0 <= i < |cs| && 0 <= j < |cs| && IsCharsetName(cs[i].name) && IsCharsetName(cs[j].name) ensures i == j {
      CanonNameCharset(ps[i].name);
      CanonNameCharset(ps[j].name);
    }
  }

  lemma CanonWellFormed(ps: seq<Param>)
    requires WellFormed(ps)
    ensures WellFormed(CanonParams(ps))
  {
    CharsetIsToken();
  }

  /** A token written at index a is what the greedy token run matches there. */
  lemma TokenAt(s: string, a: nat, t: string)
    requires a + |t| <= |s| && s[a..a + |t|] == t && IsToken(t)
    requires a + |t| < |s| ==> !IsTokenChar(s[a + |t|])
    ensures TokenRun(s, a) == a + |t|
  {
    forall k | a <= k < a + |t| ensures IsTokenChar(s[k]) {
      assert s[k] == t[k - a];
    }
    TokenRunStops(s, a, a + |t|);
  }

  /** A value written at index a, followed by the end of input or `;`, is what the value pattern matches. */
  lemma ValueAt(s: string, a: nat, v: string)
    requires a + |v| <= |s| && s[a..a + |v|] == v && IsValue(v)
    requires a + |v| < |s| ==> s[a + |v|] == ';'
    ensures MatchValue(s, a) == Some(a + |v|)
  {
    NotTokenChars();
    if IsToken(v) {
      TokenAt(s, a, v);
    } else {
      assert s[a] == v[0];
      assert s[a + |v| - 1] == v[|v| - 1];
      forall k | a + 1 <= k < a + |v| - 1 ensures s[k] != '"' {
        assert s[k] == v[k - a];
      }
      CloseQuoteFinds(s, a + 1, a + |v| - 1);
      assert TokenRun(s, a) == a;
    }
  }

  /** `;`, one space and a token name followed by `=`: the prefix of a parameter segment. */
  lemma MatchNameAt(s: string, i: nat, name: string)
    requires IsToken(name) && i + 2 + |name| < |s|
    requires s[i] == ';' && s[i + 1] == ' ' && s[i + 2 + |name|] == '='
    requires s[i + 2..i + 2 + |name|] == name
    ensures SpaceRun(s, i + 1) == i + 2 && TokenRun(s, i + 2) == i + 2 + |name|
  {
    NotTokenChars();
    assert s[i + 2] == name[0];
    TokenCharsAreNotSpace(name[0]);
    SpaceRunStops(s, i + 1, i + 2);
    TokenAt(s, i + 2, name);
  }

  /** `;`, one space, a token name, `=`, a value, then the end of input or another `;`: matched whole. */
  lemma MatchAt(s: string, i: nat, name: string, v: string)
    requires IsToken(name) && IsValue(v)
    requires i + 3 + |name| + |v| <= |s|
    requires s[i] == ';' && s[i + 1] == ' ' && s[i + 2 + |name|] == '='
    requires s[i + 2..i + 2 + |name|] == name && s[i + 3 + |name|..i + 3 + |name| + |v|] == v
    requires i + 3 + |name| + |v| < |s| ==> s[i + 3 + |name| + |v|] == ';'
    ensures MatchParameter(s, i) == Some(ParamMatch(Some(Param(name, v)), i + 3 + |name| + |v|))
  {
    MatchNameAt(s, i, name);
    ValueAt(s, i + 3 + |name|, v);
  }

  /** The pieces of a rendered parameter written at index i. */
  lemma RenderedParamParts(s: string, i: nat, p: Param)
    requires i + |RenderParam(p)| <= |s| && s[i..i + |RenderParam(p)|] == RenderParam(p)
    ensures var cn := CanonName(p.name);
      && |RenderParam(p)| == 3 + |cn| + |p.value|
      && s[i] == ';' && s[i + 1] == ' ' && s[i + 2 + |cn|] == '='
      && s[i + 2..i + 2 + |cn|] == cn && s[i + 3 + |cn|..i + 3 + |cn| + |p.value|] == p.value
  {
    var cn := CanonName(p.name);
    assert RenderParam(p) == ("; " + cn + "=") + p.value;
    SliceSplit(s, i, "; " + cn + "=", p.value);
    SliceSplit(s, i, "; " + cn, "=");
    SliceSplit(s, i, "; ", cn);
    assert s[i..i + 2] == "; " && s[i + 2 + |cn|..i + 3 + |cn|] == "=";
    assert s[i] == s[i..i + 2][0] && s[i + 1] == s[i..i + 2][1];
    assert s[i + 2 + |cn|] == s[i + 2 + |cn|..i + 3 + |cn|][0];
  }

  /** A concatenation found at index i: each half sits at its own offset. */
  lemma SliceSplit(s: string, i: nat, x: string, y: string)
    requires i + |x| + |y| <= |s| && s[i..i + |x| + |y|] == x + y
    ensures s[i..i + |x|] == x && s[i + |x|..i + |x| + |y|] == y
  {
    forall k | 0 <= k < |x| ensures s[i + k] == x[k] {
      assert s[i + k] == s[i..i + |x| + |y|][k] == (x + y)[k];
    }
    forall k | 0 <= k < |y| ensures s[i + |x| + k] == y[k] {
      assert s[i + |x| + k] == s[i..i + |x| + |y|][|x| + k] == (x + y)[|x| + k];
    }
  }

  /** One step of the parse loop that meets a parameter with a new name appends it. */
  lemma ScanStep(s: string, i: nat, acc: seq<Param>, P: Param, e: nat)
    requires i < |s| && DistinctNames(acc) && WellFormed(acc)
    requires MatchParameter(s, i) == Some(ParamMatch(Some(P), e))
    requires forall k :: 0 <= k < |acc| ==> acc[k].name != P.name
    ensures e <= |s| && DistinctNames(acc + [P]) && WellFormed(acc + [P])
    ensures ScanParams(s, i, acc) == ScanParams(s, e, acc + [P])
  {
    PutKeepsShape(acc, P);
  }

  /** Rendered parameters at index i: the first one, then the rest from its end. */
  lemma RenderedSplit(s: string, i: nat, ps: seq<Param>)
    requires i <= |s| && s[i..] == RenderParams(ps) && ps != []
    ensures i + |RenderParam(ps[0])| <= |s|
    ensures s[i..i + |RenderParam(ps[0])|] == RenderParam(ps[0])
    ensures s[i + |RenderParam(ps[0])|..] == RenderParams(ps[1..])
    ensures i + |RenderParam(ps[0])| < |s| ==> s[i + |RenderParam(ps[0])|] == ';'
  {
    var rest := RenderParams(ps[1..]);
    SuffixSplit(s, i, RenderParam(ps[0]), rest);
    if rest != [] {
      assert rest[0] == RenderParam(ps[1])[0];
    }
  }

  /** A concatenation that makes up the input from index i: the first half, then the second from its end. */
  lemma SuffixSplit(s: string, i: nat, x: string, y: string)
    requires i <= |s| && s[i..] == x + y
    ensures i + |x| <= |s| && s[i..i + |x|] == x && s[i + |x|..] == y
    ensures y != [] ==> s[i + |x|] == y[0]
  {
    assert s[i..i + |x|] == s[i..][..|x|];
    assert s[i + |x|..] == s[i..][|x|..];
  }

  lemma CanonParamsCons(ps: seq<Param>)
    requires ps != []
    ensures CanonParams(ps) == [Param(CanonName(ps[0].name), ps[0].value)] + CanonParams(ps[1..])
  {
  }

  lemma ConsAppend(acc: seq<Param>, ps: seq<Param>)
    requires ps != []
    ensures acc + CanonParams(ps) == (acc + [Param(CanonName(ps[0].name), ps[0].value)]) + CanonParams(ps[1..])
  {
    CanonParamsCons(ps);
  }

  /** The canonical name of the first parameter is new to acc, given the whole list is. */
  lemma FreshHead(acc: seq<Param>, ps: seq<Param>)
    requires ps != [] && DistinctNames(acc + CanonParams(ps))
    ensures forall k :: 0 <= k < |acc| ==> acc[k].name != CanonName(ps[0].name)
  {
    var both := acc + CanonParams(ps);
    assert both[|acc|] == CanonParams(ps)[0];
    forall k | 0 <= k < |acc| ensures acc[k].name != CanonName(ps[0].name) {
      assert both[k] == acc[k];
      assert both[k].name != both[|acc|].name;
    }
  }

  /** The parse loop's step over the first rendered parameter P, which ends at e. */
  lemma ScanHead(s: string, i: nat, ps: seq<Param>, acc: seq<Param>, P: Param, e: nat)
    requires i <= |s| && s[i..] == RenderParams(ps) && ps != []
    requires P == Param(CanonName(ps[0].name), ps[0].value) && e == i + |RenderParam(ps[0])|
    requires WellFormed(ps)
    requires DistinctNames(acc) && WellFormed(acc)
    requires DistinctNames(acc + CanonParams(ps))
    ensures e <= |s| && s[e..] == RenderParams(ps[1..])
    ensures DistinctNames(acc + [P]) && WellFormed(acc + [P])
    ensures acc + CanonParams(ps) == (acc + [P]) + CanonParams(ps[1..])
    ensures ScanParams(s, i, acc) == ScanParams(s, e, acc + [P])
  {
    RenderedSplit(s, i, ps);
    RenderedParamParts(s, i, ps[0]);
    CharsetIsToken();
    MatchAt(s, i, P.name, P.value);
    FreshHead(acc, ps);
    ConsAppend(acc, ps);
    ScanStep(s, i, acc, P, e);
  }

  /** Scanning rendered parameters puts each one, under its canonical name, in order. */
  lemma {:induction false} ScanRendered(s: string, i: nat, ps: seq<Param>, acc: seq<Param>)
    requires i <= |s| && s[i..] == RenderParams(ps)
    requires WellFormed(ps)
    requires DistinctNames(acc) && WellFormed(acc)
    requires DistinctNames(acc + CanonParams(ps))
    ensures ScanParams(s, i, acc) == Ok(acc + CanonParams(ps))
    decreases |ps|
  {
    if ps == [] {
      assert acc + CanonParams(ps) == acc;
    } else {
      var P := Param(CanonName(ps[0].name), ps[0].value);
      var e := i + |RenderParam(ps[0])|;
      ScanHead(s, i, ps, acc, P, e);
      assert WellFormed(ps[1..]);
      ScanRendered(s, e, ps[1..], acc + [P]);
    }
  }

  /** The main type written at the start of s, followed by `/`, is what the first token run matches. */
  lemma TypeTokenAt(s: string, t: string)
    requires IsToken(t) && |t| < |s| && s[..|t|] == t && s[|t|] == '/'
    ensures TokenRun(s, 0) == |t|
  {
    NotTokenChars();
    TokenAt(s, 0, t);
  }

  /** The subtype written after `type/`, followed by nothing or by `;`, is what the second token run matches. */
  lemma SubtypeTokenAt(s: string, a: nat, sub: string)
    requires IsToken(sub) && a + |sub| <= |s| && s[a..a + |sub|] == sub
    requires a + |sub| < |s| ==> s[a + |sub|] == ';'
    ensures TokenRun(s, a) == a + |sub|
  {
    NotTokenChars();
    TokenAt(s, a, sub);
  }

  /** `type/subtype` followed by nothing or by `;` is matched up to the end of the subtype. */
  lemma MatchTypeAt(s: string, t: string, sub: string, rest: string)
    requires IsToken(t) && IsToken(sub) && s == t + "/" + sub + rest
    requires rest != [] ==> rest[0] == ';'
    ensures MatchTypeSubtype(s) == Some(TypeMatch(t, sub, |t| + 1 + |sub|))
  {
    TypeParts(t, sub, rest);
    MatchTypeIndexed(s, t, sub);
  }

  /** Where the pieces of `type/subtype` followed by the rest sit in their concatenation. */
  lemma TypeParts(t: string, sub: string, rest: string)
    ensures var s := t + "/" + sub + rest; var e := |t| + 1 + |sub|;
      && |s| == e + |rest| && s[..|t|] == t && s[|t|] == '/' && s[|t| + 1..e] == sub
      && (rest != [] ==> s[e] == rest[0])
  {
    var s := t + "/" + sub + rest;
    var e := |t| + 1 + |sub|;
    assert s[..|t|] == t;
    assert s[|t| + 1..e] == sub;
  }

  lemma MatchTypeIndexed(s: string, t: string, sub: string)
    requires IsToken(t) && IsToken(sub) && |t| + 1 + |sub| <= |s|
    requires s[..|t|] == t && s[|t|] == '/' && s[|t| + 1..|t| + 1 + |sub|] == sub
    requires |t| + 1 + |sub| < |s| ==> s[|t| + 1 + |sub|] == ';'
    ensures MatchTypeSubtype(s) == Some(TypeMatch(t, sub, |t| + 1 + |sub|))
  {
    TypeTokenAt(s, t);
    SubtypeTokenAt(s, |t| + 1, sub);
  }

  /**
   * Parsing `type/subtype` followed by rendered parameters gives the lower-cased
   * type and subtype and the parameters, under their canonical names, in
   * comparator order.
   */
  lemma ParseRendered(t: string, sub: string, ps: seq<Param>)
    requires IsToken(t) && IsToken(sub) && WellFormed(ps) && NoSameKeys(ps)
    ensures ParseDetermined(Render(MimeType(t, Some(sub), ps)))
    ensures ParseSpec(Render(MimeType(t, Some(sub), ps)))
      == Ok(Some(MimeType(Lower(t), Some(Lower(sub)), SortParams(CanonParams(ps)))))
  {
    var s := Render(MimeType(t, Some(sub), ps));
    var e := |t| + 1 + |sub|;
    var rest := RenderParams(ps);
    assert s == t + "/" + sub + rest;
    if ps != [] {
      assert rest[0] == RenderParam(ps[0])[0];
    }
    MatchTypeAt(s, t, sub, rest);
    CanonShape(ps);
    assert s[e..] == rest;
    assert [] + CanonParams(ps) == CanonParams(ps);
    ScanRendered(s, e, ps, []);
    LowerToken(t);
    LowerToken(sub);
  }

  /**
   * toString then parse is the identity on a media type whose type and subtype
   * are lower case, whose subtype is present and whose charset key, if any, is
   * spelled `charset`.
   */
  lemma RoundTrip(m: MimeType)
    requires m.Valid() && m.subtype.Some?
    requires IsLowerCase(m.mainType) && IsLowerCase(m.subtype.value)
    requires forall i :: 0 <= i < |m.params| && IsCharsetName(m.params[i].name) ==> m.params[i].name == CHARSET
    ensures ParseDetermined(Render(m)) && ParseSpec(Render(m)) == Ok(Some(m))
  {
    SortedDistinct(m.params);
    NoSameKeysFrom(m.params);
    ParseRendered(m.mainType, m.subtype.value, m.params);
    CanonOfCanonical(m.params);
    SortParamsOfSorted(m.params);
  }

  /** Parameters whose charset key is already spelled `charset` are written under their own names. */
  lemma CanonOfCanonical(ps: seq<Param>)
    requires forall i :: 0 <= i < |ps| && IsCharsetName(ps[i].name) ==> ps[i].name == CHARSET
    ensures CanonParams(ps) == ps
  {
  }

  /** Rendering a parsed media type and parsing it again gives back the same value. */
  lemma ParseIsStable(s: string)
    requires ParseDetermined(s)
    requires ParseSpec(s).Ok? && ParseSpec(s).value.Some?
    ensures var m := ParseSpec(s).value.value;
      var c := MimeType(m.mainType, m.subtype, SortParams(CanonParams(m.params)));
      ParseDetermined(Render(m)) && ParseSpec(Render(m)) == Ok(Some(c))
  {
    var m := ParseSpec(s).value.value;
    SortedDistinct(m.params);
    NoSameKeysFrom(m.params);
    ParseRendered(m.mainType, m.subtype.value, m.params);
  }

  /**
   * Anything after `type/subtype` that does not start with `;` (a space before
   * the `;`, trailing junk) makes parse throw.
   */
  lemma JunkAfterSubtypeIsMalformed(s: string)
    requires MatchTypeSubtype(s).Some?
    requires MatchTypeSubtype(s).value.end < |s| && s[MatchTypeSubtype(s).value.end] != ';'
    ensures ParseDetermined(s) && ParseSpec(s) == Err(Malformed)
  {
    var e := MatchTypeSubtype(s).value.end;
    assert MatchParameter(s, e).None?;
    assert ScanParams(s, e, []) == Err(Malformed);
  }

  /** A position the loop reaches where no `;` segment starts makes parse throw. */
  lemma ParseFailsAt(s: string, j: nat)
    requires MatchTypeSubtype(s).Some? && MatchTypeSubtype(s).value.end <= j < |s|
    requires ScanReaches(s, MatchTypeSubtype(s).value.end, j) && MatchParameter(s, j).None?
    ensures ParseDetermined(s) && ParseSpec(s) == Err(Malformed)
  {
    ScanFailsAt(s, MatchTypeSubtype(s).value.end, [], j);
  }

  /** A segment that fails to match after earlier ones makes the whole scan fail. */
  lemma {:induction false} ScanFailsAt(s: string, i: nat, acc: seq<Param>, j: nat)
    requires i <= j < |s| && DistinctNames(acc) && WellFormed(acc)
    requires MatchParameter(s, j).None?
    requires ScanReaches(s, i, j)
    ensures ScanParams(s, i, acc).Err?
    decreases j - i
  {
    if i < j {
      var pm := MatchParameter(s, i).value;
      if pm.param.Some? {
        PutKeepsShape(acc, pm.param.value);
        ScanFailsAt(s, pm.end, Put(acc, pm.param.value), j);
      } else {
        ScanFailsAt(s, pm.end, acc, j);
      }
    }
  }

  /** The parse loop, started at i, arrives at index j. */
  predicate ScanReaches(s: string, i: nat, j: nat)
    requires i <= j <= |s|
    decreases j - i
  {
    i == j || (i < |s| && MatchParameter(s, i).Some? && MatchParameter(s, i).value.end <= j
      && ScanReaches(s, MatchParameter(s, i).value.end, j))
  }

  /** For a name other than `charset`, hasParameter is an exact, case-sensitive key test. */
  lemma HasParameterExact(m: MimeType, name: string)
    requires !IsCharsetName(name) && LookupDetermined(m.params, name)
    ensures HasParameter(m, name) <==> exists i :: 0 <= i < |m.params| && m.params[i].name == name
  {
  }

  /** `charset`, in any spelling, finds the stored charset key. */
  lemma HasParameterCharset(m: MimeType, name: string, k: nat)
    requires IsCharsetName(name) && LookupDetermined(m.params, name)
    requires k < |m.params| && IsCharsetName(m.params[k].name)
    ensures HasParameter(m, name)
  {
    assert SameKey(name, m.params[k].name);
  }

  /** `Name` does not find `name`, but `CHARSET` finds `charset`. */
  lemma LookupCases()
    ensures var m := MimeType("text", Some("plain"), [Param("charset", "utf-8"), Param("name", "x")]);
      && LookupDetermined(m.params, "Name") && !HasParameter(m, "Name")
      && LookupDetermined(m.params, "CHARSET") && HasParameter(m, "CHARSET")
  {
    NameNotFound();
    UpperCharsetFound();
  }

  lemma NameNotFound()
    ensures var m := MimeType("text", Some("plain"), [Param("charset", "utf-8"), Param("name", "x")]);
      LookupDetermined(m.params, "Name") && !HasParameter(m, "Name")
  {
    var m := MimeType("text", Some("plain"), [Param("charset", "utf-8"), Param("name", "x")]);
    NameIsNotCharsetName();
    HasParameterExact(m, "Name");
    assert m.params[0].name != "Name" && m.params[1].name != "Name";
  }

  lemma UpperCharsetFound()
    ensures var m := MimeType("text", Some("plain"), [Param("charset", "utf-8"), Param("name", "x")]);
      LookupDetermined(m.params, "CHARSET") && HasParameter(m, "CHARSET")
  {
    var m := MimeType("text", Some("plain"), [Param("charset", "utf-8"), Param("name", "x")]);
    UpperCharsetIsCharsetName();
    NameIsNotCharsetName();
    CharsetIsCharsetName();
    NameAboveCharset();
    LookupDeterminedTwo(m.params, "CHARSET");
    HasParameterCharset(m, "CHARSET", 0);
  }

  lemma UpperCharsetIsCharsetName()
    ensures IsCharsetName("CHARSET")
  {
    assert Lower("CHARSET") == CHARSET;
  }

  lemma NameIsNotCharsetName()
    ensures !IsCharsetName("Name") && !IsCharsetName("name")
  {
    assert Lower("Name")[0] == 'n' && Lower("name")[0] == 'n';
  }

  /** Two stored keys, the second no charset key and above both spellings: the lookup is determined. */
  lemma LookupDeterminedTwo(ps: seq<Param>, name: string)
    requires |ps| == 2 && !IsCharsetName(ps[1].name)
    requires !LexLess(ps[1].name, name) && !LexLess(ps[1].name, ps[0].name)
    ensures LookupDetermined(ps, name)
  {
    forall i, j | 0 <= i < |ps| && 0 <= j < |ps| && IsCharsetName(name) && IsCharsetName(ps[i].name)
      ensures !Between(ps[j].name, name, ps[i].name)
    {
      if j == 0 {
        NotBetweenEndpoint(name, ps[0].name);
      } else {
        NotBetweenAbove(ps[1].name, name, ps[0].name);
      }
    }
  }

  lemma NotBetweenEndpoint(a: string, b: string)
    ensures !Between(b, a, b)
  {
    LexLessIrreflexive(b);
  }

  lemma NotBetweenAbove(m: string, a: string, b: string)
    requires !LexLess(m, a) && !LexLess(m, b)
    ensures !Between(m, a, b)
  {
  }

  lemma NameAboveCharset()
    ensures !LexLess("name", CHARSET) && !LexLess("name", "CHARSET")
  {
    assert "name"[0] > CHARSET[0] && "name"[0] > "CHARSET"[0];
  }

  // ---------------------------------------------------------------------
  // Worked inputs
  // ---------------------------------------------------------------------

  lemma LowerOfLowerCase(s: string)
    requires forall i :: 0 <= i < |s| ==> !('A' <= s[i] <= 'Z')
    ensures Lower(s) == s
  {
  }

  lemma LowerText()
    ensures Lower("text") == "text"
  {
    LowerOfLowerCase("text");
  }

  lemma LowerPlain()
    ensures Lower("plain") == "plain"
  {
    LowerOfLowerCase("plain");
  }

  /** Parameters come back in name order. */
  lemma ParametersAreSorted()
    ensures ParseDetermined("text/plain; b=2; a=1")
    ensures ParseSpec("text/plain; b=2; a=1")
      == Ok(Some(MimeType("text", Some("plain"), [Param("a", "1"), Param("b", "2")])))
  {
    UnsortedRendering();
    UnsortedParse();
    UnsortedNormalised();
  }

  lemma UnsortedRendering()
    ensures "text/plain; b=2; a=1" == Render(MimeType("text", Some("plain"), [Param("b", "2"), Param("a", "1")]))
  {
    assert RenderParam(Param("b", "2")) == "; b=2" && RenderParam(Param("a", "1")) == "; a=1";
  }

  lemma UnsortedParse()
    ensures var ps := [Param("b", "2"), Param("a", "1")];
      var m := MimeType("text", Some("plain"), ps);
      && ParseDetermined(Render(m))
      && ParseSpec(Render(m)) == Ok(Some(MimeType(Lower("text"), Some(Lower("plain")), SortParams(CanonParams(ps)))))
  {
    var ps := [Param("b", "2"), Param("a", "1")];
    assert IsToken("text") && IsToken("plain") && WellFormed(ps);
    assert NoSameKeys(ps) by {
      assert !IsCharsetName("a") && !IsCharsetName("b");
    }
    ParseRendered("text", "plain", ps);
  }

  lemma UnsortedNormalised()
    ensures var ps := [Param("b", "2"), Param("a", "1")];
      MimeType(Lower("text"), Some(Lower("plain")), SortParams(CanonParams(ps)))
      == MimeType("text", Some("plain"), [Param("a", "1"), Param("b", "2")])
  {
    var ps := [Param("b", "2"), Param("a", "1")];
    assert CanonParams(ps) == ps by {
      assert !IsCharsetName("a") && !IsCharsetName("b");
    }
    LowerText();
    LowerPlain();
    assert SortParams(ps) == [Param("a", "1"), Param("b", "2")] by {
      assert SortParams([Param("b", "2")]) == [Param("b", "2")];
      assert LexLess("a", "b");
    }
  }

  /** toString writes the parameters in their stored order. */
  lemma SortedRendering()
    ensures Render(MimeType("text", Some("plain"), [Param("a", "1"), Param("b", "2")])) == "text/plain; a=1; b=2"
  {
    assert !IsCharsetName("a") && !IsCharsetName("b");
    assert RenderParam(Param("a", "1")) == "; a=1" && RenderParam(Param("b", "2")) == "; b=2";
  }

  /** A segment that is not a parameter is malformed: `text/plain; bad`. */
  lemma BareNameIsMalformed()
    ensures ParseDetermined("text/plain; bad") && ParseSpec("text/plain; bad") == Err(Malformed)
  {
    MatchTypeAt("text/plain; bad", "text", "plain", "; bad");
    BareScan();
  }

  /** The segment `; bad` ends after the space; the scan then stops at `b`, which is not `;`. */
  lemma BareScan()
    ensures ScanParams("text/plain; bad", 10, []) == Err(Malformed)
  {
    var s := "text/plain; bad";
    BareSegment();
    assert MatchParameter(s, 12).None?;
  }

  lemma BareSegment()
    ensures MatchParameter("text/plain; bad", 10) == Some(ParamMatch(None, 12))
  {
    var s := "text/plain; bad";
    NotTokenChars();
    SpaceRunStops(s, 11, 12);
    TokenAt(s, 12, "bad");
  }

  /** A lone `;` after the subtype is consumed and adds nothing. */
  lemma EmptySegment()
    ensures ParseDetermined("text/plain;")
    ensures ParseSpec("text/plain;") == Ok(Some(MimeType("text", Some("plain"), [])))
  {
    EmptyMatch();
    EmptyScan();
    assert AtMostOneCharset([]);
    ParseOfScan("text/plain;", TypeMatch("text", "plain", 10), []);
    LowerText();
    LowerPlain();
    assert SortParams([]) == [];
  }

  lemma EmptyMatch()
    ensures MatchTypeSubtype("text/plain;") == Some(TypeMatch("text", "plain", 10))
  {
    MatchTypeAt("text/plain;", "text", "plain", ";");
  }

  lemma EmptyScan()
    ensures ScanParams("text/plain;", 10, []) == Ok([])
  {
    var s := "text/plain;";
    assert SpaceRun(s, 11) == 11 && TokenRun(s, 11) == 11;
    assert MatchParameter(s, 10) == Some(ParamMatch(None, 11));
  }

  /** A quoted value keeps its quotes in the map. */
  lemma QuotedValue()
    ensures ParseDetermined("text/plain; name=\"x y\"")
    ensures ParseSpec("text/plain; name=\"x y\"")
      == Ok(Some(MimeType("text", Some("plain"), [Param("name", "\"x y\"")])))
  {
    QuotedRendering();
    QuotedParse();
  }

  lemma QuotedRendering()
    ensures "text/plain; name=\"x y\"" == Render(MimeType("text", Some("plain"), [Param("name", "\"x y\"")]))
  {
    assert !IsCharsetName("name");
  }

  lemma QuotedParse()
    ensures var m := MimeType("text", Some("plain"), [Param("name", "\"x y\"")]);
      ParseDetermined(Render(m)) && ParseSpec(Render(m)) == Ok(Some(m))
  {
    var m := MimeType("text", Some("plain"), [Param("name", "\"x y\"")]);
    QuotedValid();
    assert IsLowerCase("text") && IsLowerCase("plain");
    assert !IsCharsetName("name");
    RoundTrip(m);
  }

  lemma QuotedValid()
    ensures MimeType("text", Some("plain"), [Param("name", "\"x y\"")]).Valid()
  {
    assert IsToken("text") && IsToken("plain") && IsToken("name");
    assert IsQuoted("\"x y\"");
  }

  /** getParameter strips the enclosing quotes. */
  lemma QuotedValueUnwrapped()
    ensures var m := MimeType("text", Some("plain"), [Param("name", "\"x y\"")]);
      m.Valid() && LookupDetermined(m.params, "name") && GetParameter(m, "name") == Some("x y")
  {
    var m := MimeType("text", Some("plain"), [Param("name", "\"x y\"")]);
    QuotedValid();
    assert LookupDetermined(m.params, "name") by {
      assert !IsCharsetName("name");
    }
    assert SameKey("name", m.params[0].name);
    UnquoteXY();
  }

  lemma UnquoteXY()
    ensures Unquote("\"x y\"") == "x y"
  {
    var v := "\"x y\"";
    assert v[1..|v| - 1] == "x y";
  }

  /** parse, once the type/subtype match and the parameter scan are known. */
  lemma ParseOfScan(s: string, tm: TypeMatch, ps: seq<Param>)
    requires MatchTypeSubtype(s) == Some(tm)
    requires tm.end <= |s| && ScanParams(s, tm.end, []) == Ok(ps) && AtMostOneCharset(ps)
    ensures ParseDetermined(s)
    ensures ParseSpec(s) == Ok(Some(MimeType(Lower(tm.mainType), Some(Lower(tm.subtype)), SortParams(ps))))
  {
    LowerToken(tm.mainType);
    LowerToken(tm.subtype);
  }

  /** A repeated name keeps its last value. */
  lemma RepeatedNameKeepsLast()
    ensures ParseDetermined("a/b; x=1; x=2")
    ensures ParseSpec("a/b; x=1; x=2") == Ok(Some(MimeType("a", Some("b"), [Param("x", "2")])))
  {
    RepeatedMatch();
    RepeatedScan();
    assert AtMostOneCharset([Param("x", "2")]);
    ParseOfScan("a/b; x=1; x=2", TypeMatch("a", "b", 3), [Param("x", "2")]);
    assert Lower("a") == "a" && Lower("b") == "b" by {
      LowerOfLowerCase("a");
      LowerOfLowerCase("b");
    }
    assert SortParams([Param("x", "2")]) == [Param("x", "2")];
  }

  lemma RepeatedMatch()
    ensures MatchTypeSubtype("a/b; x=1; x=2") == Some(TypeMatch("a", "b", 3))
  {
    MatchTypeAt("a/b; x=1; x=2", "a", "b", "; x=1; x=2");
  }

  lemma RepeatedScan()
    ensures ScanParams("a/b; x=1; x=2", 3, []) == Ok([Param("x", "2")])
  {
    var s := "a/b; x=1; x=2";
    RepeatedSegments();
    ScanPut(s, 3, [], Param("x", "1"), 8);
    assert Put([], Param("x", "1")) == [Param("x", "1")];
    ScanPut(s, 8, [Param("x", "1")], Param("x", "2"), 13);
    assert Put([Param("x", "1")], Param("x", "2")) == [Param("x", "2")];
    assert |s| == 13;
  }

  /** One step of the parse loop over a parameter segment puts it in the map. */
  lemma ScanPut(s: string, i: nat, acc: seq<Param>, P: Param, e: nat)
    requires i < |s| && DistinctNames(acc) && WellFormed(acc)
    requires MatchParameter(s, i) == Some(ParamMatch(Some(P), e))
    ensures e <= |s| && DistinctNames(Put(acc, P)) && WellFormed(Put(acc, P))
    ensures ScanParams(s, i, acc) == ScanParams(s, e, Put(acc, P))
  {
    PutKeepsShape(acc, P);
  }

  lemma RepeatedSegments()
    ensures MatchParameter("a/b; x=1; x=2", 3) == Some(ParamMatch(Some(Param("x", "1")), 8))
    ensures MatchParameter("a/b; x=1; x=2", 8) == Some(ParamMatch(Some(Param("x", "2")), 13))
  {
    RepeatedFirst();
    RepeatedSecond();
  }

  lemma RepeatedFirst()
    ensures MatchParameter("a/b; x=1; x=2", 3) == Some(ParamMatch(Some(Param("x", "1")), 8))
  {
    var s := "a/b; x=1; x=2";
    assert IsToken("x") && IsToken("1");
    assert s[5..6] == "x" && s[7..8] == "1";
    MatchAt(s, 3, "x", "1");
  }

  lemma RepeatedSecond()
    ensures MatchParameter("a/b; x=1; x=2", 8) == Some(ParamMatch(Some(Param("x", "2")), 13))
  {
    var s := "a/b; x=1; x=2";
    assert IsToken("x") && IsToken("2");
    assert s[10..11] == "x" && s[12..13] == "2";
    MatchAt(s, 8, "x", "2");
  }

  // The text `*/*` parses to the media type that is a wildcard in both positions.
  lemma WildcardParses()
    ensures var m := MimeType("*", Some("*"), []);
      && ParseDetermined("*/*") && ParseSpec("*/*") == Ok(Some(m))
      && IsWildcardType(m) && IsWildcardSubtype(m)
  {
    var m := MimeType("*", Some("*"), []);
    assert IsToken("*");
    assert Lower("*") == "*";
    RoundTrip(m);
    assert Render(m) == "*/*";
  }
}
