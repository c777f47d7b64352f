/**
 * Media types (MimeType.java): the `type/subtype; name=value` form of
 * section 5.1 of RFC 2045, parsed with the library's two regular
 * expressions, validated and stored with parameters in comparator order,
 * and rendered back to its canonical string.
 */
module MimeTypes {
  import opened Wrappers
  import opened Ascii

  // ---------------------------------------------------------------------
  // Lexical classes (MimeType.java:28-34)
  // ---------------------------------------------------------------------

  /** The punctuation allowed in a token besides letters and digits: -!#$%&'*+.^_`{|}~ */
  predicate IsTokenSpecial(c: char) {
    || c == '-' || c == '!' || c == '#' || c == '$' || c == '%' || c == '&' || c == '\''
    || c == '*' || c == '+' || c == '.' || c == '^' || c == '_' || c == '`' || c == '{'
    || c == '|' || c == '}' || c == '~'
  }

  /** One character of the TOKEN class: the tchar set of section 3.2.6 of RFC 7230, plus `{` and `}`. */
  predicate IsTokenChar(c: char) {
    ('a' <= c <= 'z') || ('A' <= c <= 'Z') || ('0' <= c <= '9') || IsTokenSpecial(c)
  }

  predicate IsToken(s: string) {
    |s| > 0 && forall i :: 0 <= i < |s| ==> IsTokenChar(s[i])
  }

  /** The QUOTED class: a double quote, anything but a double quote, a double quote. */
  predicate IsQuoted(s: string) {
    && |s| >= 2 && s[0] == '"' && s[|s| - 1] == '"'
    && forall i :: 0 < i < |s| - 1 ==> s[i] != '"'
  }

  predicate IsValue(s: string) {
    IsToken(s) || IsQuoted(s)
  }

  /** Java's regular-expression class `\s`. */
  predicate IsSpace(c: char) {
    c == ' ' || c == '\t' || c == '\n' || c as int == 11 || c as int == 12 || c == '\r'
  }

  lemma LowerToken(s: string)
    requires IsToken(s)
    ensures IsToken(Lower(s))
  {
  }

  // ---------------------------------------------------------------------
  // The regular expressions, as the matcher runs them
  // ---------------------------------------------------------------------

  /** The end of the longest run of token characters starting at i (greedy `+`, before its length check). */
  function TokenRun(s: string, i: nat): (j: nat)
    requires i <= |s|
    ensures i <= j <= |s|
    ensures forall k :: i <= k < j ==> IsTokenChar(s[k])
    ensures j < |s| ==> !IsTokenChar(s[j])
    decreases |s| - i
  {
    if i < |s| && IsTokenChar(s[i]) then TokenRun(s, i + 1) else i
  }

  /** The end of the longest run of `\s` characters starting at i. */
  function SpaceRun(s: string, i: nat): (j: nat)
    requires i <= |s|
    ensures i <= j <= |s|
    ensures forall k :: i <= k < j ==> IsSpace(s[k])
    ensures j < |s| ==> !IsSpace(s[j])
    decreases |s| - i
  {
    if i < |s| && IsSpace(s[i]) then SpaceRun(s, i + 1) else i
  }

  /** The index of the first double quote at or after i, if any (`[^"]*"`). */
  function CloseQuote(s: string, i: nat): (r: Option<nat>)
    requires i <= |s|
    ensures r.Some? ==> i <= r.value < |s| && s[r.value] == '"'
    ensures r.Some? ==> forall k :: i <= k < r.value ==> s[k] != '"'
    ensures r.None? ==> forall k :: i <= k < |s| ==> s[k] != '"'
    decreases |s| - i
  {
    if i == |s| then None else if s[i] == '"' then Some(i) else CloseQuote(s, i + 1)
  }

  lemma {:induction false} TokenRunStops(s: string, i: nat, j: nat)
    requires i <= j <= |s|
    requires forall k :: i <= k < j ==> IsTokenChar(s[k])
    requires j < |s| ==> !IsTokenChar(s[j])
    ensures TokenRun(s, i) == j
    decreases j - i
  {
    if i < j {
      TokenRunStops(s, i + 1, j);
    }
  }

  lemma {:induction false} SpaceRunStops(s: string, i: nat, j: nat)
    requires i <= j <= |s|
    requires forall k :: i <= k < j ==> IsSpace(s[k])
    requires j < |s| ==> !IsSpace(s[j])
    ensures SpaceRun(s, i) == j
    decreases j - i
  {
    if i < j {
      SpaceRunStops(s, i + 1, j);
    }
  }

  lemma {:induction false} CloseQuoteFinds(s: string, i: nat, j: nat)
    requires i <= j < |s| && s[j] == '"'
    requires forall k :: i <= k < j ==> s[k] != '"'
    ensures CloseQuote(s, i) == Some(j)
    decreases j - i
  {
    if i < j {
      CloseQuoteFinds(s, i + 1, j);
    }
  }

  /** What `TOKEN/TOKEN` matches at the start of the input (Matcher.lookingAt). */
  datatype TypeMatch = TypeMatch(mainType: string, subtype: string, end: nat)

  function MatchTypeSubtype(s: string): (r: Option<TypeMatch>)
    ensures r.Some? ==> r.value.end <= |s|
    ensures r.Some? ==> IsToken(r.value.mainType) && IsToken(r.value.subtype)
    ensures r.Some? ==> s[..r.value.end] == r.value.mainType + "/" + r.value.subtype
    ensures r.Some? ==> r.value.end == |s| || !IsTokenChar(s[r.value.end])
  {
    var k := TokenRun(s, 0);
    if 0 < k < |s| && s[k] == '/' then
      var e := TokenRun(s, k + 1);
      if e > k + 1 then
        assert s[..e] == s[..k] + "/" + s[k + 1..e];
        Some(TypeMatch(s[..k], s[k + 1..e], e))
      else None
    else None
  }

  /** Whether the input begins with a token, a slash and a token character. */
  predicate StartsWithTypeSubtype(s: string) {
    exists k :: 0 < k < |s| - 1 && IsToken(s[..k]) && s[k] == '/' && IsTokenChar(s[k + 1])
  }

  datatype Param = Param(name: string, value: string)

  /** What `;\s*(?:TOKEN=(?:TOKEN|QUOTED))?` matches at index i: the optional parameter and the match end. */
  datatype ParamMatch = ParamMatch(param: Option<Param>, end: nat)

  /** The end of what `(?:TOKEN|QUOTED)` matches at index a, if it matches there. */
  function MatchValue(s: string, a: nat): (r: Option<nat>)
    requires a <= |s|
    ensures r.Some? ==> a < r.value <= |s| && IsValue(s[a..r.value])
  {
    var v := TokenRun(s, a);
    if v > a then Some(v)
    else if a < |s| && s[a] == '"' then
      match CloseQuote(s, a + 1)
      case Some(q) =>
        assert IsQuoted(s[a..q + 1]);
        Some(q + 1)
      case None => None
    else None
  }

  function MatchParameter(s: string, i: nat): (r: Option<ParamMatch>)
    requires i <= |s|
    ensures r.Some? <==> i < |s| && s[i] == ';'
    ensures r.Some? ==> i < r.value.end <= |s|
    ensures r.Some? && r.value.param.Some? ==>
      IsToken(r.value.param.value.name) && IsValue(r.value.param.value.value)
  {
    if i < |s| && s[i] == ';' then
      var w := SpaceRun(s, i + 1);
      var n := TokenRun(s, w);
      if w < n < |s| && s[n] == '=' then
        match MatchValue(s, n + 1)
        case Some(v) => Some(ParamMatch(Some(Param(s[w..n], s[n + 1..v])), v))
        case None => Some(ParamMatch(None, w))
      else Some(ParamMatch(None, w))
    else None
  }

  // ---------------------------------------------------------------------
  // LinkedHashMap.put, as the parse loop fills its map
  // ---------------------------------------------------------------------

  predicate DistinctNames(ps: seq<Param>) {
    forall i, j :: 0 <= i < |ps| && 0 <= j < |ps| && i != j ==> ps[i].name != ps[j].name
  }

  predicate WellFormed(ps: seq<Param>) {
    forall i :: 0 <= i < |ps| ==> IsToken(ps[i].name) && IsValue(ps[i].value)
  }

  /** Insertion-ordered put: a known name keeps its place and takes the new value; a new name goes last. */
  function Put(ps: seq<Param>, p: Param): (r: seq<Param>)
    requires DistinctNames(ps)
    ensures (exists i :: 0 <= i < |ps| && ps[i].name == p.name) ==>
      |r| == |ps| && forall i :: 0 <= i < |ps| ==>
        r[i] == if ps[i].name == p.name then p else ps[i]
    ensures (forall i :: 0 <= i < |ps| ==> ps[i].name != p.name) ==> r == ps + [p]
  {
    if ps == [] then [p]
    else if ps[0].name == p.name then [p] + ps[1..]
    else [ps[0]] + Put(ps[1..], p)
  }

  lemma PutKeepsShape(ps: seq<Param>, p: Param)
    requires DistinctNames(ps) && WellFormed(ps)
    requires IsToken(p.name) && IsValue(p.value)
    ensures DistinctNames(Put(ps, p)) && WellFormed(Put(ps, p))
  {
    if exists i :: 0 <= i < |ps| && ps[i].name == p.name {
      var r := Put(ps, p);
      assert forall i :: 0 <= i < |ps| ==> r[i].name == ps[i].name;
    }
  }

  // ---------------------------------------------------------------------
  // The parse loop (MimeType.java:56-71) as a recursive function
  // ---------------------------------------------------------------------

  datatype MimeError = IllegalArgument | Malformed

  /** Scan parameter segments from index i to the end of s, putting each name=value into acc. */
  function ScanParams(s: string, i: nat, acc: seq<Param>): (r: Result<seq<Param>, MimeError>)
    requires i <= |s|
    requires DistinctNames(acc) && WellFormed(acc)
    ensures r.Ok? ==> DistinctNames(r.value) && WellFormed(r.value)
    ensures r.Err? ==> r.error == Malformed
    decreases |s| - i
  {
    if i == |s| then Ok(acc)
    else match MatchParameter(s, i)
      case None => Err(Malformed)
      case Some(pm) =>
        if pm.param.Some? then
          PutKeepsShape(acc, pm.param.value);
          ScanParams(s, pm.end, Put(acc, pm.param.value))
        else ScanParams(s, pm.end, acc)
  }

  // ---------------------------------------------------------------------
  // The parameter comparator and TreeMap.put (MimeType.java:194-204)
  // ---------------------------------------------------------------------

  const CHARSET: string := "charset"

  /** A name the comparator treats as the `charset` key: "charset" in any case. */
  predicate IsCharsetName(s: string) {
    Lower(s) == CHARSET
  }

  lemma CharsetIsCharsetName()
    ensures IsCharsetName(CHARSET)
  {
    assert Lower(CHARSET) == CHARSET by {
      forall i | 0 <= i < |CHARSET| ensures Lower(CHARSET)[i] == CHARSET[i] {
      }
    }
  }

  /** compare(a, b) == 0: two charset spellings, or equal strings. */
  predicate SameKey(a: string, b: string) {
    (IsCharsetName(a) && IsCharsetName(b)) || a == b
  }

  /** Strictly increasing in String.compareTo order. */
  predicate Sorted(ps: seq<Param>) {
    forall i, j :: 0 <= i < j < |ps| ==> LexLess(ps[i].name, ps[j].name)
  }

  predicate AtMostOneCharset(ps: seq<Param>) {
    forall i, j :: 0 <= i < |ps| && 0 <= j < |ps| && IsCharsetName(ps[i].name) && IsCharsetName(ps[j].name) ==> i == j
  }

  /** No two stored names that the comparator equates. */
  predicate NoSameKeys(ps: seq<Param>) {
    forall i, j :: 0 <= i < |ps| && 0 <= j < |ps| && i != j ==> !SameKey(ps[i].name, ps[j].name)
  }

  lemma NoSameKeysFrom(ps: seq<Param>)
    requires DistinctNames(ps) && AtMostOneCharset(ps)
    ensures NoSameKeys(ps)
  {
  }

  /** TreeMap.put: replace the value of a key the comparator equates with p's name (keeping the stored key), else insert in order. */
  function InsertParam(ps: seq<Param>, p: Param): seq<Param>
    decreases |ps|
  {
    if ps == [] then [p]
    else if SameKey(p.name, ps[0].name) then [Param(ps[0].name, p.value)] + ps[1..]
    else if LexLess(p.name, ps[0].name) then [p] + ps
    else [ps[0]] + InsertParam(ps[1..], p)
  }

  /** A parameter whose name is below every name of a sorted list can be put in front of it. */
  lemma ConsSorted(p: Param, ps: seq<Param>)
    requires Sorted(ps)
    requires forall j :: 0 <= j < |ps| ==> LexLess(p.name, ps[j].name)
    ensures Sorted([p] + ps)
  {
    var r := [p] + ps;
    forall i, j | 0 <= i < j < |r| ensures LexLess(r[i].name, r[j].name) {
      assert r[j] == ps[j - 1];
      if i > 0 {
        assert r[i] == ps[i - 1];
      }
    }
  }

  /** The first name of a sorted list is below every later one. */
  lemma HeadBelowTail(ps: seq<Param>)
    requires Sorted(ps) && ps != []
    ensures forall x :: x in ps[1..] ==> LexLess(ps[0].name, x.name)
  {
    forall x | x in ps[1..] ensures LexLess(ps[0].name, x.name) {
      var k :| 0 <= k < |ps[1..]| && ps[1..][k] == x;
      assert ps[k + 1] == x;
    }
  }

  lemma {:induction false} InsertParamSorted(ps: seq<Param>, p: Param)
    requires Sorted(ps)
    requires forall i :: 0 <= i < |ps| ==> !SameKey(p.name, ps[i].name)
    ensures Sorted(InsertParam(ps, p))
    ensures |InsertParam(ps, p)| == |ps| + 1
    ensures forall x :: x in InsertParam(ps, p) <==> x in ps || x == p
    decreases |ps|
  {
    if ps != [] {
      if LexLess(p.name, ps[0].name) {
        forall j | 0 <= j < |ps| ensures LexLess(p.name, ps[j].name) {
          if j > 0 {
            LexLessTransitive(p.name, ps[0].name, ps[j].name);
          }
        }
        assert InsertParam(ps, p) == [p] + ps;
        ConsSorted(p, ps);
      } else {
        LexLessTotal(p.name, ps[0].name);
        assert Sorted(ps[1..]);
        InsertParamSorted(ps[1..], p);
        var r := InsertParam(ps[1..], p);
        assert InsertParam(ps, p) == [ps[0]] + r;
        HeadBelowTail(ps);
        forall j | 0 <= j < |r| ensures LexLess(ps[0].name, r[j].name) {
          assert r[j] in r;
        }
        ConsSorted(ps[0], r);
      }
    }
  }

  /** A key greater than every stored key goes last. */
  lemma {:induction false} InsertParamLast(ps: seq<Param>, p: Param)
    requires forall i :: 0 <= i < |ps| ==> LexLess(ps[i].name, p.name) && !SameKey(p.name, ps[i].name)
    ensures InsertParam(ps, p) == ps + [p]
    decreases |ps|
  {
    if ps != [] {
      LexLessAsymmetric(ps[0].name, p.name);
      InsertParamLast(ps[1..], p);
      assert [ps[0]] + (ps[1..] + [p]) == ps + [p];
    }
  }

  /** TreeMap.putAll over the entries in iteration order. */
  function SortParams(ps: seq<Param>): seq<Param>
    decreases |ps|
  {
    if ps == [] then [] else InsertParam(SortParams(ps[..|ps| - 1]), ps[|ps| - 1])
  }

  lemma {:induction false} SortParamsSpec(ps: seq<Param>)
    requires NoSameKeys(ps)
    ensures Sorted(SortParams(ps))
    ensures |SortParams(ps)| == |ps|
    ensures forall x :: x in SortParams(ps) <==> x in ps
    decreases |ps|
  {
    if ps != [] {
      var init, last := ps[..|ps| - 1], ps[|ps| - 1];
      assert ps == init + [last];
      SortParamsSpec(init);
      var sorted := SortParams(init);
      forall i | 0 <= i < |sorted| ensures !SameKey(last.name, sorted[i].name) {
        assert sorted[i] in sorted;
        var k :| 0 <= k < |init| && init[k] == sorted[i];
        assert ps[k] == sorted[i];
      }
      InsertParamSorted(sorted, last);
    }
  }

  /** Sorting parameters that are already in comparator order changes nothing. */
  lemma {:induction false} SortParamsOfSorted(ps: seq<Param>)
    requires Sorted(ps) && NoSameKeys(ps)
    ensures SortParams(ps) == ps
    decreases |ps|
  {
    if ps != [] {
      var init, last := ps[..|ps| - 1], ps[|ps| - 1];
      assert ps == init + [last];
      SortParamsOfSorted(init);
      InsertParamLast(init, last);
    }
  }

  /** Sorted parameters have distinct names. */
  lemma SortedDistinct(qs: seq<Param>)
    requires Sorted(qs)
    ensures DistinctNames(qs)
  {
    forall i, j | 0 <= i < |qs| && 0 <= j < |qs| && i != j ensures qs[i].name != qs[j].name {
      if i < j { LexLessIrreflexive(qs[i].name); } else { LexLessIrreflexive(qs[j].name); }
    }
  }

  /** A sorted permutation of duplicate-free parameters keeps at most one charset key. */
  lemma SortedAtMostOneCharset(ps: seq<Param>, qs: seq<Param>)
    requires NoSameKeys(ps)
    requires Sorted(qs) && forall x :: x in qs <==> x in ps
    ensures AtMostOneCharset(qs)
  {
    SortedDistinct(qs);
    forall i, j | 0 <= i < |qs| && 0 <= j < |qs| && IsCharsetName(qs[i].name) && IsCharsetName(qs[j].name)
      ensures i == j
    {
      if i != j {
        assert qs[i] in qs && qs[j] in qs;
        var a :| 0 <= a < |ps| && ps[a] == qs[i];
        var b :| 0 <= b < |ps| && ps[b] == qs[j];
        assert a != b;
        assert SameKey(ps[a].name, ps[b].name);
      }
    }
  }

  lemma PermutedWellFormed(ps: seq<Param>, qs: seq<Param>)
    requires WellFormed(ps)
    requires forall x :: x in qs ==> x in ps
    ensures WellFormed(qs)
  {
    forall i | 0 <= i < |qs| ensures IsToken(qs[i].name) && IsValue(qs[i].value) {
      assert qs[i] in qs;
      var a :| 0 <= a < |ps| && ps[a] == qs[i];
    }
  }

  /** In sorted parameters with one charset key at most, the comparator matches a name with one index only. */
  lemma {:induction false} FindKeyUnique(ps: seq<Param>, name: string, i: nat)
    requires Sorted(ps) && AtMostOneCharset(ps)
    requires i < |ps| && SameKey(name, ps[i].name)
    ensures FindKey(ps, name) == Some(i)
  {
    SortedDistinct(ps);
  }

  // ---------------------------------------------------------------------
  // The media type value and its constructor (MimeType.java:118-209)
  // ---------------------------------------------------------------------

  /** A media type; `subtype` is None where the Java field is null. */
  datatype MimeType = MimeType(mainType: string, subtype: Option<string>, params: seq<Param>) {

    /** What the three-argument constructor guarantees of every instance. */
    predicate Valid() {
      && IsToken(mainType)
      && (subtype.Some? ==> IsToken(subtype.value))
      && WellFormed(params)
      && Sorted(params)
      && AtMostOneCharset(params)
    }
  }

  /** The three-argument constructor: validate, then copy the parameters into the sorted map. */
  function CreateSpec(t: Option<string>, sub: Option<string>, ps: seq<Param>): (r: Result<MimeType, MimeError>)
    requires DistinctNames(ps) && AtMostOneCharset(ps)
    ensures r.Ok? <==> t.Some? && IsToken(t.value) && (sub.Some? ==> IsToken(sub.value)) && WellFormed(ps)
    ensures r.Err? ==> (r.error == IllegalArgument <==> t.None?)
    ensures r.Ok? ==> r.value.Valid() && r.value.mainType == t.value && r.value.subtype == sub
    ensures r.Ok? ==> |r.value.params| == |ps| && forall x :: x in r.value.params <==> x in ps
  {
    if t.None? then Err(IllegalArgument)
    else if !IsToken(t.value) then Err(Malformed)
    else if sub.Some? && !IsToken(sub.value) then Err(Malformed)
    else if !WellFormed(ps) then Err(Malformed)
    else
      NoSameKeysFrom(ps);
      SortParamsSpec(ps);
      SortedAtMostOneCharset(ps, SortParams(ps));
      PermutedWellFormed(ps, SortParams(ps));
      Ok(MimeType(t.value, sub, SortParams(ps)))
  }

  /** MimeType(type, subtype, parameters), with its validation loop and its putAll loop. */
  method Create(t: Option<string>, sub: Option<string>, ps: seq<Param>) returns (r: Result<MimeType, MimeError>)
    requires DistinctNames(ps) && AtMostOneCharset(ps)
    ensures r == CreateSpec(t, sub, ps)
  {
    if t.None? {
      return Err(IllegalArgument);
    }
    if !IsToken(t.value) {
      return Err(Malformed);
    }
    if sub.Some? && !IsToken(sub.value) {
      return Err(Malformed);
    }
    var i := 0;
    while i < |ps|
      invariant 0 <= i <= |ps|
      invariant forall k :: 0 <= k < i ==> IsToken(ps[k].name) && IsValue(ps[k].value)
    {
      if !IsToken(ps[i].name) || !IsValue(ps[i].value) {
        return Err(Malformed);
      }
      i := i + 1;
    }
    var sorted: seq<Param> := [];
    i := 0;
    while i < |ps|
      invariant 0 <= i <= |ps|
      invariant sorted == SortParams(ps[..i])
    {
      assert ps[..i + 1][..i] == ps[..i];
      sorted := InsertParam(sorted, ps[i]);
      i := i + 1;
    }
    assert ps[..|ps|] == ps;
    r := Ok(MimeType(t.value, sub, sorted));
  }

  /** MimeType(type, subtype): no parameters. */
  function OfTypeAndSubtype(t: Option<string>, sub: Option<string>): (r: Result<MimeType, MimeError>)
    ensures r.Ok? <==> t.Some? && IsToken(t.value) && (sub.Some? ==> IsToken(sub.value))
    ensures r.Ok? ==> r.value == MimeType(t.value, sub, [])
    ensures r.Err? ==> (r.error == IllegalArgument <==> t.None?)
  {
    CreateSpec(t, sub, [])
  }

  /** MimeType(type): the subtype is the wildcard `*`. */
  function OfType(t: Option<string>): (r: Result<MimeType, MimeError>)
    ensures r.Ok? <==> t.Some? && IsToken(t.value)
    ensures r.Ok? ==> r.value == MimeType(t.value, Some("*"), [])
    ensures r.Ok? ==> IsWildcardSubtype(r.value)
    ensures r.Err? ==> (r.error == IllegalArgument <==> t.None?)
  {
    assert IsToken("*") by { assert IsTokenSpecial("*"[0]); }
    OfTypeAndSubtype(t, Some("*"))
  }

  // ---------------------------------------------------------------------
  // Lookups (MimeType.java:239-295)
  // ---------------------------------------------------------------------

  /** The stored index the comparator matches with name, scanning in order. */
  function FindKey(ps: seq<Param>, name: string): (r: Option<nat>)
    ensures r.Some? ==> r.value < |ps| && SameKey(name, ps[r.value].name)
    ensures r.None? ==> forall i :: 0 <= i < |ps| ==> !SameKey(name, ps[i].name)
  {
    if ps == [] then None
    else if SameKey(name, ps[0].name) then Some(0)
    else match FindKey(ps[1..], name)
      case Some(k) => Some(k + 1)
      case None => None
  }

  /** m lies strictly between a and b in String.compareTo order. */
  predicate Between(m: string, a: string, b: string) {
    (LexLess(a, m) && LexLess(m, b)) || (LexLess(b, m) && LexLess(m, a))
  }

  /**
   * A lookup whose answer does not depend on the shape of the red-black tree:
   * a charset spelling differing from the stored one is only found for sure
   * when no stored key sorts between the two spellings.
   */
  predicate LookupDetermined(ps: seq<Param>, name: string) {
    forall i, j :: 0 <= i < |ps| && 0 <= j < |ps| && IsCharsetName(name) && IsCharsetName(ps[i].name) ==>
      !Between(ps[j].name, name, ps[i].name)
  }

  /** Strip one pair of enclosing double quotes. */
  function Unquote(v: string): string {
    if |v| >= 2 && v[0] == '"' && v[|v| - 1] == '"' then v[1..|v| - 1] else v
  }

  /** containsKey under the comparator. */
  function HasParameter(m: MimeType, name: string): (r: bool)
    requires LookupDetermined(m.params, name)
    ensures r <==> exists i :: 0 <= i < |m.params| && SameKey(name, m.params[i].name)
  {
    FindKey(m.params, name).Some?
  }

  /** getParameter(name): the stored value with one pair of enclosing quotes removed; None for null. */
  function GetParameter(m: MimeType, name: string): (r: Option<string>)
    requires m.Valid() && LookupDetermined(m.params, name)
    ensures r.None? <==> forall i :: 0 <= i < |m.params| ==> !SameKey(name, m.params[i].name)
    ensures forall i :: 0 <= i < |m.params| && SameKey(name, m.params[i].name) ==> r == Some(Unquote(m.params[i].value))
  {
    match FindKey(m.params, name)
    case None => None
    case Some(k) =>
      assert forall i :: 0 <= i < |m.params| && SameKey(name, m.params[i].name) ==> i == k by {
        forall i | 0 <= i < |m.params| && SameKey(name, m.params[i].name) ensures i == k {
          FindKeyUnique(m.params, name, i);
        }
      }
      Some(Unquote(m.params[k].value))
  }

  /** getParameter(name, defaultValue). */
  function GetParameterOr(m: MimeType, name: string, default: string): (r: string)
    requires m.Valid() && LookupDetermined(m.params, name)
    ensures (forall i :: 0 <= i < |m.params| ==> !SameKey(name, m.params[i].name)) ==> r == default
    ensures forall i :: 0 <= i < |m.params| && SameKey(name, m.params[i].name) ==> r == Unquote(m.params[i].value)
  {
    GetParameter(m, name).GetOr(default)
  }

  /** getCharset(defaultCharset), by name: the charset parameter, else the default. */
  function GetCharsetOr(m: MimeType, default: string): (r: string)
    requires m.Valid() && LookupDetermined(m.params, CHARSET)
    ensures (forall i :: 0 <= i < |m.params| ==> !IsCharsetName(m.params[i].name)) ==> r == default
    ensures forall i :: 0 <= i < |m.params| && IsCharsetName(m.params[i].name) ==> r == Unquote(m.params[i].value)
  {
    CharsetIsCharsetName();
    GetParameterOr(m, CHARSET, default)
  }

  const DEFAULT_CHARSET: string := "US-ASCII"

  /** getCharset(): the charset parameter, else US-ASCII. */
  function GetCharset(m: MimeType): (r: string)
    requires m.Valid() && LookupDetermined(m.params, CHARSET)
    ensures (forall i :: 0 <= i < |m.params| ==> !IsCharsetName(m.params[i].name)) ==> r == DEFAULT_CHARSET
    ensures forall i :: 0 <= i < |m.params| && IsCharsetName(m.params[i].name) ==> r == Unquote(m.params[i].value)
  {
    GetCharsetOr(m, DEFAULT_CHARSET)
  }

  predicate IsWildcardType(m: MimeType) {
    m.mainType == "*"
  }

  predicate IsWildcardSubtype(m: MimeType) {
    m.subtype.Some? && |m.subtype.value| > 0 && m.subtype.value[0] == '*'
  }

  // ---------------------------------------------------------------------
  // parse (MimeType.java:45-74)
  // ---------------------------------------------------------------------

  predicate IsLowerCase(s: string) {
    Lower(s) == s
  }

  lemma LowerIsLowerCase(s: string)
    ensures IsLowerCase(Lower(s))
  {
  }

  /**
   * The parameters the loop collects hold one charset key at most; with two
   * spellings of `charset` the sorted map's content depends on its tree shape.
   */
  predicate ParseDetermined(s: string) {
    match MatchTypeSubtype(s)
    case None => true
    case Some(tm) =>
      var sc := ScanParams(s, tm.end, []);
      sc.Ok? ==> AtMostOneCharset(sc.value)
  }

  /** parse(string): Ok(None) where Java returns null, Err(Malformed) where it throws. */
  function ParseSpec(s: string): (r: Result<Option<MimeType>, MimeError>)
    requires ParseDetermined(s)
    ensures r == Ok(None) <==> MatchTypeSubtype(s).None?
    ensures r.Err? ==> r.error == Malformed
    ensures r.Ok? && r.value.Some? ==> r.value.value.Valid() && r.value.value.subtype.Some?
    ensures r.Ok? && r.value.Some? ==> IsLowerCase(r.value.value.mainType) && IsLowerCase(r.value.value.subtype.value)
  {
    match MatchTypeSubtype(s)
    case None => Ok(None)
    case Some(tm) =>
      match ScanParams(s, tm.end, [])
      case Err(e) => Err(e)
      case Ok(ps) =>
        LowerIsLowerCase(tm.mainType);
        LowerIsLowerCase(tm.subtype);
        match CreateSpec(Some(Lower(tm.mainType)), Some(Lower(tm.subtype)), ps)
        case Ok(m) => Ok(Some(m))
        case Err(e) => Err(e)
  }

  /** parse(string): match type/subtype, then consume one `;` segment per step. */
  method Parse(s: string) returns (r: Result<Option<MimeType>, MimeError>)
    requires ParseDetermined(s)
    ensures r == ParseSpec(s)
  {
    var tm := MatchTypeSubtype(s);
    if tm.None? {
      return Ok(None);
    }
    var t := Lower(tm.value.mainType);
    var sub := Lower(tm.value.subtype);
    var params: seq<Param> := [];
    var i := tm.value.end;
    while i < |s|
      invariant tm.value.end <= i <= |s|
      invariant DistinctNames(params) && WellFormed(params)
      invariant ScanParams(s, i, params) == ScanParams(s, tm.value.end, [])
      decreases |s| - i
    {
      var pm := MatchParameter(s, i);
      if pm.None? {
        return Err(Malformed);
      }
      if pm.value.param.Some? {
        PutKeepsShape(params, pm.value.param.value);
        params := Put(params, pm.value.param.value);
      }
      i := pm.value.end;
    }
    var created := Create(Some(t), Some(sub), params);
    match created
    case Ok(m) => r := Ok(Some(m));
    case Err(e) => r := Err(e);
  }

  lemma NotTokenChars()
    ensures !IsTokenChar('/') && !IsTokenChar(';') && !IsTokenChar('=') && !IsTokenChar('"') && !IsTokenChar(' ')
  {
  }

  /** parse returns null exactly when the input does not begin with token `/` token. */
  lemma ParseNullIff(s: string)
    requires ParseDetermined(s)
    ensures ParseSpec(s) == Ok(None) <==> !StartsWithTypeSubtype(s)
  {
    NotTokenChars();
    if StartsWithTypeSubtype(s) {
      var k :| 0 < k < |s| - 1 && IsToken(s[..k]) && s[k] == '/' && IsTokenChar(s[k + 1]);
      assert forall j :: 0 <= j < k ==> s[j] == s[..k][j];
      TokenRunStops(s, 0, k);
    }
  }

  /** Leading whitespace is not a media type: parse returns null. */
  lemma ParseLeadingSpaceIsNull(s: string)
    requires |s| > 0 && IsSpace(s[0])
    ensures ParseDetermined(s) && ParseSpec(s) == Ok(None)
  {
    NotTokenChars();
    assert TokenRun(s, 0) == 0;
  }

  // ---------------------------------------------------------------------
  // toString (MimeType.java:315-333)
  // ---------------------------------------------------------------------

  /** The key toString writes: `charset` in lower case, any other name as stored. */
  function CanonName(n: string): string {
    if IsCharsetName(n) then CHARSET else n
  }

  function RenderParam(p: Param): string {
    "; " + CanonName(p.name) + "=" + p.value
  }

  function RenderParams(ps: seq<Param>): string {
    if ps == [] then "" else RenderParam(ps[0]) + RenderParams(ps[1..])
  }

  /** The canonical string of a media type. */
  function Render(m: MimeType): string {
    m.mainType + (if m.subtype.Some? then "/" + m.subtype.value else "") + RenderParams(m.params)
  }

  lemma {:induction false} RenderParamsSnoc(ps: seq<Param>, p: Param)
    ensures RenderParams(ps + [p]) == RenderParams(ps) + RenderParam(p)
    decreases |ps|
  {
    if ps == [] {
      assert [] + [p] == [p];
    } else {
      assert (ps + [p])[0] == ps[0] && (ps + [p])[1..] == ps[1..] + [p];
      RenderParamsSnoc(ps[1..], p);
    }
  }

  /** toString(): appends type, `/subtype` and `; name=value` per parameter to a buffer. */
  method ToString(m: MimeType) returns (r: string)
    ensures r == Render(m)
  {
    var head := m.mainType;
    if m.subtype.Some? {
      head := head + "/" + m.subtype.value;
    }
    var tail := AppendParams(m.params);
    r := head + tail;
  }

  /** The parameter loop of toString: `; name=value` for each entry, `charset` written in lower case. */
  method AppendParams(ps: seq<Param>) returns (tail: string)
    ensures tail == RenderParams(ps)
  {
    tail := "";
    var i := 0;
    while i < |ps|
      invariant 0 <= i <= |ps|
      invariant tail == RenderParams(ps[..i])
    {
      var name := if IsCharsetName(ps[i].name) then CHARSET else ps[i].name;
      RenderParamsStep(ps, i, name);
      tail := tail + ("; " + name + "=" + ps[i].value);
      i := i + 1;
    }
    assert ps[..i] == ps;
  }

  /** One turn of the toString loop: the next parameter, written under the name it chose, extends the rendering. */
  lemma RenderParamsStep(ps: seq<Param>, i: nat, name: string)
    requires i < |ps| && name == CanonName(ps[i].name)
    ensures RenderParams(ps[..i + 1]) == RenderParams(ps[..i]) + ("; " + name + "=" + ps[i].value)
  {
    assert ps[..i + 1] == ps[..i] + [ps[i]];
    RenderParamsSnoc(ps[..i], ps[i]);
  }
}
