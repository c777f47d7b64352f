/**
 * Header lines (SimpleHttpHeader.java) and the static helpers of
 * HttpHeaders.java: parsing a `name: value` line, reading Content-Length,
 * the case-insensitive lookups of HttpMessage.java and grouping a message's
 * headers by name.
 */
module Headers {
  import opened Wrappers
  import opened Ascii

  /** SimpleHttpHeader: a name and a value, kept exactly as given. */
  datatype Header = Header(name: string, value: string)

  /** SimpleHttpHeader.toString: the header line `name: value`. */
  function Line(h: Header): string {
    h.name + ": " + h.value
  }

  // ---------------------------------------------------------------------
  // HttpHeaders.parse (HttpHeaders.java:73-80)
  // ---------------------------------------------------------------------

  /** The IllegalArgumentException of HttpHeaders.parse. */
  datatype HeaderError = MalformedHeader

  /** Split at the first colon and trim both sides; no colon, a colon first or a colon last is an error. */
  function Parse(s: string): (r: Result<Header, HeaderError>)
    ensures r.Err? <==> IndexOf(s, ':') < 1 || IndexOf(s, ':') == |s| - 1
    ensures r.Ok? ==> IsTrimmed(r.value.name) && IsTrimmed(r.value.value)
    ensures r.Ok? ==> forall i :: 0 <= i < |r.value.name| ==> r.value.name[i] != ':'
    ensures r.Ok? ==> r.value == Header(Trim(s[..IndexOf(s, ':')]), Trim(s[IndexOf(s, ':') + 1..]))
  {
    var colon := IndexOf(s, ':');
    if colon < 1 || colon == |s| - 1 then Err(MalformedHeader)
    else
      TrimAvoids(s[..colon], ':');
      Ok(Header(Trim(s[..colon]), Trim(s[colon + 1..])))
  }

  /** Trimming keeps only characters of the original. */
  lemma TrimAvoids(s: string, c: char)
    requires forall i :: 0 <= i < |s| ==> s[i] != c
    ensures forall i :: 0 <= i < |Trim(s)| ==> Trim(s)[i] != c
  {
    SuffixAvoids(s, TrimLeft(s), c);
    PrefixAvoids(TrimLeft(s), TrimRight(TrimLeft(s)), c);
  }

  lemma SuffixAvoids(s: string, l: string, c: char)
    requires |l| <= |s| && l == s[|s| - |l|..]
    requires forall i :: 0 <= i < |s| ==> s[i] != c
    ensures forall i :: 0 <= i < |l| ==> l[i] != c
  {
    forall i | 0 <= i < |l| ensures l[i] != c {
      assert l[i] == s[|s| - |l| + i];
    }
  }

  lemma PrefixAvoids(s: string, t: string, c: char)
    requires |t| <= |s| && t == s[..|t|]
    requires forall i :: 0 <= i < |s| ==> s[i] != c
    ensures forall i :: 0 <= i < |t| ==> t[i] != c
  {
    forall i | 0 <= i < |t| ensures t[i] != c {
      assert t[i] == s[i];
    }
  }

  lemma TrimOfSpaced(v: string)
    requires IsTrimmed(v)
    ensures Trim(" " + v) == v
  {
    assert (" " + v)[1..] == v;
    assert TrimLeft(" " + v) == TrimLeft(v);
    TrimOfTrimmed(v);
  }

  /** Parsing a rendered header line gives the header back. */
  lemma ParseLine(h: Header)
    requires |h.name| > 0 && forall i :: 0 <= i < |h.name| ==> h.name[i] != ':'
    requires IsTrimmed(h.name) && IsTrimmed(h.value)
    ensures Parse(Line(h)) == Ok(h)
  {
    LineSplits(h);
    TrimOfTrimmed(h.name);
    TrimOfSpaced(h.value);
  }

  /** In a rendered line the first colon is the one after the name. */
  lemma LineSplits(h: Header)
    requires forall i :: 0 <= i < |h.name| ==> h.name[i] != ':'
    ensures IndexOf(Line(h), ':') == |h.name| && |Line(h)| == |h.name| + 2 + |h.value|
    ensures Line(h)[..|h.name|] == h.name && Line(h)[|h.name| + 1..] == " " + h.value
  {
    var s := Line(h);
    assert s[|h.name|] == ':';
    forall i | 0 <= i < |h.name| ensures s[i] != ':' {
      assert s[i] == h.name[i];
    }
    assert s[..|h.name|] == h.name;
    assert s[|h.name| + 1..] == " " + h.value;
  }

  /** Later colons stay in the value: `Host: example.org:8080`. */
  lemma ParseKeepsLaterColons()
    ensures Parse("Host: example.org:8080") == Ok(Header("Host", "example.org:8080"))
  {
    var h := Header("Host", "example.org:8080");
    assert Line(h) == "Host: example.org:8080";
    ParseLine(h);
  }

  /** Surrounding blanks are trimmed from both sides, and only the first colon splits. */
  lemma ParseSplitsAtFirstColon()
    ensures Parse(" a :b:c ") == Ok(Header("a", "b:c"))
  {
    assert " a :b:c " == " a " + ":" + ("b:c" + " ");
    assert forall i :: 0 <= i < |" a "| ==> " a "[i] != ':';
    ParseAroundColon(" a ", "b:c" + " ");
    TrimSpacedA();
    TrimTrailingSpace("b:c");
  }

  /** Text before the first colon becomes the name, everything after it the value. */
  lemma ParseAroundColon(pre: string, post: string)
    requires |pre| > 0 && |post| > 0 && forall i :: 0 <= i < |pre| ==> pre[i] != ':'
    ensures Parse(pre + ":" + post) == Ok(Header(Trim(pre), Trim(post)))
  {
    var s := pre + ":" + post;
    assert s[|pre|] == ':';
    forall i | 0 <= i < |pre| ensures s[i] != ':' {
      assert s[i] == pre[i];
    }
    assert s[..|pre|] == pre && s[|pre| + 1..] == post;
  }

  lemma TrimSpacedA()
    ensures Trim(" a ") == "a"
  {
    assert TrimLeft(" a ") == "a ";
    assert TrimRight("a ") == "a";
  }

  lemma TrimTrailingSpace(v: string)
    requires v != [] && IsTrimmed(v)
    ensures Trim(v + " ") == v
  {
    var w := v + " ";
    assert w[0] == v[0] && w[..|w| - 1] == v;
    assert TrimLeft(w) == w;
    assert TrimRight(w) == TrimRight(v);
    assert TrimRight(v) == v;
  }

  // ---------------------------------------------------------------------
  // Long.parseLong and getContentLength (HttpHeaders.java:53-64)
  // ---------------------------------------------------------------------

  const LONG_MIN: int := -0x8000_0000_0000_0000
  const LONG_MAX: int := 0x7FFF_FFFF_FFFF_FFFF

  predicate IsDigit(c: char) {
    '0' <= c <= '9'
  }

  predicate AllDigits(s: string) {
    forall i :: 0 <= i < |s| ==> IsDigit(s[i])
  }

  /** The value of a run of decimal digits, most significant first. */
  function DigitsValue(s: string): nat
    requires AllDigits(s)
  {
    if s == [] then 0 else 10 * DigitsValue(s[..|s| - 1]) + (s[|s| - 1] as int - '0' as int)
  }

  /** Long.parseLong(s, 10) on ASCII digits: an optional sign, one digit at least, and the 64-bit range. */
  function ParseLong(s: string): (r: Option<int>)
    ensures r.Some? ==> LONG_MIN <= r.value <= LONG_MAX
    ensures r.Some? ==> |s| > 0 && (IsDigit(s[0]) || s[0] == '-' || s[0] == '+')
  {
    if s == [] then None
    else
      var start := if s[0] == '-' || s[0] == '+' then 1 else 0;
      var ds := s[start..];
      if ds == [] || !AllDigits(ds) then None
      else
        var n: int := DigitsValue(ds);
        var v := if s[0] == '-' then -n else n;
        if LONG_MIN <= v <= LONG_MAX then Some(v) else None
  }

  /** Long.toString: the reference decimal rendering, a minus sign for negatives. */
  function Digits(n: nat): (r: string)
    ensures |r| > 0 && AllDigits(r)
  {
    if n < 10 then [('0' as int + n) as char]
    else Digits(n / 10) + [('0' as int + n % 10) as char]
  }

  function Decimal(n: int): string {
    if n < 0 then "-" + Digits(-n) else Digits(n)
  }

  lemma {:induction false} DigitsValueOfDigits(n: nat)
    ensures DigitsValue(Digits(n)) == n
  {
    if n >= 10 {
      var d := Digits(n);
      assert d[..|d| - 1] == Digits(n / 10);
      DigitsValueOfDigits(n / 10);
    }
  }

  /** parseLong reads back every long that toString writes. */
  lemma ParseDecimal(n: int)
    requires LONG_MIN <= n <= LONG_MAX
    ensures ParseLong(Decimal(n)) == Some(n)
  {
    var d := if n < 0 then Digits(-n) else Digits(n);
    DigitsValueOfDigits(if n < 0 then -n else n);
    if n < 0 {
      assert Decimal(n)[1..] == d;
    } else {
      assert IsDigit(d[0]);
      assert Decimal(n)[0..] == d;
    }
  }

  /**
   * parseLong reads any run of ASCII digits, leading zeros included, with an
   * optional sign in front, whenever the signed value fits in 64 bits.
   */
  lemma ParseSignedDigits(ds: string)
    requires |ds| > 0 && AllDigits(ds)
    ensures DigitsValue(ds) <= LONG_MAX ==> ParseLong(ds) == Some(DigitsValue(ds)) && ParseLong("+" + ds) == Some(DigitsValue(ds))
    ensures -(DigitsValue(ds) as int) >= LONG_MIN ==> ParseLong("-" + ds) == Some(-(DigitsValue(ds) as int))
  {
    if DigitsValue(ds) <= LONG_MAX {
      ParseUnsigned(ds);
    }
    ParseWithSign('+', ds);
    ParseWithSign('-', ds);
  }

  lemma ParseUnsigned(ds: string)
    requires |ds| > 0 && AllDigits(ds) && DigitsValue(ds) <= LONG_MAX
    ensures ParseLong(ds) == Some(DigitsValue(ds))
  {
    assert IsDigit(ds[0]);
    assert ds[0..] == ds;
  }

  lemma ParseWithSign(sign: char, ds: string)
    requires sign == '+' || sign == '-'
    requires |ds| > 0 && AllDigits(ds)
    ensures var v := if sign == '-' then -(DigitsValue(ds) as int) else DigitsValue(ds);
      LONG_MIN <= v <= LONG_MAX ==> ParseLong([sign] + ds) == Some(v)
  {
    assert ([sign] + ds)[0] == sign;
    assert ([sign] + ds)[1..] == ds;
  }

  /** A value with a blank around the digits does not parse. */
  lemma ParseLongRejectsBlanks(s: string)
    requires |s| > 0 && (s[0] == ' ' || s[|s| - 1] == ' ')
    ensures ParseLong(s).None?
  {
    var start := if s[0] == '-' || s[0] == '+' then 1 else 0;
    var ds := s[start..];
    if s[0] == ' ' {
      assert ds[0] == ' ';
    } else if ds != [] {
      assert ds[|ds| - 1] == ' ';
    }
  }

  const CONTENT_LENGTH: string := "Content-Length"

  // ---------------------------------------------------------------------
  // HttpMessage.getHeader and getHeaders(name) (HttpMessage.java:29-49)
  // ---------------------------------------------------------------------

  /** getHeaders(name): every header whose name equals name ignoring case, in stored order. */
  function AllNamed(hs: seq<Header>, name: string): (r: seq<Header>)
    ensures |r| <= |hs|
    ensures forall h :: h in r <==> h in hs && EqualsIgnoreCase(h.name, name)
  {
    if hs == [] then []
    else if EqualsIgnoreCase(hs[0].name, name) then [hs[0]] + AllNamed(hs[1..], name)
    else AllNamed(hs[1..], name)
  }

  /** No header of hs has the given name, ignoring case. */
  predicate NoneNamed(hs: seq<Header>, name: string) {
    forall j :: 0 <= j < |hs| ==> !EqualsIgnoreCase(hs[j].name, name)
  }

  /** getHeader(name): the first header whose name equals name ignoring case, None for null. */
  function FirstNamed(hs: seq<Header>, name: string): (r: Option<Header>)
    ensures r.None? <==> NoneNamed(hs, name)
    ensures r.Some? ==>
      exists i :: 0 <= i < |hs| && hs[i] == r.value && EqualsIgnoreCase(hs[i].name, name) && NoneNamed(hs[..i], name)
  {
    if hs == [] then None
    else if EqualsIgnoreCase(hs[0].name, name) then
      assert NoneNamed(hs[..0], name);
      Some(hs[0])
    else
      var r := FirstNamed(hs[1..], name);
      if r.Some? then
        var i :| 0 <= i < |hs[1..]| && hs[1..][i] == r.value && EqualsIgnoreCase(hs[1..][i].name, name)
          && NoneNamed(hs[1..][..i], name);
        assert hs[i + 1] == r.value;
        assert NoneNamed(hs[..i + 1], name) by {
          forall j | 0 <= j < i + 1 ensures !EqualsIgnoreCase(hs[j].name, name) {
            if j > 0 {
              assert hs[j] == hs[1..][..i][j - 1];
            }
          }
        }
        r
      else r
  }

  /** getHeader(n) is null iff getHeaders(n) is empty, and otherwise its first element. */
  lemma {:induction false} FirstIsHeadOfAll(hs: seq<Header>, name: string)
    ensures FirstNamed(hs, name).None? <==> AllNamed(hs, name) == []
    ensures FirstNamed(hs, name).Some? ==> FirstNamed(hs, name).value == AllNamed(hs, name)[0]
  {
    if hs != [] && !EqualsIgnoreCase(hs[0].name, name) {
      FirstIsHeadOfAll(hs[1..], name);
    }
  }

  /** Appending a header extends the matches by it when it matches. */
  lemma {:induction false} AllNamedSnoc(hs: seq<Header>, h: Header, name: string)
    ensures AllNamed(hs + [h], name) == AllNamed(hs, name) + (if EqualsIgnoreCase(h.name, name) then [h] else [])
  {
    if hs == [] {
      assert [] + [h] == [h];
    } else {
      assert (hs + [h])[0] == hs[0] && (hs + [h])[1..] == hs[1..] + [h];
      AllNamedSnoc(hs[1..], h, name);
    }
  }

  /** Appending a header does not change an existing first match, and supplies one when there was none. */
  lemma {:induction false} FirstNamedSnoc(hs: seq<Header>, h: Header, name: string)
    ensures FirstNamed(hs, name).Some? ==> FirstNamed(hs + [h], name) == FirstNamed(hs, name)
    ensures FirstNamed(hs, name).None? && EqualsIgnoreCase(h.name, name) ==> FirstNamed(hs + [h], name) == Some(h)
  {
    if hs == [] {
      assert [] + [h] == [h];
    } else {
      assert (hs + [h])[0] == hs[0] && (hs + [h])[1..] == hs[1..] + [h];
      FirstNamedSnoc(hs[1..], h, name);
    }
  }

  /** The lookups read names ignoring case: a name in another case finds the same headers. */
  lemma LookupIgnoresCase(hs: seq<Header>, a: string, b: string)
    requires EqualsIgnoreCase(a, b)
    ensures FirstNamed(hs, a) == FirstNamed(hs, b) && AllNamed(hs, a) == AllNamed(hs, b)
  {
    FirstNamedCase(hs, a, b);
    AllNamedCase(hs, a, b);
  }

  lemma {:induction false} FirstNamedCase(hs: seq<Header>, a: string, b: string)
    requires EqualsIgnoreCase(a, b)
    ensures FirstNamed(hs, a) == FirstNamed(hs, b)
  {
    if hs != [] {
      FirstNamedCase(hs[1..], a, b);
    }
  }

  lemma {:induction false} AllNamedCase(hs: seq<Header>, a: string, b: string)
    requires EqualsIgnoreCase(a, b)
    ensures AllNamed(hs, a) == AllNamed(hs, b)
  {
    if hs != [] {
      AllNamedCase(hs[1..], a, b);
    }
  }

  /**
   * getContentLength, reading the Content-Length header as the value of the
   * first header with that name: -1 when it is absent or not a long.
   */
  function ContentLength(hs: seq<Header>): (r: int)
    ensures LONG_MIN <= r <= LONG_MAX
    ensures FirstNamed(hs, CONTENT_LENGTH).None? ==> r == -1
    ensures FirstNamed(hs, CONTENT_LENGTH).Some? && ParseLong(FirstNamed(hs, CONTENT_LENGTH).value.value).None? ==> r == -1
    ensures r != -1 ==> FirstNamed(hs, CONTENT_LENGTH).Some? && ParseLong(FirstNamed(hs, CONTENT_LENGTH).value.value) == Some(r)
    ensures FirstNamed(hs, CONTENT_LENGTH).Some? && ParseLong(FirstNamed(hs, CONTENT_LENGTH).value.value).Some? ==>
      r == ParseLong(FirstNamed(hs, CONTENT_LENGTH).value.value).value
  {
    match FirstNamed(hs, CONTENT_LENGTH)
    case None => -1
    case Some(h) => ParseLong(h.value).GetOr(-1)
  }

  /** A message whose first Content-Length header carries a rendered length reports that length. */
  lemma ContentLengthOfDecimal(hs: seq<Header>, n: int)
    requires 0 <= n <= LONG_MAX
    requires FirstNamed(hs, CONTENT_LENGTH).Some? && FirstNamed(hs, CONTENT_LENGTH).value.value == Decimal(n)
    ensures ContentLength(hs) == n
  {
    ParseDecimal(n);
  }

  /** Only the first Content-Length header counts: a later valid one does not rescue an invalid first one. */
  lemma ContentLengthUsesFirst(hs: seq<Header>, v: string, n: int)
    requires FirstNamed(hs, CONTENT_LENGTH).Some? && LONG_MIN <= n <= LONG_MAX
    ensures ContentLength(hs + [Header(CONTENT_LENGTH, Decimal(n))]) == ContentLength(hs)
  {
    FirstNamedSnoc(hs, Header(CONTENT_LENGTH, Decimal(n)), CONTENT_LENGTH);
  }

  /**
   * A first Content-Length header holding an optional sign and a run of
   * digits, leading zeros included, reports their signed value when it fits
   * in 64 bits: `-5` gives -5, `+7` and `007` give 7.
   */
  lemma ContentLengthOfDigits(hs: seq<Header>, sign: string, ds: string)
    requires sign == "" || sign == "+" || sign == "-"
    requires |ds| > 0 && AllDigits(ds)
    requires FirstNamed(hs, CONTENT_LENGTH).Some? && FirstNamed(hs, CONTENT_LENGTH).value.value == sign + ds
    requires LONG_MIN <= (if sign == "-" then -(DigitsValue(ds) as int) else DigitsValue(ds)) <= LONG_MAX
    ensures ContentLength(hs) == if sign == "-" then -(DigitsValue(ds) as int) else DigitsValue(ds)
  {
    ParseSignedDigits(ds);
    if sign == "" {
      assert sign + ds == ds;
    }
  }

  // ---------------------------------------------------------------------
  // HttpHeaders.getHeaders(message) (HttpHeaders.java:17-22, 31-44)
  // ---------------------------------------------------------------------

  /** One entry of the case-insensitive TreeMap: the first spelling seen and the values in message order. */
  datatype Group = Group(key: string, values: seq<string>)

  /** Keys strictly increasing in String.CASE_INSENSITIVE_ORDER. */
  predicate GroupsSorted(gs: seq<Group>) {
    forall i, j :: 0 <= i < j < |gs| ==> CiLess(gs[i].key, gs[j].key)
  }

  /** One loop step: get the list of the key equal ignoring case and append, or insert a new key in order. */
  function AddToGroups(gs: seq<Group>, h: Header): seq<Group>
    decreases |gs|
  {
    if gs == [] then [Group(h.name, [h.value])]
    else if EqualsIgnoreCase(h.name, gs[0].key) then [Group(gs[0].key, gs[0].values + [h.value])] + gs[1..]
    else if CiLess(h.name, gs[0].key) then [Group(h.name, [h.value])] + gs
    else [gs[0]] + AddToGroups(gs[1..], h)
  }

  /** The map after the loop has visited every header of hs. */
  function GroupSpec(hs: seq<Header>): seq<Group>
    decreases |hs|
  {
    if hs == [] then [] else AddToGroups(GroupSpec(hs[..|hs| - 1]), hs[|hs| - 1])
  }

  /** getHeaders(message): the loop over the message's headers. */
  method GroupHeaders(hs: seq<Header>) returns (gs: seq<Group>)
    ensures gs == GroupSpec(hs)
  {
    gs := [];
    var i := 0;
    while i < |hs|
      invariant 0 <= i <= |hs|
      invariant gs == GroupSpec(hs[..i])
    {
      assert hs[..i + 1][..i] == hs[..i];
      gs := AddToGroups(gs, hs[i]);
      i := i + 1;
    }
    assert hs[..i] == hs;
  }

  function Values(hs: seq<Header>): (r: seq<string>)
    ensures |r| == |hs|
  {
    if hs == [] then [] else [hs[0].value] + Values(hs[1..])
  }

  lemma {:induction false} ValuesSnoc(hs: seq<Header>, h: Header)
    ensures Values(hs + [h]) == Values(hs) + [h.value]
  {
    if hs == [] {
      assert [] + [h] == [h];
    } else {
      assert (hs + [h])[0] == hs[0] && (hs + [h])[1..] == hs[1..] + [h];
      ValuesSnoc(hs[1..], h);
    }
  }

  function TotalValues(gs: seq<Group>): nat {
    if gs == [] then 0 else |gs[0].values| + TotalValues(gs[1..])
  }

  /** Some key of gs equals name ignoring case. */
  predicate HasKey(gs: seq<Group>, name: string) {
    exists k :: 0 <= k < |gs| && EqualsIgnoreCase(gs[k].key, name)
  }

  /** The position of the key equal to name ignoring case, or -1. */
  function KeyIndex(gs: seq<Group>, name: string): (i: int)
    ensures -1 <= i < |gs|
    ensures i >= 0 ==> EqualsIgnoreCase(gs[i].key, name)
    ensures i < 0 <==> !HasKey(gs, name)
  {
    if gs == [] then -1
    else if EqualsIgnoreCase(gs[0].key, name) then 0
    else
      var k := KeyIndex(gs[1..], name);
      assert forall j :: 0 <= j < |gs[1..]| ==> gs[1..][j] == gs[j + 1];
      if k < 0 then -1 else k + 1
  }

  /** Every key after a step is an old key or the new header's name. */
  lemma {:induction false} AddKeys(gs: seq<Group>, h: Header)
    ensures forall k :: 0 <= k < |AddToGroups(gs, h)| ==>
      AddToGroups(gs, h)[k].key == h.name || exists i :: 0 <= i < |gs| && gs[i].key == AddToGroups(gs, h)[k].key
    decreases |gs|
  {
    var r := AddToGroups(gs, h);
    if gs != [] && !EqualsIgnoreCase(h.name, gs[0].key) && !CiLess(h.name, gs[0].key) {
      AddKeys(gs[1..], h);
      forall k | 0 < k < |r| && r[k].key != h.name ensures exists i :: 0 <= i < |gs| && gs[i].key == r[k].key {
        assert r[k] == AddToGroups(gs[1..], h)[k - 1];
        var i :| 0 <= i < |gs[1..]| && gs[1..][i].key == r[k].key;
        assert gs[i + 1].key == r[k].key;
      }
    } else if gs != [] {
      forall k | 0 < k < |r| ensures exists i :: 0 <= i < |gs| && gs[i].key == r[k].key {
        if EqualsIgnoreCase(h.name, gs[0].key) {
          assert gs[k].key == r[k].key;
        } else {
          assert gs[k - 1].key == r[k].key;
        }
      }
      assert r[0].key == h.name || gs[0].key == r[0].key;
    }
  }

  /** A step keeps the keys sorted. */
  lemma {:induction false} AddSorted(gs: seq<Group>, h: Header)
    requires GroupsSorted(gs)
    ensures GroupsSorted(AddToGroups(gs, h))
    decreases |gs|
  {
    if gs == [] {
    } else if EqualsIgnoreCase(h.name, gs[0].key) {
      SortedTail(gs);
      HeadBelowTail(gs);
      SortedCons(Group(gs[0].key, gs[0].values + [h.value]), gs[1..]);
    } else if CiLess(h.name, gs[0].key) {
      forall k | 0 <= k < |gs| ensures CiLess(h.name, gs[k].key) {
        if k > 0 {
          CiLessTransitive(h.name, gs[0].key, gs[k].key);
        }
      }
      SortedCons(Group(h.name, [h.value]), gs);
    } else {
      CiLessTotal(h.name, gs[0].key);
      SortedTail(gs);
      HeadBelowTail(gs);
      AddSorted(gs[1..], h);
      AddLater(gs, h);
    }
  }

  lemma SortedTail(gs: seq<Group>)
    requires GroupsSorted(gs) && gs != []
    ensures GroupsSorted(gs[1..])
  {
    forall a, b | 0 <= a < b < |gs[1..]| ensures CiLess(gs[1..][a].key, gs[1..][b].key) {
      assert gs[1..][a] == gs[a + 1] && gs[1..][b] == gs[b + 1];
    }
  }

  lemma HeadBelowTail(gs: seq<Group>)
    requires GroupsSorted(gs) && gs != []
    ensures forall k :: 0 <= k < |gs[1..]| ==> CiLess(gs[0].key, gs[1..][k].key)
  {
    forall k | 0 <= k < |gs[1..]| ensures CiLess(gs[0].key, gs[1..][k].key) {
      assert gs[1..][k] == gs[k + 1];
    }
  }

  lemma SortedCons(g: Group, rest: seq<Group>)
    requires GroupsSorted(rest) && forall k :: 0 <= k < |rest| ==> CiLess(g.key, rest[k].key)
    ensures GroupsSorted([g] + rest)
  {
    var r := [g] + rest;
    forall i, j | 0 <= i < j < |r| ensures CiLess(r[i].key, r[j].key) {
      assert r[j] == rest[j - 1];
      if i > 0 { assert r[i] == rest[i - 1]; }
    }
  }

  /** A header sorting after the first key is inserted into the tail, which keeps every key above the first. */
  lemma AddLater(gs: seq<Group>, h: Header)
    requires gs != [] && CiLess(gs[0].key, h.name) && !EqualsIgnoreCase(h.name, gs[0].key)
    requires GroupsSorted(AddToGroups(gs[1..], h))
    requires forall k :: 0 <= k < |gs[1..]| ==> CiLess(gs[0].key, gs[1..][k].key)
    ensures GroupsSorted(AddToGroups(gs, h))
  {
    CiLessExcludesEqual(gs[0].key, h.name);
    var rest := AddToGroups(gs[1..], h);
    AddKeys(gs[1..], h);
    assert AddToGroups(gs, h) == [gs[0]] + rest;
    forall k | 0 <= k < |rest| ensures CiLess(gs[0].key, rest[k].key) {
      if rest[k].key != h.name {
        var i :| 0 <= i < |gs[1..]| && gs[1..][i].key == rest[k].key;
      }
    }
    SortedCons(gs[0], rest);
  }

  /** Keys equal ignoring case to one key compare the same way against any other. */
  lemma CiLessCongruent(a: string, b: string, c: string)
    requires EqualsIgnoreCase(a, b)
    ensures CiLess(a, c) == CiLess(b, c) && CiLess(c, a) == CiLess(c, b)
  {
  }

  /** A header whose name has key i appends its value to that key's list and changes nothing else. */
  lemma {:induction false} AddExisting(gs: seq<Group>, h: Header, i: nat)
    requires GroupsSorted(gs) && i < |gs| && EqualsIgnoreCase(h.name, gs[i].key)
    ensures |AddToGroups(gs, h)| == |gs|
    ensures forall k :: 0 <= k < |gs| ==>
      AddToGroups(gs, h)[k] == if k == i then Group(gs[i].key, gs[i].values + [h.value]) else gs[k]
    decreases |gs|
  {
    if i > 0 {
      CiLessExcludesEqual(gs[0].key, gs[i].key);
      CiLessCongruent(h.name, gs[i].key, gs[0].key);
      assert GroupsSorted(gs[1..]) by {
        forall a, b | 0 <= a < b < |gs[1..]| ensures CiLess(gs[1..][a].key, gs[1..][b].key) {
          assert gs[1..][a] == gs[a + 1] && gs[1..][b] == gs[b + 1];
        }
      }
      AddExisting(gs[1..], h, i - 1);
    }
  }

  /** A header with a new name inserts a new key with its one value, in order. */
  lemma {:induction false} AddNew(gs: seq<Group>, h: Header)
    requires GroupsSorted(gs) && !HasKey(gs, h.name)
    ensures exists p :: 0 <= p <= |gs| && AddToGroups(gs, h) == gs[..p] + [Group(h.name, [h.value])] + gs[p..]
    decreases |gs|
  {
    var n := Group(h.name, [h.value]);
    if gs == [] {
      assert AddToGroups(gs, h) == gs[..0] + [n] + gs[0..];
    } else {
      assert !EqualsIgnoreCase(gs[0].key, h.name);
      if CiLess(h.name, gs[0].key) {
        assert AddToGroups(gs, h) == gs[..0] + [n] + gs[0..];
      } else {
        SortedTail(gs);
        assert !HasKey(gs[1..], h.name) by {
          forall k | 0 <= k < |gs[1..]| ensures !EqualsIgnoreCase(gs[1..][k].key, h.name) {
            assert gs[k + 1] == gs[1..][k];
          }
        }
        AddNew(gs[1..], h);
        var p :| 0 <= p <= |gs[1..]| && AddToGroups(gs[1..], h) == gs[1..][..p] + [n] + gs[1..][p..];
        assert AddToGroups(gs, h) == [gs[0]] + AddToGroups(gs[1..], h);
        ConsInsert(gs, n, p);
      }
    }
  }

  /** Inserting into the tail at p is inserting into the whole at p + 1. */
  lemma ConsInsert(gs: seq<Group>, n: Group, p: nat)
    requires gs != [] && p <= |gs| - 1
    ensures [gs[0]] + (gs[1..][..p] + [n] + gs[1..][p..]) == gs[..p + 1] + [n] + gs[p + 1..]
  {
    assert [gs[0]] + gs[1..][..p] == gs[..p + 1];
    assert gs[1..][p..] == gs[p + 1..];
  }

  lemma {:induction false} TotalValuesStep(gs: seq<Group>, h: Header)
    ensures TotalValues(AddToGroups(gs, h)) == TotalValues(gs) + 1
    decreases |gs|
  {
    if gs == [] {
    } else if EqualsIgnoreCase(h.name, gs[0].key) {
      assert AddToGroups(gs, h)[1..] == gs[1..];
    } else if CiLess(h.name, gs[0].key) {
      assert AddToGroups(gs, h)[1..] == gs;
    } else {
      TotalValuesStep(gs[1..], h);
      assert AddToGroups(gs, h)[1..] == AddToGroups(gs[1..], h);
    }
  }

  /** The key's first spelling, and its values in message order. */
  predicate KeyRecords(g: Group, hs: seq<Header>) {
    var named := AllNamed(hs, g.key);
    named != [] && named[0].name == g.key && g.values == Values(named)
  }

  /** A recorded key is spelled as getHeader(key) finds it. */
  lemma KeyRecordsFirstSpelling(g: Group, hs: seq<Header>)
    requires KeyRecords(g, hs)
    ensures FirstNamed(hs, g.key).Some? && FirstNamed(hs, g.key).value.name == g.key
  {
    FirstIsHeadOfAll(hs, g.key);
  }

  /**
   * What the grouping holds: keys sorted ignoring case; each key is the first
   * spelling seen of its name and holds that name's values in message order;
   * every header has its key; and no value is lost.
   */
  predicate GroupsOf(gs: seq<Group>, hs: seq<Header>) {
    GroupsSorted(gs) && AllRecorded(gs, hs) && AllCovered(gs, hs) && TotalValues(gs) == |hs|
  }

  predicate AllRecorded(gs: seq<Group>, hs: seq<Header>) {
    forall k :: 0 <= k < |gs| ==> KeyRecords(gs[k], hs)
  }

  predicate AllCovered(gs: seq<Group>, hs: seq<Header>) {
    forall j :: 0 <= j < |hs| ==> HasKey(gs, hs[j].name)
  }

  lemma {:induction false} GroupSpecIsGrouping(hs: seq<Header>)
    ensures GroupsOf(GroupSpec(hs), hs)
    decreases |hs|
  {
    if hs != [] {
      var init, h := hs[..|hs| - 1], hs[|hs| - 1];
      assert hs == init + [h];
      GroupSpecIsGrouping(init);
      GroupStep(GroupSpec(init), init, h);
    }
  }

  /** One loop step keeps the grouping faithful to the headers seen so far. */
  lemma GroupStep(gs: seq<Group>, hs: seq<Header>, h: Header)
    requires GroupsOf(gs, hs)
    ensures GroupsOf(AddToGroups(gs, h), hs + [h])
  {
    var i := KeyIndex(gs, h.name);
    if i >= 0 {
      GroupStepExisting(gs, hs, h, i);
    } else {
      GroupStepNew(gs, hs, h);
    }
  }

  /** A group whose key does not match the new header records the same after it. */
  lemma KeyRecordsUnmatched(g: Group, hs: seq<Header>, h: Header)
    requires KeyRecords(g, hs) && !EqualsIgnoreCase(h.name, g.key)
    ensures KeyRecords(g, hs + [h])
  {
    AllNamedSnoc(hs, h, g.key);
    assert AllNamed(hs + [h], g.key) == AllNamed(hs, g.key) + [];
    assert AllNamed(hs, g.key) + [] == AllNamed(hs, g.key);
  }

  /** The group a header joins records the header's value last. */
  lemma KeyRecordsMatched(g: Group, hs: seq<Header>, h: Header)
    requires KeyRecords(g, hs) && EqualsIgnoreCase(h.name, g.key)
    ensures KeyRecords(Group(g.key, g.values + [h.value]), hs + [h])
  {
    AllNamedSnoc(hs, h, g.key);
    ValuesSnoc(AllNamed(hs, g.key), h);
  }

  /** A header with an unseen name records itself as the first spelling and only value. */
  lemma KeyRecordsFresh(hs: seq<Header>, h: Header)
    requires NoneNamed(hs, h.name)
    ensures KeyRecords(Group(h.name, [h.value]), hs + [h])
  {
    FirstIsHeadOfAll(hs, h.name);
    AllNamedSnoc(hs, h, h.name);
    assert AllNamed(hs + [h], h.name) == [h];
  }

  /** Keys of a sorted grouping are pairwise distinct ignoring case. */
  lemma SortedKeysDistinct(gs: seq<Group>, i: nat, k: nat)
    requires GroupsSorted(gs) && i < |gs| && k < |gs| && i != k
    ensures !EqualsIgnoreCase(gs[i].key, gs[k].key)
  {
    if i < k {
      CiLessExcludesEqual(gs[i].key, gs[k].key);
    } else {
      CiLessExcludesEqual(gs[k].key, gs[i].key);
    }
  }

  lemma RecordsExisting(gs: seq<Group>, hs: seq<Header>, h: Header, i: nat)
    requires GroupsSorted(gs) && i < |gs| && EqualsIgnoreCase(gs[i].key, h.name)
    requires AllRecorded(gs, hs)
    ensures AllRecorded(AddToGroups(gs, h), hs + [h])
  {
    var r := AddToGroups(gs, h);
    AddExisting(gs, h, i);
    forall k | 0 <= k < |r| ensures KeyRecords(r[k], hs + [h]) {
      if k == i {
        KeyRecordsMatched(gs[i], hs, h);
      } else {
        SortedKeysDistinct(gs, i, k);
        KeyRecordsUnmatched(gs[k], hs, h);
      }
    }
  }

  lemma CoverageExisting(gs: seq<Group>, hs: seq<Header>, h: Header, i: nat)
    requires GroupsSorted(gs) && i < |gs| && EqualsIgnoreCase(gs[i].key, h.name)
    requires AllCovered(gs, hs)
    ensures AllCovered(AddToGroups(gs, h), hs + [h])
  {
    var r := AddToGroups(gs, h);
    AddExisting(gs, h, i);
    forall j | 0 <= j < |hs + [h]| ensures HasKey(r, (hs + [h])[j].name) {
      if j < |hs| {
        assert (hs + [h])[j] == hs[j];
        var k :| 0 <= k < |gs| && EqualsIgnoreCase(gs[k].key, hs[j].name);
        assert r[k].key == gs[k].key;
      } else {
        assert r[i].key == gs[i].key;
      }
    }
  }

  lemma StepPartsExisting(gs: seq<Group>, hs: seq<Header>, h: Header, i: nat)
    requires GroupsOf(gs, hs) && i < |gs| && EqualsIgnoreCase(gs[i].key, h.name)
    ensures GroupsSorted(AddToGroups(gs, h)) && TotalValues(AddToGroups(gs, h)) == |hs + [h]|
    ensures AllRecorded(AddToGroups(gs, h), hs + [h]) && AllCovered(AddToGroups(gs, h), hs + [h])
  {
    AddSorted(gs, h);
    TotalValuesStep(gs, h);
    RecordsExisting(gs, hs, h, i);
    CoverageExisting(gs, hs, h, i);
  }

  lemma GroupsOfParts(gs: seq<Group>, hs: seq<Header>)
    requires GroupsSorted(gs) && TotalValues(gs) == |hs| && AllRecorded(gs, hs) && AllCovered(gs, hs)
    ensures GroupsOf(gs, hs)
  {
  }

  lemma GroupStepExisting(gs: seq<Group>, hs: seq<Header>, h: Header, i: nat)
    requires GroupsOf(gs, hs) && i < |gs| && EqualsIgnoreCase(gs[i].key, h.name)
    ensures GroupsOf(AddToGroups(gs, h), hs + [h])
  {
    StepPartsExisting(gs, hs, h, i);
    GroupsOfParts(AddToGroups(gs, h), hs + [h]);
  }

  lemma RecordsNew(gs: seq<Group>, hs: seq<Header>, h: Header, p: nat)
    requires p <= |gs| && !HasKey(gs, h.name) && NoneNamed(hs, h.name)
    requires AllRecorded(gs, hs)
    ensures AllRecorded(gs[..p] + [Group(h.name, [h.value])] + gs[p..], hs + [h])
  {
    var r := gs[..p] + [Group(h.name, [h.value])] + gs[p..];
    forall k | 0 <= k < |r| ensures KeyRecords(r[k], hs + [h]) {
      if k == p {
        KeyRecordsFresh(hs, h);
      } else {
        var g := if k < p then gs[k] else gs[k - 1];
        assert r[k] == g;
        assert !EqualsIgnoreCase(g.key, h.name);
        KeyRecordsUnmatched(g, hs, h);
      }
    }
  }

  lemma CoverageNew(gs: seq<Group>, hs: seq<Header>, h: Header, p: nat)
    requires p <= |gs|
    requires AllCovered(gs, hs)
    ensures AllCovered(gs[..p] + [Group(h.name, [h.value])] + gs[p..], hs + [h])
  {
    var r := gs[..p] + [Group(h.name, [h.value])] + gs[p..];
    forall j | 0 <= j < |hs + [h]| ensures HasKey(r, (hs + [h])[j].name) {
      if j < |hs| {
        assert (hs + [h])[j] == hs[j];
        var k :| 0 <= k < |gs| && EqualsIgnoreCase(gs[k].key, hs[j].name);
        if k < p {
          assert r[k] == gs[k];
        } else {
          assert r[k + 1] == gs[k];
        }
      } else {
        assert r[p].key == h.name;
      }
    }
  }

  /** A name without a key was carried by no header. */
  lemma UnkeyedIsUnseen(gs: seq<Group>, hs: seq<Header>, name: string)
    requires AllCovered(gs, hs) && !HasKey(gs, name)
    ensures NoneNamed(hs, name)
  {
    forall j | 0 <= j < |hs| ensures !EqualsIgnoreCase(hs[j].name, name) {
      assert HasKey(gs, hs[j].name);
      var k :| 0 <= k < |gs| && EqualsIgnoreCase(gs[k].key, hs[j].name);
      assert !EqualsIgnoreCase(gs[k].key, name);
    }
  }

  lemma GroupStepNew(gs: seq<Group>, hs: seq<Header>, h: Header)
    requires GroupsOf(gs, hs) && !HasKey(gs, h.name)
    ensures GroupsOf(AddToGroups(gs, h), hs + [h])
  {
    var r := AddToGroups(gs, h);
    assert GroupsSorted(r) by { AddSorted(gs, h); }
    assert TotalValues(r) == |hs + [h]| by { TotalValuesStep(gs, h); }
    AddNew(gs, h);
    var p :| 0 <= p <= |gs| && r == gs[..p] + [Group(h.name, [h.value])] + gs[p..];
    assert AllRecorded(r, hs + [h]) by {
      UnkeyedIsUnseen(gs, hs, h.name);
      RecordsNew(gs, hs, h, p);
    }
    assert AllCovered(r, hs + [h]) by { CoverageNew(gs, hs, h, p); }
  }

  /** getHeaders(message) groups the message's headers as GroupsOf describes. */
  lemma GroupHeadersSpec(hs: seq<Header>)
    ensures GroupsOf(GroupSpec(hs), hs)
    ensures |GroupSpec(hs)| <= |hs|
  {
    GroupSpecIsGrouping(hs);
    var gs := GroupSpec(hs);
    forall k | 0 <= k < |gs| ensures |gs[k].values| > 0 {
      assert KeyRecords(gs[k], hs);
    }
    GroupCountBound(gs);
  }

  lemma {:induction false} GroupCountBound(gs: seq<Group>)
    requires forall k :: 0 <= k < |gs| ==> |gs[k].values| > 0
    ensures |gs| <= TotalValues(gs)
  {
    if gs != [] {
      assert forall k :: 0 <= k < |gs[1..]| ==> gs[1..][k] == gs[k + 1];
      GroupCountBound(gs[1..]);
    }
  }
}
