/**
 * MultipartBody.java: a multipart/form-data body (section 5.1.1 of
 * RFC 2046, section 4 of RFC 7578).  The builder holds a charset, a
 * boundary and a growing list of parts; the body wraps that same list.
 * writeTo emits, per part, the delimiter line, the header lines, a blank
 * line, the entity and a line break, then the close-delimiter line.
 *
 * The boundary and the header lines are encoded with the platform's default
 * charset, which is a parameter here; so are the draws of java.util.Random.
 */
module Multipart {
  import opened Wrappers
  import opened Ascii
  import opened Charsets
  import opened Headers
  import opened MimeTypes
  import MimeTypeLaws
  import opened Entities
  import opened Messages
  import opened Parts

  /** `--` and CR LF, the same bytes under every platform charset modelled. */
  const DASHES: seq<byte> := [45, 45]
  const CRLF: seq<byte> := [13, 10]

  /** The 64 characters a generated boundary is drawn from: `-_`, the digits 1 to 9 then 0, a to z, A to Z. */
  const MULTIPART_CHARS: string := PUNCTUATION + DIGITS + LOWER + UPPER

  // ---------------------------------------------------------------------
  // generateBoundary (MultipartBody.java:31-41)
  // ---------------------------------------------------------------------

  /** What Random.nextInt(11) and Random.nextInt(64) may return for one boundary. */
  predicate BoundaryDraws(sizeDraw: nat, draws: seq<nat>) {
    sizeDraw < 11 && |draws| == sizeDraw + 30 && forall i :: 0 <= i < |draws| ==> draws[i] < |MULTIPART_CHARS|
  }

  /** generateBoundary: 30 + sizeDraw characters, the i-th one picked by draws[i]. */
  method GenerateBoundary(sizeDraw: nat, draws: seq<nat>) returns (b: string)
    requires BoundaryDraws(sizeDraw, draws)
    ensures |b| == sizeDraw + 30 && 30 <= |b| <= 40
    ensures forall i :: 0 <= i < |b| ==> b[i] == MULTIPART_CHARS[draws[i]]
    ensures IsToken(b)
  {
    var count := sizeDraw + 30;
    b := "";
    var i := 0;
    while i < count
      invariant 0 <= i <= count
      invariant |b| == i
      invariant forall k :: 0 <= k < i ==> b[k] == MULTIPART_CHARS[draws[k]]
    {
      b := b + [MULTIPART_CHARS[draws[i]]];
      i := i + 1;
    }
    AlphabetIsTokenChars();
  }

  const PUNCTUATION: string := "-_"
  const DIGITS: string := "1234567890"
  const LOWER: string := "abcdefghijklmnopqrstuvwxyz"
  const UPPER: string := "ABCDEFGHIJKLMNOPQRSTUVWXYZ"

  lemma SegmentIsTokenChars(seg: string)
    requires seg == PUNCTUATION || seg == DIGITS || seg == LOWER || seg == UPPER
    ensures forall k :: 0 <= k < |seg| ==> IsTokenChar(seg[k])
  {
  }

  /** Every character of the alphabet is a token character, so a generated boundary is a token. */
  lemma AlphabetIsTokenChars()
    ensures forall k :: 0 <= k < |MULTIPART_CHARS| ==> IsTokenChar(MULTIPART_CHARS[k])
  {
    SegmentIsTokenChars(PUNCTUATION);
    SegmentIsTokenChars(DIGITS);
    SegmentIsTokenChars(LOWER);
    SegmentIsTokenChars(UPPER);
    var s := PUNCTUATION + DIGITS + LOWER + UPPER;
    forall k | 0 <= k < |s| ensures IsTokenChar(s[k]) {
      if k < 2 {
        assert s[k] == PUNCTUATION[k];
      } else if k < 12 {
        assert s[k] == DIGITS[k - 2];
      } else if k < 38 {
        assert s[k] == LOWER[k - 12];
      } else {
        assert s[k] == UPPER[k - 38];
      }
    }
  }

  // ---------------------------------------------------------------------
  // The bytes writeTo writes (MultipartBody.java:94-116)
  // ---------------------------------------------------------------------

  /** What writeTo reads of one part: its header list at that moment, and its entity's bytes. */
  datatype PartView = PartView(headers: seq<Header>, content: seq<byte>)

  /** writeTo casts each part's entity to PartEntity; a null or other entity throws. */
  predicate Writable(ps: seq<Part>) {
    forall i :: 0 <= i < |ps| ==> ps[i].message.entity.Some? && ps[i].message.entity.value.IsPartEntity()
  }

  function HeaderListsOf(ps: seq<Part>): set<HeaderList> {
    set i | 0 <= i < |ps| :: ps[i].message.headers
  }

  function View(p: Part): PartView
    requires p.message.entity.Some?
    reads p.message.headers
  {
    PartView(p.message.headers.items, Content(p.message.entity.value))
  }

  function Views(ps: seq<Part>): (r: seq<PartView>)
    requires Writable(ps)
    reads HeaderListsOf(ps)
    ensures |r| == |ps|
    ensures forall i :: 0 <= i < |ps| ==> r[i] == View(ps[i])
    decreases |ps|
  {
    if ps == [] then []
    else
      var n := |ps| - 1;
      assert HeaderListsOf(ps[..n]) <= HeaderListsOf(ps);
      Views(ps[..n]) + [View(ps[n])]
  }

  /** Each header line, encoded, followed by CRLF. */
  function HeaderBytes(platform: Charset, hs: seq<Header>): seq<byte>
    decreases |hs|
  {
    if hs == [] then []
    else HeaderBytes(platform, hs[..|hs| - 1]) + Encode(platform, Line(hs[|hs| - 1])) + CRLF
  }

  lemma HeaderBytesSnoc(platform: Charset, hs: seq<Header>, j: nat)
    requires j < |hs|
    ensures HeaderBytes(platform, hs[..j + 1]) == HeaderBytes(platform, hs[..j]) + Encode(platform, Line(hs[j])) + CRLF
  {
    assert hs[..j + 1][..j] == hs[..j];
  }

  /** One part: delimiter line, header lines, blank line, entity, line break. */
  function PartBytes(platform: Charset, b: seq<byte>, v: PartView): seq<byte> {
    DASHES + b + CRLF + HeaderBytes(platform, v.headers) + CRLF + v.content + CRLF
  }

  function PartsBytes(platform: Charset, b: seq<byte>, vs: seq<PartView>): seq<byte>
    decreases |vs|
  {
    if vs == [] then []
    else PartsBytes(platform, b, vs[..|vs| - 1]) + PartBytes(platform, b, vs[|vs| - 1])
  }

  lemma PartsBytesSnoc(platform: Charset, b: seq<byte>, vs: seq<PartView>, i: nat)
    requires i < |vs|
    ensures PartsBytes(platform, b, vs[..i + 1]) == PartsBytes(platform, b, vs[..i]) + PartBytes(platform, b, vs[i])
  {
    assert vs[..i + 1][..i] == vs[..i];
  }

  /** The whole body: the parts in list order, then the close-delimiter line. */
  function BodyBytes(platform: Charset, boundary: string, vs: seq<PartView>): seq<byte> {
    var b := Encode(platform, boundary);
    PartsBytes(platform, b, vs) + CloseDelimiter(b)
  }

  /** The close-delimiter line: `--boundary--` and CRLF. */
  function CloseDelimiter(b: seq<byte>): seq<byte> {
    DASHES + b + DASHES + CRLF
  }

  // ---------------------------------------------------------------------
  // getContentType (MultipartBody.java:75-84)
  // ---------------------------------------------------------------------

  const MULTIPART: string := "multipart"
  const FORM_DATA: string := "form-data"
  const BOUNDARY: string := "boundary"

  /** The text getContentType hands to MimeType.parse. */
  function ContentTypeText(boundary: string, charset: Option<Charset>): string {
    "multipart/form-data; boundary=" + boundary + CharsetTail(charset)
  }

  /** `; charset=<name>` when there is a charset, nothing otherwise. */
  function CharsetTail(charset: Option<Charset>): string {
    if charset.Some? then "; charset=" + Name(charset.value) else ""
  }

  /** The parameters that text holds, in sorted order. */
  function FormDataParams(boundary: string, charset: Option<Charset>): seq<Param> {
    if charset.Some? then [Param(BOUNDARY, boundary), Param(CHARSET, Name(charset.value))]
    else [Param(BOUNDARY, boundary)]
  }

  /** The media type that text describes. */
  function FormDataType(boundary: string, charset: Option<Charset>): MimeType {
    MimeType(MULTIPART, Some(FORM_DATA), FormDataParams(boundary, charset))
  }

  /**
   * With a token boundary, getContentType parses: to multipart/form-data
   * with the boundary, and the charset name when there is a charset.
   */
  lemma ContentTypeOfTokenBoundary(boundary: string, charset: Option<Charset>)
    requires IsToken(boundary)
    ensures ParseDetermined(ContentTypeText(boundary, charset))
    ensures ParseSpec(ContentTypeText(boundary, charset)) == Ok(Some(FormDataType(boundary, charset)))
  {
    var m := FormDataType(boundary, charset);
    FormDataRoundTrips(boundary, charset);
    FormDataRendering(boundary, charset);
  }

  /** The multipart/form-data type renders to text that parses back to it. */
  lemma FormDataRoundTrips(boundary: string, charset: Option<Charset>)
    requires IsToken(boundary)
    ensures var m := FormDataType(boundary, charset);
      ParseDetermined(Render(m)) && ParseSpec(Render(m)) == Ok(Some(m))
  {
    FormDataReady(boundary, charset);
    ReadyRoundTrip(FormDataType(boundary, charset));
  }

  /** What the media-type round trip asks of a type. */
  predicate RoundTripReady(m: MimeType) {
    && m.Valid() && m.subtype.Some?
    && IsLowerCase(m.mainType) && IsLowerCase(m.subtype.value)
    && forall i :: 0 <= i < |m.params| && IsCharsetName(m.params[i].name) ==> m.params[i].name == CHARSET
  }

  lemma ReadyRoundTrip(m: MimeType)
    requires RoundTripReady(m)
    ensures ParseDetermined(Render(m)) && ParseSpec(Render(m)) == Ok(Some(m))
  {
    MimeTypeLaws.RoundTrip(m);
  }

  lemma FormDataReady(boundary: string, charset: Option<Charset>)
    requires IsToken(boundary)
    ensures RoundTripReady(FormDataType(boundary, charset))
  {
    FormDataValid(boundary, charset);
    MultipartLowerToken();
    FormDataLowerToken();
    BoundaryIsNotCharsetKey();
    FormDataParamNames(boundary, charset);
    ReadyWhen(MULTIPART, FORM_DATA, FormDataParams(boundary, charset), BOUNDARY);
  }

  lemma FormDataParamNames(boundary: string, charset: Option<Charset>)
    ensures var ps := FormDataParams(boundary, charset);
      |ps| >= 1 && ps[0].name == BOUNDARY && forall i :: 1 <= i < |ps| ==> ps[i].name == CHARSET
  {
  }

  /** A valid lower-case type whose first parameter is not a charset and whose others are all `charset` is ready. */
  lemma ReadyWhen(main: string, sub: string, ps: seq<Param>, first: string)
    requires MimeType(main, Some(sub), ps).Valid() && IsLowerCase(main) && IsLowerCase(sub)
    requires |ps| >= 1 && ps[0].name == first && !IsCharsetName(first)
    requires forall i :: 1 <= i < |ps| ==> ps[i].name == CHARSET
    ensures RoundTripReady(MimeType(main, Some(sub), ps))
  {
  }

  /** The conditions of Valid on one parameter. */
  lemma OneParamValid(p: Param)
    requires IsToken(p.name) && IsToken(p.value)
    ensures WellFormed([p]) && Sorted([p]) && AtMostOneCharset([p])
  {
  }

  /** The conditions of Valid on two parameters. */
  lemma TwoParamsValid(p: Param, q: Param)
    requires IsToken(p.name) && IsToken(p.value) && IsToken(q.name) && IsToken(q.value)
    requires LexLess(p.name, q.name) && !IsCharsetName(p.name)
    ensures WellFormed([p, q]) && Sorted([p, q]) && AtMostOneCharset([p, q])
  {
  }

  lemma MultipartLowerToken()
    ensures IsToken(MULTIPART) && IsLowerCase(MULTIPART)
  {
    assert forall i :: 0 <= i < 9 ==> 'a' <= MULTIPART[i] <= 'z';
    MimeTypeLaws.LowerOfLowerCase(MULTIPART);
  }

  lemma FormDataLowerToken()
    ensures IsToken(FORM_DATA) && IsLowerCase(FORM_DATA)
  {
    assert IsTokenSpecial('-');
    assert forall i :: 0 <= i < 9 ==> FORM_DATA[i] == '-' || 'a' <= FORM_DATA[i] <= 'z';
    MimeTypeLaws.LowerOfLowerCase(FORM_DATA);
  }

  lemma BoundaryIsToken()
    ensures IsToken(BOUNDARY)
  {
  }

  lemma CharsetNameIsToken(cs: Charset)
    ensures IsToken(Name(cs))
  {
    assert IsTokenSpecial('-');
    match cs
    case UsAscii => assert forall i :: 0 <= i < 8 ==> IsTokenChar(US_ASCII[i]);
    case Iso8859_1 => assert forall i :: 0 <= i < 10 ==> IsTokenChar(ISO_8859_1[i]);
    case Utf8 => assert forall i :: 0 <= i < 5 ==> IsTokenChar(UTF_8[i]);
  }

  lemma BoundaryIsNotCharsetKey()
    ensures !IsCharsetName(BOUNDARY) && IsCharsetName(CHARSET)
    ensures CanonName(BOUNDARY) == BOUNDARY && CanonName(CHARSET) == CHARSET
  {
    assert |Lower(BOUNDARY)| == 8 != |CHARSET|;
    CharsetIsCharsetName();
  }

  lemma BoundarySortsFirst()
    ensures LexLess(BOUNDARY, CHARSET)
  {
    assert BOUNDARY[0] == 'b' < 'c' == CHARSET[0];
  }

  lemma FormDataValid(boundary: string, charset: Option<Charset>)
    requires IsToken(boundary)
    ensures FormDataType(boundary, charset).Valid()
  {
    MultipartLowerToken();
    FormDataLowerToken();
    BoundaryIsToken();
    BoundaryIsNotCharsetKey();
    if charset.Some? {
      CharsetNameIsToken(charset.value);
      MimeTypeLaws.CharsetIsToken();
      BoundarySortsFirst();
      TwoParamsValid(Param(BOUNDARY, boundary), Param(CHARSET, Name(charset.value)));
    } else {
      OneParamValid(Param(BOUNDARY, boundary));
    }
  }

  lemma Assoc<T>(a: seq<T>, b: seq<T>, c: seq<T>)
    ensures a + b + c == a + (b + c)
  {
  }

  /** toString of the multipart/form-data type is the text getContentType built. */
  lemma FormDataRendering(boundary: string, charset: Option<Charset>)
    ensures Render(FormDataType(boundary, charset)) == ContentTypeText(boundary, charset)
  {
    var head := MULTIPART + "/" + FORM_DATA;
    var key := "; " + BOUNDARY + "=";
    ParamsRendering(boundary, charset);
    Assoc(MULTIPART, "/", FORM_DATA);
    assert Render(FormDataType(boundary, charset)) == head + (key + boundary + CharsetTail(charset));
    PrefixSpelling();
    Assemble(head, key, boundary, CharsetTail(charset), "multipart/form-data; boundary=");
  }

  lemma Assemble(head: string, key: string, b: string, tail: string, prefix: string)
    requires prefix == head + key
    ensures head + (key + b + tail) == prefix + b + tail
  {
    Assoc(head, key + b, tail);
    Assoc(head, key, b);
  }

  lemma ParamsRendering(boundary: string, charset: Option<Charset>)
    ensures RenderParams(FormDataParams(boundary, charset)) == "; " + BOUNDARY + "=" + boundary + CharsetTail(charset)
  {
    BoundaryIsNotCharsetKey();
    if charset.Some? {
      TwoParamsRendering(BOUNDARY, boundary, CHARSET, Name(charset.value));
      CharsetSpelling();
    } else {
      OneParamRendering(BOUNDARY, boundary);
    }
  }

  lemma OneParamRendering(k: string, v: string)
    requires CanonName(k) == k
    ensures RenderParams([Param(k, v)]) == "; " + k + "=" + v
  {
    assert [Param(k, v)][1..] == [];
  }

  lemma TwoParamsRendering(k1: string, v1: string, k2: string, v2: string)
    requires CanonName(k1) == k1 && CanonName(k2) == k2
    ensures RenderParams([Param(k1, v1), Param(k2, v2)]) == "; " + k1 + "=" + v1 + ("; " + k2 + "=" + v2)
  {
    assert [Param(k1, v1), Param(k2, v2)][1..] == [Param(k2, v2)];
    OneParamRendering(k2, v2);
  }

  lemma PrefixSpelling()
    ensures "multipart/form-data; boundary=" == (MULTIPART + "/" + FORM_DATA) + ("; " + BOUNDARY + "=")
  {
  }

  lemma CharsetSpelling()
    ensures "; charset=" == "; " + CHARSET + "="
  {
  }

  // ---------------------------------------------------------------------
  // Builder and body (MultipartBody.java:49-53, 123-293)
  // ---------------------------------------------------------------------

  /** The body of writeTo's loop for one part. */
  method WritePart(out: ByteSink, platform: Charset, b: seq<byte>, hs: seq<Header>, e: Entity)
    modifies out
    ensures out.bytes == old(out.bytes) + PartBytes(platform, b, PartView(hs, Content(e)))
  {
    ghost var start := out.bytes;
    out.Write(DASHES);
    out.Write(b);
    Assoc(start, DASHES, b);
    out.Write(CRLF);
    Assoc(start, DASHES + b, CRLF);
    ghost var written := DASHES + b + CRLF;
    WriteHeaderLines(out, platform, hs);
    Assoc(start, written, HeaderBytes(platform, hs));
    written := written + HeaderBytes(platform, hs);
    out.Write(CRLF);
    Assoc(start, written, CRLF);
    written := written + CRLF;
    Entities.WriteTo(e, out);
    Assoc(start, written, Content(e));
    written := written + Content(e);
    out.Write(CRLF);
    Assoc(start, written, CRLF);
  }

  /** The tail of writeTo. */
  method WriteCloseDelimiter(out: ByteSink, b: seq<byte>)
    modifies out
    ensures out.bytes == old(out.bytes) + CloseDelimiter(b)
  {
    ghost var start := out.bytes;
    out.Write(DASHES);
    out.Write(b);
    Assoc(start, DASHES, b);
    out.Write(DASHES);
    Assoc(start, DASHES + b, DASHES);
    out.Write(CRLF);
    Assoc(start, DASHES + b + DASHES, CRLF);
  }


  /** Each header line of a part, encoded with the platform charset, then CRLF. */
  method WriteHeaderLines(out: ByteSink, platform: Charset, hs: seq<Header>)
    modifies out
    ensures out.bytes == old(out.bytes) + HeaderBytes(platform, hs)
  {
    var j := 0;
    while j < |hs|
      invariant 0 <= j <= |hs|
      invariant out.bytes == old(out.bytes) + HeaderBytes(platform, hs[..j])
    {
      HeaderBytesSnoc(platform, hs, j);
      ghost var written := HeaderBytes(platform, hs[..j]);
      var line := Encode(platform, Line(hs[j]));
      out.Write(line);
      Assoc(old(out.bytes), written, line);
      out.Write(CRLF);
      Assoc(old(out.bytes), written + line, CRLF);
      j := j + 1;
    }
    assert hs[..j] == hs;
  }

  /** The ArrayList<Part> a builder appends to and a body reads. */
  class PartList {
    var items: seq<Part>

    constructor ()
      ensures items == []
    {
      items := [];
    }

    constructor Of(ps: seq<Part>)
      ensures items == ps
    {
      items := ps;
    }

    method Add(p: Part)
      modifies this
      ensures items == old(items) + [p]
    {
      items := items + [p];
    }
  }

  /** A guess that never answers; every part body built here has a content type or no filename. */
  function NoGuess(filename: string): Option<MimeType> {
    None
  }

  class MultipartBuilder {
    var charset: Option<Charset>
    var boundary: string
    const parts: PartList

    /** Builder(): the platform's default charset and a freshly generated boundary. */
    constructor (platform: Charset, sizeDraw: nat, draws: seq<nat>)
      requires BoundaryDraws(sizeDraw, draws)
      ensures charset == Some(platform) && fresh(parts) && parts.items == []
      ensures |boundary| == |draws| && forall i :: 0 <= i < |boundary| ==> boundary[i] == MULTIPART_CHARS[draws[i]]
      ensures IsToken(boundary)
    {
      var generated := GenerateBoundary(sizeDraw, draws);
      charset := Some(platform);
      boundary := generated;
      parts := new PartList();
    }

    /** Builder(body): charset, boundary and a copy of the parts list. */
    constructor FromBody(body: MultipartBody)
      ensures charset == body.charset && boundary == body.boundary
      ensures fresh(parts) && parts.items == body.parts.items
    {
      charset := body.charset;
      boundary := body.boundary;
      parts := new PartList.Of(body.parts.items);
    }

    method SetCharset(cs: Option<Charset>)
      modifies this
      ensures charset == cs && boundary == old(boundary)
    {
      charset := cs;
    }

    method SetBoundary(b: string)
      modifies this
      ensures boundary == b && charset == old(charset)
    {
      boundary := b;
    }

    /** addPart(part): append at the end. */
    method AddPart(p: Part)
      modifies parts
      ensures parts.items == old(parts.items) + [p]
    {
      parts.Add(p);
    }

    /** addPart(name, entity): build a part named name over entity and append it. */
    method AddEntityPart(name: string, e: Entity)
      requires e.IsPartEntity()
      modifies parts
      ensures |parts.items| == |old(parts.items)| + 1 && parts.items[..|old(parts.items)|] == old(parts.items)
      ensures var p := parts.items[|parts.items| - 1];
        && fresh(p) && fresh(p.message.headers)
        && p.name == Some(name) && p.message.entity == Some(e)
        && p.message.headers.items == Synthesised(Some(name), e)
    {
      var pb := new PartBuilder();
      pb.SetName(Some(name));
      pb.base.SetEntity(Some(e));
      var p := pb.Build();
      parts.Add(p);
    }

    /** addPart(name, data): a ByteArrayPartBody over the whole array, application/octet-stream. */
    method AddBytesPart(name: string, data: seq<byte>)
      modifies parts
      ensures |parts.items| == |old(parts.items)| + 1 && parts.items[..|old(parts.items)|] == old(parts.items)
      ensures var p := parts.items[|parts.items| - 1];
        && fresh(p) && fresh(p.message.headers) && p.name == Some(name)
        && p.message.entity == Some(NewByteArrayPartBody(data, 0, |data|, Some(APPLICATION_OCTET_STREAM), None, NoGuess))
    {
      AddEntityPart(name, NewByteArrayPartBody(data, 0, |data|, Some(APPLICATION_OCTET_STREAM), None, NoGuess));
    }

    /** addPart(name, data, contentType): a null content type falls back to application/octet-stream. */
    method AddTypedBytesPart(name: string, data: seq<byte>, ct: Option<MimeType>)
      modifies parts
      ensures |parts.items| == |old(parts.items)| + 1 && parts.items[..|old(parts.items)|] == old(parts.items)
      ensures var p := parts.items[|parts.items| - 1];
        && fresh(p) && fresh(p.message.headers) && p.name == Some(name)
        && p.message.entity == Some(NewByteArrayPartBody(data, 0, |data|, ct, None, NoGuess))
    {
      AddEntityPart(name, NewByteArrayPartBody(data, 0, |data|, ct, None, NoGuess));
    }

    /** addPart(name, text): a text/plain StringPartBody, encoded as US-ASCII. */
    method AddTextPart(name: string, text: string)
      modifies parts
      ensures |parts.items| == |old(parts.items)| + 1 && parts.items[..|old(parts.items)|] == old(parts.items)
      ensures var p := parts.items[|parts.items| - 1];
        && fresh(p) && fresh(p.message.headers) && p.name == Some(name)
        && p.message.entity == Some(StringPartBody(TEXT_PLAIN, None, Encode(UsAscii, text)))
    {
      PlainTextBody(text, NoGuess);
      AddEntityPart(name, StringPartBody(TEXT_PLAIN, None, Encode(UsAscii, text)));
    }

    /**
     * addPart(name, text, contentType): a StringPartBody in the content
     * type's charset; an unsupported charset throws before anything is added.
     */
    method AddTypedTextPart(name: string, text: string, ct: MimeType) returns (r: Result<(), EntityError>)
      requires CharsetReadable(ct)
      modifies parts
      ensures r.Err? <==> NewStringPartBody(text, ct, None, NoGuess).Err?
      ensures r.Err? ==> parts.items == old(parts.items)
      ensures r.Ok? ==> |parts.items| == |old(parts.items)| + 1 && parts.items[..|old(parts.items)|] == old(parts.items)
      ensures r.Ok? ==> var p := parts.items[|parts.items| - 1];
        && fresh(p) && fresh(p.message.headers) && p.name == Some(name)
        && p.message.entity == Some(NewStringPartBody(text, ct, None, NoGuess).value)
    {
      var e := NewStringPartBody(text, ct, None, NoGuess);
      if e.Err? {
        return Err(e.error);
      }
      AddEntityPart(name, e.value);
      r := Ok(());
    }

    /** build: a body over this builder's own parts list, with its charset and boundary. */
    method Build() returns (body: MultipartBody)
      ensures fresh(body)
      ensures body.parts == parts && body.charset == charset && body.boundary == boundary
    {
      body := new MultipartBody(this);
    }
  }

  class MultipartBody {
    const charset: Option<Charset>
    const boundary: string
    const parts: PartList

    constructor (b: MultipartBuilder)
      ensures parts == b.parts && charset == b.charset && boundary == b.boundary
    {
      charset := b.charset;
      boundary := b.boundary;
      parts := b.parts;
    }

    /** writeTo: every part in list order, then the close delimiter. */
    method WriteTo(out: ByteSink, platform: Charset)
      requires Writable(parts.items)
      modifies out
      ensures out.bytes == old(out.bytes) + BodyBytes(platform, boundary, Views(parts.items))
    {
      var b := Encode(platform, boundary);
      var ps := parts.items;
      ghost var vs := Views(ps);
      ghost var start := out.bytes;
      var i := 0;
      while i < |ps|
        invariant 0 <= i <= |ps|
        invariant out.bytes == start + PartsBytes(platform, b, vs[..i])
      {
        ghost var written := PartsBytes(platform, b, vs[..i]);
        var part := ps[i];
        assert vs[i] == PartView(part.message.headers.items, Content(part.message.entity.value));
        WritePart(out, platform, b, part.message.headers.items, part.message.entity.value);
        Assoc(start, written, PartBytes(platform, b, vs[i]));
        PartsBytesSnoc(platform, b, vs, i);
        i := i + 1;
      }
      assert vs[..i] == vs;
      WriteCloseDelimiter(out, b);
      Assoc(start, PartsBytes(platform, b, vs), CloseDelimiter(b));
      assert Views(ps) == vs;
    }

    /** getContent: the bytes writeTo writes into a fresh buffer. */
    method GetContent(platform: Charset) returns (bytes: seq<byte>)
      requires Writable(parts.items)
      ensures bytes == BodyBytes(platform, boundary, Views(parts.items))
    {
      var out := new ByteSink();
      WriteTo(out, platform);
      bytes := out.bytes;
    }

    /** getContentType: parse the text built from the boundary and the charset name. */
    method GetContentType() returns (r: Result<Option<MimeType>, MimeError>)
      requires ParseDetermined(ContentTypeText(boundary, charset))
      ensures r == ParseSpec(ContentTypeText(boundary, charset))
    {
      r := MimeTypes.Parse(ContentTypeText(boundary, charset));
    }

    method NewBuilder() returns (b: MultipartBuilder)
      ensures fresh(b) && fresh(b.parts)
      ensures b.charset == charset && b.boundary == boundary && b.parts.items == parts.items
    {
      b := new MultipartBuilder.FromBody(this);
    }
  }

  // ---------------------------------------------------------------------
  // Properties
  // ---------------------------------------------------------------------

  /**
   * A body from a fresh builder advertises multipart/form-data with its own
   * generated boundary and the platform charset.
   */
  method DefaultContentType(platform: Charset, sizeDraw: nat, draws: seq<nat>) returns (boundary: string, r: Result<Option<MimeType>, MimeError>)
    requires BoundaryDraws(sizeDraw, draws)
    ensures 30 <= |boundary| <= 40
    ensures r == Ok(Some(MimeType(MULTIPART, Some(FORM_DATA), [Param(BOUNDARY, boundary), Param(CHARSET, Name(platform))])))
  {
    var builder := new MultipartBuilder(platform, sizeDraw, draws);
    var body := builder.Build();
    boundary := body.boundary;
    ContentTypeOfTokenBoundary(body.boundary, body.charset);
    r := body.GetContentType();
  }

  /** Parts added to the builder after build are written by the body, which wraps the same list. */
  method PartsAddedAfterBuild(platform: Charset, sizeDraw: nat, draws: seq<nat>, p: Part) returns (before: seq<Part>, after: seq<Part>)
    requires BoundaryDraws(sizeDraw, draws)
    ensures before == [] && after == [p]
  {
    var builder := new MultipartBuilder(platform, sizeDraw, draws);
    var body := builder.Build();
    before := body.parts.items;
    builder.AddPart(p);
    after := body.parts.items;
  }

  /** A builder made by newBuilder copies the list: adding to it leaves the original body alone. */
  method CopiedBuilderIsIndependent(body: MultipartBody, p: Part) returns (original: seq<Part>, copied: seq<Part>)
    ensures original == body.parts.items
    ensures copied == original + [p]
  {
    var builder := body.NewBuilder();
    builder.AddPart(p);
    var copy := builder.Build();
    original := body.parts.items;
    copied := copy.parts.items;
  }

  /** A token is ASCII text. */
  lemma TokenIsAscii(s: string)
    requires IsToken(s)
    ensures IsAscii(s)
  {
  }

  /** Every header line of every part is ASCII text. */
  predicate AsciiHeaders(vs: seq<PartView>) {
    forall i, j :: 0 <= i < |vs| && 0 <= j < |vs[i].headers| ==> IsAscii(Line(vs[i].headers[j]))
  }

  lemma {:induction false} HeaderBytesAscii(p1: Charset, p2: Charset, hs: seq<Header>)
    requires forall j :: 0 <= j < |hs| ==> IsAscii(Line(hs[j]))
    ensures HeaderBytes(p1, hs) == HeaderBytes(p2, hs)
    decreases |hs|
  {
    if hs != [] {
      var n := |hs| - 1;
      HeaderBytesAscii(p1, p2, hs[..n]);
      EncodeAscii(p1, Line(hs[n]));
      EncodeAscii(p2, Line(hs[n]));
    }
  }

  lemma {:induction false} PartsBytesAscii(p1: Charset, p2: Charset, b: seq<byte>, vs: seq<PartView>)
    requires AsciiHeaders(vs)
    ensures PartsBytes(p1, b, vs) == PartsBytes(p2, b, vs)
    decreases |vs|
  {
    if vs != [] {
      var n := |vs| - 1;
      assert AsciiHeaders(vs[..n]) by {
        forall i, j | 0 <= i < n && 0 <= j < |vs[..n][i].headers| ensures IsAscii(Line(vs[..n][i].headers[j])) {
          assert vs[..n][i] == vs[i];
        }
      }
      PartsBytesAscii(p1, p2, b, vs[..n]);
      HeaderBytesAscii(p1, p2, vs[n].headers);
    }
  }

  /**
   * With an ASCII boundary and ASCII header lines, the body's bytes do not
   * depend on the platform's default charset (a generated boundary is a
   * token, hence ASCII).
   */
  lemma BodyBytesPlatformIndependent(p1: Charset, p2: Charset, boundary: string, vs: seq<PartView>)
    requires IsAscii(boundary) && AsciiHeaders(vs)
    ensures BodyBytes(p1, boundary, vs) == BodyBytes(p2, boundary, vs)
  {
    EncodeAscii(p1, boundary);
    EncodeAscii(p2, boundary);
    PartsBytesAscii(p1, p2, AsciiBytes(boundary), vs);
  }

  /** The length of the header lines of a part: each encoded line plus two for CRLF. */
  function HeaderLinesLength(platform: Charset, hs: seq<Header>): nat
    decreases |hs|
  {
    if hs == [] then 0
    else HeaderLinesLength(platform, hs[..|hs| - 1]) + |Encode(platform, Line(hs[|hs| - 1]))| + 2
  }

  /** Over the parts: 4 + |b| for the delimiter line, the header lines, 2, the content, 2. */
  function PartsLength(platform: Charset, boundaryLength: nat, vs: seq<PartView>): nat
    decreases |vs|
  {
    if vs == [] then 0
    else
      var v := vs[|vs| - 1];
      PartsLength(platform, boundaryLength, vs[..|vs| - 1]) + (4 + boundaryLength) + HeaderLinesLength(platform, v.headers) + 2 + |v.content| + 2
  }

  lemma {:induction false} HeaderBytesLength(platform: Charset, hs: seq<Header>)
    ensures |HeaderBytes(platform, hs)| == HeaderLinesLength(platform, hs)
    decreases |hs|
  {
    if hs != [] {
      HeaderBytesLength(platform, hs[..|hs| - 1]);
    }
  }

  lemma {:induction false} PartsBytesLength(platform: Charset, b: seq<byte>, vs: seq<PartView>)
    ensures |PartsBytes(platform, b, vs)| == PartsLength(platform, |b|, vs)
    decreases |vs|
  {
    if vs != [] {
      PartsBytesLength(platform, b, vs[..|vs| - 1]);
      HeaderBytesLength(platform, vs[|vs| - 1].headers);
    }
  }

  /** The body is as long as its parts, plus 6 + |b| for the close-delimiter line; with no parts it is that line alone. */
  lemma BodyLength(platform: Charset, boundary: string, vs: seq<PartView>)
    ensures var b := Encode(platform, boundary);
      |BodyBytes(platform, boundary, vs)| == PartsLength(platform, |b|, vs) + 6 + |b|
    ensures BodyBytes(platform, boundary, []) == CloseDelimiter(Encode(platform, boundary))
  {
    PartsBytesLength(platform, Encode(platform, boundary), vs);
  }
}
