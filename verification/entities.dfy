/**
 * Entities: the bodies a message or a multipart part carries.  PartBody and
 * its two in-memory subclasses (ByteArrayPartBody, StringPartBody) are
 * values fixed at construction; any other HttpEntity is seen through its
 * content type and the bytes it writes.  ByteSink is the OutputStream they
 * are written to.
 */
module Entities {
  import opened Wrappers
  import opened Ascii
  import opened Charsets
  import opened MimeTypes
  import MimeTypeLaws

  // Constants.java
  const APPLICATION_OCTET_STREAM: MimeType := MimeType("application", Some("octet-stream"), [])
  const TEXT_PLAIN: MimeType := MimeType("text", Some("plain"), [])
  const CTE_7BIT: string := "7bit"
  const CTE_8BIT: string := "8bit"
  const CTE_BINARY: string := "binary"

  /** A byte array with the offset and length a ByteArrayPartBody reads it through. */
  datatype Slice = Slice(data: seq<byte>, offset: nat, length: nat)

  /** The bounds the constructor assumes and never checks. */
  type ByteSlice = s: Slice | s.offset + s.length <= |s.data| witness Slice([], 0, 0)

  datatype Entity =
    | ByteArrayPartBody(contentType: MimeType, filename: Option<string>, slice: ByteSlice)
    | StringPartBody(contentType: MimeType, filename: Option<string>, text: seq<byte>)
      /** An HttpEntity that is not a PartEntity, e.g. a form or multipart body used as an entity. */
    | OtherEntity(contentType: MimeType, bytes: seq<byte>)
  {
    /** `instanceof PartEntity`. */
    predicate IsPartEntity() {
      !OtherEntity?
    }
  }

  /** The bytes getContent streams and writeTo writes. */
  function Content(e: Entity): (r: seq<byte>)
    ensures e.ByteArrayPartBody? ==> |r| == e.slice.length
  {
    match e
    case ByteArrayPartBody(_, _, s) => s.data[s.offset..s.offset + s.length]
    case StringPartBody(_, _, text) => text
    case OtherEntity(_, bytes) => bytes
  }

  /** getContentLength of the two in-memory part bodies. */
  function ContentLength(e: Entity): (r: int)
    requires e.IsPartEntity()
    ensures r == |Content(e)|
  {
    match e
    case ByteArrayPartBody(_, _, s) => s.length
    case StringPartBody(_, _, text) => |text|
  }

  /** getContentTransferEncoding of the two in-memory part bodies. */
  function TransferEncoding(e: Entity): (r: string)
    requires e.IsPartEntity()
    ensures r == CTE_BINARY <==> e.ByteArrayPartBody?
    ensures r == CTE_8BIT <==> e.StringPartBody?
  {
    match e
    case ByteArrayPartBody(_, _, _) => CTE_BINARY
    case StringPartBody(_, _, _) => CTE_8BIT
  }

  /** A content type whose charset lookup does not depend on tree shape. */
  predicate CharsetReadable(m: MimeType) {
    m.Valid() && LookupDetermined(m.params, CHARSET)
  }

  /** PartBody.getCharset, by name: the content type's charset parameter, else ISO-8859-1. */
  function PartCharset(e: Entity): (r: string)
    requires e.IsPartEntity() && CharsetReadable(e.contentType)
    ensures (forall i :: 0 <= i < |e.contentType.params| ==> !IsCharsetName(e.contentType.params[i].name)) ==> r == ISO_8859_1
    ensures forall i :: 0 <= i < |e.contentType.params| && IsCharsetName(e.contentType.params[i].name) ==>
      r == Unquote(e.contentType.params[i].value)
  {
    GetCharsetOr(e.contentType, ISO_8859_1)
  }

  // ---------------------------------------------------------------------
  // Construction (PartBody.java:16-19, ByteArrayPartBody.java:18-43,
  // StringPartBody.java:15-27)
  // ---------------------------------------------------------------------

  /**
   * The content type PartBody's constructor keeps: the given one, else
   * guess(filename, application/octet-stream), else application/octet-stream.
   * `guess` stands for the platform's file-name lookup.
   */
  function ChooseContentType(ct: Option<MimeType>, filename: Option<string>, guess: string -> Option<MimeType>): (r: MimeType)
    ensures ct.Some? ==> r == ct.value
    ensures ct.None? && filename.Some? && guess(filename.value).Some? ==> r == guess(filename.value).value
    ensures ct.None? && (filename.None? || guess(filename.value).None?) ==> r == APPLICATION_OCTET_STREAM
  {
    if ct.Some? then ct.value
    else if filename.Some? then guess(filename.value).GetOr(APPLICATION_OCTET_STREAM)
    else APPLICATION_OCTET_STREAM
  }

  /** The six ByteArrayPartBody constructors, all funnelled into the five-argument one. */
  function NewByteArrayPartBody(
    data: seq<byte>, offset: nat, length: nat, ct: Option<MimeType>, filename: Option<string>,
    guess: string -> Option<MimeType>): (e: Entity)
    requires offset + length <= |data|
    ensures e.IsPartEntity() && e.filename == filename
    ensures e.contentType == ChooseContentType(ct, filename, guess)
    ensures Content(e) == data[offset..offset + length] && ContentLength(e) == length
    ensures TransferEncoding(e) == CTE_BINARY
  {
    ByteArrayPartBody(ChooseContentType(ct, filename, guess), filename, Slice(data, offset, length))
  }

  /** ByteArrayPartBody(data): offset 0, the whole array, application/octet-stream, no filename. */
  lemma WholeArrayBody(data: seq<byte>, guess: string -> Option<MimeType>)
    ensures var e := NewByteArrayPartBody(data, 0, |data|, Some(APPLICATION_OCTET_STREAM), None, guess);
      Content(e) == data && ContentLength(e) == |data| && e.contentType == APPLICATION_OCTET_STREAM && e.filename == None
  {
    assert data[0..|data|] == data;
  }

  datatype EntityError = UnsupportedCharset(name: string)

  /**
   * StringPartBody(text, contentType, filename): the text is encoded once,
   * with the charset named by the given content type (US-ASCII when it has
   * none); Charset.forName rejects a name it does not support.
   */
  function NewStringPartBody(text: string, ct: MimeType, filename: Option<string>, guess: string -> Option<MimeType>)
    : (r: Result<Entity, EntityError>)
    requires CharsetReadable(ct)
    ensures r.Err? <==> ForName(GetCharsetOr(ct, US_ASCII)).None?
    ensures r.Err? ==> r.error == UnsupportedCharset(GetCharsetOr(ct, US_ASCII))
    ensures r.Ok? ==> r.value.IsPartEntity() && r.value.contentType == ct && r.value.filename == filename
    ensures r.Ok? ==> Content(r.value) == Encode(ForName(GetCharsetOr(ct, US_ASCII)).value, text)
    ensures r.Ok? ==> ContentLength(r.value) == |Content(r.value)| && TransferEncoding(r.value) == CTE_8BIT
  {
    var name := GetCharsetOr(ct, US_ASCII);
    match ForName(name)
    case None => Err(UnsupportedCharset(name))
    case Some(cs) => Ok(StringPartBody(ChooseContentType(Some(ct), filename, guess), filename, Encode(cs, text)))
  }

  lemma TextPlainReadable()
    ensures CharsetReadable(TEXT_PLAIN)
  {
    assert IsToken("text") by { assert forall i :: 0 <= i < 4 ==> IsTokenChar("text"[i]); }
    assert IsToken("plain") by { assert forall i :: 0 <= i < 5 ==> IsTokenChar("plain"[i]); }
  }

  lemma OctetStreamReadable()
    ensures CharsetReadable(APPLICATION_OCTET_STREAM)
  {
    assert IsToken("application") by { assert forall i :: 0 <= i < 11 ==> IsTokenChar("application"[i]); }
    assert IsToken("octet-stream") by {
      assert IsTokenSpecial('-');
      assert forall i :: 0 <= i < 12 ==> IsTokenChar("octet-stream"[i]);
    }
  }

  lemma OctetStreamLowerCase()
    ensures IsLowerCase(APPLICATION_OCTET_STREAM.mainType) && IsLowerCase(APPLICATION_OCTET_STREAM.subtype.value)
  {
    ApplicationLowerCase();
    OctetStreamSubtypeLowerCase();
  }

  lemma ApplicationLowerCase()
    ensures IsLowerCase("application")
  {
    assert forall i :: 0 <= i < 11 ==> !('A' <= "application"[i] <= 'Z');
    MimeTypeLaws.LowerOfLowerCase("application");
  }

  lemma OctetStreamSubtypeLowerCase()
    ensures IsLowerCase("octet-stream")
  {
    assert "octet-stream" == "octet" + "-stream";
    assert forall i :: 0 <= i < 5 ==> !('A' <= "octet"[i] <= 'Z');
    MimeTypeLaws.LowerOfLowerCase("octet");
    assert forall i :: 0 <= i < 7 ==> !('A' <= "-stream"[i] <= 'Z');
    MimeTypeLaws.LowerOfLowerCase("-stream");
    LowerAppend("octet", "-stream");
  }

  /** A valid, lower-case, parameterless type and subtype render to text that parses back to them. */
  lemma BareRoundTrip(m: MimeType)
    requires m.Valid() && m.subtype.Some? && m.params == []
    requires IsLowerCase(m.mainType) && IsLowerCase(m.subtype.value)
    ensures ParseDetermined(Render(m)) && ParseSpec(Render(m)) == Ok(Some(m))
  {
    MimeTypeLaws.RoundTrip(m);
  }

  /** StringPartBody(text): text/plain, no filename, encoded as US-ASCII, which cannot fail. */
  lemma PlainTextBody(text: string, guess: string -> Option<MimeType>)
    ensures CharsetReadable(TEXT_PLAIN)
    ensures NewStringPartBody(text, TEXT_PLAIN, None, guess) == Ok(StringPartBody(TEXT_PLAIN, None, Encode(UsAscii, text)))
  {
    TextPlainReadable();
    assert GetCharsetOr(TEXT_PLAIN, US_ASCII) == US_ASCII;
    assert ForName(US_ASCII) == Some(UsAscii);
  }

  /** ASCII text gets one byte per character whichever supported charset the content type names. */
  lemma AsciiTextBody(text: string, ct: MimeType, filename: Option<string>, guess: string -> Option<MimeType>)
    requires CharsetReadable(ct) && IsAscii(text)
    requires NewStringPartBody(text, ct, filename, guess).Ok?
    ensures Content(NewStringPartBody(text, ct, filename, guess).value) == AsciiBytes(text)
    ensures ContentLength(NewStringPartBody(text, ct, filename, guess).value) == |text|
  {
    EncodeAscii(ForName(GetCharsetOr(ct, US_ASCII)).value, text);
  }

  /** The two content-type constants are what parsing their text gives. */
  lemma ConstantsParse()
    ensures ParseDetermined("application/octet-stream")
    ensures ParseSpec("application/octet-stream") == Ok(Some(APPLICATION_OCTET_STREAM))
    ensures ParseDetermined("text/plain") && ParseSpec("text/plain") == Ok(Some(TEXT_PLAIN))
  {
    OctetStreamParses();
    TextPlainParses();
  }

  lemma OctetStreamParses()
    ensures ParseDetermined("application/octet-stream") && ParseSpec("application/octet-stream") == Ok(Some(APPLICATION_OCTET_STREAM))
  {
    OctetStreamRendering();
    OctetStreamRoundTrip();
  }

  lemma OctetStreamRendering()
    ensures "application/octet-stream" == Render(APPLICATION_OCTET_STREAM)
  {
  }

  lemma OctetStreamRoundTrip()
    ensures ParseDetermined(Render(APPLICATION_OCTET_STREAM)) && ParseSpec(Render(APPLICATION_OCTET_STREAM)) == Ok(Some(APPLICATION_OCTET_STREAM))
  {
    OctetStreamReadable();
    OctetStreamLowerCase();
    BareRoundTrip(APPLICATION_OCTET_STREAM);
  }

  lemma TextPlainParses()
    ensures ParseDetermined("text/plain") && ParseSpec("text/plain") == Ok(Some(TEXT_PLAIN))
  {
    TextPlainRendering();
    TextPlainRoundTrip();
  }

  lemma TextPlainRendering()
    ensures "text/plain" == Render(TEXT_PLAIN)
  {
  }

  lemma TextPlainRoundTrip()
    ensures ParseDetermined(Render(TEXT_PLAIN)) && ParseSpec(Render(TEXT_PLAIN)) == Ok(Some(TEXT_PLAIN))
  {
    TextPlainReadable();
    MimeTypeLaws.LowerText();
    MimeTypeLaws.LowerPlain();
    BareRoundTrip(TEXT_PLAIN);
  }

  // ---------------------------------------------------------------------
  // Output (ByteArrayPartBody.java:50-53, StringPartBody.java:44-47)
  // ---------------------------------------------------------------------

  /** An OutputStream that keeps everything written to it. */
  class ByteSink {
    var bytes: seq<byte>

    constructor ()
      ensures bytes == []
    {
      bytes := [];
    }

    method Write(bs: seq<byte>)
      modifies this
      ensures bytes == old(bytes) + bs
    {
      bytes := bytes + bs;
    }
  }

  /** writeTo: ByteArrayPartBody writes its slice, StringPartBody its encoded text. */
  method WriteTo(e: Entity, out: ByteSink)
    modifies out
    ensures out.bytes == old(out.bytes) + Content(e)
  {
    match e
    case ByteArrayPartBody(_, _, s) =>
      out.Write(s.data[s.offset..s.offset + s.length]);
    case StringPartBody(_, _, text) =>
      out.Write(text);
    case OtherEntity(_, bytes) =>
      out.Write(bytes);
  }
}
