/**
 * Part.java: one part of a multipart/form-data body.  Building a part
 * appends three synthesised headers (Content-Disposition, Content-Type,
 * Content-Transfer-Encoding) to the builder's own header list, then wraps
 * that list.
 */
module Parts {
  import opened Wrappers
  import opened Ascii
  import opened Headers
  import opened MimeTypes
  import opened Entities
  import opened Messages

  const CONTENT_DISPOSITION: string := "Content-Disposition"
  const CONTENT_TYPE: string := "Content-Type"
  const CONTENT_TRANSFER_ENCODING: string := "Content-Transfer-Encoding"

  /** StringBuilder.append(String): a null name is written as `null`. */
  function NameText(name: Option<string>): string {
    if name.Some? then name.value else "null"
  }

  /** getContentDisposition: `form-data; name="<name>"`, then `; filename="<f>"` for a part entity with a filename. */
  function ContentDisposition(name: Option<string>, e: Entity): string {
    "form-data; name=\"" + NameText(name) + "\""
      + (if e.IsPartEntity() && e.filename.Some? then "; filename=\"" + e.filename.value + "\"" else "")
  }

  /** getContentTransferEncoding: the part entity's own value, 7bit for any other entity. */
  function PartTransferEncoding(e: Entity): (r: string)
    ensures r == CTE_7BIT <==> !e.IsPartEntity()
    ensures e.IsPartEntity() ==> r == TransferEncoding(e)
  {
    if e.IsPartEntity() then TransferEncoding(e) else CTE_7BIT
  }

  /** The three headers build appends, in order. */
  function Synthesised(name: Option<string>, e: Entity): (r: seq<Header>)
    ensures |r| == 3
    ensures r[0].name == CONTENT_DISPOSITION && r[1].name == CONTENT_TYPE && r[2].name == CONTENT_TRANSFER_ENCODING
    ensures r[1].value == Render(e.contentType) && r[2].value == PartTransferEncoding(e)
  {
    [Header(CONTENT_DISPOSITION, ContentDisposition(name, e)),
     Header(CONTENT_TYPE, Render(e.contentType)),
     Header(CONTENT_TRANSFER_ENCODING, PartTransferEncoding(e))]
  }

  class PartBuilder {
    const base: MessageBuilder
    var name: Option<string>

    constructor ()
      ensures fresh(base) && fresh(base.headers) && base.headers.items == [] && base.entity == None
      ensures name == None
    {
      base := new MessageBuilder();
      name := None;
    }

    /** Builder(part): headers copied (the three synthesised ones included), entity shared, name kept. */
    constructor FromPart(p: Part)
      ensures fresh(base) && fresh(base.headers)
      ensures base.headers.items == p.message.headers.items && base.entity == p.message.entity
      ensures name == p.name
    {
      base := new MessageBuilder.FromMessage(p.message);
      name := p.name;
    }

    method SetName(n: Option<string>)
      modifies this
      ensures name == n
    {
      name := n;
    }

    /**
     * build: append the three synthesised headers to this builder's list
     * and wrap that list.  A null entity throws in the source.
     */
    method Build() returns (p: Part)
      requires base.entity.Some?
      modifies base.headers
      ensures base.headers.items == old(base.headers.items) + Synthesised(name, base.entity.value)
      ensures fresh(p) && fresh(p.message)
      ensures p.message.headers == base.headers && p.message.entity == base.entity && p.name == name
    {
      var e := base.entity.value;
      base.AddHeader(CONTENT_DISPOSITION, ContentDisposition(name, e));
      var contentType := ToString(e.contentType);
      base.AddHeader(CONTENT_TYPE, contentType);
      base.AddHeader(CONTENT_TRANSFER_ENCODING, PartTransferEncoding(e));
      p := new Part(this);
    }
  }

  class Part {
    const message: Message
    const name: Option<string>

    constructor (b: PartBuilder)
      ensures fresh(message) && message.headers == b.base.headers && message.entity == b.base.entity
      ensures name == b.name
    {
      message := new Message(b.base);
      name := b.name;
    }

    method NewBuilder() returns (b: PartBuilder)
      ensures fresh(b) && fresh(b.base) && fresh(b.base.headers)
      ensures b.base.headers.items == message.headers.items && b.base.entity == message.entity
      ensures b.name == name
    {
      b := new PartBuilder.FromPart(this);
    }
  }

  // ---------------------------------------------------------------------
  // Properties
  // ---------------------------------------------------------------------

  /**
   * Calling build twice on one builder appends the three headers twice,
   * and the first part sees both sets because it wraps the same list.
   */
  method BuildTwice(name: Option<string>, e: Entity) returns (first: seq<Header>, second: seq<Header>)
    ensures first == second == Synthesised(name, e) + Synthesised(name, e)
  {
    var b := new PartBuilder();
    b.SetName(name);
    b.base.SetEntity(Some(e));
    var p1 := b.Build();
    var p2 := b.Build();
    first := p1.message.headers.items;
    second := p2.message.headers.items;
  }

  /** Building a copy of a part adds a second set of synthesised headers after the first. */
  method RebuildRepeatsHeaders(p: Part) returns (original: seq<Header>, rebuilt: seq<Header>)
    requires p.message.entity.Some?
    ensures original == p.message.headers.items
    ensures rebuilt == original + Synthesised(p.name, p.message.entity.value)
  {
    var b := p.NewBuilder();
    var copy := b.Build();
    original := p.message.headers.items;
    rebuilt := copy.message.headers.items;
  }

  lemma TokenCharIsNotTrimmable(c: char)
    requires IsTokenChar(c)
    ensures !IsTrimmable(c)
  {
  }

  /** The canonical string of a valid media type has no leading or trailing blanks. */
  lemma RenderTrimmed(m: MimeType)
    requires m.Valid()
    ensures IsTrimmed(Render(m))
  {
    var head := m.mainType + (if m.subtype.Some? then "/" + m.subtype.value else "");
    assert Render(m) == head + RenderParams(m.params);
    TokenCharIsNotTrimmable(m.mainType[0]);
    assert Render(m)[0] == head[0] == m.mainType[0];
    if m.params == [] {
      HeadEndsInToken(m);
      assert Render(m) == head;
    } else {
      ParamsEndInValue(m.params);
      assert Render(m)[|Render(m)| - 1] == RenderParams(m.params)[|RenderParams(m.params)| - 1];
    }
  }

  /** `type` or `type/subtype` ends with a token character. */
  lemma HeadEndsInToken(m: MimeType)
    requires m.Valid()
    ensures var head := m.mainType + (if m.subtype.Some? then "/" + m.subtype.value else "");
      !IsTrimmable(head[|head| - 1])
  {
    if m.subtype.Some? {
      var sub := m.subtype.value;
      TokenCharIsNotTrimmable(sub[|sub| - 1]);
    } else {
      TokenCharIsNotTrimmable(m.mainType[|m.mainType| - 1]);
    }
  }

  /** The rendered parameters end with the last value's last character, a token character or a quote. */
  lemma ParamsEndInValue(ps: seq<Param>)
    requires ps != [] && WellFormed(ps)
    ensures RenderParams(ps) != [] && !IsTrimmable(RenderParams(ps)[|RenderParams(ps)| - 1])
  {
    var n := |ps| - 1;
    assert ps == ps[..n] + [ps[n]];
    RenderParamsSnoc(ps[..n], ps[n]);
    var v := ps[n].value;
    assert IsValue(v);
    var r := RenderParam(ps[n]);
    assert r[|r| - 1] == v[|v| - 1];
    if IsToken(v) {
      TokenCharIsNotTrimmable(v[|v| - 1]);
    }
  }

  /** The three synthesised header lines, as written into a multipart body, read back with HttpHeaders.parse to the same headers. */
  lemma SynthesisedLinesParse(name: Option<string>, e: Entity)
    requires e.contentType.Valid()
    ensures var hs := Synthesised(name, e);
      && Headers.Parse(Line(hs[0])) == Ok(hs[0])
      && Headers.Parse(Line(hs[1])) == Ok(hs[1])
      && Headers.Parse(Line(hs[2])) == Ok(hs[2])
  {
    var hs := Synthesised(name, e);
    assert hs[0] == Header(CONTENT_DISPOSITION, ContentDisposition(name, e));
    assert hs[1] == Header(CONTENT_TYPE, Render(e.contentType));
    assert hs[2] == Header(CONTENT_TRANSFER_ENCODING, PartTransferEncoding(e));
    DispositionLineParses(name, e);
    ContentTypeLineParses(e);
    EncodingLineParses(e);
  }

  lemma DispositionLineParses(name: Option<string>, e: Entity)
    ensures var h := Header(CONTENT_DISPOSITION, ContentDisposition(name, e)); Headers.Parse(Line(h)) == Ok(h)
  {
    var h := Header(CONTENT_DISPOSITION, ContentDisposition(name, e));
    assert forall i :: 0 <= i < |CONTENT_DISPOSITION| ==> CONTENT_DISPOSITION[i] != ':';
    assert h.value[0] == 'f' && h.value[|h.value| - 1] == '"';
    ParseLine(h);
  }

  lemma ContentTypeLineParses(e: Entity)
    requires e.contentType.Valid()
    ensures var h := Header(CONTENT_TYPE, Render(e.contentType)); Headers.Parse(Line(h)) == Ok(h)
  {
    var h := Header(CONTENT_TYPE, Render(e.contentType));
    assert forall i :: 0 <= i < |CONTENT_TYPE| ==> CONTENT_TYPE[i] != ':';
    RenderTrimmed(e.contentType);
    ParseLine(h);
  }

  lemma EncodingLineParses(e: Entity)
    ensures var h := Header(CONTENT_TRANSFER_ENCODING, PartTransferEncoding(e)); Headers.Parse(Line(h)) == Ok(h)
  {
    var h := Header(CONTENT_TRANSFER_ENCODING, PartTransferEncoding(e));
    assert forall i :: 0 <= i < |CONTENT_TRANSFER_ENCODING| ==> CONTENT_TRANSFER_ENCODING[i] != ':';
    assert h.value in {CTE_7BIT, CTE_8BIT, CTE_BINARY};
    ParseLine(h);
  }
}
