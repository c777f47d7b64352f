/**
 * HttpResponse.java: a message with a status line.  The builder's setters
 * overwrite; build copies protocol, status code and reason phrase;
 * newBuilder carries the headers and the entity over and resets the status
 * line (null protocol and reason, status 0).
 */
module Responses {
  import opened Wrappers
  import opened Headers
  import opened Entities
  import opened Messages

  /** A Java int. */
  type Int32 = x: int | -0x8000_0000 <= x < 0x8000_0000

  const HTTP_MULT_CHOICE: Int32 := 300
  const HTTP_MOVED_PERM: Int32 := 301
  const HTTP_MOVED_TEMP: Int32 := 302
  const HTTP_SEE_OTHER: Int32 := 303
  const HTTP_TEMP_REDIRECT: Int32 := 307
  const HTTP_PERM_REDIRECT: Int32 := 308

  /** isSuccessful: 200 <= status < 300. */
  predicate IsSuccessful(statusCode: Int32) {
    statusCode >= 200 && statusCode < 300
  }

  /** isRedirect: the six status codes of the switch. */
  predicate IsRedirect(statusCode: Int32) {
    statusCode in {HTTP_MULT_CHOICE, HTTP_MOVED_PERM, HTTP_MOVED_TEMP, HTTP_SEE_OTHER, HTTP_PERM_REDIRECT, HTTP_TEMP_REDIRECT}
  }

  /** The successful codes are exactly the 2xx class. */
  lemma SuccessfulIsClass2xx(statusCode: Int32)
    ensures IsSuccessful(statusCode) <==> statusCode / 100 == 2
  {
  }

  /** The redirects are 300 to 308 except 304 (not modified), 305 (use proxy) and 306 (unused). */
  lemma RedirectRange(statusCode: Int32)
    ensures IsRedirect(statusCode) <==> 300 <= statusCode <= 308 && statusCode != 304 && statusCode != 305 && statusCode != 306
  {
  }

  /** No status code is both successful and a redirect. */
  lemma NeverBoth(statusCode: Int32)
    ensures !(IsSuccessful(statusCode) && IsRedirect(statusCode))
  {
  }

  class ResponseBuilder {
    const base: MessageBuilder
    var protocol: Option<string>
    var statusCode: Int32
    var reasonPhrase: Option<string>

    constructor ()
      ensures fresh(base) && fresh(base.headers) && base.headers.items == [] && base.entity == None
      ensures protocol == None && statusCode == 0 && reasonPhrase == None
    {
      base := new MessageBuilder();
      protocol := None;
      statusCode := 0;
      reasonPhrase := None;
    }

    /** Builder(response): the message part copied, the status line left at its defaults. */
    constructor FromResponse(r: Response)
      ensures fresh(base) && fresh(base.headers)
      ensures base.headers.items == r.message.headers.items && base.entity == r.message.entity
      ensures protocol == None && statusCode == 0 && reasonPhrase == None
    {
      base := new MessageBuilder.FromMessage(r.message);
      protocol := None;
      statusCode := 0;
      reasonPhrase := None;
    }

    method SetProtocol(p: Option<string>)
      modifies this
      ensures protocol == p && statusCode == old(statusCode) && reasonPhrase == old(reasonPhrase)
    {
      protocol := p;
    }

    method SetStatusCode(c: Int32)
      modifies this
      ensures statusCode == c && protocol == old(protocol) && reasonPhrase == old(reasonPhrase)
    {
      statusCode := c;
    }

    method SetReasonPhrase(p: Option<string>)
      modifies this
      ensures reasonPhrase == p && protocol == old(protocol) && statusCode == old(statusCode)
    {
      reasonPhrase := p;
    }

    /** build: a response over this builder's own header list, with its entity and status line. */
    method Build() returns (r: Response)
      ensures fresh(r) && fresh(r.message)
      ensures r.message.headers == base.headers && r.message.entity == base.entity
      ensures r.protocol == protocol && r.statusCode == statusCode && r.reasonPhrase == reasonPhrase
    {
      r := new Response(this);
    }
  }

  class Response {
    const message: Message
    const protocol: Option<string>
    const statusCode: Int32
    const reasonPhrase: Option<string>

    constructor (b: ResponseBuilder)
      ensures fresh(message) && message.headers == b.base.headers && message.entity == b.base.entity
      ensures protocol == b.protocol && statusCode == b.statusCode && reasonPhrase == b.reasonPhrase
    {
      message := new Message(b.base);
      protocol := b.protocol;
      statusCode := b.statusCode;
      reasonPhrase := b.reasonPhrase;
    }

    method NewBuilder() returns (b: ResponseBuilder)
      ensures fresh(b) && fresh(b.base) && fresh(b.base.headers)
      ensures b.base.headers.items == message.headers.items && b.base.entity == message.entity
      ensures b.protocol == None && b.statusCode == 0 && b.reasonPhrase == None
    {
      b := new ResponseBuilder.FromResponse(this);
    }
  }

  /** newBuilder().build() keeps the headers and the entity but resets the status line. */
  method RebuildResetsStatus(r: Response) returns (headers: seq<Header>, entity: Option<Entity>, protocol: Option<string>, statusCode: Int32, reasonPhrase: Option<string>)
    ensures headers == r.message.headers.items && entity == r.message.entity
    ensures protocol == None && statusCode == 0 && reasonPhrase == None
    ensures !IsSuccessful(statusCode) && !IsRedirect(statusCode)
  {
    var b := r.NewBuilder();
    var copy := b.Build();
    headers := copy.message.headers.items;
    entity := copy.message.entity;
    protocol := copy.protocol;
    statusCode := copy.statusCode;
    reasonPhrase := copy.reasonPhrase;
  }
}
