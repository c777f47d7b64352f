/**
 * HttpRequest.java: a message with a method and a URL.  The builder's
 * setters overwrite; build copies the last values set; newBuilder carries
 * the headers and the entity over but not the method or the URL.
 */
module Requests {
  import opened Wrappers
  import opened Ascii
  import opened Headers
  import opened Entities
  import opened HttpMethods
  import opened Messages

  /**
   * isSecure on a non-null URL: the text before the first colon, when that
   * colon is not the first character, equals "https" ignoring case.
   */
  predicate IsSecureUrl(url: string) {
    var colon := IndexOf(url, ':');
    if colon > 0 && colon < |url| then EqualsIgnoreCase("https", url[..colon]) else false
  }

  /** A string equal to "https" ignoring case has five characters and no colon. */
  lemma HttpsShape(x: string)
    requires EqualsIgnoreCase("https", x)
    ensures |x| == 5 && forall i :: 0 <= i < 5 ==> x[i] != ':'
  {
    assert |Lower(x)| == |Lower("https")| == 5;
    forall i | 0 <= i < 5 ensures x[i] != ':' {
      assert Lower(x)[i] == Lower("https")[i] == ToLower("https"[i]);
      assert "https"[i] != ':' && !('A' <= "https"[i] <= 'Z');
    }
  }

  /** isSecure holds exactly for URLs whose first five characters spell "https" in any case, followed by a colon. */
  lemma SecureUrl(url: string)
    ensures IsSecureUrl(url) <==> |url| > 5 && url[5] == ':' && EqualsIgnoreCase(url[..5], "https")
  {
    var colon := IndexOf(url, ':');
    if IsSecureUrl(url) {
      HttpsShape(url[..colon]);
    }
    if |url| > 5 && url[5] == ':' && EqualsIgnoreCase(url[..5], "https") {
      HttpsShape(url[..5]);
      assert forall i :: 0 <= i < 5 ==> url[i] == url[..5][i];
      assert colon == 5;
    }
  }

  /** A URL with no colon, or whose first character is the colon, is not secure. */
  lemma InsecureWithoutScheme(url: string)
    requires (forall i :: 0 <= i < |url| ==> url[i] != ':') || (|url| > 0 && url[0] == ':')
    ensures !IsSecureUrl(url)
  {
  }

  class RequestBuilder {
    const base: MessageBuilder
    var url: Option<string>
    var httpMethod: Option<HttpMethod>

    constructor ()
      ensures fresh(base) && fresh(base.headers) && base.headers.items == [] && base.entity == None
      ensures url == None && httpMethod == None
    {
      base := new MessageBuilder();
      url := None;
      httpMethod := None;
    }

    /** Builder(request): the message part copied, method and URL left null. */
    constructor FromRequest(r: Request)
      ensures fresh(base) && fresh(base.headers)
      ensures base.headers.items == r.message.headers.items && base.entity == r.message.entity
      ensures url == None && httpMethod == None
    {
      base := new MessageBuilder.FromMessage(r.message);
      url := None;
      httpMethod := None;
    }

    method SetMethod(m: Option<HttpMethod>)
      modifies this
      ensures httpMethod == m && url == old(url)
    {
      httpMethod := m;
    }

    method SetUrl(u: Option<string>)
      modifies this
      ensures url == u && httpMethod == old(httpMethod)
    {
      url := u;
    }

    /** build: a request over this builder's own header list, with its entity, URL and method. */
    method Build() returns (r: Request)
      ensures fresh(r) && fresh(r.message)
      ensures r.message.headers == base.headers && r.message.entity == base.entity
      ensures r.url == url && r.httpMethod == httpMethod
    {
      r := new Request(this);
    }
  }

  class Request {
    const message: Message
    const httpMethod: Option<HttpMethod>
    const url: Option<string>

    constructor (b: RequestBuilder)
      ensures fresh(message) && message.headers == b.base.headers && message.entity == b.base.entity
      ensures url == b.url && httpMethod == b.httpMethod
    {
      message := new Message(b.base);
      url := b.url;
      httpMethod := b.httpMethod;
    }

    /** isSecure; a null URL throws in the source. */
    predicate IsSecure()
      requires url.Some?
    {
      IsSecureUrl(url.value)
    }

    method NewBuilder() returns (b: RequestBuilder)
      ensures fresh(b) && fresh(b.base) && fresh(b.base.headers)
      ensures b.base.headers.items == message.headers.items && b.base.entity == message.entity
      ensures b.url == None && b.httpMethod == None
    {
      b := new RequestBuilder.FromRequest(this);
    }
  }

  /** newBuilder().build() keeps the headers and the entity but loses the method and the URL. */
  method RebuildLosesTarget(r: Request) returns (headers: seq<Header>, entity: Option<Entity>, url: Option<string>, httpMethod: Option<HttpMethod>)
    ensures headers == r.message.headers.items && entity == r.message.entity
    ensures url == None && httpMethod == None
  {
    var b := r.NewBuilder();
    var copy := b.Build();
    headers := copy.message.headers.items;
    entity := copy.message.entity;
    url := copy.url;
    httpMethod := copy.httpMethod;
  }
}
