/**
 * HttpMessage.java: a message is a header list and an optional entity.
 * The builder owns a growing header list; the message built from it wraps
 * that same list without copying it, and a builder seeded from a message
 * copies the list but shares the entity.
 *
 * Java's subclassing (HttpRequest, HttpResponse, Part extend HttpMessage)
 * is modelled by composition: those classes hold a Message, and their
 * builders hold a MessageBuilder.
 */
module Messages {
  import opened Wrappers
  import opened Ascii
  import opened Headers
  import opened Entities

  /** The ArrayList<HttpHeader> a builder appends to and a message reads. */
  class HeaderList {
    var items: seq<Header>

    constructor ()
      ensures items == []
    {
      items := [];
    }

    /** `new ArrayList<>()` followed by `addAll(hs)`. */
    constructor Of(hs: seq<Header>)
      ensures items == hs
    {
      items := hs;
    }

    /** List.addAll: append at the end, duplicates allowed. */
    method AddAll(hs: seq<Header>)
      modifies this
      ensures items == old(items) + hs
    {
      items := items + hs;
    }
  }

  /** HttpMessage.Builder: the header list and the entity reference. */
  class MessageBuilder {
    const headers: HeaderList
    var entity: Option<Entity>

    constructor ()
      ensures fresh(headers) && headers.items == [] && entity == None
    {
      headers := new HeaderList();
      entity := None;
    }

    /** Builder(message): a fresh copy of the message's headers, and the same entity. */
    constructor FromMessage(m: Message)
      ensures fresh(headers) && headers.items == m.headers.items && entity == m.entity
    {
      headers := new HeaderList.Of(m.headers.items);
      entity := m.entity;
    }

    /** addHeaders: the given headers go after the existing ones, which stay as they were. */
    method AddHeaders(hs: seq<Header>)
      modifies headers
      ensures headers.items == old(headers.items) + hs
    {
      headers.AddAll(hs);
    }

    /** addHeader(name, value): addHeaders with one SimpleHttpHeader. */
    method AddHeader(name: string, value: string)
      modifies headers
      ensures headers.items == old(headers.items) + [Header(name, value)]
    {
      AddHeaders([Header(name, value)]);
    }

    /** setEntity: replace the one entity reference; the headers are untouched. */
    method SetEntity(e: Option<Entity>)
      modifies this
      ensures entity == e
    {
      entity := e;
    }
  }

  /** HttpMessage: the builder's own header list (wrapped, not copied) and its entity. */
  class Message {
    const headers: HeaderList
    const entity: Option<Entity>

    constructor (b: MessageBuilder)
      ensures headers == b.headers && entity == b.entity
    {
      headers := b.headers;
      entity := b.entity;
    }

    /** getHeaders(name): every header whose name equals name ignoring case, in stored order. */
    method GetHeaders(name: string) returns (r: seq<Header>)
      ensures r == AllNamed(headers.items, name)
    {
      var hs := headers.items;
      r := [];
      var i := 0;
      while i < |hs|
        invariant 0 <= i <= |hs|
        invariant r == AllNamed(hs[..i], name)
      {
        AllNamedSnoc(hs[..i], hs[i], name);
        assert hs[..i + 1] == hs[..i] + [hs[i]];
        if EqualsIgnoreCase(hs[i].name, name) {
          r := r + [hs[i]];
        }
        i := i + 1;
      }
      assert hs[..|hs|] == hs;
    }

    /** getHeader(name): the first header whose name equals name ignoring case, None for null. */
    method GetHeader(name: string) returns (r: Option<Header>)
      ensures r == FirstNamed(headers.items, name)
    {
      var hs := headers.items;
      var i := 0;
      while i < |hs|
        invariant 0 <= i <= |hs|
        invariant NoneNamed(hs[..i], name)
      {
        if EqualsIgnoreCase(hs[i].name, name) {
          FirstNamedAt(hs, name, i);
          return Some(hs[i]);
        }
        assert NoneNamed(hs[..i + 1], name) by {
          assert forall j :: 0 <= j < i ==> hs[..i + 1][j] == hs[..i][j];
        }
        i := i + 1;
      }
      assert hs[..|hs|] == hs;
      r := None;
    }
  }

  /** A header that matches at i with none matching before it is the first match. */
  lemma {:induction false} FirstNamedAt(hs: seq<Header>, name: string, i: nat)
    requires i < |hs| && EqualsIgnoreCase(hs[i].name, name) && NoneNamed(hs[..i], name)
    ensures FirstNamed(hs, name) == Some(hs[i])
  {
    if i > 0 {
      assert hs[..i][0] == hs[0];
      assert hs[1..][..i - 1] == hs[..i][1..];
      FirstNamedAt(hs[1..], name, i - 1);
    }
  }

  /**
   * Headers added to a builder after build() show up in the message already
   * built from it, because the message wraps the builder's list.
   */
  method HeadersAddedAfterBuild(before: seq<Header>, after: seq<Header>) returns (seen: seq<Header>)
    ensures seen == before + after
  {
    var b := new MessageBuilder();
    b.AddHeaders(before);
    var m := new Message(b);
    b.AddHeaders(after);
    seen := m.headers.items;
  }

  /**
   * A builder seeded from a message copies its headers: adding to the
   * builder leaves the message's headers as they were.
   */
  method CopiedBuilderIsIndependent(m: Message, extra: seq<Header>) returns (original: seq<Header>, copied: seq<Header>)
    ensures original == m.headers.items
    ensures copied == original + extra
  {
    var b := new MessageBuilder.FromMessage(m);
    b.AddHeaders(extra);
    original := m.headers.items;
    copied := b.headers.items;
  }
}
