/**
 * FormBody.java: an application/x-www-form-urlencoded body.  The builder
 * holds an insertion-ordered map from names to growing value lists (a
 * LinkedHashMap of ArrayLists); the body wraps that same map.  writeTo
 * emits `name=value` for every value of every name, URL-encoded, joined by
 * `&`.
 */
module Forms {
  import opened Wrappers
  import opened Ascii
  import opened Charsets
  import opened MimeTypes
  import MimeTypeLaws
  import opened Entities

  // ---------------------------------------------------------------------
  // URLEncoder.encode(s, "UTF-8")
  // ---------------------------------------------------------------------

  /** The characters URLEncoder leaves as they are. */
  predicate Unreserved(c: char) {
    ('a' <= c <= 'z') || ('A' <= c <= 'Z') || ('0' <= c <= '9') || c == '.' || c == '-' || c == '*' || c == '_'
  }

  /** Character.forDigit(d, 16), upper-cased. */
  function HexDigit(d: nat): (c: char)
    requires d < 16
    ensures ('0' <= c <= '9') || ('A' <= c <= 'F')
  {
    if d < 10 then ('0' as int + d) as char else ('A' as int + d - 10) as char
  }

  /** `%XY` for every byte. */
  function Percent(bs: seq<byte>): (r: string)
    ensures |r| == 3 * |bs|
  {
    if bs == [] then "" else ['%', HexDigit(bs[0] / 16), HexDigit(bs[0] % 16)] + Percent(bs[1..])
  }

  /** One character: kept, a space as `+`, anything else as its UTF-8 bytes in `%XY` form. */
  function Escape(c: char): string {
    if Unreserved(c) then [c]
    else if c == ' ' then "+"
    else Percent(Utf8Char(c))
  }

  function UrlEncode(s: string): string {
    if s == [] then "" else Escape(s[0]) + UrlEncode(s[1..])
  }

  lemma {:induction false} UrlEncodeAppend(a: string, b: string)
    ensures UrlEncode(a + b) == UrlEncode(a) + UrlEncode(b)
  {
    if a != [] {
      assert (a + b)[0] == a[0] && (a + b)[1..] == a[1..] + b;
      UrlEncodeAppend(a[1..], b);
      Assoc(Escape(a[0]), UrlEncode(a[1..]), UrlEncode(b));
    } else {
      assert a + b == b;
    }
  }

  lemma Assoc<T>(a: seq<T>, b: seq<T>, c: seq<T>)
    ensures a + b + c == a + (b + c)
  {
  }

  /** The encoded text is ASCII and holds no `&` and no `=`, so the separators of a form are never ambiguous. */
  lemma {:induction false} UrlEncodeIsSafe(s: string)
    ensures forall i :: 0 <= i < |UrlEncode(s)| ==> UrlEncode(s)[i] < 128 as char
    ensures forall i :: 0 <= i < |UrlEncode(s)| ==> UrlEncode(s)[i] != '&' && UrlEncode(s)[i] != '='
  {
    if s != [] {
      UrlEncodeIsSafe(s[1..]);
      PercentIsSafe(Utf8Char(s[0]));
      var e := Escape(s[0]);
      var r := UrlEncode(s[1..]);
      forall i | 0 <= i < |e + r| ensures (e + r)[i] < 128 as char && (e + r)[i] != '&' && (e + r)[i] != '=' {
        if i >= |e| {
          assert (e + r)[i] == r[i - |e|];
        }
      }
    }
  }

  lemma {:induction false} PercentIsSafe(bs: seq<byte>)
    ensures forall i :: 0 <= i < |Percent(bs)| ==> Percent(bs)[i] < 128 as char && Percent(bs)[i] != '&' && Percent(bs)[i] != '='
  {
    if bs != [] {
      PercentIsSafe(bs[1..]);
      var r := Percent(bs);
      var tail := Percent(bs[1..]);
      forall i | 0 <= i < |r| ensures r[i] < 128 as char && r[i] != '&' && r[i] != '=' {
        if i >= 3 {
          assert r[i] == tail[i - 3];
        }
      }
    }
  }

  /** Text made only of unreserved characters is left as it is. */
  lemma {:induction false} UrlEncodeKeepsUnreserved(s: string)
    requires forall i :: 0 <= i < |s| ==> Unreserved(s[i])
    ensures UrlEncode(s) == s
  {
    if s != [] {
      UrlEncodeKeepsUnreserved(s[1..]);
      assert s == [s[0]] + s[1..];
    }
  }

  // ---------------------------------------------------------------------
  // The decoding the encoding is made for
  // ---------------------------------------------------------------------

  function HexValue(c: char): (r: Option<nat>)
    ensures r.Some? ==> r.value < 16
  {
    if '0' <= c <= '9' then Some(c as int - '0' as int)
    else if 'A' <= c <= 'F' then Some(c as int - 'A' as int + 10)
    else if 'a' <= c <= 'f' then Some(c as int - 'a' as int + 10)
    else None
  }

  function Prepend(bs: seq<byte>, r: Option<seq<byte>>): Option<seq<byte>> {
    if r.Some? then Some(bs + r.value) else None
  }

  /**
   * application/x-www-form-urlencoded decoding to bytes: `+` is a space,
   * `%XY` one byte, any other ASCII character itself.
   */
  function UrlDecode(t: string): Option<seq<byte>>
    decreases |t|
  {
    if t == [] then Some([])
    else if t[0] == '+' then Prepend([32], UrlDecode(t[1..]))
    else if t[0] == '%' then
      if |t| >= 3 && HexValue(t[1]).Some? && HexValue(t[2]).Some? then
        Prepend([HexValue(t[1]).value * 16 + HexValue(t[2]).value], UrlDecode(t[3..]))
      else None
    else if t[0] < 128 as char then Prepend([t[0] as int], UrlDecode(t[1..]))
    else None
  }

  lemma HexRoundTrip(d: nat)
    requires d < 16
    ensures HexValue(HexDigit(d)) == Some(d)
  {
  }

  lemma {:induction false} DecodePercent(bs: seq<byte>, rest: string)
    requires UrlDecode(rest).Some?
    ensures UrlDecode(Percent(bs) + rest) == Some(bs + UrlDecode(rest).value)
  {
    if bs == [] {
      assert Percent(bs) + rest == rest;
      assert bs + UrlDecode(rest).value == UrlDecode(rest).value;
    } else {
      var b := bs[0];
      var t := Percent(bs) + rest;
      var head := ['%', HexDigit(b / 16), HexDigit(b % 16)];
      assert Percent(bs) == head + Percent(bs[1..]);
      Assoc(head, Percent(bs[1..]), rest);
      HexRoundTrip(b / 16);
      HexRoundTrip(b % 16);
      assert t[0] == '%' && t[1] == HexDigit(b / 16) && t[2] == HexDigit(b % 16);
      assert t[3..] == Percent(bs[1..]) + rest;
      assert HexValue(t[1]).value * 16 + HexValue(t[2]).value == b;
      assert UrlDecode(t) == Prepend([b], UrlDecode(t[3..]));
      DecodePercent(bs[1..], rest);
      assert bs == [b] + bs[1..];
      Assoc([b], bs[1..], UrlDecode(rest).value);
    }
  }

  lemma DecodeEscape(c: char, rest: string)
    requires UrlDecode(rest).Some?
    ensures UrlDecode(Escape(c) + rest) == Some(Utf8Char(c) + UrlDecode(rest).value)
  {
    if Unreserved(c) {
      assert (Escape(c) + rest)[1..] == rest;
    } else if c == ' ' {
      assert (Escape(c) + rest)[1..] == rest;
    } else {
      DecodePercent(Utf8Char(c), rest);
    }
  }

  /** Decoding the encoded text gives back the UTF-8 bytes of the original. */
  lemma {:induction false} UrlRoundTrip(s: string)
    ensures UrlDecode(UrlEncode(s)) == Some(Encode(Utf8, s))
  {
    if s != [] {
      UrlRoundTrip(s[1..]);
      DecodeEscape(s[0], UrlEncode(s[1..]));
    }
  }

  // ---------------------------------------------------------------------
  // The bytes writeTo writes (FormBody.java:67-90)
  // ---------------------------------------------------------------------

  const AMP: byte := 38
  const EQ: byte := 61

  /** One name of the form with all its values, in order. */
  datatype Field = Field(name: string, values: seq<string>)

  /** `Enc(name)=Enc(value)`, each side URL-encoded and written as UTF-8. */
  function PairBytes(name: string, value: string): seq<byte> {
    Encode(Utf8, UrlEncode(name)) + [EQ] + Encode(Utf8, UrlEncode(value))
  }

  /** The pieces, with `&` between each two. */
  function Join(pieces: seq<seq<byte>>): seq<byte>
    decreases |pieces|
  {
    if pieces == [] then []
    else if |pieces| == 1 then pieces[0]
    else Join(pieces[..|pieces| - 1]) + [AMP] + pieces[|pieces| - 1]
  }

  /** The `&` owed before piece j of n. */
  function Sep(j: nat, n: nat): seq<byte> {
    if 0 < j < n then [AMP] else []
  }

  function Pairs(name: string, vs: seq<string>): (r: seq<seq<byte>>)
    ensures |r| == |vs| && forall k :: 0 <= k < |vs| ==> r[k] == PairBytes(name, vs[k])
  {
    seq(|vs|, k requires 0 <= k < |vs| => PairBytes(name, vs[k]))
  }

  /** The inner loop: one pair per value, joined by `&`; nothing for a name without values. */
  function FieldBytes(f: Field): seq<byte> {
    Join(Pairs(f.name, f.values))
  }

  function Chunks(fs: seq<Field>): (r: seq<seq<byte>>)
    ensures |r| == |fs| && forall i :: 0 <= i < |fs| ==> r[i] == FieldBytes(fs[i])
  {
    seq(|fs|, i requires 0 <= i < |fs| => FieldBytes(fs[i]))
  }

  /** The outer loop: the fields' bytes joined by `&`, empty ones included. */
  function FormBytes(fs: seq<Field>): seq<byte> {
    Join(Chunks(fs))
  }

  lemma JoinSnoc(pieces: seq<seq<byte>>, j: nat)
    requires j < |pieces|
    ensures Join(pieces[..j + 1]) == Join(pieces[..j]) + Sep(j, |pieces|) + pieces[j]
  {
    assert pieces[..j + 1][..j] == pieces[..j];
  }

  // ---------------------------------------------------------------------
  // Builder and body (FormBody.java:26-145)
  // ---------------------------------------------------------------------

  /** The ArrayList<String> of one name's values. */
  class ValueList {
    var items: seq<string>

    constructor ()
      ensures items == []
    {
      items := [];
    }

    method AddAll(vs: seq<string>)
      modifies this
      ensures items == old(items) + vs
    {
      items := items + vs;
    }
  }

  /**
   * The LinkedHashMap<String, List<String>>: its keys in insertion order and
   * the list object each key maps to.
   */
  class FormMap {
    var names: seq<string>
    var lists: map<string, ValueList>

    /** The keys are exactly the names, listed once each, and no two keys share a list. */
    ghost predicate Valid()
      reads this
    {
      && (forall n :: n in lists <==> n in names)
      && (forall i, j :: 0 <= i < j < |names| ==> names[i] != names[j])
      && (forall a, b :: a in lists && b in lists && a != b ==> lists[a] != lists[b])
    }

    constructor ()
      ensures names == [] && lists == map[] && Valid()
    {
      names := [];
      lists := map[];
    }

    /** new LinkedHashMap, then putAll(other): the same keys in the same order, bound to the same lists. */
    constructor Of(other: FormMap)
      ensures names == other.names && lists == other.lists
    {
      names := other.names;
      lists := other.lists;
    }

    /** put: a new key goes last, a known key keeps its place. */
    method Put(name: string, list: ValueList)
      modifies this
      ensures lists == old(lists)[name := list]
      ensures names == if name in old(lists) then old(names) else old(names) + [name]
    {
      if name !in lists {
        names := names + [name];
      }
      lists := lists[name := list];
    }
  }

  /** The values of a name, none for a name the map does not hold. */
  function ValuesOf(lists: map<string, ValueList>, name: string): seq<string>
    reads lists.Values
  {
    if name in lists then lists[name].items else []
  }

  /** The fields of a map, in key order. */
  function FieldsOf(names: seq<string>, lists: map<string, ValueList>): (r: seq<Field>)
    reads lists.Values
    ensures |r| == |names| && forall i :: 0 <= i < |names| ==> r[i] == Field(names[i], ValuesOf(lists, names[i]))
    decreases |names|
  {
    if names == [] then []
    else FieldsOf(names[..|names| - 1], lists) + [Field(names[|names| - 1], ValuesOf(lists, names[|names| - 1]))]
  }

  class FormBuilder {
    const values: FormMap

    constructor ()
      ensures fresh(values) && values.names == [] && values.lists == map[] && values.Valid()
    {
      values := new FormMap();
    }

    /** Builder(form): a new map holding the form's keys, sharing its value lists. */
    constructor FromBody(form: FormBody)
      requires form.values.Valid()
      ensures fresh(values) && values.names == form.values.names && values.lists == form.values.lists
      ensures values.Valid()
    {
      values := new FormMap.Of(form.values);
    }

    /**
     * add(name, vs...): append vs to the name's list, making the list (and
     * the key, at the end of the order) when the name is new.
     */
    method Add(name: string, vs: seq<string>)
      requires values.Valid()
      modifies values, if name in values.lists then {values.lists[name]} else {}
      ensures values.Valid() && name in values.lists
      ensures name in old(values.lists) ==> values.names == old(values.names) && values.lists == old(values.lists)
      ensures name !in old(values.lists) ==>
        && values.names == old(values.names) + [name]
        && fresh(values.lists[name])
        && values.lists == old(values.lists)[name := values.lists[name]]
      ensures values.lists[name].items == (if name in old(values.lists) then old(values.lists[name].items) else []) + vs
      ensures forall n :: n in old(values.lists) && n != name ==> values.lists[n].items == old(values.lists[n].items)
    {
      var list: ValueList;
      if name in values.lists {
        list := values.lists[name];
      } else {
        list := new ValueList();
      }
      list.AddAll(vs);
      values.Put(name, list);
    }

    /** build: a form over this builder's own map. */
    method Build() returns (form: FormBody)
      ensures fresh(form) && form.values == values
    {
      form := new FormBody(this);
    }
  }

  const APPLICATION: string := "application"
  const X_WWW_FORM_URLENCODED: string := "x-www-form-urlencoded"
  const FORM_URLENCODED: MimeType := MimeType(APPLICATION, Some(X_WWW_FORM_URLENCODED), [])

  class FormBody {
    const values: FormMap

    constructor (b: FormBuilder)
      ensures values == b.values
    {
      values := b.values;
    }

    /** getNames: the keys, in the order they were first added. */
    method GetNames() returns (names: seq<string>)
      ensures names == values.names
    {
      names := values.names;
    }

    /** getValues: a known name's list, an empty list for any other name. */
    method GetValues(name: string) returns (vs: seq<string>)
      ensures name in values.lists ==> vs == values.lists[name].items
      ensures name !in values.lists ==> vs == []
    {
      if name in values.lists {
        vs := values.lists[name].items;
      } else {
        vs := [];
      }
    }

    /** getContentType: application/x-www-form-urlencoded, with no parameters. */
    method GetContentType() returns (r: Result<Option<MimeType>, MimeError>)
      ensures r == Ok(Some(FORM_URLENCODED))
    {
      FormUrlencodedParses();
      r := MimeTypes.Parse("application/x-www-form-urlencoded");
    }

    /** writeTo: for every name in order, every value in order, `&` between them all. */
    method WriteTo(out: ByteSink)
      modifies out
      ensures out.bytes == old(out.bytes) + FormBytes(FieldsOf(values.names, values.lists))
    {
      var fs := FieldsOf(values.names, values.lists);
      WriteFields(out, fs);
    }

    /** getContent: the bytes writeTo writes into a fresh buffer. */
    method GetContent() returns (bytes: seq<byte>)
      ensures bytes == FormBytes(FieldsOf(values.names, values.lists))
    {
      var out := new ByteSink();
      WriteTo(out);
      bytes := out.bytes;
    }

    /** newBuilder: a builder over a copy of the map that shares the value lists. */
    method NewBuilder() returns (b: FormBuilder)
      requires values.Valid()
      ensures fresh(b) && fresh(b.values)
      ensures b.values.names == values.names && b.values.lists == values.lists && b.values.Valid()
    {
      b := new FormBuilder.FromBody(this);
    }
  }

  /** The outer loop of writeTo, over the map's entries in order. */
  method WriteFields(out: ByteSink, fs: seq<Field>)
    modifies out
    ensures out.bytes == old(out.bytes) + FormBytes(fs)
  {
    ghost var chunks := Chunks(fs);
    ghost var start := out.bytes;
    var i := 0;
    while i < |fs|
      invariant 0 <= i <= |fs|
      invariant out.bytes == start + (Join(chunks[..i]) + Sep(i, |fs|))
    {
      ghost var written := Join(chunks[..i]) + Sep(i, |fs|);
      WriteValues(out, fs[i].name, fs[i].values);
      Assoc(start, written, chunks[i]);
      JoinSnoc(chunks, i);
      if i + 1 < |fs| {
        out.Write([AMP]);
      }
      Assoc(start, Join(chunks[..i + 1]), Sep(i + 1, |fs|));
      i := i + 1;
    }
    assert chunks[..i] == chunks;
  }

  /** The inner loop of writeTo for one name. */
  method WriteValues(out: ByteSink, name: string, vs: seq<string>)
    modifies out
    ensures out.bytes == old(out.bytes) + FieldBytes(Field(name, vs))
  {
    ghost var pieces := Pairs(name, vs);
    ghost var start := out.bytes;
    var j := 0;
    while j < |vs|
      invariant 0 <= j <= |vs|
      invariant out.bytes == start + (Join(pieces[..j]) + Sep(j, |vs|))
    {
      ghost var written := Join(pieces[..j]) + Sep(j, |vs|);
      WritePair(out, name, vs[j]);
      Assoc(start, written, pieces[j]);
      JoinSnoc(pieces, j);
      if j + 1 < |vs| {
        out.Write([AMP]);
      }
      Assoc(start, Join(pieces[..j + 1]), Sep(j + 1, |vs|));
      j := j + 1;
    }
    assert pieces[..j] == pieces;
  }

  method WritePair(out: ByteSink, name: string, value: string)
    modifies out
    ensures out.bytes == old(out.bytes) + PairBytes(name, value)
  {
    ghost var start := out.bytes;
    var encodedName := Encode(Utf8, UrlEncode(name));
    var encodedValue := Encode(Utf8, UrlEncode(value));
    out.Write(encodedName);
    out.Write([EQ]);
    Assoc(start, encodedName, [EQ]);
    out.Write(encodedValue);
    Assoc(start, encodedName + [EQ], encodedValue);
  }

  // ---------------------------------------------------------------------
  // getContentType (FormBody.java:54-57)
  // ---------------------------------------------------------------------

  lemma FormUrlencodedParses()
    ensures ParseDetermined("application/x-www-form-urlencoded")
    ensures ParseSpec("application/x-www-form-urlencoded") == Ok(Some(FORM_URLENCODED))
  {
    FormUrlencodedValid();
    MimeTypeLaws.RoundTrip(FORM_URLENCODED);
    FormUrlencodedRendering();
  }

  lemma FormUrlencodedRendering()
    ensures Render(FORM_URLENCODED) == "application/x-www-form-urlencoded"
  {
  }

  lemma FormUrlencodedValid()
    ensures FORM_URLENCODED.Valid()
    ensures IsLowerCase(APPLICATION) && IsLowerCase(X_WWW_FORM_URLENCODED)
  {
    ApplicationLowerToken();
    SubtypeLowerToken();
    BareValid(FORM_URLENCODED);
  }

  lemma ApplicationLowerToken()
    ensures IsToken(APPLICATION) && IsLowerCase(APPLICATION)
  {
    assert forall i :: 0 <= i < 11 ==> 'a' <= APPLICATION[i] <= 'z';
    LowerToken(APPLICATION);
  }

  /** A type with a token main type, a token subtype and no parameters is valid. */
  lemma BareValid(m: MimeType)
    requires IsToken(m.mainType) && m.subtype.Some? && IsToken(m.subtype.value) && m.params == []
    ensures m.Valid()
  {
  }

  lemma SubtypeLowerToken()
    ensures IsToken(X_WWW_FORM_URLENCODED) && IsLowerCase(X_WWW_FORM_URLENCODED)
  {
    assert forall i :: 0 <= i < 21 ==> X_WWW_FORM_URLENCODED[i] == '-' || 'a' <= X_WWW_FORM_URLENCODED[i] <= 'z';
    LowerToken(X_WWW_FORM_URLENCODED);
  }

  /** Lower-case letters and dashes make a lower-case token. */
  lemma LowerToken(s: string)
    requires s != [] && forall i :: 0 <= i < |s| ==> s[i] == '-' || 'a' <= s[i] <= 'z'
    ensures IsToken(s) && IsLowerCase(s)
  {
    assert IsTokenSpecial('-');
    MimeTypeLaws.LowerOfLowerCase(s);
  }

  // ---------------------------------------------------------------------
  // Properties of the written bytes
  // ---------------------------------------------------------------------

  /** Joining two non-empty runs of pieces puts one `&` between them. */
  lemma {:induction false} JoinAppend(a: seq<seq<byte>>, b: seq<seq<byte>>)
    requires a != [] && b != []
    ensures Join(a + b) == Join(a) + [AMP] + Join(b)
    decreases |b|
  {
    var n := |a + b| - 1;
    var last := b[|b| - 1];
    assert (a + b)[n] == last;
    if |b| == 1 {
      assert (a + b)[..n] == a;
    } else {
      var b' := b[..|b| - 1];
      assert (a + b)[..n] == a + b';
      assert Join(a + b) == Join(a + b') + [AMP] + last;
      assert Join(b) == Join(b') + [AMP] + last;
      JoinAppend(a, b');
      Assoc(Join(a) + [AMP], Join(b'), [AMP] + last);
    }
  }

  lemma ChunksAppend(a: seq<Field>, b: seq<Field>)
    ensures Chunks(a + b) == Chunks(a) + Chunks(b)
  {
  }

  /** Every value of every field, in order: the pieces of a form whose names all have values. */
  function FlatPairs(fs: seq<Field>): seq<seq<byte>>
    decreases |fs|
  {
    if fs == [] then []
    else FlatPairs(fs[..|fs| - 1]) + Pairs(fs[|fs| - 1].name, fs[|fs| - 1].values)
  }

  lemma {:induction false} FlatPairsNonEmpty(fs: seq<Field>)
    requires fs != [] && fs[|fs| - 1].values != []
    ensures FlatPairs(fs) != []
  {
    var last := fs[|fs| - 1];
    assert |Pairs(last.name, last.values)| > 0;
  }

  /** The last field of a form follows the others after one `&`. */
  lemma FormBytesSnoc(fs: seq<Field>)
    requires |fs| >= 2
    ensures FormBytes(fs) == FormBytes(fs[..|fs| - 1]) + [AMP] + FieldBytes(fs[|fs| - 1])
  {
    var n := |fs| - 1;
    assert Chunks(fs)[..n] == Chunks(fs[..n]);
  }

  /**
   * When every name has a value, the form is its name=value pairs, name by
   * name in order and value by value within a name, separated by single `&`s.
   */
  lemma {:induction false} FormBytesArePairs(fs: seq<Field>)
    requires forall i :: 0 <= i < |fs| ==> fs[i].values != []
    ensures FormBytes(fs) == Join(FlatPairs(fs))
    decreases |fs|
  {
    if fs != [] {
      var n := |fs| - 1;
      var last := fs[n];
      var ps := Pairs(last.name, last.values);
      assert FlatPairs(fs) == FlatPairs(fs[..n]) + ps;
      if n == 0 {
        assert FlatPairs(fs[..n]) == [];
        assert FlatPairs(fs) == ps;
        assert Chunks(fs) == [FieldBytes(last)];
      } else {
        var init := fs[..n];
        assert forall i :: 0 <= i < |init| ==> init[i].values != [] by {
          forall i | 0 <= i < |init| ensures init[i].values != [] { assert init[i] == fs[i]; }
        }
        FormBytesArePairs(init);
        FormBytesSnoc(fs);
        FlatPairsNonEmpty(init);
        JoinAppend(FlatPairs(init), ps);
      }
    }
  }

  /** A name without values between two others leaves two `&` in a row. */
  lemma EmptyFieldInTheMiddle(fs: seq<Field>, name: string, gs: seq<Field>)
    requires fs != [] && gs != []
    ensures FormBytes(fs + [Field(name, [])] + gs) == FormBytes(fs) + [AMP, AMP] + FormBytes(gs)
  {
    ChunksAppend(fs + [Field(name, [])], gs);
    ChunksAppend(fs, [Field(name, [])]);
    assert Chunks([Field(name, [])]) == [[]];
    JoinEmptyMiddle(Chunks(fs), Chunks(gs));
  }

  lemma JoinEmptyMiddle(a: seq<seq<byte>>, b: seq<seq<byte>>)
    requires a != [] && b != []
    ensures Join(a + [[]] + b) == Join(a) + [AMP, AMP] + Join(b)
  {
    JoinAppend(a + [[]], b);
    JoinAppend(a, [[]]);
    assert Join([[]]) == [];
  }

  /** A first name without values makes the form start with `&`. */
  lemma EmptyFieldFirst(name: string, gs: seq<Field>)
    requires gs != []
    ensures FormBytes([Field(name, [])] + gs) == [AMP] + FormBytes(gs)
  {
    ChunksAppend([Field(name, [])], gs);
    assert Chunks([Field(name, [])]) == [[]];
    JoinAppend([[]], Chunks(gs));
  }

  /** A last name without values makes the form end with `&`. */
  lemma EmptyFieldLast(fs: seq<Field>, name: string)
    requires fs != []
    ensures FormBytes(fs + [Field(name, [])]) == FormBytes(fs) + [AMP]
  {
    ChunksAppend(fs, [Field(name, [])]);
    assert Chunks([Field(name, [])]) == [[]];
    JoinAppend(Chunks(fs), [[]]);
  }

  /** The bytes of a form are ASCII: every name and value is URL-encoded. */
  lemma {:induction false} PairBytesAscii(name: string, value: string)
    ensures forall k :: 0 <= k < |PairBytes(name, value)| ==> PairBytes(name, value)[k] < 128
  {
    UrlEncodeIsSafe(name);
    UrlEncodeIsSafe(value);
    EncodeAscii(Utf8, UrlEncode(name));
    EncodeAscii(Utf8, UrlEncode(value));
  }

  // ---------------------------------------------------------------------
  // Forms made only of unreserved characters
  // ---------------------------------------------------------------------

  predicate AllUnreserved(s: string) {
    forall i :: 0 <= i < |s| ==> Unreserved(s[i])
  }

  /** Texts with "&" between each two. */
  function JoinText(ts: seq<string>): string
    decreases |ts|
  {
    if ts == [] then ""
    else if |ts| == 1 then ts[0]
    else JoinText(ts[..|ts| - 1]) + "&" + ts[|ts| - 1]
  }

  function PairTexts(name: string, vs: seq<string>): (r: seq<string>)
    ensures |r| == |vs| && forall k :: 0 <= k < |vs| ==> r[k] == name + "=" + vs[k]
  {
    seq(|vs|, k requires 0 <= k < |vs| => name + "=" + vs[k])
  }

  /** An unreserved pair is written as its own text. */
  lemma UnreservedPair(name: string, value: string)
    requires AllUnreserved(name) && AllUnreserved(value)
    ensures PairBytes(name, value) == Encode(Utf8, name + "=" + value)
  {
    UrlEncodeKeepsUnreserved(name);
    UrlEncodeKeepsUnreserved(value);
    EncodeAppend(Utf8, name, "=");
    EncodeAppend(Utf8, name + "=", value);
  }

  /** A name whose values are all unreserved is written as the text `name=v1&name=v2...`. */
  lemma {:induction false} UnreservedField(name: string, vs: seq<string>)
    requires AllUnreserved(name) && forall k :: 0 <= k < |vs| ==> AllUnreserved(vs[k])
    ensures FieldBytes(Field(name, vs)) == Encode(Utf8, JoinText(PairTexts(name, vs)))
    decreases |vs|
  {
    var ps := Pairs(name, vs);
    var ts := PairTexts(name, vs);
    var n := |vs|;
    if n == 1 {
      UnreservedPair(name, vs[0]);
    } else if n > 1 {
      var init := vs[..n - 1];
      assert forall k :: 0 <= k < |init| ==> AllUnreserved(init[k]) by {
        forall k | 0 <= k < |init| ensures AllUnreserved(init[k]) { assert init[k] == vs[k]; }
      }
      assert ps[..n - 1] == Pairs(name, init);
      assert ts[..n - 1] == PairTexts(name, init);
      UnreservedField(name, init);
      UnreservedPair(name, vs[n - 1]);
      assert Join(ps) == Join(ps[..n - 1]) + [AMP] + ps[n - 1];
      assert JoinText(ts) == JoinText(ts[..n - 1]) + "&" + ts[n - 1];
      EncodeAmp(JoinText(ts[..n - 1]), ts[n - 1]);
    }
  }

  lemma EncodeAmp(x: string, t: string)
    ensures Encode(Utf8, x + "&" + t) == Encode(Utf8, x) + [AMP] + Encode(Utf8, t)
  {
    EncodeAppend(Utf8, x, "&");
    EncodeAppend(Utf8, x + "&", t);
    assert Encode(Utf8, "&") == [AMP];
  }

  /** The example of the form test: one name with four values. */
  lemma VersionForm()
    ensures FormBytes([Field("version", ["1.0", "2.0", "3.0", "4.0"])]) == Encode(Utf8, "version=1.0&version=2.0&version=3.0&version=4.0")
  {
    var vs := ["1.0", "2.0", "3.0", "4.0"];
    VersionUnreserved();
    UnreservedField("version", vs);
    VersionFieldText();
    SingleField(Field("version", vs));
  }

  lemma VersionFieldText()
    ensures JoinText(PairTexts("version", ["1.0", "2.0", "3.0", "4.0"])) == "version=1.0&version=2.0&version=3.0&version=4.0"
  {
    VersionPairs();
    JoinFour("version=1.0", "version=2.0", "version=3.0", "version=4.0");
    VersionText();
  }

  /** A form of one name is that name's pairs. */
  lemma SingleField(f: Field)
    ensures FormBytes([f]) == FieldBytes(f)
  {
    assert Chunks([f]) == [FieldBytes(f)];
  }

  lemma VersionUnreserved()
    ensures AllUnreserved("version")
    ensures var vs := ["1.0", "2.0", "3.0", "4.0"]; forall k :: 0 <= k < |vs| ==> AllUnreserved(vs[k])
  {
  }

  lemma VersionPairs()
    ensures PairTexts("version", ["1.0", "2.0", "3.0", "4.0"]) == ["version=1.0", "version=2.0", "version=3.0", "version=4.0"]
  {
    var ts := PairTexts("version", ["1.0", "2.0", "3.0", "4.0"]);
    assert ts[0] == "version=1.0";
    assert ts[1] == "version=2.0";
    assert ts[2] == "version=3.0";
    assert ts[3] == "version=4.0";
  }

  lemma JoinFour(a: string, b: string, c: string, d: string)
    ensures JoinText([a, b, c, d]) == a + "&" + b + "&" + c + "&" + d
  {
    assert [a, b, c, d][..3] == [a, b, c];
    assert [a, b, c][..2] == [a, b];
    assert [a, b][..1] == [a];
    assert JoinText([a]) == a;
    assert JoinText([a, b]) == a + "&" + b;
    assert JoinText([a, b, c]) == a + "&" + b + "&" + c;
  }

  lemma VersionText()
    ensures "version=1.0" + "&" + "version=2.0" + "&" + "version=3.0" + "&" + "version=4.0" == "version=1.0&version=2.0&version=3.0&version=4.0"
  {
  }

  // ---------------------------------------------------------------------
  // Builders, bodies and the maps they share
  // ---------------------------------------------------------------------

  /** A form built from an empty builder writes nothing. */
  method EmptyForm() returns (names: seq<string>, bytes: seq<byte>)
    ensures names == [] && bytes == []
  {
    var b := new FormBuilder();
    var form := b.Build();
    names := form.GetNames();
    bytes := form.GetContent();
  }

  /** The form of the test: add("version", "1.0", "2.0", "3.0", "4.0"). */
  method VersionFormContent() returns (bytes: seq<byte>)
    ensures bytes == Encode(Utf8, "version=1.0&version=2.0&version=3.0&version=4.0")
  {
    var vs := ["1.0", "2.0", "3.0", "4.0"];
    var b := new FormBuilder();
    b.Add("version", vs);
    var form := b.Build();
    ghost var fs := FieldsOf(form.values.names, form.values.lists);
    assert fs[0] == Field("version", vs);
    assert fs == [Field("version", vs)];
    bytes := form.GetContent();
    VersionForm();
  }

  /** Adding to a name again keeps its place and appends to its values. */
  method RepeatedAdd(a: string, b: string, va: seq<string>, vb: seq<string>, more: seq<string>)
    returns (names: seq<string>, seenA: seq<string>, seenB: seq<string>)
    requires a != b
    ensures names == [a, b] && seenA == va + more && seenB == vb
  {
    var builder := new FormBuilder();
    builder.Add(a, va);
    builder.Add(b, vb);
    builder.Add(a, more);
    var form := builder.Build();
    names := form.GetNames();
    seenA := form.GetValues(a);
    seenB := form.GetValues(b);
  }

  /** Names added to the builder after build show in the form, which wraps the same map. */
  method AddedAfterBuild(name: string, vs: seq<string>) returns (before: seq<string>, names: seq<string>, seen: seq<string>)
    ensures before == [] && names == [name] && seen == vs
  {
    var builder := new FormBuilder();
    var form := builder.Build();
    before := form.GetNames();
    builder.Add(name, vs);
    names := form.GetNames();
    seen := form.GetValues(name);
  }

  /** After newBuilder, adding to a name the form already has grows the form's own list. */
  method DerivedBuilderSharesLists(name: string, first: seq<string>, more: seq<string>) returns (seen: seq<string>)
    ensures seen == first + more
  {
    var builder := new FormBuilder();
    builder.Add(name, first);
    var form := builder.Build();
    var derived := form.NewBuilder();
    derived.Add(name, more);
    seen := form.GetValues(name);
  }

  /** After newBuilder, a name new to the derived builder stays out of the original form. */
  method DerivedBuilderKeepsNewNames(name: string, other: string, first: seq<string>, more: seq<string>)
    returns (names: seq<string>, derivedNames: seq<string>, seen: seq<string>)
    requires other != name
    ensures names == [name] && derivedNames == [name, other] && seen == []
  {
    var builder := new FormBuilder();
    builder.Add(name, first);
    var form := builder.Build();
    var derived := form.NewBuilder();
    derived.Add(other, more);
    var copy := derived.Build();
    names := form.GetNames();
    derivedNames := copy.GetNames();
    seen := form.GetValues(other);
  }
}
