/**
 * Charsets by name, and String.getBytes(charset) for the three charsets the
 * library names (US-ASCII, ISO-8859-1 and UTF-8).
 */
module Charsets {
  import opened Wrappers
  import opened Ascii

  datatype Charset = UsAscii | Iso8859_1 | Utf8

  const US_ASCII: string := "US-ASCII"
  const ISO_8859_1: string := "ISO-8859-1"
  const UTF_8: string := "UTF-8"

  /** Charset.name(): the canonical name. */
  function Name(cs: Charset): string {
    match cs
    case UsAscii => US_ASCII
    case Iso8859_1 => ISO_8859_1
    case Utf8 => UTF_8
  }

  /** Charset.forName: names are matched ignoring case; unknown names are unsupported. */
  function ForName(name: string): (r: Option<Charset>)
    ensures r.Some? ==> EqualsIgnoreCase(name, Name(r.value))
  {
    if EqualsIgnoreCase(name, Name(UsAscii)) then Some(UsAscii)
    else if EqualsIgnoreCase(name, Name(Iso8859_1)) then Some(Iso8859_1)
    else if EqualsIgnoreCase(name, Name(Utf8)) then Some(Utf8)
    else None
  }

  /** The replacement byte '?' that Java writes for an unmappable character. */
  const REPLACEMENT: byte := 63

  /** The UTF-8 encoding of one Unicode scalar value. */
  function Utf8Char(c: char): (r: seq<byte>)
    ensures 1 <= |r| <= 4
    ensures (c as int < 128) <==> |r| == 1
    ensures c as int < 128 ==> r == [c as int]
  {
    var cp := c as int;
    if cp < 0x80 then [cp]
    else if cp < 0x800 then [0xC0 + cp / 64, 0x80 + cp % 64]
    else if cp < 0x10000 then [0xE0 + cp / 4096, 0x80 + (cp / 64) % 64, 0x80 + cp % 64]
    else [0xF0 + cp / 262144, 0x80 + (cp / 4096) % 64, 0x80 + (cp / 64) % 64, 0x80 + cp % 64]
  }

  /** The bytes of one character under cs. */
  function EncodeChar(cs: Charset, c: char): seq<byte> {
    match cs
    case UsAscii => if c as int < 128 then [c as int] else [REPLACEMENT]
    case Iso8859_1 => if c as int < 256 then [c as int] else [REPLACEMENT]
    case Utf8 => Utf8Char(c)
  }

  /** String.getBytes(cs). */
  function Encode(cs: Charset, s: string): (r: seq<byte>)
    ensures cs != Utf8 ==> |r| == |s|
    ensures |s| <= |r| <= 4 * |s|
  {
    if s == [] then [] else EncodeChar(cs, s[0]) + Encode(cs, s[1..])
  }

  lemma {:induction false} EncodeAppend(cs: Charset, a: string, b: string)
    ensures Encode(cs, a + b) == Encode(cs, a) + Encode(cs, b)
  {
    if a == [] {
      assert a + b == b;
    } else {
      assert (a + b)[0] == a[0] && (a + b)[1..] == a[1..] + b;
      EncodeAppend(cs, a[1..], b);
      calc {
        Encode(cs, a + b);
        EncodeChar(cs, a[0]) + Encode(cs, a[1..] + b);
        EncodeChar(cs, a[0]) + (Encode(cs, a[1..]) + Encode(cs, b));
        (EncodeChar(cs, a[0]) + Encode(cs, a[1..])) + Encode(cs, b);
      }
    }
  }

  /** Characters below U+0080. */
  predicate IsAscii(s: string) {
    forall i :: 0 <= i < |s| ==> s[i] < 128 as char
  }

  /** Every supported charset writes ASCII text as one byte per character, its code. */
  lemma {:induction false} EncodeAscii(cs: Charset, s: string)
    requires IsAscii(s)
    ensures Encode(cs, s) == AsciiBytes(s)
  {
    if s != [] {
      EncodeAscii(cs, s[1..]);
    }
  }
}
