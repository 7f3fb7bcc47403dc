/**
The text form of a revision cursor: `_encode_revision_cursor` and `_decode_revision_cursor`
(src/image23mf/processing.py:2447-2467), in the URL-safe alphabet of section 5 of RFC 4648 without
padding. What the decoder accepts is the strict mode of CPython 3.11; the versions before it test the
text against a pattern first, which allows two padding signs at its end.
*/
module Cursor {
  import opened Wrappers

  type Byte = x: int | 0 <= x < 256
  type Sextet = x: int | 0 <= x < 64
  type Text = seq<char>

  function Symbol(x: Sextet): char {
    if x < 26 then 'A' + x as char
    else if x < 52 then 'a' + (x - 26) as char
    else if x < 62 then '0' + (x - 52) as char
    else if x == 62 then '-' else '_'
  }

  /** What the decoder reads: the URL-safe alphabet, and the two symbols of the standard one it stands for. */
  function Read(c: char): Option<Sextet> {
    if 'A' <= c <= 'Z' then Some(c as int - 'A' as int)
    else if 'a' <= c <= 'z' then Some(26 + (c as int - 'a' as int))
    else if '0' <= c <= '9' then Some(52 + (c as int - '0' as int))
    else if c == '-' || c == '+' then Some(62)
    else if c == '_' || c == '/' then Some(63)
    else None
  }

  /** Table 2 in section 5 of RFC 4648: upper case, lower case, digits, then the two safe signs. */
  lemma SymbolsAreUrlSafe(x: Sextet)
    ensures Symbol(0) == 'A' && Symbol(26) == 'a' && Symbol(52) == '0' && Symbol(62) == '-' && Symbol(63) == '_'
    ensures x !in {25, 51, 61, 62, 63} ==> Symbol(x + 1) as int == Symbol(x) as int + 1
  {
  }

  lemma SymbolReadsBack(x: Sextet)
    ensures Read(Symbol(x)) == Some(x) && Symbol(x) != '='
  {
  }

  // ----- the padded encoding of the library

  function Encode(bytes: seq<Byte>): Text {
    if bytes == [] then []
    else if |bytes| == 1 then [Symbol(bytes[0] / 4), Symbol(bytes[0] % 4 * 16), '=', '=']
    else if |bytes| == 2 then
      [Symbol(bytes[0] / 4), Symbol(bytes[0] % 4 * 16 + bytes[1] / 16), Symbol(bytes[1] % 16 * 4), '=']
    else
      [Symbol(bytes[0] / 4), Symbol(bytes[0] % 4 * 16 + bytes[1] / 16), Symbol(bytes[1] % 16 * 4 + bytes[2] / 64),
       Symbol(bytes[2] % 64)]
      + Encode(bytes[3..])
  }

  // The three bytes four sextets stand for.
  function FirstByte(p: Sextet, q: Sextet): Byte { p * 4 + q / 16 }
  function SecondByte(q: Sextet, r: Sextet): Byte { q % 16 * 16 + r / 4 }
  function ThirdByte(r: Sextet, s: Sextet): Byte { r % 4 * 64 + s }

  /** The last group may stand for one or two bytes; the bits left over are not looked at. */
  function DecodeLast(a: Sextet, b: Sextet, third: char, fourth: char): Option<seq<Byte>> {
    if third == '=' then
      if fourth == '=' then Some([FirstByte(a, b)]) else None
    else if Read(third).None? then None
    else if fourth == '=' then Some([FirstByte(a, b), SecondByte(b, Read(third).value)])
    else if Read(fourth).None? then None
    else Some([FirstByte(a, b), SecondByte(b, Read(third).value), ThirdByte(Read(third).value, Read(fourth).value)])
  }

  predicate OnlyPads(text: Text) {
    forall i :: 0 <= i < |text| ==> text[i] == '='
  }

  /** Nothing may follow a padded group, and nothing but padding signs a whole one that is the last. */
  function Decode(text: Text): Option<seq<Byte>> {
    if text == [] then Some([])
    else if |text| < 4 || Read(text[0]).None? || Read(text[1]).None? then None
    else
      var group := DecodeLast(Read(text[0]).value, Read(text[1]).value, text[2], text[3]);
      if group.None? then None
      else if text[3] == '=' then if |text| == 4 then group else None
      else if OnlyPads(text[4..]) then group
      else
        var rest := Decode(text[4..]);
        if rest.None? then None else Some(group.value + rest.value)
  }

  // ----- the cursor

  function Strip(text: Text): Text {
    if text != [] && text[|text| - 1] == '=' then Strip(text[..|text| - 1]) else text
  }

  /** `"=" * (-len(cursor) % 4)`. */
  function Padding(length: nat): Text {
    match length % 4
    case 0 => []
    case 1 => ['=', '=', '=']
    case 2 => ['=', '=']
    case 3 => ['=']
  }

  function EncodeCursor(payload: seq<Byte>): Text {
    Strip(Encode(payload))
  }

  function DecodeCursor(cursor: Text): Option<seq<Byte>> {
    Decode(cursor + Padding(|cursor|))
  }

  // ----- round trip

  /** Where the bits of three bytes go, and back. */
  lemma BitsComeBack(a: Byte, b: Byte, c: Byte)
    ensures FirstByte(a / 4, a % 4 * 16 + b / 16) == a
    ensures SecondByte(a % 4 * 16 + b / 16, b % 16 * 4 + c / 64) == b
    ensures ThirdByte(b % 16 * 4 + c / 64, c % 64) == c
  {
    assert (a % 4 * 16 + b / 16) / 16 == a % 4;
    assert (b % 16 * 4 + c / 64) / 4 == b % 16;
  }

  lemma GroupOfThree(a: Byte, b: Byte, c: Byte)
    ensures DecodeLast(a / 4, a % 4 * 16 + b / 16, Symbol(b % 16 * 4 + c / 64), Symbol(c % 64)) == Some([a, b, c])
  {
    BitsComeBack(a, b, c);
    SymbolReadsBack(b % 16 * 4 + c / 64);
    SymbolReadsBack(c % 64);
  }

  lemma GroupOfTwo(a: Byte, b: Byte)
    ensures DecodeLast(a / 4, a % 4 * 16 + b / 16, Symbol(b % 16 * 4), '=') == Some([a, b])
  {
    BitsComeBack(a, b, 0);
    SymbolReadsBack(b % 16 * 4);
  }

  lemma DecodeOne(a: Byte)
    ensures Decode(Encode([a])) == Some([a])
  {
    SymbolReadsBack(a / 4);
    SymbolReadsBack(a % 4 * 16);
  }

  lemma DecodeTwo(a: Byte, b: Byte)
    ensures Decode(Encode([a, b])) == Some([a, b])
  {
    SymbolReadsBack(a / 4);
    SymbolReadsBack(a % 4 * 16 + b / 16);
    GroupOfTwo(a, b);
  }

  // The first four symbols of a text stand for three bytes.
  predicate StartsWithGroup(text: Text, a: Byte, b: Byte, c: Byte) {
    && |text| >= 4
    && text[0] == Symbol(a / 4) && text[1] == Symbol(a % 4 * 16 + b / 16)
    && text[2] == Symbol(b % 16 * 4 + c / 64) && text[3] == Symbol(c % 64)
  }

  /** A full group in front of any text decodes to its three bytes in front of the rest. */
  lemma DecodeMore(a: Byte, b: Byte, c: Byte, text: Text)
    requires StartsWithGroup(text, a, b, c) && Decode(text[4..]).Some?
    ensures Decode(text) == Some([a, b, c] + Decode(text[4..]).value)
  {
    SymbolReadsBack(a / 4);
    SymbolReadsBack(a % 4 * 16 + b / 16);
    SymbolReadsBack(b % 16 * 4 + c / 64);
    SymbolReadsBack(c % 64);
    GroupOfThree(a, b, c);
    if OnlyPads(text[4..]) {
      assert text[4..] == [] by {
        assert Read('=').None?;
      }
      assert [a, b, c] + [] == [a, b, c];
    }
  }

  lemma FirstGroup(bytes: seq<Byte>)
    requires |bytes| >= 3
    ensures |Encode(bytes)| == 4 + |Encode(bytes[3..])| && Encode(bytes)[4..] == Encode(bytes[3..])
    ensures Encode(bytes)[0] == Symbol(bytes[0] / 4) && Encode(bytes)[1] == Symbol(bytes[0] % 4 * 16 + bytes[1] / 16)
    ensures Encode(bytes)[2] == Symbol(bytes[1] % 16 * 4 + bytes[2] / 64) && Encode(bytes)[3] == Symbol(bytes[2] % 64)
  {
  }

  lemma OneMoreGroupDecodes(bytes: seq<Byte>, text: Text)
    requires |bytes| >= 3 && StartsWithGroup(text, bytes[0], bytes[1], bytes[2])
    requires Decode(text[4..]) == Some(bytes[3..])
    ensures Decode(text) == Some(bytes)
  {
    DecodeMore(bytes[0], bytes[1], bytes[2], text);
    ThreeAndTheRest(bytes);
  }

  lemma ThreeAndTheRest(bytes: seq<Byte>)
    requires |bytes| >= 3
    ensures [bytes[0], bytes[1], bytes[2]] + bytes[3..] == bytes
  {
  }

  lemma LastGroupDecodes(bytes: seq<Byte>)
    requires |bytes| < 3
    ensures Decode(Encode(bytes)) == Some(bytes)
  {
    if |bytes| == 1 {
      DecodeOne(bytes[0]);
      assert bytes == [bytes[0]];
    } else if |bytes| == 2 {
      DecodeTwo(bytes[0], bytes[1]);
      assert bytes == [bytes[0], bytes[1]];
    }
  }

  lemma {:induction false} DecodeInvertsEncode(bytes: seq<Byte>)
    ensures Decode(Encode(bytes)) == Some(bytes)
  {
    if |bytes| < 3 {
      LastGroupDecodes(bytes);
    } else {
      DecodeInvertsEncode(bytes[3..]);
      FirstGroup(bytes);
      OneMoreGroupDecodes(bytes, Encode(bytes));
    }
  }

  lemma NoPaddingInside(bytes: seq<Byte>)
    requires |bytes| >= 3
    ensures forall i :: 0 <= i < 4 ==> Read(Encode(bytes)[i]).Some?
    ensures Encode(bytes)[2] != '=' && Encode(bytes)[3] != '='
  {
    FirstGroup(bytes);
    SymbolReadsBack(bytes[0] / 4);
    SymbolReadsBack(bytes[0] % 4 * 16 + bytes[1] / 16);
    SymbolReadsBack(bytes[1] % 16 * 4 + bytes[2] / 64);
    SymbolReadsBack(bytes[2] % 64);
  }

  /** How many symbols n bytes take, without padding. */
  function SymbolCount(n: nat): nat {
    if n == 0 then 0 else if n == 1 then 2 else if n == 2 then 3 else 4 + SymbolCount(n - 3)
  }

  /** A text of n symbols, filled up with padding signs to a multiple of four. */
  predicate Shaped(text: Text, n: nat) {
    && |text| == n + |Padding(n)|
    && (forall i :: 0 <= i < n ==> Read(text[i]).Some?)
    && (forall i :: n <= i < |text| ==> text[i] == '=')
  }

  lemma {:induction false} EncodingShape(bytes: seq<Byte>)
    ensures Shaped(Encode(bytes), SymbolCount(|bytes|))
  {
    if |bytes| >= 3 {
      EncodingShape(bytes[3..]);
      FirstGroup(bytes);
      NoPaddingInside(bytes);
      SuffixShape(Encode(bytes), SymbolCount(|bytes[3..]|));
    } else if |bytes| == 2 {
      ShapeOfTwo(bytes);
    } else if |bytes| == 1 {
      ShapeOfOne(bytes);
    }
  }

  lemma ShapeOfOne(bytes: seq<Byte>)
    requires |bytes| == 1
    ensures Shaped(Encode(bytes), 2)
  {
    SymbolReadsBack(bytes[0] / 4);
    SymbolReadsBack(bytes[0] % 4 * 16);
    assert Padding(2) == ['=', '='];
  }

  lemma ShapeOfTwo(bytes: seq<Byte>)
    requires |bytes| == 2
    ensures Shaped(Encode(bytes), 3)
  {
    SymbolReadsBack(bytes[0] / 4);
    SymbolReadsBack(bytes[0] % 4 * 16 + bytes[1] / 16);
    SymbolReadsBack(bytes[1] % 16 * 4);
    assert Padding(3) == ['='];
  }

  lemma SuffixShape(text: Text, n: nat)
    requires |text| >= 4 && Shaped(text[4..], n)
    requires forall i :: 0 <= i < 4 ==> Read(text[i]).Some?
    ensures Shaped(text, 4 + n)
  {
    assert Padding(n) == Padding(4 + n);
    forall i | 4 <= i < |text| ensures text[i] == text[4..][i - 4] {
    }
  }

  lemma {:induction false} StripPads(text: Text, n: nat)
    requires n <= |text| && (n > 0 ==> Read(text[n - 1]).Some?)
    requires forall i :: n <= i < |text| ==> text[i] == '='
    ensures Strip(text) == text[..n]
  {
    if n < |text| {
      StripPads(text[..|text| - 1], n);
      assert text[..|text| - 1][..n] == text[..n];
    } else {
      assert text[..n] == text;
    }
  }

  lemma StripPadded(cursor: Text)
    requires cursor == [] || Read(cursor[|cursor| - 1]).Some?
    ensures Strip(cursor + Padding(|cursor|)) == cursor
  {
    var text := cursor + Padding(|cursor|);
    StripPads(text, |cursor|);
    assert text[..|cursor|] == cursor;
  }

  /** Stripping the padding and restoring it from the length modulo 4 loses nothing. */
  lemma StrippedPaddingComesBack(bytes: seq<Byte>)
    ensures |Strip(Encode(bytes))| == SymbolCount(|bytes|)
    ensures Strip(Encode(bytes)) + Padding(|Strip(Encode(bytes))|) == Encode(bytes)
  {
    EncodingShape(bytes);
    StripPads(Encode(bytes), SymbolCount(|bytes|));
    ShapedEndsInPadding(Encode(bytes), SymbolCount(|bytes|));
  }

  lemma ShapedEndsInPadding(text: Text, n: nat)
    requires Shaped(text, n)
    ensures text[..n] + Padding(n) == text
  {
    var padding := Padding(n);
    assert forall i :: 0 <= i < |padding| ==> padding[i] == '=';
  }

  /** Decoding an encoded cursor returns the payload, whatever its length. */
  lemma CursorRoundTrip(payload: seq<Byte>)
    ensures DecodeCursor(EncodeCursor(payload)) == Some(payload)
  {
    StrippedPaddingComesBack(payload);
    DecodeInvertsEncode(payload);
  }

  // ----- which cursors are encodings

  predicate UrlSafe(c: char) {
    Read(c).Some? && Symbol(Read(c).value) == c
  }

  /** URL-safe symbols only, no single symbol at the end, and no bits left over in the last group. */
  predicate Canonical(cursor: Text) {
    match |cursor|
    case 0 => true
    case 1 => false
    case 2 => UrlSafe(cursor[0]) && UrlSafe(cursor[1]) && Read(cursor[1]).value % 16 == 0
    case 3 => UrlSafe(cursor[0]) && UrlSafe(cursor[1]) && UrlSafe(cursor[2]) && Read(cursor[2]).value % 4 == 0
    case _ =>
      && UrlSafe(cursor[0]) && UrlSafe(cursor[1]) && UrlSafe(cursor[2]) && UrlSafe(cursor[3])
      && Canonical(cursor[4..])
  }

  lemma SextetsComeBack(p: Sextet, q: Sextet, r: Sextet, s: Sextet)
    ensures var a, b, c := FirstByte(p, q), SecondByte(q, r), ThirdByte(r, s);
            && a / 4 == p && a % 4 * 16 + b / 16 == q && b % 16 * 4 + c / 64 == r && c % 64 == s
  {
    assert (p * 4 + q / 16) / 4 == p;
    assert (q % 16 * 16 + r / 4) / 16 == q % 16;
    assert (r % 4 * 64 + s) / 64 == r % 4;
  }

  lemma EncodeAfterTwo(c: char, d: char)
    requires UrlSafe(c) && UrlSafe(d) && Read(d).value % 16 == 0
    ensures Decode([c, d, '=', '=']).Some? && Encode(Decode([c, d, '=', '=']).value) == [c, d, '=', '=']
  {
    SextetsComeBack(Read(c).value, Read(d).value, 0, 0);
    DecodePadded(c, d, '=');
  }

  // A padded group is the whole text.
  lemma DecodePadded(c: char, d: char, e: char)
    requires Read(c).Some? && Read(d).Some?
    ensures Decode([c, d, e, '=']) == DecodeLast(Read(c).value, Read(d).value, e, '=')
  {
  }

  lemma EncodeAfterThree(c: char, d: char, e: char)
    requires UrlSafe(c) && UrlSafe(d) && UrlSafe(e) && Read(e).value % 4 == 0
    ensures Decode([c, d, e, '=']).Some? && Encode(Decode([c, d, e, '=']).value) == [c, d, e, '=']
  {
    SextetsComeBack(Read(c).value, Read(d).value, Read(e).value, 0);
    DecodePadded(c, d, e);
  }

  lemma EncodeAfterMore(text: Text)
    requires |text| >= 4 && UrlSafe(text[0]) && UrlSafe(text[1]) && UrlSafe(text[2]) && UrlSafe(text[3])
    requires Decode(text[4..]).Some? && Encode(Decode(text[4..]).value) == text[4..]
    ensures Decode(text).Some? && Encode(Decode(text).value) == text
  {
    var p, q, r, s := Read(text[0]).value, Read(text[1]).value, Read(text[2]).value, Read(text[3]).value;
    var a, b, c := FirstByte(p, q), SecondByte(q, r), ThirdByte(r, s);
    GroupSymbols(text, a, b, c);
    DecodeMore(a, b, c, text);
    EncodesAsText(a, b, c, Decode(text[4..]).value, text);
  }

  lemma EncodesAsText(a: Byte, b: Byte, c: Byte, rest: seq<Byte>, text: Text)
    requires StartsWithGroup(text, a, b, c) && Encode(rest) == text[4..]
    ensures Encode([a, b, c] + rest) == text
  {
    EncodeMore(a, b, c, rest);
    assert text == [text[0], text[1], text[2], text[3]] + text[4..];
  }

  lemma GroupSymbols(text: Text, a: Byte, b: Byte, c: Byte)
    requires |text| >= 4 && UrlSafe(text[0]) && UrlSafe(text[1]) && UrlSafe(text[2]) && UrlSafe(text[3])
    requires a == FirstByte(Read(text[0]).value, Read(text[1]).value)
    requires b == SecondByte(Read(text[1]).value, Read(text[2]).value)
    requires c == ThirdByte(Read(text[2]).value, Read(text[3]).value)
    ensures text[0] == Symbol(a / 4) && text[1] == Symbol(a % 4 * 16 + b / 16)
    ensures text[2] == Symbol(b % 16 * 4 + c / 64) && text[3] == Symbol(c % 64)
  {
    SextetsComeBack(Read(text[0]).value, Read(text[1]).value, Read(text[2]).value, Read(text[3]).value);
  }

  lemma EncodeMore(a: Byte, b: Byte, c: Byte, rest: seq<Byte>)
    ensures Encode([a, b, c] + rest)
         == [Symbol(a / 4), Symbol(a % 4 * 16 + b / 16), Symbol(b % 16 * 4 + c / 64), Symbol(c % 64)] + Encode(rest)
  {
    assert ([a, b, c] + rest)[3..] == rest;
  }

  lemma TwoEncodeBack(cursor: Text)
    requires |cursor| == 2 && UrlSafe(cursor[0]) && UrlSafe(cursor[1]) && Read(cursor[1]).value % 16 == 0
    ensures DecodeCursor(cursor).Some? && Encode(DecodeCursor(cursor).value) == cursor + Padding(2)
  {
    assert cursor + Padding(2) == [cursor[0], cursor[1], '=', '='];
    EncodeAfterTwo(cursor[0], cursor[1]);
  }

  lemma ThreeEncodeBack(cursor: Text)
    requires |cursor| == 3 && UrlSafe(cursor[0]) && UrlSafe(cursor[1]) && UrlSafe(cursor[2])
    requires Read(cursor[2]).value % 4 == 0
    ensures DecodeCursor(cursor).Some? && Encode(DecodeCursor(cursor).value) == cursor + Padding(3)
  {
    assert cursor + Padding(3) == [cursor[0], cursor[1], cursor[2], '='];
    EncodeAfterThree(cursor[0], cursor[1], cursor[2]);
  }

  lemma PaddingAfterFour(cursor: Text)
    requires |cursor| >= 4
    ensures (cursor + Padding(|cursor|))[4..] == cursor[4..] + Padding(|cursor[4..]|)
  {
    assert Padding(|cursor|) == Padding(|cursor| - 4);
  }

  lemma FourMoreEncodeBack(cursor: Text)
    requires |cursor| >= 4
    requires UrlSafe(cursor[0]) && UrlSafe(cursor[1]) && UrlSafe(cursor[2]) && UrlSafe(cursor[3])
    requires DecodeCursor(cursor[4..]).Some?
    requires Encode(DecodeCursor(cursor[4..]).value) == cursor[4..] + Padding(|cursor[4..]|)
    ensures DecodeCursor(cursor).Some? && Encode(DecodeCursor(cursor).value) == cursor + Padding(|cursor|)
  {
    PaddingAfterFour(cursor);
    EncodeAfterMore(cursor + Padding(|cursor|));
  }

  lemma {:induction false} EncodeInvertsDecode(cursor: Text)
    requires Canonical(cursor)
    ensures DecodeCursor(cursor).Some? && Encode(DecodeCursor(cursor).value) == cursor + Padding(|cursor|)
  {
    if |cursor| == 2 {
      TwoEncodeBack(cursor);
    } else if |cursor| == 3 {
      ThreeEncodeBack(cursor);
    } else if |cursor| >= 4 {
      EncodeInvertsDecode(cursor[4..]);
      FourMoreEncodeBack(cursor);
    }
  }

  lemma ShortCursorsAreCanonical(payload: seq<Byte>)
    requires |payload| < 3
    ensures Canonical(EncodeCursor(payload))
  {
    StripIsPrefix(payload);
    if |payload| == 1 {
      SymbolReadsBack(payload[0] / 4);
      SymbolReadsBack(payload[0] % 4 * 16);
    } else if |payload| == 2 {
      SymbolReadsBack(payload[0] / 4);
      SymbolReadsBack(payload[0] % 4 * 16 + payload[1] / 16);
      SymbolReadsBack(payload[1] % 16 * 4);
    }
  }

  lemma FirstSymbolsAreSafe(payload: seq<Byte>)
    requires |payload| >= 3
    ensures forall i :: 0 <= i < 4 ==> UrlSafe(Encode(payload)[i])
  {
    FirstGroup(payload);
    SymbolReadsBack(payload[0] / 4);
    SymbolReadsBack(payload[0] % 4 * 16 + payload[1] / 16);
    SymbolReadsBack(payload[1] % 16 * 4 + payload[2] / 64);
    SymbolReadsBack(payload[2] % 64);
  }

  lemma CanonicalGrows(cursor: Text, rest: Text)
    requires |cursor| >= 4 && cursor[4..] == rest && Canonical(rest)
    requires UrlSafe(cursor[0]) && UrlSafe(cursor[1]) && UrlSafe(cursor[2]) && UrlSafe(cursor[3])
    ensures Canonical(cursor)
  {
  }

  lemma OneMoreGroupIsCanonical(payload: seq<Byte>)
    requires |payload| >= 3 && Canonical(EncodeCursor(payload[3..]))
    ensures Canonical(EncodeCursor(payload))
  {
    StripIsPrefix(payload);
    StripIsPrefix(payload[3..]);
    FirstGroup(payload);
    FirstSymbolsAreSafe(payload);
    CanonicalGrows(EncodeCursor(payload), EncodeCursor(payload[3..]));
  }

  lemma {:induction false} CursorsAreCanonical(payload: seq<Byte>)
    ensures Canonical(EncodeCursor(payload))
  {
    if |payload| < 3 {
      ShortCursorsAreCanonical(payload);
    } else {
      CursorsAreCanonical(payload[3..]);
      OneMoreGroupIsCanonical(payload);
    }
  }

  lemma {:induction false} CanonicalEnd(cursor: Text)
    requires Canonical(cursor) && cursor != []
    ensures Read(cursor[|cursor| - 1]).Some?
  {
    if |cursor| > 4 {
      CanonicalEnd(cursor[4..]);
    }
  }

  lemma StripIsPrefix(bytes: seq<Byte>)
    ensures SymbolCount(|bytes|) <= |Encode(bytes)| && EncodeCursor(bytes) == Encode(bytes)[..SymbolCount(|bytes|)]
  {
    EncodingShape(bytes);
    StripPads(Encode(bytes), SymbolCount(|bytes|));
  }

  lemma CanonicalEncodesBack(cursor: Text)
    requires Canonical(cursor)
    ensures DecodeCursor(cursor).Some? && EncodeCursor(DecodeCursor(cursor).value) == cursor
  {
    EncodeInvertsDecode(cursor);
    if cursor != [] { CanonicalEnd(cursor); }
    StripPadded(cursor);
  }

  /** A cursor is the encoding of what it decodes to exactly when it is canonical. */
  lemma DecodedCursorsEncodeBackExactly(cursor: Text)
    ensures Canonical(cursor) <==> DecodeCursor(cursor).Some? && EncodeCursor(DecodeCursor(cursor).value) == cursor
  {
    if Canonical(cursor) {
      CanonicalEncodesBack(cursor);
    } else if DecodeCursor(cursor).Some? {
      CursorsAreCanonical(DecodeCursor(cursor).value);
    }
  }

  /** Padding signs after a whole last group are not looked at, however many there are. */
  lemma {:induction false} ExcessPaddingIsIgnored(text: Text, pads: Text)
    requires Decode(text).Some? && text != [] && text[|text| - 1] != '=' && OnlyPads(pads)
    ensures Decode(text + pads) == Decode(text)
  {
    var longer := text + pads;
    assert longer[4..] == text[4..] + pads && forall i :: 0 <= i < 4 ==> longer[i] == text[i];
    assert |text| > 4 ==> text[4..][|text| - 5] == text[|text| - 1];
    if OnlyPads(text[4..]) {
      assert text[4..] == [];
    } else {
      var i :| 0 <= i < |text[4..]| && text[4..][i] != '=';
      assert longer[4..][i] == text[4..][i];
      ExcessPaddingIsIgnored(text[4..], pads);
    }
  }

  /**
  Decoding also accepts texts no encoding yields: left-over bits, explicit padding, padding after a
  whole group, the standard alphabet.
  */
  lemma SeveralTextsReadAlike()
    ensures DecodeCursor("QQ") == DecodeCursor("QR") == DecodeCursor("QQ==") == Some([65])
    ensures DecodeCursor("QUJD") == DecodeCursor("QUJD=") == Some([65, 66, 67])
    ensures DecodeCursor("-_8") == DecodeCursor("+/8") == Some([251, 255])
    ensures DecodeCursor("QQQQQ").None? && DecodeCursor("====").None?
  {
    assert "QQ" + Padding(2) == "QQ==" && "QR" + Padding(2) == "QR==" && "QQ==" + Padding(4) == "QQ==";
    assert "QUJD" + Padding(4) == "QUJD" && "QUJD=" + Padding(5) == "QUJD" + "====";
    assert OnlyPads("QUJD"[4..]);
    ExcessPaddingIsIgnored("QUJD", "====");
    assert "-_8" + Padding(3) == "-_8=" && "+/8" + Padding(3) == "+/8=";
    assert Decode("Q===").None?;
    assert ("QQQQQ" + Padding(5))[4..] == "Q===" && !OnlyPads("Q===") by {
      assert "Q==="[0] == 'Q';
    }
  }
}
