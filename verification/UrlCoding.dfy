/**
 Percent-coding (`decodeUrl` and `urlEncode` of src/tools.cpp; section 2.1 of RFC 3986). Strings are sequences of
 bytes, written as characters below 256.
 */
module UrlCoding {
  import opened Sequences

  ghost predicate IsBytes(s: string) {
    forall i :: 0 <= i < |s| ==> s[i] as int < 256
  }

  predicate IsHexDigit(c: char) {
    '0' <= c <= '9' || 'A' <= c <= 'F' || 'a' <= c <= 'f'
  }

  function HexValue(c: char): (v: nat)
    requires IsHexDigit(c)
    ensures v < 16
  {
    if c <= '9' then c as int - '0' as int
    else if c <= 'F' then c as int - 'A' as int + 10
    else c as int - 'a' as int + 10
  }

  function HexDigit(v: nat): (c: char)
    requires v < 16
    ensures IsHexDigit(c) && HexValue(c) == v
  {
    if v < 10 then ('0' as int + v) as char else ('A' as int + v - 10) as char
  }

  function CharFromHex(high: char, low: char): char
    requires IsHexDigit(high) && IsHexDigit(low)
  {
    (16 * HexValue(high) + HexValue(low)) as char
  }

  /** One pass over the text; what an escape decodes to is never looked at again. */
  function Decode(s: string): string {
    if |s| < 3 then s
    else if s[0] == '%' && IsHexDigit(s[1]) && IsHexDigit(s[2]) then [CharFromHex(s[1], s[2])] + Decode(s[3..])
    else [s[0]] + Decode(s[1..])
  }

  lemma DecodeLiteral(c: char, s: string)
    requires c != '%' || |s| < 2 || !IsHexDigit(s[0]) || !IsHexDigit(s[1])
    ensures Decode([c] + s) == [c] + Decode(s)
  {
    assert ([c] + s)[1..] == s;
  }

  lemma DecodeEscape(high: char, low: char, s: string)
    requires IsHexDigit(high) && IsHexDigit(low)
    ensures Decode(['%', high, low] + s) == [CharFromHex(high, low)] + Decode(s)
  {
    assert (['%', high, low] + s)[3..] == s;
  }

  lemma {:induction false} DecodePlain(plain: string, s: string)
    requires '%' !in plain
    ensures Decode(plain + s) == plain + Decode(s)
  {
    if plain == [] {
      assert plain + s == s;
    } else {
      assert plain + s == [plain[0]] + (plain[1..] + s);
      DecodeLiteral(plain[0], plain[1..] + s);
      DecodePlain(plain[1..], s);
      assert plain == [plain[0]] + plain[1..];
    }
  }

  // ---------- What decoding means ----------

  /** A byte as it stands in a text, or a byte written as an escape with two digits. */
  datatype Piece = Plain(c: char) | Escaped(byte: char, high: char, low: char)

  const LOWER := "0123456789abcdef"
  const UPPER := "0123456789ABCDEF"

  /** The digit of a value below 16, in either case. */
  predicate Spells(digit: char, v: nat)
    requires v < 16
  {
    digit == LOWER[v] || digit == UPPER[v]
  }

  ghost predicate IsDigitOfSome(c: char) {
    exists v: nat :: v < 16 && Spells(c, v)
  }

  function Spelling(pieces: seq<Piece>): string {
    if pieces == [] then ""
    else
      (match pieces[0]
       case Plain(c) => [c]
       case Escaped(_, high, low) => ['%', high, low]) + Spelling(pieces[1..])
  }

  function Meaning(pieces: seq<Piece>): string {
    if pieces == [] then ""
    else
      (match pieces[0]
       case Plain(c) => [c]
       case Escaped(byte, _, _) => [byte]) + Meaning(pieces[1..])
  }

  /** The digits of each escape spell its byte, and no percent sign by itself stands before two digits. */
  ghost predicate Proper(pieces: seq<Piece>) {
    pieces != [] ==>
      && Proper(pieces[1..])
      && match pieces[0]
         case Plain(c) =>
           var rest := Spelling(pieces[1..]);
           c == '%' && |rest| >= 2 ==> !IsDigitOfSome(rest[0]) || !IsDigitOfSome(rest[1])
         case Escaped(byte, high, low) =>
           byte as int < 256 && Spells(high, byte as int / 16) && Spells(low, byte as int % 16)
  }

  lemma HexDigitIff(c: char)
    ensures IsHexDigit(c) <==> IsDigitOfSome(c)
  {
    if IsHexDigit(c) {
      assert Spells(c, HexValue(c));
    }
  }

  lemma SpelledValue(c: char, v: nat)
    requires v < 16
    ensures Spells(c, v) <==> IsHexDigit(c) && HexValue(c) == v
  {
  }

  /** Each escape is its byte, whatever the case of its digits, and everything else stays. */
  lemma {:induction false} DecodeSpelling(pieces: seq<Piece>)
    requires Proper(pieces)
    ensures Decode(Spelling(pieces)) == Meaning(pieces)
  {
    if pieces != [] {
      var rest := Spelling(pieces[1..]);
      DecodeSpelling(pieces[1..]);
      hide Decode, HexValue, IsHexDigit, Spells, IsDigitOfSome;
      match pieces[0] {
        case Plain(c) =>
          if |rest| >= 2 {
            HexDigitIff(rest[0]);
            HexDigitIff(rest[1]);
          }
          DecodeLiteral(c, rest);
        case Escaped(byte, high, low) =>
          SpelledValue(high, byte as int / 16);
          SpelledValue(low, byte as int % 16);
          DecodeEscape(high, low, rest);
      }
    }
  }

  lemma FromHex(high: char, low: char)
    requires IsHexDigit(high) && IsHexDigit(low)
    ensures var c := CharFromHex(high, low) as int; c < 256 && c / 16 == HexValue(high) && c % 16 == HexValue(low)
  {
  }

  lemma ProperEscape(high: char, low: char, rest: seq<Piece>)
    requires IsHexDigit(high) && IsHexDigit(low) && Proper(rest)
    ensures var pieces := [Escaped(CharFromHex(high, low), high, low)] + rest;
            Proper(pieces) && Spelling(pieces) == ['%', high, low] + Spelling(rest)
  {
    hide HexValue, IsHexDigit, Spells, CharFromHex;
    FromHex(high, low);
    SpelledValue(high, HexValue(high));
    SpelledValue(low, HexValue(low));
    assert ([Escaped(CharFromHex(high, low), high, low)] + rest)[1..] == rest;
  }

  lemma ProperPlain(c: char, rest: seq<Piece>)
    requires Proper(rest)
    requires var s := Spelling(rest); c != '%' || |s| < 2 || !IsHexDigit(s[0]) || !IsHexDigit(s[1])
    ensures Proper([Plain(c)] + rest) && Spelling([Plain(c)] + rest) == [c] + Spelling(rest)
  {
    var s := Spelling(rest);
    assert ([Plain(c)] + rest)[1..] == rest;
    if |s| >= 2 {
      HexDigitIff(s[0]);
      HexDigitIff(s[1]);
    }
    hide IsHexDigit, IsDigitOfSome;
  }

  /** Every text is spelled by proper pieces. */
  lemma {:induction false} SpellingExists(s: string) returns (pieces: seq<Piece>)
    ensures Proper(pieces) && Spelling(pieces) == s
    decreases |s|
  {
    hide HexValue, IsHexDigit, CharFromHex;
    if s == "" {
      pieces := [];
    } else if |s| >= 3 && s[0] == '%' && IsHexDigit(s[1]) && IsHexDigit(s[2]) {
      var rest := SpellingExists(s[3..]);
      ProperEscape(s[1], s[2], rest);
      pieces := [Escaped(CharFromHex(s[1], s[2]), s[1], s[2])] + rest;
      assert s == ['%', s[1], s[2]] + s[3..];
    } else {
      var rest := SpellingExists(s[1..]);
      ProperPlain(s[0], rest);
      pieces := [Plain(s[0])] + rest;
      assert s == [s[0]] + s[1..];
    }
  }

  lemma DecodeMeaning(s: string)
    ensures forall pieces :: Proper(pieces) && Spelling(pieces) == s ==> Decode(s) == Meaning(pieces)
  {
    forall pieces | Proper(pieces) && Spelling(pieces) == s ensures Decode(s) == Meaning(pieces) {
      DecodeSpelling(pieces);
    }
  }

  /** The in-place loop computes the one-pass decoding. */
  method DecodeUrl(originalUrl: string) returns (url: string)
    ensures url == Decode(originalUrl)
    ensures forall pieces :: Proper(pieces) && Spelling(pieces) == originalUrl ==> url == Meaning(pieces)
  {
    hide Proper, Spelling, Meaning;
    DecodeMeaning(originalUrl);
    url := originalUrl;
    var pos := 0;
    while true
      invariant 0 <= pos <= |url|
      invariant Decode(originalUrl) == url[..pos] + Decode(url[pos..])
      decreases |url| - pos
    {
      var found := Find(url, '%', pos);
      SkipPlain(url, pos, found);
      if found + 2 >= |url| {
        assert url == url[..found] + url[found..];
        return;
      }
      if !IsHexDigit(url[found + 1]) || !IsHexDigit(url[found + 2]) {
        SkipPercent(url, found);
      } else {
        var c := CharFromHex(url[found + 1], url[found + 2]);
        ReplaceEscape(url, found, c);
        url := url[..found] + [c] + url[found + 3..];
      }
      pos := found + 1;
    }
  }

  lemma SkipPlain(url: string, pos: nat, found: nat)
    requires pos <= found <= |url| && '%' !in url[pos..found]
    ensures url[..pos] + Decode(url[pos..]) == url[..found] + Decode(url[found..])
  {
    assert url[pos..] == url[pos..found] + url[found..];
    DecodePlain(url[pos..found], url[found..]);
    assert url[..found] == url[..pos] + url[pos..found];
  }

  lemma SkipPercent(url: string, found: nat)
    requires found + 2 < |url| && (!IsHexDigit(url[found + 1]) || !IsHexDigit(url[found + 2]))
    ensures url[..found] + Decode(url[found..]) == url[..found + 1] + Decode(url[found + 1..])
  {
    assert url[found..] == [url[found]] + url[found + 1..];
    DecodeLiteral(url[found], url[found + 1..]);
    assert url[..found + 1] == url[..found] + [url[found]];
  }

  lemma ReplaceEscape(url: string, found: nat, c: char)
    requires found + 2 < |url| && url[found] == '%' && IsHexDigit(url[found + 1]) && IsHexDigit(url[found + 2])
    requires c == CharFromHex(url[found + 1], url[found + 2])
    ensures var url' := url[..found] + [c] + url[found + 3..];
            url[..found] + Decode(url[found..]) == url'[..found + 1] + Decode(url'[found + 1..])
  {
    assert url[found..] == ['%', url[found + 1], url[found + 2]] + url[found + 3..];
    DecodeEscape(url[found + 1], url[found + 2], url[found + 3..]);
  }

  // ---------- Encoding ----------

  predicate IsAsciiAlphaNumeric(c: char) {
    'A' <= c <= 'Z' || 'a' <= c <= 'z' || '0' <= c <= '9'
  }

  /** The table of reserved characters has ten places and nine initialisers: the tenth is the NUL character. */
  predicate IsReservedUrlChar(c: char) {
    c in {';', ',', '?', ':', '@', '&', '=', '+', '$', '\0'}
  }

  predicate NeedsEscape(c: char, encodeReserved: bool) {
    if IsAsciiAlphaNumeric(c) then false
    else if IsReservedUrlChar(c) then encodeReserved
    else c !in {'-', '_', '.', '!', '~', '*', '\'', '(', ')', '/'}
  }

  /** `%` and the byte in hexadecimal, padded on the left to two places with a space. */
  function Escape(c: char): string
    requires c as int < 256
  {
    var v := c as int;
    ['%', if v < 16 then ' ' else HexDigit(v / 16), HexDigit(v % 16)]
  }

  function EncodeChar(c: char, encodeReserved: bool): string
    requires c as int < 256
  {
    if NeedsEscape(c, encodeReserved) then Escape(c) else [c]
  }

  function Encode(s: string, encodeReserved: bool): string
    requires IsBytes(s)
  {
    if s == [] then [] else EncodeChar(s[0], encodeReserved) + Encode(s[1..], encodeReserved)
  }

  lemma EncodeStep(c: char, s: string, encodeReserved: bool)
    requires IsBytes([c] + s)
    ensures IsBytes(s) && c as int < 256
    ensures Encode([c] + s, encodeReserved) == EncodeChar(c, encodeReserved) + Encode(s, encodeReserved)
  {
    assert ([c] + s)[0] == c && ([c] + s)[1..] == s;
    assert forall i :: 0 <= i < |s| ==> s[i] == ([c] + s)[i + 1];
  }

  lemma BytesConcat(a: string, b: string)
    ensures IsBytes(a + b) <==> IsBytes(a) && IsBytes(b)
  {
    assert forall i :: 0 <= i < |a| ==> (a + b)[i] == a[i];
    assert forall i :: 0 <= i < |b| ==> (a + b)[|a| + i] == b[i];
  }

  lemma NothingEncoded(encodeReserved: bool)
    ensures IsBytes("") && Encode("", encodeReserved) == ""
  {
  }

  /** Each byte is encoded by itself. */
  lemma {:induction false} EncodeConcat(a: string, b: string, encodeReserved: bool)
    requires IsBytes(a) && IsBytes(b)
    ensures IsBytes(a + b)
    ensures Encode(a + b, encodeReserved) == Encode(a, encodeReserved) + Encode(b, encodeReserved)
    ensures |a| == 1 ==> Encode(a, encodeReserved) == EncodeChar(a[0], encodeReserved)
  {
    hide *;
    NothingEncoded(encodeReserved);
    BytesConcat(a, b);
    if a == "" {
      assert a + b == b;
    } else {
      var first, rest := a[0], a[1..];
      assert a == [first] + rest && a + b == [first] + (rest + b);
      EncodeStep(first, rest, encodeReserved);
      BytesConcat(rest, b);
      EncodeConcat(rest, b, encodeReserved);
      EncodeStep(first, rest + b, encodeReserved);
    }
  }

  lemma EncodeAppend(s: string, c: char, encodeReserved: bool)
    requires IsBytes(s) && c as int < 256
    ensures IsBytes(s + [c])
    ensures Encode(s + [c], encodeReserved) == Encode(s, encodeReserved) + EncodeChar(c, encodeReserved)
  {
    assert IsBytes([c]);
    EncodeConcat(s, [c], encodeReserved);
  }

  method UrlEncode(value: string, encodeReserved: bool) returns (os: string)
    requires IsBytes(value)
    ensures os == Encode(value, encodeReserved)
  {
    os := "";
    for i := 0 to |value|
      invariant os == Encode(value[..i], encodeReserved)
    {
      assert value[..i + 1] == value[..i] + [value[i]];
      EncodeAppend(value[..i], value[i], encodeReserved);
      if !NeedsEscape(value[i], encodeReserved) {
        os := os + [value[i]];
      } else {
        os := os + Escape(value[i]);
      }
    }
    assert value[..|value|] == value;
  }

  /** Which bytes stay, and what the others become. */
  lemma EscapedIff(c: char, encodeReserved: bool)
    requires c as int < 256
    ensures EncodeChar(c, encodeReserved)
            == if || 'A' <= c <= 'Z' || 'a' <= c <= 'z' || '0' <= c <= '9'
                  || c in ['-', '_', '.', '!', '~', '*', '\'', '(', ')', '/']
                  || (!encodeReserved && c in [';', ',', '?', ':', '@', '&', '=', '+', '$', '\0'])
               then [c]
               else ['%', if c as int < 16 then ' ' else UPPER[c as int / 16], UPPER[c as int % 16]]
  {
    if c as int >= 16 {
      SpelledUpper(c as int / 16);
    }
    SpelledUpper(c as int % 16);
    hide HexDigit;
  }

  lemma SpelledUpper(v: nat)
    requires v < 16
    ensures HexDigit(v) == UPPER[v]
  {
  }

  // ---------- Round trip ----------

  /** The byte survives encoding: its escape, if it gets one, has two digits. */
  predicate Survives(c: char, encodeReserved: bool) {
    c as int >= 16 || (c == '\0' && !encodeReserved)
  }

  lemma EscapedByte(c: char)
    requires 16 <= c as int < 256
    ensures Escape(c) == ['%', HexDigit(c as int / 16), HexDigit(c as int % 16)]
    ensures CharFromHex(HexDigit(c as int / 16), HexDigit(c as int % 16)) == c
  {
  }

  lemma DecodeSpaced(c: char, rest: string)
    requires c as int < 16
    ensures Decode(Escape(c) + rest) == Escape(c) + Decode(rest)
  {
    var tail := [' ', HexDigit(c as int % 16)];
    assert Escape(c) == ['%'] + tail;
    hide HexDigit;
    assert Escape(c) + rest == ['%'] + (tail + rest);
    DecodeLiteral('%', tail + rest);
    DecodePlain(tail, rest);
  }

  lemma DecodeEncodedChar(c: char, rest: string, encodeReserved: bool)
    requires c as int < 256
    ensures var decoded := if Survives(c, encodeReserved) then [c] else Escape(c);
            Decode(EncodeChar(c, encodeReserved) + rest) == decoded + Decode(rest)
  {
    hide Decode, HexDigit, HexValue, CharFromHex, Escape;
    if !NeedsEscape(c, encodeReserved) {
      DecodePlain([c], rest);
    } else if c as int >= 16 {
      EscapedByte(c);
      DecodeEscape(HexDigit(c as int / 16), HexDigit(c as int % 16), rest);
    } else {
      DecodeSpaced(c, rest);
    }
  }

  lemma {:induction false} DecodedLength(s: string, encodeReserved: bool)
    requires IsBytes(s)
    ensures |Decode(Encode(s, encodeReserved))| >= |s|
    ensures Decode(Encode(s, encodeReserved)) == s <==> |Decode(Encode(s, encodeReserved))| == |s|
    ensures |Decode(Encode(s, encodeReserved))| == |s| <==> forall i :: 0 <= i < |s| ==> Survives(s[i], encodeReserved)
  {
    if s != [] {
      DecodedLength(s[1..], encodeReserved);
      DecodeEncodedChar(s[0], Encode(s[1..], encodeReserved), encodeReserved);
      var rest := Decode(Encode(s[1..], encodeReserved));
      assert Survives(s[0], encodeReserved) ==> Decode(Encode(s, encodeReserved)) == [s[0]] + rest;
      assert [s[0]] + rest == s <==> rest == s[1..] by {
        assert ([s[0]] + rest)[1..] == rest;
        assert [s[0]] + s[1..] == s;
      }
      assert (forall i :: 0 <= i < |s| ==> Survives(s[i], encodeReserved))
        <==> (&& Survives(s[0], encodeReserved)
              && forall i :: 0 <= i < |s[1..]| ==> Survives(s[1..][i], encodeReserved)) by {
        assert forall i :: 0 < i < |s| ==> s[i] == s[1..][i - 1];
      }
    }
  }

  /** Decoding undoes encoding exactly for the byte strings all of whose bytes survive: no byte below 16, except NUL
      when reserved characters are left alone. */
  lemma RoundTripIff(s: string, encodeReserved: bool)
    requires IsBytes(s)
    ensures Decode(Encode(s, encodeReserved)) == s
            <==> forall c :: c in s ==> c as int >= 16 || (c == '\0' && !encodeReserved)
  {
    DecodedLength(s, encodeReserved);
    if forall i :: 0 <= i < |s| ==> Survives(s[i], encodeReserved) {
    } else {
      var i :| 0 <= i < |s| && !Survives(s[i], encodeReserved);
      assert s[i] in s;
    }
  }

  /** A byte that does not survive: the escape of a tab is "% 9", which is left as it is. */
  lemma TabIsNotDecoded(encodeReserved: bool)
    ensures Encode("\t", encodeReserved) == "% 9"
    ensures Decode("% 9") == "% 9"
  {
    assert "\t"[1..] == "";
    assert Escape('\t') == "% 9";
    DecodeLiteral('9', "");
    assert "% 9"[1..] == " 9" && " 9"[1..] == "9";
  }
}
