/**
 Percent-coding as in TinyWebServer/src/http/url.h. Bytes are characters below 256.
 `Escape` and `Unescape` say what the coded text is; the methods are the loops.
 */
module Url {

  type Byte = c: char | c as int < 256 witness 'a'
  type Bytes = seq<Byte>

  predicate IsAlpha(c: char) {
    'a' <= c <= 'z' || 'A' <= c <= 'Z'
  }

  predicate IsNum(c: char) {
    '0' <= c <= '9'
  }

  predicate IsHex(c: char) {
    IsNum(c) || 'a' <= c <= 'f' || 'A' <= c <= 'F'
  }

  /** The unreserved characters of RFC 3986, section 2.3. */
  predicate IsUnambiguous(c: char) {
    IsAlpha(c) || IsNum(c) || c == '-' || c == '_' || c == '.' || c == '~'
  }

  function HexToInt(hex: char): (v: int)
    ensures IsHex(hex) ==> 0 <= v < 16
  {
    if hex <= '9' then hex as int - '0' as int
    else if hex <= 'F' then hex as int - 'A' as int + 10
    else hex as int - 'a' as int + 10
  }

  predicate IsUpperHex(c: char) {
    IsNum(c) || 'A' <= c <= 'F'
  }

  /** The entry of the table of sixteen upper-case digits. */
  function Digit(v: int): Byte
    requires 0 <= v < 16
  {
    if v < 10 then ('0' as int + v) as char else ('A' as int + v - 10) as char
  }

  function EscapeByte(c: Byte): Bytes {
    if IsUnambiguous(c) then [c] else ['%', Digit(c as int / 16), Digit(c as int % 16)]
  }

  function Escape(src: Bytes): Bytes {
    if src == [] then [] else EscapeByte(src[0]) + Escape(src[1..])
  }

  /** Whether a whole escape sequence stands in front. */
  predicate StartsEscape(src: Bytes) {
    |src| >= 3 && src[0] == '%' && IsHex(src[1]) && IsHex(src[2])
  }

  function DecodePair(high: char, low: char): Byte
    requires IsHex(high) && IsHex(low)
  {
    (HexToInt(high) * 16 + HexToInt(low)) as char
  }

  /** Decoding with every bound checked. */
  function Unescape(src: Bytes): Bytes
    decreases |src|
  {
    if src == [] then []
    else if StartsEscape(src) then [DecodePair(src[1], src[2])] + Unescape(src[3..])
    else [src[0]] + Unescape(src[1..])
  }

  lemma Regrouped<T>(a: seq<T>, b: seq<T>, c: seq<T>)
    ensures (a + b) + c == a + (b + c)
  {
  }

  method UriEscape(src: Bytes) returns (ostr: Bytes)
    ensures ostr == Escape(src)
  {
    ostr := [];
    var it := 0;
    while it < |src|
      invariant it <= |src|
      invariant ostr + Escape(src[it..]) == Escape(src)
    {
      var c := src[it];
      EscapeStep(ostr, src, it);
      if IsUnambiguous(c) {
        ostr := ostr + [c];
      } else {
        ostr := ostr + ['%', Digit(c as int / 16), Digit(c as int % 16)];
      }
      it := it + 1;
    }
  }

  lemma EscapeStep(ostr: Bytes, src: Bytes, it: nat)
    requires it < |src|
    ensures ostr + Escape(src[it..]) == (ostr + EscapeByte(src[it])) + Escape(src[it + 1..])
  {
    assert src[it..][1..] == src[it + 1..];
  }

  /** The character at an index of a std::string, whose terminator may be read too. */
  function Peek(data: Bytes, i: nat): Byte
    requires i <= |data|
  {
    if i < |data| then data[i] else '\0'
  }

  /** The decoder looks ahead without checking the end of its slice. The character behind the
      slice must not be a hexadecimal digit; then nothing further is ever read, and what is
      decoded is the slice alone. */
  method UriUnescape(data: Bytes, start: nat, end: nat) returns (ostr: Bytes)
    requires start <= end <= |data| && !IsHex(Peek(data, end))
    ensures ostr == Unescape(data[start..end])
  {
    ostr := [];
    var it := start;
    ghost var goal := Unescape(data[start..end]);
    assert [] + goal == goal;
    while it != end
      invariant start <= it <= end
      invariant ostr + Unescape(data[it..end]) == goal
      decreases end - it
    {
      DecodeStep(ostr, data, it, end);
      if Peek(data, it) == '%' && IsHex(Peek(data, it + 1)) && IsHex(Peek(data, it + 2)) {
        ostr := ostr + [DecodePair(data[it + 1], data[it + 2])];
        it := it + 3;
      } else {
        ostr := ostr + [data[it]];
        it := it + 1;
      }
    }
    assert Unescape(data[end..end]) == [];
  }

  lemma DecodeStep(ostr: Bytes, data: Bytes, it: nat, end: nat)
    requires it < end <= |data| && !IsHex(Peek(data, end))
    ensures ostr + Unescape(data[it..end]) ==
            if Peek(data, it) == '%' && IsHex(Peek(data, it + 1)) && IsHex(Peek(data, it + 2))
            then (assert it + 3 <= end; (ostr + [DecodePair(data[it + 1], data[it + 2])]) + Unescape(data[it + 3..end]))
            else (ostr + [data[it]]) + Unescape(data[it + 1..end])
  {
    if Peek(data, it) == '%' && IsHex(Peek(data, it + 1)) && IsHex(Peek(data, it + 2)) {
      Regrouped(ostr, [DecodePair(data[it + 1], data[it + 2])], Unescape(data[it + 3..end]));
    } else {
      Regrouped(ostr, [data[it]], Unescape(data[it + 1..end]));
    }
  }

  // ---------- what decoding means ----------

  /** A digit of the value, in either case. */
  predicate DigitOf(c: char, v: int)
    requires 0 <= v < 16
  {
    c == "0123456789ABCDEF"[v] || c == "0123456789abcdef"[v]
  }

  predicate IsDigit(c: char) {
    exists v :: 0 <= v < 16 && DigitOf(c, v)
  }

  /** The reserved characters are all but these. */
  lemma UnreservedIff(c: Byte)
    ensures IsUnambiguous(c) <==>
            c in "ABCDEFGHIJKLMNOPQRSTUVWXYZ" || c in "abcdefghijklmnopqrstuvwxyz" || c in "0123456789-._~"
  {
  }

  lemma DigitMeans(c: char, v: int)
    requires 0 <= v < 16 && DigitOf(c, v)
    ensures IsHex(c) && HexToInt(c) == v
  {
  }

  lemma HexIsDigit(c: char)
    requires IsHex(c)
    ensures 0 <= HexToInt(c) < 16 && DigitOf(c, HexToInt(c))
  {
  }

  /** A percent sign and two digits of a byte, each in either case, are the byte ... */
  lemma EscapeMeans(c: Byte, high: Byte, low: Byte, rest: Bytes)
    requires DigitOf(high, c as int / 16) && DigitOf(low, c as int % 16)
    ensures Unescape(['%', high, low] + rest) == [c] + Unescape(rest)
  {
    DigitMeans(high, c as int / 16);
    DigitMeans(low, c as int % 16);
    var text := ['%', high, low] + rest;
    assert text[3..] == rest;
  }

  /** ... and every other character is itself. */
  lemma OtherMeans(c: Byte, rest: Bytes)
    requires c != '%' || |rest| < 2 || !IsDigit(rest[0]) || !IsDigit(rest[1])
    ensures Unescape([c] + rest) == [c] + Unescape(rest)
  {
    var text := [c] + rest;
    assert text[1..] == rest;
    if StartsEscape(text) {
      HexIsDigit(rest[0]);
      HexIsDigit(rest[1]);
    }
  }

  // ---------- properties ----------

  /** Decoding undoes encoding, for every string of bytes. */
  lemma {:induction false} UnescapeEscape(src: Bytes)
    ensures Unescape(Escape(src)) == src
  {
    if src != [] {
      UnescapeEscape(src[1..]);
      assert [src[0]] + src[1..] == src;
    }
  }

  /** Only unreserved characters and complete upper-case escapes (RFC 3986, section 2.1), and
      no escape of a character that does not need one. */
  predicate Canonical(text: Bytes)
    decreases |text|
  {
    text == [] ||
    (if text[0] == '%' then
       |text| >= 3 && IsUpperHex(text[1]) && IsUpperHex(text[2]) &&
       !IsUnambiguous(DecodePair(text[1], text[2])) && Canonical(text[3..])
     else
       IsUnambiguous(text[0]) && Canonical(text[1..]))
  }

  lemma {:induction false} EscapeCanonical(src: Bytes)
    ensures Canonical(Escape(src))
  {
    if src != [] {
      EscapeCanonical(src[1..]);
    }
  }

  lemma {:induction false} CanonicalFixed(text: Bytes)
    requires Canonical(text)
    ensures Escape(Unescape(text)) == text
    decreases |text|
  {
    if text != [] && text[0] == '%' {
      CanonicalFixed(text[3..]);
      EscapeCons(DecodePair(text[1], text[2]), Unescape(text[3..]));
      assert text == ['%', text[1], text[2]] + text[3..];
    } else if text != [] {
      CanonicalFixed(text[1..]);
      EscapeCons(text[0], Unescape(text[1..]));
      assert text == [text[0]] + text[1..];
    }
  }

  lemma EscapeCons(c: Byte, rest: Bytes)
    ensures Escape([c] + rest) == EscapeByte(c) + Escape(rest)
  {
    assert ([c] + rest)[1..] == rest;
  }

  /** Encoding undoes decoding exactly on the canonical texts ... */
  lemma EscapeUnescapeIff(text: Bytes)
    ensures Escape(Unescape(text)) == text <==> Canonical(text)
  {
    EscapeCanonical(Unescape(text));
    if Canonical(text) {
      CanonicalFixed(text);
    }
  }

  /** ... so decoding and encoding again normalizes once and for all. */
  lemma NormalizeIdempotent(text: Bytes)
    ensures var once := Escape(Unescape(text)); Escape(Unescape(once)) == once && Unescape(once) == Unescape(text)
  {
    UnescapeEscape(Unescape(text));
  }
}
