/**
 Byte ranges: parseRange of TinyWebServer/src/http/httprequest.cpp and replyRange of
 TinyWebServer/src/http/httpresponse.cpp.
 */
module Ranges {
  import opened Url
  import opened Wrappers
  import opened HttpText
  import opened HttpTheorems
  import opened Decimal

  const SIZE_RANGE: nat := 0x1_0000_0000_0000_0000     // of a size_t

  /** A size_t. */
  predicate IsSize(n: nat) {
    n < SIZE_RANGE
  }

  /** Sizes wrap around. */
  function SizeMinus(a: nat, b: nat): (r: nat)
    requires IsSize(a) && IsSize(b)
    ensures IsSize(r) && r == if a >= b then a - b else a - b + SIZE_RANGE
  {
    (a - b) % SIZE_RANGE
  }

  function SizePlus(a: nat, b: nat): (r: nat)
    requires IsSize(a) && IsSize(b)
    ensures IsSize(r) && r == if a + b < SIZE_RANGE then a + b else a + b - SIZE_RANGE
  {
    (a + b) % SIZE_RANGE
  }

  // ---------- reading the request ----------

  predicate IsDash(c: Byte) { c == '-' }
  predicate IsSlash(c: Byte) { c == '/' }

  /** What stands behind a prefix. */
  function Behind(prefix: Bytes, s: Bytes): Option<Bytes> {
    if |prefix| <= |s| && s[..|prefix|] == prefix then Some(s[|prefix|..]) else None
  }

  /** The two groups of the expression bytes=(\d+)-(\d*), which has to match everything. */
  function MatchRange(s: Bytes): Option<(Bytes, Bytes)> {
    match Behind("bytes=", s)
    case None => None
    case Some(rest) =>
      match CutAt(rest, IsDash, 0)
      case None => None
      case Some(c) =>
        if c.text != [] && AllDigits(c.text) && AllDigits(c.rest) then Some((c.text, c.rest)) else None
  }

  lemma MatchRangeIff(s: Bytes, first: Bytes, second: Bytes)
    ensures MatchRange(s) == Some((first, second)) <==>
            s == "bytes=" + (first + "-" + second) && first != [] && AllDigits(first) && AllDigits(second)
  {
    if AllDigits(first) {
      assert Lacks(first, IsDash);
      CutText(first, '-', second, IsDash, 0);
    }
    if MatchRange(s) == Some((first, second)) {
      var behind := Behind("bytes=", s).value;
      CutAtIff(behind, IsDash, 0, CutAt(behind, IsDash, 0).value);
    }
  }

  /** The pair that was asked for, with 0 for what is missing; None when a number does not fit,
      which std::stoul reports by an exception. */
  function RangeAsked(range: Bytes): Option<(nat, nat)> {
    match MatchRange(range)
    case None => Some((0, 0))
    case Some((first, second)) =>
      if IsSize(Value(first)) && IsSize(Value(second)) then Some((Value(first), Value(second))) else None
  }

  method ParseRange(range: Bytes) returns (asked: Option<(nat, nat)>)
    ensures asked == RangeAsked(range)
  {
    var start, end := 0, 0;
    var results := MatchRange(range);
    if results.Some? {
      var num := results.value.0;
      if num != [] {
        if !IsSize(Value(num)) {
          return None;
        }
        start := Value(num);
      }
      num := results.value.1;
      if num != [] {
        if !IsSize(Value(num)) {
          return None;
        }
        end := Value(num);
      }
    }
    return Some((start, end));
  }

  // ---------- the reply ----------

  datatype Slice = Slice(offset: nat, count: nat)

  /** The slice that is served for a pair. */
  function Served(first: nat, second: nat, total: nat): Slice
    requires total > 0
  {
    if first >= total || second >= total then Slice(0, total)
    else if second <= first then Slice(first, total - first)
    else Slice(first, second - first + 1)
  }

  /** What is sent for a pair; of an empty file nothing, but as a part all the same. */
  function Replied(asked: (nat, nat), total: nat): Slice {
    if total == 0 then Slice(0, 0) else Served(asked.0, asked.1, total)
  }

  function RangeText(first: nat, last: nat, total: nat): Bytes {
    "bytes " + (Print(first) + "-" + (Print(last) + "/" + Print(total)))
  }

  /** Of an empty file the last byte is one in front of the first, as a size_t. */
  function Announcement(s: Slice, total: nat): Bytes {
    RangeText(s.offset, if s.count > 0 then s.offset + s.count - 1 else SIZE_RANGE - 1, total)
  }

  /** Reading a Content-Range, as in RFC 7233, section 4.2. */
  function ReadRange(s: Bytes): Option<(nat, nat, nat)> {
    match Behind("bytes ", s)
    case None => None
    case Some(rest) =>
      match CutAt(rest, IsDash, 0)
      case None => None
      case Some(a) =>
        match CutAt(a.rest, IsSlash, 0)
        case None => None
        case Some(b) =>
          if AllDigits(a.text) && AllDigits(b.text) && AllDigits(b.rest)
          then Some((Value(a.text), Value(b.text), Value(b.rest))) else None
  }

  lemma ReadRangeText(first: nat, last: nat, total: nat)
    ensures ReadRange(RangeText(first, last, total)) == Some((first, last, total))
  {
    var behind := Print(last) + "/" + Print(total);
    assert Lacks(Print(first), IsDash) && Lacks(Print(last), IsSlash);
    CutText(Print(first), '-', behind, IsDash, 0);
    CutText(Print(last), '/', Print(total), IsSlash, 0);
    ValuePrint(first);
    ValuePrint(last);
    ValuePrint(total);
  }

  /** The text that goes with a slice tells its first byte, its last byte and the whole size. */
  lemma ReadAnnouncement(s: Slice, total: nat)
    requires s.count > 0
    ensures ReadRange(Announcement(s, total)) == Some((s.offset, s.offset + s.count - 1, total))
  {
    ReadRangeText(s.offset, s.offset + s.count - 1, total);
  }

  /** replyRange: the arithmetic is that of size_t, which matters for an empty file only. */
  method ReplyRange(first: nat, second: nat, total: nat) returns (text: Bytes, offset: nat, count: nat)
    requires IsSize(first) && IsSize(second) && IsSize(total)
    ensures Slice(offset, count) == Replied((first, second), total)
    ensures text == Announcement(Slice(offset, count), total)
  {
    var a, b := first, second;
    if a >= total || b >= total {
      a, b := 0, SizeMinus(total, 1);
    } else if b <= a {
      b := SizeMinus(total, 1);
    }
    offset := a;
    count := SizePlus(SizeMinus(b, a), 1);
    text := RangeText(a, b, total);
  }

  /** Whatever is asked for, the slice lies within the file and is not empty. */
  lemma ServedWithin(first: nat, second: nat, total: nat)
    requires total > 0
    ensures var s := Served(first, second, total);
            s.offset < total && s.count >= 1 && s.offset + s.count <= total
  {
  }

  // ---------- what a client means ----------

  /** A byte-range request of RFC 7233, section 2.1: from one position to another or to the end,
      or the last so many bytes. */
  datatype Ask = From(first: nat, last: Option<nat>) | Suffix(size: nat)

  function AskText(ask: Ask): Bytes {
    match ask
    case From(first, last) => "bytes=" + (Print(first) + "-" + if last.Some? then Print(last.value) else [])
    case Suffix(size) => "bytes=" + ("-" + Print(size))
  }

  /** The slice that such a request means; None when nothing in the file satisfies it, so that
      no part of the file answers it. */
  function Meant(ask: Ask, total: nat): Option<Slice> {
    match ask
    case From(first, last) =>
      if first >= total then None
      else if last.None? then Some(Slice(first, total - first))
      else if last.value < first then None
      else Some(Slice(first, (if last.value < total then last.value else total - 1) - first + 1))
    case Suffix(size) =>
      if size == 0 || total == 0 then None
      else if size < total then Some(Slice(total - size, size))
      else Some(Slice(0, total))
  }

  /** Which requests are answered as they are meant. From a start within the file: the end is
      open, or behind the start and within the file, or both are one position and that is the
      last, or all of the file is covered. A suffix: it covers all of the file. */
  predicate Honoured(ask: Ask, total: nat) {
    match ask
    case From(first, last) =>
      && first < total
      && (last.Some? ==> if last.value < total then first < last.value || first == last.value == total - 1
                         else first == 0)
    case Suffix(size) => 0 < total <= size
  }

  /** A number that does not fit into 64 bits, for which reading the request throws. */
  predicate TooBig(ask: Ask) {
    ask.From? && (Wide(ask.first) || (ask.last.Some? && Wide(ask.last.value)))
  }

  predicate Wide(n: nat) {
    n > 0xFFFF_FFFF_FFFF_FFFF
  }

  /** From the text of any byte-range request to the slice that goes out. */
  lemma ServedIff(ask: Ask, total: nat)
    ensures RangeAsked(AskText(ask)).None? <==> TooBig(ask)
    ensures !TooBig(ask) ==>
              (Some(Replied(RangeAsked(AskText(ask)).value, total)) == Meant(ask, total) <==> Honoured(ask, total))
  {
    match ask
    case From(first, last) => AskedFrom(first, last);
    case Suffix(size) => AskedSuffix(size);
  }

  lemma AskedFrom(first: nat, last: Option<nat>)
    ensures RangeAsked(AskText(From(first, last))) ==
            if TooBig(From(first, last)) then None else Some((first, if last.Some? then last.value else 0))
  {
    var second := if last.Some? then Print(last.value) else [];
    MatchRangeIff(AskText(From(first, last)), Print(first), second);
    ValuePrint(first);
    if last.Some? {
      ValuePrint(last.value);
    }
  }

  /** A suffix does not match the expression, which wants a digit in front of the dash. */
  lemma AskedSuffix(size: nat)
    ensures RangeAsked(AskText(Suffix(size))) == Some((0, 0))
  {
    var rest := "-" + Print(size);
    CutText([], '-', Print(size), IsDash, 0);
    assert [] + ['-'] + Print(size) == rest;
  }

  /** The last bytes of a file are answered with all of it, unless they are all of it. */
  lemma SuffixOverserved(size: nat, total: nat)
    requires 0 < size < total
    ensures Meant(Suffix(size), total) == Some(Slice(total - size, size))
    ensures var asked := RangeAsked(AskText(Suffix(size)));
            asked.Some? && Replied(asked.value, total) == Slice(0, total)
  {
    AskedSuffix(size);
  }

  /** A start behind the end is not refused but answered with all of the file. */
  lemma UnsatisfiableServed(first: nat, last: Option<nat>, total: nat)
    requires total > 0 && first >= total && !TooBig(From(first, last))
    ensures Meant(From(first, last), total) == None
    ensures var asked := RangeAsked(AskText(From(first, last)));
            asked.Some? && Replied(asked.value, total) == Slice(0, total)
  {
    AskedFrom(first, last);
  }

  /** A single byte in front of the last is answered with all the rest of the file. */
  lemma SingleByteOverserved(k: nat, total: nat)
    requires k < total - 1
    ensures Meant(From(k, Some(k)), total) == Some(Slice(k, 1)) && Served(k, k, total) == Slice(k, total - k)
    ensures Served(k, k, total) != Slice(k, 1)
  {
  }
}
