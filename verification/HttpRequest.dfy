/**
 TinyWebServer/src/http/httprequest.cpp and referTil of util.h: the parser as it runs, with an
 offset into the raw data that the loops advance, and views into that data. It is proved
 against the grammar of HttpText.
 */
module HttpRequest {
  import opened Url
  import opened Wrappers
  import opened HeaderMap
  import opened HttpText

  /** A std::string_view into the raw data. */
  datatype View = View(lo: nat, hi: nat)

  predicate InRange(v: View, data: Bytes) {
    v.lo <= v.hi <= |data|
  }

  function Text(data: Bytes, v: View): Bytes
    requires InRange(v, data)
  {
    data[v.lo..v.hi]
  }

  /** What is left from an offset on; the offset may have been moved beyond the end. */
  function Left(data: Bytes, offset: nat): Bytes {
    if offset <= |data| then data[offset..] else []
  }

  /** referTil: advances the offset to the first character that satisfies `limit`, giving up
      at the end or after `max` characters, and refers to what it has passed. */
  method ReferTil(start: nat, src: Bytes, limit: Byte -> bool, max: nat) returns (found: bool, offset: nat, dst: View)
    requires start <= |src|
    ensures start <= offset <= |src| && dst == View(start, offset)
    ensures found <==> CutAt(src[start..], limit, max).Some?
    ensures found ==> offset < |src| && limit(src[offset])
    ensures found ==> CutAt(src[start..], limit, max) == Some(Cut(Text(src, dst), src[offset], src[offset + 1..]))
  {
    offset := start;
    var count := 0;
    dst := View(start, start);
    if src == [] {
      return false, offset, dst;
    }
    while offset < |src|
      invariant start <= offset <= |src| && count == offset - start
      invariant forall i :: start <= i < offset ==> !limit(src[i])
      invariant max > 0 ==> count <= max
    {
      if max > 0 && max <= count {
        break;
      }
      if limit(src[offset]) {
        dst := View(start, offset);
        CutIs(src, start, offset, limit, max);
        return true, offset, dst;
      }
      offset, count := offset + 1, count + 1;
    }
    CutIsNot(src, start, offset, limit, max);
    return false, offset, View(start, offset);
  }

  lemma CutIs(src: Bytes, start: nat, end: nat, limit: Byte -> bool, max: nat)
    requires start <= end < |src| && limit(src[end]) && (max > 0 ==> end - start < max)
    requires forall i :: start <= i < end ==> !limit(src[i])
    ensures CutAt(src[start..], limit, max) == Some(Cut(src[start..end], src[end], src[end + 1..]))
  {
    assert src[start..] == src[start..end] + [src[end]] + src[end + 1..];
    CutAtIff(src[start..], limit, max, Cut(src[start..end], src[end], src[end + 1..]));
  }

  lemma CutIsNot(src: Bytes, start: nat, end: nat, limit: Byte -> bool, max: nat)
    requires start <= end <= |src| && (end == |src| || (max > 0 && end - start == max))
    requires forall i :: start <= i < end ==> !limit(src[i])
    ensures CutAt(src[start..], limit, max) == None
  {
    CutPlace(src[start..], limit, max);
    assert forall k :: 0 <= k < |src| - start && (max > 0 ==> k < max) ==> !limit(src[start..][k]);
  }

  class HttpRequest {
    var isValid: bool
    var rawData: Bytes
    var verb: View
    var uri: Bytes
    var httpVersion: View
    var body: View
    var urlArguments: seq<Bytes>
    var headers: seq<Header>        // the header map, as the list that it agrees with
    var isKeepAlive: bool

    constructor ()
      ensures !isValid && rawData == [] && uri == [] && urlArguments == [] && headers == [] && isKeepAlive
      ensures verb == httpVersion == body == View(0, 0)
    {
      isValid, rawData, uri, urlArguments, headers, isKeepAlive := false, [], [], [], [], true;
      verb, httpVersion, body := View(0, 0), View(0, 0), View(0, 0);
    }

    /** The loop over the arguments behind a question mark. */
    method ParseArguments(question: nat) returns (ok: bool, offset: nat)
      requires question < |rawData|
      modifies this`urlArguments
      ensures ok <==> ParseQuery(rawData[question + 1..]).Some?
      ensures ok ==> offset < |rawData| && rawData[offset] == ' ' && question < offset
      ensures ok ==> var (query, rest) := ParseQuery(rawData[question + 1..]).value;
                urlArguments == old(urlArguments) + query && rawData[offset + 1..] == rest
    {
      ghost var data, goal := rawData, ParseQuery(rawData[question + 1..]);
      offset := question;
      ghost var taken: seq<Bytes> := [];
      assert goal.Some? ==> [] + goal.value.0 == goal.value.0;
      while true
        invariant question <= offset < |rawData| && rawData == data
        invariant urlArguments == old(urlArguments) + taken
        invariant goal == Prepended(taken, ParseQuery(rawData[offset + 1..]))
        decreases |rawData| - offset
      {
        offset := offset + 1;
        var arg;
        ok, offset, arg := ReferTil(offset, rawData, EndsArgument, 0);
        if !ok {
          return;
        }
        urlArguments := urlArguments + [Text(rawData, arg)];
        if rawData[offset] != '&' {
          assert taken + [Text(rawData, arg)] == taken + [Text(rawData, arg)] + [];
          return;
        }
        PrependTwice(taken, Text(rawData, arg), ParseQuery(rawData[offset + 1..]));
        taken := taken + [Text(rawData, arg)];
      }
    }

    method ParseRequestLine() returns (ok: bool, offset: nat)
      modifies this`verb, this`uri, this`httpVersion, this`urlArguments
      ensures ok <==> ParseLine(rawData).Some?
      ensures ok ==> var (line, rest) := ParseLine(rawData).value;
                && LineFramed(rawData, verb, httpVersion, offset)
                && Text(rawData, verb) == line.verb && Text(rawData, httpVersion) == line.version
                && uri == Unescape(line.target) && urlArguments == old(urlArguments) + line.query
                && Left(rawData, offset) == rest
    {
      ok, offset := ParseVerb();
      if !ok {
        return;
      }
      ghost var m := CutAt(rawData, IsSpace, METHOD_LIMIT).value;
      ok, offset := ParseRequestTarget(offset);
      if !ok {
        return;
      }
      ghost var target := ParseTarget(m.rest).value;
      offset := offset + 1;
      ok, offset := ParseVersion(offset);
      if ok {
        LineFrom(rawData, m, target, CutAt(target.2, IsReturn, VERSION_LIMIT).value);
      }
    }

    method ParseVerb() returns (ok: bool, offset: nat)
      modifies this`verb
      ensures ok <==> CutAt(rawData, IsSpace, METHOD_LIMIT).Some?
      ensures ok ==> var m := CutAt(rawData, IsSpace, METHOD_LIMIT).value;
                && 0 == verb.lo <= verb.hi < |rawData| && rawData[verb.hi] == ' ' && offset == verb.hi + 1
                && Text(rawData, verb) == m.text && rawData[offset..] == m.rest
    {
      assert rawData[0..] == rawData;
      ok, offset, verb := ReferTil(0, rawData, IsSpace, METHOD_LIMIT);
      offset := offset + 1;
    }

    method ParseVersion(start: nat) returns (ok: bool, offset: nat)
      requires start <= |rawData|
      modifies this`httpVersion
      ensures ok <==> CutAt(rawData[start..], IsReturn, VERSION_LIMIT).Some?
      ensures ok ==> var v := CutAt(rawData[start..], IsReturn, VERSION_LIMIT).value;
                && start == httpVersion.lo <= httpVersion.hi < |rawData| && rawData[httpVersion.hi] == '\r'
                && offset == httpVersion.hi + 2
                && Text(rawData, httpVersion) == v.text && Left(rawData, offset) == Skip(v.rest, 1)
    {
      ok, offset, httpVersion := ReferTil(start, rawData, IsReturn, VERSION_LIMIT);
      if ok {
        offset := offset + 2;
      }
    }

    /** The target, decoded, and the arguments. The character behind the slice that is decoded
        is the delimiter it was cut at. */
    method ParseRequestTarget(start: nat) returns (ok: bool, offset: nat)
      requires start <= |rawData|
      modifies this`uri, this`urlArguments
      ensures ok <==> ParseTarget(rawData[start..]).Some?
      ensures ok ==> var (target, query, rest) := ParseTarget(rawData[start..]).value;
                && start <= offset < |rawData| && rawData[offset] == ' '
                && uri == Unescape(target) && urlArguments == old(urlArguments) + query
                && rawData[offset + 1..] == rest
    {
      var slice;
      ok, offset, slice := ReferTil(start, rawData, EndsTarget, 0);
      if !ok {
        return;
      }
      uri := UriUnescape(rawData, slice.lo, slice.hi);
      if rawData[offset] == '?' {
        ok, offset := ParseArguments(offset);
      }
    }

    method ParseRequestHeaders(start: nat) returns (ok: bool, offset: nat)
      modifies this`headers
      ensures ok <==> ParseFields(Left(rawData, start)).Some?
      ensures ok ==> var (fields, end) := ParseFields(Left(rawData, start)).value;
                && start < offset && headers == Collected(old(headers), fields)
                && Left(rawData, offset) == Skip(end, 2)
    {
      ghost var data, was, goal := rawData, headers, ParseFields(Left(rawData, start));
      offset := start;
      while offset < |rawData| && rawData[offset] != '\r'
        invariant start <= offset && rawData == data
        invariant goal.None? <==> ParseFields(Left(data, offset)).None?
        invariant goal.Some? ==>
                    && goal.value.1 == ParseFields(Left(data, offset)).value.1
                    && Collected(was, goal.value.0) == Collected(headers, ParseFields(Left(data, offset)).value.0)
        decreases |rawData| - offset
      {
        ghost var at := offset;
        var item;
        ok, offset, item := ParseRequestHeader(offset);
        if !ok {
          return;
        }
        FieldShrinks(Left(data, at));
        headers := Emplaced(headers, item);
      }
      ok, offset := true, offset + 2;
    }

    /** The body of the loop over the headers. */
    method ParseRequestHeader(start: nat) returns (ok: bool, offset: nat, item: Header)
      requires start < |rawData|
      ensures ok <==> ParseField(Left(rawData, start)).Some?
      ensures ok ==> var (f, rest) := ParseField(Left(rawData, start)).value;
                start < offset && item == (f.name, f.value) && Left(rawData, offset) == rest
    {
      var name, value;
      item := ([], []);
      ok, offset, name := ReferTil(start, rawData, IsColon, 0);
      if !ok {
        return;
      }
      ok, offset, value := ParseHeaderValue(offset + 1);
      item := (Text(rawData, name), Text(rawData, value));
    }

    method ParseHeaderValue(start: nat) returns (ok: bool, offset: nat, value: View)
      requires start <= |rawData|
      ensures InRange(value, rawData)
      ensures ok <==> ParseValue(rawData[start..]).Some?
      ensures ok ==> var (_, v) := ParseValue(rawData[start..]).value;
                start < offset && Text(rawData, value) == v.text && Left(rawData, offset) == Skip(v.rest, 1)
    {
      offset := IgnoreSpaces(start);
      ok, offset, value := ReferTil(offset, rawData, IsReturn, 0);
      if ok {
        offset := offset + 2;
      }
    }

    method IgnoreSpaces(start: nat) returns (offset: nat)
      requires start <= |rawData|
      ensures offset == start + LeadingSpaces(rawData[start..])
      ensures start <= offset <= |rawData| && rawData[offset..] == rawData[start..][offset - start..]
    {
      offset := start;
      while offset < |rawData| && rawData[offset] == ' '
        invariant start <= offset <= |rawData|
        invariant LeadingSpaces(rawData[start..]) == offset - start + LeadingSpaces(rawData[offset..])
      {
        assert rawData[offset..][1..] == rawData[offset + 1..];
        offset := offset + 1;
      }
    }

    method Parse()
      modifies this`isValid, this`verb, this`uri, this`httpVersion, this`body, this`urlArguments, this`headers,
               this`isKeepAlive
      ensures rawData == [] ==> headers == old(headers) && urlArguments == old(urlArguments)
      ensures match ParseMessage(rawData)
              case None => isValid == old(isValid) && isKeepAlive == old(isKeepAlive) && body == old(body)
              case Some(m) =>
                && isValid && Framed(rawData, verb, httpVersion)
                && Text(rawData, verb) == m.line.verb && Text(rawData, httpVersion) == m.line.version
                && uri == Unescape(m.line.target) && urlArguments == old(urlArguments) + m.line.query
                && headers == Collected(old(headers), m.fields)
                && isKeepAlive == KeepsAlive(headers)
                && if m.body == [] then body == old(body)
                   else httpVersion.hi < body.lo < body.hi == |rawData| && Text(rawData, body) == m.body
    {
      if rawData == [] {
        return;
      }
      var ok, offset := ParseHead();
      if !ok {
        return;
      }
      TakeBody(offset);
      isValid := true;
      ParseKeepAlive();
    }

    /** Everything in front of the body. */
    method ParseHead() returns (ok: bool, offset: nat)
      modifies this`verb, this`uri, this`httpVersion, this`urlArguments, this`headers
      ensures ok <==> ParseMessage(rawData).Some?
      ensures ok ==> var m := ParseMessage(rawData).value;
                && Framed(rawData, verb, httpVersion) && httpVersion.hi < offset
                && Text(rawData, verb) == m.line.verb && Text(rawData, httpVersion) == m.line.version
                && uri == Unescape(m.line.target) && urlArguments == old(urlArguments) + m.line.query
                && headers == Collected(old(headers), m.fields) && Left(rawData, offset) == m.body
    {
      ok, offset := ParseRequestLine();
      if !ok {
        return;
      }
      ok, offset := ParseRequestHeaders(offset);
    }

    method TakeBody(offset: nat)
      modifies this`body
      ensures if Left(rawData, offset) == [] then body == old(body)
              else body == View(offset, |rawData|) && offset < |rawData| && Text(rawData, body) == Left(rawData, offset)
    {
      if offset < |rawData| {
        body := View(offset, |rawData|);
      }
    }

    method ParseKeepAlive()
      modifies this`isKeepAlive
      ensures isKeepAlive == KeepsAlive(headers)
    {
      var connection := Lookup(headers, CONNECTION);
      isKeepAlive := if connection.None? then true else !NocaseEqual(connection.value, CLOSE);
    }

    method Reset()
      modifies this`isValid, this`headers, this`urlArguments, this`rawData
      ensures !isValid && headers == [] && urlArguments == [] && rawData == []
    {
      isValid, headers, urlArguments, rawData := false, [], [], [];
    }
  }

  lemma LineFrom(s: Bytes, m: Cut, target: (Bytes, seq<Bytes>, Bytes), v: Cut)
    requires CutAt(s, IsSpace, METHOD_LIMIT) == Some(m) && ParseTarget(m.rest) == Some(target)
    requires CutAt(target.2, IsReturn, VERSION_LIMIT) == Some(v)
    ensures ParseLine(s) ==
            Some((Line(m.text, target.0, target.1, v.text, Skipped(v.rest, 1)), Skip(v.rest, 1)))
  {
  }

  /** The delimiters around the slices of the request line; the offset behind it may lie one
      beyond the end. */
  predicate LineFramed(data: Bytes, verb: View, version: View, offset: nat) {
    && verb.lo == 0 && verb.lo <= verb.hi < version.lo <= version.hi < |data|
    && data[verb.hi] == ' ' && data[version.lo - 1] == ' ' && data[version.hi] == '\r'
    && offset == version.hi + 2
  }

  predicate Framed(data: Bytes, verb: View, version: View) {
    LineFramed(data, verb, version, version.hi + 2)
  }

  /** The header map after the fields have been emplaced one by one. */
  function Collected(items: seq<Header>, fields: seq<Field>): seq<Header>
    decreases |fields|
  {
    if fields == [] then items else Collected(Emplaced(items, (fields[0].name, fields[0].value)), fields[1..])
  }

  predicate KeepsAlive(headers: seq<Header>) {
    match Lookup(headers, CONNECTION)
    case None => true
    case Some(value) => !NocaseEqual(value, CLOSE)
  }

  function Prepended(taken: seq<Bytes>, q: Option<(seq<Bytes>, Bytes)>): Option<(seq<Bytes>, Bytes)> {
    match q
    case None => None
    case Some((args, rest)) => Some((taken + args, rest))
  }

  lemma PrependTwice(taken: seq<Bytes>, arg: Bytes, q: Option<(seq<Bytes>, Bytes)>)
    ensures Prepended(taken, Prepended([arg], q)) == Prepended(taken + [arg], q)
  {
    if q.Some? {
      assert taken + ([arg] + q.value.0) == taken + [arg] + q.value.0;
    }
  }
}
