/**
 What a client can rely on: a request that is printed with its path escaped is taken apart
 into what went in, and of several headers with one name the first is found.
 */
module RequestTheorems {
  import opened Url
  import opened Wrappers
  import opened HeaderMap
  import opened HttpText
  import opened HttpTheorems
  import opened HttpRequest

  // ---------- the path ----------

  lemma {:induction false} EscapeEndsNoTarget(path: Bytes)
    ensures Lacks(Escape(path), EndsTarget)
  {
    if path != [] {
      EscapeEndsNoTarget(path[1..]);
    }
  }

  // ---------- the headers ----------

  predicate GoodHeader(h: Header) {
    GoodField(HeaderField(h, 1))
  }

  predicate OrdinaryFields(fields: seq<Field>) {
    forall i :: 0 <= i < |fields| ==> Ordinary(fields[i].name)
  }

  /** Emplacing the fields one by one keeps, of all that have a name, the first. */
  lemma {:induction false} CollectedLookup(items: seq<Header>, fields: seq<Field>, name: Bytes)
    requires AllOrdinary(items) && OrdinaryFields(fields) && Ordinary(name)
    ensures Lookup(Collected(items, fields), name) ==
            if Lookup(items, name).Some? then Lookup(items, name) else Lookup(Pairs(fields), name)
    decreases |fields|
  {
    if fields != [] {
      var h, rest := (fields[0].name, fields[0].value), fields[1..];
      assert Pairs(fields)[0] == h && Pairs(fields)[1..] == Pairs(rest);
      CollectedLookup(Emplaced(items, h), rest, name);
      var k := Scan(items, h.0);
      if k < |items| {
        SameNameTransitive(items[k].0, h.0, name);
      } else {
        LookupAppend(items, h, name);
      }
    }
  }

  // ---------- the request ----------

  predicate GoodRequest(verb: Bytes, query: seq<Bytes>, version: Bytes, headers: seq<Header>) {
    && |verb| < 8 && Lacks(verb, IsSpace)
    && (forall i :: 0 <= i < |query| ==> Lacks(query[i], EndsArgument))
    && |version| < 10 && Lacks(version, IsReturn)
    && (forall i :: 0 <= i < |headers| ==> GoodHeader(headers[i]) && Ordinary(headers[i].0))
  }

  /** A request as in RFC 7230, section 3; the path may hold any bytes. */
  function RequestText(verb: Bytes, path: Bytes, query: seq<Bytes>, version: Bytes, headers: seq<Header>,
                       spaces: nat, body: Bytes): Bytes {
    LineText(Line(verb, Escape(path), query, version, "\n"))
    + FieldsText(HeaderFields(headers, spaces)) + "\r\n" + body
  }

  lemma RequestRoundTrip(verb: Bytes, path: Bytes, query: seq<Bytes>, version: Bytes, headers: seq<Header>,
                         spaces: nat, body: Bytes)
    requires GoodRequest(verb, query, version, headers)
    ensures var parsed := ParseMessage(RequestText(verb, path, query, version, headers, spaces, body));
            && parsed.Some?
            && parsed.value.line.verb == verb && Unescape(parsed.value.line.target) == path
            && parsed.value.line.query == query && parsed.value.line.version == version
            && parsed.value.body == body && Pairs(parsed.value.fields) == headers
            && (forall name :: Ordinary(name) ==>
                  Lookup(Collected([], parsed.value.fields), name) == Lookup(headers, name))
            && (forall name :: Ordinary(name) && '\0' !in name ==>
                  Lookup(Collected([], parsed.value.fields), name) == FirstByText(headers, name))
  {
    var line, fields := Line(verb, Escape(path), query, version, "\n"), HeaderFields(headers, spaces);
    EscapeEndsNoTarget(path);
    UnescapeEscape(path);
    forall i | 0 <= i < |fields|
      ensures GoodField(fields[i]) && |fields[i].lf| == 1
    {
      assert GoodHeader(headers[i]);
    }
    MessageComplete(Message(line, fields, "\r\n", body));
    forall name | Ordinary(name)
      ensures Lookup(Collected([], fields), name) == Lookup(headers, name)
    {
      CollectedLookup([], fields, name);
      assert Pairs(fields) == headers;
    }
    forall name | Ordinary(name) && '\0' !in name
      ensures Lookup(headers, name) == FirstByText(headers, name)
    {
      LookupIsByText(headers, name);
    }
  }

  /** In a request whose headers have two names that differ behind a NUL, the second is looked up
      in vain: what is found is the value of the first. */
  lemma NulHidesInRequest(verb: Bytes, path: Bytes, query: seq<Bytes>, version: Bytes, value: Bytes, other: Bytes,
                          spaces: nat, body: Bytes, a: Bytes, b: Bytes)
    requires a == ['a', '\0', 'b'] && b == ['a', '\0', 'c']
    requires GoodRequest(verb, query, version, [(a, value), (b, other)])
    ensures var text := RequestText(verb, path, query, version, [(a, value), (b, other)], spaces, body);
            var parsed := ParseMessage(text);
            && parsed.Some? && Pairs(parsed.value.fields) == [(a, value), (b, other)]
            && Lookup(Collected([], parsed.value.fields), b) == Some(value)
    ensures !SameText(a, b) && FirstByText([(a, value), (b, other)], b) == Some(other)
  {
    var headers := [(a, value), (b, other)];
    RequestRoundTrip(verb, path, query, version, headers, spaces, body);
    NulHidesHeader(a, b, value, other);
    NocaseEqualIff(a, b);
    assert Scan(headers, b) == 0;
    assert headers[1..] == [(b, other)];
    assert SameText(b, b);
  }
}
