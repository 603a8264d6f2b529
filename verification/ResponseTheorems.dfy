/**
 What arrives: a response that is read with the parser for header fields gives back the state,
 the headers and the body, whatever the order in which the headers were written. It does so
 exactly when no text contains what would end it.
 */
module ResponseTheorems {
  import opened Url
  import opened Wrappers
  import opened HeaderMap
  import opened HttpText
  import opened HttpTheorems
  import opened HttpRequest
  import opened RequestTheorems
  import opened Decimal
  import opened Ranges
  import opened HttpResponse

  datatype Received = Received(code: Bytes, reason: Bytes, fields: seq<Field>, body: Bytes)

  function ReadFields(code: Bytes, reason: Bytes, s: Bytes): Option<Received> {
    match ParseFields(s)
    case None => None
    case Some((fields, end)) => Some(Received(code, reason, fields, Skip(end, 2)))
  }

  function ReadResponse(s: Bytes): Option<Received> {
    match Behind("HTTP/1.1 ", s)
    case None => None
    case Some(rest) =>
      match CutAt(rest, IsSpace, 0)
      case None => None
      case Some(code) =>
        match CutAt(code.rest, IsReturn, 0)
        case None => None
        case Some(reason) => ReadFields(code.text, reason.text, Skip(reason.rest, 1))
  }

  /** What stands behind the state. */
  function HeadersAndBody(date: Bytes, order: seq<Header>, body: Bytes): Bytes {
    FieldsText(HeaderFields(Printed(date, order), 1)) + ("\r\n" + body)
  }

  lemma ReadStatus(state: HttpState, more: Bytes)
    requires Lacks(state.text, IsReturn)
    ensures ReadResponse(StatusText(state) + more) == ReadFields(PrintInt(state.code), state.text, more)
  {
    var fromReason := state.text + ['\r'] + (['\n'] + more);
    var fromCode := PrintInt(state.code) + [' '] + fromReason;
    assert StatusText(state) + more == "HTTP/1.1 " + fromCode;
    CutText(PrintInt(state.code), ' ', fromReason, IsSpace, 0);
    CutText(state.text, '\r', ['\n'] + more, IsReturn, 0);
    assert (['\n'] + more)[1..] == more;
  }

  lemma StatusMisread(state: HttpState, more: Bytes)
    requires !Lacks(state.text, IsReturn)
    ensures ReadResponse(StatusText(state) + more).Some? ==>
              ReadResponse(StatusText(state) + more).value.reason != state.text
  {
    var fromReason := state.text + ['\r'] + (['\n'] + more);
    var fromCode := PrintInt(state.code) + [' '] + fromReason;
    assert StatusText(state) + more == "HTTP/1.1 " + fromCode;
    CutText(PrintInt(state.code), ' ', fromReason, IsSpace, 0);
    var cut := CutAt(fromReason, IsReturn, 0);
    if cut.Some? {
      CutAtIff(fromReason, IsReturn, 0, cut.value);
    }
  }

  predicate GoodResponse(state: HttpState, date: Bytes, order: seq<Header>) {
    && Lacks(state.text, IsReturn)
    && forall i :: 0 <= i < |order| + 2 ==> GoodHeader(Printed(date, order)[i])
  }

  lemma GoodPrinted(headers: seq<Header>, end: Bytes)
    requires end != [] && end[0] == '\r'
    ensures GoodFields(HeaderFields(headers, 1), end) <==> forall i :: 0 <= i < |headers| ==> GoodHeader(headers[i])
  {
    var fields := HeaderFields(headers, 1);
    assert forall i :: 0 <= i < |headers| ==> fields[i] == HeaderField(headers[i], 1);
    if GoodFields(fields, end) {
      forall i | 0 <= i < |headers|
        ensures GoodHeader(headers[i])
      {
        assert GoodField(fields[i]);
      }
    }
  }

  lemma SameRest(front: Bytes, a: Bytes, b: Bytes)
    requires front + a == front + b
    ensures a == b
  {
    assert a == (front + a)[|front|..] && b == (front + b)[|front|..];
  }

  lemma FieldsReadBack(fields: seq<Field>, end: Bytes)
    requires ParseFields(FieldsText(fields) + end).Some? && ParseFields(FieldsText(fields) + end).value.0 == fields
    ensures GoodFields(fields, end)
  {
    FieldsSound(FieldsText(fields) + end);
    SameRest(FieldsText(fields), end, ParseFields(FieldsText(fields) + end).value.1);
  }

  /** The printer and the reader agree exactly when no text contains what would end it. */
  lemma ResponseReadIff(state: HttpState, date: Bytes, order: seq<Header>, body: Bytes)
    ensures ReadResponse(ResponseText(state, date, order, body)) ==
            Some(Received(PrintInt(state.code), state.text, HeaderFields(Printed(date, order), 1), body)) <==>
            GoodResponse(state, date, order)
  {
    var fields, end := HeaderFields(Printed(date, order), 1), "\r\n" + body;
    var more := HeadersAndBody(date, order, body);
    GoodPrinted(Printed(date, order), end);
    assert end[2..] == body;
    if !Lacks(state.text, IsReturn) {
      StatusMisread(state, more);
    } else {
      ReadStatus(state, more);
      if GoodResponse(state, date, order) {
        FieldsComplete(fields, end);
      } else {
        var parsed := ParseFields(more);
        if parsed.Some? && parsed.value.0 == fields {
          FieldsReadBack(fields, end);
        }
      }
    }
  }

  // ---------- the headers as a client looks them up ----------

  lemma LookupCons(h: Header, rest: seq<Header>, name: Bytes)
    ensures Lookup([h] + rest, name) == if NocaseEqual(h.0, name) then Some(h.1) else Lookup(rest, name)
  {
    assert ([h] + rest)[1..] == rest;
  }

  /** Collected as the parser does, the printed headers are those in force, except that the date
      and the server of the printer come first. */
  lemma PrintedHeaders(updates: seq<Update>, order: seq<Header>, date: Bytes, name: Bytes)
    requires OrdinaryUpdates(updates) && multiset(order) == multiset(RunList(updates)) && Ordinary(name)
    ensures Lookup(Collected([], HeaderFields(Printed(date, order), 1)), name) ==
            if NocaseEqual(DATE, name) then Some(date)
            else if NocaseEqual(SERVER, name) then Some(SERVER_NAME)
            else InForce(updates, name)
  {
    var first: Header, second: Header := (DATE, date), (SERVER, SERVER_NAME);
    FoundInOrder(updates, order, name);
    PrintedArrives(RunList(updates), order, first, second, name);
    assert Printed(date, order) == [first] + ([second] + order);
  }

  lemma FoundInOrder(updates: seq<Update>, order: seq<Header>, name: Bytes)
    requires OrdinaryUpdates(updates) && multiset(order) == multiset(RunList(updates)) && Ordinary(name)
    ensures AllOrdinary(RunList(updates)) && Lookup(order, name) == InForce(updates, name)
  {
    RunDistinct(updates);
    RunLookup(updates, name);
    LookupInAnyOrder(RunList(updates), order, name);
  }

  lemma PrintedArrives(headers: seq<Header>, order: seq<Header>, first: Header, second: Header, name: Bytes)
    requires AllOrdinary(headers) && multiset(order) == multiset(headers)
    requires Ordinary(first.0) && Ordinary(second.0) && Ordinary(name)
    ensures var printed := [first] + ([second] + order);
            Lookup(Collected([], HeaderFields(printed, 1)), name) ==
            if NocaseEqual(first.0, name) then Some(first.1)
            else if NocaseEqual(second.0, name) then Some(second.1)
            else Lookup(order, name)
  {
    var printed := [first] + ([second] + order);
    var fields := HeaderFields(printed, 1);
    forall i | 0 <= i < |order|
      ensures Ordinary(order[i].0)
    {
      assert order[i] in multiset(headers);
    }
    assert Pairs(fields) == printed;
    CollectedLookup([], fields, name);
    LookupCons(first, [second] + order, name);
    LookupCons(second, order, name);
  }

  predicate GoodUpdates(updates: seq<Update>) {
    forall i :: 0 <= i < |updates| ==> GoodHeader(updates[i].header) && Ordinary(updates[i].header.0)
  }

  predicate AllGood(items: seq<Header>) {
    forall i :: 0 <= i < |items| ==> GoodHeader(items[i])
  }

  lemma {:induction false} RunGood(updates: seq<Update>)
    requires GoodUpdates(updates)
    ensures AllGood(RunList(updates)) && OrdinaryUpdates(updates)
  {
    if updates != [] {
      var last := |updates| - 1;
      RunGood(updates[..last]);
    }
  }

  lemma AllPrintedGood(updates: seq<Update>, order: seq<Header>, date: Bytes, server: Header)
    requires GoodUpdates(updates) && multiset(order) == multiset(RunList(updates))
    requires GoodHeader((DATE, date)) && server == (SERVER, SERVER_NAME) && GoodHeader(server)
    ensures forall i :: 0 <= i < |order| + 2 ==> GoodHeader(Printed(date, order)[i])
  {
    RunGood(updates);
    var printed := Printed(date, order);
    forall i | 0 <= i < |printed|
      ensures GoodHeader(printed[i])
    {
      if i >= 2 {
        assert printed[i] == order[i - 2];
        assert order[i - 2] in multiset(RunList(updates));
      }
    }
  }

  /** Whatever has been inserted and assigned, in whichever order the map is written: what a
      client reads from the response is its state, its body and the headers in force, except
      that the date and the server of the printer come first. */
  lemma HeadersArrive(updates: seq<Update>, order: seq<Header>, state: HttpState, date: Bytes, body: Bytes, name: Bytes)
    requires GoodUpdates(updates) && multiset(order) == multiset(RunList(updates)) && Ordinary(name)
    requires Lacks(state.text, IsReturn) && GoodHeader((DATE, date))
    ensures var received := ReadResponse(ResponseText(state, date, order, body));
            && received.Some? && received.value.code == PrintInt(state.code) && received.value.reason == state.text
            && received.value.body == body
            && Lookup(Collected([], received.value.fields), name) ==
               if NocaseEqual(DATE, name) then Some(date)
               else if NocaseEqual(SERVER, name) then Some(SERVER_NAME)
               else InForce(updates, name)
  {
    AllPrintedGood(updates, order, date, (SERVER, SERVER_NAME));
    ResponseReadIff(state, date, order, body);
    RunGood(updates);
    PrintedHeaders(updates, order, date, name);
  }

  /** A client that reads the response like the server reads requests draws the same conclusion
      about the connection. */
  lemma KeepAliveArrives(updates: seq<Update>, order: seq<Header>, state: HttpState, date: Bytes, body: Bytes,
                         keepAlive: bool)
    requires GoodUpdates(updates) && multiset(order) == multiset(RunList(updates))
    requires Lacks(state.text, IsReturn) && GoodHeader((DATE, date))
    requires InForce(updates, CONNECTION) == Some(ConnectionText(keepAlive))
    ensures var received := ReadResponse(ResponseText(state, date, order, body));
            received.Some? && KeepsAlive(Collected([], received.value.fields)) == keepAlive
  {
    HeadersArrive(updates, order, state, date, body, CONNECTION);
  }
}
