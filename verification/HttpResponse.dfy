/**
 TinyWebServer/src/http/httpresponse.cpp: what a handler sets, and the text that is sent. The
 header map is the association list that the hash table agrees with; the order in which the
 table is iterated is an input, as is the date.
 */
module HttpResponse {
  import opened Url
  import opened Wrappers
  import opened HeaderMap
  import opened HttpText
  import opened Decimal
  import opened Ranges

  datatype Body = StringBody(text: Bytes) | FileBody(file: int, offset: nat, count: nat)

  datatype HttpState = HttpState(code: int, text: Bytes)

  const SUCCESS: HttpState := HttpState(200, "OK")

  const DATE: Bytes := "Date"
  const SERVER: Bytes := "Server"
  const SERVER_NAME: Bytes := "TinyWebServer"
  const CONTENT_LENGTH: Bytes := "Content-Length"
  const CONTENT_RANGE: Bytes := "Content-Range"
  const CONTENT_TYPE: Bytes := "Content-Type"
  const ACCEPT_RANGES: Bytes := "Accept-Ranges"
  const LAST_MODIFIED: Bytes := "Last-Modified"
  const CACHE_CONTROL: Bytes := "Cache-Control"
  const BYTES: Bytes := "bytes"
  const CACHED: Bytes := "max-age=0, public"
  const PUBLIC: Bytes := "public"
  const PARTIAL: HttpState := HttpState(206, "Partial Content")
  const NOT_MODIFIED: HttpState := HttpState(304, "Not Modified")

  /** All that a handler can change. */
  datatype Reply = Reply(httpState: HttpState, headers: seq<Header>, body: Body, isKeepAlive: bool)

  const PRISTINE: Reply := Reply(SUCCESS, [], StringBody([]), true)

  /** A file as the shared pool hands it out. */
  datatype FileInfo = FileInfo(file: int, size: nat, contentType: Bytes, lastModified: Bytes)

  class HttpResponse {
    var httpState: HttpState
    var headers: seq<Header>
    var body: Body
    var isKeepAlive: bool

    constructor ()
      ensures View() == PRISTINE
    {
      httpState, headers, body, isKeepAlive := SUCCESS, [], StringBody([]), true;
    }

    function View(): Reply
      reads this
    {
      Reply(httpState, headers, body, isKeepAlive)
    }

    method SetRawHeader(name: Bytes, value: Bytes)
      modifies this`headers
      ensures headers == Assigned(old(headers), (name, value))
      ensures AllOrdinary(old(headers)) && Ordinary(name) ==> AllOrdinary(headers)
    {
      headers := Assigned(headers, (name, value));
    }

    method InsertRawHeader(name: Bytes, value: Bytes)
      modifies this`headers
      ensures headers == Emplaced(old(headers), (name, value))
      ensures AllOrdinary(old(headers)) && Ordinary(name) ==> AllOrdinary(headers)
    {
      headers := Emplaced(headers, (name, value));
    }

    /** An empty text leaves everything as it was. */
    method SetTextBody(text: Bytes)
      modifies this`headers, this`body
      ensures text == [] ==> headers == old(headers) && body == old(body)
      ensures text != [] ==>
                && body == StringBody(text)
                && headers == Assigned(old(headers), (CONTENT_LENGTH, Print(|text|)))
      ensures View() == TextReply(old(View()), text)
    {
      if text == [] {
        return;
      }
      SetRawHeader(CONTENT_LENGTH, Print(|text|));
      body := StringBody(text);
    }

    method SetFileBody(file: Body)
      requires file.FileBody?
      modifies this`headers, this`body
      ensures file.count == 0 ==> headers == old(headers) && body == old(body)
      ensures file.count > 0 ==> body == file && headers == Assigned(old(headers), (CONTENT_LENGTH, Print(file.count)))
    {
      if file.count == 0 {
        return;
      }
      SetRawHeader(CONTENT_LENGTH, Print(file.count));
      body := file;
    }

    method Reset()
      modifies this
      ensures View() == PRISTINE
    {
      body, headers, httpState, isKeepAlive := StringBody([]), [], SUCCESS, true;
    }

    predicate IsValid()
      reads this
    {
      Sendable(View())
    }

    method SetKeepAlive(keepAlive: bool)
      modifies this`headers, this`isKeepAlive
      ensures isKeepAlive == keepAlive
      ensures headers == Assigned(old(headers), (CONNECTION, ConnectionText(keepAlive)))
    {
      SetRawHeader(CONNECTION, ConnectionText(keepAlive));
      isKeepAlive := keepAlive;
    }

    /** A state always has a text once it is set. */
    method SetHttpState(state: HttpState)
      modifies this`httpState
      ensures httpState == if state.text == [] then old(httpState) else state
    {
      if state.text == [] {
        return;
      }
      httpState := state;
    }

    method ToRawData(buffer: Bytes, date: Bytes, order: seq<Header>) returns (response: Bytes)
      requires multiset(order) == multiset(headers)
      ensures response == buffer + HeadText(View(), date, order) && |response| > |buffer|
    {
      response := AppendStatus(buffer);
      response := AppendHeader(response, DATE, date);
      response := AppendHeader(response, SERVER, SERVER_NAME);
      response := AppendHeaders(response, order);
      ghost var text := if body.StringBody? then body.text else [];
      FirstFields(date, order);
      Regroup(buffer, StatusText(httpState), FieldText(HeaderField((DATE, date), 1)),
              FieldText(HeaderField((SERVER, SERVER_NAME), 1)), FieldsText(HeaderFields(order, 1)), text);
      if body.StringBody? {
        response := response + "\r\n" + body.text;
      } else {
        response := response + "\r\n";
      }
    }

    method AppendStatus(buffer: Bytes) returns (response: Bytes)
      ensures response == buffer + StatusText(httpState) && |response| > |buffer|
    {
      var number := PrintInt(httpState.code);
      assert "HTTP/1.1 " + number + " " + httpState.text + "\r\n" == StatusText(httpState);
      response := buffer + "HTTP/1.1 " + number + " " + httpState.text + "\r\n";
    }

    method AppendHeader(buffer: Bytes, key: Bytes, value: Bytes) returns (response: Bytes)
      ensures response == buffer + FieldText(HeaderField((key, value), 1))
    {
      assert Spaces(1) == " ";
      response := buffer + key + ": " + value + "\r\n";
    }

    method AppendHeaders(buffer: Bytes, order: seq<Header>) returns (response: Bytes)
      ensures response == buffer + FieldsText(HeaderFields(order, 1))
    {
      response := buffer;
      var i := 0;
      while i < |order|
        invariant 0 <= i <= |order|
        invariant response + FieldsText(HeaderFields(order[i..], 1)) == buffer + FieldsText(HeaderFields(order, 1))
      {
        HeaderFieldsStep(order[i..]);
        assert order[i..][1..] == order[i + 1..];
        response := AppendHeader(response, order[i].0, order[i].1);
        i := i + 1;
      }
      assert order[0..] == order;
    }

    /** The handler of TinyWebServer/src/main.cpp for a shared file. It reports whether reading
        the range threw. */
    method ShareFile(info: FileInfo, range: Bytes, modifiedSince: Bytes) returns (thrown: bool)
      requires IsSize(info.size) && AllOrdinary(headers)
      modifies this
      ensures thrown <==> range != [] && RangeAsked(range).None?
      ensures range != [] && !thrown && info.size > 0 ==>
                httpState == PARTIAL && Shares(info, SliceFor(range, info.size))
      ensures range != [] && !thrown && info.size > 0 && Lookup(old(headers), CONTENT_RANGE).None? ==>
                Announces(info.size, SliceFor(range, info.size))
      ensures range == [] && modifiedSince == info.lastModified ==> httpState == NOT_MODIFIED && body == old(body)
      ensures range == [] && modifiedSince != info.lastModified ==>
                httpState == old(httpState) && (info.size > 0 ==> Shares(info, Slice(0, info.size)))
      ensures !thrown ==> Some(View()) == ShareReply(old(View()), info, range, modifiedSince)
    {
      Describe(info);
      thrown := false;
      if range == [] {
        ShareWhole(info, modifiedSince);
      } else {
        var asked := ParseRange(range);
        if asked.None? {
          return true;
        }
        ShareRange(info, asked.value.0, asked.value.1);
      }
    }

    method Describe(info: FileInfo)
      requires AllOrdinary(headers)
      modifies this`headers
      ensures AllOrdinary(headers) && Lookup(headers, CONTENT_RANGE) == Lookup(old(headers), CONTENT_RANGE)
      ensures headers == Updated(old(headers), DescribeUpdates(info))
    {
      if info.contentType != [] {
        InsertBeside(CONTENT_TYPE, info.contentType, CONTENT_RANGE);
      }
      InsertBeside(ACCEPT_RANGES, BYTES, CONTENT_RANGE);
      DescribedBy(old(headers), info);
    }

    method InsertBeside(name: Bytes, value: Bytes, ghost other: Bytes)
      requires AllOrdinary(headers) && name in {CONTENT_TYPE, ACCEPT_RANGES} && other == CONTENT_RANGE
      modifies this`headers
      ensures AllOrdinary(headers) && Lookup(headers, other) == Lookup(old(headers), other)
      ensures headers == Emplaced(old(headers), (name, value))
    {
      EmplacedLookup(headers, (name, value), other);
      InsertRawHeader(name, value);
    }

    method ShareWhole(info: FileInfo, modifiedSince: Bytes)
      requires AllOrdinary(headers)
      modifies this
      ensures modifiedSince == info.lastModified ==> httpState == NOT_MODIFIED && body == old(body)
      ensures modifiedSince != info.lastModified ==>
                httpState == old(httpState) && (info.size > 0 ==> Shares(info, Slice(0, info.size)))
      ensures View() == WholeReply(old(View()), info, modifiedSince)
    {
      WholeBy(old(headers), info, modifiedSince);
      var cached := CacheControl(info, modifiedSince);
      if cached {
        SetHttpState(NOT_MODIFIED);
      } else {
        SetWhole(info);
      }
    }

    method SetWhole(info: FileInfo)
      requires AllOrdinary(headers)
      modifies this`headers, this`body
      ensures info.size > 0 ==> Shares(info, Slice(0, info.size))
      ensures headers ==
              if info.size > 0 then Assigned(old(headers), (CONTENT_LENGTH, Print(info.size))) else old(headers)
      ensures body == if info.size > 0 then FileBody(info.file, 0, info.size) else old(body)
    {
      LengthFound(headers, Print(info.size));
      SetFileBody(FileBody(info.file, 0, info.size));
    }

    method CacheControl(info: FileInfo, modifiedSince: Bytes) returns (cached: bool)
      requires AllOrdinary(headers)
      modifies this`headers
      ensures AllOrdinary(headers) && (cached <==> modifiedSince == info.lastModified)
      ensures headers == CacheHeaders(old(headers), info.lastModified, cached)
    {
      InsertRawHeader(LAST_MODIFIED, info.lastModified);
      cached := modifiedSince == info.lastModified;
      InsertRawHeader(CACHE_CONTROL, if cached then CACHED else PUBLIC);
    }

    method ShareRange(info: FileInfo, first: nat, second: nat)
      requires IsSize(info.size) && IsSize(first) && IsSize(second) && AllOrdinary(headers)
      modifies this
      ensures httpState == PARTIAL
      ensures info.size > 0 ==> Shares(info, Served(first, second, info.size))
      ensures info.size > 0 && Lookup(old(headers), CONTENT_RANGE).None? ==>
                Announces(info.size, Served(first, second, info.size))
      ensures View() == RangeReply(old(View()), info, Replied((first, second), info.size))
    {
      RangedBy(old(headers), Replied((first, second), info.size), info.size);
      var text, offset, count := ReplyRange(first, second, info.size);
      InsertRawHeader(CONTENT_RANGE, text);
      ghost var ranged := headers;
      SetHttpState(PARTIAL);
      SetFileBody(FileBody(info.file, offset, count));
      if info.size > 0 {
        RangeHeaders(old(headers), ranged, headers, text, Print(count));
      }
    }

    /** The slice of the file is the body, and its size the announced length. */
    predicate Shares(info: FileInfo, s: Slice)
      reads this`headers, this`body
    {
      && body == FileBody(info.file, s.offset, s.count)
      && Lookup(headers, CONTENT_LENGTH) == Some(Print(s.count))
    }

    predicate Announces(total: nat, s: Slice)
      reads this`headers
    {
      Lookup(headers, CONTENT_RANGE) == Some(Announcement(s, total))
    }
  }

  function CacheHeaders(headers: seq<Header>, lastModified: Bytes, cached: bool): seq<Header> {
    Emplaced(Emplaced(headers, (LAST_MODIFIED, lastModified)),
             (CACHE_CONTROL, if cached then CACHED else PUBLIC))
  }

  /** The response behind `setBody` with a text. */
  function TextReply(r: Reply, text: Bytes): Reply {
    if text == [] then r
    else r.(headers := Assigned(r.headers, (CONTENT_LENGTH, Print(|text|))), body := StringBody(text))
  }

  // ---------- what sharing a file does to the response ----------

  function DescribeUpdates(info: FileInfo): seq<Update> {
    (if info.contentType != [] then [First((CONTENT_TYPE, info.contentType))] else []) + [First((ACCEPT_RANGES, BYTES))]
  }

  function LengthUpdates(count: nat): seq<Update> {
    if count > 0 then [Last((CONTENT_LENGTH, Print(count)))] else []
  }

  function WholeUpdates(info: FileInfo, modifiedSince: Bytes): seq<Update> {
    if modifiedSince == info.lastModified then
      [First((LAST_MODIFIED, info.lastModified)), First((CACHE_CONTROL, CACHED))]
    else
      [First((LAST_MODIFIED, info.lastModified)), First((CACHE_CONTROL, PUBLIC))] + LengthUpdates(info.size)
  }

  function RangeUpdates(s: Slice, total: nat): seq<Update> {
    [First((CONTENT_RANGE, Announcement(s, total)))] + LengthUpdates(s.count)
  }

  function WithBody(r: Reply, info: FileInfo, s: Slice): Reply {
    if s.count > 0 then r.(body := FileBody(info.file, s.offset, s.count)) else r
  }

  function WholeReply(r: Reply, info: FileInfo, modifiedSince: Bytes): Reply {
    var updated := r.(headers := Updated(r.headers, WholeUpdates(info, modifiedSince)));
    if modifiedSince == info.lastModified then updated.(httpState := NOT_MODIFIED)
    else WithBody(updated, info, Slice(0, info.size))
  }

  function RangeReply(r: Reply, info: FileInfo, s: Slice): Reply {
    WithBody(r.(headers := Updated(r.headers, RangeUpdates(s, info.size)), httpState := PARTIAL), info, s)
  }

  /** The response behind the handler; None when reading the range throws. */
  function ShareReply(r: Reply, info: FileInfo, range: Bytes, modifiedSince: Bytes): Option<Reply> {
    var described := r.(headers := Updated(r.headers, DescribeUpdates(info)));
    if range == [] then Some(WholeReply(described, info, modifiedSince))
    else
      match RangeAsked(range)
      case None => None
      case Some(asked) => Some(RangeReply(described, info, Replied(asked, info.size)))
  }

  lemma DescribedBy(headers: seq<Header>, info: FileInfo)
    ensures Updated(headers, DescribeUpdates(info)) ==
            Emplaced(if info.contentType != [] then Emplaced(headers, (CONTENT_TYPE, info.contentType)) else headers,
                     (ACCEPT_RANGES, BYTES))
  {
    if info.contentType != [] {
      OneUpdate(headers, [], First((CONTENT_TYPE, info.contentType)));
      assert [] + [First((CONTENT_TYPE, info.contentType))] == [First((CONTENT_TYPE, info.contentType))];
      OneUpdate(headers, [First((CONTENT_TYPE, info.contentType))], First((ACCEPT_RANGES, BYTES)));
    } else {
      OneUpdate(headers, [], First((ACCEPT_RANGES, BYTES)));
    }
  }

  lemma TwoFirst(headers: seq<Header>, a: Header, b: Header)
    ensures Updated(headers, [First(a), First(b)]) == Emplaced(Emplaced(headers, a), b)
  {
    OneUpdate(headers, [], First(a));
    assert [] + [First(a)] == [First(a)];
    OneUpdate(headers, [First(a)], First(b));
    assert [First(a)] + [First(b)] == [First(a), First(b)];
  }

  lemma WholeBy(headers: seq<Header>, info: FileInfo, modifiedSince: Bytes)
    ensures var cached := modifiedSince == info.lastModified;
            var controlled := CacheHeaders(headers, info.lastModified, cached);
            Updated(headers, WholeUpdates(info, modifiedSince)) ==
            if !cached && info.size > 0 then Assigned(controlled, (CONTENT_LENGTH, Print(info.size))) else controlled
  {
    var cached := modifiedSince == info.lastModified;
    var modified, control: Header :=
      (LAST_MODIFIED, info.lastModified), (CACHE_CONTROL, if cached then CACHED else PUBLIC);
    TwoFirst(headers, modified, control);
  }

  lemma RangedBy(headers: seq<Header>, s: Slice, total: nat)
    ensures var ranged := Emplaced(headers, (CONTENT_RANGE, Announcement(s, total)));
            Updated(headers, RangeUpdates(s, total)) ==
            if s.count > 0 then Assigned(ranged, (CONTENT_LENGTH, Print(s.count))) else ranged
  {
    var first := First((CONTENT_RANGE, Announcement(s, total)));
    OneUpdate(headers, [], first);
    assert [] + [first] == [first];
  }

  function SliceFor(range: Bytes, total: nat): Slice
    requires RangeAsked(range).Some? && total > 0
  {
    Served(RangeAsked(range).value.0, RangeAsked(range).value.1, total)
  }

  predicate Sendable(r: Reply) {
    200 <= r.httpState.code <= 500 && r.httpState.text != []
  }

  function ConnectionText(keepAlive: bool): Bytes {
    if keepAlive then KEEP_ALIVE else CLOSE
  }

  // ---------- the text ----------

  function Printed(date: Bytes, order: seq<Header>): seq<Header> {
    [(DATE, date), (SERVER, SERVER_NAME)] + order
  }

  function StatusText(state: HttpState): Bytes {
    "HTTP/1.1 " + (PrintInt(state.code) + " " + (state.text + "\r" + "\n"))
  }

  function ResponseText(state: HttpState, date: Bytes, order: seq<Header>, body: Bytes): Bytes {
    StatusText(state) + (FieldsText(HeaderFields(Printed(date, order), 1)) + ("\r\n" + body))
  }

  /** What is sent before the body, or with it when it is a text. */
  function HeadText(r: Reply, date: Bytes, order: seq<Header>): Bytes {
    ResponseText(r.httpState, date, order, if r.body.StringBody? then r.body.text else [])
  }

  lemma HeaderFieldsStep(order: seq<Header>)
    requires order != []
    ensures FieldsText(HeaderFields(order, 1)) ==
            FieldText(HeaderField(order[0], 1)) + FieldsText(HeaderFields(order[1..], 1))
  {
    assert HeaderFields(order, 1)[1..] == HeaderFields(order[1..], 1);
  }

  lemma Regroup(buffer: Bytes, status: Bytes, date: Bytes, server: Bytes, headers: Bytes, text: Bytes)
    ensures buffer + status + date + server + headers + "\r\n" + text ==
            buffer + (status + ((date + (server + headers)) + ("\r\n" + text)))
  {
  }

  lemma FirstFields(date: Bytes, order: seq<Header>)
    ensures FieldsText(HeaderFields(Printed(date, order), 1)) ==
            FieldText(HeaderField((DATE, date), 1)) +
            (FieldText(HeaderField((SERVER, SERVER_NAME), 1)) + FieldsText(HeaderFields(order, 1)))
  {
    var printed := Printed(date, order);
    HeaderFieldsStep(printed);
    HeaderFieldsStep(printed[1..]);
    assert printed[1..][1..] == order;
  }

  lemma DifferentNames()
    ensures !NocaseEqual(CONTENT_LENGTH, CONTENT_RANGE) && Ordinary(CONTENT_LENGTH) && Ordinary(CONTENT_RANGE)
    ensures NocaseEqual(CONTENT_LENGTH, CONTENT_LENGTH) && NocaseEqual(CONTENT_RANGE, CONTENT_RANGE)
  {
    SameNameAsItself(CONTENT_LENGTH);
    SameNameAsItself(CONTENT_RANGE);
  }

  lemma LengthFound(headers: seq<Header>, size: Bytes)
    requires AllOrdinary(headers)
    ensures Lookup(Assigned(headers, (CONTENT_LENGTH, size)), CONTENT_LENGTH) == Some(size)
  {
    DifferentNames();
    AssignedLookup(headers, (CONTENT_LENGTH, size), CONTENT_LENGTH);
  }

  lemma RangeHeaders(headers: seq<Header>, ranged: seq<Header>, sized: seq<Header>, text: Bytes, size: Bytes)
    requires AllOrdinary(headers)
    requires ranged == Emplaced(headers, (CONTENT_RANGE, text)) && sized == Assigned(ranged, (CONTENT_LENGTH, size))
    ensures Lookup(sized, CONTENT_LENGTH) == Some(size)
    ensures Lookup(headers, CONTENT_RANGE).None? ==> Lookup(sized, CONTENT_RANGE) == Some(text)
  {
    DifferentNames();
    EmplacedLookup(headers, (CONTENT_RANGE, text), CONTENT_RANGE);
    AssignedLookup(ranged, (CONTENT_LENGTH, size), CONTENT_RANGE);
    AssignedLookup(ranged, (CONTENT_LENGTH, size), CONTENT_LENGTH);
  }
}
