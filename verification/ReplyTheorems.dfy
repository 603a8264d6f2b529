/**
 What a client reads of any reply: the state, the body and each header, by its text; and so of the
 built-in replies, and of those with a text that the handlers of TinyWebServer/src/main.cpp make.
 */
module ReplyTheorems {
  import opened Url
  import opened Wrappers
  import opened HeaderMap
  import opened HttpText
  import opened RequestTheorems
  import opened Decimal
  import opened HttpResponse
  import opened ResponseTheorems
  import opened Dispatch
  import opened HttpServices
  import opened ServiceTheorems

  /** The first header that is read with this name, but for case. */
  function HeaderRead(received: Received, name: Bytes): Option<Bytes> {
    FirstByText(Pairs(received.fields), name)
  }

  /** What goes out behind the headers. */
  predicate BodyIs(reply: Reply, w: World, body: Bytes) {
    match reply.body
    case StringBody(text) => body == text
    case FileBody(file, offset, count) =>
      offset + count <= |w.files(file)| ==> body == w.files(file)[offset..offset + count]
  }

  lemma ReplySent(reply: Reply, w: World) returns (body: Bytes)
    requires GoodWorld(w)
    ensures Sent(reply, w) == ResponseText(reply.httpState, w.date, w.order(reply.headers), body)
    ensures multiset(w.order(reply.headers)) == multiset(reply.headers) && BodyIs(reply, w, body)
  {
    match reply.body
    case StringBody(text) => body := text;
    case FileBody(file, offset, count) =>
      body := BodySent(reply.body, w);
  }

  /** The updates that a handler makes, none of which breaks the text of the response. */
  ghost predicate MadeBy(reply: Reply, updates: seq<Update>, w: World) {
    && GoodWorld(w) && GoodHeader(("Date", w.date)) && Lacks(reply.httpState.text, IsReturn)
    && GoodUpdates(updates) && reply.headers == RunList(updates)
  }

  predicate Reads(received: Option<Received>, reply: Reply, w: World) {
    && received.Some? && received.value.code == PrintInt(reply.httpState.code)
    && received.value.reason == reply.httpState.text && BodyIs(reply, w, received.value.body)
  }

  predicate Usable(name: Bytes) {
    |name| < 0x1_0000_0000 && '\0' !in name
  }

  /** What is found under a name: the date and the server of the printer come first. */
  function Announced(updates: seq<Update>, w: World, name: Bytes): Option<Bytes> {
    if NocaseEqual("Date", name) then Some(w.date)
    else if NocaseEqual("Server", name) then Some("TinyWebServer")
    else InForce(updates, name)
  }

  /** The state, the body and every header that is in force. */
  ghost predicate ReadAs(received: Option<Received>, updates: seq<Update>, reply: Reply, w: World) {
    && Reads(received, reply, w)
    && forall name :: Usable(name) ==> HeaderRead(received.value, name) == Announced(updates, w, name)
  }

  /** What a client reads of any reply. */
  lemma ReplyArrives(updates: seq<Update>, reply: Reply, w: World)
    requires MadeBy(reply, updates, w)
    ensures ReadAs(ReadResponse(Sent(reply, w)), updates, reply, w)
  {
    var body := ReplySent(reply, w);
    var order := w.order(reply.headers);
    AllPrintedGood(updates, order, w.date, (SERVER, SERVER_NAME));
    ResponseReadIff(reply.httpState, w.date, order, body);
    forall name | Usable(name)
      ensures FirstByText(Pairs(HeaderFields(Printed(w.date, order), 1)), name) == Announced(updates, w, name)
    {
      FoundByText(updates, order, w, name);
    }
  }

  lemma FoundByText(updates: seq<Update>, order: seq<Header>, w: World, name: Bytes)
    requires GoodUpdates(updates) && multiset(order) == multiset(RunList(updates)) && Usable(name)
    ensures FirstByText(Pairs(HeaderFields(Printed(w.date, order), 1)), name) == Announced(updates, w, name)
  {
    var fields := HeaderFields(Printed(w.date, order), 1);
    RunGood(updates);
    PrintedHeaders(updates, order, w.date, name);
    OrderOrdinary(updates, order, w.date);
    CollectedLookup([], fields, name);
    LookupIsByText(Pairs(fields), name);
  }

  lemma OrderOrdinary(updates: seq<Update>, order: seq<Header>, date: Bytes)
    requires GoodUpdates(updates) && multiset(order) == multiset(RunList(updates))
    ensures var fields := HeaderFields(Printed(date, order), 1);
            OrdinaryFields(fields) && AllOrdinary(Pairs(fields))
  {
    var fields := HeaderFields(Printed(date, order), 1);
    RunGood(updates);
    RunDistinct(updates);
    forall i | 0 <= i < |order|
      ensures Ordinary(order[i].0)
    {
      assert order[i] in multiset(RunList(updates));
    }
    assert Pairs(fields) == Printed(date, order);
  }

  // ---------- which headers are in force ----------

  /** What is set before a handler is called. */
  function StartUpdates(auto: bool, keepAlive: bool): seq<Update> {
    if auto then [Last((CONNECTION, ConnectionText(keepAlive)))] else []
  }

  lemma SizesDiffer(l: Bytes, r: Bytes)
    requires |l| < 20 && |r| < 20 && |l| != |r|
    ensures !NocaseEqual(l, r)
  {
  }

  /** None of the updates is about the name. */
  predicate Silent(updates: seq<Update>, name: Bytes) {
    forall i :: 0 <= i < |updates| ==> !NocaseEqual(updates[i].header.0, name)
  }

  lemma {:induction false} SilentBehind(updates: seq<Update>, more: seq<Update>, name: Bytes)
    requires Silent(more, name)
    ensures InForce(updates + more, name) == InForce(updates, name)
    decreases |more|
  {
    if more == [] {
      assert updates + more == updates;
    } else {
      var front, u := more[..|more| - 1], more[|more| - 1];
      assert updates + more == (updates + front) + [u];
      SilentBehind(updates, front, name);
    }
  }

  lemma StartInForce(keepAlive: bool, name: Bytes)
    requires name == CONNECTION
    ensures InForce(StartUpdates(true, keepAlive), name) == Some(ConnectionText(keepAlive))
  {
    SameNameAsItself(name);
  }

  /** The word on the connection is read unless a handler sets another one. */
  lemma ConnectionRead(keepAlive: bool, more: seq<Update>, reply: Reply, w: World, received: Option<Received>,
                       name: Bytes)
    requires ReadAs(received, StartUpdates(true, keepAlive) + more, reply, w) && Silent(more, name)
    requires name == CONNECTION
    ensures HeaderRead(received.value, name) == Some(if keepAlive then "keep-alive" else "close")
  {
    var updates := StartUpdates(true, keepAlive) + more;
    SizesDiffer("Date", name);
    SizesDiffer("Server", name);
    SilentBehind(StartUpdates(true, keepAlive), more, name);
    StartInForce(keepAlive, name);
    assert Announced(updates, w, name) == Some(ConnectionText(keepAlive));
    assert Usable(name);
  }

  /** The right word on the connection, if the server sets it. */
  predicate ReadsConnection(received: Received, auto: bool, keepAlive: bool) {
    auto ==> HeaderRead(received, "Connection") == Some(if keepAlive then "keep-alive" else "close")
  }

  predicate GoodName(name: Bytes) {
    name != [] && name[0] != '\r' && Lacks(name, IsColon) && Ordinary(name)
  }

  predicate GoodValue(value: Bytes) {
    Lacks(value, IsReturn) && (value == [] || value[0] != ' ')
  }

  lemma GoodNames()
    ensures GoodName(CONNECTION) && GoodName(CONTENT_TYPE) && GoodName(ACCEPT_RANGES)
    ensures GoodName(CONTENT_RANGE) && GoodName(CONTENT_LENGTH) && GoodName(LAST_MODIFIED) && GoodName(CACHE_CONTROL)
    ensures GoodValue(KEEP_ALIVE) && GoodValue(CLOSE) && GoodValue(BYTES) && GoodValue(CACHED) && GoodValue(PUBLIC)
  {
  }

  lemma RoutedToUser(history: seq<Registration>, id: nat, auto: bool, incoming: Incoming, w: World)
    requires Expected(history, incoming.verb, incoming.uri) == User(id)
    ensures ReplyTo(Routed(history), auto, incoming, w) == w.handle(id, incoming, Prepared(auto, incoming.isKeepAlive))
  {
    ChosenIsExpected(history, incoming.verb, incoming.uri);
  }

  // ---------- the built-in replies ----------

  lemma BuiltInMadeBy(h: Handler, incoming: Incoming, w: World)
    requires !h.User? && GoodWorld(w) && GoodHeader(("Date", w.date))
    ensures var reply := Handled(h, incoming, Prepared(true, incoming.isKeepAlive), w);
            && MadeBy(reply, StartUpdates(true, incoming.isKeepAlive) + [], w) && reply.body == StringBody([])
            && reply.httpState == if h.NotFound? then NOT_FOUND else NOT_ALLOWED
  {
    GoodNames();
    assert StartUpdates(true, incoming.isKeepAlive) + [] == StartUpdates(true, incoming.isKeepAlive);
  }

  /** From the routing tables to the client: a request for which only a built-in handler is
      there is answered with its state, an empty body and the right word on the connection. */
  lemma BuiltInArrives(history: seq<Registration>, incoming: Incoming, w: World)
    requires GoodWorld(w) && GoodHeader(("Date", w.date))
    requires !Expected(history, incoming.verb, incoming.uri).User?
    ensures var reply := ReplyTo(Routed(history), true, incoming, w);
            var unknown := Expected(history, incoming.verb, incoming.uri).NotFound?;
            var received := ReadResponse(Sent(reply, w));
            && Sendable(reply) && received.Some? && received.value.body == []
            && reply.isKeepAlive == incoming.isKeepAlive
            && received.value.code == (if unknown then "404" else "405")
            && received.value.reason == (if unknown then "Not Found" else "Method Not Allowed")
            && HeaderRead(received.value, "Connection") == Some(if incoming.isKeepAlive then "keep-alive" else "close")
  {
    ChosenIsExpected(history, incoming.verb, incoming.uri);
    var reply := ReplyTo(Routed(history), true, incoming, w);
    BuiltInMadeBy(Expected(history, incoming.verb, incoming.uri), incoming, w);
    OwnStates(reply);
    ReplyArrives(StartUpdates(true, incoming.isKeepAlive) + [], reply, w);
    ConnectionRead(incoming.isKeepAlive, [], reply, w, ReadResponse(Sent(reply, w)), CONNECTION);
  }

  // ---------- texts ----------

  function TextUpdates(updates: seq<Update>, text: Bytes): seq<Update> {
    updates + [Last((CONTENT_LENGTH, Print(|text|)))]
  }

  lemma TextMadeBy(updates: seq<Update>, r: Reply, text: Bytes, w: World)
    requires MadeBy(r, updates, w) && text != []
    ensures MadeBy(TextReply(r, text), TextUpdates(updates, text), w)
  {
    OneMoreUpdate(updates, Last((CONTENT_LENGTH, Print(|text|))));
    GoodNames();
  }

  lemma LengthInForce(updates: seq<Update>, text: Bytes, name: Bytes)
    requires name == CONTENT_LENGTH
    ensures InForce(TextUpdates(updates, text), name) == Some(Print(|text|))
  {
    SameNameAsItself(name);
  }

  /** The state, the text and, under this name, its size. */
  predicate ReadsText(received: Option<Received>, state: HttpState, text: Bytes, name: Bytes) {
    && received.Some? && received.value.code == PrintInt(state.code) && received.value.reason == state.text
    && received.value.body == text && HeaderRead(received.value, name) == Some(Print(|text|))
    && Value(Print(|text|)) == |text|
  }

  lemma TextRead(updates: seq<Update>, r: Reply, text: Bytes, w: World, received: Option<Received>, name: Bytes)
    requires ReadAs(received, TextUpdates(updates, text), TextReply(r, text), w) && text != [] && name == CONTENT_LENGTH
    ensures ReadsText(received, r.httpState, text, name)
  {
    SizesDiffer("Date", name);
    SizesDiffer("Server", name);
    LengthInForce(updates, text, name);
    ValuePrint(|text|);
  }

  /** From `setBody` with a text to the client: it reads that text, and its size. */
  lemma TextArrives(updates: seq<Update>, r: Reply, text: Bytes, w: World)
    requires MadeBy(r, updates, w) && text != []
    ensures ReadsText(ReadResponse(Sent(TextReply(r, text), w)), r.httpState, text, "Content-Length")
  {
    TextMadeBy(updates, r, text, w);
    ReplyArrives(TextUpdates(updates, text), TextReply(r, text), w);
    TextRead(updates, r, text, w, ReadResponse(Sent(TextReply(r, text), w)), CONTENT_LENGTH);
  }

  /** A handler that sets any headers but that on the connection, a state and a text. */
  ghost predicate Texts(w: World, id: nat, auto: bool, incoming: Incoming, more: seq<Update>, state: HttpState,
                        text: Bytes) {
    var found := Prepared(auto, incoming.isKeepAlive);
    var r := found.(headers := Updated(found.headers, more), httpState := state);
    && w.handle(id, incoming, found) == TextReply(r, text)
    && GoodUpdates(more) && Silent(more, CONNECTION)
    && Lacks(state.text, IsReturn) && state.text != [] && 200 <= state.code <= 500
  }

  lemma TextsMadeBy(w: World, id: nat, auto: bool, incoming: Incoming, more: seq<Update>, state: HttpState,
                    text: Bytes)
    returns (r: Reply)
    requires GoodWorld(w) && GoodHeader(("Date", w.date)) && Texts(w, id, auto, incoming, more, state, text)
    ensures MadeBy(r, StartUpdates(auto, incoming.isKeepAlive) + more, w) && r.httpState == state
    ensures w.handle(id, incoming, Prepared(auto, incoming.isKeepAlive)) == TextReply(r, text)
    ensures r.isKeepAlive == (auto ==> incoming.isKeepAlive)
  {
    var found := Prepared(auto, incoming.isKeepAlive);
    r := found.(headers := Updated(found.headers, more), httpState := state);
    UpdatedRun(StartUpdates(auto, incoming.isKeepAlive), more);
    GoodNames();
  }

  /** A whole exchange with a handler that answers with a text, which may depend on all that it is
      shown: the client prints a request, the server parses it, routes it and calls the handler,
      and the client parses the response. It reads the state, the text, its size and the right
      word on the connection, and the connection is kept accordingly. */
  lemma TextExchange(history: seq<Registration>, id: nat, auto: bool, verb: Bytes, path: Bytes, query: seq<Bytes>,
                     version: Bytes, headers: seq<Header>, spaces: nat, body: Bytes, more: seq<Update>,
                     state: HttpState, text: Bytes, w: World, raw: Bytes)
    requires GoodWorld(w) && GoodHeader(("Date", w.date)) && text != []
    requires GoodRequest(verb, query, version, headers) && Expected(history, verb, path) == User(id)
    requires raw == RequestText(verb, path, query, version, headers, spaces, body)
    requires forall m :: ParseMessage(raw) == Some(m) ==> Texts(w, id, auto, SeenAfresh(raw, m), more, state, text)
    ensures ParseMessage(raw).Some?
    ensures var incoming := SeenAfresh(raw, ParseMessage(raw).value);
            var reply := ReplyTo(Routed(history), auto, incoming, w);
            var received := ReadResponse(Sent(reply, w));
            && Shows(incoming, verb, path, query, version, headers, body)
            && Sendable(reply) && reply.isKeepAlive == (auto ==> incoming.isKeepAlive)
            && ReadsText(received, state, text, "Content-Length")
            && ReadsConnection(received.value, auto, incoming.isKeepAlive)
  {
    RequestIsShown(verb, path, query, version, headers, spaces, body);
    TextsRead(history, id, auto, SeenAfresh(raw, ParseMessage(raw).value), more, state, text, w);
  }

  lemma TextsRead(history: seq<Registration>, id: nat, auto: bool, incoming: Incoming, more: seq<Update>,
                  state: HttpState, text: Bytes, w: World)
    requires GoodWorld(w) && GoodHeader(("Date", w.date)) && text != []
    requires Expected(history, incoming.verb, incoming.uri) == User(id)
    requires Texts(w, id, auto, incoming, more, state, text)
    ensures var reply := ReplyTo(Routed(history), auto, incoming, w);
            var received := ReadResponse(Sent(reply, w));
            && Sendable(reply) && reply.isKeepAlive == (auto ==> incoming.isKeepAlive)
            && ReadsText(received, state, text, "Content-Length")
            && ReadsConnection(received.value, auto, incoming.isKeepAlive)
  {
    var r := TextsMadeBy(w, id, auto, incoming, more, state, text);
    RoutedToUser(history, id, auto, incoming, w);
    TextArrives(StartUpdates(auto, incoming.isKeepAlive) + more, r, text, w);
    if auto {
      TextConnection(incoming.isKeepAlive, more, r, text, w, ReadResponse(Sent(TextReply(r, text), w)));
    }
  }

  lemma TextConnection(keepAlive: bool, more: seq<Update>, r: Reply, text: Bytes, w: World,
                       received: Option<Received>)
    requires MadeBy(r, StartUpdates(true, keepAlive) + more, w) && text != [] && Silent(more, CONNECTION)
    requires received == ReadResponse(Sent(TextReply(r, text), w))
    ensures received.Some? && ReadsConnection(received.value, true, keepAlive)
  {
    TextMadeBy(StartUpdates(true, keepAlive) + more, r, text, w);
    ReplyArrives(TextUpdates(StartUpdates(true, keepAlive) + more, text), TextReply(r, text), w);
    TextSilent(keepAlive, more, text);
    ConnectionRead(keepAlive, TextUpdates(more, text), TextReply(r, text), w, received, CONNECTION);
  }

  lemma TextSilent(keepAlive: bool, more: seq<Update>, text: Bytes)
    requires Silent(more, CONNECTION)
    ensures Silent(TextUpdates(more, text), CONNECTION)
    ensures TextUpdates(StartUpdates(true, keepAlive) + more, text) ==
            StartUpdates(true, keepAlive) + TextUpdates(more, text)
  {
    SizesDiffer(CONTENT_LENGTH, CONNECTION);
  }

  /** The states that the server makes itself, as they are printed, and that they can be sent. */
  lemma OwnStates(r: Reply)
    ensures PrintInt(SUCCESS.code) == "200" && SUCCESS.text == "OK"
    ensures PrintInt(PARTIAL.code) == "206" && PARTIAL.text == "Partial Content"
    ensures PrintInt(NOT_MODIFIED.code) == "304" && NOT_MODIFIED.text == "Not Modified"
    ensures PrintInt(NOT_FOUND.code) == "404" && NOT_FOUND.text == "Not Found"
    ensures PrintInt(NOT_ALLOWED.code) == "405" && NOT_ALLOWED.text == "Method Not Allowed"
    ensures r.httpState in {SUCCESS, PARTIAL, NOT_MODIFIED, NOT_FOUND, NOT_ALLOWED} ==> Sendable(r)
  {
  }
}
