/**
 TinyWebServer/src/http/httpservices.cpp: one call of `process`, from the bytes that the kernel
 delivers to those that go out. The request and the response belong to the thread and are used
 again by the next call. What a user's handler makes of the response is an input.
 */
module HttpServices {
  import opened Url
  import opened Wrappers
  import opened HeaderMap
  import opened HttpText
  import opened HttpTheorems
  import opened HttpRequest
  import opened HttpResponse
  import opened ByteTransfer
  import opened Dispatch
  import opened Connection

  /** The request as a handler sees it. The body is a view, of the raw data or of what was there
      before. */
  datatype Incoming = Incoming(
    verb: Bytes, uri: Bytes, version: Bytes, arguments: seq<Bytes>, headers: seq<Header>,
    body: View, rawData: Bytes, isKeepAlive: bool)

  /** What the outside world decides during a call: what the user's handlers do, the date, the
      order in which headers are printed, whether the header can be written, the files. */
  datatype World = World(
    handle: (nat, Incoming, Reply) -> Reply,
    date: Bytes,
    order: seq<Header> -> seq<Header>,
    accepted: bool,
    files: int -> Bytes)

  ghost predicate GoodWorld(w: World) {
    forall hs :: multiset(w.order(hs)) == multiset(hs)
  }

  const NOT_ALLOWED: HttpState := HttpState(405, "Method Not Allowed")
  const NOT_FOUND: HttpState := HttpState(404, "Not Found")

  /** What a handler makes of a response. */
  function Handled(h: Handler, incoming: Incoming, reply: Reply, w: World): Reply {
    match h
    case MethodNotAllowed => reply.(httpState := NOT_ALLOWED)
    case NotFound => reply.(httpState := NOT_FOUND)
    case User(id) => w.handle(id, incoming, reply)
  }

  /** The response that a handler finds. */
  function Prepared(auto: bool, keepAlive: bool): Reply {
    if auto then
      PRISTINE.(headers := Assigned([], (CONNECTION, ConnectionText(keepAlive))), isKeepAlive := keepAlive)
    else PRISTINE
  }

  function ReplyTo(routes: Routes, auto: bool, incoming: Incoming, w: World): Reply {
    Handled(Chosen(routes, incoming.verb, incoming.uri), incoming, Prepared(auto, incoming.isKeepAlive), w)
  }

  /** The view that a request starts with. */
  const NO_BODY: View := View(0, 0)

  /** The last so many bytes of the raw data. */
  function BodyView(raw: Bytes, size: nat): View {
    if size <= |raw| then View(|raw| - size, |raw|) else NO_BODY
  }

  /** What a handler sees of message m, parsed from `raw` by a request that still held these
      arguments and headers and this view of a body. */
  function Seen(raw: Bytes, m: Message, arguments: seq<Bytes>, headers: seq<Header>, body: View): Incoming {
    var collected := Collected(headers, m.fields);
    Incoming(m.line.verb, Unescape(m.line.target), m.line.version, arguments + m.line.query, collected,
             if m.body == [] then body else BodyView(raw, |m.body|), raw, KeepsAlive(collected))
  }

  /** What it sees when the request is a new one. */
  function SeenAfresh(raw: Bytes, m: Message): Incoming {
    Seen(raw, m, [], [], NO_BODY)
  }

  predicate Presentable(request: HttpRequest)
    reads request
  {
    InRange(request.verb, request.rawData) && InRange(request.httpVersion, request.rawData)
  }

  function Presented(request: HttpRequest): Incoming
    reads request
    requires Presentable(request)
  {
    Incoming(Text(request.rawData, request.verb), request.uri, Text(request.rawData, request.httpVersion),
             request.urlArguments, request.headers, request.body, request.rawData, request.isKeepAlive)
  }

  /** The bytes of a complete response. */
  function Sent(reply: Reply, w: World): Bytes {
    HeadText(reply, w.date, w.order(reply.headers)) + BodySent(reply.body, w)
  }

  function BodySent(body: Body, w: World): Bytes {
    if body.FileBody? then Portion(w.files(body.file), body.offset, body.count) else []
  }

  /** What a response comes to: it cannot be sent, or the header is refused, or the file is too
      short or the kernel takes too little of it, or everything goes out. */
  function OutcomeOf(reply: Reply, w: World, sends: seq<int>): Outcome {
    if !Sendable(reply) then InvalidResponse
    else if !w.accepted then HeaderFailed
    else if !BodyComplete(reply.body, w, sends) then BodyFailed
    else Written(reply.isKeepAlive)
  }

  predicate BodyComplete(body: Body, w: World, sends: seq<int>) {
    body.FileBody? ==> Reach(body.count, Available(w.files(body.file), body.offset), sends) == body.count
  }

  /** Nothing is left of earlier requests that a later one could show. */
  predicate Clean(request: HttpRequest)
    reads request
  {
    && !request.isValid && request.rawData == [] && request.headers == [] && request.urlArguments == []
    && request.body == NO_BODY
  }

  /** What there is of a slice of a file. */
  function Portion(file: Bytes, offset: nat, count: nat): Bytes {
    FileSlice(file, offset, Min(count, Available(file, offset)))
  }

  class HttpServices {
    var routes: Routes
    var isAutoKeepAlive: bool
    var maxTimes: nat

    constructor ()
      ensures routes == UNTOUCHED && isAutoKeepAlive && maxTimes == 0
    {
      routes, isAutoKeepAlive, maxTimes := UNTOUCHED, true, 0;
    }

    method AddService(verb: Bytes, uri: Bytes, handler: Handler)
      modifies this`routes
      ensures routes == Registered(old(routes), Service(verb, uri, handler))
    {
      var services := routes.services;
      if verb !in services {
        services := services[verb := UriHandler(map[uri := handler], NotFound)];
      } else {
        services := services[verb := services[verb].(uriHandlers := services[verb].uriHandlers[uri := handler])];
      }
      routes := routes.(services := services);
    }

    method SetVerbDefault(verb: Bytes, handler: Handler)
      modifies this`routes
      ensures routes == Registered(old(routes), VerbDefault(verb, handler))
    {
      var services := routes.services;
      if verb !in services {
        services := services[verb := UriHandler(map[], handler)];
      } else {
        services := services[verb := services[verb].(defaultHandler := handler)];
      }
      routes := routes.(services := services);
    }

    method SetDefault(handler: Handler)
      modifies this`routes
      ensures routes == Registered(old(routes), Default(handler))
    {
      routes := routes.(defaultHandler := handler);
    }

    method CallHandler(request: Incoming, response: HttpResponse, w: World)
      modifies response
      ensures response.View() ==
              Handled(Chosen(routes, request.verb, request.uri), request, old(response.View()), w)
    {
      if request.verb in routes.services {
        var entry := routes.services[request.verb];
        if request.uri !in entry.uriHandlers {
          Run(entry.defaultHandler, request, response, w);
        } else {
          Run(entry.uriHandlers[request.uri], request, response, w);
        }
        return;
      }
      Run(routes.defaultHandler, request, response, w);
    }

    method Run(h: Handler, request: Incoming, response: HttpResponse, w: World)
      modifies response
      ensures response.View() == Handled(h, request, old(response.View()), w)
    {
      match h
      case MethodNotAllowed => response.SetHttpState(NOT_ALLOWED);
      case NotFound => response.SetHttpState(NOT_FOUND);
      case User(id) =>
        var reply := w.handle(id, request, response.View());
        response.httpState, response.headers, response.body, response.isKeepAlive :=
          reply.httpState, reply.headers, reply.body, reply.isKeepAlive;
    }

    /** Reading and parsing: what the kernel has is added to what the request holds. */
    method Receive(socket: TcpSocket, request: HttpRequest) returns (ghost parsed: Option<Message>)
      requires GoodKernel(socket.kernel) && !Spins(socket.kernel) && !socket.isListener && !request.isValid
      modifies socket`kernel, request
      ensures parsed == ParseMessage(old(request.rawData) + Pending(old(socket.kernel.script)))
      ensures socket.kernel.script == [] && socket.kernel.reported
      ensures request.isValid <==> parsed.Some?
      ensures parsed.None? ==> request.rawData == old(request.rawData) + Pending(old(socket.kernel.script))
      ensures parsed.None? && request.rawData == [] ==>
                request.headers == old(request.headers) && request.urlArguments == old(request.urlArguments)
      ensures parsed.None? ==> request.body == old(request.body)
      ensures parsed.Some? ==>
                && Presentable(request)
                && Presented(request) == Seen(old(request.rawData) + Pending(old(socket.kernel.script)), parsed.value,
                                              old(request.urlArguments), old(request.headers), old(request.body))
    {
      var buffer := new Buffer();
      buffer.data := request.rawData;
      socket.ReadAll(buffer);
      request.rawData := buffer.data;
      parsed := ParseMessage(request.rawData);
      request.Parse();
    }

    /** From the response that the handler leaves to the wire. */
    method Answer(socket: TcpSocket, response: HttpResponse, w: World) returns (outcome: Outcome)
      requires !socket.isListener && GoodWorld(w)
      modifies socket`wire, socket`sends
      ensures outcome == OutcomeOf(response.View(), w, old(socket.sends))
      ensures outcome.InvalidResponse? || outcome.HeaderFailed? ==> socket.wire == old(socket.wire)
      ensures outcome.BodyFailed? ==>
                old(socket.wire) + HeadText(response.View(), w.date, w.order(response.headers)) <= socket.wire
      ensures outcome.Written? ==> socket.wire == old(socket.wire) + Sent(response.View(), w)
      ensures outcome.Written? && response.body.FileBody? ==>
                response.body.count <= Available(w.files(response.body.file), response.body.offset)
    {
      if !response.IsValid() {
        return InvalidResponse;
      }
      var ok := SendHead(socket, response, w);
      if !ok {
        return HeaderFailed;
      }
      ok := SendBody(socket, response.body, w);
      if !ok {
        return BodyFailed;
      }
      Regrouped(old(socket.wire), HeadText(response.View(), w.date, w.order(response.headers)),
                BodySent(response.body, w));
      return Written(response.isKeepAlive);
    }

    method SendHead(socket: TcpSocket, response: HttpResponse, w: World) returns (ok: bool)
      requires !socket.isListener && GoodWorld(w)
      modifies socket`wire
      ensures ok <==> w.accepted
      ensures socket.wire == if ok then old(socket.wire) + HeadText(response.View(), w.date, w.order(response.headers))
                             else old(socket.wire)
    {
      var buffer := RawResponse(response, w);
      var written := socket.Write(buffer, w.accepted);
      ok := written == |buffer|;
    }

    method RawResponse(response: HttpResponse, w: World) returns (buffer: Bytes)
      requires GoodWorld(w)
      ensures buffer == HeadText(response.View(), w.date, w.order(response.headers)) && buffer != []
    {
      buffer := response.ToRawData([], w.date, w.order(response.headers));
    }

    /** A text has gone out with the header. */
    method SendBody(socket: TcpSocket, body: Body, w: World) returns (ok: bool)
      modifies socket`wire, socket`sends
      ensures ok <==> BodyComplete(body, w, old(socket.sends))
      ensures old(socket.wire) <= socket.wire
      ensures ok ==> socket.wire == old(socket.wire) + BodySent(body, w)
      ensures ok && body.FileBody? ==> body.count <= Available(w.files(body.file), body.offset)
    {
      if body.StringBody? {
        return true;
      }
      var sent := socket.SendFile(w.files(body.file), body.offset, body.count);
      ok := sent == body.count;
    }

    /** One call. The handler, if it comes to one, is shown `incoming`. */
    method Process(socket: TcpSocket, request: HttpRequest, response: HttpResponse, w: World)
      returns (keep: bool, ghost outcome: Outcome, ghost parsed: Option<Message>, ghost incoming: Incoming)
      requires GoodKernel(socket.kernel) && !Spins(socket.kernel) && !socket.isListener && GoodWorld(w)
      requires !request.isValid && response.View() == PRISTINE
      modifies socket`kernel, socket`wire, socket`sends, socket`times, request, response
      ensures parsed == ParseMessage(old(request.rawData) + Pending(old(socket.kernel.script)))
      ensures outcome.InvalidRequest? <==> parsed.None?
      ensures keep <==> Keeps(maxTimes, socket.times, outcome)
      ensures socket.times == Counted(maxTimes, old(socket.times), outcome)
      ensures !request.isValid && response.View() == PRISTINE
      ensures parsed.None? || outcome.InvalidResponse? || outcome.HeaderFailed? ==> socket.wire == old(socket.wire)
      ensures parsed.None? ==>
                && request.rawData == old(request.rawData) + Pending(old(socket.kernel.script))
                && request.body == old(request.body)
      ensures parsed.None? && request.rawData == [] ==>
                request.headers == old(request.headers) && request.urlArguments == old(request.urlArguments)
      ensures parsed.Some? ==>
                && request.rawData == [] && request.headers == [] && request.urlArguments == []
                && request.body == incoming.body
                && incoming == Seen(old(request.rawData) + Pending(old(socket.kernel.script)), parsed.value,
                                    old(request.urlArguments), old(request.headers), old(request.body))
      ensures old(Clean(request)) ==>
                (Clean(request) <==> if parsed.Some? then parsed.value.body == []
                                     else Pending(old(socket.kernel.script)) == [])
      ensures parsed.Some? ==>
                var reply := ReplyTo(routes, isAutoKeepAlive, incoming, w);
                && outcome == OutcomeOf(reply, w, old(socket.sends))
                && (outcome.Written? ==> socket.wire == old(socket.wire) + Sent(reply, w))
    {
      ghost var raw := request.rawData + Pending(socket.kernel.script);
      parsed := Receive(socket, request);
      if !request.isValid {
        return false, InvalidRequest, parsed, NOTHING_SEEN;
      }
      BodyFits(raw, parsed.value);
      if maxTimes != 0 {
        socket.AddTimes();
      }
      incoming := Presented(request);
      keep, outcome := Respond(socket, Presented(request), response, w);
      request.Reset();
      response.Reset();
    }

    method Respond(socket: TcpSocket, request: Incoming, response: HttpResponse, w: World)
      returns (keep: bool, outcome: Outcome)
      requires !socket.isListener && GoodWorld(w) && response.View() == PRISTINE
      modifies socket`wire, socket`sends, response
      ensures keep <==> Keeps(maxTimes, socket.times, outcome)
      ensures outcome.InvalidResponse? || outcome.HeaderFailed? ==> socket.wire == old(socket.wire)
      ensures var reply := ReplyTo(routes, isAutoKeepAlive, request, w);
              && outcome == OutcomeOf(reply, w, old(socket.sends))
              && (outcome.Written? ==> socket.wire == old(socket.wire) + Sent(reply, w))
    {
      if isAutoKeepAlive {
        response.SetKeepAlive(request.isKeepAlive);
      }
      CallHandler(request, response, w);
      outcome := Answer(socket, response, w);
      keep := outcome.InvalidResponse? || (outcome.Written? && response.isKeepAlive && socket.times <= maxTimes);
    }
  }

  const NOTHING_SEEN: Incoming := Incoming([], [], [], [], [], NO_BODY, [], true)

  /** A body that is there has a view that is not empty. */
  lemma BodyFits(raw: Bytes, m: Message)
    requires ParseMessage(raw) == Some(m)
    ensures |m.body| <= |raw| && (m.body != [] ==> BodyView(raw, |m.body|) != NO_BODY)
  {
    ParseIff(raw, m);
  }
}
