/**
 What the calls of `process` mean for a client: what its handler is shown, and what an invalid
 request leaves in front of the next one.
 */
module ServiceTheorems {
  import opened Url
  import opened Wrappers
  import opened HeaderMap
  import opened HttpText
  import opened HttpTheorems
  import opened HttpRequest
  import opened RequestTheorems
  import opened ByteTransfer
  import opened HttpResponse
  import opened Connection
  import opened LoopModel
  import opened HttpServices

  // ---------- left over ----------

  /** Whatever is left in the request, a text that was a request by itself is not read as it
      would be by itself. */
  lemma ResiduePollutes(residue: Bytes, text: Bytes, m: Message)
    requires ParseMessage(text) == Some(m)
    ensures ParseMessage(residue + text) == Some(m) <==> residue == []
  {
    ParseIff(text, m);
    ParseIff(residue + text, m);
    if residue == [] {
      assert residue + text == text;
    }
  }

  /** For example, a piece of a method becomes part of the next method. */
  lemma PieceOfMethod(residue: Bytes, m: Message)
    requires residue != [] && Lacks(residue, IsSpace)
    requires GoodMessage(m) && |residue| + |m.line.verb| < METHOD_LIMIT
    ensures ParseMessage(residue) == None
    ensures ParseMessage(residue + MessageText(m)) == Some(m.(line := m.line.(verb := residue + m.line.verb)))
  {
    CutPlace(residue, IsSpace, METHOD_LIMIT);
    var line := m.line.(verb := residue + m.line.verb);
    var polluted := m.(line := line);
    assert LineText(line) == residue + LineText(m.line);
    InFrontOfLine(residue, LineText(m.line), FieldsText(m.fields), m.blank, m.body);
    MessageComplete(polluted);
  }

  lemma InFrontOfLine(residue: Bytes, line: Bytes, fields: Bytes, blank: Bytes, body: Bytes)
    ensures (residue + line) + fields + blank + body == residue + (line + fields + blank + body)
  {
  }

  /** Nothing of the first text reaches the request that the second one holds: the first is
      empty or a request, and its body, if it has one, is replaced. */
  predicate Isolated(first: Bytes, second: Message) {
    match ParseMessage(first)
    case None => first == []
    case Some(m) => m.body == [] || second.body != []
  }

  /** A call reads a message as it stands, and shows its handler what a new request would. */
  predicate SeesItself(second: Bytes, m: Message, parsed: Option<Message>, incoming: Incoming) {
    parsed == Some(m) && incoming == SeenAfresh(second, m)
  }

  /** Two calls one after the other, on a request that was clean, for one client or two. The
      second serves what it has read as a new request would exactly if the texts are isolated. */
  method CallTwice(services: HttpServices, a: TcpSocket, b: TcpSocket, arrived: Kernel,
                   request: HttpRequest, response: HttpResponse, w: World, w': World)
    returns (ghost parsed: Option<Message>, ghost incoming: Incoming)
    requires GoodKernel(a.kernel) && !Spins(a.kernel) && GoodKernel(arrived) && !Spins(arrived)
    requires !a.isListener && !b.isListener && GoodWorld(w) && GoodWorld(w')
    requires Clean(request) && response.View() == PRISTINE
    modifies a, b, request, response
    ensures var first, second := Pending(old(a.kernel.script)), Pending(arrived.script);
            ParseMessage(second).Some? ==>
              (SeesItself(second, ParseMessage(second).value, parsed, incoming) <==>
               Isolated(first, ParseMessage(second).value))
  {
    ghost var first, second := Pending(a.kernel.script), Pending(arrived.script);
    assert [] + first == first;
    var _, _, _, _ := services.Process(a, request, response, w);
    b.kernel := arrived;
    assert [] + second == second;
    var keep;
    ghost var outcome;
    keep, outcome, parsed, incoming := services.Process(b, request, response, w');
  }

  // ---------- what the handler is shown ----------

  /** The connection is kept unless the first header with this name says the opposite, each but
      for case. */
  predicate Kept(headers: seq<Header>, isKeepAlive: bool) {
    match FirstByText(headers, "Connection")
    case None => isKeepAlive
    case Some(value) => Ordinary(value) && '\0' !in value ==> (isKeepAlive <==> !SameText(value, "close"))
  }

  lemma KeepAliveByText(headers: seq<Header>)
    requires AllOrdinary(headers)
    ensures Kept(headers, KeepsAlive(headers))
  {
    LookupIsByText(headers, CONNECTION);
    if Lookup(headers, CONNECTION).Some? {
      var value := Lookup(headers, CONNECTION).value;
      if Ordinary(value) && '\0' !in value {
        NocaseEqualIff(value, CLOSE);
      }
    }
  }

  lemma KeepAliveCollected(fields: seq<Field>)
    requires OrdinaryFields(fields)
    ensures Kept(Pairs(fields), KeepsAlive(Collected([], fields)))
  {
    CollectedLookup([], fields, CONNECTION);
    KeepAliveByText(Pairs(fields));
  }

  /** The parts of a request as its handler sees them, by text. */
  predicate Shows(incoming: Incoming, verb: Bytes, path: Bytes, query: seq<Bytes>, version: Bytes,
                  headers: seq<Header>, body: Bytes) {
    && incoming.verb == verb && incoming.uri == path && incoming.arguments == query && incoming.version == version
    && incoming.body.lo <= incoming.body.hi <= |incoming.rawData|
    && incoming.rawData[incoming.body.lo..incoming.body.hi] == body
    && Kept(headers, incoming.isKeepAlive)
  }

  lemma RequestIsShown(verb: Bytes, path: Bytes, query: seq<Bytes>, version: Bytes, headers: seq<Header>,
                       spaces: nat, body: Bytes)
    requires GoodRequest(verb, query, version, headers)
    ensures var text := RequestText(verb, path, query, version, headers, spaces, body);
            && ParseMessage(text).Some?
            && var incoming := SeenAfresh(text, ParseMessage(text).value);
            && Shows(incoming, verb, path, query, version, headers, body)
            && forall name :: Ordinary(name) && '\0' !in name ==>
                 Lookup(incoming.headers, name) == FirstByText(headers, name)
  {
    var text := RequestText(verb, path, query, version, headers, spaces, body);
    RequestRoundTrip(verb, path, query, version, headers, spaces, body);
    var m := ParseMessage(text).value;
    PairsOrdinary(m.fields, headers);
    MessageShown(text, m);
  }

  /** A call on a clean request to which the kernel delivers the text shows its handler just that. */
  method ServeRequest(services: HttpServices, socket: TcpSocket, request: HttpRequest, response: HttpResponse,
                      w: World, ghost verb: Bytes, ghost path: Bytes, ghost query: seq<Bytes>, ghost version: Bytes,
                      ghost headers: seq<Header>, ghost spaces: nat, ghost body: Bytes)
    returns (keep: bool, ghost outcome: Outcome, ghost incoming: Incoming)
    requires GoodKernel(socket.kernel) && !Spins(socket.kernel) && !socket.isListener && GoodWorld(w)
    requires Clean(request) && response.View() == PRISTINE && GoodRequest(verb, query, version, headers)
    requires Pending(socket.kernel.script) == RequestText(verb, path, query, version, headers, spaces, body)
    modifies socket, request, response
    ensures Shows(incoming, verb, path, query, version, headers, body)
    ensures var reply := ReplyTo(services.routes, services.isAutoKeepAlive, incoming, w);
            && outcome == OutcomeOf(reply, w, old(socket.sends))
            && (outcome.Written? ==> socket.wire == old(socket.wire) + Sent(reply, w))
    ensures keep <==> Keeps(services.maxTimes, socket.times, outcome)
  {
    ghost var text := Pending(socket.kernel.script);
    RequestIsShown(verb, path, query, version, headers, spaces, body);
    assert [] + text == text;
    ghost var parsed;
    keep, outcome, parsed, incoming := services.Process(socket, request, response, w);
  }

  lemma PairsOrdinary(fields: seq<Field>, headers: seq<Header>)
    requires Pairs(fields) == headers && AllOrdinary(headers)
    ensures OrdinaryFields(fields)
  {
    assert forall i :: 0 <= i < |fields| ==> headers[i].0 == fields[i].name;
  }

  lemma MessageShown(text: Bytes, m: Message)
    requires ParseMessage(text) == Some(m) && OrdinaryFields(m.fields)
    ensures Shows(SeenAfresh(text, m), m.line.verb, Unescape(m.line.target), m.line.query, m.line.version,
                  Pairs(m.fields), m.body)
  {
    KeepAliveCollected(m.fields);
    BodyBehind(text, m);
    assert [] + m.line.query == m.line.query;
  }

  /** The body stands at the end of the text. */
  lemma BodyBehind(text: Bytes, m: Message)
    requires ParseMessage(text) == Some(m)
    ensures |m.body| <= |text| && text[|text| - |m.body|..] == m.body
  {
    ParseIff(text, m);
    var front := LineText(m.line) + FieldsText(m.fields) + m.blank;
    assert text == front + m.body;
  }

  // ---------- what becomes of a response ----------

  /** A response goes out whole exactly if it can be sent, the header is taken, and of a file the
      slice is there and the kernel takes it all in as many calls as it likes. */
  lemma WrittenIff(reply: Reply, w: World, sends: seq<int>)
    ensures OutcomeOf(reply, w, sends).Written? <==>
            && 200 <= reply.httpState.code <= 500 && reply.httpState.text != [] && w.accepted
            && (reply.body.FileBody? ==>
                  && (reply.body.count == 0 || reply.body.offset + reply.body.count <= |w.files(reply.body.file)|)
                  && exists k: nat :: Taking(sends, k) && Sum(sends[..k]) >= reply.body.count)
  {
    if reply.body.FileBody? {
      SentWholeIff(w.files(reply.body.file), reply.body.offset, reply.body.count, sends);
    }
  }

  /** The connection outlives a call exactly if the response cannot be sent at all, or has gone
      out, asks to keep it and is within the limit. */
  lemma KeptIff(max: nat, times: nat, reply: Reply, w: World, sends: seq<int>)
    ensures Keeps(max, times, OutcomeOf(reply, w, sends)) <==>
            || !(200 <= reply.httpState.code <= 500 && reply.httpState.text != [])
            || (OutcomeOf(reply, w, sends).Written? && reply.isKeepAlive && times <= max)
  {
  }

  // ---------- all calls for one client ----------

  /** What the outside world does for one call: what arrives, what can be sent, and the rest. */
  datatype Visit = Visit(arrived: Kernel, sends: seq<int>, world: World)

  ghost predicate GoodVisit(v: Visit) {
    GoodKernel(v.arrived) && !Spins(v.arrived) && GoodWorld(v.world)
  }

  /** The calls that a loop makes for one client, until one returns false. Any run of the loop in
      which `process` returns this for some client is one whose outcomes these are. */
  method ServeClient(services: HttpServices, socket: TcpSocket, request: HttpRequest, response: HttpResponse,
                     visits: seq<Visit>)
    returns (results: seq<bool>, ghost outcomes: seq<Outcome>)
    requires forall i :: 0 <= i < |visits| ==> GoodVisit(visits[i])
    requires !socket.isListener && socket.times == 0 && !request.isValid && response.View() == PRISTINE
    modifies socket, request, response
    ensures results == Results(services.maxTimes, 0, outcomes) && EndsAtFalse(results)
    ensures |results| < |visits| ==> results != [] && !results[|results| - 1]
    ensures services.maxTimes > 0 ==> CountWritten(outcomes) <= services.maxTimes + 1
    ensures forall t, listeners, clock, rounds, id ::
              Calls(RegisterFrom(Fresh(t, listeners, clock), 0), rounds, id) == results ==>
              RunsTo(t, listeners, clock, rounds, id, services.maxTimes, outcomes)
  {
    var i, keep := 0, true;
    results, outcomes := [], [];
    while i < |visits| && keep
      invariant 0 <= i <= |visits| && |results| == i && services.maxTimes == old(services.maxTimes)
      invariant results == Results(services.maxTimes, 0, outcomes)
      invariant socket.times == TimesBehind(services.maxTimes, 0, outcomes)
      invariant !request.isValid && response.View() == PRISTINE
      invariant forall k :: 0 <= k < i - 1 ==> results[k]
      invariant i > 0 ==> results[i - 1] == keep
      invariant i == 0 ==> keep
    {
      assert GoodVisit(visits[i]);
      socket.kernel, socket.sends := visits[i].arrived, visits[i].sends;
      ghost var outcome, parsed, incoming;
      keep, outcome, parsed, incoming := services.Process(socket, request, response, visits[i].world);
      OneMoreResult(services.maxTimes, 0, outcomes, outcome);
      results, outcomes, i := results + [keep], outcomes + [outcome], i + 1;
    }
    if services.maxTimes > 0 {
      WrittenBound(services.maxTimes, 0, outcomes);
    }
  }
}
