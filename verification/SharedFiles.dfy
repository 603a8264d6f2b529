/**
 A shared file, or a range of it, from the request of a client to the response that it reads.
 */
module SharedFiles {
  import opened Url
  import opened Wrappers
  import opened HeaderMap
  import opened HttpText
  import opened RequestTheorems
  import opened Decimal
  import opened Ranges
  import opened HttpResponse
  import opened ResponseTheorems
  import opened Dispatch
  import opened HttpServices
  import opened ServiceTheorems
  import opened ReplyTheorems

  const RANGE: Bytes := "Range"
  const MODIFIED_SINCE: Bytes := "If-Modified-Since"

  /** `rawHeader`: the value of a header, empty when there is none. */
  function RawHeader(incoming: Incoming, name: Bytes): Bytes {
    OrEmpty(Lookup(incoming.headers, name))
  }

  function OrEmpty(value: Option<Bytes>): Bytes {
    if value.Some? then value.value else []
  }

  /** What the shared-file handler makes of the response that it finds. */
  function Shared(info: FileInfo, incoming: Incoming, found: Reply): Option<Reply> {
    ShareReply(found, info, RawHeader(incoming, RANGE), RawHeader(incoming, MODIFIED_SINCE))
  }

  /** The handler with this number shares the file; when reading the range throws there is no
      response. */
  ghost predicate Shares(w: World, id: nat, info: FileInfo, incoming: Incoming, found: Reply) {
    Shared(info, incoming, found).Some? ==> w.handle(id, incoming, found) == Shared(info, incoming, found).value
  }

  /** A file that is not empty, with its size, and a type and a date that can be printed. */
  predicate GoodFile(info: FileInfo, w: World) {
    && info.size == |w.files(info.file)| && info.size > 0
    && (info.contentType != [] ==> GoodHeader((CONTENT_TYPE, info.contentType)))
    && GoodHeader((LAST_MODIFIED, info.lastModified))
  }

  // ---------- the updates of the response ----------

  /** What the handler does to the headers. */
  function RangeAdded(info: FileInfo, s: Slice): seq<Update> {
    DescribeUpdates(info) + RangeUpdates(s, info.size)
  }

  function WholeAdded(info: FileInfo, modifiedSince: Bytes): seq<Update> {
    DescribeUpdates(info) + WholeUpdates(info, modifiedSince)
  }

  /** The headers of the reply are those of one run of updates, from the empty map. */
  lemma AddedTo(auto: bool, keepAlive: bool, info: FileInfo, more: seq<Update>)
    ensures Updated(Updated(Prepared(auto, keepAlive).headers, DescribeUpdates(info)), more) ==
            RunList(StartUpdates(auto, keepAlive) + (DescribeUpdates(info) + more))
  {
    var start := StartUpdates(auto, keepAlive);
    UpdatedRun(start, DescribeUpdates(info));
    UpdatedRun(start + DescribeUpdates(info), more);
    Regrouped(start, DescribeUpdates(info), more);
  }

  lemma StartGood(auto: bool, keepAlive: bool, more: seq<Update>)
    requires GoodUpdates(more)
    ensures GoodUpdates(StartUpdates(auto, keepAlive) + more)
  {
    GoodNames();
  }

  // ---------- which are in force ----------

  lemma DescriptionSilent(info: FileInfo, name: Bytes)
    requires name in {CONNECTION, CONTENT_RANGE, CONTENT_LENGTH}
    ensures Silent(DescribeUpdates(info), name)
  {
    SizesDiffer(CONTENT_TYPE, name);
    if name != CONTENT_RANGE {
      SizesDiffer(ACCEPT_RANGES, name);
    }
  }

  lemma RangeSilent(info: FileInfo, s: Slice)
    ensures Silent(RangeAdded(info, s), CONNECTION)
  {
    DescriptionSilent(info, CONNECTION);
    SizesDiffer(CONTENT_RANGE, CONNECTION);
    SizesDiffer(CONTENT_LENGTH, CONNECTION);
  }

  lemma RangeGood(info: FileInfo, s: Slice)
    requires info.contentType != [] ==> GoodHeader((CONTENT_TYPE, info.contentType))
    ensures GoodUpdates(RangeAdded(info, s))
  {
    GoodNames();
    assert GoodUpdates(DescribeUpdates(info));
    assert GoodUpdates(RangeUpdates(s, info.size));
  }

  lemma RangeInForce(auto: bool, keepAlive: bool, info: FileInfo, s: Slice)
    requires s.count > 0
    ensures var updates := StartUpdates(auto, keepAlive) + RangeAdded(info, s);
            && InForce(updates, CONTENT_RANGE) == Some(Announcement(s, info.size))
            && InForce(updates, CONTENT_LENGTH) == Some(Print(s.count))
  {
    var start := StartUpdates(auto, keepAlive);
    SizesDiffer(CONNECTION, CONTENT_RANGE);
    DescriptionSilent(info, CONTENT_RANGE);
    SilentBehind([], start + DescribeUpdates(info), CONTENT_RANGE);
    assert [] + (start + DescribeUpdates(info)) == start + DescribeUpdates(info);
    DifferentNames();
    RangeLast(start + DescribeUpdates(info), s, info.size);
    Regrouped(start, DescribeUpdates(info), RangeUpdates(s, info.size));
  }

  lemma RangeLast(front: seq<Update>, s: Slice, total: nat)
    requires s.count > 0
    ensures front + RangeUpdates(s, total) ==
            front + [First((CONTENT_RANGE, Announcement(s, total)))] + [Last((CONTENT_LENGTH, Print(s.count)))]
  {
  }

  // ---------- what arrives ----------

  /** The body that is sent for a range is a piece of the file, as long as the announced length,
      and the announced positions are those of its first and last byte. */
  lemma RangeReachesTheWire(range: Bytes, file: int, w: World)
    requires RangeAsked(range).Some? && w.files(file) != []
    ensures var content := w.files(file);
            var s := SliceFor(range, |content|);
            && s.offset + s.count <= |content| && s.count > 0
            && BodySent(FileBody(file, s.offset, s.count), w) == content[s.offset..s.offset + s.count]
            && Value(Print(s.count)) == |BodySent(FileBody(file, s.offset, s.count), w)|
            && ReadRange(Announcement(s, |content|)) == Some((s.offset, s.offset + s.count - 1, |content|))
  {
    var content := w.files(file);
    var s := SliceFor(range, |content|);
    ServedWithin(RangeAsked(range).value.0, RangeAsked(range).value.1, |content|);
    ReadAnnouncement(s, |content|);
    ValuePrint(s.count);
  }

  /** What a client that asked for a range reads: the slice of the file, how long it is, and where
      it begins and ends in the file. */
  predicate ReadsSlice(received: Option<Received>, content: Bytes, s: Slice, length: Bytes, range: Bytes) {
    && received.Some? && s.count > 0 && s.offset + s.count <= |content|
    && received.value.body == content[s.offset..s.offset + s.count]
    && HeaderRead(received.value, length) == Some(Print(s.count)) && Value(Print(s.count)) == s.count
    && HeaderRead(received.value, range).Some?
    && ReadRange(HeaderRead(received.value, range).value) == Some((s.offset, s.offset + s.count - 1, |content|))
  }

  lemma RangeAnnounced(auto: bool, keepAlive: bool, info: FileInfo, s: Slice, w: World, length: Bytes, range: Bytes)
    requires s.count > 0 && length == CONTENT_LENGTH && range == CONTENT_RANGE
    ensures var updates := StartUpdates(auto, keepAlive) + RangeAdded(info, s);
            && Announced(updates, w, length) == Some(Print(s.count))
            && Announced(updates, w, range) == Some(Announcement(s, info.size))
  {
    forall name | name in {length, range}
      ensures !NocaseEqual("Date", name) && !NocaseEqual("Server", name)
    {
      SizesDiffer("Date", name);
      SizesDiffer("Server", name);
    }
    RangeInForce(auto, keepAlive, info, s);
  }

  lemma SliceRead(received: Received, updates: seq<Update>, reply: Reply, info: FileInfo, s: Slice, w: World,
                  length: Bytes, range: Bytes)
    requires ReadAs(Some(received), updates, reply, w) && Usable(length) && Usable(range)
    requires GoodFile(info, w) && reply.body == FileBody(info.file, s.offset, s.count)
    requires s.count > 0 && s.offset + s.count <= info.size
    requires Announced(updates, w, length) == Some(Print(s.count))
    requires Announced(updates, w, range) == Some(Announcement(s, info.size))
    ensures ReadsSlice(Some(received), w.files(info.file), s, length, range)
  {
    assert HeaderRead(received, length) == Announced(updates, w, length);
    assert HeaderRead(received, range) == Announced(updates, w, range);
    ReadAnnouncement(s, info.size);
    ValuePrint(s.count);
  }

  lemma SharedReply(auto: bool, info: FileInfo, incoming: Incoming, range: Bytes, w: World) returns (reply: Reply)
    requires GoodWorld(w) && GoodHeader(("Date", w.date)) && GoodFile(info, w)
    requires range == RawHeader(incoming, RANGE) && range != [] && RangeAsked(range).Some?
    ensures Shared(info, incoming, Prepared(auto, incoming.isKeepAlive)) == Some(reply)
    ensures reply.isKeepAlive == (auto ==> incoming.isKeepAlive)
    ensures var s := SliceFor(range, info.size);
            && reply.httpState == PARTIAL && reply.body == FileBody(info.file, s.offset, s.count)
            && MadeBy(reply, StartUpdates(auto, incoming.isKeepAlive) + RangeAdded(info, s), w)
            && s.count > 0 && s.offset + s.count <= info.size
  {
    var s := SliceFor(range, info.size);
    reply := Shared(info, incoming, Prepared(auto, incoming.isKeepAlive)).value;
    AddedTo(auto, incoming.isKeepAlive, info, RangeUpdates(s, info.size));
    RangeGood(info, s);
    StartGood(auto, incoming.isKeepAlive, RangeAdded(info, s));
    ServedWithin(RangeAsked(range).value.0, RangeAsked(range).value.1, info.size);
  }

  /** From the header of the request to the response that is read: the slice of the file that
      the range comes to, announced as what it is. */
  lemma SharedRangeArrives(history: seq<Registration>, id: nat, auto: bool, incoming: Incoming, info: FileInfo,
                           w: World)
    requires GoodWorld(w) && GoodHeader(("Date", w.date))
    requires Expected(history, incoming.verb, incoming.uri) == User(id)
    requires GoodFile(info, w) && Shares(w, id, info, incoming, Prepared(auto, incoming.isKeepAlive))
    requires RawHeader(incoming, RANGE) != [] && RangeAsked(RawHeader(incoming, RANGE)).Some?
    ensures var reply := ReplyTo(Routed(history), auto, incoming, w);
            var received := ReadResponse(Sent(reply, w));
            var s := SliceFor(RawHeader(incoming, RANGE), info.size);
            && Sendable(reply) && reply.isKeepAlive == (auto ==> incoming.isKeepAlive)
            && ReadsSlice(received, w.files(info.file), s, "Content-Length", "Content-Range")
            && received.value.code == "206" && received.value.reason == "Partial Content"
            && ReadsConnection(received.value, auto, incoming.isKeepAlive)
  {
    var range := RawHeader(incoming, RANGE);
    var s := SliceFor(range, info.size);
    var reply := SharedReply(auto, info, incoming, range, w);
    RoutedToUser(history, id, auto, incoming, w);
    SharedReplyRead(auto, incoming.isKeepAlive, info, reply, s, w, ReadResponse(Sent(reply, w)));
  }

  lemma SharedReplyRead(auto: bool, keepAlive: bool, info: FileInfo, reply: Reply, s: Slice, w: World,
                        received: Option<Received>)
    requires GoodFile(info, w) && reply.httpState == PARTIAL && reply.body == FileBody(info.file, s.offset, s.count)
    requires MadeBy(reply, StartUpdates(auto, keepAlive) + RangeAdded(info, s), w)
    requires s.count > 0 && s.offset + s.count <= info.size && received == ReadResponse(Sent(reply, w))
    ensures Sendable(reply) && ReadsSlice(received, w.files(info.file), s, "Content-Length", "Content-Range")
    ensures received.value.code == "206" && received.value.reason == "Partial Content"
    ensures ReadsConnection(received.value, auto, keepAlive)
  {
    OwnStates(reply);
    var updates := StartUpdates(auto, keepAlive) + RangeAdded(info, s);
    ReplyArrives(updates, reply, w);
    RangeAnnounced(auto, keepAlive, info, s, w, CONTENT_LENGTH, CONTENT_RANGE);
    SliceRead(received.value, updates, reply, info, s, w, CONTENT_LENGTH, CONTENT_RANGE);
    if auto {
      RangeSilent(info, s);
      ConnectionRead(keepAlive, RangeAdded(info, s), reply, w, received, CONNECTION);
    }
  }

  /** A whole exchange: the client's request is printed, parsed, routed and handled, and the
      client parses the response. It reads a slice of the file, and the one that its range means
      exactly if the range is one that is honoured. */
  lemma RangeExchange(history: seq<Registration>, id: nat, auto: bool, verb: Bytes, path: Bytes, query: seq<Bytes>,
                      version: Bytes, headers: seq<Header>, spaces: nat, body: Bytes, ask: Ask, info: FileInfo,
                      w: World)
    requires GoodWorld(w) && GoodHeader(("Date", w.date))
    requires GoodRequest(verb, query, version, headers)
    requires FirstByText(headers, "Range") == Some(AskText(ask)) && !TooBig(ask)
    requires Expected(history, verb, path) == User(id)
    requires GoodFile(info, w) && forall incoming, found :: Shares(w, id, info, incoming, found)
    ensures var text := RequestText(verb, path, query, version, headers, spaces, body);
            && ParseMessage(text).Some? && RangeAsked(AskText(ask)).Some?
            && var incoming := SeenAfresh(text, ParseMessage(text).value);
            && var received := ReadResponse(Sent(ReplyTo(Routed(history), auto, incoming, w), w));
            && var content := w.files(info.file);
            && var s := SliceFor(AskText(ask), |content|);
            && Shows(incoming, verb, path, query, version, headers, body)
            && ReadsSlice(received, content, s, "Content-Length", "Content-Range")
            && received.value.code == "206" && received.value.reason == "Partial Content"
            && ReadsConnection(received.value, auto, incoming.isKeepAlive)
            && (Some(s) == Meant(ask, |content|) <==> Honoured(ask, |content|))
  {
    var text := RequestText(verb, path, query, version, headers, spaces, body);
    RequestIsShown(verb, path, query, version, headers, spaces, body);
    var incoming := SeenAfresh(text, ParseMessage(text).value);
    ShownHeader(incoming, headers, RANGE);
    ServedIff(ask, |w.files(info.file)|);
    assert Shares(w, id, info, incoming, Prepared(auto, incoming.isKeepAlive));
    SharedRangeArrives(history, id, auto, incoming, info, w);
  }

  lemma ShownHeader(incoming: Incoming, headers: seq<Header>, name: Bytes)
    requires forall n :: Ordinary(n) && '\0' !in n ==> Lookup(incoming.headers, n) == FirstByText(headers, n)
    requires name in {RANGE, MODIFIED_SINCE}
    ensures RawHeader(incoming, name) == OrEmpty(FirstByText(headers, name))
  {
  }

  // ---------- a whole file ----------

  /** No two updates are about one name. */
  predicate Apart(updates: seq<Update>) {
    forall i, j :: 0 <= i < |updates| && 0 <= j < |updates| && i != j ==>
      !NocaseEqual(updates[i].header.0, updates[j].header.0)
  }

  /** Then each of them is in force. */
  lemma SetOnce(updates: seq<Update>, k: nat)
    requires Apart(updates) && k < |updates|
    ensures InForce(updates, updates[k].header.0) == Some(updates[k].header.1)
  {
    var front, u, more := updates[..k], updates[k], updates[k + 1..];
    var name := u.header.0;
    assert updates == (front + [u]) + more;
    SilentBehind(front + [u], more, name);
    SilentBehind([], front, name);
    assert [] + front == front;
    assert (front + [u])[..k] == front;
    SameNameAsItself(name);
  }

  /** The names that are set for a whole file. */
  predicate WholeName(name: Bytes) {
    name in {CONNECTION, CONTENT_TYPE, ACCEPT_RANGES, LAST_MODIFIED, CACHE_CONTROL, CONTENT_LENGTH}
  }

  lemma WholeNames(l: Bytes, r: Bytes)
    requires WholeName(l) && WholeName(r) && l != r
    ensures !NocaseEqual(l, r)
  {
  }

  lemma WholeApart(auto: bool, keepAlive: bool, info: FileInfo, modifiedSince: Bytes)
    ensures Apart(StartUpdates(auto, keepAlive) + WholeAdded(info, modifiedSince))
  {
    var updates := StartUpdates(auto, keepAlive) + WholeAdded(info, modifiedSince);
    forall i, j | 0 <= i < |updates| && 0 <= j < |updates| && i != j
      ensures !NocaseEqual(updates[i].header.0, updates[j].header.0)
    {
      WholeNames(updates[i].header.0, updates[j].header.0);
    }
  }

  lemma WholeGood(info: FileInfo, modifiedSince: Bytes, w: World)
    requires GoodFile(info, w)
    ensures GoodUpdates(WholeAdded(info, modifiedSince))
  {
    GoodNames();
    assert GoodUpdates(DescribeUpdates(info));
    assert GoodUpdates(WholeUpdates(info, modifiedSince));
  }

  lemma WholeAnnounced(auto: bool, keepAlive: bool, info: FileInfo, modifiedSince: Bytes, w: World, k: nat)
    requires k < |WholeAdded(info, modifiedSince)|
    ensures var updates, h := StartUpdates(auto, keepAlive) + WholeAdded(info, modifiedSince),
                              WholeAdded(info, modifiedSince)[k].header;
            Announced(updates, w, h.0) == Some(h.1) && Usable(h.0)
  {
    var start, added := StartUpdates(auto, keepAlive), WholeAdded(info, modifiedSince);
    assert (start + added)[|start| + k] == added[k];
    WholeApart(auto, keepAlive, info, modifiedSince);
    AnnouncedOnce(start + added, w, |start| + k, added[k].header.0);
  }

  lemma AnnouncedOnce(updates: seq<Update>, w: World, k: nat, name: Bytes)
    requires Apart(updates) && k < |updates| && name == updates[k].header.0 && WholeName(name)
    ensures Announced(updates, w, name) == Some(updates[k].header.1) && Usable(name)
  {
    SetOnce(updates, k);
    PrintersDiffer("Date", "Server", name);
  }

  lemma PrintersDiffer(date: Bytes, server: Bytes, name: Bytes)
    requires |date| == 4 && |server| == 6 && WholeName(name)
    ensures !NocaseEqual(date, name) && !NocaseEqual(server, name) && Usable(name)
  {
    SizesDiffer(date, name);
    SizesDiffer(server, name);
  }

  /** The response that the handler leaves when no range is asked for. */
  function WholeLeft(auto: bool, keepAlive: bool, info: FileInfo, since: Bytes): Reply {
    var headers := RunList(StartUpdates(auto, keepAlive) + WholeAdded(info, since));
    var kept := Prepared(auto, keepAlive).isKeepAlive;
    if since == info.lastModified then Reply(NOT_MODIFIED, headers, StringBody([]), kept)
    else Reply(SUCCESS, headers, FileBody(info.file, 0, info.size), kept)
  }

  lemma WholeShared(auto: bool, info: FileInfo, incoming: Incoming, since: Bytes)
    requires RawHeader(incoming, RANGE) == [] && since == RawHeader(incoming, MODIFIED_SINCE) && info.size > 0
    ensures Shared(info, incoming, Prepared(auto, incoming.isKeepAlive)) ==
            Some(WholeLeft(auto, incoming.isKeepAlive, info, since))
  {
    AddedTo(auto, incoming.isKeepAlive, info, WholeUpdates(info, since));
  }

  lemma WholeMadeBy(auto: bool, keepAlive: bool, info: FileInfo, since: Bytes, w: World)
    requires GoodWorld(w) && GoodHeader(("Date", w.date)) && GoodFile(info, w)
    ensures MadeBy(WholeLeft(auto, keepAlive, info, since), StartUpdates(auto, keepAlive) + WholeAdded(info, since), w)
  {
    WholeGood(info, since, w);
    StartGood(auto, keepAlive, WholeAdded(info, since));
  }

  /** What a client that asked for a file reads: all of it, or that the client has it already. */
  predicate ReadsWhole(received: Received, info: FileInfo, content: Bytes, cached: bool) {
    && received.code == (if cached then "304" else "200")
    && received.reason == (if cached then "Not Modified" else "OK")
    && received.body == (if cached then [] else content)
    && (!cached ==> HeaderRead(received, "Content-Length") == Some(Print(|content|)))
    && (info.contentType != [] ==> HeaderRead(received, "Content-Type") == Some(info.contentType))
    && HeaderRead(received, "Accept-Ranges") == Some("bytes")
    && HeaderRead(received, "Last-Modified") == Some(info.lastModified)
    && HeaderRead(received, "Cache-Control") == Some(if cached then "max-age=0, public" else "public")
  }

  lemma WholeHeaders(auto: bool, keepAlive: bool, info: FileInfo, since: Bytes, reply: Reply, w: World,
                     received: Received)
    requires ReadAs(Some(received), StartUpdates(auto, keepAlive) + WholeAdded(info, since), reply, w)
    ensures forall k :: 0 <= k < |WholeAdded(info, since)| ==>
              HeaderRead(received, WholeAdded(info, since)[k].header.0) == Some(WholeAdded(info, since)[k].header.1)
  {
    forall k | 0 <= k < |WholeAdded(info, since)|
      ensures HeaderRead(received, WholeAdded(info, since)[k].header.0) == Some(WholeAdded(info, since)[k].header.1)
    {
      WholeAnnounced(auto, keepAlive, info, since, w, k);
    }
  }

  lemma WholeRead(info: FileInfo, since: Bytes, reply: Reply, w: World, received: Received)
    requires Reads(Some(received), reply, w) && GoodFile(info, w)
    requires forall k :: 0 <= k < |WholeAdded(info, since)| ==>
               HeaderRead(received, WholeAdded(info, since)[k].header.0) == Some(WholeAdded(info, since)[k].header.1)
    requires if since == info.lastModified then reply.httpState == NOT_MODIFIED && reply.body == StringBody([])
             else reply.httpState == SUCCESS && reply.body == FileBody(info.file, 0, info.size)
    ensures ReadsWhole(received, info, w.files(info.file), since == info.lastModified) && Sendable(reply)
  {
    OwnStates(reply);
    var added, d := WholeAdded(info, since), |DescribeUpdates(info)|;
    assert added[0] == DescribeUpdates(info)[0] && added[d - 1].header == (ACCEPT_RANGES, BYTES);
    assert added[d].header == (LAST_MODIFIED, info.lastModified);
    assert added[d + 1].header.0 == CACHE_CONTROL;
    assert since != info.lastModified ==> added[d + 2].header == (CONTENT_LENGTH, Print(info.size));
  }

  /** A whole exchange for a shared file without a range. */
  lemma WholeExchange(history: seq<Registration>, id: nat, auto: bool, verb: Bytes, path: Bytes, query: seq<Bytes>,
                      version: Bytes, headers: seq<Header>, spaces: nat, body: Bytes, info: FileInfo, w: World)
    requires GoodWorld(w) && GoodHeader(("Date", w.date))
    requires GoodRequest(verb, query, version, headers)
    requires OrEmpty(FirstByText(headers, "Range")) == []
    requires Expected(history, verb, path) == User(id)
    requires GoodFile(info, w) && forall incoming, found :: Shares(w, id, info, incoming, found)
    ensures var text := RequestText(verb, path, query, version, headers, spaces, body);
            && ParseMessage(text).Some?
            && var incoming := SeenAfresh(text, ParseMessage(text).value);
            && var reply := ReplyTo(Routed(history), auto, incoming, w);
            && var received := ReadResponse(Sent(reply, w));
            && Shows(incoming, verb, path, query, version, headers, body) && received.Some?
            && Sendable(reply) && reply.isKeepAlive == (auto ==> incoming.isKeepAlive)
            && ReadsWhole(received.value, info, w.files(info.file),
                          OrEmpty(FirstByText(headers, "If-Modified-Since")) == info.lastModified)
            && ReadsConnection(received.value, auto, incoming.isKeepAlive)
  {
    var text := RequestText(verb, path, query, version, headers, spaces, body);
    RequestIsShown(verb, path, query, version, headers, spaces, body);
    var incoming := SeenAfresh(text, ParseMessage(text).value);
    ShownHeader(incoming, headers, RANGE);
    ShownHeader(incoming, headers, MODIFIED_SINCE);
    var since := RawHeader(incoming, MODIFIED_SINCE);
    var reply := WholeLeft(auto, incoming.isKeepAlive, info, since);
    WholeShared(auto, info, incoming, since);
    RoutedToUser(history, id, auto, incoming, w);
    assert Shares(w, id, info, incoming, Prepared(auto, incoming.isKeepAlive));
    WholeReplyRead(auto, incoming.isKeepAlive, info, since, reply, w, ReadResponse(Sent(reply, w)));
  }

  lemma WholeReplyRead(auto: bool, keepAlive: bool, info: FileInfo, since: Bytes, reply: Reply, w: World,
                       received: Option<Received>)
    requires GoodWorld(w) && GoodHeader(("Date", w.date)) && GoodFile(info, w)
    requires reply == WholeLeft(auto, keepAlive, info, since)
    requires received == ReadResponse(Sent(reply, w))
    ensures received.Some? && Sendable(reply)
    ensures ReadsWhole(received.value, info, w.files(info.file), since == info.lastModified)
    ensures ReadsConnection(received.value, auto, keepAlive)
  {
    WholeMadeBy(auto, keepAlive, info, since, w);
    ReplyArrives(StartUpdates(auto, keepAlive) + WholeAdded(info, since), reply, w);
    WholeHeaders(auto, keepAlive, info, since, reply, w, received.value);
    WholeRead(info, since, reply, w, received.value);
    if auto {
      WholeSilent(info, since);
      ConnectionRead(keepAlive, WholeAdded(info, since), reply, w, received, CONNECTION);
    }
  }

  lemma WholeSilent(info: FileInfo, since: Bytes)
    ensures Silent(WholeAdded(info, since), CONNECTION)
  {
    var added := WholeAdded(info, since);
    forall i | 0 <= i < |added|
      ensures !NocaseEqual(added[i].header.0, CONNECTION)
    {
      WholeNames(added[i].header.0, CONNECTION);
    }
  }
}
