/**
 The routing tables of TinyWebServer/src/http/httpservices.cpp, and what they decide: for any
 history of registrations the handler that a reading of the history backwards finds.
 */
module Dispatch {
  import opened Url
  import opened Wrappers

  datatype Handler = MethodNotAllowed | NotFound | User(id: nat)

  datatype UriHandler = UriHandler(uriHandlers: map<Bytes, Handler>, defaultHandler: Handler)

  /** The tables, by method, and the handler for all other methods. */
  datatype Routes = Routes(services: map<Bytes, UriHandler>, defaultHandler: Handler)

  const UNTOUCHED: Routes := Routes(map[], MethodNotAllowed)

  datatype Registration =
    | Service(verb: Bytes, uri: Bytes, handler: Handler)
    | VerbDefault(verb: Bytes, handler: Handler)
    | Default(handler: Handler)

  function Registered(routes: Routes, r: Registration): Routes {
    match r
    case Service(verb, uri, handler) =>
      var entry := if verb !in routes.services then UriHandler(map[uri := handler], NotFound)
                   else routes.services[verb].(uriHandlers := routes.services[verb].uriHandlers[uri := handler]);
      routes.(services := routes.services[verb := entry])
    case VerbDefault(verb, handler) =>
      var entry := if verb !in routes.services then UriHandler(map[], handler)
                   else routes.services[verb].(defaultHandler := handler);
      routes.(services := routes.services[verb := entry])
    case Default(handler) => routes.(defaultHandler := handler)
  }

  /** The two-level lookup. */
  function Chosen(routes: Routes, verb: Bytes, uri: Bytes): Handler {
    if verb in routes.services then
      var entry := routes.services[verb];
      if uri in entry.uriHandlers then entry.uriHandlers[uri] else entry.defaultHandler
    else routes.defaultHandler
  }

  function Routed(history: seq<Registration>): Routes {
    if history == [] then UNTOUCHED
    else Registered(Routed(history[..|history| - 1]), history[|history| - 1])
  }

  // ---------- reading the history backwards ----------

  function LatestService(history: seq<Registration>, verb: Bytes, uri: Bytes): Option<Handler> {
    if history == [] then None
    else
      var r := history[|history| - 1];
      if r.Service? && r.verb == verb && r.uri == uri then Some(r.handler)
      else LatestService(history[..|history| - 1], verb, uri)
  }

  function LatestVerbDefault(history: seq<Registration>, verb: Bytes): Option<Handler> {
    if history == [] then None
    else
      var r := history[|history| - 1];
      if r.VerbDefault? && r.verb == verb then Some(r.handler) else LatestVerbDefault(history[..|history| - 1], verb)
  }

  function LatestDefault(history: seq<Registration>): Option<Handler> {
    if history == [] then None
    else
      var r := history[|history| - 1];
      if r.Default? then Some(r.handler) else LatestDefault(history[..|history| - 1])
  }

  /** Whether anything has been registered for the method. */
  predicate Known(history: seq<Registration>, verb: Bytes) {
    exists i :: 0 <= i < |history| && !history[i].Default? && history[i].verb == verb
  }

  function Or(h: Option<Handler>, other: Handler): Handler {
    if h.Some? then h.value else other
  }

  function Expected(history: seq<Registration>, verb: Bytes, uri: Bytes): Handler {
    if LatestService(history, verb, uri).Some? then LatestService(history, verb, uri).value
    else if Known(history, verb) then Or(LatestVerbDefault(history, verb), NotFound)
    else Or(LatestDefault(history), MethodNotAllowed)
  }

  /** What the tables hold for one method is what the history says about it. */
  ghost predicate Agrees(routes: Routes, history: seq<Registration>, verb: Bytes) {
    && (verb in routes.services <==> Known(history, verb))
    && routes.defaultHandler == Or(LatestDefault(history), MethodNotAllowed)
    && (verb !in routes.services ==> LatestVerbDefault(history, verb) == None)
    && (verb in routes.services ==>
          routes.services[verb].defaultHandler == Or(LatestVerbDefault(history, verb), NotFound))
  }

  predicate AgreesAt(routes: Routes, history: seq<Registration>, verb: Bytes, uri: Bytes) {
    LatestService(history, verb, uri) ==
    if verb in routes.services && uri in routes.services[verb].uriHandlers
    then Some(routes.services[verb].uriHandlers[uri]) else None
  }

  lemma {:induction false} TablesAgree(history: seq<Registration>, verb: Bytes, uri: Bytes)
    ensures Agrees(Routed(history), history, verb) && AgreesAt(Routed(history), history, verb, uri)
    decreases |history|
  {
    if history != [] {
      TablesAgree(history[..|history| - 1], verb, uri);
    }
  }

  /** Dispatch refines the history. */
  lemma ChosenIsExpected(history: seq<Registration>, verb: Bytes, uri: Bytes)
    ensures Chosen(Routed(history), verb, uri) == Expected(history, verb, uri)
  {
    TablesAgree(history, verb, uri);
  }
}
