/**
 The grammar of requests that TinyWebServer/src/http/httprequest.cpp accepts, as parsing
 functions on the text that is left, and the printer that they invert.
 */
module HttpText {
  import opened Url
  import opened Wrappers
  import opened HeaderMap

  // ---------- cutting at a delimiter ----------

  datatype Cut = Cut(text: Bytes, delimiter: Byte, rest: Bytes)

  /** The text in front of the first character that satisfies `limit`, which has to be among
      the first `max` characters unless `max` is 0. */
  function CutAt(s: Bytes, limit: Byte -> bool, max: nat): Option<Cut> {
    if s == [] then None
    else if limit(s[0]) then Some(Cut([], s[0], s[1..]))
    else if max == 1 then None
    else
      match CutAt(s[1..], limit, if max == 0 then 0 else max - 1)
      case None => None
      case Some(c) => Some(Cut([s[0]] + c.text, c.delimiter, c.rest))
  }

  predicate Lacks(text: Bytes, limit: Byte -> bool) {
    forall i :: 0 <= i < |text| ==> !limit(text[i])
  }

  predicate IsCut(s: Bytes, limit: Byte -> bool, max: nat, c: Cut) {
    && s == c.text + [c.delimiter] + c.rest
    && limit(c.delimiter) && Lacks(c.text, limit)
    && (max > 0 ==> |c.text| < max)
  }

  lemma {:induction false} CutAtSound(s: Bytes, limit: Byte -> bool, max: nat)
    ensures CutAt(s, limit, max).Some? ==> IsCut(s, limit, max, CutAt(s, limit, max).value)
  {
    if s != [] && limit(s[0]) {
      assert s == [] + [s[0]] + s[1..];
    } else if s != [] && max != 1 {
      var fewer := if max == 0 then 0 else max - 1;
      CutAtSound(s[1..], limit, fewer);
      if CutAt(s[1..], limit, fewer).Some? {
        var c := CutAt(s[1..], limit, fewer).value;
        assert s == [s[0]] + s[1..];
        assert s == ([s[0]] + c.text) + [c.delimiter] + c.rest;
      }
    }
  }

  lemma {:induction false} CutAtComplete(s: Bytes, limit: Byte -> bool, max: nat, c: Cut)
    requires IsCut(s, limit, max, c)
    ensures CutAt(s, limit, max) == Some(c)
    decreases |s|
  {
    if c.text == [] {
      assert s[0] == c.delimiter && s[1..] == c.rest;
    } else {
      var shorter := Cut(c.text[1..], c.delimiter, c.rest);
      assert s[0] == c.text[0] && s[1..] == c.text[1..] + [c.delimiter] + c.rest;
      CutAtComplete(s[1..], limit, if max == 0 then 0 else max - 1, shorter);
      assert [s[0]] + shorter.text == c.text;
    }
  }

  lemma CutAtIff(s: Bytes, limit: Byte -> bool, max: nat, c: Cut)
    ensures CutAt(s, limit, max) == Some(c) <==> IsCut(s, limit, max, c)
  {
    CutAtSound(s, limit, max);
    if IsCut(s, limit, max, c) {
      CutAtComplete(s, limit, max, c);
    }
  }

  lemma CutPlace(s: Bytes, limit: Byte -> bool, max: nat)
    ensures CutAt(s, limit, max).Some? ==>
              var k := |CutAt(s, limit, max).value.text|;
              k < |s| && limit(s[k]) && (max > 0 ==> k < max)
  {
    if CutAt(s, limit, max).Some? {
      CutAtIff(s, limit, max, CutAt(s, limit, max).value);
    }
  }

  predicate IsSpace(c: Byte) { c == ' ' }
  predicate EndsTarget(c: Byte) { c == '?' || c == ' ' }
  predicate EndsArgument(c: Byte) { c == '&' || c == ' ' }
  predicate IsColon(c: Byte) { c == ':' }
  predicate IsReturn(c: Byte) { c == '\r' }

  const METHOD_LIMIT: nat := 8
  const VERSION_LIMIT: nat := 10

  const CONNECTION: Bytes := "Connection"
  const CLOSE: Bytes := "close"
  const KEEP_ALIVE: Bytes := "keep-alive"

  // ---------- the request line ----------

  /** `query` is empty when the target is not followed by a question mark. `lf` is what was
      skipped behind the carriage return: nothing checks that it is a line feed. */
  datatype Line = Line(verb: Bytes, target: Bytes, query: seq<Bytes>, version: Bytes, lf: Bytes)

  /** What is skipped without a look: up to n characters. */
  function Skipped(s: Bytes, n: nat): Bytes {
    if |s| < n then s else s[..n]
  }

  function Skip(s: Bytes, n: nat): Bytes {
    if |s| < n then [] else s[n..]
  }

  function ParseQuery(s: Bytes): Option<(seq<Bytes>, Bytes)>
    decreases |s|
  {
    match CutAt(s, EndsArgument, 0)
    case None => None
    case Some(c) =>
      if c.delimiter != '&' then Some(([c.text], c.rest))
      else
        CutShrinks(s, EndsArgument, 0);
        match ParseQuery(c.rest)
        case None => None
        case Some((args, rest)) => Some(([c.text] + args, rest))
  }

  lemma CutShrinks(s: Bytes, limit: Byte -> bool, max: nat)
    ensures CutAt(s, limit, max).Some? ==> |CutAt(s, limit, max).value.rest| < |s|
  {
    if CutAt(s, limit, max).Some? {
      CutAtIff(s, limit, max, CutAt(s, limit, max).value);
    }
  }

  /** The target with its query, up to and with the space behind it. */
  function ParseTarget(s: Bytes): Option<(Bytes, seq<Bytes>, Bytes)> {
    match CutAt(s, EndsTarget, 0)
    case None => None
    case Some(t) =>
      if t.delimiter != '?' then Some((t.text, [], t.rest))
      else
        match ParseQuery(t.rest)
        case None => None
        case Some((query, rest)) => Some((t.text, query, rest))
  }

  function ParseLine(s: Bytes): Option<(Line, Bytes)> {
    match CutAt(s, IsSpace, METHOD_LIMIT)
    case None => None
    case Some(m) =>
      match ParseTarget(m.rest)
      case None => None
      case Some((target, query, rest)) =>
        match CutAt(rest, IsReturn, VERSION_LIMIT)
        case None => None
        case Some(v) => Some((Line(m.text, target, query, v.text, Skipped(v.rest, 1)), Skip(v.rest, 1)))
  }

  // ---------- the header fields ----------

  datatype Field = Field(name: Bytes, spaces: nat, value: Bytes, lf: Bytes)

  function LeadingSpaces(s: Bytes): (n: nat)
    ensures n <= |s| && forall i :: 0 <= i < n ==> s[i] == ' '
    ensures n < |s| ==> s[n] != ' '
  {
    if s == [] || s[0] != ' ' then 0 else 1 + LeadingSpaces(s[1..])
  }

  /** The value, with the number of spaces in front of it. */
  function ParseValue(s: Bytes): Option<(nat, Cut)> {
    var spaces := LeadingSpaces(s);
    match CutAt(s[spaces..], IsReturn, 0)
    case None => None
    case Some(v) => Some((spaces, v))
  }

  function ParseField(s: Bytes): Option<(Field, Bytes)> {
    match CutAt(s, IsColon, 0)
    case None => None
    case Some(n) =>
      match ParseValue(n.rest)
      case None => None
      case Some((spaces, v)) => Some((Field(n.text, spaces, v.text, Skipped(v.rest, 1)), Skip(v.rest, 1)))
  }

  /** Fields up to the end or a line that starts with a carriage return. */
  function ParseFields(s: Bytes): Option<(seq<Field>, Bytes)>
    decreases |s|
  {
    if s == [] || s[0] == '\r' then Some(([], s))
    else
      match ParseField(s)
      case None => None
      case Some((f, rest)) =>
        FieldShrinks(s);
        match ParseFields(rest)
        case None => None
        case Some((fs, end)) => Some(([f] + fs, end))
  }

  lemma FieldShrinks(s: Bytes)
    ensures ParseField(s).Some? ==> |ParseField(s).value.1| < |s|
  {
    CutShrinks(s, IsColon, 0);
    match CutAt(s, IsColon, 0)
    case None =>
    case Some(n) => CutShrinks(n.rest[LeadingSpaces(n.rest)..], IsReturn, 0);
  }

  // ---------- the message ----------

  /** `blank` is what is skipped in front of the body. */
  datatype Message = Message(line: Line, fields: seq<Field>, blank: Bytes, body: Bytes)

  function ParseMessage(s: Bytes): Option<Message> {
    match ParseLine(s)
    case None => None
    case Some((line, rest)) =>
      match ParseFields(rest)
      case None => None
      case Some((fields, end)) => Some(Message(line, fields, Skipped(end, 2), Skip(end, 2)))
  }

  // ---------- the printer ----------

  function QueryText(query: seq<Bytes>): Bytes
    requires query != []
  {
    if |query| == 1 then query[0] else query[0] + "&" + QueryText(query[1..])
  }

  function TargetText(target: Bytes, query: seq<Bytes>): Bytes {
    target + (if query == [] then "" else "?" + QueryText(query)) + " "
  }

  function LineText(l: Line): Bytes {
    l.verb + " " + TargetText(l.target, l.query) + l.version + "\r" + l.lf
  }

  function Spaces(n: nat): Bytes {
    seq(n, _ => ' ')
  }

  function FieldText(f: Field): Bytes {
    f.name + ":" + Spaces(f.spaces) + f.value + "\r" + f.lf
  }

  function FieldsText(fields: seq<Field>): Bytes {
    if fields == [] then [] else FieldText(fields[0]) + FieldsText(fields[1..])
  }

  /** A header on a line of its own. */
  function HeaderField(h: Header, spaces: nat): Field {
    Field(h.0, spaces, h.1, "\n")
  }

  function HeaderFields(headers: seq<Header>, spaces: nat): (fields: seq<Field>)
    ensures |fields| == |headers|
  {
    seq(|headers|, i requires 0 <= i < |headers| => HeaderField(headers[i], spaces))
  }

  function Pairs(fields: seq<Field>): (headers: seq<Header>)
    ensures |headers| == |fields|
  {
    seq(|fields|, i requires 0 <= i < |fields| => (fields[i].name, fields[i].value))
  }

  function MessageText(m: Message): Bytes {
    LineText(m.line) + FieldsText(m.fields) + m.blank + m.body
  }

  // ---------- which messages ----------

  predicate GoodLine(l: Line) {
    && |l.verb| < 8 && Lacks(l.verb, IsSpace)
    && Lacks(l.target, EndsTarget)
    && (forall i :: 0 <= i < |l.query| ==> Lacks(l.query[i], EndsArgument))
    && |l.version| < 10 && Lacks(l.version, IsReturn)
    && |l.lf| <= 1
  }

  predicate GoodField(f: Field) {
    && Lacks(f.name, IsColon) && (f.name != [] ==> f.name[0] != '\r')
    && Lacks(f.value, IsReturn) && (f.value != [] ==> f.value[0] != ' ')
    && |f.lf| <= 1
  }

  /** A character that should have been skipped is only missing at the very end. */
  predicate GoodFields(fields: seq<Field>, end: Bytes) {
    && (forall i :: 0 <= i < |fields| ==> GoodField(fields[i]))
    && (forall i :: 0 <= i < |fields| && |fields[i].lf| < 1 ==> i == |fields| - 1 && end == [])
    && (end != [] ==> end[0] == '\r')
  }

  predicate GoodMessage(m: Message) {
    && GoodLine(m.line) && GoodFields(m.fields, m.blank + m.body)
    && |m.blank| <= 2 && (|m.blank| < 2 ==> m.body == [])
    && (m.line.lf == [] ==> m.fields == [] && m.blank == [])
  }
}
