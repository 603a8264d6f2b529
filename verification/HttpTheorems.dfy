/**
 Parsing a request and printing it undo each other, in both directions: the parser accepts
 exactly the texts of well-formed messages, and takes each apart in the only possible way.
 */
module HttpTheorems {
  import opened Url
  import opened Wrappers
  import opened HttpText

  lemma SkipIff(s: Bytes, n: nat, a: Bytes, b: Bytes)
    ensures Skipped(s, n) == a && Skip(s, n) == b <==> s == a + b && |a| <= n && (|a| < n ==> b == [])
  {
    if |s| < n {
      assert s + [] == s;
    } else {
      assert s == s[..n] + s[n..];
    }
  }

  /** The delimiter behind a text that lacks it is where the text is cut. */
  lemma CutText(text: Bytes, delimiter: Byte, rest: Bytes, limit: Byte -> bool, max: nat)
    requires limit(delimiter) && Lacks(text, limit) && (max > 0 ==> |text| < max)
    ensures CutAt(text + [delimiter] + rest, limit, max) == Some(Cut(text, delimiter, rest))
  {
    CutAtIff(text + [delimiter] + rest, limit, max, Cut(text, delimiter, rest));
  }

  // ---------- the query ----------

  lemma {:induction false} QuerySound(s: Bytes)
    requires ParseQuery(s).Some?
    ensures var (query, rest) := ParseQuery(s).value;
            && query != [] && s == QueryText(query) + " " + rest
            && forall i :: 0 <= i < |query| ==> Lacks(query[i], EndsArgument)
    decreases |s|
  {
    var c := CutAt(s, EndsArgument, 0).value;
    CutAtIff(s, EndsArgument, 0, c);
    if c.delimiter == '&' {
      CutShrinks(s, EndsArgument, 0);
      QuerySound(c.rest);
      var (args, rest) := ParseQuery(c.rest).value;
      assert ([c.text] + args)[1..] == args;
      assert s == c.text + "&" + (QueryText(args) + " " + rest);
      assert s == (c.text + "&" + QueryText(args)) + " " + rest;
    } else {
      assert s == c.text + " " + c.rest;
    }
  }

  lemma {:induction false} QueryComplete(query: seq<Bytes>, rest: Bytes)
    requires query != [] && forall i :: 0 <= i < |query| ==> Lacks(query[i], EndsArgument)
    ensures ParseQuery(QueryText(query) + " " + rest) == Some((query, rest))
  {
    var s := QueryText(query) + " " + rest;
    if |query| == 1 {
      CutText(query[0], ' ', rest, EndsArgument, 0);
      assert query == [query[0]];
    } else {
      var tail := QueryText(query[1..]) + " " + rest;
      assert s == query[0] + ['&'] + tail;
      CutText(query[0], '&', tail, EndsArgument, 0);
      QueryComplete(query[1..], rest);
      assert query == [query[0]] + query[1..];
    }
  }

  // ---------- the request line ----------

  lemma TargetSound(s: Bytes)
    requires ParseTarget(s).Some?
    ensures var (target, query, rest) := ParseTarget(s).value;
            && s == TargetText(target, query) + rest && Lacks(target, EndsTarget)
            && forall i :: 0 <= i < |query| ==> Lacks(query[i], EndsArgument)
  {
    var t := CutAt(s, EndsTarget, 0).value;
    CutAtIff(s, EndsTarget, 0, t);
    if t.delimiter == '?' {
      QuerySound(t.rest);
    }
  }

  lemma TargetComplete(target: Bytes, query: seq<Bytes>, rest: Bytes)
    requires Lacks(target, EndsTarget) && forall i :: 0 <= i < |query| ==> Lacks(query[i], EndsArgument)
    ensures ParseTarget(TargetText(target, query) + rest) == Some((target, query, rest))
  {
    var s := TargetText(target, query) + rest;
    if query == [] {
      assert s == target + [' '] + rest;
      CutText(target, ' ', rest, EndsTarget, 0);
    } else {
      var fromQuery := QueryText(query) + " " + rest;
      assert s == target + ['?'] + fromQuery;
      CutText(target, '?', fromQuery, EndsTarget, 0);
      QueryComplete(query, rest);
    }
  }

  lemma LineSound(s: Bytes)
    requires ParseLine(s).Some?
    ensures var (l, rest) := ParseLine(s).value;
            GoodLine(l) && s == LineText(l) + rest && (l.lf == [] ==> rest == [])
  {
    var m := CutAt(s, IsSpace, METHOD_LIMIT).value;
    CutAtIff(s, IsSpace, METHOD_LIMIT, m);
    TargetSound(m.rest);
    var (target, query, fromVersion) := ParseTarget(m.rest).value;
    var v := CutAt(fromVersion, IsReturn, VERSION_LIMIT).value;
    CutAtIff(fromVersion, IsReturn, VERSION_LIMIT, v);
    SkipIff(v.rest, 1, Skipped(v.rest, 1), Skip(v.rest, 1));
    var (l, rest) := ParseLine(s).value;
    LineParts(l, rest);
  }

  lemma LineParts(l: Line, rest: Bytes)
    ensures LineText(l) + rest ==
            l.verb + [' '] + (TargetText(l.target, l.query) + (l.version + ['\r'] + (l.lf + rest)))
  {
  }

  lemma LineComplete(l: Line, rest: Bytes)
    requires GoodLine(l) && (l.lf == [] ==> rest == [])
    ensures ParseLine(LineText(l) + rest) == Some((l, rest))
  {
    var behindVersion := l.lf + rest;
    var fromVersion := l.version + ['\r'] + behindVersion;
    var fromTarget := TargetText(l.target, l.query) + fromVersion;
    LineParts(l, rest);
    SkipIff(behindVersion, 1, l.lf, rest);
    CutText(l.version, '\r', behindVersion, IsReturn, VERSION_LIMIT);
    TargetComplete(l.target, l.query, fromVersion);
    CutText(l.verb, ' ', fromTarget, IsSpace, METHOD_LIMIT);
  }

  // ---------- the header fields ----------

  lemma SpacesSplit(n: nat, text: Bytes)
    requires text != [] ==> text[0] != ' '
    ensures LeadingSpaces(Spaces(n) + text) == n && (Spaces(n) + text)[n..] == text
  {
    var s := Spaces(n) + text;
    var k := LeadingSpaces(s);
    assert k < |s| ==> s[k] != ' ';
    assert n < |s| ==> s[n] == text[0];
  }

  lemma FieldSound(s: Bytes)
    requires ParseField(s).Some? && s[0] != '\r'
    ensures var (f, rest) := ParseField(s).value;
            GoodField(f) && s == FieldText(f) + rest && (f.lf == [] ==> rest == [])
  {
    var n := CutAt(s, IsColon, 0).value;
    CutAtIff(s, IsColon, 0, n);
    var spaces := LeadingSpaces(n.rest);
    var fromValue := n.rest[spaces..];
    var v := CutAt(fromValue, IsReturn, 0).value;
    CutAtIff(fromValue, IsReturn, 0, v);
    SkipIff(v.rest, 1, Skipped(v.rest, 1), Skip(v.rest, 1));
    var (f, rest) := ParseField(s).value;
    SpacesInFront(n.rest);
    FieldParts(f, rest);
    assert f.name != [] ==> s[0] == f.name[0];
    assert f.value != [] ==> f.value[0] == fromValue[0];
  }

  lemma SpacesInFront(s: Bytes)
    ensures s == Spaces(LeadingSpaces(s)) + s[LeadingSpaces(s)..]
  {
    var n := LeadingSpaces(s);
    assert s[..n] == Spaces(n);
    assert s == s[..n] + s[n..];
  }

  lemma FieldParts(f: Field, rest: Bytes)
    ensures FieldText(f) + rest == f.name + [':'] + (Spaces(f.spaces) + (f.value + ['\r'] + (f.lf + rest)))
  {
  }

  lemma FieldComplete(f: Field, rest: Bytes)
    requires GoodField(f) && (f.lf == [] ==> rest == [])
    ensures ParseField(FieldText(f) + rest) == Some((f, rest))
    ensures (FieldText(f) + rest)[0] != '\r'
  {
    var behind := f.lf + rest;
    var fromValue := f.value + ['\r'] + behind;
    var fromSpaces := Spaces(f.spaces) + fromValue;
    FieldParts(f, rest);
    SkipIff(behind, 1, f.lf, rest);
    CutText(f.value, '\r', behind, IsReturn, 0);
    SpacesSplit(f.spaces, fromValue);
    CutText(f.name, ':', fromSpaces, IsColon, 0);
  }

  lemma {:induction false} FieldsSound(s: Bytes)
    requires ParseFields(s).Some?
    ensures var (fields, end) := ParseFields(s).value;
            GoodFields(fields, end) && s == FieldsText(fields) + end
    decreases |s|
  {
    if s == [] || s[0] == '\r' {
      assert s == [] + s;
    } else {
      var (f, rest) := ParseField(s).value;
      FieldSound(s);
      FieldShrinks(s);
      FieldsSound(rest);
      var (fs, end) := ParseFields(rest).value;
      GoodFieldsCons(f, fs, end, rest);
      Regrouped(FieldText(f), FieldsText(fs), end);
    }
  }

  lemma GoodFieldsCons(f: Field, fs: seq<Field>, end: Bytes, rest: Bytes)
    requires GoodField(f) && GoodFields(fs, end) && rest == FieldsText(fs) + end && (f.lf == [] ==> rest == [])
    ensures GoodFields([f] + fs, end) && FieldsText([f] + fs) == FieldText(f) + FieldsText(fs)
  {
    assert ([f] + fs)[1..] == fs;
    assert fs != [] ==> |FieldText(fs[0])| > 0;
    assert f.lf == [] ==> FieldsText(fs) == [];
  }

  lemma GoodFieldsTail(fields: seq<Field>, end: Bytes)
    requires GoodFields(fields, end) && fields != []
    ensures GoodField(fields[0]) && GoodFields(fields[1..], end)
    ensures FieldsText(fields) + end == FieldText(fields[0]) + (FieldsText(fields[1..]) + end)
    ensures fields[0].lf == [] ==> FieldsText(fields[1..]) + end == []
  {
    assert forall i :: 0 <= i < |fields| - 1 ==> fields[1..][i] == fields[i + 1];
    assert |fields[0].lf| < 1 ==> |fields| == 1;
  }

  lemma {:induction false} FieldsComplete(fields: seq<Field>, end: Bytes)
    requires GoodFields(fields, end)
    ensures ParseFields(FieldsText(fields) + end) == Some((fields, end))
    decreases |fields|
  {
    if fields == [] {
      assert FieldsText(fields) + end == end;
    } else {
      var rest := FieldsText(fields[1..]) + end;
      GoodFieldsTail(fields, end);
      FieldComplete(fields[0], rest);
      FieldsComplete(fields[1..], end);
      assert fields == [fields[0]] + fields[1..];
    }
  }

  // ---------- the message ----------

  /** Every field takes up the colon and the carriage return at least, and the skipped
      character besides. */
  lemma {:induction false} FieldsTextSize(fields: seq<Field>)
    ensures |FieldsText(fields)| >= 2 * |fields|
    ensures (forall i :: 0 <= i < |fields| ==> |fields[i].lf| == 1) ==> |FieldsText(fields)| >= 3 * |fields|
  {
    if fields != [] {
      FieldsTextSize(fields[1..]);
    }
  }

  lemma MessageSound(s: Bytes)
    requires ParseMessage(s).Some?
    ensures var m := ParseMessage(s).value; GoodMessage(m) && s == MessageText(m)
  {
    LineSound(s);
    var (line, rest) := ParseLine(s).value;
    FieldsSound(rest);
    var (fields, end) := ParseFields(rest).value;
    SkipIff(end, 2, Skipped(end, 2), Skip(end, 2));
    FieldsTextSize(fields);
    assert line.lf == [] ==> |FieldsText(fields) + end| == 0;
    var m := ParseMessage(s).value;
    MessageParts(m, end);
  }

  lemma MessageParts(m: Message, end: Bytes)
    requires end == m.blank + m.body
    ensures MessageText(m) == LineText(m.line) + (FieldsText(m.fields) + end)
  {
  }

  lemma MessageComplete(m: Message)
    requires GoodMessage(m)
    ensures ParseMessage(MessageText(m)) == Some(m)
  {
    var end := m.blank + m.body;
    var rest := FieldsText(m.fields) + end;
    assert MessageText(m) == LineText(m.line) + rest;
    assert m.line.lf == [] ==> rest == [];
    LineComplete(m.line, rest);
    FieldsComplete(m.fields, end);
    SkipIff(end, 2, m.blank, m.body);
  }

  /** The parser is the inverse of the printer, and defined exactly on its image. */
  lemma ParseIff(s: Bytes, m: Message)
    ensures ParseMessage(s) == Some(m) <==> GoodMessage(m) && s == MessageText(m)
  {
    if ParseMessage(s) == Some(m) {
      MessageSound(s);
    }
    if GoodMessage(m) && s == MessageText(m) {
      MessageComplete(m);
    }
  }
}
