/**
 Where the parts of an accepted request lie in the raw data: in order, within it, without
 overlapping, and with the delimiters between them.
 */
module Framing {
  import opened Url
  import opened Wrappers
  import opened HttpText
  import opened HttpTheorems

  /** The text stands at this place. */
  predicate At(data: Bytes, lo: nat, text: Bytes) {
    lo + |text| <= |data| && data[lo..lo + |text|] == text
  }

  predicate CharAt(data: Bytes, i: nat, c: Byte) {
    i < |data| && data[i] == c
  }

  /** The arguments one behind the other, with an ampersand between any two. */
  predicate QueryAt(data: Bytes, lo: nat, query: seq<Bytes>, hi: nat)
    requires query != []
    decreases |query|
  {
    var end := lo + |query[0]|;
    && At(data, lo, query[0])
    && if |query| == 1 then hi == end else CharAt(data, end, '&') && QueryAt(data, end + 1, query[1..], hi)
  }

  /** The target, the arguments behind a question mark if there are any, and a space. */
  predicate TargetAt(data: Bytes, lo: nat, target: Bytes, query: seq<Bytes>, hi: nat) {
    var end := lo + |target|;
    && At(data, lo, target) && CharAt(data, hi, ' ')
    && if query == [] then hi == end else CharAt(data, end, '?') && QueryAt(data, end + 1, query, hi)
  }

  predicate FieldAt(data: Bytes, lo: nat, f: Field) {
    var colon := lo + |f.name|;
    var value := colon + 1 + f.spaces;
    && At(data, lo, f.name) && CharAt(data, colon, ':')
    && (forall i :: colon < i < value ==> CharAt(data, i, ' '))
    && At(data, value, f.value) && CharAt(data, value + |f.value|, '\r')
  }

  /** The header fields one behind the other. */
  predicate FieldsAt(data: Bytes, lo: nat, fields: seq<Field>, hi: nat)
    decreases |fields|
  {
    if fields == [] then hi == lo
    else FieldAt(data, lo, fields[0]) && FieldsAt(data, lo + |FieldText(fields[0])|, fields[1..], hi)
  }

  // ---------- texts in their places ----------

  lemma PartAt(before: Bytes, text: Bytes, after: Bytes)
    ensures At(before + (text + after), |before|, text)
  {
    var data := before + (text + after);
    assert data[|before|..|before| + |text|] == text;
  }

  lemma {:induction false} QueryPlaced(before: Bytes, query: seq<Bytes>, after: Bytes)
    requires query != []
    ensures QueryAt(before + (QueryText(query) + after), |before|, query, |before| + |QueryText(query)|)
    decreases |query|
  {
    if |query| == 1 {
      PartAt(before, query[0], after);
    } else {
      var tail := QueryText(query[1..]) + after;
      Regrouped(query[0] + "&", QueryText(query[1..]), after);
      Regrouped(query[0], "&", tail);
      PartAt(before, query[0], "&" + tail);
      Regrouped(before, query[0] + "&", tail);
      QueryPlaced(before + (query[0] + "&"), query[1..], after);
    }
  }

  lemma TargetPlaced(before: Bytes, target: Bytes, query: seq<Bytes>, after: Bytes)
    ensures TargetAt(before + (TargetText(target, query) + after), |before|, target, query,
                     |before| + |TargetText(target, query)| - 1)
  {
    var data := before + (TargetText(target, query) + after);
    if query == [] {
      assert data == before + (target + (" " + after));
      PartAt(before, target, " " + after);
    } else {
      var next := before + target + "?";
      assert data == before + (target + ("?" + QueryText(query) + " " + after));
      PartAt(before, target, "?" + QueryText(query) + " " + after);
      assert data == next + (QueryText(query) + (" " + after));
      QueryPlaced(next, query, " " + after);
    }
  }

  lemma FieldPlaced(before: Bytes, f: Field, after: Bytes)
    ensures FieldAt(before + (FieldText(f) + after), |before|, f)
  {
    var data := before + (FieldText(f) + after);
    var fromValue := f.value + ("\r" + f.lf + after);
    var front := before + f.name + ":" + Spaces(f.spaces);
    assert data == before + (f.name + (":" + Spaces(f.spaces) + fromValue));
    PartAt(before, f.name, ":" + Spaces(f.spaces) + fromValue);
    assert data == front + fromValue;
    PartAt(front, f.value, "\r" + f.lf + after);
  }

  lemma FirstFieldPlaced(data: Bytes, before: Bytes, fields: seq<Field>, after: Bytes)
    requires fields != [] && data == before + (FieldsText(fields) + after)
    ensures FieldAt(data, |before|, fields[0])
    ensures data == (before + FieldText(fields[0])) + (FieldsText(fields[1..]) + after)
  {
    var first, tail := FieldText(fields[0]), FieldsText(fields[1..]) + after;
    Regrouped(first, FieldsText(fields[1..]), after);
    FieldPlaced(before, fields[0], tail);
    Regrouped(before, first, tail);
  }

  lemma {:induction false} FieldsPlaced(data: Bytes, before: Bytes, fields: seq<Field>, after: Bytes, lo: nat, hi: nat)
    requires data == before + (FieldsText(fields) + after) && lo == |before| && hi == lo + |FieldsText(fields)|
    ensures FieldsAt(data, lo, fields, hi)
    decreases |fields|
  {
    if fields != [] {
      var first := FieldText(fields[0]);
      FirstFieldPlaced(data, before, fields, after);
      FieldsPlaced(data, before + first, fields[1..], after, lo + |first|, hi);
    }
  }

  // ---------- the whole request ----------

  /** Where the target, the version, the fields and the body begin. */
  datatype Places = Places(target: nat, version: nat, fields: nat, blank: nat, body: nat)

  function PlacesOf(m: Message): Places {
    var target := |m.line.verb| + 1;
    var version := target + |TargetText(m.line.target, m.line.query)|;
    var fields := version + |m.line.version| + 1 + |m.line.lf|;
    var blank := fields + |FieldsText(m.fields)|;
    Places(target, version, fields, blank, blank + |m.blank|)
  }

  /** Method, target, version, fields and body, in this order. */
  predicate Framed(data: Bytes, m: Message) {
    LineAt(data, m) && FieldsAt(data, PlacesOf(m).fields, m.fields, PlacesOf(m).blank) && BodyAt(data, m)
  }

  predicate LineAt(data: Bytes, m: Message) {
    var p := PlacesOf(m);
    && At(data, 0, m.line.verb) && CharAt(data, p.target - 1, ' ')
    && TargetAt(data, p.target, m.line.target, m.line.query, p.version - 1)
    && At(data, p.version, m.line.version) && CharAt(data, p.version + |m.line.version|, '\r')
  }

  predicate BodyAt(data: Bytes, m: Message) {
    At(data, PlacesOf(m).body, m.body) && PlacesOf(m).body + |m.body| == |data|
  }

  /** Every request that is accepted is framed. */
  lemma AcceptedIsFramed(data: Bytes, m: Message)
    requires ParseMessage(data) == Some(m)
    ensures Framed(data, m)
  {
    ParseIff(data, m);
    MessageParts(m, m.blank + m.body);
    LineFramed(data, m);
    FieldsFramed(data, m);
    BodyFramed(data, m);
  }

  lemma FieldsFramed(data: Bytes, m: Message)
    requires data == LineText(m.line) + (FieldsText(m.fields) + (m.blank + m.body))
    ensures FieldsAt(data, PlacesOf(m).fields, m.fields, PlacesOf(m).blank)
  {
    FieldsPlaced(data, LineText(m.line), m.fields, m.blank + m.body, PlacesOf(m).fields, PlacesOf(m).blank);
  }

  lemma LineFramed(data: Bytes, m: Message)
    requires data == LineText(m.line) + (FieldsText(m.fields) + (m.blank + m.body))
    ensures LineAt(data, m)
  {
    LinePlaced(m.line, FieldsText(m.fields) + (m.blank + m.body));
  }

  lemma BodyFramed(data: Bytes, m: Message)
    requires data == LineText(m.line) + (FieldsText(m.fields) + (m.blank + m.body))
    ensures BodyAt(data, m)
  {
    Regrouped(LineText(m.line), FieldsText(m.fields), m.blank + m.body);
  }

  lemma LinePlaced(l: Line, after: Bytes)
    ensures var data := LineText(l) + after;
            var version := |l.verb| + 1 + |TargetText(l.target, l.query)|;
            && At(data, 0, l.verb) && CharAt(data, |l.verb|, ' ')
            && TargetAt(data, |l.verb| + 1, l.target, l.query, version - 1)
            && At(data, version, l.version) && CharAt(data, version + |l.version|, '\r')
  {
    var target, behind := TargetText(l.target, l.query), ['\r'] + (l.lf + after);
    var front := l.verb + [' '];
    LineGrouped(l, target, behind, after);
    VerbPlaced(l.verb, [' '] + (target + (l.version + behind)));
    TargetPlaced(front, l.target, l.query, l.version + behind);
    PartAt(front + target, l.version, behind);
    assert behind[0] == '\r';
  }

  /** The text of the line as it stands around the method, the target and the version. */
  lemma LineGrouped(l: Line, target: Bytes, behind: Bytes, after: Bytes)
    requires target == TargetText(l.target, l.query) && behind == ['\r'] + (l.lf + after)
    ensures LineText(l) + after == l.verb + ([' '] + (target + (l.version + behind)))
    ensures LineText(l) + after == (l.verb + [' ']) + (target + (l.version + behind))
    ensures LineText(l) + after == ((l.verb + [' ']) + target) + (l.version + behind)
  {
    LineParts(l, after);
    Regrouped(l.version, ['\r'], l.lf + after);
    Regrouped(l.verb, [' '], target + (l.version + behind));
    Regrouped(l.verb + [' '], target, l.version + behind);
  }

  lemma VerbPlaced(verb: Bytes, after: Bytes)
    ensures At(verb + after, 0, verb) && (after != [] ==> CharAt(verb + after, |verb|, after[0]))
  {
    assert (verb + after)[..|verb|] == verb;
  }
}
