/** Payload extraction: how `on_message` turns the text of a message into the title and
    body handed to the templates. Decoding the bytes and parsing the JSON are done by
    libraries; the model receives their results. */
module Payload {
  import opened Optional
  import opened Pairs

  /** A JSON value as the JSON parser returns it. Numbers keep their literal text. An
      object keeps its fields in the order of the text, the order in which Python's `str`
      of the parsed object shows them. */
  datatype Json =
    | JNull
    | JBool(b: bool)
    | JNumber(literal: string)
    | JString(s: string)
    | JArray(items: seq<Json>)
    | JObject(fields: seq<Field>)

  /** One field of an object: its name and its value. */
  type Field = (string, Json)

  /** The parser's answer: a value, or a decoding error (`JSONDecodeError`/`ValueError`). */
  datatype Parsed = Value(json: Json) | Invalid

  /** The title and body variables of a message. They are JSON values because a field
      taken from a JSON object keeps whatever type it has; plain text is a `JString`. */
  datatype Extracted = Extracted(title: Json, body: Json)

  const TitleField: string := "title"
  const MessageField: string := "message"

  /** Where the last field with the given name is. */
  function LastIndex(fields: seq<Field>, name: string): (i: nat)
    requires name in Keys(fields)
    ensures i < |fields| && fields[i].0 == name
    ensures forall j :: i < j < |fields| ==> fields[j].0 != name
    decreases |fields|
  {
    var last := |fields| - 1;
    if fields[last].0 == name then last
    else
      var init := fields[..last];
      assert name in Keys(init) by {
        var k :| 0 <= k < |fields| && Keys(fields)[k] == name;
        assert Keys(init)[k] == init[k].0;
      }
      LastIndex(init, name)
  }

  /** The value of a named field. A name given twice takes its last value, as
      `json.loads` does. */
  function FieldValue(fields: seq<Field>, name: string): Json
    requires name in Keys(fields)
  {
    fields[LastIndex(fields, name)].1
  }

  /** With every name given once, as in the dictionary `json.loads` returns, a field's
      name gives back that field's value. */
  lemma FieldValueAt(fields: seq<Field>, i: nat)
    requires forall j, k :: 0 <= j < k < |fields| ==> fields[j].0 != fields[k].0
    requires i < |fields|
    ensures fields[i].0 in Keys(fields)
    ensures FieldValue(fields, fields[i].0) == fields[i].1
  {
    assert Keys(fields)[i] == fields[i].0;
    var k := LastIndex(fields, fields[i].0);
    assert k == i;
  }

  /** The last field with a name, counted in the object without its first field, is one
      place earlier; when only the first field has the name, it is that field. */
  lemma LastIndexTail(fields: seq<Field>, name: string)
    requires |fields| > 0 && name in Keys(fields)
    ensures name in Keys(fields[1..]) ==> LastIndex(fields, name) == LastIndex(fields[1..], name) + 1
    ensures name !in Keys(fields[1..]) ==> LastIndex(fields, name) == 0
  {
    var tail := fields[1..];
    var k := LastIndex(fields, name);
    if name in Keys(tail) {
      var i := LastIndex(tail, name);
      assert fields[i + 1] == tail[i];
      forall j | i + 1 < j < |fields|
        ensures fields[j].0 != name
      {
        assert fields[j] == tail[j - 1];
      }
    } else {
      forall j | 0 < j < |fields|
        ensures fields[j].0 != name
      {
        assert Keys(tail)[j - 1] == fields[j].0;
      }
    }
  }

  /** Building the dictionary pair by pair, as `json.loads` does, starting from what is
      already stored under the name: each pair with the name overwrites it. */
  function Build(fields: seq<Field>, name: string, stored: Option<Json>): Option<Json>
    decreases |fields|
  {
    if |fields| == 0 then stored
    else Build(fields[1..], name, if fields[0].0 == name then Some(fields[0].1) else stored)
  }

  /** The dictionary built pair by pair holds under a name exactly the value `FieldValue`
      gives, and whatever was stored before when no pair has the name. */
  lemma {:induction false} BuildKeepsLast(fields: seq<Field>, name: string, stored: Option<Json>)
    ensures Build(fields, name, stored) ==
              if name in Keys(fields) then Some(FieldValue(fields, name)) else stored
    decreases |fields|
  {
    if |fields| > 0 {
      var tail := fields[1..];
      var next := if fields[0].0 == name then Some(fields[0].1) else stored;
      assert Build(fields, name, stored) == Build(tail, name, next);
      BuildKeepsLast(tail, name, next);
      assert Keys(fields) == [fields[0].0] + Keys(tail);
      if name in Keys(fields) {
        LastIndexTail(fields, name);
        if name in Keys(tail) {
          assert fields[LastIndex(fields, name)] == tail[LastIndex(tail, name)];
        }
      }
    }
  }

  predicate IsObject(parsed: Parsed) {
    parsed.Value? && parsed.json.JObject?
  }

  /** Whether the payload is a JSON object holding the given field. */
  predicate HasField(parsed: Parsed, name: string) {
    IsObject(parsed) && name in Keys(parsed.json.fields)
  }

  /** `dict.get(name, default)`. */
  function Get(fields: seq<Field>, name: string, default: Json): (v: Json)
    ensures name in Keys(fields) ==> v == FieldValue(fields, name)
    ensures name !in Keys(fields) ==> v == default
  {
    if name in Keys(fields) then FieldValue(fields, name) else default
  }

  /** Extraction from the message's topic, its text and what the JSON parser made of the
      text; `show` is Python's `str` on the parsed object. It has no failure case. */
  function Extract(topic: string, text: string, parsed: Parsed, show: Json -> string): (e: Extracted)
    ensures HasField(parsed, TitleField) ==> e.title == FieldValue(parsed.json.fields, TitleField)
    ensures !HasField(parsed, TitleField) ==> e.title == JString(topic)
    ensures HasField(parsed, MessageField) ==> e.body == FieldValue(parsed.json.fields, MessageField)
    ensures IsObject(parsed) && !HasField(parsed, MessageField) ==> e.body == JString(show(parsed.json))
    ensures !IsObject(parsed) ==> e.body == JString(text)
  {
    match parsed
    case Value(JObject(fields)) =>
      Extracted(Get(fields, TitleField, JString(topic)), Get(fields, MessageField, JString(show(JObject(fields)))))
    case Value(_) => Extracted(JString(topic), JString(text))
    case Invalid => Extracted(JString(topic), JString(text))
  }

  /** A payload that is JSON but not an object is treated exactly like one that is not
      JSON at all. */
  lemma NonObjectIsPlainText(topic: string, text: string, parsed: Parsed, show: Json -> string)
    requires !IsObject(parsed)
    ensures Extract(topic, text, parsed, show) == Extract(topic, text, Invalid, show)
  {
  }

  /** For a JSON object, fields other than "title" and "message" matter only when
      "message" is missing, through the string form of the whole object. */
  lemma OtherFieldsIgnored(topic: string, text: string, a: seq<Field>, b: seq<Field>,
                           show: Json -> string)
    requires MessageField in Keys(a) && MessageField in Keys(b)
    requires FieldValue(a, MessageField) == FieldValue(b, MessageField)
    requires TitleField in Keys(a) <==> TitleField in Keys(b)
    requires TitleField in Keys(a) ==> FieldValue(a, TitleField) == FieldValue(b, TitleField)
    ensures Extract(topic, text, Value(JObject(a)), show) == Extract(topic, text, Value(JObject(b)), show)
  {
  }

  /** Without a "message" field the body is the string form of the whole object, so
      the order of its fields can show: with a `str` that starts from the first field's
      name, `{"a": 1, "b": 2}` and `{"b": 2, "a": 1}` give different bodies. */
  lemma FieldOrderReachesBody(topic: string, text: string)
    ensures var show := (j: Json) => if j.JObject? && |j.fields| > 0 then j.fields[0].0 else "";
      var one := JNumber("1");
      var two := JNumber("2");
      Extract(topic, text, Value(JObject([("a", one), ("b", two)])), show).body !=
      Extract(topic, text, Value(JObject([("b", two), ("a", one)])), show).body
  {
    assert Keys([("a", JNumber("1")), ("b", JNumber("2"))]) == ["a", "b"];
    assert Keys([("b", JNumber("2")), ("a", JNumber("1"))]) == ["b", "a"];
  }
}
