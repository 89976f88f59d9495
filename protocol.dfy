/**
 * JavaScript values as they come out of JSON.parse and property reads on the
 * result, with the two operations the job manager applies to them: `||`
 * (truthiness) and conversion to text (String(v), a template literal).
 */
module JsValues {
  import opened Text

  /**
   * A parsed JSON value, plus `undefined` for a property that is not there.
   * Numbers are integers: JSON fractions and exponents are not modelled.
   */
  datatype Value =
    | Undefined
    | Null
    | Bool(b: bool)
    | Num(n: int)
    | Str(s: string)
    | Arr(items: seq<Value>)
    | Obj(fields: map<string, Value>)

  /** ToBoolean: undefined, null, false, 0 and "" are falsy; everything else is truthy. */
  predicate Truthy(v: Value)
  {
    match v
    case Undefined => false
    case Null => false
    case Bool(b) => b
    case Num(n) => n != 0
    case Str(s) => s != ""
    case Arr(_) => true
    case Obj(_) => true
  }

  /** The expression `a || b`. */
  function Or(a: Value, b: Value): (r: Value)
    ensures Truthy(r) <==> Truthy(a) || Truthy(b)
    ensures r == a || r == b
  {
    if Truthy(a) then a else b
  }

  /**
   * String(v): what a template literal writes for v. An array is written as
   * its elements joined with ",", where undefined and null elements are empty.
   */
  function ToStr(v: Value): string
    decreases v
  {
    match v
    case Undefined => "undefined"
    case Null => "null"
    case Bool(b) => if b then "true" else "false"
    case Num(n) => IntToDecimal(n)
    case Str(s) => s
    case Arr(items) => ItemsToStr(items)
    case Obj(_) => "[object Object]"
  }

  function ItemsToStr(items: seq<Value>): string
    decreases items
  {
    if |items| == 0 then ""
    else
      var first := if items[0].Undefined? || items[0].Null? then "" else ToStr(items[0]);
      if |items| == 1 then first else first + "," + ItemsToStr(items[1..])
  }

  /** The property read `v[key]` on a value other than null or undefined. */
  function Get(v: Value, key: string): (r: Value)
    ensures r != Undefined ==> v.Obj? && key in v.fields
  {
    if v.Obj? && key in v.fields then v.fields[key] else Undefined
  }
}

/**
 * The line protocol between the transcription worker and the job manager:
 * each stdout line is one JSON record whose "type" is "init", "progress",
 * "done" or "error". Anything else is ignored by the reader.
 */
module Protocol {
  import opened Options
  import opened JsValues

  /** A recognised record; the payload fields are the values read from it, possibly undefined. */
  datatype Event =
    | Init(total: Value)
    | Progress(processed: Value, total: Value)
    | Done(text: Value)
    | Error(message: Value)

  /** The "type" string that selects each kind of record. */
  function Tag(e: Event): string
  {
    match e
    case Init(_) => "init"
    case Progress(_, _) => "progress"
    case Done(_) => "done"
    case Error(_) => "error"
  }

  predicate IsTag(t: Value)
  {
    t == Str("init") || t == Str("progress") || t == Str("done") || t == Str("error")
  }

  /**
   * The dispatch on `evt.type` applied to the value JSON.parse returned.
   * Reading `.type` of null throws, and the reader drops the line; every other
   * value without one of the four tags is dropped too.
   */
  function Decode(v: Value): (r: Option<Event>)
    ensures r.Some? <==> v != Null && IsTag(Get(v, "type"))
    ensures r.Some? ==> Get(v, "type") == Str(Tag(r.value))
  {
    if v.Null? || v.Undefined? then None
    else
      var t := Get(v, "type");
      if t == Str("progress") then Some(Progress(Get(v, "processed"), Get(v, "total")))
      else if t == Str("error") then Some(Error(Get(v, "message")))
      else if t == Str("done") then Some(Done(Get(v, "text")))
      else if t == Str("init") then Some(Init(Get(v, "total")))
      else None
  }

  /** The JSON object a worker prints for an event (Python's json.dumps of a dict). */
  function Encode(e: Event): Value
  {
    match e
    case Init(total) => Obj(map["type" := Str("init"), "total" := total])
    case Progress(p, total) => Obj(map["type" := Str("progress"), "processed" := p, "total" := total])
    case Done(text) => Obj(map["type" := Str("done"), "text" := text])
    case Error(message) => Obj(map["type" := Str("error"), "message" := message])
  }

  /** Every event survives being written by the worker and read by the manager. */
  lemma DecodeEncode(e: Event)
    ensures Decode(Encode(e)) == Some(e)
  {
    var v := Encode(e);
    assert "type" in v.fields;
    match e
    case Init(total) => assert Get(v, "total") == total;
    case Progress(p, total) => assert Get(v, "processed") == p && Get(v, "total") == total;
    case Done(text) => assert Get(v, "text") == text;
    case Error(message) => assert Get(v, "message") == message;
  }

  /**
   * One stdout line: JSON.parse (given as `parse`, None where it throws)
   * followed by the dispatch.
   */
  function DecodeLine(parse: string -> Option<Value>, line: string): Option<Event>
  {
    match parse(line)
    case None => None
    case Some(v) => Decode(v)
  }
}
