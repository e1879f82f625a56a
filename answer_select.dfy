/**
 * How the chat page picks the text to show from the server's reply
 * (web/static/home.js:226): the first truthy field among `answer`, `text`
 * and `reply` wins, and otherwise the whole reply is shown as its JSON
 * serialisation.
 *
 * JavaScript's `&&` and `||` are modelled on values, with `undefined` for a
 * missing property. `JSON.stringify` is a parameter.
 */
module AnswerSelect {
  import opened Wrappers

  datatype Json =
    | JNull
    | JBool(b: bool)
    | JNumber(n: real)
    | JString(s: string)
    | JArray(items: seq<Json>)
    | JObject(fields: map<string, Json>)

  /** A JavaScript value as it reaches the expression: a JSON value, or `undefined`. */
  datatype Value = Undefined | Defined(json: Json)

  /** JavaScript truthiness: `undefined`, `null`, `false`, `0` and `""` are falsy. */
  predicate Truthy(v: Value)
  {
    match v
    case Undefined => false
    case Defined(j) =>
      match j
      case JNull => false
      case JBool(b) => b
      case JNumber(n) => n != 0.0
      case JString(s) => |s| > 0
      case JArray(_) => true
      case JObject(_) => true
  }

  /** `a && b`: `b` when `a` is truthy, otherwise `a` itself. */
  function And(a: Value, b: Value): (r: Value)
    ensures Truthy(r) <==> Truthy(a) && Truthy(b)
    ensures r == a || r == b
  {
    if Truthy(a) then b else a
  }

  /** `a || b`: `a` when it is truthy, otherwise `b`. */
  function Or(a: Value, b: Value): (r: Value)
    ensures Truthy(r) <==> Truthy(a) || Truthy(b)
    ensures r == a || r == b
  {
    if Truthy(a) then a else b
  }

  /** `v.key`: the field of an object that has it; `undefined` for anything else. */
  function Get(v: Value, key: string): (r: Value)
    ensures r.Defined? <==> v.Defined? && v.json.JObject? && key in v.json.fields
  {
    if v.Defined? && v.json.JObject? && key in v.json.fields then Defined(v.json.fields[key]) else Undefined
  }

  /** Line 226, operator for operator. */
  function Answer(data: Json, stringify: Json -> string): Value
  {
    var d := Defined(data);
    Or(And(d, Or(Or(Get(d, "answer"), Get(d, "text")), Get(d, "reply"))), Defined(JString(stringify(data))))
  }

  /** The reference: the first truthy candidate field, in order, if any. */
  function FirstTruthy(data: Json, keys: seq<string>): (r: Option<Value>)
    decreases |keys|
  {
    if |keys| == 0 then None
    else if Truthy(Get(Defined(data), keys[0])) then Some(Get(Defined(data), keys[0]))
    else FirstTruthy(data, keys[1..])
  }

  const AnswerKeys: seq<string> := ["answer", "text", "reply"]

  /**
   * The answer is the first truthy value among `answer`, `text` and
   * `reply`, and the JSON serialisation of the whole reply when there is
   * none.
   */
  lemma AnswerIsFirstTruthy(data: Json, stringify: Json -> string)
    ensures Answer(data, stringify) ==
      match FirstTruthy(data, AnswerKeys)
      case Some(v) => v
      case None => Defined(JString(stringify(data)))
  {
    var d := Defined(data);
    assert AnswerKeys[1..] == ["text", "reply"] && AnswerKeys[1..][1..] == ["reply"];
    assert AnswerKeys[1..][1..][1..] == [];
    if !Truthy(d) {
      assert !data.JObject?;
    }
  }

  /** A found candidate is truthy and is the value of one of the keys. */
  lemma {:induction false} FirstTruthyFound(data: Json, keys: seq<string>)
    decreases |keys|
    ensures match FirstTruthy(data, keys)
      case Some(v) => Truthy(v) && exists i :: 0 <= i < |keys| && v == Get(Defined(data), keys[i])
      case None => forall i :: 0 <= i < |keys| ==> !Truthy(Get(Defined(data), keys[i]))
  {
    if |keys| > 0 {
      FirstTruthyFound(data, keys[1..]);
      match FirstTruthy(data, keys[1..])
      case Some(v) =>
        if !Truthy(Get(Defined(data), keys[0])) {
          var i :| 0 <= i < |keys[1..]| && v == Get(Defined(data), keys[1..][i]);
          assert v == Get(Defined(data), keys[i + 1]);
        }
      case None =>
        forall i | 1 <= i < |keys|
          ensures !Truthy(Get(Defined(data), keys[i]))
        {
          assert keys[i] == keys[1..][i - 1];
        }
    }
  }
}
