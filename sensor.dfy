/**
  The body handling of the `/sensor` endpoint (app/routes.py:22-45), with the
  Python semantics it leans on: the truthiness of the decoded JSON body, the
  `in` operator on whatever the body turned out to be, subscripting, and
  `int()` with the exceptions each of these raises. Only ValueError is
  caught; any other exception escapes the handler.
*/
module Sensor {
  import opened Options
  import PyInt

  /** A decoded JSON value, as `request.get_json()` returns it. */
  datatype Json =
    | JNull
    | JBool(b: bool)
    | JInt(i: int)
    | JFloat(f: real)
    | JStr(s: string)
    | JArr(items: seq<Json>)
    | JObj(fields: map<string, Json>)

  /** The value of a Python expression, or the exception it raises. */
  datatype Py<T> = Value(value: T) | ValueError | TypeError | KeyError

  /** What the handler answers. */
  datatype Reply =
    | Stored(status: int)   // 200, the status was recorded
    | InvalidStatus         // 400 "Formato de status inválido"
    | InvalidData           // 400 "Datos inválidos"
    | InternalError         // an uncaught exception: 500

  /** The key the sensor sends its reading under. */
  const StatusKey: string := "status"

  /** Python truthiness of a decoded body: the falsy values are exactly
      null, false, zero, and the empty string, list and object. */
  function Truthy(j: Json): (b: bool)
    ensures !b <==> j in {JNull, JBool(false), JInt(0), JFloat(0.0), JStr(""), JArr([]), JObj(map[])}
  {
    match j
    case JNull => false
    case JBool(b) => b
    case JInt(i) => i != 0
    case JFloat(f) => f != 0.0
    case JStr(s) => s != ""
    case JArr(items) => items != []
    case JObj(fields) => fields != map[]
  }

  /** Whether `needle` occurs in `hay` as a contiguous piece. */
  predicate IsSubstring(needle: string, hay: string) {
    needle <= hay || (hay != [] && IsSubstring(needle, hay[1..]))
  }

  /** An occurrence at any position is found. */
  lemma {:induction false} OccurrenceFound(needle: string, hay: string, i: nat)
    requires i + |needle| <= |hay| && hay[i..i + |needle|] == needle
    ensures IsSubstring(needle, hay)
  {
    if i > 0 {
      assert hay[1..][i - 1..i - 1 + |needle|] == hay[i..i + |needle|];
      OccurrenceFound(needle, hay[1..], i - 1);
    }
  }

  /** Where a found substring occurs: IsSubstring holds only for real occurrences. */
  function Occurrence(needle: string, hay: string): (i: nat)
    requires IsSubstring(needle, hay)
    ensures i + |needle| <= |hay| && hay[i..i + |needle|] == needle
  {
    if needle <= hay then 0
    else
      var k := Occurrence(needle, hay[1..]);
      assert hay[1..][k..k + |needle|] == hay[k + 1..k + 1 + |needle|];
      k + 1
  }

  /** `key in j`: a key of a dict, an element of a list, a substring of a str;
      numbers and booleans are not containers. */
  function In(key: string, j: Json): (r: Py<bool>)
    ensures r.TypeError? <==> !(j.JObj? || j.JArr? || j.JStr?)
    ensures r.KeyError? == false && r.ValueError? == false
    ensures j.JObj? ==> r == Value(key in j.fields)
    ensures j.JArr? ==> r == Value(JStr(key) in j.items)
    ensures j.JStr? ==> r.Value? && (r.value <==> IsSubstring(key, j.s))
  {
    match j
    case JObj(fields) => Value(key in fields)
    case JArr(items) => Value(JStr(key) in items)
    case JStr(s) => Value(IsSubstring(key, s))
    case _ => TypeError
  }

  /** `j[key]`: only a dict accepts a string subscript. */
  function Index(j: Json, key: string): (r: Py<Json>)
    ensures r.Value? <==> j.JObj? && key in j.fields
    ensures r.Value? ==> r.value == j.fields[key]
    ensures r.KeyError? <==> j.JObj? && key !in j.fields
    ensures r.TypeError? <==> !j.JObj?
  {
    match j
    case JObj(fields) => if key in fields then Value(fields[key]) else KeyError
    case _ => TypeError
  }

  /** `int(r)` of a float: truncation toward zero. */
  function Truncate(r: real): (n: int)
    ensures 0.0 <= r ==> n as real <= r < n as real + 1.0
    ensures r < 0.0 ==> n as real - 1.0 < r <= n as real
  {
    if r >= 0.0 then r.Floor else -((-r).Floor)
  }

  /** `int(v)`: booleans are 0 and 1, floats are truncated, strings are
      parsed; null, lists and dicts raise TypeError. */
  function ToInt(v: Json): (r: Py<int>)
    ensures r.KeyError? == false
    ensures r.ValueError? <==> v.JStr? && PyInt.ParseInt(v.s).None?
    ensures r.TypeError? <==> v.JNull? || v.JArr? || v.JObj?
    ensures v.JBool? ==> r == Value(if v.b then 1 else 0)
    ensures v.JInt? ==> r == Value(v.i)
    ensures v.JFloat? ==> r == Value(Truncate(v.f))
    ensures v.JStr? && PyInt.ParseInt(v.s).Some? ==> r == Value(PyInt.ParseInt(v.s).value)
  {
    match v
    case JBool(b) => Value(if b then 1 else 0)
    case JInt(i) => Value(i)
    case JFloat(f) => Value(Truncate(f))
    case JStr(s) => (match PyInt.ParseInt(s) case Some(n) => Value(n) case None => ValueError)
    case _ => TypeError
  }

  /**
    `receive_sensor_data` up to its side effects. `body` is None when the
    request carries no JSON. The reply is Stored exactly for a JSON object
    with a "status" entry that `int()` accepts, with no 0/1 range check.
  */
  function Receive(body: Option<Json>): (r: Reply)
    ensures r.Stored? ==>
      body.Some? && body.value.JObj? && StatusKey in body.value.fields
      && ToInt(body.value.fields[StatusKey]) == Value(r.status)
    ensures (body.Some? && body.value.JObj? && StatusKey in body.value.fields
      && ToInt(body.value.fields[StatusKey]).Value?) ==>
      r == Stored(ToInt(body.value.fields[StatusKey]).value)
    ensures r == InvalidData <==>
      body.None? || !Truthy(body.value) || In(StatusKey, body.value) == Value(false)
    ensures r == InternalError <==>
      body.Some? && Truthy(body.value) &&
      ( In(StatusKey, body.value).TypeError?
      || (In(StatusKey, body.value) == Value(true) && !body.value.JObj?)
      || (body.value.JObj? && StatusKey in body.value.fields
          && ToInt(body.value.fields[StatusKey]).TypeError?))
    ensures r == InvalidStatus <==>
      body.Some? && body.value.JObj? && StatusKey in body.value.fields
      && ToInt(body.value.fields[StatusKey]).ValueError?
  {
    if body.None? || !Truthy(body.value) then InvalidData
    else
      match In(StatusKey, body.value)
      case Value(present) =>
        if !present then InvalidData
        else
          (match Index(body.value, StatusKey)
           case Value(v) =>
             (match ToInt(v)
              case Value(n) => Stored(n)
              case ValueError => InvalidStatus
              case _ => InternalError)
           case _ => InternalError)
      case _ => InternalError
  }

  /** A status of 2 (or any other integer) is stored as sent. */
  lemma NoRangeCheck(n: int)
    ensures Receive(Some(JObj(map[StatusKey := JInt(n)]))) == Stored(n)
  {
    var m := map[StatusKey := JInt(n)];
    assert StatusKey in m && m[StatusKey] == JInt(n);
  }

  /** A status sent as the text of an integer is stored as that integer. */
  lemma TextStatusStored(n: int)
    ensures Receive(Some(JObj(map[StatusKey := JStr(PyInt.Show(n))]))) == Stored(n)
  {
    var m := map[StatusKey := JStr(PyInt.Show(n))];
    assert StatusKey in m && m[StatusKey] == JStr(PyInt.Show(n));
    PyInt.ParseShow(n);
    assert ToInt(m[StatusKey]) == Value(n);
  }

  /** A non-empty object without "status" (the sensor's own payload of
      `sensorID`, `plazaID` and `estado`, say) is "Datos inválidos". */
  lemma MissingStatusRejected(fields: map<string, Json>)
    requires fields != map[] && StatusKey !in fields
    ensures Receive(Some(JObj(fields))) == InvalidData
  {
    assert !(JObj(fields) in {JNull, JBool(false), JInt(0), JFloat(0.0), JStr(""), JArr([]), JObj(map[])});
  }

  /** A null status is not a ValueError: `int(None)` raises TypeError, which
      the handler does not catch. */
  lemma NullStatusEscapes()
    ensures Receive(Some(JObj(map[StatusKey := JNull]))) == InternalError
  {
  }

  /** A list naming "status" passes the `in` test and then fails to subscript. */
  lemma ListBodyEscapes(items: seq<Json>)
    requires JStr(StatusKey) in items
    ensures Receive(Some(JArr(items))) == InternalError
  {
  }
}
