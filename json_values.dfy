/** Parsed JSON values and the few Qt accessors (QJsonObject::value, QJsonValue::isDouble,
    toArray, toObject, toString, toDouble) that the line handler applies to them. */
module JsonValues {

  datatype Option<+T> = None | Some(value: T)

  /** A parsed JSON value. Qt reports every JSON number, integral or not, as a double,
      so there is a single numeric case. */
  datatype Json =
    | JNull
    | JBool(b: bool)
    | JNum(n: real)
    | JStr(s: string)
    | JArr(elems: seq<Json>)
    | JObj(members: map<string, Json>)

  /** QJsonObject::value(key); None stands for QJsonValue::Undefined, the value of an absent key. */
  function Value(o: map<string, Json>, key: string): (r: Option<Json>)
    ensures r.Some? <==> key in o
    ensures r.Some? ==> o[key] == r.value
  {
    if key in o then Some(o[key]) else None
  }

  /** QJsonValue::isDouble (false for Undefined). */
  predicate IsDouble(v: Option<Json>): (b: bool)
    ensures b <==> exists n :: v == Some(JNum(n))
  {
    v.Some? && v.value.JNum?
  }

  /** QJsonValue::isArray (false for Undefined). */
  predicate IsArray(v: Option<Json>): (b: bool)
    ensures b <==> exists xs :: v == Some(JArr(xs))
  {
    v.Some? && v.value.JArr?
  }

  /** QJsonValue::toArray(): the elements of an array, and an empty array for anything else. */
  function ToArray(v: Option<Json>): (r: seq<Json>)
    ensures IsArray(v) ==> Some(JArr(r)) == v
    ensures !IsArray(v) ==> r == []
  {
    if IsArray(v) then v.value.elems else []
  }

  /** QJsonValue::toString(): the text of a string, and "" for anything else. */
  function ToString(v: Option<Json>): (r: string)
    ensures (exists t :: v == Some(JStr(t))) ==> Some(JStr(r)) == v
    ensures !(exists t :: v == Some(JStr(t))) ==> r == ""
  {
    if v.Some? && v.value.JStr? then v.value.s else ""
  }

  /** QJsonValue::toObject(): the members of an object, and an empty object for anything else.
      QJsonDocument::object() behaves the same on the document's root. */
  function ToObject(v: Json): (r: map<string, Json>)
    ensures v.JObj? ==> JObj(r) == v
    ensures !v.JObj? ==> r == map[]
  {
    if v.JObj? then v.members else map[]
  }

  /** QJsonValue::toDouble(): the number, and the default 0 for anything else. */
  function ToDouble(v: Json): (r: real)
    ensures v.JNum? ==> JNum(r) == v
    ensures !v.JNum? ==> r == 0.0
  {
    if v.JNum? then v.n else 0.0
  }
}
