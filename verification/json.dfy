/**
 * The values `JSON.parse` can produce, and what JavaScript does when such a
 * value is spread into a call (`f(...v)`).
 */
module JsonValues {
  import opened Wrappers

  /** A parsed JSON document. Numbers keep their literal text: nothing here computes with them. */
  datatype Json =
    | JNull
    | JBool(b: bool)
    | JNumber(literal: string)
    | JString(s: string)
    | JArray(items: seq<Json>)
    | JObject(members: seq<(string, Json)>)

  /**
   * The argument list that spreading `v` passes: the items of an array, one
   * one-character string per code point of a string (strings here hold
   * Unicode scalar values), and None (a TypeError, "not iterable") for every
   * other value.
   */
  function SpreadArguments(v: Json): (args: Option<seq<Json>>)
    ensures args.Some? <==> v.JArray? || v.JString?
    ensures v.JArray? ==> args == Some(v.items)
    ensures v.JString? ==> |args.value| == |v.s| && forall i :: 0 <= i < |v.s| ==> args.value[i] == JString([v.s[i]])
  {
    match v
    case JArray(items) => Some(items)
    case JString(s) => Some(seq(|s|, i requires 0 <= i < |s| => JString([s[i]])))
    case _ => None
  }
}
