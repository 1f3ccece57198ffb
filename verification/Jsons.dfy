/** JSON values and the JavaScript conversions the code applies to them. */
module Jsons {

  /** A JSON number, as the text JavaScript prints for it. */
  type NumText = s: string | s != "" && (s[0] == '-' || '0' <= s[0] <= '9') witness "0"

  datatype Json =
    | Null
    | Bool(b: bool)
    | Num(text: NumText)
    | Str(s: string)
    | Arr(items: seq<Json>)
    | Obj(fields: map<string, Json>)

  predicate Truthy(j: Json) {
    match j
    case Null => false
    case Bool(b) => b
    case Num(text) => text != "0"
    case Str(s) => s != ""
    case Arr(_) => true
    case Obj(_) => true
  }

  /** String(j) */
  function Text(j: Json): string {
    match j
    case Null => "null"
    case Bool(b) => if b then "true" else "false"
    case Num(text) => text
    case Str(s) => s
    case Arr(items) => Join(items)
    case Obj(_) => "[object Object]"
  }

  /** items.join(','), where null prints as nothing. */
  function Join(items: seq<Json>): string {
    if items == [] then ""
    else
      var first := if items[0] == Null then "" else Text(items[0]);
      if |items| == 1 then first else first + "," + Join(items[1..])
  }

  lemma JoinFirst(items: seq<Json>)
    requires |items| > 1
    ensures Join(items) == (if items[0] == Null then "" else Text(items[0])) + "," + Join(items[1..])
  {
  }

  /** A list prints as the texts of its items with commas between them; null items print as nothing. */
  lemma {:induction false} JoinConcat(a: seq<Json>, b: seq<Json>)
    requires a != [] && b != []
    ensures Join(a + b) == Join(a) + "," + Join(b)
    ensures |a| == 1 ==> Join(a) == if a[0] == Null then "" else Text(a[0])
  {
    hide Text;
    JoinFirst(a + b);
    if |a| == 1 {
      assert (a + b)[1..] == b;
    } else {
      JoinFirst(a);
      assert (a + b)[1..] == a[1..] + b;
      JoinConcat(a[1..], b);
    }
  }

  /** record[name], null when there is no such property. */
  function Field(record: Json, name: string): Json {
    if record.Obj? && name in record.fields then record.fields[name] else Null
  }
}
