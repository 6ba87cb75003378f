/** The shape of a document after Go's encoding/json has decoded it into
    `interface{}` values: nil, float64, string, bool, map[string]interface{}
    and []interface{}. A decoded map is kept as its members in the order in
    which the converter's `keys` helper hands them out. */
module JsonModel {

  datatype Json =
    | JNull
    | JNum(n: real)
    | JStr(s: string)
    | JBool(b: bool)
    | JObj(members: seq<Member>)
    | JArr(elems: seq<Json>)

  /** One key of a decoded map together with its value. */
  datatype Member = Member(key: string, value: Json)
}
