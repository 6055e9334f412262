/** The JSON values the model gives API record fields: null, strings and
    integers. */
module Json {
  import opened Strings

  datatype Value = Null | Text(s: string) | Int(i: int)

  /** Python's str() of the value. */
  function Str(v: Value): (r: string)
    ensures v.Text? ==> r == v.s
    ensures v.Null? ==> r == "None"
    ensures v.Int? ==> r == IntToString(v.i)
  {
    match v
    case Null => "None"
    case Text(s) => s
    case Int(i) => IntToString(i)
  }
}
