/** JSON values; objects keep the order of their entries, as Python's dict does. */
module Json {
  import opened Dicts

  datatype Value =
    | Null
    | Bool(truth: bool)
    | Num(number: real)
    | Str(text: string)
    | Arr(items: seq<Value>)
    | Obj(entries: Dict<Value>)

  type Entries = Dict<Value>

  predicate IsFalsy(v: Value) {
    v == Null || v == Bool(false) || v == Num(0.0) || v == Str("") || v == Arr([]) || v == Obj([])
  }
}
