/** JSON documents, as far as the gateways look into them. Object members are a map: the
    source keeps them in a sorted tree, and what is proved here holds for every order. */
module Json {

  datatype Option<+T> = None | Some(value: T)

  /** A number is either an integer or, when it is not one, the text it prints as. */
  datatype Value =
    | Null
    | Bool(b: bool)
    | Int(i: int)
    | Float(text: string)
    | Str(s: string)
    | Arr(items: seq<Value>)
    | Obj(fields: map<string, Value>)
  {
    /** Member lookup: nothing for a missing member and for anything that is not an object. */
    function Get(key: string): Option<Value> {
      if Obj? && key in fields then Some(fields[key]) else None
    }

    /** Replaces a member of an object; anything else is left as it is. */
    function With(key: string, value: Value): Value {
      if Obj? then Obj(fields[key := value]) else this
    }
  }

  /** The id of a message when it is a string. */
  function StringId(m: Value): Option<string> {
    match m.Get("id")
    case Some(Str(s)) => Some(s)
    case _ => None
  }
}
