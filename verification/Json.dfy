/** Decoded JSON with the behaviour Python gives it: truthiness, `in`, subscripts and the errors they raise. */
module Json {

  import opened Outcomes

  datatype Json =
    | Null
    | Bool(flag: bool)
    | Number(number: real)
    | Str(text: string)
    | Arr(items: seq<Json>)
    | Obj(fields: map<string, Json>)
  {
    predicate Truthy() {
      match this
      case Null => false
      case Bool(b) => b
      case Number(x) => x != 0.0
      case Str(s) => s != ""
      case Arr(items) => items != []
      case Obj(fields) => fields != map[]
    }

    /** `this.get(key, default)`: only a dictionary has the method. */
    function Get(key: string, default: Json): Try<Json> {
      if Obj? then Ok(if key in fields then fields[key] else default) else Raise
    }

    /** `this[0]` */
    function First(): Try<Json> {
      match this
      case Arr(items) => if items == [] then Raise else Ok(items[0])
      case Str(s) => if s == "" then Raise else Ok(Str(s[..1]))
      case _ => Raise
    }

    /** `key in this`: a key of a dictionary, an element of a list, a substring of a string. */
    function Contains(key: string): Try<bool> {
      match this
      case Obj(fields) => Ok(key in fields)
      case Arr(items) => Ok(Str(key) in items)
      case Str(s) => Ok(exists i :: 0 <= i <= |s| - |key| && key <= s[i..])
      case _ => Raise
    }

    /** `this[key]` for a string key. */
    function Item(key: string): Try<Json> {
      if Obj? && key in fields then Ok(fields[key]) else Raise
    }
  }

  /** The values that Python takes for false: nothing, false, zero, and what is empty. */
  lemma TruthyMeaning(j: Json)
    ensures !j.Truthy() <==>
      || j == Null || j == Bool(false) || j == Number(0.0) || j == Str("") || j == Arr([]) || j == Obj(map[])
  {
  }

  /** The outcomes of `json.loads`: a value, a `JSONDecodeError`, or any other exception. */
  datatype Loaded = Value(json: Json) | DecodeError | OtherError

  lemma {:induction false} JoinConcat(a: seq<Json>, b: seq<Json>)
    ensures Join(a + b).Ok? <==> Join(a).Ok? && Join(b).Ok?
    ensures Join(a + b).Ok? ==> Join(a + b).value == Join(a).value + Join(b).value
  {
    if a == [] {
      assert a + b == b;
    } else {
      assert (a + b)[1..] == a[1..] + b;
      JoinConcat(a[1..], b);
    }
  }

  /** `"".join(parts)`: every part must be a string. */
  function Join(parts: seq<Json>): Try<string> {
    if parts == [] then Ok("")
    else if !parts[0].Str? then Raise
    else
      var rest :- Join(parts[1..]);
      Ok(parts[0].text + rest)
  }
}
