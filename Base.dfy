/** Small value types shared by every module: an optional value (the C# `string?`
    results, where `null` means success or "not found") and a result carrying
    either a value or the reason it is missing. */
module Base {
  type String = seq<char>

  datatype Option<T> = None | Some(value: T)

  datatype Result<T, E> = Ok(value: T) | Err(error: E)

  /** The C# idiom `s ?? ""`. */
  function OrEmpty(s: Option<String>): String {
    if s.Some? then s.value else ""
  }

  lemma {:induction false} Associative<T>(a: seq<T>, b: seq<T>, c: seq<T>)
    ensures (a + b) + c == a + (b + c)
  {
  }
}
