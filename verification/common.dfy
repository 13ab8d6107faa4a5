/** Identifiers, optional values, schema errors and handler outcomes shared by every module. */
module Common {

  /** The ObjectId of a user document, abstracted to a number. */
  type UserId = nat

  /** The ObjectId of an item document, abstracted to a number. */
  type ItemId = nat

  datatype Option<T> = None | Some(value: T)

  datatype Result<T, E> = Ok(value: T) | Err(error: E)

  /** Why the document layer refuses to write a document. */
  datatype SchemaError =
    | Required(path: string)   // a required path is absent (or an empty string)
    | NotInEnum(path: string)  // a string path outside its enum
    | BelowMin(path: string)   // a number path below its `min`
    | DuplicateKey             // a unique index (`_id`, `email`) already holds the value

  /** What a request handler answers, reduced to what a caller can tell apart. */
  datatype Response =
    | Done             // 200 with a JSON body
    | NotAvailable     // 400, the item is missing or not 'available'
    | NotEnoughPoints  // 400, the buyer cannot pay
    | MissingQuery     // 400, suggest without `type` or `query`
    | Forbidden        // 403 from the admin gate
    | NotFound         // 404, no item with that id
    | ServerError      // 500 from a handler's catch block
    | Crash            // an exception escapes a handler without a catch: no answer at all

  /** No element occurs twice. */
  predicate Distinct<T(==)>(s: seq<T>) {
    forall i, j :: 0 <= i < j < |s| ==> s[i] != s[j]
  }

  function Min(a: int, b: int): int {
    if a <= b then a else b
  }
}
