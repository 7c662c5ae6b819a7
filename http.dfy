/** What the Express handlers see and send: request values as JavaScript
    holds them, the outcome of the Mongoose call each handler makes, and
    the reply. */
module Http {

  /** A request field. `Array` keeps only the length, which is all the
      guards look at. */
  datatype JsValue =
    | Undefined
    | Null
    | Boolean(b: bool)
    | Number(n: int)
    | NaN
    | Text(s: string)
    | Array(length: nat)
    | Object

  /** JavaScript's falsy values. */
  predicate Falsy(v: JsValue)
  {
    v == Undefined || v == Null || v == Boolean(false) || v == Number(0) || v == NaN || v == Text("")
  }

  /** The guard `!v || v.length === 0`: falsy, or an empty array. A value
      with no `length` property compares `undefined === 0`, which is false. */
  predicate MissingOrEmpty(v: JsValue)
  {
    Falsy(v) || v == Array(0)
  }

  /** The outcome of a save, an update or a delete: it found (or wrote) a
      document, found none, or threw an error with a code. */
  datatype DbOutcome = Done | NoDocument | Threw(code: int)

  /** The outcome of `find()`: an array of documents, or an error. */
  datatype FindOutcome = Listed(count: nat) | FindThrew

  /** The Mongo error code for a duplicate key. */
  const DuplicateKey := 11000

  /** A reply with its status code and message, or no reply at all. */
  datatype Reply = Reply(status: int, message: string) | NoReply

  /** A reply sent by a `catch` block: 409 for a duplicate key, else 500. */
  function SaveErrorReply(code: int, duplicateMessage: string, otherMessage: string): (r: Reply)
    ensures r.Reply? && (r.status == 409 <==> code == DuplicateKey) && (r.status == 500 <==> code != DuplicateKey)
  {
    if code == DuplicateKey then Reply(409, duplicateMessage) else Reply(500, otherMessage)
  }
}
