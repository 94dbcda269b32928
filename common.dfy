/**
 * Values shared by the whole model: optional values, row identifiers, the
 * authenticated caller and the HTTP reply a route handler sends.
 */
module Common {
  datatype Option<T> = None | Some(value: T)

  /** A row identifier. The database uses UUIDs; the model only compares them. */
  type Id = nat

  /** The caller that the authentication middleware attaches to the request. */
  datatype Caller = Caller(id: Id, role: string)

  predicate IsAdmin(role: string)
  {
    role == "admin"
  }

  /** JavaScript truthiness of an optional string: absent and "" are falsy. */
  predicate Truthy(s: Option<string>)
  {
    s.Some? && s.value != ""
  }

  /**
   * The value a column holds after `instance.update({ ..., column: v, ... })`:
   * Sequelize leaves the column alone when `v` is undefined.
   */
  function Assign<T>(current: T, v: Option<T>): (r: T)
    ensures v.None? ==> r == current
    ensures v.Some? ==> r == v.value
  {
    if v.Some? then v.value else current
  }

  /** The JSON body of a successful reply: a `{ message }` object or the record with the given id. */
  datatype Body = Message(text: string) | Record(id: Id)

  /** What a handler sends back: a status with a body, or an error status with `{ error }`. */
  datatype Reply<T> = Ok(status: nat, value: T) | Err(status: nat, message: string)
}
