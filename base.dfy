/** Values shared by every part of the model. */
module Base {

  /** An optional value: `None` stands for a JavaScript `undefined` field or a `null` result. */
  datatype Option<+T> = None | Some(value: T)

  /**
   * A MongoDB ObjectId. The source compares ids through `toString()`, so an id is
   * modelled by its string form and two ids are the same exactly when those strings are.
   */
  datatype ObjectId = ObjectId(hex: string)

  /** A field's value when given, its schema default when left out. */
  function OrDefault<T>(given: Option<T>, default: T): T {
    if given.Some? then given.value else default
  }
}
