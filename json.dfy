/**
 * What `JSON.parse` yields for a backup file, as far as the engine looks at
 * it. The JSON text itself is not modelled.
 */
module Json {
  import opened Wrappers
  import opened Paths

  /**
   * One element of a backup's `items` array. `Mapping` covers every non-null
   * element: destructuring gives its `from` and `to`, `None` when absent.
   */
  datatype Entry =
    | NullEntry
    | Mapping(from: Option<Path>, to: Option<Path>)

  /**
   * The parsed document. `JsonValue` covers every non-null JSON value; each
   * field is `None` unless the value is an object whose property of that name
   * has the modelled type (`items` an array).
   */
  datatype Document =
    | JsonNull
    | JsonValue(version: Option<int>, createdAt: Option<string>, items: Option<seq<Entry>>)

  /** `!x`: an endpoint that is absent or the empty string. */
  predicate Missing(x: Option<Path>)
  {
    x.None? || x.value == []
  }
}
