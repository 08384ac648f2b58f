/** How a Python function of the application ends: it returns a value or it
    raises one of the exceptions that the modelled code can raise. */
module Python {

  datatype Option<+T> = None | Some(value: T)

  /** The exceptions the core can raise. */
  datatype Exception =
    | AttributeError  // `.group(1)` called on the `None` that `re.search` returned
    | TypeError       // `re.match` given `None` instead of a string
    | HttpError       // any exception the API client raises (request, transport or build failure)

  datatype Outcome<+T> = Return(value: T) | Raise(error: Exception)

  /** Python's truth value of a string: only the empty string is false. */
  predicate Truthy(s: string) {
    s != ""
  }
}
