/** The few Python run-time notions the search facade depends on: the
    dynamically typed arguments it inspects with `isinstance`, and the
    exceptions the pipeline can raise. */
module Python {

  /** A Python argument, as far as `SearchEngine.search` inspects it. */
  datatype Object =
    | Str(s: string)
    | Int(i: int)
    | Bool(b: bool)
    | List(items: seq<Object>)
    | Other

  /** The exceptions a search call can end with. */
  datatype Exception =
    | AssertionError     // an input check of `search` failed
    | TypeError          // `" ".join` met a keyword that is not a string
    | ValueError         // `range` with step 0, or `np.argmax` of an empty sequence
    | ZeroDivisionError  // `matching_ratio` with an empty pattern
    | KeyError           // a pipeline stage read a key an earlier stage did not add

  /** `isinstance(o, int)`; in Python a `bool` is an `int`. */
  predicate IsInt(o: Object) {
    o.Int? || o.Bool?
  }

  function IntValue(o: Object): int
    requires IsInt(o)
  {
    match o
    case Int(i) => i
    case Bool(b) => if b then 1 else 0
  }
}
