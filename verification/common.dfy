/** Shared value types of the ProtoRH backend model: the HTTP-error result,
    optional request fields, calendar dates and Python truthiness. */
module Common {

  /** Outcome of a handler: a value, or the HTTPException the handler raises
      (status code and detail text). */
  datatype Result<T> = Ok(value: T) | Err(status: nat, detail: string) {
    predicate IsFailure() {
      Err?
    }

    function PropagateFailure<U>(): Result<U>
      requires Err?
    {
      Err(status, detail)
    }

    function Extract(): T
      requires Ok?
    {
      value
    }
  }

  /** An optional request field (pydantic `field: T = None`). */
  datatype Option<T> = None | Some(value: T)

  /** A calendar date; only its lexicographic order matters to the model. */
  datatype Date = Date(year: int, month: int, day: int)

  /** `a <= b` on dates, i.e. on (year, month, day) tuples. */
  predicate DateLeq(a: Date, b: Date) {
    a.year < b.year
    || (a.year == b.year && (a.month < b.month || (a.month == b.month && a.day <= b.day)))
  }

  /** Python truthiness of an optional string: present and non-empty. */
  predicate TruthyText(o: Option<string>) {
    o.Some? && o.value != ""
  }

  /** Python truthiness of an optional integer: present and non-zero. */
  predicate TruthyInt(o: Option<int>) {
    o.Some? && o.value != 0
  }

  /** Some element of a non-empty set. */
  method Choose<T>(s: set<T>) returns (x: T)
    requires s != {}
    ensures x in s
  {
    x :| x in s;
  }

  /** The detail FastAPI gives an HTTPException raised without one. */
  const Unauthorized: string := "Unauthorized"
  const BadRequest: string := "Bad Request"
  /** The response to an exception no handler catches. */
  const InternalError: string := "Internal Server Error"
}
