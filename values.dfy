/**
 The Python values the reconciliation core handles, the exceptions it can
 raise, and the two wrappers (Option, Result) used to model `None` and
 exceptional returns.
 */
module Values {

  datatype Option<+T> = None | Some(value: T)

  /** The text form of a timestamp, `%Y-%m-%dT%H:%M:%S`, as its parsed fields.
      `date` numbers the calendar day (the mapping between a day number and
      its `YYYY-MM-DD` digits is not part of this model). */
  datatype Civil = Civil(date: int, hour: int, minute: int, second: int)

  predicate WellFormed(c: Civil) {
    0 <= c.hour < 24 && 0 <= c.minute < 60 && 0 <= c.second < 60
  }

  /** A string that `strptime(_, '%Y-%m-%dT%H:%M:%S')` accepts. */
  type TimeText = c: Civil | WellFormed(c) witness Civil(0, 0, 0, 0)

  /** A value stored under a key of an event dictionary or a table column. */
  datatype Value =
    | Null                      // None, and SQL NULL
    | Str(s: string)            // a str that is not in the timestamp format
    | TimeStr(text: TimeText)   // a str in the timestamp format
    | Int(i: int)
    | Stamp(t: int)             // a datetime, in whole seconds
    | List(items: seq<Value>)
    | Set(elems: set<Value>)

  /** Python's truth value of a value. */
  predicate Truthy(v: Value) {
    match v
    case Null => false
    case Str(s) => s != ""
    case TimeStr(_) => true
    case Int(i) => i != 0
    case Stamp(_) => true
    case List(items) => items != []
    case Set(elems) => elems != {}
  }

  predicate IsText(v: Value) {
    v.Str? || v.TimeStr?
  }

  /** Lists and sets cannot be put in a set. */
  predicate Hashable(v: Value) {
    !v.List? && !v.Set?
  }

  /** The exceptions the core raises, by Python class (and message where the
      source raises a bare `Exception`). */
  datatype Error =
    | InvalidType        // Exception('Invalid type')
    | NotEnoughData      // Exception("Not enough data to select upon: Mac/IP required")
    | NoId               // Exception("No id in given event")
    | ValueError         // strptime on text that is not in the format
    | TypeError          // an operation on a value of the wrong type
    | KeyError           // a dictionary subscript with a missing key
    | IndexError         // a list subscript out of range
    | AttributeError     // a method called on None

  datatype Result<+T> = Ok(value: T) | Err(error: Error)

  /** Python's `min` and `max` on two numbers. */
  function Min(x: int, y: int): int { if x <= y then x else y }
  function Max(x: int, y: int): int { if x >= y then x else y }
}
