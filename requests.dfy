/**
 * The parsed parts of an HTTP request that the validators and the handlers read:
 * the path parameters and the JSON body, each a map from field name to value.
 */
module Requests {

  /**
   * A field value as the validator library sees it.
   *  - `Missing`: the field is absent (a JSON `null` is treated the same way).
   *  - `Str(s)`: text that the library does not read as a number.
   *  - `Num(hundredths)`: a numeral (a JSON number, or a numeric string in the body or the
   *    path), given by its value in hundredths, so 12.5 is `Num(1250)`.
   *  - `Bool(b)`: a JSON boolean.
   */
  datatype Value = Missing | Str(s: string) | Num(hundredths: int) | Bool(b: bool)

  /** Where a validated field is read from: `req.params` or `req.body`. */
  datatype Location = Params | Body

  datatype Request = Request(params: map<string, Value>, body: map<string, Value>)

  /** The value of `field` in a field map; an absent key reads as `Missing`. */
  function Lookup(fields: map<string, Value>, field: string): Value {
    if field in fields then fields[field] else Missing
  }

  /** The value of `field` at `location` in `req`. */
  function Read(req: Request, location: Location, field: string): Value {
    match location
    case Params => Lookup(req.params, field)
    case Body => Lookup(req.body, field)
  }
}
