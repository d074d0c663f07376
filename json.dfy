/** The untrusted, JSON-like values that arrive as a request body or server-action argument. */
module Json {

  /**
   * A decoded JSON value, reduced to what the schemas here distinguish: numbers, strings and
   * objects. `JOther` stands for everything else a field can hold: `null`, a boolean, an array,
   * or no value at all (a missing key reads as `undefined`).
   */
  datatype Json =
    | JNum(num: real)
    | JStr(str: string)
    | JObj(fields: map<string, Json>)
    | JOther

  /** Reading a property of an object: a missing key gives `undefined`, modelled as `JOther`. */
  function Get(obj: map<string, Json>, key: string): Json
  {
    if key in obj then obj[key] else JOther
  }
}
