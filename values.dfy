/**
 * The dynamically typed values (Go's `interface{}`) that the generator reads
 * out of a parsed HCL document and puts into table rows.
 */
module Values {

  /**
   * A dynamic value as far as the program inspects it: a string, a bool, or
   * anything else, carried with the text that fmt's `%v` verb prints for it.
   */
  datatype Value = Str(s: string) | Bool(b: bool) | Other(text: string)

  /** The text fmt's `%v` verb prints for a value. */
  function Verb(v: Value): string
  {
    match v
    case Str(s) => s
    case Bool(b) => if b then "true" else "false"
    case Other(text) => text
  }
}
