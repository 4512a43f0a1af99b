/** Values shared by the whole engine: cells, rows, property bags and the
    exceptions the categoriser can raise. */
module Values {

  datatype Option<+T> = None | Some(value: T)

  /** An operation either yields a value or raises one of the exceptions below. */
  datatype Result<+T> = Ok(value: T) | Err(error: Error)

  /** The exceptions of the core, one constructor per way of failing, each
      standing for the Python exception class named in its comment. */
  datatype Error =
    | MalformedMatcher                 // ValueError: a matcher that is not one key/value pair
    | InvalidComment(comment: string)  // ValueError: a bank comment the comment pattern rejects
    | InvalidDateTime(text: string)    // ValueError: strptime could not read the date and time
    | BadFormat                        // ValueError: a template with an unbalanced brace
    | MissingRulesRoot                 // ValueError: the rule document has no 'rules' key
    | MissingKey(key: string)          // KeyError: dictionary or column lookup of an absent key
    | PositionalField(field: string)   // IndexError: a positional '{}' / '{0}' placeholder
    | NotAString                       // TypeError: a regular expression applied to a non-string
    | AssertionFailed                  // AssertionError: apply_rule given a group of other than one row
  {
    /** The exceptions an `except ValueError` handler catches. */
    predicate IsValueError() {
      MalformedMatcher? || InvalidComment? || InvalidDateTime? || BadFormat? || MissingRulesRoot?
    }
  }

  /** One cell of the table, or one value of a property bag: a string, an
      integer (the helper id columns), pandas' NaN (an empty CSV cell), or
      Python's None (an optional regex group that did not take part). */
  datatype Value = Text(s: string) | Int(n: int) | NaN | NoneValue
  {
    /** pd.isna */
    predicate IsMissing() { NaN? || NoneValue? }

    /** Python's str() of the value, as str.format inserts it. */
    function Str(): string {
      match this
      case Text(s) => s
      case Int(n) => IntToString(n)
      case NaN => "nan"
      case NoneValue => "None"
    }
  }

  /** A row of the table: column name to cell. */
  type Row = map<string, Value>

  /** A property bag: property name to value. */
  type Bag = map<string, Value>

  predicate IsDigit(c: char) { '0' <= c <= '9' }

  function DigitChar(d: nat): char
    requires d < 10
  {
    ('0' as int + d) as char
  }

  function DigitValue(c: char): nat
    requires IsDigit(c)
  {
    c as int - '0' as int
  }

  function NatToString(n: nat): string
    decreases n
  {
    if n < 10 then [DigitChar(n)] else NatToString(n / 10) + [DigitChar(n % 10)]
  }

  /** Decimal rendering of an integer, as Python's str(int). */
  function IntToString(n: int): string {
    if n < 0 then "-" + NatToString(-n) else NatToString(n)
  }
}
