// lsp/json/json.h: the value tree, and the errors parsing can end in.
module Json {
  import opened Wrappers

  // A double is a real: rounding is not modelled, see Conversions.  Objects are
  // the finite maps they are compared as (std::unordered_map equality).
  datatype Value =
    | Null
    | Boolean(b: bool)
    | Integer(i: int)
    | Decimal(d: real)
    | String(s: string)
    | Array(elements: seq<Value>)
    | Object(members: map<string, Value>)

  // The outcome of std::stod: a number and how many characters it used, or one
  // of its two exceptions (invalid_argument, out_of_range).
  datatype Stod = Converted(value: real, used: nat) | Throws

  // The two floating-point conversions of the parser, left uninterpreted:
  // std::stod, and the cast from a 64-bit integer.
  datatype Conversions = Conversions(stod: string -> Stod, nearest: int -> real)

  datatype ErrorKind =
    | UnexpectedEnd
    | TrailingCharacters
    | ExpectedComma
    | TrailingComma
    | DuplicateKey(key: string)
    | ExpectedColon
    | StringExpected
    | UnmatchedQuote
    | InvalidNumber(token: string)
    | UnexpectedIdentifier(token: string)
    | UnexpectedToken

  // ParseError is thrown by the parser itself, StodError escapes from std::stod.
  datatype Error = ParseError(kind: ErrorKind, textPos: nat) | StodError

  type ParseResult = Result<Value, Error>

  predicate IsNumber(v: Value) { v.Integer? || v.Decimal? }

  // json::Value::number() cast to an integer type: towards zero.
  function Truncated(v: Value): int
    requires IsNumber(v)
  {
    match v
    case Integer(i) => i
    case Decimal(d) => if d >= 0.0 then d.Floor else -((-d).Floor)
    case _ => 0
  }

  // No decimal number anywhere, and every integer fits json::Integer: the
  // values whose text form is exact.
  ghost predicate Exact(v: Value) {
    match v
    case Integer(i) => -0x8000_0000 <= i <= 0x7FFF_FFFF
    case Decimal(_) => false
    case Array(elements) => forall e | e in elements :: Exact(e)
    case Object(members) => forall k | k in members :: Exact(members[k])
    case _ => true
  }
}
