/**
 * The PHP values an entity id can take, and PHP's strict comparison `===`
 * on them. An id is declared `mixed`; the scalar kinds that serve as ids
 * (null, booleans, integers, strings) are modelled. Two values are strictly
 * identical exactly when they have the same PHP type and the same value:
 * `1 === "1"`, `0 === false` and `null === ""` are all false.
 */
module PhpValues {

  /** A PHP scalar value, tagged with its type. */
  datatype Val =
    | Null
    | Bool(b: bool)
    | Int(i: int)
    | Str(s: string)

  /** The PHP type of a value, as `gettype` names it. */
  datatype PhpType = NullType | BooleanType | IntegerType | StringType

  function TypeOf(v: Val): (t: PhpType) {
    match v
    case Null => NullType
    case Bool(_) => BooleanType
    case Int(_) => IntegerType
    case Str(_) => StringType
  }

  /**
   * PHP's `===`: the types must agree and then the payloads must agree; no
   * conversion is attempted between types. The contract says that this is
   * exactly structural equality of the tagged values.
   */
  function Identical(a: Val, b: Val): (r: bool)
    ensures r <==> a == b
  {
    match (a, b)
    case (Null, Null) => true
    case (Bool(x), Bool(y)) => x == y
    case (Int(x), Int(y)) => x == y
    case (Str(x), Str(y)) => x == y
    case _ => false
  }

  /** Strict comparison never relates values of two different PHP types. */
  lemma IdenticalRespectsType(a: Val, b: Val)
    ensures Identical(a, b) ==> TypeOf(a) == TypeOf(b)
  {
  }

  /** An integer is never identical to a string, whatever their digits. */
  lemma IntegerIsNeverIdenticalToString(n: int, s: string)
    ensures !Identical(Int(n), Str(s))
    ensures !Identical(Str(s), Int(n))
  {
  }
}
