/** Go's `any`, as far as the parser and the validators look at it: a value
    is classified by its dynamic type, and nil is a value of its own. */
module Values {

  /** The number kinds, other than float64, that a `number` default may hold. */
  datatype NumKind =
    | Float32 | Int | Int8 | Int16 | Int32 | Int64
    | Uint | Uint8 | Uint16 | Uint32 | Uint64

  /** A dynamically typed value. Only float64 values are ever compared, so the
      other number kinds carry their kind and no magnitude. `Other` is a value
      of any type not listed here, and `typeName` is what `%T` prints for it;
      that name is taken to be none of the names `TypeName` gives the listed
      types (Go's type names are unique), which the datatype does not enforce. */
  datatype Val =
    | Nil
    | Float64(f: real)
    | OtherNumber(kind: NumKind)
    | Str(s: string)
    | Bool(b: bool)
    | StrSlice(items: seq<string>)
    | Other(typeName: string)

  function KindName(k: NumKind): string {
    match k
    case Float32 => "float32"
    case Int => "int"
    case Int8 => "int8"
    case Int16 => "int16"
    case Int32 => "int32"
    case Int64 => "int64"
    case Uint => "uint"
    case Uint8 => "uint8"
    case Uint16 => "uint16"
    case Uint32 => "uint32"
    case Uint64 => "uint64"
  }

  /** What Go's `%T` verb prints for the value. */
  function TypeName(v: Val): string {
    match v
    case Nil => "<nil>"
    case Float64(_) => "float64"
    case OtherNumber(k) => KindName(k)
    case Str(_) => "string"
    case Bool(_) => "bool"
    case StrSlice(_) => "[]string"
    case Other(name) => name
  }
}
