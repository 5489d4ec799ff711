/** The discovered schema as the schema screen sees it: streams, each with an
    ordered list of metadata entries addressed by breadcrumb, and the loosely
    typed values those entries hold. JavaScript's notion of truthiness is
    written out here because the screen relies on it (`|| []`, `!!`). */
module Catalog {

  /** A metadata value. `Null` stands for both JSON `null` and a field that is
      absent from the map (JavaScript `undefined`); `Other` is any object or
      array that is not a list of strings. */
  datatype Value =
    | Null
    | Bool(b: bool)
    | Num(n: int)
    | Str(s: string)
    | StrList(items: seq<string>)
    | Other

  /** One entry of a stream's `metadata` list. An empty breadcrumb marks the
      stream-level (root) entry. */
  datatype MetadataEntry = MetadataEntry(breadcrumb: seq<string>, metadata: map<string, Value>)

  /** One stream of the catalog: its display name, its id and its entries. */
  datatype Stream = Stream(stream: string, tapStreamId: string, metadata: seq<MetadataEntry>)

  /** The place where a property read on `undefined` throws a TypeError. */
  datatype Fault =
    | NoRootEntry   // `stream.metadata[undefined]` is undefined
    | NoFirstEntry  // `stream.metadata[0]` is undefined

  datatype Option<T> = None | Some(value: T)

  datatype Result<T> = Ok(value: T) | Err(fault: Fault)

  const SelectedField: string := "selected"
  const RepKeysField: string := "valid-replication-keys"

  predicate IsRoot(e: MetadataEntry) {
    |e.breadcrumb| == 0
  }

  /** JavaScript truthiness: `null`/`undefined`, `false`, `0` and `""` are
      falsy; every array, even an empty one, and every object is truthy. */
  predicate Truthy(v: Value) {
    match v
    case Null => false
    case Bool(b) => b
    case Num(n) => n != 0
    case Str(s) => s != ""
    case StrList(_) => true
    case Other => true
  }

  /** `m[key]`: an absent key reads as `undefined`. */
  function Field(m: map<string, Value>, key: string): Value
  {
    if key in m then m[key] else Null
  }

  /** The expression `v || []`. Its result is always truthy, so applying the
      default twice changes nothing; a truthy value passes through untouched
      and every falsy one becomes the empty list. */
  function OrEmpty(v: Value): (r: Value)
    ensures Truthy(r)
    ensures Truthy(v) ==> r == v
    ensures !Truthy(v) ==> r == StrList([])
  {
    if Truthy(v) then v else StrList([])
  }
}
