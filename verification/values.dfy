/** Values, rows and insertion-ordered dictionaries shared by the whole model. */
module Values {
  datatype Option<+T> = None | Some(value: T)

  /** What a call that may raise comes back with. */
  datatype Outcome<+T> = Returned(value: T) | Raised

  type byte = b: int | 0 <= b < 256

  type Bytes = seq<byte>

  /**
   A column value as the connector binds it; casting and JSON parsing are opaque. A `Document` is a
   dict or a list, known by the text that `json.dumps` makes of it.
   */
  datatype Value =
    | Null
    | Document(dumped: string)
    | Text(text: string)
    | Binary(raw: seq<byte>)
    | Number(n: int)
    | Instant(us: int)

  /** A stored row; a column it does not list is NULL. */
  type Row = map<string, Value>

  function Get(r: Row, c: string): Value {
    if c in r then r[c] else Null
  }

  /** `{c: row.get(c) for c in cols}` */
  function Project(r: Row, cols: seq<string>): Row {
    map c | c in cols :: Get(r, c)
  }

  predicate Distinct(s: seq<string>) {
    forall i, j :: 0 <= i < j < |s| ==> s[i] != s[j]
  }

  /** An insertion-ordered dictionary: `keys` is its iteration order. */
  datatype RawDict = RawDict(keys: seq<string>, at: Row) {
    predicate Ok() {
      && (forall c | c in keys :: c in at)
      && (forall c | c in at :: c in keys)
      && Distinct(keys)
    }
  }

  type Dict = d: RawDict | d.Ok() witness RawDict([], map[])

  const EMPTY_DICT: Dict := RawDict([], map[])

  /** `d[c] = v`: an old key keeps its place, a new one goes last. */
  function Put(d: Dict, c: string, v: Value): Dict {
    if c in d.at then RawDict(d.keys, d.at[c := v]) else RawDict(d.keys + [c], d.at[c := v])
  }

  lemma ProjectOwnKeys(d: Dict, cols: seq<string>)
    requires forall c :: c in cols <==> c in d.at
    ensures Project(d.at, cols) == d.at
  {
  }

  lemma Associative<T>(a: seq<T>, b: seq<T>, c: seq<T>)
    ensures a + (b + c) == (a + b) + c
  {
  }

  lemma AppendLast<T>(a: seq<T>, b: seq<T>)
    requires b != []
    ensures a + b == (a + b[..|b| - 1]) + [b[|b| - 1]]
    ensures b == b[..|b| - 1] + [b[|b| - 1]]
  {
  }
}
