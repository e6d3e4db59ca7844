/** Column renaming: PostgreSQL camelCase to Snowflake UPPER_SNAKE_CASE. */
module Columns {
  import opened Values

  predicate IsLower(c: char) { 'a' <= c <= 'z' }
  predicate IsUpper(c: char) { 'A' <= c <= 'Z' }
  function ToUpper(c: char): char { if IsLower(c) then c - 32 as char else c }
  function ToLower(c: char): char { if IsUpper(c) then c + 32 as char else c }

  /** The regular expression `([a-z])([A-Z])` replaced by `\1_\2`, left to right. */
  function Split(s: string): string {
    if |s| < 2 then s
    else if IsLower(s[0]) && IsUpper(s[1]) then [s[0], '_', s[1]] + Split(s[2..])
    else [s[0]] + Split(s[1..])
  }

  function Upper(s: string): string { seq(|s|, i requires 0 <= i < |s| => ToUpper(s[i])) }

  function PgColToSf(name: string): string { Upper(Split(name)) }

  /** ASCII, starts with no capital, has no underscore, and each capital follows a lower-case letter. */
  predicate StrictCamel(s: string) {
    && (forall i :: 0 <= i < |s| ==> s[i] < 128 as char)
    && (s != [] ==> !IsUpper(s[0]))
    && (forall i :: 0 <= i < |s| ==> s[i] != '_')
    && (forall i :: 0 < i < |s| && IsUpper(s[i]) ==> IsLower(s[i - 1]))
  }

  /** Reads an UPPER_SNAKE_CASE name back: `_X` is a capital, anything else lower case. */
  function FromSf(t: string): string {
    if t == [] then []
    else if t[0] == '_' && |t| > 1 then [t[1]] + FromSf(t[2..])
    else [ToLower(t[0])] + FromSf(t[1..])
  }

  lemma UpperConcat(a: string, b: string)
    ensures Upper(a + b) == Upper(a) + Upper(b)
  {
  }

  lemma FromSfHump(a: char, b: char, t: string)
    requires IsLower(a) && b != '_'
    ensures FromSf([ToUpper(a), '_', b] + t) == [a, b] + FromSf(t)
  {
    var whole := [ToUpper(a), '_', b] + t;
    assert whole[1..] == ['_', b] + t;
    assert whole[1..][2..] == t;
    assert FromSf(whole[1..]) == [b] + FromSf(t);
    assert [ToLower(ToUpper(a))] + ([b] + FromSf(t)) == [a, b] + FromSf(t);
  }

  lemma FromSfPlain(a: char, t: string)
    requires a != '_' && !IsUpper(a)
    ensures FromSf([ToUpper(a)] + t) == [a] + FromSf(t)
  {
    assert ([ToUpper(a)] + t)[1..] == t;
  }

  lemma PgColToSfHump(s: string)
    requires |s| >= 2 && IsLower(s[0]) && IsUpper(s[1])
    ensures PgColToSf(s) == [ToUpper(s[0]), '_', s[1]] + PgColToSf(s[2..])
  {
    UpperConcat([s[0], '_', s[1]], Split(s[2..]));
    assert Upper([s[0], '_', s[1]]) == [ToUpper(s[0]), '_', s[1]];
  }

  lemma PgColToSfPlain(s: string)
    requires s != [] && !(|s| >= 2 && IsLower(s[0]) && IsUpper(s[1]))
    ensures PgColToSf(s) == [ToUpper(s[0])] + PgColToSf(s[1..])
  {
    if |s| >= 2 {
      UpperConcat([s[0]], Split(s[1..]));
    }
    assert Upper([s[0]]) == [ToUpper(s[0])];
  }

  /** The renaming has a left inverse on strict camelCase names. */
  lemma {:induction false} RenameInverts(s: string)
    requires StrictCamel(s)
    ensures FromSf(PgColToSf(s)) == s
  {
    if s == [] {
      assert PgColToSf(s) == [];
    } else if |s| >= 2 && IsLower(s[0]) && IsUpper(s[1]) {
      hide PgColToSf, FromSf;
      assert StrictCamel(s[2..]);
      RenameInverts(s[2..]);
      PgColToSfHump(s);
      FromSfHump(s[0], s[1], PgColToSf(s[2..]));
    } else {
      hide PgColToSf, FromSf;
      assert StrictCamel(s[1..]);
      RenameInverts(s[1..]);
      PgColToSfPlain(s);
      FromSfPlain(s[0], PgColToSf(s[1..]));
    }
  }

  lemma RenameInjective(a: string, b: string)
    requires StrictCamel(a) && StrictCamel(b)
    ensures PgColToSf(a) == PgColToSf(b) ==> a == b
  {
    RenameInverts(a);
    RenameInverts(b);
  }

  lemma {:induction false} SplitWithoutLower(s: string)
    requires forall i :: 0 <= i < |s| ==> !IsLower(s[i])
    ensures Split(s) == s
  {
    if |s| < 2 {
    } else {
      SplitWithoutLower(s[1..]);
    }
  }

  lemma RenameIdempotent(s: string)
    ensures PgColToSf(PgColToSf(s)) == PgColToSf(s)
  {
    SplitWithoutLower(PgColToSf(s));
  }

  lemma {:induction false} SplitWithoutUpper(s: string)
    requires forall i :: 0 <= i < |s| ==> !IsUpper(s[i])
    ensures Split(s) == s
  {
    if |s| < 2 {
    } else {
      SplitWithoutUpper(s[1..]);
    }
  }

  predicate LowerWord(s: string) {
    s != [] && forall i :: 0 <= i < |s| ==> IsLower(s[i])
  }

  lemma WordBecomesUpper(p: string)
    requires LowerWord(p)
    ensures |PgColToSf(p)| == |p| && forall i :: 0 <= i < |p| ==> PgColToSf(p)[i] == p[i] - 32 as char
  {
    SplitWithoutUpper(p);
  }

  /** A camelCase name of two words becomes their capitals with an underscore between. */
  lemma {:induction false} CamelBecomesUpperSnake(p: string, q: string)
    requires LowerWord(p) && LowerWord(q)
    ensures var r := PgColToSf(p + [q[0] - 32 as char] + q[1..]);
            && |r| == |p| + 1 + |q| && r[|p|] == '_'
            && (forall i :: 0 <= i < |p| ==> r[i] == p[i] - 32 as char)
            && forall i :: 0 <= i < |q| ==> r[|p| + 1 + i] == q[i] - 32 as char
  {
    var snake := p + ['_'] + q;
    CamelAndSnakeCollide(p, q);
    SplitWithoutUpper(snake);
    hide Split;
    assert PgColToSf(snake) == Upper(snake);
    assert forall i :: 0 <= i < |q| ==> snake[|p| + 1 + i] == q[i];
  }

  /** Outside strict camelCase names collide: `tenantId` and `tenant_id` share one column. */
  lemma {:induction false} CamelAndSnakeCollide(p: string, q: string)
    requires LowerWord(p) && LowerWord(q)
    ensures PgColToSf(p + [ToUpper(q[0])] + q[1..]) == PgColToSf(p + ['_'] + q)
  {
    var camel, snake := p + [ToUpper(q[0])] + q[1..], p + ['_'] + q;
    SplitWithoutUpper(snake);
    SplitCapitalised(q);
    SplitHump(p, [ToUpper(q[0])] + q[1..]);
    assert camel == p + ([ToUpper(q[0])] + q[1..]);
  }

  lemma SplitCapitalised(q: string)
    requires LowerWord(q)
    ensures Split([ToUpper(q[0])] + q[1..]) == [ToUpper(q[0])] + q[1..]
  {
    SplitWithoutUpper(q[1..]);
    assert ([ToUpper(q[0])] + q[1..])[1..] == q[1..];
  }

  lemma SplitAtHump(a: char, b: char, t: string)
    requires IsLower(a) && IsUpper(b)
    ensures Split([a, b] + t) == [a, '_', b] + Split(t)
  {
    assert ([a, b] + t)[2..] == t;
  }

  lemma SplitPlain(a: char, t: string)
    requires t != [] && !IsUpper(t[0])
    ensures Split([a] + t) == [a] + Split(t)
  {
    assert ([a] + t)[1..] == t;
  }

  lemma {:induction false} SplitHump(p: string, t: string)
    requires LowerWord(p) && t != [] && IsUpper(t[0]) && Split(t) == t
    ensures Split(p + t) == p + ['_'] + t
  {
    hide Split;
    if |p| == 1 {
      SplitOneHump(p[0], t);
      assert p == [p[0]];
    } else {
      SplitHump(p[1..], t);
      SplitLongHump(p[0], p[1..], t);
      assert p == [p[0]] + p[1..];
    }
  }

  lemma SplitOneHump(a: char, t: string)
    requires IsLower(a) && t != [] && IsUpper(t[0]) && Split(t) == t
    ensures Split([a] + t) == [a] + ['_'] + t
  {
    SplitTail(t);
    hide Split;
    SplitAtHump(a, t[0], t[1..]);
    assert [a] + t == [a, t[0]] + t[1..];
  }

  lemma SplitLongHump(a: char, rest: string, t: string)
    requires rest != [] && !IsUpper(rest[0]) && Split(rest + t) == rest + ['_'] + t
    ensures Split([a] + rest + t) == [a] + rest + ['_'] + t
  {
    hide Split;
    SplitPlain(a, rest + t);
    assert [a] + rest + t == [a] + (rest + t);
  }

  lemma SplitTail(t: string)
    requires t != [] && IsUpper(t[0]) && Split(t) == t
    ensures Split(t[1..]) == t[1..]
  {
    if |t| >= 2 {
      assert Split(t) == [t[0]] + Split(t[1..]);
      assert Split(t)[1..] == Split(t[1..]);
    }
  }

  const JSONB_COLS := {"metadata", "tags"}

  /** Documents become text: in the JSONB columns, or everywhere when `all` is set. */
  function Dumped(pgKey: string, val: Value, all: bool): Value {
    if val.Document? && (all || pgKey in JSONB_COLS) then Text(val.dumped) else val
  }

  /** The dictionary after converting the first `n` columns of `row`. */
  function RenamedUpTo(row: Dict, n: nat, all: bool): Dict
    requires n <= |row.keys|
  {
    if n == 0 then EMPTY_DICT
    else
      var pgKey := row.keys[n - 1];
      Put(RenamedUpTo(row, n - 1, all), PgColToSf(pgKey), Dumped(pgKey, row.at[pgKey], all))
  }

  /** The sink's conversion, which dumps documents in the JSONB columns. */
  function RowToSf(row: Dict): Dict { RenamedUpTo(row, |row.keys|, false) }

  /** The backfill's conversion, which dumps every document. */
  function RowToLoad(row: Dict): Dict { RenamedUpTo(row, |row.keys|, true) }

  method BuildSfRow(row: Dict) returns (out: Dict)
    ensures out == RowToSf(row)
    ensures Apart(row.keys) ==> HoldsRow(out.at, row, false)
  {
    hide PgColToSf, Put, Apart, HoldsRow;
    RowHeld(row, false);
    out := EMPTY_DICT;
    for n := 0 to |row.keys|
      invariant out == RenamedUpTo(row, n, false)
    {
      var pgKey := row.keys[n];
      var val := row.at[pgKey];
      if pgKey in JSONB_COLS {
        if val.Null? {
          out := Put(out, PgColToSf(pgKey), Null);
        } else if val.Document? {
          out := Put(out, PgColToSf(pgKey), Text(val.dumped));
        } else {
          out := Put(out, PgColToSf(pgKey), val);
        }
      } else {
        out := Put(out, PgColToSf(pgKey), val);
      }
    }
  }

  method BuildLoadRow(row: Dict) returns (out: Dict)
    ensures out == RowToLoad(row)
    ensures Apart(row.keys) ==> HoldsRow(out.at, row, true)
  {
    hide PgColToSf, Put, Apart, HoldsRow;
    RowHeld(row, true);
    out := EMPTY_DICT;
    for n := 0 to |row.keys|
      invariant out == RenamedUpTo(row, n, true)
    {
      var pgKey := row.keys[n];
      var val := row.at[pgKey];
      if val.Document? {
        out := Put(out, PgColToSf(pgKey), Text(val.dumped));
      } else {
        out := Put(out, PgColToSf(pgKey), val);
      }
    }
  }

  predicate AllStrictCamel(names: seq<string>) {
    forall c | c in names :: StrictCamel(c)
  }

  /** No two of these columns share a Snowflake column. */
  predicate Apart(names: seq<string>) {
    forall i, j :: 0 <= i < j < |names| ==> PgColToSf(names[i]) != PgColToSf(names[j])
  }

  /** Different strict camelCase columns never share one. */
  lemma StrictCamelApart(names: seq<string>)
    requires Distinct(names) && AllStrictCamel(names)
    ensures Apart(names)
  {
    hide PgColToSf, StrictCamel;
    forall i, j | 0 <= i < j < |names| ensures PgColToSf(names[i]) != PgColToSf(names[j]) {
      RenameInjective(names[i], names[j]);
    }
  }

  /**
   What is stored of a value: itself, or the dumped text of a document that is in one of the two
   JSONB columns, or, when `all` is set, in any column.
   */
  ghost predicate StoredAs(pgKey: string, val: Value, all: bool, stored: Value) {
    if val.Document? && (all || pgKey == "metadata" || pgKey == "tags") then stored == Text(val.dumped)
    else stored == val
  }

  /** A stored row has a column for each column of the source row, with its value, and no other column. */
  ghost predicate HoldsRow(stored: Row, row: Dict, all: bool) {
    && (forall c :: c in row.at ==>
          PgColToSf(c) in stored && StoredAs(c, row.at[c], all, stored[PgColToSf(c)]))
    && (forall name :: name in stored ==> exists c :: c in row.at && PgColToSf(c) == name)
  }

  lemma DumpedIsStored(pgKey: string, val: Value, all: bool)
    ensures StoredAs(pgKey, val, all, Dumped(pgKey, val, all))
  {
  }

  /** Columns that are apart keep their values, documents as their text. */
  lemma RowToSfKeepsValues(row: Dict, n: nat, i: nat, all: bool)
    requires i < n <= |row.keys|
    requires Apart(row.keys)
    ensures PgColToSf(row.keys[i]) in RenamedUpTo(row, n, all).at
    ensures StoredAs(row.keys[i], row.at[row.keys[i]], all, RenamedUpTo(row, n, all).at[PgColToSf(row.keys[i])])
  {
    hide PgColToSf, Distinct, Apart, RenamedUpTo, Dumped, StoredAs;
    RenamedValue(row, n, i, all);
    DumpedIsStored(row.keys[i], row.at[row.keys[i]], all);
  }

  /** So the converted row holds the source row. */
  lemma RowHeld(row: Dict, all: bool)
    ensures Apart(row.keys) ==> HoldsRow(RenamedUpTo(row, |row.keys|, all).at, row, all)
  {
    hide PgColToSf, Distinct, Apart, RenamedUpTo, StoredAs;
    if Apart(row.keys) {
      forall c | c in row.at
        ensures var out := RenamedUpTo(row, |row.keys|, all).at;
                PgColToSf(c) in out && StoredAs(c, row.at[c], all, out[PgColToSf(c)])
      {
        var i :| 0 <= i < |row.keys| && row.keys[i] == c;
        RowToSfKeepsValues(row, |row.keys|, i, all);
      }
      forall name | name in RenamedUpTo(row, |row.keys|, all).at
        ensures exists c :: c in row.at && PgColToSf(c) == name
      {
        var i := RowToSfInventsNothing(row, |row.keys|, name, all);
        assert row.keys[i] in row.at;
      }
    }
  }

  lemma {:induction false} RenamedValue(row: Dict, n: nat, i: nat, all: bool)
    requires i < n <= |row.keys|
    requires Apart(row.keys)
    ensures PgColToSf(row.keys[i]) in RenamedUpTo(row, n, all).at
    ensures RenamedUpTo(row, n, all).at[PgColToSf(row.keys[i])] == Dumped(row.keys[i], row.at[row.keys[i]], all)
  {
    hide PgColToSf, Distinct;
    if i < n - 1 {
      RenamedValue(row, n - 1, i, all);
    }
    assert RenamedUpTo(row, n, all)
        == Put(RenamedUpTo(row, n - 1, all), PgColToSf(row.keys[n - 1]),
               Dumped(row.keys[n - 1], row.at[row.keys[n - 1]], all));
  }

  /** Every stored value came from some column with that Snowflake name: nothing is invented. */
  lemma {:induction false} RowToSfInventsNothing(row: Dict, n: nat, c: string, all: bool) returns (i: nat)
    requires n <= |row.keys| && c in RenamedUpTo(row, n, all).at
    ensures i < n && PgColToSf(row.keys[i]) == c
    ensures StoredAs(row.keys[i], row.at[row.keys[i]], all, RenamedUpTo(row, n, all).at[c])
  {
    hide PgColToSf, Distinct, Dumped, StoredAs;
    DumpedIsStored(row.keys[n - 1], row.at[row.keys[n - 1]], all);
    var before, name := RenamedUpTo(row, n - 1, all), PgColToSf(row.keys[n - 1]);
    if c == name {
      i := n - 1;
    } else {
      i := RowToSfInventsNothing(row, n - 1, c, all);
    }
  }

  /** The next column is new. */
  lemma NextNameIsFresh(row: Dict, n: nat, all: bool)
    requires 0 < n <= |row.keys|
    requires Apart(row.keys)
    ensures PgColToSf(row.keys[n - 1]) !in RenamedUpTo(row, n - 1, all).at
  {
    hide PgColToSf, Distinct, RenamedUpTo;
    if PgColToSf(row.keys[n - 1]) in RenamedUpTo(row, n - 1, all).at {
      var i := RowToSfInventsNothing(row, n - 1, PgColToSf(row.keys[n - 1]), all);
    }
  }

  lemma PutNewKey(d: Dict, c: string, v: Value)
    requires c !in d.at
    ensures Put(d, c, v).keys == d.keys + [c]
  {
  }

  lemma RenamedNext(row: Dict, n: nat, all: bool)
    requires 0 < n <= |row.keys|
    ensures var name, val := row.keys[n - 1], row.at[row.keys[n - 1]];
            && RenamedUpTo(row, n, all) == Put(RenamedUpTo(row, n - 1, all), PgColToSf(name), Dumped(name, val, all))
            && Renamed(row.keys[..n]) == Renamed(row.keys[..n - 1]) + [PgColToSf(name)]
  {
    hide PgColToSf, Put, Dumped;
    assert row.keys[..n] == row.keys[..n - 1] + [row.keys[n - 1]];
  }

  lemma NothingRenamed(row: Dict, all: bool)
    ensures RenamedUpTo(row, 0, all).keys == Renamed(row.keys[..0])
  {
  }

  /** Columns that are apart keep their places: no two of them collapse. */
  lemma {:induction false} RowToSfKeepsPlaces(row: Dict, n: nat, all: bool)
    requires n <= |row.keys|
    requires Apart(row.keys)
    ensures RenamedUpTo(row, n, all).keys == Renamed(row.keys[..n])
  {
    assert n > 0 ==> row.keys[n - 1] in row.at;
    hide *;
    if n == 0 {
      NothingRenamed(row, all);
    } else {
      var name := row.keys[n - 1];
      RowToSfKeepsPlaces(row, n - 1, all);
      NextNameIsFresh(row, n, all);
      RenamedNext(row, n, all);
      PutNewKey(RenamedUpTo(row, n - 1, all), PgColToSf(name), Dumped(name, row.at[name], all));
    }
  }

  function Renamed(names: seq<string>): seq<string> {
    seq(|names|, i requires 0 <= i < |names| => PgColToSf(names[i]))
  }
}
