/**
 Current-state tables and the two statements that change them. A table is a bag of rows,
 because the warehouse enforces no key; it is kept as a sequence and compared as a multiset.
 Every statement acts on each key on its own, so the proofs look at one key at a time:
 `Slice(pk, t, k)` is the rows of `t` whose primary key is `k`.
 */
module Tables {
  import opened Values

  type Table = seq<Row>
  type Key = seq<Value>

  function KeyOf(pk: seq<string>, r: Row): Key {
    seq(|pk|, i requires 0 <= i < |pk| => Get(r, pk[i]))
  }

  /** SQL equality holds on no NULL, so only complete keys ever match. */
  predicate Complete(k: Key) { Null !in k }

  predicate SameRows(a: Table, b: Table) { multiset(a) == multiset(b) }

  function Slice(pk: seq<string>, t: Table, k: Key): Table {
    if t == [] then []
    else if KeyOf(pk, t[|t| - 1]) == k then Slice(pk, t[..|t| - 1], k) + [t[|t| - 1]]
    else Slice(pk, t[..|t| - 1], k)
  }

  /** Same rows under every key, in the same order. */
  ghost predicate Alike(pk: seq<string>, a: Table, b: Table) {
    forall k :: Slice(pk, a, k) == Slice(pk, b, k)
  }

  /** At most one row for each complete primary key. */
  ghost predicate PkUnique(pk: seq<string>, t: Table) {
    forall k :: Complete(k) ==> |Slice(pk, t, k)| <= 1
  }

  // ---- Slices -------------------------------------------------------------------------

  lemma SliceSnoc(pk: seq<string>, t: Table, r: Row, k: Key)
    ensures Slice(pk, t + [r], k) == Slice(pk, t, k) + (if KeyOf(pk, r) == k then [r] else [])
  {
    assert (t + [r])[..|t|] == t;
  }

  lemma {:induction false} SliceConcat(pk: seq<string>, a: Table, b: Table, k: Key)
    ensures Slice(pk, a + b, k) == Slice(pk, a, k) + Slice(pk, b, k)
  {
    if b == [] {
      assert a + b == a;
    } else {
      var init, last := b[..|b| - 1], b[|b| - 1];
      assert a + b == (a + init) + [last];
      SliceConcat(pk, a, init, k);
      SliceSnoc(pk, a + init, last, k);
      SliceSnoc(pk, init, last, k);
      assert b == init + [last];
    }
  }

  /** A row is in a table exactly when it is in the slice of its key, equally often. */
  lemma {:induction false} SliceCount(pk: seq<string>, t: Table, k: Key, r: Row)
    ensures multiset(Slice(pk, t, k))[r] == if KeyOf(pk, r) == k then multiset(t)[r] else 0
  {
    if t == [] {
    } else {
      SliceCount(pk, t[..|t| - 1], k, r);
      assert t == t[..|t| - 1] + [t[|t| - 1]];
    }
  }

  lemma SliceMember(pk: seq<string>, t: Table, k: Key, r: Row)
    ensures r in Slice(pk, t, k) <==> r in t && KeyOf(pk, r) == k
  {
    SliceCount(pk, t, k, r);
    assert r in t <==> multiset(t)[r] > 0;
    assert r in Slice(pk, t, k) <==> multiset(Slice(pk, t, k))[r] > 0;
  }

  /** Tables that agree key by key are the same bag. */
  lemma AlikeIsSameRows(pk: seq<string>, a: Table, b: Table)
    requires Alike(pk, a, b)
    ensures SameRows(a, b)
  {
    forall r: Row ensures multiset(a)[r] == multiset(b)[r] {
      SliceCount(pk, a, KeyOf(pk, r), r);
      SliceCount(pk, b, KeyOf(pk, r), r);
    }
  }

  /** The same bag has, under every key, the same bag of rows. */
  lemma SameRowsBySlice(pk: seq<string>, a: Table, b: Table, k: Key)
    requires SameRows(a, b)
    ensures SameRows(Slice(pk, a, k), Slice(pk, b, k))
  {
    forall r: Row ensures multiset(Slice(pk, a, k))[r] == multiset(Slice(pk, b, k))[r] {
      SliceCount(pk, a, k, r);
      SliceCount(pk, b, k, r);
    }
  }

  // ---- DELETE ... WHERE pk = key -----------------------------------------------------------

  function Without(pk: seq<string>, t: Table, k: Key): Table {
    if t == [] then []
    else if KeyOf(pk, t[|t| - 1]) == k then Without(pk, t[..|t| - 1], k)
    else Without(pk, t[..|t| - 1], k) + [t[|t| - 1]]
  }

  function DeleteKey(pk: seq<string>, t: Table, k: Key): Table {
    if Complete(k) then Without(pk, t, k) else t
  }

  lemma {:induction false} SliceWithout(pk: seq<string>, t: Table, gone: Key, k: Key)
    ensures Slice(pk, Without(pk, t, gone), k) == if k == gone then [] else Slice(pk, t, k)
  {
    if t == [] {
    } else {
      SliceWithout(pk, t[..|t| - 1], gone, k);
      SliceSnoc(pk, Without(pk, t[..|t| - 1], gone), t[|t| - 1], k);
    }
  }

  // ---- Deduplicating a MERGE source: one row per key -----------------------------------------

  predicate UniqueKeys(pk: seq<string>, t: Table) {
    forall i, j :: 0 <= i < j < |t| ==> KeyOf(pk, t[i]) != KeyOf(pk, t[j])
  }

  /**
   What `QUALIFY ROW_NUMBER() OVER (PARTITION BY pk ORDER BY pk[0]) = 1` may return: the order
   is constant inside a partition, so any one row of each partition.
   */
  ghost predicate IsPick(pk: seq<string>, rows: Table, picked: Table) {
    && UniqueKeys(pk, picked)
    && (forall r :: r in picked ==> r in rows)
    && (forall r :: r in rows ==> Slice(pk, picked, KeyOf(pk, r)) != [])
  }

  /** The intended pick: the last row of each partition. */
  function LastWins(pk: seq<string>, rows: Table): Table {
    if rows == [] then []
    else Without(pk, LastWins(pk, rows[..|rows| - 1]), KeyOf(pk, rows[|rows| - 1])) + [rows[|rows| - 1]]
  }

  function Last(t: Table): Table { if t == [] then [] else [t[|t| - 1]] }

  lemma {:induction false} SliceUnique(pk: seq<string>, t: Table, k: Key)
    requires UniqueKeys(pk, t)
    ensures |Slice(pk, t, k)| <= 1
  {
    if t == [] {
    } else {
      var init, last := t[..|t| - 1], t[|t| - 1];
      SliceUnique(pk, init, k);
      if KeyOf(pk, last) == k && Slice(pk, init, k) != [] {
        SliceMember(pk, init, k, Slice(pk, init, k)[0]);
        assert false;
      }
    }
  }

  lemma {:induction false} UniqueFromSlices(pk: seq<string>, t: Table)
    requires forall k :: |Slice(pk, t, k)| <= 1
    ensures UniqueKeys(pk, t)
  {
    forall i, j | 0 <= i < j < |t| ensures KeyOf(pk, t[i]) != KeyOf(pk, t[j]) {
      var k := KeyOf(pk, t[i]);
      assert t == t[..j] + t[j..];
      SliceConcat(pk, t[..j], t[j..], k);
      assert t[i] in t[..j] by { assert t[i] == t[..j][i]; }
      assert t[j] in t[j..] by { assert t[j] == t[j..][0]; }
      SliceMember(pk, t[..j], k, t[i]);
      SliceMember(pk, t[j..], k, t[j]);
    }
  }

  /** Under each key a pick holds exactly one of the rows of that key. */
  lemma PickAt(pk: seq<string>, rows: Table, picked: Table, k: Key)
    requires IsPick(pk, rows, picked)
    ensures Slice(pk, rows, k) == [] ==> Slice(pk, picked, k) == []
    ensures Slice(pk, rows, k) != [] ==> |Slice(pk, picked, k)| == 1 && Slice(pk, picked, k)[0] in Slice(pk, rows, k)
  {
    SliceUnique(pk, picked, k);
    var s := Slice(pk, picked, k);
    if s != [] {
      SliceMember(pk, picked, k, s[0]);
      SliceMember(pk, rows, k, s[0]);
    }
    if Slice(pk, rows, k) != [] {
      SliceMember(pk, rows, k, Slice(pk, rows, k)[0]);
    }
  }

  lemma PickOfCopiesAt(pk: seq<string>, base: Table, copies: Table, picked: Table, k: Key)
    requires UniqueKeys(pk, base) && IsPick(pk, copies, picked)
    requires forall r :: r in copies <==> r in base
    ensures Slice(pk, picked, k) == Slice(pk, base, k)
  {
    hide UniqueKeys, IsPick, Slice, KeyOf;
    PickAt(pk, copies, picked, k);
    SliceUnique(pk, base, k);
    var s, b := Slice(pk, copies, k), Slice(pk, base, k);
    if s == [] {
      if b != [] {
        SliceMember(pk, base, k, b[0]);
        SliceMember(pk, copies, k, b[0]);
      }
    } else {
      var p := Slice(pk, picked, k)[0];
      SliceMember(pk, copies, k, p);
      SliceMember(pk, base, k, p);
      assert b == [p];
    }
  }

  /** Picking one row per key from copies of rows with distinct keys gives those rows back. */
  lemma PickOfCopies(pk: seq<string>, base: Table, copies: Table, picked: Table)
    requires UniqueKeys(pk, base) && IsPick(pk, copies, picked)
    requires forall r :: r in copies <==> r in base
    ensures SameRows(picked, base)
  {
    hide UniqueKeys, IsPick, Slice, KeyOf;
    forall k ensures Slice(pk, picked, k) == Slice(pk, base, k) {
      PickOfCopiesAt(pk, base, copies, picked, k);
    }
    AlikeIsSameRows(pk, picked, base);
  }

  lemma {:induction false} LastWinsAt(pk: seq<string>, rows: Table, k: Key)
    ensures Slice(pk, LastWins(pk, rows), k) == Last(Slice(pk, rows, k))
  {
    if rows == [] {
    } else {
      var init, last := rows[..|rows| - 1], rows[|rows| - 1];
      LastWinsAt(pk, init, k);
      SliceWithout(pk, LastWins(pk, init), KeyOf(pk, last), k);
      SliceSnoc(pk, Without(pk, LastWins(pk, init), KeyOf(pk, last)), last, k);
    }
  }

  lemma LastWinsIsPick(pk: seq<string>, rows: Table)
    ensures IsPick(pk, rows, LastWins(pk, rows))
  {
    var p := LastWins(pk, rows);
    forall k ensures |Slice(pk, p, k)| <= 1 {
      LastWinsAt(pk, rows, k);
    }
    UniqueFromSlices(pk, p);
    forall r | r in p ensures r in rows {
      LastWinsAt(pk, rows, KeyOf(pk, r));
      SliceMember(pk, p, KeyOf(pk, r), r);
      SliceMember(pk, rows, KeyOf(pk, r), r);
    }
    forall r | r in rows ensures Slice(pk, p, KeyOf(pk, r)) != [] {
      LastWinsAt(pk, rows, KeyOf(pk, r));
      SliceMember(pk, rows, KeyOf(pk, r), r);
    }
  }

  /** Any row of the source may be the one picked for its key. */
  function PickWith(pk: seq<string>, rows: Table, r: Row): Table {
    Without(pk, LastWins(pk, rows), KeyOf(pk, r)) + [r]
  }

  lemma PickWithAt(pk: seq<string>, rows: Table, r: Row, k: Key)
    ensures Slice(pk, PickWith(pk, rows, r), k) == if k == KeyOf(pk, r) then [r] else Last(Slice(pk, rows, k))
  {
    LastWinsAt(pk, rows, k);
    SliceWithout(pk, LastWins(pk, rows), KeyOf(pk, r), k);
    SliceSnoc(pk, Without(pk, LastWins(pk, rows), KeyOf(pk, r)), r, k);
  }

  lemma PickWithMember(pk: seq<string>, rows: Table, r: Row, q: Row)
    requires r in rows
    ensures q in PickWith(pk, rows, r) ==> q in rows
    ensures q in rows ==> Slice(pk, PickWith(pk, rows, r), KeyOf(pk, q)) != []
  {
    hide PickWith, KeyOf;
    PickWithAt(pk, rows, r, KeyOf(pk, q));
    SliceMember(pk, PickWith(pk, rows, r), KeyOf(pk, q), q);
    SliceMember(pk, rows, KeyOf(pk, q), q);
  }

  lemma PickWithIsPick(pk: seq<string>, rows: Table, r: Row)
    requires r in rows
    ensures IsPick(pk, rows, PickWith(pk, rows, r))
    ensures Slice(pk, PickWith(pk, rows, r), KeyOf(pk, r)) == [r]
  {
    hide PickWith, Slice, UniqueKeys;
    forall k ensures |Slice(pk, PickWith(pk, rows, r), k)| <= 1 {
      PickWithAt(pk, rows, r, k);
    }
    UniqueFromSlices(pk, PickWith(pk, rows, r));
    forall q: Row {
      PickWithMember(pk, rows, r, q);
    }
    PickWithAt(pk, rows, r, KeyOf(pk, r));
  }

  // ---- MERGE ------------------------------------------------------------------------------------

  /** `WHEN MATCHED THEN UPDATE SET` every source column outside the key. */
  function Override(pk: seq<string>, dst: Row, src: Row): Row {
    dst + (src - (set c | c in pk))
  }

  function OverrideAll(pk: seq<string>, t: Table, src: Row): Table {
    seq(|t|, i requires 0 <= i < |t| => Override(pk, t[i], src))
  }

  /** The source row matching key `k`, as a table of at most one row. */
  function Match(pk: seq<string>, src: Table, k: Key): Table {
    if Complete(k) then Slice(pk, src, k) else []
  }

  function UpdateMatched(pk: seq<string>, t: Table, src: Table): Table {
    if t == [] then []
    else
      var r := t[|t| - 1];
      var m := Match(pk, src, KeyOf(pk, r));
      UpdateMatched(pk, t[..|t| - 1], src) + [if m == [] then r else Override(pk, r, m[0])]
  }

  function Unmatched(pk: seq<string>, t: Table, src: Table): Table {
    if src == [] then []
    else
      var r := src[|src| - 1];
      Unmatched(pk, t, src[..|src| - 1])
      + (if Complete(KeyOf(pk, r)) && Slice(pk, t, KeyOf(pk, r)) != [] then [] else [r])
  }

  function Merge(pk: seq<string>, t: Table, src: Table): Table {
    UpdateMatched(pk, t, src) + Unmatched(pk, t, src)
  }

  /** What a MERGE does to the rows of one key, given the source rows of that key. */
  function MergeAt(pk: seq<string>, rows: Table, src: Table): Table {
    if src == [] then rows else if rows == [] then [src[0]] else OverrideAll(pk, rows, src[0])
  }

  lemma OverrideKeepsKey(pk: seq<string>, dst: Row, src: Row)
    ensures KeyOf(pk, Override(pk, dst, src)) == KeyOf(pk, dst)
  {
    forall i | 0 <= i < |pk| ensures Get(Override(pk, dst, src), pk[i]) == Get(dst, pk[i]) {
      assert pk[i] in pk;
    }
  }

  lemma {:induction false} SliceUpdateMatched(pk: seq<string>, t: Table, src: Table, k: Key)
    ensures Match(pk, src, k) == [] ==> Slice(pk, UpdateMatched(pk, t, src), k) == Slice(pk, t, k)
    ensures Match(pk, src, k) != [] ==>
              Slice(pk, UpdateMatched(pk, t, src), k) == OverrideAll(pk, Slice(pk, t, k), Match(pk, src, k)[0])
  {
    if t == [] {
    } else {
      var init, r := t[..|t| - 1], t[|t| - 1];
      SliceUpdateMatched(pk, init, src, k);
      var m := Match(pk, src, KeyOf(pk, r));
      var r' := if m == [] then r else Override(pk, r, m[0]);
      if m != [] { OverrideKeepsKey(pk, r, m[0]); }
      SliceSnoc(pk, UpdateMatched(pk, init, src), r', k);
    }
  }

  lemma {:induction false} SliceUnmatched(pk: seq<string>, t: Table, src: Table, k: Key)
    ensures Slice(pk, Unmatched(pk, t, src), k)
         == if Complete(k) && Slice(pk, t, k) != [] then [] else Slice(pk, src, k)
  {
    if src == [] {
    } else {
      var init, r := src[..|src| - 1], src[|src| - 1];
      SliceUnmatched(pk, t, init, k);
      SliceSnoc(pk, Unmatched(pk, t, init), r, k);
      assert Unmatched(pk, t, init) + [] == Unmatched(pk, t, init);
    }
  }

  /** A MERGE from a deduplicated source acts on each complete key on its own. */
  lemma SliceMerge(pk: seq<string>, t: Table, src: Table, k: Key)
    requires UniqueKeys(pk, src)
    ensures Slice(pk, Merge(pk, t, src), k)
         == if Complete(k) then MergeAt(pk, Slice(pk, t, k), Slice(pk, src, k))
            else Slice(pk, t, k) + Slice(pk, src, k)
  {
    SliceConcat(pk, UpdateMatched(pk, t, src), Unmatched(pk, t, src), k);
    SliceUpdateMatched(pk, t, src, k);
    SliceUnmatched(pk, t, src, k);
    SliceUnique(pk, src, k);
  }

  lemma SliceDelete(pk: seq<string>, t: Table, gone: Key, k: Key)
    ensures Slice(pk, DeleteKey(pk, t, gone), k) == if k == gone && Complete(k) then [] else Slice(pk, t, k)
  {
    SliceWithout(pk, t, gone, k);
  }

  /**
   Column by column: a matched row keeps its key columns and those that the source row does not
   list, and takes the others; an unmatched source row is inserted as it is.
   */
  lemma {:induction false} MergeColumns(pk: seq<string>, t: Table, src: Table, k: Key, s: Row, i: nat, c: string)
    requires UniqueKeys(pk, src) && Complete(k) && Slice(pk, src, k) == [s]
    ensures var was, now := Slice(pk, t, k), Slice(pk, Merge(pk, t, src), k);
            && (was == [] ==> now == [s])
            && (was != [] ==> |now| == |was|)
            && (i < |was| ==>
                  && (c in now[i] <==> c in was[i] || (c in s && c !in pk))
                  && (c in now[i] ==> now[i][c] == if c in s && c !in pk then s[c] else was[i][c]))
  {
    SliceMerge(pk, t, src, k);
    hide Merge, Slice, UniqueKeys;
  }

  // ---- Merging the same key twice -----------------------------------------------------------------

  /** Same columns and, by the key, the same values in the key columns. */
  ghost predicate Peers(pk: seq<string>, a: Row, b: Row) {
    && a.Keys == b.Keys
    && KeyOf(pk, a) == KeyOf(pk, b)
  }

  lemma PeersAgreeOnKey(pk: seq<string>, a: Row, b: Row, c: string)
    requires Peers(pk, a, b) && c in pk && c in a
    ensures a[c] == b[c]
  {
    var i :| 0 <= i < |pk| && pk[i] == c;
    assert KeyOf(pk, a)[i] == Get(a, c) && KeyOf(pk, b)[i] == Get(b, c);
  }

  lemma OverridePeer(pk: seq<string>, dst: Row, a: Row, b: Row)
    requires Peers(pk, a, b)
    ensures Override(pk, Override(pk, dst, a), b) == Override(pk, dst, b)
    ensures Override(pk, a, b) == b
  {
    forall c | c in b ensures c in Override(pk, a, b) && Override(pk, a, b)[c] == b[c] {
      if c in pk { PeersAgreeOnKey(pk, a, b, c); }
    }
    assert Override(pk, a, b).Keys == b.Keys;
  }

  /** A later MERGE of the same key absorbs an earlier one. */
  lemma MergeAbsorbs(pk: seq<string>, rows: Table, a: Row, b: Row)
    requires Peers(pk, a, b)
    ensures MergeAt(pk, MergeAt(pk, rows, [a]), [b]) == MergeAt(pk, rows, [b])
  {
    var once, twice := MergeAt(pk, rows, [b]), MergeAt(pk, MergeAt(pk, rows, [a]), [b]);
    OverridePeer(pk, a, a, b);
    forall i | 0 <= i < |rows| ensures twice[i] == once[i] {
      OverridePeer(pk, rows[i], a, b);
    }
    assert |twice| == |once|;
  }

  /** Merging different rows of one key leaves different bags. */
  lemma MergeTells(pk: seq<string>, rows: Table, a: Row, b: Row)
    requires Peers(pk, a, b) && a != b
    ensures !SameRows(MergeAt(pk, rows, [a]), MergeAt(pk, rows, [b]))
  {
    var x, y := MergeAt(pk, rows, [a]), MergeAt(pk, rows, [b]);
    assert x[0] in multiset(x) by { assert x[0] in x; }
    if rows == [] {
      assert x == [a] && y == [b];
      assert a !in multiset(y);
    } else {
      var c :| c in a && a[c] != b[c];
      if c in pk { PeersAgreeOnKey(pk, a, b, c); assert false; }
      assert x[0][c] == a[c];
      forall r | r in y ensures r != x[0] {
        var i :| 0 <= i < |y| && y[i] == r;
        assert y[i] == Override(pk, rows[i], b);
        assert y[i][c] == b[c];
      }
      assert x[0] !in y;
    }
  }
}
