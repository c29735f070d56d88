/**
  The contract of hashicorp/go-memdb that the store relies on, as an assumption of the
  model: a table is the rows by primary key plus one separate map per secondary index.

  - An index entry of a non-unique index carries the row's primary key after the
    indexed value; an entry of a unique index is the indexed value alone.
  - Insert upserts by primary key and refreshes the entries of that row only. It does
    not look at other rows, so a second row with the same value of a unique index
    silently takes the first row's entry over.
  - A row with an empty value has no entry, and is refused unless the index allows it.
  - A walk visits the rows in ascending order of primary key.

  Primary keys are taken to hold no NUL byte, so that a value and the key appended to it
  can be told apart.
*/
module MemDB {
  import opened Wrappers

  datatype Index<!R> = Index(unique: bool, allowMissing: bool, value: R -> string)

  datatype Schema<!K, !R> = Schema(key: R -> K, hasKey: R -> bool, indexes: seq<Index<R>>)

  datatype EntryKey<+K> = EntryKey(value: string, row: Option<K>)

  datatype Table<K, +R> = Table(rows: map<K, R>, entries: seq<map<EntryKey<K>, R>>)

  predicate Shaped<K, R>(s: Schema<K, R>, t: Table<K, R>) {
    |t.entries| == |s.indexes|
  }

  function Empty<K, R>(s: Schema<K, R>): (t: Table<K, R>)
    ensures Shaped(s, t)
  {
    Table(map[], seq(|s.indexes|, i => map[]))
  }

  function EntryOf<K, R>(ix: Index<R>, id: K, r: R): EntryKey<K> {
    EntryKey(ix.value(r), if ix.unique then None else Some(id))
  }

  /** The primary key and every index that must not be missing have a value. */
  predicate Admissible<K, R>(s: Schema<K, R>, r: R) {
    && s.hasKey(r)
    && forall i | 0 <= i < |s.indexes| :: s.indexes[i].allowMissing || s.indexes[i].value(r) != ""
  }

  function Withdrawn<K, R>(ix: Index<R>, m: map<EntryKey<K>, R>, id: K, rows: map<K, R>): map<EntryKey<K>, R> {
    if id in rows && ix.value(rows[id]) != "" then m - {EntryOf(ix, id, rows[id])} else m
  }

  function Refreshed<K, R>(ix: Index<R>, m: map<EntryKey<K>, R>, id: K, rows: map<K, R>, r: R)
    : map<EntryKey<K>, R>
  {
    var rest := Withdrawn(ix, m, id, rows);
    if ix.value(r) != "" then rest[EntryOf(ix, id, r) := r] else rest
  }

  function Insert<K, R>(s: Schema<K, R>, t: Table<K, R>, r: R): (o: Option<Table<K, R>>)
    requires Shaped(s, t)
    ensures o.Some? ==> Shaped(s, o.value)
  {
    if !Admissible(s, r) then None
    else
      var id := s.key(r);
      Some(Table(t.rows[id := r],
                 seq(|t.entries|, i requires 0 <= i < |t.entries| =>
                   Refreshed(s.indexes[i], t.entries[i], id, t.rows, r))))
  }

  function Delete<K, R>(s: Schema<K, R>, t: Table<K, R>, id: K): (t': Table<K, R>)
    requires Shaped(s, t)
    ensures Shaped(s, t')
  {
    Table(t.rows - {id},
          seq(|t.entries|, i requires 0 <= i < |t.entries| =>
            Withdrawn(s.indexes[i], t.entries[i], id, t.rows)))
  }

  /** Exact lookup in a unique index. */
  function First<K, R>(t: Table<K, R>, i: nat, v: string): Option<R>
    requires i < |t.entries|
  {
    var e := EntryKey(v, None);
    if e in t.entries[i] then Some(t.entries[i][e]) else None
  }

  /** The primary keys a non-unique index lists under one value. */
  function Listed<K, R>(t: Table<K, R>, i: nat, v: string): set<K>
    requires i < |t.entries|
  {
    set e | e in t.entries[i] && e.value == v && e.row.Some? :: e.row.value
  }

  /** Removes every row the index lists under v, with that row's own entries. */
  function DeleteAll<K, R>(s: Schema<K, R>, t: Table<K, R>, i: nat, v: string): (t': Table<K, R>)
    requires Shaped(s, t) && i < |t.entries|
    ensures Shaped(s, t')
  {
    var ids := Listed(t, i, v);
    Table(t.rows - ids,
          seq(|t.entries|, j requires 0 <= j < |t.entries| =>
            t.entries[j] - (set id | id in ids && id in t.rows :: EntryOf(s.indexes[j], id, t.rows[id]))))
  }

  /** Index m is the exact inverse of the rows: it lists the rows with a value, and nothing else. */
  ghost predicate Exact<K(!new), R(!new)>(s: Schema<K, R>, ix: Index<R>, rows: map<K, R>, m: map<EntryKey<K>, R>) {
    && (forall e | e in m ::
          && s.key(m[e]) in rows && rows[s.key(m[e])] == m[e]
          && ix.value(m[e]) != "" && e == EntryOf(ix, s.key(m[e]), m[e]))
    && (forall id | id in rows && ix.value(rows[id]) != "" ::
          && EntryOf(ix, id, rows[id]) in m
          && m[EntryOf(ix, id, rows[id])] == rows[id])
  }

  ghost predicate Keyed<K(!new), R(!new)>(s: Schema<K, R>, rows: map<K, R>) {
    forall id | id in rows :: s.key(rows[id]) == id && Admissible(s, rows[id])
  }

  ghost predicate Consistent<K(!new), R(!new)>(s: Schema<K, R>, t: Table<K, R>) {
    && Shaped(s, t)
    && Keyed(s, t.rows)
    && forall i | 0 <= i < |s.indexes| :: Exact(s, s.indexes[i], t.rows, t.entries[i])
  }

  /** No other row holds r's value in index ix. */
  ghost predicate Vacant<K(!new), R(!new)>(s: Schema<K, R>, ix: Index<R>, rows: map<K, R>, r: R) {
    forall id | id in rows && id != s.key(r) :: ix.value(r) == "" || ix.value(rows[id]) != ix.value(r)
  }

  lemma EmptyConsistent<K(!new), R(!new)>(s: Schema<K, R>)
    ensures Consistent(s, Empty(s))
  {
    var t := Empty(s);
    forall i | 0 <= i < |s.indexes| ensures Exact(s, s.indexes[i], t.rows, t.entries[i]) {
      assert t.entries[i] == map[];
    }
  }

  lemma RefreshedExact<K(!new), R(!new)>(s: Schema<K, R>, ix: Index<R>, rows: map<K, R>, m: map<EntryKey<K>, R>, r: R)
    requires Keyed(s, rows) && Exact(s, ix, rows, m)
    ensures Exact(s, ix, rows[s.key(r) := r], Refreshed(ix, m, s.key(r), rows, r))
       <==> !ix.unique || Vacant(s, ix, rows, r)
  {
    var id := s.key(r);
    var rows', m' := rows[id := r], Refreshed(ix, m, id, rows, r);
    if ix.unique && !Vacant(s, ix, rows, r) {
      var other :| other in rows && other != id && ix.value(r) != "" && ix.value(rows[other]) == ix.value(r);
      assert rows'[other] == rows[other] && s.key(rows[other]) == other;
      assert m'[EntryOf(ix, other, rows[other])] == r;
    } else {
      forall e | e in m'
        ensures s.key(m'[e]) in rows' && rows'[s.key(m'[e])] == m'[e]
        ensures ix.value(m'[e]) != "" && e == EntryOf(ix, s.key(m'[e]), m'[e])
      {
      }
      forall k | k in rows' && ix.value(rows'[k]) != ""
        ensures EntryOf(ix, k, rows'[k]) in m' && m'[EntryOf(ix, k, rows'[k])] == rows'[k]
      {
        if k != id {
          assert EntryOf(ix, k, rows[k]) in m;
          if id in rows && ix.value(rows[id]) != "" {
            assert m[EntryOf(ix, id, rows[id])] == rows[id];
          }
        }
      }
    }
  }

  /**
    Insert keeps every index exact exactly when no other row holds the new row's value
    in a unique index: the uniqueness checks are left to the caller, and are needed.
  */
  lemma InsertKeepsIndexesIff<K(!new), R(!new)>(s: Schema<K, R>, t: Table<K, R>, r: R)
    requires Consistent(s, t) && Admissible(s, r)
    ensures Consistent(s, Insert(s, t, r).value)
       <==> forall i | 0 <= i < |s.indexes| && s.indexes[i].unique :: Vacant(s, s.indexes[i], t.rows, r)
  {
    var t' := Insert(s, t, r).value;
    forall i | 0 <= i < |s.indexes|
      ensures Exact(s, s.indexes[i], t'.rows, t'.entries[i])
         <==> !s.indexes[i].unique || Vacant(s, s.indexes[i], t.rows, r)
    {
      RefreshedExact(s, s.indexes[i], t.rows, t.entries[i], r);
    }
  }

  lemma DeleteKeepsIndexes<K(!new), R(!new)>(s: Schema<K, R>, t: Table<K, R>, id: K)
    requires Consistent(s, t)
    ensures Consistent(s, Delete(s, t, id))
  {
    var t' := Delete(s, t, id);
    forall i | 0 <= i < |s.indexes| ensures Exact(s, s.indexes[i], t'.rows, t'.entries[i]) {
      var ix, m := s.indexes[i], t.entries[i];
      forall k | k in t'.rows && ix.value(t'.rows[k]) != ""
        ensures EntryOf(ix, k, t.rows[k]) in t'.entries[i]
      {
        assert m[EntryOf(ix, k, t.rows[k])] == t.rows[k];
        if id in t.rows && ix.value(t.rows[id]) != "" {
          assert m[EntryOf(ix, id, t.rows[id])] == t.rows[id];
        }
      }
    }
  }

  /** A non-unique index lists exactly the rows that hold the value. */
  lemma ListedExactly<K(!new), R(!new)>(s: Schema<K, R>, t: Table<K, R>, i: nat, v: string)
    requires Consistent(s, t) && i < |s.indexes| && !s.indexes[i].unique && v != ""
    ensures forall id :: id in Listed(t, i, v) <==> id in t.rows && s.indexes[i].value(t.rows[id]) == v
  {
    var ix, m := s.indexes[i], t.entries[i];
    assert Exact(s, ix, t.rows, m);
    forall id
      ensures id in Listed(t, i, v) <==> id in t.rows && ix.value(t.rows[id]) == v
    {
      if id in Listed(t, i, v) {
        var e :| e in m && e.value == v && e.row == Some(id);
        assert e == EntryOf(ix, s.key(m[e]), m[e]);
      }
      if id in t.rows && ix.value(t.rows[id]) == v {
        assert EntryOf(ix, id, t.rows[id]) in m;
      }
    }
  }

  lemma DeleteAllKeepsIndexes<K(!new), R(!new)>(s: Schema<K, R>, t: Table<K, R>, i: nat, v: string)
    requires Consistent(s, t) && i < |s.indexes| && !s.indexes[i].unique && v != ""
    ensures Consistent(s, DeleteAll(s, t, i, v))
    ensures forall id :: id in DeleteAll(s, t, i, v).rows <==> id in t.rows && s.indexes[i].value(t.rows[id]) != v
    ensures forall id | id in DeleteAll(s, t, i, v).rows :: DeleteAll(s, t, i, v).rows[id] == t.rows[id]
  {
    ListedExactly(s, t, i, v);
    var ids, t' := Listed(t, i, v), DeleteAll(s, t, i, v);
    forall j | 0 <= j < |s.indexes| ensures Exact(s, s.indexes[j], t'.rows, t'.entries[j]) {
      var ix, m := s.indexes[j], t.entries[j];
      var gone := set id | id in ids && id in t.rows :: EntryOf(ix, id, t.rows[id]);
      assert t'.entries[j] == m - gone;
      forall k | k in t'.rows && ix.value(t'.rows[k]) != ""
        ensures EntryOf(ix, k, t.rows[k]) in t'.entries[j]
      {
        assert m[EntryOf(ix, k, t.rows[k])] == t.rows[k];
        forall id | id in ids && id in t.rows && EntryOf(ix, id, t.rows[id]) == EntryOf(ix, k, t.rows[k])
          ensures id == k || ix.value(t.rows[id]) == ""
        {
          assert s.key(t.rows[id]) == id && s.key(t.rows[k]) == k;
        }
      }
      forall e | e in t'.entries[j] ensures s.key(m[e]) in t'.rows {
        assert e == EntryOf(ix, s.key(m[e]), m[e]);
        assert e !in gone;
      }
    }
  }

  /** A unique index finds the one row that holds the value, or nothing. */
  lemma FirstFindsTheRow<K(!new), R(!new)>(s: Schema<K, R>, t: Table<K, R>, i: nat, v: string)
    requires Consistent(s, t) && i < |s.indexes| && s.indexes[i].unique && v != ""
    ensures First(t, i, v).None? <==> forall id | id in t.rows :: s.indexes[i].value(t.rows[id]) != v
    ensures forall id | id in t.rows && s.indexes[i].value(t.rows[id]) == v :: First(t, i, v) == Some(t.rows[id])
    ensures First(t, i, v).Some? ==>
              var r := First(t, i, v).value;
              s.key(r) in t.rows && t.rows[s.key(r)] == r && s.indexes[i].value(r) == v
  {
    var ix := s.indexes[i];
    assert Exact(s, ix, t.rows, t.entries[i]);
    forall id | id in t.rows && ix.value(t.rows[id]) == v ensures First(t, i, v) == Some(t.rows[id]) {
      assert EntryOf(ix, id, t.rows[id]) == EntryKey(v, None);
    }
  }

  /** An empty key is never found: no row is entered under an empty value. */
  lemma FirstOfNothing<K(!new), R(!new)>(s: Schema<K, R>, t: Table<K, R>, i: nat)
    requires Consistent(s, t) && i < |s.indexes|
    ensures First(t, i, "").None?
  {
    assert Exact(s, s.indexes[i], t.rows, t.entries[i]);
  }

  /** Consistent tables with the same rows are the same table: the rows determine every index. */
  lemma RowsDetermineIndexes<K(!new), R(!new)>(s: Schema<K, R>, t: Table<K, R>, u: Table<K, R>)
    requires Consistent(s, t) && Consistent(s, u) && t.rows == u.rows
    ensures t == u
  {
    forall i | 0 <= i < |s.indexes| ensures t.entries[i] == u.entries[i] {
      EntriesAgree(s, s.indexes[i], t.rows, t.entries[i], u.entries[i]);
      EntriesAgree(s, s.indexes[i], t.rows, u.entries[i], t.entries[i]);
    }
  }

  lemma EntriesAgree<K(!new), R(!new)>(s: Schema<K, R>, ix: Index<R>, rows: map<K, R>, m: map<EntryKey<K>, R>,
                                       n: map<EntryKey<K>, R>)
    requires Exact(s, ix, rows, m) && Exact(s, ix, rows, n)
    ensures forall e | e in m :: e in n && n[e] == m[e]
  {
  }

  function Indexed<K, R>(ix: Index<R>, rows: map<K, R>): map<EntryKey<K>, R>
    requires ix.unique ==> forall a, b | a in rows && b in rows && a != b ::
                             ix.value(rows[a]) == "" || ix.value(rows[a]) != ix.value(rows[b])
  {
    map id | id in rows && ix.value(rows[id]) != "" :: EntryOf(ix, id, rows[id]) := rows[id]
  }

  /** Every keyed set of rows whose unique values differ has a consistent table. */
  lemma HasConsistentTable<K(!new), R(!new)>(s: Schema<K, R>, rows: map<K, R>)
    requires Keyed(s, rows)
    requires forall i | 0 <= i < |s.indexes| && s.indexes[i].unique ::
               forall a | a in rows :: Vacant(s, s.indexes[i], rows, rows[a])
    ensures exists t :: Consistent(s, t) && t.rows == rows
  {
    forall i, a, b | 0 <= i < |s.indexes| && s.indexes[i].unique && a in rows && b in rows && a != b
      ensures s.indexes[i].value(rows[a]) == "" || s.indexes[i].value(rows[a]) != s.indexes[i].value(rows[b])
    {
      assert Vacant(s, s.indexes[i], rows, rows[a]);
    }
    var t := Table(rows, seq(|s.indexes|, i requires 0 <= i < |s.indexes| => Indexed(s.indexes[i], rows)));
    forall i | 0 <= i < |s.indexes| ensures Exact(s, s.indexes[i], t.rows, t.entries[i]) {
    }
    assert Consistent(s, t);
  }
}
