/** INSERT ... ON CONFLICT DO NOTHING: rows go in one after the other, those whose key is there already are skipped. */
module OnConflict {
  predicate HasKey<R(!new), K(==)>(key: R -> K, table: seq<R>, k: K) {
    exists i :: 0 <= i < |table| && key(table[i]) == k
  }

  ghost predicate KeysUnique<R, K>(key: R -> K, table: seq<R>) {
    forall i, j :: 0 <= i < j < |table| ==> key(table[i]) != key(table[j])
  }

  function Insert<R(!new), K(==)>(key: R -> K, table: seq<R>, rows: seq<R>): seq<R> {
    if rows == [] then table
    else
      var t := Insert(key, table, rows[..|rows| - 1]);
      var row := rows[|rows| - 1];
      if HasKey(key, t, key(row)) then t else t + [row]
  }

  /** The table only grows at the end, keeps its key, and afterwards has every key of the batch. */
  lemma {:induction false} InsertKeepsTable<R(!new), K(!new)>(key: R -> K, table: seq<R>, rows: seq<R>)
    ensures table <= Insert(key, table, rows)
    ensures KeysUnique(key, table) ==> KeysUnique(key, Insert(key, table, rows))
    ensures forall k :: HasKey(key, Insert(key, table, rows), k) <==> HasKey(key, table, k) || HasKey(key, rows, k)
  {
    if rows != [] {
      var init, row := rows[..|rows| - 1], rows[|rows| - 1];
      InsertKeepsTable(key, table, init);
      OneMoreHasKey(key, init, row);
      assert rows == init + [row];
      OneMoreHasKey(key, Insert(key, table, init), row);
    }
  }

  lemma OneMoreHasKey<R(!new), K(!new)>(key: R -> K, table: seq<R>, row: R)
    ensures forall k :: HasKey(key, table + [row], k) <==> HasKey(key, table, k) || key(row) == k
  {
    forall k
      ensures HasKey(key, table + [row], k) <==> HasKey(key, table, k) || key(row) == k
    {
      if HasKey(key, table, k) {
        var i :| 0 <= i < |table| && key(table[i]) == k;
        assert key((table + [row])[i]) == k;
      }
      assert key((table + [row])[|table|]) == key(row);
    }
  }

  lemma {:induction false} PresentKeysChangeNothing<R(!new), K>(key: R -> K, table: seq<R>, rows: seq<R>)
    requires forall i :: 0 <= i < |rows| ==> HasKey(key, table, key(rows[i]))
    ensures Insert(key, table, rows) == table
  {
    if rows != [] {
      PresentKeysChangeNothing(key, table, rows[..|rows| - 1]);
    }
  }

  /** Writing a batch again, whole or in part, changes nothing. */
  lemma InsertIsIdempotent<R(!new), K(!new)>(key: R -> K, table: seq<R>, rows: seq<R>, again: seq<R>)
    requires forall i :: 0 <= i < |again| ==> again[i] in rows
    ensures Insert(key, Insert(key, table, rows), again) == Insert(key, table, rows)
  {
    InsertKeepsTable(key, table, rows);
    forall i | 0 <= i < |again|
      ensures HasKey(key, Insert(key, table, rows), key(again[i]))
    {
      var j :| 0 <= j < |rows| && rows[j] == again[i];
      assert HasKey(key, rows, key(again[i]));
    }
    PresentKeysChangeNothing(key, Insert(key, table, rows), again);
  }

  /** Every row of the batch goes in exactly when no key is repeated, in the batch or from the table. */
  lemma {:induction false} InsertsAllIff<R(!new), K(!new)>(key: R -> K, table: seq<R>, rows: seq<R>)
    requires KeysUnique(key, table)
    ensures |Insert(key, table, rows)| <= |table| + |rows|
    ensures Insert(key, table, rows) == table + rows <==> KeysUnique(key, table + rows)
    ensures |Insert(key, table, rows)| == |table| + |rows| <==> Insert(key, table, rows) == table + rows
  {
    if rows == [] {
      assert table + rows == table;
    } else {
      var init, row := rows[..|rows| - 1], rows[|rows| - 1];
      InsertsAllIff(key, table, init);
      assert table + rows == (table + init) + [row];
      UniqueOneMore(key, table + init, row);
    }
  }

  lemma UniqueOneMore<R(!new), K>(key: R -> K, table: seq<R>, row: R)
    ensures KeysUnique(key, table + [row]) <==> KeysUnique(key, table) && !HasKey(key, table, key(row))
  {
    var all := table + [row];
    if KeysUnique(key, all) {
      forall i, j | 0 <= i < j < |table|
        ensures key(table[i]) != key(table[j])
      {
        assert all[i] == table[i] && all[j] == table[j];
      }
      forall i | 0 <= i < |table|
        ensures key(table[i]) != key(row)
      {
        assert all[i] == table[i] && all[|table|] == row;
      }
    }
  }
}
