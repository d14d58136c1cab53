/**
 * Merge-by-key reconciliation after a fetch: the fetched rows are either
 * appended in bulk, or applied one at a time against the primary keys
 * captured from the container before the fetch, where a row whose key is
 * among them replaces the row at the first such position and any other row
 * is appended.
 */
module Reconcile {
  import opened Wrappers
  import opened Model

  /** `keys.indexOf(k)`: the first position holding `k`, or -1. */
  function IndexOf(keys: seq<Value>, k: Value): (r: int)
    ensures -1 <= r < |keys|
    ensures r == -1 <==> k !in keys
    ensures r >= 0 ==> keys[r] == k && k !in keys[..r]
  {
    if keys == [] then -1
    else if keys[0] == k then 0
    else
      var r := IndexOf(keys[1..], k);
      assert keys[1..][..if r < 0 then 0 else r] == keys[1..][..if r < 0 then 0 else r];
      if r == -1 then -1
      else
        assert keys[..r + 1] == [keys[0]] + keys[1..][..r];
        r + 1
  }

  /** The position a fetched row replaces, or -1 when its key was not captured. */
  function Slot(keys: seq<Value>, primaryKey: string, row: Row): int {
    IndexOf(keys, KeyOf(row, primaryKey))
  }

  /** The primary key of every row, in order. */
  function KeysOf(rows: seq<Row>, primaryKey: string): seq<Value> {
    seq(|rows|, i requires 0 <= i < |rows| => KeyOf(rows[i], primaryKey))
  }

  /** One step of the per-row path: replace the row at the captured position, or append. */
  function Apply(container: seq<Row>, keys: seq<Value>, primaryKey: string, row: Row): seq<Row>
    requires |keys| <= |container|
  {
    var index := Slot(keys, primaryKey, row);
    if index != -1 then container[index := row] else container + [row]
  }

  /** The per-row path over `rows`, in arrival order. */
  function Merge(container: seq<Row>, keys: seq<Value>, primaryKey: string, rows: seq<Row>): (r: seq<Row>)
    requires |keys| <= |container|
    ensures |r| >= |container|
    decreases |rows|
  {
    if rows == [] then container
    else Apply(Merge(container, keys, primaryKey, rows[..|rows| - 1]), keys, primaryKey, rows[|rows| - 1])
  }

  /** The container after a fetch: bulk append when nothing was captured outside incremental mode, else the per-row path. */
  function Reconciled(container: seq<Row>, keys: seq<Value>, primaryKey: string, rows: seq<Row>, updateOnly: bool): seq<Row>
    requires |keys| <= |container|
  {
    if !updateOnly && |keys| == 0 then container + rows else Merge(container, keys, primaryKey, rows)
  }

  // ---------------------------------------------------------------- a positional description of the merge

  /** The fetched rows whose key was not captured, in arrival order, duplicates included. */
  function NewRows(keys: seq<Value>, primaryKey: string, rows: seq<Row>): seq<Row>
    decreases |rows|
  {
    if rows == [] then []
    else
      var last := rows[|rows| - 1];
      NewRows(keys, primaryKey, rows[..|rows| - 1]) + (if Slot(keys, primaryKey, last) == -1 then [last] else [])
  }

  /** The last fetched row whose key was first captured at position `i`. */
  function LastMatch(keys: seq<Value>, primaryKey: string, rows: seq<Row>, i: int): Option<Row>
    decreases |rows|
  {
    if rows == [] then None
    else
      var last := rows[|rows| - 1];
      if Slot(keys, primaryKey, last) == i then Some(last) else LastMatch(keys, primaryKey, rows[..|rows| - 1], i)
  }

  /**
   * `LastMatch` finds a row exactly when some fetched row has that slot, and
   * the row it finds has it and is the last that does.
   */
  lemma {:induction false} LastMatchSpec(keys: seq<Value>, primaryKey: string, rows: seq<Row>, i: int)
    ensures LastMatch(keys, primaryKey, rows, i).None? <==> forall n :: 0 <= n < |rows| ==> Slot(keys, primaryKey, rows[n]) != i
    ensures LastMatch(keys, primaryKey, rows, i).Some? ==>
      exists n :: 0 <= n < |rows| && rows[n] == LastMatch(keys, primaryKey, rows, i).value && Slot(keys, primaryKey, rows[n]) == i
        && forall m :: n < m < |rows| ==> Slot(keys, primaryKey, rows[m]) != i
    decreases |rows|
  {
    if rows != [] {
      var init := rows[..|rows| - 1];
      var last := rows[|rows| - 1];
      LastMatchSpec(keys, primaryKey, init, i);
      if Slot(keys, primaryKey, last) == i {
        var n := |rows| - 1;
        assert rows[n] == LastMatch(keys, primaryKey, rows, i).value && Slot(keys, primaryKey, rows[n]) == i;
      } else {
        forall n | 0 <= n < |init| ensures rows[n] == init[n] { }
        if LastMatch(keys, primaryKey, init, i).Some? {
          var n :| 0 <= n < |init| && init[n] == LastMatch(keys, primaryKey, init, i).value && Slot(keys, primaryKey, init[n]) == i
            && forall m :: n < m < |init| ==> Slot(keys, primaryKey, init[m]) != i;
          assert rows[n] == init[n];
          forall m | n < m < |rows| ensures Slot(keys, primaryKey, rows[m]) != i {
            if m < |init| { assert rows[m] == init[m]; }
          }
        } else {
          forall n | 0 <= n < |rows| ensures Slot(keys, primaryKey, rows[n]) != i {
            if n < |init| { assert rows[n] == init[n]; }
          }
        }
      }
    }
  }

  /**
   * The per-row path, position by position: each captured position holds the
   * last fetched row that found it, or its old row; every other original row
   * stays; the rows not found follow, in arrival order. Nothing is removed.
   */
  lemma {:induction false} MergeSpec(container: seq<Row>, keys: seq<Value>, primaryKey: string, rows: seq<Row>)
    requires |keys| <= |container|
    ensures var r := Merge(container, keys, primaryKey, rows);
      && |r| == |container| + |NewRows(keys, primaryKey, rows)|
      && (forall i :: 0 <= i < |container| ==> r[i] == LastMatch(keys, primaryKey, rows, i).GetOr(container[i]))
      && r[|container|..] == NewRows(keys, primaryKey, rows)
    decreases |rows|
  {
    if rows != [] {
      var init := rows[..|rows| - 1];
      var last := rows[|rows| - 1];
      MergeSpec(container, keys, primaryKey, init);
      var m := Merge(container, keys, primaryKey, init);
      var r := Merge(container, keys, primaryKey, rows);
      assert r == Apply(m, keys, primaryKey, last);
      var index := Slot(keys, primaryKey, last);
      if index != -1 {
        assert r == m[index := last];
        assert r[|container|..] == m[|container|..];
      } else {
        assert r == m + [last];
        assert r[|container|..] == m[|container|..] + [last];
      }
    }
  }

  /** Positions no fetched row finds keep their row. */
  lemma MergeKeepsUnmatched(container: seq<Row>, keys: seq<Value>, primaryKey: string, rows: seq<Row>, i: nat)
    requires |keys| <= |container| && i < |container|
    requires forall n :: 0 <= n < |rows| ==> Slot(keys, primaryKey, rows[n]) != i
    ensures Merge(container, keys, primaryKey, rows)[i] == container[i]
  {
    MergeSpec(container, keys, primaryKey, rows);
    LastMatchSpec(keys, primaryKey, rows, i);
  }

  /** The rows not found are exactly the fetched rows without a captured key, each kept in arrival order. */
  lemma {:induction false} NewRowsSpec(keys: seq<Value>, primaryKey: string, rows: seq<Row>)
    ensures var added := NewRows(keys, primaryKey, rows);
      && |added| <= |rows|
      && (forall x :: x in added ==> x in rows && Slot(keys, primaryKey, x) == -1)
      && (forall n :: 0 <= n < |rows| && Slot(keys, primaryKey, rows[n]) == -1 ==> rows[n] in added)
    decreases |rows|
  {
    if rows != [] {
      var init := rows[..|rows| - 1];
      var last := rows[|rows| - 1];
      NewRowsSpec(keys, primaryKey, init);
      var added := NewRows(keys, primaryKey, rows);
      var added0 := NewRows(keys, primaryKey, init);
      assert added == added0 + (if Slot(keys, primaryKey, last) == -1 then [last] else []);
      forall x | x in added ensures x in rows && Slot(keys, primaryKey, x) == -1 {
        if x in added0 {
          var n :| 0 <= n < |init| && init[n] == x;
          assert rows[n] == x;
        }
      }
      forall n | 0 <= n < |rows| && Slot(keys, primaryKey, rows[n]) == -1 ensures rows[n] in added {
        if n < |init| {
          assert rows[n] == init[n];
        }
      }
    }
  }

  /** When every fetched row is new, all are appended; when every one is found, none is. */
  lemma NewRowsExtremes(keys: seq<Value>, primaryKey: string, rows: seq<Row>)
    ensures (forall n :: 0 <= n < |rows| ==> Slot(keys, primaryKey, rows[n]) == -1) ==> NewRows(keys, primaryKey, rows) == rows
    ensures (forall n :: 0 <= n < |rows| ==> Slot(keys, primaryKey, rows[n]) != -1) ==> NewRows(keys, primaryKey, rows) == []
  {
    if forall n :: 0 <= n < |rows| ==> Slot(keys, primaryKey, rows[n]) == -1 {
      NewRowsAllNew(keys, primaryKey, rows);
    }
    if forall n :: 0 <= n < |rows| ==> Slot(keys, primaryKey, rows[n]) != -1 {
      NewRowsAllFound(keys, primaryKey, rows);
    }
  }

  lemma {:induction false} NewRowsAllFound(keys: seq<Value>, primaryKey: string, rows: seq<Row>)
    requires forall n :: 0 <= n < |rows| ==> Slot(keys, primaryKey, rows[n]) != -1
    ensures NewRows(keys, primaryKey, rows) == []
    decreases |rows|
  {
    if rows != [] {
      var init := rows[..|rows| - 1];
      forall n | 0 <= n < |init| ensures Slot(keys, primaryKey, init[n]) != -1 {
        assert init[n] == rows[n];
      }
      NewRowsAllFound(keys, primaryKey, init);
    }
  }

  lemma {:induction false} NewRowsAllNew(keys: seq<Value>, primaryKey: string, rows: seq<Row>)
    requires forall n :: 0 <= n < |rows| ==> Slot(keys, primaryKey, rows[n]) == -1
    ensures NewRows(keys, primaryKey, rows) == rows
    decreases |rows|
  {
    if rows != [] {
      var init := rows[..|rows| - 1];
      forall n | 0 <= n < |init| ensures Slot(keys, primaryKey, init[n]) == -1 {
        assert init[n] == rows[n];
      }
      NewRowsAllNew(keys, primaryKey, init);
      assert rows == init + [rows[|rows| - 1]];
    }
  }

  /** Without captured keys every fetched row is appended: the per-row path agrees with the bulk append. */
  lemma {:induction false} MergeWithoutKeys(container: seq<Row>, primaryKey: string, rows: seq<Row>)
    ensures Merge(container, [], primaryKey, rows) == container + rows
    decreases |rows|
  {
    if rows != [] {
      var init := rows[..|rows| - 1];
      MergeWithoutKeys(container, primaryKey, init);
      assert container + rows == (container + init) + [rows[|rows| - 1]];
    }
  }

  /** Both paths of the reconciliation compute the per-row merge. */
  lemma ReconciledIsMerge(container: seq<Row>, keys: seq<Value>, primaryKey: string, rows: seq<Row>, updateOnly: bool)
    requires |keys| <= |container|
    ensures Reconciled(container, keys, primaryKey, rows, updateOnly) == Merge(container, keys, primaryKey, rows)
  {
    if |keys| == 0 {
      assert keys == [];
      MergeWithoutKeys(container, primaryKey, rows);
    }
  }

  /** Replaying a row whose key was captured changes nothing more. */
  lemma ApplyFoundIdempotent(container: seq<Row>, keys: seq<Value>, primaryKey: string, row: Row)
    requires |keys| <= |container| && Slot(keys, primaryKey, row) != -1
    ensures var once := Apply(container, keys, primaryKey, row);
      |keys| <= |once| && Apply(once, keys, primaryKey, row) == once
  {
    var index := Slot(keys, primaryKey, row);
    var once := container[index := row];
    assert once[index := row] == once;
  }

  /**
   * Incremental refresh of two rows keyed 1 and 2 with one fetched row keyed
   * 2: the second position is replaced and the first is kept.
   */
  lemma ReplaceKeepsPosition(first: Row, second: Row, fetched: Row, primaryKey: string)
    requires KeyOf(first, primaryKey) == Num(1) && KeyOf(second, primaryKey) == Num(2)
    requires KeyOf(fetched, primaryKey) == Num(2)
    ensures Merge([first, second], KeysOf([first, second], primaryKey), primaryKey, [fetched]) == [first, fetched]
  {
    var keys := KeysOf([first, second], primaryKey);
    assert keys == [Num(1), Num(2)];
    assert Slot(keys, primaryKey, fetched) == 1;
    assert [fetched][..0] == [];
  }

  /** Two rows with the same uncaptured key are both appended, in order. */
  lemma ApplyNewTwice(container: seq<Row>, keys: seq<Value>, primaryKey: string, row: Row)
    requires |keys| <= |container| && Slot(keys, primaryKey, row) == -1
    ensures var once := Apply(container, keys, primaryKey, row);
      |keys| <= |once| && Apply(once, keys, primaryKey, row) == container + [row, row]
  {
    assert container + [row] + [row] == container + [row, row];
  }

  /**
   * Keys captured from the container itself: a fetched row replaces the
   * first row of the container with the same key, and only rows whose key is
   * nowhere in the container are appended.
   */
  lemma SlotInCapturedKeys(container: seq<Row>, primaryKey: string, row: Row)
    ensures var index := Slot(KeysOf(container, primaryKey), primaryKey, row);
      && (index == -1 <==> forall i :: 0 <= i < |container| ==> KeyOf(container[i], primaryKey) != KeyOf(row, primaryKey))
      && (index != -1 ==>
            && KeyOf(container[index], primaryKey) == KeyOf(row, primaryKey)
            && forall i :: 0 <= i < index ==> KeyOf(container[i], primaryKey) != KeyOf(row, primaryKey))
  {
    var keys := KeysOf(container, primaryKey);
    var k := KeyOf(row, primaryKey);
    var index := Slot(keys, primaryKey, row);
    if index == -1 {
      forall i | 0 <= i < |container| ensures KeyOf(container[i], primaryKey) != k {
        assert keys[i] in keys;
      }
    } else {
      forall i | 0 <= i < index ensures KeyOf(container[i], primaryKey) != k {
        assert keys[..index][i] == keys[i];
      }
    }
  }
}
