/**
 The children of the background-jobs panel (`d->jobbox`, a vertical GTK box),
 as the ordered list of the keys of the jobs whose rows it holds.

 Only the two container operations the panel uses are modelled:
 packing a new row and moving it to index 1 (`gtk_box_pack_start` followed by
 `gtk_box_reorder_child(box, w, 1)`), and removing a row
 (`gtk_container_remove`, which unlinks the first link holding the widget).
 */
module JobBox {

  /** A job key: the value `_lib_backgroundjobs_create` hands back to its caller. */
  type Key = nat

  /** No row appears twice among the children. */
  predicate Distinct(rows: seq<Key>)
  {
    forall i, j :: 0 <= i < j < |rows| ==> rows[i] != rows[j]
  }

  /** The index `gtk_box_reorder_child(box, w, 1)` leaves a freshly packed row at,
      in a box that had `n` children before the row was packed. */
  function NewRowIndex(n: nat): nat
  {
    if n == 0 then 0 else 1
  }

  /** Packing `k` at the end of `rows` and then moving it to index 1.
      GTK unlinks the child and inserts it before the child now at index 1,
      or at the end when there is no such child. */
  function InsertRow(rows: seq<Key>, k: Key): (r: seq<Key>)
    ensures |r| == |rows| + 1
    ensures r[NewRowIndex(|rows|)] == k
    ensures rows != [] ==> r[0] == rows[0]
    ensures forall i :: 1 <= i < |rows| ==> r[i + 1] == rows[i]
    ensures forall x :: x in r <==> x in rows || x == k
    ensures RemoveFirst(r, k) == rows
    ensures Distinct(rows) && k !in rows ==> Distinct(r)
  {
    if rows == [] then [k]
    else
      assert rows == [rows[0]] + rows[1..];
      [rows[0], k] + rows[1..]
  }

  /** `gtk_container_remove` on a box: the first child equal to `k` is unlinked,
      the others keep their order; a widget that is not a child leaves the
      list as it is. */
  function RemoveFirst(rows: seq<Key>, k: Key): (r: seq<Key>)
    ensures k !in rows ==> r == rows
    ensures k in rows ==> |r| == |rows| - 1
    ensures forall x :: x in r ==> x in rows
  {
    if rows == [] then []
    else
      assert rows == [rows[0]] + rows[1..];
      if rows[0] == k then rows[1..]
      else [rows[0]] + RemoveFirst(rows[1..], k)
  }

  /** Among distinct rows, removing the row at index `i` is cutting that one
      position out of the list: every other row keeps its relative order. */
  lemma {:induction false} RemoveFirstAt(rows: seq<Key>, i: nat)
    requires Distinct(rows)
    requires i < |rows|
    ensures RemoveFirst(rows, rows[i]) == rows[..i] + rows[i + 1..]
  {
    if i == 0 {
      assert rows[..0] + rows[1..] == rows[1..];
    } else {
      var tail := rows[1..];
      DistinctTail(rows);
      assert tail[i - 1] == rows[i];
      assert rows[0] != rows[i];
      assert RemoveFirst(rows, rows[i]) == [rows[0]] + RemoveFirst(tail, rows[i]);
      RemoveFirstAt(tail, i - 1);
      assert tail[..i - 1] == rows[1..i];
      assert tail[i..] == rows[i + 1..];
      assert rows[..i] == [rows[0]] + rows[1..i];
    }
  }

  lemma DistinctTail(rows: seq<Key>)
    requires Distinct(rows) && rows != []
    ensures Distinct(rows[1..]) && rows[0] !in rows[1..]
  {
    forall a, b | 0 <= a < b < |rows| - 1 ensures rows[1..][a] != rows[1..][b] {
      assert rows[1..][a] == rows[a + 1] && rows[1..][b] == rows[b + 1];
    }
  }

  /** Removal takes out exactly one copy of `k` when there is one. */
  lemma {:induction false} RemoveFirstCount(rows: seq<Key>, k: Key)
    ensures multiset(RemoveFirst(rows, k)) == multiset(rows) - multiset{k}
  {
    if rows != [] {
      assert rows == [rows[0]] + rows[1..];
      if rows[0] != k {
        RemoveFirstCount(rows[1..], k);
      }
    }
  }

  /** Among distinct rows, removal keeps the rows distinct and takes out
      `k` and nothing else. */
  lemma {:induction false} RemoveFirstDistinct(rows: seq<Key>, k: Key)
    requires Distinct(rows)
    ensures Distinct(RemoveFirst(rows, k))
    ensures forall x :: x in RemoveFirst(rows, k) <==> x in rows && x != k
  {
    if rows != [] {
      var tail := rows[1..];
      DistinctTail(rows);
      if rows[0] != k {
        var t := RemoveFirst(tail, k);
        RemoveFirstDistinct(tail, k);
        var r := RemoveFirst(rows, k);
        assert r == [rows[0]] + t;
        forall a, b | 0 <= a < b < |r| ensures r[a] != r[b] {
          assert r[b] == t[b - 1];
          if a > 0 {
            assert r[a] == t[a - 1];
          } else {
            assert t[b - 1] in tail;
          }
        }
      }
    }
  }
}
