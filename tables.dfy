/** Queries over a table stored as a map from row id to row: the rows a
    `find { … }` or `all()` returns, in increasing id order. */
module Tables {

  /** The ids in `[1, bound)` of the rows of `table` that satisfy `keep`, in increasing order. */
  function SelectIds<R>(table: map<int, R>, keep: R -> bool, bound: int): (ids: seq<int>)
    ensures forall i, j :: 0 <= i < j < |ids| ==> ids[i] < ids[j]
    ensures forall id :: id in ids <==> 1 <= id < bound && id in table && keep(table[id])
    decreases bound
  {
    if bound <= 1 then []
    else
      var below := SelectIds(table, keep, bound - 1);
      assert forall i :: 0 <= i < |below| ==> below[i] < bound - 1 by {
        forall i | 0 <= i < |below| ensures below[i] < bound - 1 {
          assert below[i] in below;
        }
      }
      if bound - 1 in table && keep(table[bound - 1]) then below + [bound - 1] else below
  }

  /** The rows whose ids `SelectIds` chooses, in the same order. */
  function Select<R(!new)>(table: map<int, R>, keep: R -> bool, bound: int): (rows: seq<R>)
    ensures |rows| == |SelectIds(table, keep, bound)|
    ensures forall i :: 0 <= i < |rows| ==> rows[i] == table[SelectIds(table, keep, bound)[i]]
    ensures forall x :: x in rows <==> exists id :: 1 <= id < bound && id in table && table[id] == x && keep(x)
  {
    var ids := SelectIds(table, keep, bound);
    var rows := seq(|ids|, i requires 0 <= i < |ids| => table[ids[i]]);
    assert forall x :: x in rows ==> exists id :: 1 <= id < bound && id in table && table[id] == x && keep(x) by {
      forall x | x in rows ensures exists id :: 1 <= id < bound && id in table && table[id] == x && keep(x) {
        var i :| 0 <= i < |rows| && rows[i] == x;
        assert ids[i] in ids;
      }
    }
    assert forall id :: 1 <= id < bound && id in table && keep(table[id]) ==> table[id] in rows by {
      forall id | 1 <= id < bound && id in table && keep(table[id]) ensures table[id] in rows {
        var i :| 0 <= i < |ids| && ids[i] == id;
        assert rows[i] == table[id];
      }
    }
    rows
  }
}
