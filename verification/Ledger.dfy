/** The payout ledger table (pool/PoolDatabase.cpp): payments made, payments that may
    have been made, and the rows that guard a period, all with the time they were owed. */
module Ledger {
  import opened Results

  const PERIOD_GUARD := "__PERIOD_GUARD__"

  datatype Row = Row(id: nat, address: string, sats: nat, owedAt: int, paidTxid: Option<string>)

  /** The newest time in the table, 0 when it is empty. */
  function LastAt(rows: seq<Row>): int {
    if rows == [] then 0
    else if |rows| == 1 then rows[0].owedAt
    else Max(LastAt(rows[..|rows| - 1]), rows[|rows| - 1].owedAt)
  }

  function Max(a: int, b: int): int {
    if a >= b then a else b
  }

  lemma {:induction false} LastAtMax(rows: seq<Row>)
    ensures forall k :: 0 <= k < |rows| ==> rows[k].owedAt <= LastAt(rows)
    ensures if rows == [] then LastAt(rows) == 0 else exists k :: 0 <= k < |rows| && rows[k].owedAt == LastAt(rows)
  {
    var last := |rows| - 1;
    if last < 0 {
      assert rows == [];
    } else if last > 0 {
      var front := rows[..last];
      LastAtMax(front);
      var k :| 0 <= k < |front| && front[k].owedAt == LastAt(front);
      assert rows[k] == front[k];
      forall j | 0 <= j < |rows|
        ensures rows[j].owedAt <= LastAt(rows)
      {
        assert j < last ==> rows[j] == front[j];
      }
      assert rows[k].owedAt == LastAt(rows) || rows[last].owedAt == LastAt(rows);
    } else {
      assert rows[0].owedAt == LastAt(rows);
    }
  }

  function PaidTotal(rows: seq<Row>): nat {
    if rows == [] then 0
    else PaidTotal(rows[..|rows| - 1]) + if rows[|rows| - 1].paidTxid.Some? then rows[|rows| - 1].sats else 0
  }

  function PaidCount(rows: seq<Row>): nat {
    if rows == [] then 0
    else PaidCount(rows[..|rows| - 1]) + if rows[|rows| - 1].paidTxid.Some? then 1 else 0
  }

  /** A row counts towards what was paid exactly when it carries a transaction id. */
  lemma {:induction false} PaidRow(before: seq<Row>, r: Row, after: seq<Row>)
    ensures PaidTotal(before + [r] + after) == PaidTotal(before + after) + if r.paidTxid == None then 0 else r.sats
    ensures PaidCount(before + [r] + after) == PaidCount(before + after) + if r.paidTxid == None then 0 else 1
    ensures PaidTotal([]) == 0 == PaidCount([])
  {
    if after == [] {
      assert before + [r] + after == before + [r] && before + after == before;
    } else {
      var front, last := after[..|after| - 1], after[|after| - 1];
      PaidRow(before, r, front);
      assert before + [r] + after == (before + [r] + front) + [last] && before + after == (before + front) + [last];
      hide PaidTotal, PaidCount;
      PaidLast(before + [r] + front, last);
      PaidLast(before + front, last);
    }
  }

  lemma {:induction false} PaidLast(rows: seq<Row>, r: Row)
    ensures PaidTotal(rows + [r]) == PaidTotal(rows) + if r.paidTxid.Some? then r.sats else 0
    ensures PaidCount(rows + [r]) == PaidCount(rows) + if r.paidTxid.Some? then 1 else 0
  {
    assert (rows + [r])[..|rows|] == rows;
  }

  function Without(rows: seq<Row>, id: int): seq<Row> {
    if rows == [] then []
    else Without(rows[..|rows| - 1], id) + if rows[|rows| - 1].id == id then [] else [rows[|rows| - 1]]
  }

  /** AUTOINCREMENT: every id used is below the next one and none is used twice. */
  ghost predicate Numbered(rows: seq<Row>, nextId: nat) {
    forall k :: 0 <= k < |rows| ==> rows[k].id < nextId
  }

  lemma NumberedWith(rows: seq<Row>, more: seq<Row>, nextId: nat)
    requires Numbered(rows, nextId) && (more == [] || (|more| == 1 && more[0].id == nextId))
    ensures Numbered(rows, nextId + |more|) && Numbered(rows + more, nextId + |more|)
  {
  }

  /** Deleting the row just appended gives the table back. */
  lemma {:induction false} WithoutFresh(rows: seq<Row>, id: nat)
    requires Numbered(rows, id)
    ensures Without(rows, id) == rows
  {
    if rows != [] {
      WithoutFresh(rows[..|rows| - 1], id);
    }
  }

  lemma {:induction false} WithoutLast(rows: seq<Row>, r: Row)
    requires Numbered(rows, r.id)
    ensures Without(rows + [r], r.id) == rows
  {
    assert (rows + [r])[..|rows|] == rows;
    WithoutFresh(rows, r.id);
  }

  class LedgerTable {
    var rows: seq<Row>
    var nextId: nat

    constructor ()
      ensures rows == [] && nextId == 1
    {
      rows := [];
      nextId := 1;
    }

    /** SQLite may fail to write; the row is then simply missing. */
    method Insert(address: string, sats: nat, owedAt: int, paidTxid: Option<string>, written: bool)
      modifies this
      ensures rows == old(rows) + if written then [Row(old(nextId), address, sats, owedAt, paidTxid)] else []
      ensures nextId == old(nextId) + if written then 1 else 0
    {
      if written {
        rows := rows + [Row(nextId, address, sats, owedAt, paidTxid)];
        nextId := nextId + 1;
      }
    }

    // pool/PoolDatabase.cpp:705-726
    method BeginPayoutPeriod(now: int, written: bool) returns (guardId: int)
      modifies this
      ensures rows == old(rows) + if written then [Row(old(nextId), PERIOD_GUARD, 0, now, None)] else []
      ensures nextId == old(nextId) + (if written then 1 else 0) && guardId == if written then old(nextId) else -1
    {
      Insert(PERIOD_GUARD, 0, now, None, written);
      guardId := if written then nextId - 1 else -1;
    }

    // pool/PoolDatabase.cpp:728-739
    /** SQLite may fail to delete; the row then stays, and nobody is told. */
    method AbortPayoutPeriod(guardId: int, deleted: bool)
      modifies this`rows
      ensures rows == if guardId < 0 || !deleted then old(rows) else Without(old(rows), guardId)
    {
      if guardId < 0 || !deleted {
        return;
      }
      var kept: seq<Row> := [];
      for i := 0 to |rows|
        invariant kept == Without(rows[..i], guardId)
      {
        assert rows[..i + 1][..i] == rows[..i];
        if rows[i].id != guardId {
          kept := kept + [rows[i]];
        }
      }
      assert rows[..|rows|] == rows;
      rows := kept;
    }

    // pool/PoolDatabase.cpp:767-779
    method GetLastPayoutAt() returns (last: int)
      ensures last == LastAt(rows)
    {
      last := 0;
      for i := 0 to |rows|
        invariant last == LastAt(rows[..i])
      {
        assert rows[..i + 1][..i] == rows[..i];
        last := if i == 0 || rows[i].owedAt > last then rows[i].owedAt else last;
      }
      assert rows[..|rows|] == rows;
    }

    // pool/PoolDatabase.cpp:741-765
    method GetPaidTotal() returns (total: nat, count: nat)
      ensures total == PaidTotal(rows) && count == PaidCount(rows)
    {
      total, count := 0, 0;
      for i := 0 to |rows|
        invariant total == PaidTotal(rows[..i]) && count == PaidCount(rows[..i])
      {
        assert rows[..i + 1][..i] == rows[..i];
        if rows[i].paidTxid.Some? {
          total, count := total + rows[i].sats, count + 1;
        }
      }
      assert rows[..|rows|] == rows;
    }
  }
}
