/** Owned batches of staged effects (src/disk.zig:171-242, src/database.zig:98-173):
    the final effect per identity within byte and change budgets, and the sort
    that turns a batch into a bucket. */
module Staging {
  import opened Wire
  import opened Buckets
  import Frames

  ghost predicate Distinct(rows: seq<Record>) {
    forall i, j | 0 <= i < j < |rows| :: rows[i].Id() != rows[j].Id()
  }

  /** The view of rows in any order, as long as no identity repeats. */
  lemma {:induction false} ViewOfDistinct(rows: seq<Record>)
    requires Distinct(rows)
    ensures forall i | 0 <= i < |rows| :: rows[i].Id() in View(rows) && View(rows)[rows[i].Id()] == rows[i].value
    ensures forall k | k in View(rows) :: exists i :: 0 <= i < |rows| && rows[i].Id() == k
  {
    if rows != [] {
      var rest := rows[1..];
      ViewOfDistinct(rest);
      forall i | 0 <= i < |rows|
        ensures rows[i].Id() in View(rows) && View(rows)[rows[i].Id()] == rows[i].value
      {
        if i > 0 { assert rest[i - 1] == rows[i]; }
      }
      forall k | k in View(rows) ensures exists i :: 0 <= i < |rows| && rows[i].Id() == k {
        if k != rows[0].Id() {
          var i :| 0 <= i < |rest| && rest[i].Id() == k;
          assert rows[i + 1].Id() == k;
        } else {
          assert rows[0].Id() == k;
        }
      }
    }
  }

  lemma {:induction false} ViewSnoc(front: seq<Record>, r: Record)
    requires Distinct(front + [r])
    ensures View(front + [r]) == View(front)[r.Id() := r.value]
  {
    if front == [] {
      assert [] + [r] == [r] && [r][1..] == [];
    } else {
      var all, rest := front + [r], front[1..];
      assert all[1..] == rest + [r];
      assert forall i, j | 0 <= i < j < |all[1..]| :: all[1..][i].Id() == all[i + 1].Id() && all[1..][j].Id() == all[j + 1].Id();
      ViewSnoc(rest, r);
      assert all[0].Id() != all[|front|].Id();
    }
  }

  /** The order in which the library sort leaves rows of distinct identities. */
  function SortRows(rows: seq<Record>): Bucket {
    if rows == [] then EMPTY
    else Merge(SortRows(rows[..|rows| - 1]), [rows[|rows| - 1]], false)
  }

  lemma {:induction false} SortSnoc(front: seq<Record>, r: Record)
    requires View(SortRows(front)) == View(front)
    ensures View(SortRows(front + [r])) == View(front)[r.Id() := r.value]
  {
    hide MergeRows, LiveView;
    assert (front + [r])[..|front|] == front;
    ViewCons(r, []);
    assert [r] + [] == [r];
  }

  lemma {:induction false} SortKeepsView(rows: seq<Record>)
    requires Distinct(rows)
    ensures View(SortRows(rows)) == View(rows)
  {
    if rows != [] {
      hide SortRows, View;
      var front, r := rows[..|rows| - 1], rows[|rows| - 1];
      assert rows == front + [r];
      assert Distinct(front) by { assert forall i | 0 <= i < |front| :: front[i] == rows[i]; }
      SortKeepsView(front);
      SortSnoc(front, r);
      ViewSnoc(front, r);
    }
  }

  lemma SortedDistinct(rows: seq<Record>)
    requires Sorted(rows)
    ensures Distinct(rows)
  {
    forall i, j | 0 <= i < j < |rows| ensures rows[i].Id() != rows[j].Id() {
      BeforeAsymmetric(rows[i].Id(), rows[j].Id());
    }
  }

  /** Rows are the entries of their map, when no identity is named twice. */
  lemma {:induction false} RowsOfView(rows: seq<Record>, r: Record)
    requires Distinct(rows)
    ensures r in rows <==> r.Id() in View(rows) && View(rows)[r.Id()] == r.value
  {
    ViewOfDistinct(rows);
    if r.Id() in View(rows) && View(rows)[r.Id()] == r.value {
      var i :| 0 <= i < |rows| && rows[i].Id() == r.Id();
      assert rows[i] == r;
    }
  }

  lemma {:induction false} CountOfDistinct(rows: seq<Record>, r: Record)
    requires Distinct(rows)
    ensures multiset(rows)[r] == if r in rows then 1 else 0
  {
    if rows != [] {
      var rest := rows[1..];
      assert rows == [rows[0]] + rest;
      assert forall i | 0 <= i < |rest| :: rest[i] == rows[i + 1];
      CountOfDistinct(rest, r);
    }
  }

  /** Sorting rearranges: it loses, adds and changes no row. */
  lemma {:induction false} SortPermutes(rows: seq<Record>)
    requires Distinct(rows)
    ensures multiset(SortRows(rows)) == multiset(rows)
  {
    hide SortRows, View, Distinct;
    var sorted := SortRows(rows);
    SortKeepsView(rows);
    SortedDistinct(sorted);
    forall r: Record ensures multiset(sorted)[r] == multiset(rows)[r] {
      RowsOfView(sorted, r);
      RowsOfView(rows, r);
      CountOfDistinct(sorted, r);
      CountOfDistinct(rows, r);
    }
  }

  function ValueIn(m: Effects, k: Identity): Option<Effect> { if k in m then Some(m[k]) else None }

  lemma {:induction false} SameRow(a: seq<Record>, b: seq<Record>, r: Record)
    requires Distinct(a) && Distinct(b) && multiset(a) == multiset(b) && r.Id() in View(b) && View(b)[r.Id()] == r.value
    ensures r.Id() in View(a) && View(a)[r.Id()] == r.value
  {
    hide View, Distinct;
    RowsOfView(a, r);
    RowsOfView(b, r);
    assert r in multiset(b) && r in multiset(a);
  }

  /** Any sort agrees with it: a sorted rearrangement of rows of distinct
      identities is unique. */
  lemma {:induction false} SortIsUnique(rows: seq<Record>, sorted: seq<Record>)
    requires Distinct(rows) && Sorted(sorted) && multiset(sorted) == multiset(rows)
    ensures sorted == SortRows(rows)
  {
    hide SortRows, View, Distinct;
    SortKeepsView(rows);
    SortedDistinct(sorted);
    forall k: Identity ensures ValueIn(View(sorted), k) == ValueIn(View(rows), k) {
      if k in View(sorted) { SameRow(rows, sorted, Record(k.table, k.key, View(sorted)[k])); }
      if k in View(rows) { SameRow(sorted, rows, Record(k.table, k.key, View(rows)[k])); }
    }
    assert View(sorted) == View(rows) by {
      forall k: Identity ensures k in View(sorted) <==> k in View(rows) { assert ValueIn(View(sorted), k) == ValueIn(View(rows), k); }
      forall k | k in View(sorted) ensures View(sorted)[k] == View(rows)[k] { assert ValueIn(View(sorted), k) == ValueIn(View(rows), k); }
    }
    ViewInjective(sorted, SortRows(rows));
  }

  lemma {:induction false} RowsSizeUpdate(rows: seq<Record>, i: nat, r: Record)
    requires i < |rows|
    ensures Frames.RowsSize(rows[i := r]) + Frames.RowSize(rows[i]) == Frames.RowsSize(rows) + Frames.RowSize(r)
    ensures Frames.RowsSize(rows) >= Frames.RowSize(rows[i])
  {
    hide Frames.RowSize;
    if i == 0 {
      assert rows[0 := r][1..] == rows[1..];
    } else {
      RowsSizeUpdate(rows[1..], i - 1, r);
      assert rows[i := r][1..] == rows[1..][i - 1 := r];
    }
  }

  datatype StageError = BatchTooLarge

  /** Monus, as Zig's saturating subtraction. */
  function Saturating(a: nat, b: nat): nat { if a >= b then a - b else 0 }

  lemma SetTwice(m: Effects, k: Identity, a: Effect, b: Effect)
    ensures m[k := a][k := b] == m[k := b]
  {
  }

  lemma SetApart(m: Effects, k: Identity, a: Effect, l: Identity, b: Effect)
    requires k != l
    ensures m[k := a][l := b] == m[l := b][k := a]
  {
  }

  lemma {:induction false} ViewUpdate(rows: seq<Record>, i: nat, row: Record)
    requires Distinct(rows) && i < |rows| && rows[i].Id() == row.Id()
    ensures rows[i].(value := row.value) == row
    ensures View(rows[i := row]) == View(rows)[row.Id() := row.value]
  {
    var rest := rows[1..];
    if i == 0 {
      assert rows[0 := row][1..] == rest;
      SetTwice(View(rest), row.Id(), rows[0].value, row.value);
    } else {
      assert rows[i := row][1..] == rest[i - 1 := row];
      forall j, k | 0 <= j < k < |rest| ensures rest[j].Id() != rest[k].Id() { assert rows[j + 1].Id() != rows[k + 1].Id(); }
      ViewUpdate(rest, i - 1, row);
      SetApart(View(rest), rows[0].Id(), rows[0].value, row.Id(), row.value);
    }
  }

  class Batch {
    var changes: seq<Record>
    var index: map<Identity, nat>
    var byteCount: nat
    const maxBytes: nat
    const maxChanges: nat

    constructor (maxBytes: nat, maxChanges: nat)
      ensures Valid() && Staged() == map[] && changes == []
      ensures this.maxBytes == maxBytes && this.maxChanges == maxChanges
    {
      changes, index, byteCount := [], map[], 0;
      this.maxBytes, this.maxChanges := maxBytes, maxChanges;
    }

    ghost predicate Indexed()
      reads this
    {
      && (forall k | k in index :: index[k] < |changes| && changes[index[k]].Id() == k)
      && (forall i | 0 <= i < |changes| :: changes[i].Id() in index && index[changes[i].Id()] == i)
    }

    ghost predicate Valid()
      reads this
    {
      Indexed() && byteCount == Frames.RowsSize(changes) <= maxBytes
    }

    /** The final effect staged for each identity. */
    ghost function Staged(): Effects
      reads this
    {
      View(changes)
    }

    lemma Unique()
      requires Indexed()
      ensures Distinct(changes)
    {
      forall i, j | 0 <= i < j < |changes| ensures changes[i].Id() != changes[j].Id() {
        assert index[changes[i].Id()] == i && index[changes[j].Id()] == j;
      }
    }

    /** Staging replaces the effect of an identity already in the batch in place
        and appends a new one; either way only the last effect counts. A call that
        would exceed a budget changes nothing. */
    method Replace(row: Record) returns (staged: Result<(), StageError>)
      requires Valid()
      modifies this
      ensures Valid()
      ensures staged.Err? ==> changes == old(changes) && index == old(index) && byteCount == old(byteCount)
      ensures staged.Ok? ==> Staged() == old(Staged())[row.Id() := row.value]
      ensures staged.Ok? ==> |changes| == |old(changes)| + (if row.Id() in old(index) then 0 else 1)
      ensures staged.Ok? ==> byteCount == old(byteCount) + Frames.RowSize(row) - (if row.Id() in old(index) then Frames.RowSize(old(changes)[old(index)[row.Id()]]) else 0)
      ensures staged.Ok? <==>
                if row.Id() in old(index)
                then old(byteCount) - Frames.RowSize(old(changes)[old(index)[row.Id()]]) + Frames.RowSize(row) <= maxBytes
                else |old(changes)| < maxChanges && old(byteCount) + Frames.RowSize(row) <= maxBytes
    {
      hide Frames.RowSize, Frames.RowsSize, View;
      Unique();
      var size := Frames.RowSize(row);
      if row.Id() in index {
        var i := index[row.Id()];
        RowsSizeUpdate(changes, i, row);
        var retained := byteCount - Frames.RowSize(changes[i]);
        if size > Saturating(maxBytes, retained) { return Err(BatchTooLarge); }
        ViewUpdate(changes, i, row);
        byteCount := retained + size;
        changes := changes[i := changes[i].(value := row.value)];
        return Ok(());
      }
      if |changes| >= maxChanges || size > Saturating(maxBytes, byteCount) { return Err(BatchTooLarge); }
      AppendOne(changes, row);
      index := index[row.Id() := |changes|];
      changes := changes + [row];
      byteCount := byteCount + size;
      return Ok(());
    }

    lemma {:induction false} AppendOne(rows: seq<Record>, row: Record)
      requires Distinct(rows) && forall i | 0 <= i < |rows| :: rows[i].Id() != row.Id()
      ensures View(rows + [row]) == View(rows)[row.Id() := row.value]
      ensures Frames.RowsSize(rows + [row]) == Frames.RowsSize(rows) + Frames.RowSize(row)
    {
      hide Frames.RowSize;
      ViewSnoc(rows, row);
      Frames.RowsSnoc(rows, row);
    }
  }
}
