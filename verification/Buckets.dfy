/** Canonical sorted buckets (src/bucket.zig): strictly ordered rows, their
    identity-to-effect map, newest-wins merging and binary-search lookup. */
module Buckets {
  import opened Wire

  datatype Identity = Identity(table: U32, key: Bytes)

  /** An effect on one identity. `None` is a deletion (tombstone); a live empty
      value is `Some([])`. */
  type Effect = Option<Bytes>

  datatype Record = Record(table: U32, key: Bytes, value: Effect) {
    function Id(): Identity { Identity(table, key) }
  }

  // ----- identity order ---------------------------------------------------

  predicate Before(a: Identity, b: Identity) {
    a.table < b.table || (a.table == b.table && LexLess(a.key, b.key))
  }

  lemma BeforeIrreflexive(a: Identity)
    ensures !Before(a, a)
  {
    LexIrreflexive(a.key);
  }

  lemma BeforeTransitive(a: Identity, b: Identity, c: Identity)
    requires Before(a, b) && Before(b, c)
    ensures Before(a, c)
  {
    if a.table == b.table == c.table { LexTransitive(a.key, b.key, c.key); }
  }

  lemma BeforeAsymmetric(a: Identity, b: Identity)
    requires Before(a, b)
    ensures a != b && !Before(b, a)
  {
    BeforeIrreflexive(a);
    if Before(b, a) { BeforeTransitive(a, b, a); }
  }

  lemma BeforeTotal(a: Identity, b: Identity)
    ensures a == b || Before(a, b) || Before(b, a)
  {
    LexTotal(a.key, b.key);
  }

  datatype Ordering = Lt | Eq | Gt

  /** Three-way comparison of two identities. */
  function Compare(a: Identity, b: Identity): (o: Ordering)
    ensures o.Lt? <==> Before(a, b)
    ensures o.Eq? <==> a == b
    ensures o.Gt? <==> Before(b, a)
  {
    BeforeTotal(a, b);
    if Before(a, b) then
      BeforeAsymmetric(a, b); Lt
    else if a == b then
      Eq
    else
      Gt
  }

  // ----- rows and their map view ------------------------------------------

  ghost predicate Sorted(rows: seq<Record>) {
    forall i, j | 0 <= i < j < |rows| :: Before(rows[i].Id(), rows[j].Id())
  }

  type Bucket = rows: seq<Record> | Sorted(rows) witness []

  const EMPTY: Bucket := []

  type Effects = map<Identity, Effect>

  /** What a bucket says about each identity it names. */
  function View(rows: seq<Record>): Effects {
    if rows == [] then map[] else View(rows[1..])[rows[0].Id() := rows[0].value]
  }

  lemma NothingViewed()
    ensures View(EMPTY) == map[]
  {
  }

  lemma {:induction false} ViewOf(rows: seq<Record>)
    requires Sorted(rows)
    ensures forall i | 0 <= i < |rows| :: rows[i].Id() in View(rows) && View(rows)[rows[i].Id()] == rows[i].value
    ensures forall k | k in View(rows) :: exists i :: 0 <= i < |rows| && rows[i].Id() == k
  {
    if rows != [] {
      var rest := rows[1..];
      ViewOf(rest);
      forall i | 0 <= i < |rows|
        ensures rows[i].Id() in View(rows) && View(rows)[rows[i].Id()] == rows[i].value
      {
        if i > 0 {
          assert rest[i - 1] == rows[i];
          BeforeAsymmetric(rows[0].Id(), rows[i].Id());
        }
      }
      forall k | k in View(rows)
        ensures exists i :: 0 <= i < |rows| && rows[i].Id() == k
      {
        if k == rows[0].Id() {
        } else {
          var i :| 0 <= i < |rest| && rest[i].Id() == k;
          assert rows[i + 1].Id() == k;
        }
      }
    }
  }

  /** A row that precedes every row of a bucket is not named by it. */
  lemma {:induction false} NotNamedBefore(k: Identity, rows: seq<Record>)
    requires Sorted(rows)
    requires rows != [] ==> Before(k, rows[0].Id())
    ensures k !in View(rows)
  {
    ViewOf(rows);
    if k in View(rows) {
      var i :| 0 <= i < |rows| && rows[i].Id() == k;
      if i > 0 { BeforeTransitive(k, rows[0].Id(), rows[i].Id()); }
      BeforeIrreflexive(k);
    }
  }

  lemma {:induction false} EmptyView(rows: seq<Record>)
    requires rows != []
    ensures View(rows) != map[]
  {
    assert rows[0].Id() in View(rows);
  }

  lemma {:induction false} ViewCons(r: Record, rows: seq<Record>)
    ensures View([r] + rows) == View(rows)[r.Id() := r.value]
  {
    assert ([r] + rows)[1..] == rows;
  }

  /** The first row of a non-empty bucket is the least identity of its view. */
  lemma {:induction false} HeadIsLeast(a: seq<Record>, b: seq<Record>)
    requires Sorted(a) && Sorted(b) && View(a) == View(b) && a != []
    ensures b != [] && a[0] == b[0]
  {
    ViewOf(a);
    ViewOf(b);
    assert a[0].Id() in View(b);
    var j :| 0 <= j < |b| && b[j].Id() == a[0].Id();
    assert b[0].Id() in View(a);
    var i :| 0 <= i < |a| && a[i].Id() == b[0].Id();
    if j > 0 {
      BeforeAsymmetric(b[0].Id(), a[0].Id());
    }
    assert a[0].value == View(a)[a[0].Id()] == View(b)[b[0].Id()] == b[0].value;
  }

  lemma TailSorted(rows: seq<Record>)
    requires Sorted(rows) && rows != []
    ensures Sorted(rows[1..])
    ensures |rows| > 1 ==> Before(rows[0].Id(), rows[1..][0].Id())
  {
  }

  lemma {:induction false} TailView(rows: seq<Record>)
    requires Sorted(rows) && rows != []
    ensures Sorted(rows[1..]) && View(rows[1..]) == View(rows) - {rows[0].Id()}
  {
    TailSorted(rows);
    NotNamedBefore(rows[0].Id(), rows[1..]);
  }

  /** The view determines the rows: a bucket has exactly one representation. */
  lemma {:induction false} ViewInjective(a: seq<Record>, b: seq<Record>)
    requires Sorted(a) && Sorted(b) && View(a) == View(b)
    ensures a == b
  {
    if a == [] {
      if b != [] { EmptyView(b); }
    } else {
      HeadIsLeast(a, b);
      TailView(a);
      TailView(b);
      ViewInjective(a[1..], b[1..]);
      assert a == [a[0]] + a[1..] && b == [b[0]] + b[1..];
    }
  }

  lemma ConsSorted(r: Record, rows: seq<Record>)
    requires Sorted(rows)
    requires forall i | 0 <= i < |rows| :: Before(r.Id(), rows[i].Id())
    ensures Sorted([r] + rows)
  {
  }

  /** Strictly ascending neighbours are enough for the pairwise order. */
  lemma {:induction false} AdjacentSorted(rows: seq<Record>)
    requires forall i | 0 < i < |rows| :: Before(rows[i - 1].Id(), rows[i].Id())
    ensures Sorted(rows)
  {
    if |rows| > 1 {
      var rest := rows[1..];
      forall i | 0 < i < |rest| ensures Before(rest[i - 1].Id(), rest[i].Id()) {
        assert rest[i - 1] == rows[i] && rest[i] == rows[i + 1];
        assert Before(rows[i + 1 - 1].Id(), rows[i + 1].Id());
      }
      AdjacentSorted(rest);
      assert Before(rows[1 - 1].Id(), rows[1].Id());
      forall j | 0 <= j < |rest| ensures Before(rows[0].Id(), rest[j].Id()) {
        if j > 0 { BeforeTransitive(rows[0].Id(), rest[0].Id(), rest[j].Id()); }
      }
      ConsSorted(rows[0], rest);
      assert rows == [rows[0]] + rest;
    }
  }

  // ----- newest-wins merge ------------------------------------------------

  function MergeRows(older: seq<Record>, newer: seq<Record>): seq<Record> {
    if older == [] then newer
    else if newer == [] then older
    else match Compare(older[0].Id(), newer[0].Id())
      case Lt => [older[0]] + MergeRows(older[1..], newer)
      case Eq => [newer[0]] + MergeRows(older[1..], newer[1..])
      case Gt => [newer[0]] + MergeRows(older, newer[1..])
  }

  function LiveRows(rows: seq<Record>): seq<Record> {
    if rows == [] then []
    else (if rows[0].value.Some? then [rows[0]] else []) + LiveRows(rows[1..])
  }

  function LiveView(m: Effects): Effects {
    map k | k in m && m[k].Some? :: m[k]
  }

  /** Every row of a merge comes from an input, and a common strict lower bound
      of the inputs is one of the output. */
  lemma {:induction false} MergeBounded(lo: Identity, older: seq<Record>, newer: seq<Record>)
    requires forall r | r in older :: Before(lo, r.Id())
    requires forall r | r in newer :: Before(lo, r.Id())
    ensures forall r | r in MergeRows(older, newer) :: Before(lo, r.Id())
    decreases |older| + |newer|
  {
    if older != [] && newer != [] {
      match Compare(older[0].Id(), newer[0].Id())
      case Lt => MergeBounded(lo, older[1..], newer);
      case Eq => MergeBounded(lo, older[1..], newer[1..]);
      case Gt => MergeBounded(lo, older, newer[1..]);
    }
  }

  lemma AllAfterHead(k: Identity, rows: seq<Record>)
    requires Sorted(rows)
    requires rows != [] ==> k == rows[0].Id() || Before(k, rows[0].Id())
    ensures rows != [] && Before(k, rows[0].Id()) ==> forall r | r in rows :: Before(k, r.Id())
    ensures rows != [] ==> forall r | r in rows[1..] :: Before(k, r.Id())
  {
    if rows != [] && Before(k, rows[0].Id()) {
      forall i | 0 < i < |rows| ensures Before(k, rows[i].Id()) {
        BeforeTransitive(k, rows[0].Id(), rows[i].Id());
      }
    }
  }

  lemma {:induction false} MergeSorted(older: seq<Record>, newer: seq<Record>)
    requires Sorted(older) && Sorted(newer)
    ensures Sorted(MergeRows(older, newer))
    decreases |older| + |newer|
  {
    if older != [] && newer != [] {
      var o, n := older[0].Id(), newer[0].Id();
      match Compare(o, n)
      case Lt =>
        MergeSorted(older[1..], newer);
        AllAfterHead(o, older);
        AllAfterHead(o, newer);
        MergeBounded(o, older[1..], newer);
        ConsSorted(older[0], MergeRows(older[1..], newer));
      case Eq =>
        MergeSorted(older[1..], newer[1..]);
        AllAfterHead(n, older);
        AllAfterHead(n, newer);
        MergeBounded(n, older[1..], newer[1..]);
        ConsSorted(newer[0], MergeRows(older[1..], newer[1..]));
      case Gt =>
        MergeSorted(older, newer[1..]);
        AllAfterHead(n, older);
        AllAfterHead(n, newer);
        MergeBounded(n, older, newer[1..]);
        ConsSorted(newer[0], MergeRows(older, newer[1..]));
    }
  }

  lemma OverlaySetOlder(a: Effects, b: Effects, k: Identity, e: Effect)
    requires k !in b
    ensures a[k := e] + b == (a + b)[k := e]
  {
  }

  lemma OverlaySetNewer(a: Effects, b: Effects, k: Identity, e: Effect)
    ensures a + b[k := e] == (a + b)[k := e]
  {
  }

  lemma OverlaySetBoth(a: Effects, b: Effects, k: Identity, e0: Effect, e: Effect)
    ensures a[k := e0] + b[k := e] == (a + b)[k := e]
  {
  }

  /** Merging rows is overlaying views: the newer effect wins per identity. */
  lemma {:induction false} MergeView(older: seq<Record>, newer: seq<Record>)
    requires Sorted(older) && Sorted(newer)
    ensures View(MergeRows(older, newer)) == View(older) + View(newer)
    decreases |older| + |newer|
  {
    if older != [] && newer != [] {
      var o, n := older[0], newer[0];
      var os, ns := older[1..], newer[1..];
      match Compare(o.Id(), n.Id())
      case Lt =>
        NotNamedBefore(o.Id(), newer);
        MergeView(os, newer);
        ViewCons(o, MergeRows(os, newer));
        OverlaySetOlder(View(os), View(newer), o.Id(), o.value);
      case Eq =>
        MergeView(os, ns);
        ViewCons(n, MergeRows(os, ns));
        OverlaySetBoth(View(os), View(ns), n.Id(), o.value, n.value);
      case Gt =>
        MergeView(older, ns);
        ViewCons(n, MergeRows(older, ns));
        OverlaySetNewer(View(older), View(ns), n.Id(), n.value);
    }
  }

  lemma {:induction false} LiveSubset(rows: seq<Record>)
    ensures forall r | r in LiveRows(rows) :: r in rows && r.value.Some?
  {
    if rows != [] { LiveSubset(rows[1..]); }
  }

  lemma {:induction false} LiveOnly(rows: seq<Record>)
    requires forall r | r in rows :: r.value.Some?
    ensures LiveRows(rows) == rows
  {
    if rows != [] {
      LiveOnly(rows[1..]);
      assert rows[0] in rows;
    }
  }

  lemma LiveCons(m: Effects, k: Identity, e: Effect)
    requires k !in m
    ensures LiveView(m[k := e]) == if e.Some? then LiveView(m)[k := e] else LiveView(m)
  {
  }

  lemma {:induction false} LiveSorted(rows: seq<Record>)
    requires Sorted(rows)
    ensures Sorted(LiveRows(rows))
    ensures View(LiveRows(rows)) == LiveView(View(rows))
  {
    if rows != [] {
      var r, rest := rows[0], rows[1..];
      TailSorted(rows);
      LiveSorted(rest);
      LiveSubset(rest);
      AllAfterHead(r.Id(), rows);
      NotNamedBefore(r.Id(), rest);
      LiveCons(View(rest), r.Id(), r.value);
      if r.value.Some? {
        ConsSorted(r, LiveRows(rest));
        ViewCons(r, LiveRows(rest));
      } else {
        assert LiveRows(rows) == LiveRows(rest);
      }
    }
  }

  /** The canonical merge of two buckets; a terminal merge drops tombstones. */
  function Merge(older: Bucket, newer: Bucket, dropTombstones: bool): (merged: Bucket)
    ensures View(merged) == if dropTombstones then LiveView(View(older) + View(newer)) else View(older) + View(newer)
    ensures dropTombstones ==> forall r | r in merged :: r.value.Some?
  {
    MergeSorted(older, newer);
    MergeView(older, newer);
    LiveSorted(MergeRows(older, newer));
    LiveSubset(MergeRows(older, newer));
    if dropTombstones then LiveRows(MergeRows(older, newer)) else MergeRows(older, newer)
  }

  lemma {:induction false} MergeRowsFrom(older: seq<Record>, newer: seq<Record>)
    ensures forall r | r in MergeRows(older, newer) :: r in older || r in newer
    decreases |older| + |newer|
  {
    if older != [] && newer != [] {
      match Compare(older[0].Id(), newer[0].Id())
      case Lt => MergeRowsFrom(older[1..], newer);
      case Eq => MergeRowsFrom(older[1..], newer[1..]);
      case Gt => MergeRowsFrom(older, newer[1..]);
    }
  }

  lemma MergeEmpty(b: Bucket)
    ensures Merge(EMPTY, b, false) == b && Merge(b, EMPTY, false) == b
  {
  }

  lemma OverlayAssociative(a: Effects, b: Effects, c: Effects)
    ensures (a + b) + c == a + (b + c)
  {
  }

  lemma LiveOverlay(a: Effects, b: Effects)
    ensures LiveView(LiveView(a) + b) == LiveView(a + b)
  {
  }

  /** Merging without dropping is associative, so a span of batches has one
      merge however its pieces were combined. */
  lemma MergeAssociative(a: Bucket, b: Bucket, c: Bucket)
    ensures Merge(Merge(a, b, false), c, false) == Merge(a, Merge(b, c, false), false)
  {
    var left, right := Merge(Merge(a, b, false), c, false), Merge(a, Merge(b, c, false), false);
    OverlayAssociative(View(a), View(b), View(c));
    ViewInjective(left, right);
  }

  lemma {:induction false} TerminalView(a: Bucket)
    ensures View(Merge(EMPTY, a, true)) == LiveView(View(a))
  {
    assert View(EMPTY) + View(a) == View(a);
  }

  /** Dropping can be postponed: dropping along a chain of terminal merges is
      dropping once at the end. */
  lemma MergeDropAbsorbs(a: Bucket, b: Bucket)
    ensures Merge(Merge(EMPTY, a, true), b, true) == Merge(EMPTY, Merge(a, b, false), true)
  {
    var dropped, joined := Merge(EMPTY, a, true), Merge(a, b, false);
    TerminalView(a);
    TerminalView(joined);
    LiveOverlay(View(a), View(b));
    ViewInjective(Merge(dropped, b, true), Merge(EMPTY, joined, true));
  }

  // ----- reading effect maps -----------------------------------------------

  /** The live value of `k`; a tombstone and an unnamed identity both read as
      absent. */
  function ValueAt(m: Effects, k: Identity): Option<Bytes> {
    if k in m then m[k] else None
  }

  /** Two effect maps read alike: equal up to terminal tombstones. */
  ghost predicate SameValues(a: Effects, b: Effects) {
    forall k: Identity :: ValueAt(a, k) == ValueAt(b, k)
  }

  lemma LiveSameValues(m: Effects)
    ensures SameValues(LiveView(m), m)
  {
  }

  /** The staged effects that change what `base` reads. */
  function Changed(base: Effects, staged: Effects): Effects {
    map k | k in staged && ValueAt(base, k) != staged[k] :: staged[k]
  }

  lemma {:induction false} OneMore(b: Bucket, m: Effects, k: Identity)
    requires k in m && View(b) == m - {k}
    ensures View(Merge(b, [Record(k.table, k.key, m[k])], false)) == m
  {
    hide Merge, View;
    var one := Record(k.table, k.key, m[k]);
    ViewCons(one, []);
    NothingViewed();
    assert [one] + [] == [one];
  }

  /** A bucket has as many rows as identities. */
  lemma {:induction false} ViewCount(rows: seq<Record>)
    requires Sorted(rows)
    ensures |View(rows)| == |rows|
  {
    if rows != [] {
      TailSorted(rows);
      ViewCount(rows[1..]);
      AllAfterHead(rows[0].Id(), rows);
      NotNamedBefore(rows[0].Id(), rows[1..]);
      assert View(rows).Keys == View(rows[1..]).Keys + {rows[0].Id()};
    }
  }

  /** The bucket of a map: every finite map of effects has one. */
  ghost function BucketOf(m: Effects): (b: Bucket)
    ensures View(b) == m
    decreases |m|
  {
    hide Merge, View;
    NothingViewed();
    if m == map[] then EMPTY else
    var k :| k in m;
    assert (m - {k}).Keys == m.Keys - {k};
    var rest := BucketOf(m - {k});
    OneMore(rest, m, k);
    Merge(rest, [Record(k.table, k.key, m[k])], false)
  }

  // ----- the streaming cursor and the two-pass merge ----------------------

  class MergeCursor {
    const older: seq<Record>
    const newer: seq<Record>
    var i: nat
    var j: nat

    constructor (older: seq<Record>, newer: seq<Record>)
      ensures Valid() && this.older == older && this.newer == newer
      ensures Rest() == MergeRows(older, newer)
    {
      this.older, this.newer := older, newer;
      i, j := 0, 0;
      new;
      assert older[0..] == older && newer[0..] == newer;
    }

    ghost predicate Valid() reads this { i <= |older| && j <= |newer| }

    /** The rows this cursor has still to produce. */
    ghost function Rest(): seq<Record>
      reads this
      requires Valid()
    {
      MergeRows(older[i..], newer[j..])
    }

    method Next() returns (row: Option<Record>)
      requires Valid()
      modifies this
      ensures Valid()
      ensures old(Rest()) == [] ==> row == None && Rest() == []
      ensures old(Rest()) != [] ==> row == Some(old(Rest())[0]) && Rest() == old(Rest())[1..]
    {
      if i == |older| && j == |newer| { return None; }
      if i == |older| {
        row := Some(newer[j]);
        j := j + 1;
        return;
      }
      if j == |newer| {
        row := Some(older[i]);
        i := i + 1;
        return;
      }
      assert older[i..][1..] == older[i + 1..] && newer[j..][1..] == newer[j + 1..];
      match Compare(older[i].Id(), newer[j].Id())
      case Lt =>
        row := Some(older[i]);
        i := i + 1;
      case Eq =>
        row := Some(newer[j]);
        i, j := i + 1, j + 1;
      case Gt =>
        row := Some(newer[j]);
        j := j + 1;
    }
  }

  predicate IsKept(dropTombstones: bool, r: Record) { !dropTombstones || r.value.Some? }

  function Kept(dropTombstones: bool, rows: seq<Record>): seq<Record> {
    if dropTombstones then LiveRows(rows) else rows
  }

  lemma KeptStep(dropTombstones: bool, rows: seq<Record>)
    requires rows != []
    ensures Kept(dropTombstones, rows) == (if IsKept(dropTombstones, rows[0]) then [rows[0]] else []) + Kept(dropTombstones, rows[1..])
  {
  }

  /** First pass: how many rows the merge will keep. */
  method CountKept(older: seq<Record>, newer: seq<Record>, dropTombstones: bool) returns (count: nat)
    ensures count == |Kept(dropTombstones, MergeRows(older, newer))|
  {
    count := 0;
    var cursor := new MergeCursor(older, newer);
    ghost var todo := cursor.Rest();
    var row := cursor.Next();
    while row.Some?
      invariant cursor.Valid() && fresh(cursor)
      invariant if row.Some? then todo != [] && row.value == todo[0] && cursor.Rest() == todo[1..] else todo == []
      invariant count + |Kept(dropTombstones, todo)| == |Kept(dropTombstones, MergeRows(older, newer))|
      decreases |todo|
    {
      KeptStep(dropTombstones, todo);
      if IsKept(dropTombstones, row.value) { count := count + 1; }
      todo := todo[1..];
      row := cursor.Next();
    }
  }

  method PutIfKept(rows: array<Record>, i: nat, dropTombstones: bool, row: Record, ghost kept: seq<Record>, ghost todo: seq<Record>)
    returns (next: nat)
    requires i <= rows.Length == |kept| && rows[..i] == kept[..i]
    requires todo != [] && todo[0] == row && Kept(dropTombstones, todo) == kept[i..]
    modifies rows
    ensures next <= rows.Length && rows[..next] == kept[..next] && Kept(dropTombstones, todo[1..]) == kept[next..]
  {
    KeptStep(dropTombstones, todo);
    next := i;
    if IsKept(dropTombstones, row) {
      assert kept[i..][0] == row && kept[i..][1..] == kept[i + 1..];
      rows[i] := row;
      next := i + 1;
    }
  }

  /** Second pass: the kept rows themselves, into an array of exactly that size. */
  method FillKept(cursor: MergeCursor, dropTombstones: bool, rows: array<Record>, ghost kept: seq<Record>)
    requires cursor.Valid() && Kept(dropTombstones, cursor.Rest()) == kept && rows.Length == |kept|
    modifies cursor, rows
    ensures rows[..] == kept
  {
    ghost var todo := cursor.Rest();
    var i: nat := 0;
    var row := cursor.Next();
    while row.Some?
      invariant cursor.Valid()
      invariant if row.Some? then todo != [] && row.value == todo[0] && cursor.Rest() == todo[1..] else todo == []
      invariant i <= rows.Length == |kept|
      invariant rows[..i] == kept[..i]
      invariant Kept(dropTombstones, todo) == kept[i..]
      decreases |todo|
    {
      i := PutIfKept(rows, i, dropTombstones, row.value, kept, todo);
      todo := todo[1..];
      row := cursor.Next();
    }
    assert rows[..] == rows[..i];
  }

  /** The production merge: shortcuts for empty inputs, then the two passes. */
  method MergeBuckets(older: Bucket, newer: Bucket, dropTombstones: bool) returns (merged: Bucket)
    ensures merged == Merge(older, newer, dropTombstones)
  {
    if |newer| == 0 && !dropTombstones { return older; }
    if |older| == 0 && !dropTombstones { return newer; }
    ghost var expected := Merge(older, newer, dropTombstones);
    var count := CountKept(older, newer, dropTombstones);
    if count == 0 { return EMPTY; }
    var rows := new Record[count](_ => Record(0, [], None));
    var cursor := new MergeCursor(older, newer);
    FillKept(cursor, dropTombstones, rows, expected);
    assert rows[..] == expected;
    return rows[..];
  }

  // ----- lookup -----------------------------------------------------------

  /** Binary search: the row naming `k`, tombstones included. */
  method Lookup(rows: Bucket, k: Identity) returns (found: Option<Record>)
    ensures found.Some? <==> k in View(rows)
    ensures found.Some? ==> found.value in rows && found.value.Id() == k && found.value.value == View(rows)[k]
  {
    ViewOf(rows);
    var lo, hi := 0, |rows|;
    while lo < hi
      invariant 0 <= lo <= hi <= |rows|
      invariant forall i | 0 <= i < lo :: Before(rows[i].Id(), k)
      invariant forall i | hi <= i < |rows| :: Before(k, rows[i].Id())
    {
      var mid := lo + (hi - lo) / 2;
      match Compare(rows[mid].Id(), k)
      case Lt =>
        forall i | 0 <= i < mid ensures Before(rows[i].Id(), k) {
          BeforeTransitive(rows[i].Id(), rows[mid].Id(), k);
        }
        lo := mid + 1;
      case Gt =>
        forall i | mid < i < |rows| ensures Before(k, rows[i].Id()) {
          BeforeTransitive(k, rows[mid].Id(), rows[i].Id());
        }
        hi := mid;
      case Eq =>
        return Some(rows[mid]);
    }
    BeforeIrreflexive(k);
    return None;
  }
}
