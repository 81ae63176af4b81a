/** Batch normalization: the merge-join over bucket streams (src/disk.zig:306-354)
    and the per-key filter (src/database.zig:209-227) keep the same rows. */
module Normalizing {
  import opened Wire
  import opened Buckets
  import opened Slots
  import opened Staging

  /** The canonical normal form of a staged batch against what `base` reads: the
      staged effects that change a value, as a bucket. */
  ghost function NormalForm(base: Effects, staged: Effects): Bucket { BucketOf(Changed(base, staged)) }

  lemma NormalFormViews(base: Effects, staged: Effects)
    ensures View(NormalForm(base, staged)) == Changed(base, staged)
  {
  }

  /** No row of the normal form could be left out: any effects that read as the
      staged ones over `base` name every identity it names. */
  lemma NormalFormIsLeast(base: Effects, staged: Effects, other: Effects)
    requires SameValues(base + other, base + staged)
    ensures View(NormalForm(base, staged)).Keys <= other.Keys
    ensures forall r | r in NormalForm(base, staged) :: ValueAt(base, r.Id()) != r.value && r.Id() in staged && staged[r.Id()] == r.value
  {
    hide NormalForm;
    var rows := NormalForm(base, staged);
    NormalFormViews(base, staged);
    forall k | k in View(rows) ensures k in other {
      assert ValueAt(base + other, k) == ValueAt(base + staged, k);
    }
    ViewOf(rows);
  }

  lemma {:induction false} NormalFormIs(base: Effects, staged: Effects, rows: seq<Record>)
    requires Sorted(rows) && View(rows) == Changed(base, staged)
    ensures rows == NormalForm(base, staged)
  {
    ViewInjective(rows, NormalForm(base, staged));
  }

  /** Only staged rows survive. */
  lemma {:induction false} NormalFormFrom(base: Effects, rows: seq<Record>, i: nat)
    requires Distinct(rows) && i < |NormalForm(base, View(rows))|
    ensures NormalForm(base, View(rows))[i] in rows
  {
    var kept := NormalForm(base, View(rows));
    ViewOf(kept);
    assert kept[i].Id() in View(kept);
    RowsOfView(rows, kept[i]);
  }

  datatype Decision = Unresolved | Keep | Omit

  /** What the youngest slot naming the row's identity decides about it. */
  function Decide(m: Effects, row: Record): Decision {
    if row.Id() !in m then Unresolved else if m[row.Id()] != row.value then Keep else Omit
  }

  predicate Survives(row: Record, d: Decision) { d == Keep || (d == Unresolved && row.value.Some?) }

  function Surviving(rows: seq<Record>, decisions: seq<Decision>): seq<Record>
    requires |rows| == |decisions|
  {
    if rows == [] then [] else
    var k := |rows| - 1;
    Surviving(rows[..k], decisions[..k]) + if Survives(rows[k], decisions[k]) then [rows[k]] else []
  }

  ghost predicate DecidedBy(rows: seq<Record>, decisions: seq<Decision>, m: Effects, lo: nat, hi: nat)
    requires |rows| == |decisions| && hi <= |rows|
  {
    forall i | lo <= i < hi :: decisions[i] == Decide(m, rows[i])
  }

  lemma NothingChanged(m: Effects)
    ensures View([]) == map[] && Changed(m, View([])) == map[]
  {
  }

  lemma {:induction false} LastNotEarlier(front: seq<Record>, row: Record)
    requires Distinct(front + [row])
    ensures Distinct(front) && row.Id() !in View(front)
  {
    var all := front + [row];
    forall i, j | 0 <= i < j < |front| ensures front[i].Id() != front[j].Id() { assert all[i].Id() != all[j].Id(); }
    forall i | 0 <= i < |front| ensures front[i].Id() != row.Id() { assert all[i].Id() != all[|front|].Id(); }
    ViewOfDistinct(front);
  }

  lemma SnocSorted(front: seq<Record>, kept: seq<Record>, row: Record)
    requires Sorted(front + [row]) && Sorted(kept) && forall r | r in kept :: r in front
    ensures Sorted(kept + [row])
  {
    var all := front + [row];
    forall i | 0 <= i < |kept| ensures Before(kept[i].Id(), row.Id()) {
      assert kept[i] in front;
      var j :| 0 <= j < |front| && front[j] == kept[i];
      assert Before(all[j].Id(), all[|front|].Id());
    }
  }

  lemma ChangedSnoc(m: Effects, staged: Effects, row: Record, d: Decision)
    requires d == Decide(m, row)
    requires row.Id() !in staged
    ensures Changed(m, staged[row.Id() := row.value]) ==
            if Survives(row, d) then Changed(m, staged)[row.Id() := row.value] else Changed(m, staged)
  {
  }

  /** Once every row is decided by what all slots resolve to, the survivors are
      exactly the normal form. */
  lemma {:induction false} SurvivorsSorted(rows: seq<Record>, decisions: seq<Decision>, m: Effects)
    requires Sorted(rows) && |rows| == |decisions| && DecidedBy(rows, decisions, m, 0, |rows|)
    ensures var kept := Surviving(rows, decisions);
            && (forall r | r in kept :: r in rows) && Sorted(kept)
            && View(kept) == Changed(m, View(rows))
  {
    hide View, Changed;
    if rows == [] {
      NothingChanged(m);
    } else {
      var k, row := |rows| - 1, rows[|rows| - 1];
      var front := rows[..k];
      SurvivorsSorted(front, decisions[..k], m);
      var kept := Surviving(front, decisions[..k]);
      assert rows == front + [row];
      SnocSorted(front, kept, row);
      SortedDistinct(rows);
      ViewSnoc(front, row);
      LastNotEarlier(front, row);
      ChangedSnoc(m, View(front), row, decisions[k]);
      if Survives(row, decisions[k]) {
        SortedDistinct(kept + [row]);
        ViewSnoc(kept, row);
      } else {
        assert kept + [] == kept;
      }
    }
  }

  // ----- one bucket stream -------------------------------------------------

  function Unresolveds(decisions: seq<Decision>): nat {
    if decisions == [] then 0
    else Unresolveds(decisions[..|decisions| - 1]) + if decisions[|decisions| - 1] == Unresolved then 1 else 0
  }

  lemma {:induction false} UnresolvedsUpdate(decisions: seq<Decision>, i: nat, d: Decision)
    requires i < |decisions| && decisions[i] == Unresolved && d != Unresolved
    ensures Unresolveds(decisions[i := d]) + 1 == Unresolveds(decisions)
  {
    var last := |decisions| - 1;
    if i == last {
      assert decisions[i := d][..last] == decisions[..last];
    } else {
      UnresolvedsUpdate(decisions[..last], i, d);
      assert decisions[i := d][..last] == decisions[..last][i := d];
    }
  }

  lemma {:induction false} NoneUnresolved(decisions: seq<Decision>, i: nat)
    requires Unresolveds(decisions) == 0 && i < |decisions|
    ensures decisions[i] != Unresolved
  {
    var last := |decisions| - 1;
    if i < last { NoneUnresolved(decisions[..last], i); }
  }

  /** All bucket rows read so far precede every batch row still ahead. */
  ghost predicate ReadBefore(bucket: seq<Record>, p: nat, rows: seq<Record>, index: nat)
    requires p <= |bucket|
  {
    forall q, i | 0 <= q < p && index <= i < |rows| :: Before(bucket[q].Id(), rows[i].Id())
  }

  /** A batch row ahead of everything read and behind everything unread is not in
      the bucket. */
  lemma {:induction false} NotInBucket(bucket: seq<Record>, p: nat, rows: seq<Record>, i: nat)
    requires Sorted(bucket) && p <= |bucket| && i < |rows| && ReadBefore(bucket, p, rows, i)
    requires p < |bucket| ==> Before(rows[i].Id(), bucket[p].Id())
    ensures rows[i].Id() !in View(bucket)
  {
    hide Before, View;
    ViewOf(bucket);
    if rows[i].Id() in View(bucket) {
      var q :| 0 <= q < |bucket| && bucket[q].Id() == rows[i].Id();
      if q < p {
        BeforeAsymmetric(bucket[q].Id(), rows[i].Id());
      } else {
        if q > p { BeforeTransitive(rows[i].Id(), bucket[p].Id(), bucket[q].Id()); }
        BeforeIrreflexive(rows[i].Id());
      }
    }
  }

  lemma DecisionStays(b: Effects, m: Effects, row: Record)
    requires row.Id() !in b || row.Id() in m
    ensures Decide(b + m, row) == Decide(m, row)
  {
  }

  /** The state of the scan of one bucket: rows before `index` are decided by the
      younger slots and this one, rows from it on by the younger slots alone. */
  ghost predicate Scanning(bucket: seq<Record>, rows: seq<Record>, decisions: seq<Decision>, m: Effects, p: nat, index: nat)
  {
    && |rows| == |decisions| && index <= |rows| && p <= |bucket|
    && DecidedBy(rows, decisions, View(bucket) + m, 0, index)
    && DecidedBy(rows, decisions, m, index, |rows|)
    && ReadBefore(bucket, p, rows, index)
  }

  lemma SkipRow(bucket: seq<Record>, rows: seq<Record>, decisions: seq<Decision>, m: Effects, p: nat, index: nat)
    requires Sorted(bucket) && Scanning(bucket, rows, decisions, m, p, index) && p < |bucket| && index < |rows|
    requires decisions[index] != Unresolved || Before(rows[index].Id(), bucket[p].Id())
    ensures Scanning(bucket, rows, decisions, m, p, index + 1)
  {
    hide View;
    assert decisions[index] == Decide(m, rows[index]);
    if decisions[index] == Unresolved {
      assert ReadBefore(bucket, p, rows, index);
      NotInBucket(bucket, p, rows, index);
    }
    DecisionStays(View(bucket), m, rows[index]);
  }

  lemma PassRecord(bucket: seq<Record>, rows: seq<Record>, decisions: seq<Decision>, m: Effects, p: nat, index: nat)
    requires Sorted(rows) && Scanning(bucket, rows, decisions, m, p, index) && p < |bucket| && index < |rows|
    requires Before(bucket[p].Id(), rows[index].Id())
    ensures Scanning(bucket, rows, decisions, m, p + 1, index)
  {
    hide View;
    forall q, i | 0 <= q < p + 1 && index <= i < |rows| ensures Before(bucket[q].Id(), rows[i].Id()) {
      if q == p && i > index { BeforeTransitive(bucket[p].Id(), rows[index].Id(), rows[i].Id()); }
    }
  }

  lemma ResolveRow(bucket: seq<Record>, rows: seq<Record>, decisions: seq<Decision>, m: Effects, p: nat, index: nat)
    requires Sorted(bucket) && Sorted(rows) && Scanning(bucket, rows, decisions, m, p, index) && p < |bucket| && index < |rows|
    requires bucket[p].Id() == rows[index].Id() && decisions[index] == Unresolved
    ensures var d := if bucket[p].value != rows[index].value then Keep else Omit;
            Scanning(bucket, rows, decisions[index := d], m, p + 1, index + 1)
  {
    assert decisions[index] == Decide(m, rows[index]);
    ViewOf(bucket);
    forall q, i | 0 <= q < p + 1 && index + 1 <= i < |rows| ensures Before(bucket[q].Id(), rows[i].Id()) {
      if q == p { assert Before(rows[index].Id(), rows[i].Id()); }
    }
  }

  lemma {:induction false} StreamDone(bucket: seq<Record>, rows: seq<Record>, decisions: seq<Decision>, m: Effects, p: nat, index: nat)
    requires Sorted(bucket) && Scanning(bucket, rows, decisions, m, p, index)
    requires p == |bucket| || index == |rows|
    ensures DecidedBy(rows, decisions, View(bucket) + m, 0, |rows|)
  {
    hide View;
    forall i | index <= i < |rows| ensures decisions[i] == Decide(View(bucket) + m, rows[i]) {
      assert decisions[i] == Decide(m, rows[i]);
      assert ReadBefore(bucket, p, rows, i);
      NotInBucket(bucket, p, rows, i);
      DecisionStays(View(bucket), m, rows[i]);
    }
  }

  lemma ScanStarts(bucket: seq<Record>, rows: seq<Record>, decisions: seq<Decision>, m: Effects)
    requires |rows| == |decisions| && DecidedBy(rows, decisions, m, 0, |rows|)
    ensures Scanning(bucket, rows, decisions, m, 0, 0)
  {
  }

  /** One pass over a bucket with a single monotone index into the batch. */
  method ScanBucket(bucket: Bucket, rows: seq<Record>, decisions: array<Decision>, unresolved: nat, ghost m: Effects)
    returns (remaining: nat)
    requires Sorted(rows) && decisions.Length == |rows|
    requires DecidedBy(rows, decisions[..], m, 0, |rows|) && unresolved == Unresolveds(decisions[..])
    modifies decisions
    ensures DecidedBy(rows, decisions[..], View(bucket) + m, 0, |rows|)
    ensures remaining == Unresolveds(decisions[..])
  {
    hide View, Scanning, DecidedBy, ReadBefore, Unresolveds;
    remaining := unresolved;
    var index := 0;
    assert Scanning(bucket, rows, decisions[..], m, 0, 0) by { ScanStarts(bucket, rows, decisions[..], m); }
    var p := 0;
    while p < |bucket|
      invariant 0 <= p <= |bucket| && 0 <= index <= |rows|
      invariant Scanning(bucket, rows, decisions[..], m, p, index)
      invariant remaining == Unresolveds(decisions[..])
    {
      var prior := bucket[p];
      while index < |rows| && (decisions[index] != Unresolved || Before(rows[index].Id(), prior.Id()))
        invariant 0 <= index <= |rows| && remaining == Unresolveds(decisions[..])
        invariant Scanning(bucket, rows, decisions[..], m, p, index)
      {
        SkipRow(bucket, rows, decisions[..], m, p, index);
        index := index + 1;
      }
      if index == |rows| { break; }
      var row := rows[index];
      if Before(prior.Id(), row.Id()) {
        PassRecord(bucket, rows, decisions[..], m, p, index);
      } else {
        BeforeTotal(prior.Id(), row.Id());
        ResolveRow(bucket, rows, decisions[..], m, p, index);
        var d := if prior.value != row.value then Keep else Omit;
        UnresolvedsUpdate(decisions[..], index, d);
        ghost var before := decisions[..];
        decisions[index] := d;
        assert decisions[..] == before[index := d];
        remaining := remaining - 1;
        index := index + 1;
      }
      p := p + 1;
    }
    StreamDone(bucket, rows, decisions[..], m, p, index);
  }

  // ----- the merge-join ----------------------------------------------------

  lemma {:induction false} AllUnresolved(decisions: seq<Decision>)
    requires forall i | 0 <= i < |decisions| :: decisions[i] == Unresolved
    ensures Unresolveds(decisions) == |decisions|
  {
    if decisions != [] { AllUnresolved(decisions[..|decisions| - 1]); }
  }

  lemma {:induction false} NothingLeft(rows: seq<Record>, decisions: seq<Decision>, older: Effects, m: Effects)
    requires |rows| == |decisions| && Unresolveds(decisions) == 0 && DecidedBy(rows, decisions, m, 0, |rows|)
    ensures DecidedBy(rows, decisions, older + m, 0, |rows|)
  {
    forall i | 0 <= i < |rows| ensures decisions[i] == Decide(older + m, rows[i]) {
      NoneUnresolved(decisions, i);
      assert decisions[i] == Decide(m, rows[i]);
    }
  }

  lemma NoSlots()
    ensures Resolved([]) == map[]
  {
  }

  lemma SurvivingStep(rows: seq<Record>, decisions: seq<Decision>, i: nat)
    requires i < |rows| == |decisions|
    ensures Surviving(rows[..i + 1], decisions[..i + 1]) ==
            Surviving(rows[..i], decisions[..i]) + if Survives(rows[i], decisions[i]) then [rows[i]] else []
  {
    assert rows[..i + 1][..i] == rows[..i] && decisions[..i + 1][..i] == decisions[..i];
  }

  /** In-place compaction: survivors move down over the rows already examined. */
  method Compact(rows: seq<Record>, decisions: array<Decision>) returns (kept: seq<Record>)
    requires |rows| == decisions.Length
    ensures kept == Surviving(rows, decisions[..])
  {
    var items := new Record[|rows|](i requires 0 <= i < |rows| => rows[i]);
    var count := 0;
    for i := 0 to |rows|
      invariant 0 <= count <= i <= items.Length == |rows|
      invariant items[..count] == Surviving(rows[..i], decisions[..][..i])
      invariant forall j | i <= j < |rows| :: items[j] == rows[j]
    {
      SurvivingStep(rows, decisions[..], i);
      if Survives(items[i], decisions[i]) {
        items[count] := items[i];
        count := count + 1;
      }
    }
    assert rows[..|rows|] == rows && decisions[..][..|rows|] == decisions[..];
    return items[..count];
  }

  /** The disk engine's normalization: sort, stream each visible bucket youngest
      first, stop once nothing is unresolved, then compact in place. It returns
      the normal form of the staged effects against what the slots resolve to. */
  method Normalize(changes: seq<Record>, slots: seq<Bucket>) returns (kept: seq<Record>)
    requires Distinct(changes)
    ensures kept == NormalForm(Resolved(slots), View(changes))
  {
    hide View, Unresolveds, Changed, Resolved;
    var rows := SortRows(changes);
    SortKeepsView(changes);
    var decisions := new Decision[|rows|](_ => Unresolved);
    AllUnresolved(decisions[..]);
    var remaining := |rows|;
    assert Resolved(slots[..0]) == map[] by { NoSlots(); }
    var s := 0;
    while s < |slots| && remaining != 0
      invariant 0 <= s <= |slots|
      invariant DecidedBy(rows, decisions[..], Resolved(slots[..s]), 0, |rows|)
      invariant remaining == Unresolveds(decisions[..])
    {
      ResolvedSnoc(slots, s);
      remaining := ScanBucket(slots[s], rows, decisions, remaining, Resolved(slots[..s]));
      s := s + 1;
    }
    Rejoin(slots, s);
    ResolvedSplit(slots[..s], slots[s..]);
    if remaining == 0 {
      NothingLeft(rows, decisions[..], Resolved(slots[s..]), Resolved(slots[..s]));
    } else {
      assert slots[..s] == slots;
    }
    SurvivorsSorted(rows, decisions[..], Resolved(slots));
    kept := Compact(rows, decisions);
    NormalFormIs(Resolved(slots), View(changes), kept);
  }

  // ----- the per-key filter ------------------------------------------------

  /** Effects that the filter keeps: those whose value differs from the read. */
  function Filtered(base: Effects, rows: seq<Record>): seq<Record> {
    if rows == [] then [] else
    var k := |rows| - 1;
    Filtered(base, rows[..k]) + if ValueAt(base, rows[k].Id()) != rows[k].value then [rows[k]] else []
  }

  lemma {:induction false} NotAmong(front: seq<Record>, kept: seq<Record>, row: Record)
    requires Distinct(front + [row]) && Distinct(kept) && forall r | r in kept :: r in front
    ensures Distinct(kept + [row]) && row.Id() !in View(front)
  {
    var all := front + [row];
    forall i | 0 <= i < |kept| ensures kept[i].Id() != row.Id() {
      assert kept[i] in front;
      var j :| 0 <= j < |front| && front[j] == kept[i];
      assert all[j].Id() != all[|front|].Id();
    }
    LastNotEarlier(front, row);
  }

  lemma {:induction false} FilteredView(base: Effects, rows: seq<Record>)
    requires Distinct(rows)
    ensures Distinct(Filtered(base, rows)) && (forall r | r in Filtered(base, rows) :: r in rows)
    ensures View(Filtered(base, rows)) == Changed(base, View(rows))
  {
    hide View, Changed;
    if rows == [] {
      NothingChanged(base);
    } else {
      var k, row := |rows| - 1, rows[|rows| - 1];
      var front := rows[..k];
      FilteredView(base, front);
      var kept := Filtered(base, front);
      assert rows == front + [row];
      ViewSnoc(front, row);
      NotAmong(front, kept, row);
      ChangedSnoc(base, View(front), row, Decide(base, row));
      if ValueAt(base, row.Id()) != row.value {
        ViewSnoc(kept, row);
      } else {
        assert kept + [] == kept;
      }
    }
  }

  /** Sorting the filtered rows gives the same normal form the merge-join finds. */
  lemma {:induction false} FilterIsNormalForm(base: Effects, rows: seq<Record>)
    requires Distinct(rows)
    ensures SortRows(Filtered(base, rows)) == NormalForm(base, View(rows))
  {
    FilteredView(base, rows);
    SortKeepsView(Filtered(base, rows));
    NormalFormIs(base, View(rows), SortRows(Filtered(base, rows)));
  }

  /** Call order never matters: batches with the same final effects normalize to
      the same rows, whichever engine filters them. */
  lemma {:induction false} CallOrderIrrelevant(base: Effects, a: seq<Record>, b: seq<Record>)
    requires Distinct(a) && Distinct(b) && View(a) == View(b)
    ensures SortRows(Filtered(base, a)) == SortRows(Filtered(base, b)) == NormalForm(base, View(a))
  {
    FilterIsNormalForm(base, a);
    FilterIsNormalForm(base, b);
  }
}
