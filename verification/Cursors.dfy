/** Key intervals of one table, the window of a sorted bucket inside one, and the
    step every k-way read performs: take the least head, retire its duplicates. */
module Cursors {
  import opened Wire
  import opened Buckets
  import opened Slots

  /** Keys of one table from `start` up to `end`, or to the end of the table. */
  datatype Range = Range(table: U32, start: Bytes, end: Option<Bytes>)

  predicate In(range: Range, k: Identity) {
    k.table == range.table && !LexLess(k.key, range.start) && (range.end.Some? ==> LexLess(k.key, range.end.value))
  }

  /** The identity is past everything the range can still contain. */
  predicate Past(range: Range, k: Identity) {
    k.table > range.table || (k.table == range.table && range.end.Some? && !LexLess(k.key, range.end.value))
  }

  /** An interval holds its start and everything up to its end, which it excludes. */
  lemma {:induction false} HalfOpen(range: Range, k: Identity)
    requires range.end.Some? && LexLess(range.start, range.end.value) && k.table == range.table
    ensures In(range, Identity(range.table, range.start)) && !In(range, Identity(range.table, range.end.value))
    ensures LexLess(range.start, k.key) && LexLess(k.key, range.end.value) ==> In(range, k)
    ensures LexLess(k.key, range.start) || LexLess(range.end.value, k.key) ==> !In(range, k)
  {
    LexIrreflexive(range.start);
    LexIrreflexive(range.end.value);
    if LexLess(range.start, k.key) && LexLess(k.key, range.start) {
      LexTransitive(k.key, range.start, k.key);
      LexIrreflexive(k.key);
    }
    if LexLess(range.end.value, k.key) && LexLess(k.key, range.end.value) {
      LexTransitive(k.key, range.end.value, k.key);
      LexIrreflexive(k.key);
    }
  }

  function Window(range: Range, rows: seq<Record>): seq<Record> {
    if rows == [] then []
    else (if In(range, rows[0].Id()) then [rows[0]] else []) + Window(range, rows[1..])
  }

  function InView(range: Range, m: Effects): Effects {
    map k | k in m && In(range, k) :: m[k]
  }

  lemma {:induction false} WindowRows(range: Range, rows: seq<Record>)
    ensures forall r | r in Window(range, rows) :: r in rows && In(range, r.Id())
  {
    if rows != [] { WindowRows(range, rows[1..]); }
  }

  lemma {:induction false} InViewSet(range: Range, m: Effects, k: Identity, e: Effect)
    ensures InView(range, m[k := e]) == if In(range, k) then InView(range, m)[k := e] else InView(range, m) - {k}
  {
  }

  lemma {:induction false} WindowSorted(range: Range, rows: seq<Record>)
    requires Sorted(rows)
    ensures Sorted(Window(range, rows))
  {
    hide In, Before;
    if rows != [] {
      var r, rest := rows[0], rows[1..];
      TailSorted(rows);
      WindowSorted(range, rest);
      WindowRows(range, rest);
      AllAfterHead(r.Id(), rows);
      if In(range, r.Id()) {
        ConsSorted(r, Window(range, rest));
      } else {
        assert Window(range, rows) == Window(range, rest);
      }
    }
  }

  lemma {:induction false} WindowView(range: Range, rows: seq<Record>)
    requires Sorted(rows)
    ensures Sorted(Window(range, rows)) && View(Window(range, rows)) == InView(range, View(rows))
  {
    hide In, Before;
    WindowSorted(range, rows);
    if rows != [] {
      var r, rest := rows[0], rows[1..];
      TailSorted(rows);
      WindowView(range, rest);
      NotNamedBefore(r.Id(), rest);
      InViewSet(range, View(rest), r.Id(), r.value);
      if In(range, r.Id()) {
        ViewCons(r, Window(range, rest));
      } else {
        assert Window(range, rows) == Window(range, rest);
        assert InView(range, View(rest)) - {r.Id()} == InView(range, View(rest));
      }
    }
  }

  /** Past one row of a sorted bucket the range has nothing left. */
  lemma {:induction false} NothingPast(range: Range, rows: seq<Record>)
    requires Sorted(rows) && rows != [] && Past(range, rows[0].Id())
    ensures Window(range, rows) == []
  {
    hide LexLess;
    if |rows| > 1 {
      var a, b := rows[0].Id(), rows[1].Id();
      if a.table == b.table == range.table {
        if LexLess(b.key, range.end.value) { LexTransitive(a.key, b.key, range.end.value); }
      }
      NothingPast(range, rows[1..]);
    }
    if In(range, rows[0].Id()) { assert false; }
  }

  lemma {:induction false} WindowStep(range: Range, rows: seq<Record>, p: nat)
    requires p < |rows|
    ensures Window(range, rows[p..]) ==
            (if In(range, rows[p].Id()) then [rows[p]] else []) + Window(range, rows[p + 1..])
  {
    TakeGrows(rows, p);
  }

  function WindowOf(range: Range, b: Bucket): (w: Bucket)
    ensures w == Window(range, b)
  {
    WindowSorted(range, b);
    Window(range, b)
  }

  function Windows(range: Range, slots: seq<Bucket>): (ws: seq<Bucket>)
    ensures |ws| == |slots| && forall i | 0 <= i < |ws| :: ws[i] == Window(range, slots[i])
  {
    seq(|slots|, i requires 0 <= i < |slots| => WindowOf(range, slots[i]))
  }

  lemma {:induction false} InViewOverlay(range: Range, a: Effects, b: Effects)
    ensures InView(range, a + b) == InView(range, a) + InView(range, b)
  {
  }

  lemma {:induction false} EmptyInView(range: Range)
    ensures InView(range, map[]) == map[]
  {
  }

  /** Resolving the windows is restricting what the slots resolve to. */
  lemma {:induction false} WindowsResolve(range: Range, slots: seq<Bucket>)
    ensures Resolved(Windows(range, slots)) == InView(range, Resolved(slots))
  {
    hide View, Window, InView;
    if slots == [] {
      assert InView(range, map[]) == map[] by { EmptyInView(range); }
    } else {
      WindowsResolve(range, slots[1..]);
      assert Windows(range, slots)[1..] == Windows(range, slots[1..]);
      WindowView(range, slots[0]);
      InViewOverlay(range, Resolved(slots[1..]), View(slots[0]));
    }
  }

  // ----- one step of a k-way read ------------------------------------------

  ghost predicate Heads(queues: seq<Bucket>, k: Identity) {
    forall i | 0 <= i < |queues| && queues[i] != [] :: queues[i][0].Id() == k || Before(k, queues[i][0].Id())
  }

  function PopOne(q: Bucket, k: Identity): Bucket {
    if q != [] && q[0].Id() == k then q[1..] else q
  }

  function Pop(queues: seq<Bucket>, k: Identity): (after: seq<Bucket>)
    ensures |after| == |queues|
  {
    seq(|queues|, i requires 0 <= i < |queues| => PopOne(queues[i], k))
  }

  lemma {:induction false} PopOneView(q: Bucket, k: Identity)
    requires q != [] ==> q[0].Id() == k || Before(k, q[0].Id())
    ensures View(PopOne(q, k)) == View(q) - {k}
    ensures k in View(q) <==> q != [] && q[0].Id() == k
    ensures k in View(q) ==> View(q)[k] == q[0].value
    ensures forall l | l in View(q) :: l == k || Before(k, l)
  {
    ViewOf(q);
    if q != [] {
      if q[0].Id() == k {
        TailView(q);
      } else {
        NotNamedBefore(k, q);
      }
      forall l | l in View(q) ensures l == k || Before(k, l) {
        var i :| 0 <= i < |q| && q[i].Id() == l;
        if i > 0 && q[0].Id() != k { BeforeTransitive(k, q[0].Id(), l); }
      }
    }
  }

  lemma {:induction false} RemoveOverlay(a: Effects, b: Effects, k: Identity)
    ensures (a - {k}) + (b - {k}) == (a + b) - {k}
  {
  }

  /** Popping a least head from every queue that holds it removes exactly that
      identity from what the queues resolve to, and nothing smaller was there. */
  lemma {:induction false} PopResolves(queues: seq<Bucket>, k: Identity)
    requires Heads(queues, k)
    ensures Resolved(Pop(queues, k)) == Resolved(queues) - {k}
    ensures forall l | l in Resolved(queues) :: l == k || Before(k, l)
  {
    hide View, PopOne, Before;
    if queues == [] {
      var nothing: Effects := map[];
      assert nothing - {k} == nothing;
    } else {
      var rest := queues[1..];
      assert Heads(rest, k) by {
        forall i | 0 <= i < |rest| && rest[i] != [] ensures rest[i][0].Id() == k || Before(k, rest[i][0].Id()) {
          assert rest[i] == queues[i + 1];
        }
      }
      PopResolves(rest, k);
      PopOneView(queues[0], k);
      assert Pop(queues, k)[1..] == Pop(rest, k);
      RemoveOverlay(Resolved(rest), View(queues[0]), k);
    }
  }

  /** The first queue holding the least head decides its effect. */
  lemma {:induction false} FirstDecides(queues: seq<Bucket>, k: Identity, i: nat)
    requires Heads(queues, k) && i < |queues| && queues[i] != [] && queues[i][0].Id() == k
    requires forall j | 0 <= j < i && queues[j] != [] :: queues[j][0].Id() != k
    ensures k in Resolved(queues) && Resolved(queues)[k] == queues[i][0].value
  {
    hide View, Before;
    PopOneView(queues[0], k);
    if i > 0 {
      var rest := queues[1..];
      forall j | 0 <= j < |rest| && rest[j] != [] ensures rest[j][0].Id() == k || Before(k, rest[j][0].Id()) { assert rest[j] == queues[j + 1]; }
      forall j | 0 <= j < i - 1 && rest[j] != [] ensures rest[j][0].Id() != k { assert rest[j] == queues[j + 1]; }
      FirstDecides(rest, k, i - 1);
    }
  }

  lemma {:induction false} NothingQueued(queues: seq<Bucket>)
    requires forall i | 0 <= i < |queues| :: queues[i] == []
    ensures Resolved(queues) == map[]
  {
    if queues != [] { NothingQueued(queues[1..]); }
  }

  function Total(queues: seq<Bucket>): nat {
    if queues == [] then 0 else |queues[0]| + Total(queues[1..])
  }

  lemma {:induction false} PopShrinks(queues: seq<Bucket>, k: Identity)
    ensures Total(Pop(queues, k)) <= Total(queues)
    ensures forall i | 0 <= i < |queues| && queues[i] != [] && queues[i][0].Id() == k :: Total(Pop(queues, k)) < Total(queues)
  {
    if queues != [] {
      PopShrinks(queues[1..], k);
      assert Pop(queues, k)[1..] == Pop(queues[1..], k);
      forall i | 0 <= i < |queues| && queues[i] != [] && queues[i][0].Id() == k ensures Total(Pop(queues, k)) < Total(queues) {
        if i > 0 { assert queues[1..][i - 1] == queues[i]; }
      }
    }
  }

  // ----- what a complete read returns --------------------------------------

  /** The live records of `m`, ascending and each once. */
  ghost function LiveRecords(m: Effects): Bucket { BucketOf(LiveView(m)) }

  /** A read that yields one live record and then the live records of the rest
      yields them all, in order. */
  lemma {:induction false} YieldThenRest(m: Effects, k: Identity)
    requires k in m && m[k].Some? && forall l | l in m :: l == k || Before(k, l)
    ensures LiveRecords(m) == [Record(k.table, k.key, m[k])] + LiveRecords(m - {k})
  {
    var first, rest := Record(k.table, k.key, m[k]), LiveRecords(m - {k});
    ViewOf(rest);
    forall i | 0 <= i < |rest| ensures Before(k, rest[i].Id()) {
      assert rest[i].Id() in View(rest);
    }
    ConsSorted(first, rest);
    ViewCons(first, rest);
    assert LiveView(m) == LiveView(m - {k})[k := m[k]];
    ViewInjective(LiveRecords(m), [first] + rest);
  }

  lemma {:induction false} SkipTombstone(m: Effects, k: Identity)
    requires k in m && m[k].None?
    ensures LiveRecords(m) == LiveRecords(m - {k})
  {
    assert LiveView(m) == LiveView(m - {k});
  }

  lemma {:induction false} NothingLive()
    ensures LiveRecords(map[]) == []
  {
  }
}
