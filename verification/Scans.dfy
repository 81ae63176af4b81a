/** The streaming k-way range scan (src/disk.zig:895-1062): one cursor per
    participating slot, youngest wins, the deciding cursor frozen while its record
    is borrowed. */
module Scans {
  import opened Wire
  import opened Buckets
  import opened Slots
  import opened Cursors

  function Suffix(b: Bucket, p: nat): Bucket
    requires p <= |b|
  {
    b[p..]
  }

  /** A slot cursor: how many rows of the bucket it has read, and the in-range row
      it stands on, if any is left. */
  datatype Place = Place(read: nat, current: Option<Record>)

  ghost predicate Placed(range: Range, b: Bucket, place: Place) {
    && place.read <= |b|
    && (place.current.Some? ==> place.read > 0 && place.current.value == b[place.read - 1] && In(range, place.current.value.Id()))
  }

  /** The rows of one slot still to be yielded. A frozen slot's current row has
      already been handed out. */
  ghost function Queue(range: Range, b: Bucket, place: Place, frozen: bool): Bucket
    requires Placed(range, b, place)
  {
    if place.current.None? then EMPTY
    else WindowOf(range, Suffix(b, if frozen then place.read else place.read - 1))
  }

  ghost predicate AllPlaced(range: Range, buckets: seq<Bucket>, places: seq<Place>, pending: Option<nat>) {
    && |buckets| == |places| && (forall i | 0 <= i < |places| :: Placed(range, buckets[i], places[i]))
    && (pending.Some? ==> pending.value < |places| && places[pending.value].current.Some?)
  }

  ghost function Queues(range: Range, buckets: seq<Bucket>, places: seq<Place>, pending: Option<nat>): (qs: seq<Bucket>)
    requires AllPlaced(range, buckets, places, pending)
    ensures |qs| == |places|
    ensures forall i | 0 <= i < |qs| :: qs[i] == Queue(range, buckets[i], places[i], pending == Some(i))
  {
    seq(|places|, i requires 0 <= i < |places| => Queue(range, buckets[i], places[i], pending == Some(i)))
  }

  /** An unfrozen cursor stands on the head of its queue. */
  lemma {:induction false} CurrentIsHead(range: Range, b: Bucket, place: Place)
    requires Placed(range, b, place) && place.current.Some?
    ensures Queue(range, b, place, false) == [place.current.value] + Queue(range, b, place, true)
  {
    WindowStep(range, b, place.read - 1);
  }

  /** Advances one cursor to its next in-range row, skipping younger tables and
      earlier keys and stopping for good at a row past the range. */
  method PositionSlot(range: Range, b: Bucket, place: Place) returns (moved: Place)
    requires Placed(range, b, place)
    ensures Placed(range, b, moved) && Queue(range, b, moved, false) == Window(range, Suffix(b, place.read))
  {
    var read := place.read;
    while read < |b|
      invariant place.read <= read <= |b|
      invariant Window(range, Suffix(b, read)) == Window(range, Suffix(b, place.read))
    {
      var record := b[read];
      WindowStep(range, b, read);
      read := read + 1;
      if record.table != range.table {
        if record.table < range.table { continue; }
        NothingPast(range, Suffix(b, read - 1));
        return Place(read, None);
      }
      if LexLess(record.key, range.start) { continue; }
      if range.end.Some? && !LexLess(record.key, range.end.value) {
        NothingPast(range, Suffix(b, read - 1));
        return Place(read, None);
      }
      return Place(read, Some(record));
    }
    return Place(read, None);
  }

  /** The cursor standing on the least row; among equal ones the youngest slot. */
  ghost predicate Best(places: seq<Place>, best: nat, upto: nat)
    requires best < upto <= |places|
  {
    && places[best].current.Some?
    && (forall i | 0 <= i < upto && places[i].current.Some? ::
          places[i].current.value.Id() == places[best].current.value.Id() || Before(places[best].current.value.Id(), places[i].current.value.Id()))
    && (forall i | 0 <= i < best && places[i].current.Some? :: places[i].current.value.Id() != places[best].current.value.Id())
  }

  lemma {:induction false} BestMoves(places: seq<Place>, best: nat, i: nat)
    requires best < i < |places| && Best(places, best, i) && places[i].current.Some?
    requires Before(places[i].current.value.Id(), places[best].current.value.Id())
    ensures Best(places, i, i + 1)
  {
    hide Before;
    var k, l := places[i].current.value.Id(), places[best].current.value.Id();
    forall j | 0 <= j < i + 1 && places[j].current.Some?
      ensures places[j].current.value.Id() == k || Before(k, places[j].current.value.Id())
      ensures j < i ==> places[j].current.value.Id() != k
    {
      if j < i {
        if places[j].current.value.Id() != l { BeforeTransitive(k, l, places[j].current.value.Id()); }
        BeforeAsymmetric(k, places[j].current.value.Id());
      }
    }
  }

  method FindBest(places: array<Place>, ordinals: seq<nat>) returns (best: Option<nat>)
    requires places.Length == |ordinals| && forall i, j | 0 <= i < j < |ordinals| :: ordinals[i] < ordinals[j]
    ensures best.None? ==> forall i | 0 <= i < places.Length :: places[i].current.None?
    ensures best.Some? ==> best.value < places.Length && Best(places[..], best.value, places.Length) && places[best.value].current.Some?
  {
    hide Before;
    best := None;
    for i := 0 to places.Length
      invariant best.None? ==> forall j | 0 <= j < i :: places[j].current.None?
      invariant best.Some? ==> best.value < i && Best(places[..], best.value, i)
    {
      if places[i].current.Some? {
        var record := places[i].current.value;
        if best.None? {
          best := Some(i);
        } else {
          var held := places[best.value].current.value;
          var order := Compare(record.Id(), held.Id());
          if order == Lt || (order == Eq && ordinals[i] < ordinals[best.value]) {
            BestMoves(places[..], best.value, i);
            best := Some(i);
          }
        }
      }
    }
  }

  lemma {:induction false} PopHead(range: Range, b: Bucket, place: Place, k: Identity)
    requires Placed(range, b, place)
    ensures place.current.Some? && place.current.value.Id() == k ==>
              PopOne(Queue(range, b, place, false), k) == Queue(range, b, place, true)
    ensures !(place.current.Some? && place.current.value.Id() == k) ==>
              PopOne(Queue(range, b, place, false), k) == Queue(range, b, place, false)
  {
    hide Window, Before, In;
    if place.current.Some? { CurrentIsHead(range, b, place); }
  }

  lemma {:induction false} PoppedAll(range: Range, buckets: seq<Bucket>, queues: seq<Bucket>, places: seq<Place>, pending: Option<nat>, k: Identity)
    requires AllPlaced(range, buckets, places, pending) && |queues| == |places|
    requires forall i | 0 <= i < |places| :: Queue(range, buckets[i], places[i], pending == Some(i)) == PopOne(queues[i], k)
    ensures Queues(range, buckets, places, pending) == Pop(queues, k)
  {
    hide Queue, Placed, PopOne;
  }

  lemma {:induction false} NothingStands(range: Range, buckets: seq<Bucket>, places: seq<Place>)
    requires AllPlaced(range, buckets, places, None) && forall i | 0 <= i < |places| :: places[i].current.None?
    ensures Resolved(Queues(range, buckets, places, None)) == map[]
  {
    NothingQueued(Queues(range, buckets, places, None));
  }

  lemma {:induction false} BestHeads(range: Range, buckets: seq<Bucket>, places: seq<Place>, best: nat)
    requires AllPlaced(range, buckets, places, None) && best < |places| && Best(places, best, |places|)
    ensures var queues := Queues(range, buckets, places, None);
            var r := places[best].current.value;
            && Heads(queues, r.Id()) && queues[best] != [] && queues[best][0] == r
            && r.Id() in Resolved(queues) && Resolved(queues)[r.Id()] == r.value
            && (forall i | 0 <= i < |places| :: places[i].current.Some? ==>
                  queues[i] == [places[i].current.value] + Queue(range, buckets[i], places[i], true))
  {
    hide Window, Before, In, Resolved;
    var queues := Queues(range, buckets, places, None);
    forall i | 0 <= i < |places| && places[i].current.Some?
      ensures queues[i] == [places[i].current.value] + Queue(range, buckets[i], places[i], true)
    {
      CurrentIsHead(range, buckets[i], places[i]);
    }
    assert forall i | 0 <= i < |places| && places[i].current.None? :: queues[i] == EMPTY;
    FirstDecides(queues, places[best].current.value.Id(), best);
  }

  class Scan {
    const range: Range
    const buckets: seq<Bucket>
    const ordinals: seq<nat>
    const places: array<Place>
    var pending: Option<nat>

    ghost predicate Valid()
      reads this, places
    {
      && |ordinals| == |buckets| && (forall i, j | 0 <= i < j < |ordinals| :: ordinals[i] < ordinals[j])
      && AllPlaced(range, buckets, places[..], pending)
    }

    /** Everything the scan has still to decide. */
    ghost function Undecided(): Effects
      reads this, places
      requires Valid()
    {
      Resolved(Queues(range, buckets, places[..], pending))
    }

    /** The live records the scan has still to yield, in order. */
    ghost function Remaining(): seq<Record>
      reads this, places
      requires Valid()
    {
      LiveRecords(Undecided())
    }

    constructor Over(range: Range, buckets: seq<Bucket>, ordinals: seq<nat>, places: array<Place>)
      requires |ordinals| == |buckets| && forall i, j | 0 <= i < j < |ordinals| :: ordinals[i] < ordinals[j]
      requires AllPlaced(range, buckets, places[..], None)
      ensures Valid() && this.places == places
      ensures Undecided() == Resolved(Queues(range, buckets, places[..], None))
    {
      this.range, this.buckets, this.ordinals, this.places, pending := range, buckets, ordinals, places, None;
    }

    /** The next live record in range, or none when the range is exhausted. */
    method Next() returns (entry: Option<Record>)
      requires Valid()
      modifies this, places
      ensures Valid()
      ensures entry.None? ==> old(Remaining()) == [] && Remaining() == []
      ensures entry.Some? ==> old(Remaining()) == [entry.value] + Remaining()
    {
      hide Resolved, Before, Queue, Placed, Best, Window, LiveRecords;
      if pending.Some? { Thaw(); }
      while true
        invariant Valid() && pending.None? && Remaining() == old(Remaining())
        decreases Total(Queues(range, buckets, places[..], None))
      {
        var best := FindBest(places, ordinals);
        if best.None? {
          NothingStands(range, buckets, places[..]);
          NothingLive();
          return None;
        }
        var decided := TakeLeast(best.value);
        if decided.value.Some? { return Some(decided); }
      }
    }

    /** Resolves the least identity any cursor stands on: its duplicates are
        retired, a deciding tombstone is passed over, and a deciding live record
        is handed out with its cursor frozen. */
    method TakeLeast(index: nat) returns (decided: Record)
      requires Valid() && pending.None? && index < places.Length && Best(places[..], index, places.Length)
      modifies this, places
      ensures Valid() && (decided.value.None? ==> pending.None?)
      ensures Total(Queues(range, buckets, places[..], pending)) < old(Total(Queues(range, buckets, places[..], None)))
      ensures old(Remaining()) == (if decided.value.Some? then [decided] else []) + Remaining()
    {
      hide Resolved, Before, Queue, Placed, Window, LiveRecords, Total;
      decided := places[index].current.value;
      ghost var queues, k := Queues(range, buckets, places[..], None), decided.Id();
      BestHeads(range, buckets, places[..], index);
      PopResolves(queues, k);
      PopShrinks(queues, k);
      PopHead(range, buckets[index], places[index], k);
      Retire(index, decided);
      if decided.value.None? {
        Step(index);
        SkipTombstone(Resolved(queues), k);
      } else {
        pending := Some(index);
        YieldThenRest(Resolved(queues), k);
      }
      PoppedAll(range, buckets, queues, places[..], pending, k);
    }

    /** Lets the frozen cursor go on, now that its record was consumed. */
    method Thaw()
      requires Valid() && pending.Some?
      modifies this, places
      ensures Valid() && pending.None? && Remaining() == old(Remaining())
    {
      hide Resolved, Before, Window, LiveRecords;
      var index := pending.value;
      ghost var was := Queues(range, buckets, places[..], pending);
      var moved := PositionSlot(range, buckets[index], places[index]);
      places[index] := moved;
      pending := None;
      assert Queues(range, buckets, places[..], None) == was;
    }

    method Step(index: nat)
      requires Valid() && pending.None? && index < places.Length && places[index].current.Some?
      modifies places
      ensures Valid() && forall i | 0 <= i < places.Length && i != index :: places[i] == old(places[i])
      ensures Queue(range, buckets[index], places[index], false) == old(Queue(range, buckets[index], places[index], true))
    {
      hide Before, Window;
      places[index] := PositionSlot(range, buckets[index], places[index]);
    }

    /** Retires every other cursor that stands on the decided identity. */
    method Retire(index: nat, decided: Record)
      requires Valid() && pending.None? && index < places.Length && places[index].current == Some(decided)
      modifies places
      ensures Valid() && places[index] == old(places[index])
      ensures forall i | 0 <= i < places.Length && i != index ::
                Queue(range, buckets[i], places[i], false) == PopOne(old(Queue(range, buckets[i], places[i], false)), decided.Id())
    {
      hide Before, Window, Queue, In;
      for i := 0 to places.Length
        invariant Valid() && places[index] == old(places[index])
        invariant forall j | 0 <= j < i && j != index ::
                    Queue(range, buckets[j], places[j], false) == PopOne(old(Queue(range, buckets[j], places[j], false)), decided.Id())
        invariant forall j | i <= j < places.Length :: places[j] == old(places[j])
      {
        PopHead(range, buckets[i], places[i], decided.Id());
        if i != index && places[i].current.Some? && places[i].current.value.Id() == decided.Id() { Step(i); }
      }
    }
  }

  // ----- opening a scan ----------------------------------------------------

  /** A slot whose window is empty can be closed at once: it decides nothing. */
  lemma {:induction false} ResolvedWithout(a: seq<Bucket>, q: Bucket)
    ensures Resolved(a + [q]) == View(q) + Resolved(a)
  {
    hide View;
    ResolvedSplit(a, [q]);
    ResolvedOne(q);
  }

  lemma {:induction false} StartPlace(range: Range, b: Bucket)
    ensures Placed(range, b, Place(0, None)) && Suffix(b, 0) == b
  {
  }

  lemma {:induction false} EmptyWindow(range: Range, b: Bucket)
    requires |b| == 0
    ensures Window(range, b) == []
  {
  }

  lemma {:induction false} QueuesSnoc(range: Range, buckets: seq<Bucket>, places: seq<Place>, b: Bucket, place: Place)
    requires AllPlaced(range, buckets, places, None) && Placed(range, b, place)
    ensures AllPlaced(range, buckets + [b], places + [place], None)
    ensures Queues(range, buckets + [b], places + [place], None) ==
            Queues(range, buckets, places, None) + [Queue(range, b, place, false)]
  {
    hide Queue, Placed;
  }

  lemma {:induction false} QueueEmpty(range: Range, b: Bucket, place: Place)
    requires Placed(range, b, place)
    ensures place.current.None? ==> Queue(range, b, place, false) == EMPTY
  {
  }

  lemma {:induction false} EmptyLayer(m: Effects)
    ensures View(EMPTY) + m == m
  {
  }

  /** Opens cursors on the slots that hold something in range. The scan will yield
      exactly the live visible records of the range. */
  method ScanState(slots: seq<Bucket>, range: Range) returns (scan: Scan)
    ensures fresh(scan) && fresh(scan.places) && scan.Valid()
    ensures scan.Remaining() == LiveRecords(InView(range, Resolved(slots)))
  {
    hide Resolved, Before, Window, Placed, In, InView, Queue;
    var buckets: seq<Bucket> := [];
    var ordinals: seq<nat> := [];
    var started: seq<Place> := [];
    assert Windows(range, slots[..0]) == [];
    assert Queues(range, [], [], None) == [];
    for i := 0 to |slots|
      invariant |ordinals| == |buckets| == |started| && AllPlaced(range, buckets, started, None)
      invariant forall j | 0 <= j < |ordinals| :: ordinals[j] < i
      invariant forall j, k | 0 <= j < k < |ordinals| :: ordinals[j] < ordinals[k]
      invariant Resolved(Queues(range, buckets, started, None)) == Resolved(Windows(range, slots[..i]))
    {
      ghost var qs, ws := Queues(range, buckets, started, None), Windows(range, slots[..i]);
      var w: Bucket := WindowOf(range, slots[i]);
      assert Windows(range, slots[..i + 1]) == ws + [w];
      ResolvedWithout(ws, w);
      ResolvedWithout(qs, w);
      EmptyLayer(Resolved(qs));
      if |slots[i]| == 0 {
        EmptyWindow(range, slots[i]);
      } else {
        StartPlace(range, slots[i]);
        var place := PositionSlot(range, slots[i], Place(0, None));
        QueueEmpty(range, slots[i], place);
        if place.current.Some? {
          QueuesSnoc(range, buckets, started, slots[i], place);
          buckets, ordinals, started := buckets + [slots[i]], ordinals + [i], started + [place];
        }
      }
    }
    assert slots[..|slots|] == slots;
    WindowsResolve(range, slots);
    var places := new Place[|started|](i requires 0 <= i < |started| => started[i]);
    assert places[..] == started;
    scan := new Scan.Over(range, buckets, ordinals, places);
  }

  datatype ScanError = InvalidRange

  /** A scan of one table over encoded keys, refused unless `start < end`. */
  method OpenScan(slots: seq<Bucket>, table: U32, start: Bytes, end: Bytes) returns (result: Result<Scan, ScanError>)
    ensures result.Err? <==> !LexLess(start, end)
    ensures result.Ok? ==> fresh(result.value) && fresh(result.value.places) && result.value.Valid()
    ensures result.Ok? ==> result.value.Remaining() == LiveRecords(InView(Range(table, start, Some(end)), Resolved(slots)))
  {
    if !LexLess(start, end) { return Err(InvalidRange); }
    var scan := ScanState(slots, Range(table, start, Some(end)));
    return Ok(scan);
  }

  /** Draining a scan returns the live visible records of the range, strictly
      ascending and each once. */
  method Drain(slots: seq<Bucket>, range: Range) returns (records: seq<Record>)
    ensures records == LiveRecords(InView(range, Resolved(slots)))
  {
    hide Resolved, LiveRecords, InView;
    var scan := ScanState(slots, range);
    records := [];
    var entry := scan.Next();
    ghost var rest := scan.Remaining();
    ghost var all := LiveRecords(InView(range, Resolved(slots)));
    assert all == (if entry.Some? then [entry.value] else []) + rest;
    while entry.Some?
      invariant scan.Valid() && fresh(scan) && fresh(scan.places) && scan.Remaining() == rest
      invariant all == records + ((if entry.Some? then [entry.value] else []) + rest)
      invariant entry.None? ==> rest == []
      decreases |rest| + if entry.Some? then 1 else 0
    {
      records := records + [entry.value];
      Assoc(records[..|records| - 1], [entry.value], rest);
      entry := scan.Next();
      rest := scan.Remaining();
    }
  }
}
