/** The list object (src/list.zig:19-189): the in-place advance with its failures,
    the read loop, and the check a restored list must pass. */
module Engines {
  import opened Wire
  import opened Buckets
  import opened Schedule
  import opened Lists
  import History
  import Frames

  datatype AdvanceError = SequenceExhausted | InvalidSequence | Rejected(frame: Frames.FrameError) | OutOfMemory

  /** Level `i` once its own spill has rotated it and before it receives. */
  function Rotated(next: nat, levels: seq<Level>, i: nat): Level
    requires i < |levels|
  {
    if ShouldSpill(|levels|, next, i) then Level(EMPTY, levels[i].curr, levels[i].next) else levels[i]
  }

  /** The descending traversal half done: levels above `i` are final, level `i`
      has only been rotated, and the levels below are untouched. */
  ghost predicate Traversed(next: nat, before: seq<Level>, now: seq<Level>, batch: Bucket, i: nat)
    requires i < |before| == |now|
  {
    && (forall j | i < j < |now| :: now[j] == StepLevel(next, before, batch, j))
    && now[i] == Rotated(next, before, i)
    && (forall j | 0 <= j < i :: now[j] == before[j])
  }

  // ----- why the traversal computes the step -------------------------------

  function SpillInto(next: nat, now: seq<Level>, i: nat): seq<Level>
    requires 0 < i < |now|
  {
    var source, dest := now[i - 1], now[i];
    var curr := if dest.next.Some? then dest.next.value else dest.curr;
    var older := if MergeWithEmpty(|now|, next, i) then EMPTY else curr;
    now[i - 1 := Level(EMPTY, source.curr, source.next)]
       [i := Level(curr, dest.snap, Some(Merge(older, source.curr, i + 1 == |now|)))]
  }

  lemma TraversalStarts(next: nat, levels: seq<Level>, batch: Bucket)
    requires |levels| > 0
    ensures Traversed(next, levels, levels, batch, |levels| - 1)
  {
  }

  lemma TraversalSpills(next: nat, before: seq<Level>, now: seq<Level>, after: seq<Level>, batch: Bucket, i: nat)
    requires 0 < i < |before| == |now| && Traversed(next, before, now, batch, i)
    requires ShouldSpill(|before|, next, i - 1) && after == SpillInto(next, now, i)
    ensures Traversed(next, before, after, batch, i - 1)
  {
    hide Merge, Half, MergeWithEmpty;
  }

  lemma TraversalSkips(next: nat, before: seq<Level>, now: seq<Level>, batch: Bucket, i: nat)
    requires 0 < i < |before| == |now| && Traversed(next, before, now, batch, i)
    requires !ShouldSpill(|before|, next, i - 1)
    ensures Traversed(next, before, now, batch, i - 1)
  {
    hide Merge, Half, MergeWithEmpty;
  }

  lemma TraversalEnds(next: nat, before: seq<Level>, now: seq<Level>, after: seq<Level>, batch: Bucket)
    requires 0 < |before| == |now| && Traversed(next, before, now, batch, 0)
    requires after == now[0 := now[0].(curr := Merge(now[0].curr, batch, |now| == 1))]
    ensures after == Step(next, before, batch)
  {
    hide Merge, Half, MergeWithEmpty;
  }

  // ----- which outputs a step writes --------------------------------------

  predicate Receives(depth: nat, next: nat, i: nat) { i == 0 || ShouldSpill(depth, next, i - 1) }

  /** The bucket this advance merges into level `i`. */
  function Written(next: nat, levels: seq<Level>, batch: Bucket, i: nat): Bucket
    requires i < |levels| && Receives(|levels|, next, i)
  {
    var level := StepLevel(next, levels, batch, i);
    if i == 0 then level.curr else level.next.value
  }

  /** Every merge output of the advance can be framed. */
  ghost predicate Fitting(next: nat, levels: seq<Level>, batch: Bucket) {
    forall i: nat | i < |levels| && Receives(|levels|, next, i) :: Frames.Encodable(Written(next, levels, batch, i))
  }

  /** A bucket that takes up less than half of what a frame can hold. */
  ghost predicate Roomy(b: Bucket) {
    Frames.Encodable(b) && Frames.EMPTY_LENGTH + 2 * Frames.RowsSize(b) <= Frames.USIZE_MAX
  }

  /** While every bucket leaves that much room no advance is refused for size. */
  lemma RoomyStepFits(next: nat, levels: seq<Level>, batch: Bucket)
    requires Roomy(batch) && forall i | 0 <= i < |levels| :: Roomy(levels[i].curr) && (levels[i].next.Some? ==> Roomy(levels[i].next.value))
    ensures Fitting(next, levels, batch)
  {
    hide Merge, Half, MergeWithEmpty, ShouldSpill, Frames.Encodable;
    assert Roomy(EMPTY) by { Frames.FaultFree(EMPTY); }
    forall i: nat | i < |levels| && Receives(|levels|, next, i) ensures Frames.Encodable(Written(next, levels, batch, i)) {
      var kept := if ShouldSpill(|levels|, next, i) then EMPTY else levels[i].curr;
      if i == 0 {
        Frames.MergeEncodable(kept, batch, |levels| == 1);
      } else {
        var curr := if levels[i].next.Some? then levels[i].next.value else kept;
        Frames.MergeEncodable(if MergeWithEmpty(|levels|, next, i) then EMPTY else curr, levels[i - 1].curr, i + 1 == |levels|);
      }
    }
  }

  lemma SpillWrites(next: nat, before: seq<Level>, now: seq<Level>, batch: Bucket, i: nat)
    requires 0 < i < |before| == |now| && Traversed(next, before, now, batch, i) && ShouldSpill(|before|, next, i - 1)
    ensures SpillInto(next, now, i)[i].next == Some(Written(next, before, batch, i))
    ensures Fitting(next, before, batch) ==> Frames.Encodable(SpillInto(next, now, i)[i].next.value)
  {
    hide Merge, Half, MergeWithEmpty, Frames.Encodable;
  }

  lemma RootWrites(next: nat, before: seq<Level>, now: seq<Level>, batch: Bucket)
    requires 0 < |before| == |now| && Traversed(next, before, now, batch, 0)
    ensures Merge(now[0].curr, batch, |now| == 1) == Written(next, before, batch, 0)
    ensures Fitting(next, before, batch) ==> Frames.Encodable(Merge(now[0].curr, batch, |now| == 1))
  {
    hide Merge, Half, MergeWithEmpty, Frames.Encodable;
  }

  /** Why an advance at the right sequence ends as it does: the first fault of an
      unencodable batch, an output too large to frame, too little memory, or none
      of these. */
  ghost predicate Outcome(next: nat, levels: seq<Level>, records: seq<Record>, memory: nat, result: Result<(), AdvanceError>) {
    if !Frames.Encodable(records) then
      var fault := Frames.FirstFault(records, 0, Frames.EMPTY_LENGTH);
      fault.Some? && result == Err(Rejected(fault.value))
    else
      && (result.Err? ==> result.error == OutOfMemory || result.error == Rejected(Frames.RecordTooLarge))
      && (result == Err(OutOfMemory) ==> memory <= |levels|)
      && (result == Err(Rejected(Frames.RecordTooLarge)) ==> !Fitting(next, levels, records))
      && (memory > |levels| && Fitting(next, levels, records) ==> result.Ok?)
  }

  class List {
    const depth: nat
    var sequence: U64
    var levels: array<Level>

    ghost predicate Valid() reads this { ValidDepth(depth) && levels.Length == depth }

    constructor (depth: nat)
      requires ValidDepth(depth)
      ensures Valid() && fresh(levels) && this.depth == depth
      ensures sequence == 0 && levels[..] == Genesis(depth)
    {
      this.depth := depth;
      sequence := 0;
      levels := new Level[depth](_ => EMPTY_LEVEL);
      new;
      assert levels[..] == Genesis(depth);
    }

    method Clone() returns (copy: List)
      requires Valid()
      ensures fresh(copy) && fresh(copy.levels) && copy.Valid() && copy.depth == depth
      ensures copy.sequence == sequence && copy.levels[..] == levels[..]
    {
      copy := new List(depth);
      copy.sequence := sequence;
      for i := 0 to depth
        invariant copy.Valid() && fresh(copy) && fresh(copy.levels) && copy.depth == depth && copy.sequence == sequence
        invariant copy.levels[..i] == levels[..i]
        modifies copy.levels
      {
        copy.levels[i] := levels[i];
      }
      assert copy.levels[..] == copy.levels[..depth] && levels[..] == levels[..depth];
    }

    /** Exactly one sequence step. `memory` is the number of buckets that can
        still be built before the allocator fails. Every failure leaves the list
        as it was; success is one `Step`, and a step from any accepted topology
        is accepted and reads as the batch over the old values. */
    method Advance(next: U64, records: seq<Record>, memory: nat) returns (result: Result<(), AdvanceError>)
      requires Valid()
      modifies this
      ensures Valid()
      ensures result.Err? ==> sequence == old(sequence) && levels == old(levels) && levels[..] == old(levels[..])
      ensures old(sequence) == U64_LIMIT - 1 ==> result == Err(SequenceExhausted)
      ensures old(sequence) < U64_LIMIT - 1 && next != old(sequence) + 1 ==> result == Err(InvalidSequence)
      ensures next == old(sequence) + 1 ==> Outcome(next, old(levels[..]), records, memory, result)
      ensures result.Ok? ==> Frames.Encodable(records) && sequence == next == old(sequence) + 1 && fresh(levels)
      ensures result.Ok? ==> levels[..] == Step(next, old(levels[..]), records)
      ensures result.Ok? && old(Accepts(sequence, levels[..])) ==>
                && Accepts(sequence, levels[..])
                && forall k :: Get(levels[..], k) == if k in View(records) then View(records)[k] else old(Get(levels[..], k))
    {
      hide Step, Accepts, Get, View, Outcome, Frames.FirstFault, Frames.Encodable;
      if sequence == U64_LIMIT - 1 { return Err(SequenceExhausted); }
      if next != sequence + 1 { return Err(InvalidSequence); }
      var candidate := Clone();
      result := candidate.AdvanceInPlace(next, records, memory);
      if result.Err? { return; }
      Frames.EncodableSorted(records);
      ghost var before, n := levels[..], sequence;
      sequence := candidate.sequence;
      levels := candidate.levels;
      if Accepts(n, before) {
        StepAccepted(n, before, records);
        StepReads(n, before, records);
      }
    }

    method AdvanceInPlace(next: U64, records: seq<Record>, memory: nat) returns (result: Result<(), AdvanceError>)
      requires Valid()
      modifies this, levels
      ensures Valid() && levels == old(levels)
      ensures Outcome(next, old(levels[..]), records, memory, result)
      ensures result.Ok? ==> Frames.Encodable(records) && sequence == next
      ensures result.Ok? ==> levels[..] == Step(next, old(levels[..]), records)
    {
      hide Step, Merge, Traversed, Fitting, Frames.FirstFault, Frames.EncodeFrame, Frames.Encodable;
      Frames.FaultFree(records);
      var built := Frames.FromSorted(records);
      if built.Err? { return Err(Rejected(built.error)); }
      if memory == 0 { return Err(OutOfMemory); }
      Frames.EncodableSorted(records);
      var batch: Bucket := records;
      ghost var before := levels[..];
      var used := Traverse(next, memory, batch);
      if used.Err? { return Err(used.error); }
      if used.value >= memory { return Err(OutOfMemory); }
      ghost var now := levels[..];
      RootWrites(next, before, now, batch);
      var current := Frames.MergeFramed(levels[0].curr, batch, depth == 1);
      if current.Err? { return Err(Rejected(current.error)); }
      levels[0] := levels[0].(curr := current.value);
      sequence := next;
      TraversalEnds(next, before, now, levels[..], batch);
      return Ok(());
    }

    /** The descending traversal, down to level zero. */
    method Traverse(next: U64, memory: nat, ghost batch: Bucket) returns (used: Result<nat, AdvanceError>)
      requires Valid() && memory > 0
      modifies levels
      ensures used.Ok? ==> used.value <= depth && Traversed(next, old(levels[..]), levels[..], batch, 0)
      ensures used.Err? ==> used.error == OutOfMemory || used.error == Rejected(Frames.RecordTooLarge)
      ensures used == Err(OutOfMemory) ==> memory < depth
      ensures used == Err(Rejected(Frames.RecordTooLarge)) ==> !Fitting(next, old(levels[..]), batch)
    {
      hide Step, Merge, Traversed, Fitting, SpillInto, ShouldSpill, Frames.Encodable;
      ghost var before := levels[..];
      TraversalStarts(next, before, batch);
      var count := 1;
      var i := depth - 1;
      while i > 0
        invariant 0 <= i < depth && count + i <= depth
        invariant Traversed(next, before, levels[..], batch, i)
        modifies levels
      {
        if ShouldSpill(depth, next, i - 1) {
          if count >= memory { return Err(OutOfMemory); }
          count := count + 1;
          ghost var now := levels[..];
          SpillWrites(next, before, now, batch, i);
          var spilled := Spill(next, i);
          if spilled.Err? { return Err(Rejected(spilled.error)); }
          TraversalSpills(next, before, now, levels[..], batch, i);
        } else {
          TraversalSkips(next, before, levels[..], batch, i);
        }
        i := i - 1;
      }
      return Ok(count);
    }

    /** One iteration of the traversal: rotate the source, promote what the
        destination had pending, and schedule its next output. */
    method Spill(next: U64, i: nat) returns (spilled: Result<(), Frames.FrameError>)
      requires Valid() && 0 < i < depth
      modifies levels
      ensures spilled.Ok? ==> levels[..] == SpillInto(next, old(levels[..]), i)
      ensures spilled.Err? ==> spilled.error == Frames.RecordTooLarge && !Frames.Encodable(SpillInto(next, old(levels[..]), i)[i].next.value)
    {
      var source := levels[i - 1];
      levels[i - 1] := Level(EMPTY, source.curr, source.next);
      var dest := levels[i];
      if dest.next.Some? { dest := Level(dest.next.value, dest.snap, None); }
      var older := if MergeWithEmpty(depth, next, i) then EMPTY else dest.curr;
      var output := Frames.MergeFramed(older, source.curr, i == depth - 1);
      if output.Err? { return Err(output.error); }
      levels[i] := dest.(next := Some(output.value));
      return Ok(());
    }

    /** The value of `k`, from the youngest slot that names it. */
    method Read(k: Identity) returns (value: Option<Bytes>)
      requires Valid()
      ensures value == Get(levels[..], k)
    {
      for i := 0 to depth
        invariant Get(levels[..], k) == ValueAt(VisibleFrom(levels[..], i), k)
      {
        var record := Lookup(levels[i].curr, k);
        if record.Some? { return record.value.value; }
        record := Lookup(levels[i].snap, k);
        if record.Some? { return record.value.value; }
      }
      return None;
    }

    /** Schedule shape and recomputed pending outputs, compared by hash. Under a
        hash that identifies buckets this accepts exactly the levels that some
        history of this length ends in. */
    method Validate<D(==, !new)>(hash: Bucket -> D) returns (ok: bool)
      requires Valid()
      ensures ok <==> Checks(hash, sequence, levels[..])
      ensures Accepts(sequence, levels[..]) ==> ok
      ensures Injective(hash) ==> (ok <==> History.Reached(sequence, levels[..]))
    {
      hide History.Reached;
      if Injective(hash) { History.ValidatedIsReached(hash, sequence, levels[..]); }
      for i := 0 to depth
        invariant forall j | 0 <= j < i :: ChecksLevel(hash, sequence, levels[..], j)
      {
        ok := ValidateLevel(hash, i);
        if !ok {
          assert !AcceptsLevel(sequence, levels[..], i);
          return false;
        }
      }
      return true;
    }

    method ValidateLevel<D(==)>(hash: Bucket -> D, i: nat) returns (ok: bool)
      requires Valid() && i < depth
      ensures ok <==> ChecksLevel(hash, sequence, levels[..], i)
    {
      hide Half, Merge, MergeWithEmpty;
      var level := levels[i];
      if UntouchedCurrent(sequence, i) && |level.curr| != 0 { return false; }
      if UntouchedSnapshot(depth, sequence, i) && |level.snap| != 0 { return false; }
      if level.next.Some? != HasPending(sequence, i) { return false; }
      if i == depth - 1 {
        for r := 0 to |level.curr|
          invariant forall j | 0 <= j < r :: level.curr[j].value.Some?
        {
          if level.curr[r].value.None? { return false; }
        }
      }
      if level.next.Some? {
        var older := if MergeWithEmpty(depth, sequence, i) then EMPTY else level.curr;
        var expected := MergeBuckets(older, levels[i - 1].snap, i == depth - 1);
        if hash(expected) != hash(level.next.value) { return false; }
      }
      return true;
    }
  }
}
