/** The portable database (src/database.zig): one open batch at a time, prepared
    advances bound to their base, atomic commit, and the visible-row iterator. */
module Databases {
  import opened Wire
  import opened Buckets
  import opened Lists
  import opened Engines
  import opened Slots
  import opened Digests
  import opened Staging
  import opened Normalizing
  import opened Cursors
  import Commitments
  import Frames
  import Scans

  datatype DatabaseError =
    | BatchActive | ClosedBatch | StaleBase | WrongAdvance | SequenceExhausted
    | Refused(frame: Frames.FrameError) | OutOfMemory

  /** Sorting the kept effects is what an advance folds in; reads afterwards are
      the staged effects over the old values, whether or not they were kept. */
  lemma {:induction false} NormalFormReads(levels: seq<Level>, staged: Effects, k: Identity)
    ensures var kept := View(NormalForm(Visible(levels), staged));
            (if k in kept then kept[k] else Get(levels, k)) == (if k in staged then staged[k] else Get(levels, k))
  {
  }

  /** An advance with the effects that change something is accepted and reads as all
      staged effects over the old values. */
  lemma {:induction false} AdvanceReads(n: nat, levels: seq<Level>, staged: Effects)
    requires ValidDepth(|levels|) && Accepts(n, levels)
    ensures var after := Step(n + 1, levels, NormalForm(Visible(levels), staged));
            Accepts(n + 1, after) && forall k :: Get(after, k) == if k in staged then staged[k] else Get(levels, k)
  {
    hide Step, Accepts, Visible, View, NormalForm, Get;
    var rows := NormalForm(Visible(levels), staged);
    StepAccepted(n, levels, rows);
    StepReads(n, levels, rows);
    forall k ensures Get(Step(n + 1, levels, rows), k) == if k in staged then staged[k] else Get(levels, k) {
      NormalFormReads(levels, staged, k);
    }
  }

  /** What the engine held when a batch was opened. */
  datatype Base = Base(sequence: U64, levels: seq<Level>)

  class Database {
    const sha: Hash
    const schema: Digest
    var engine: List
    var batchOpen: bool
    var batchToken: U64
    /** The base of every batch ever opened, by token. */
    ghost var bases: map<nat, Base>

    /** While a batch is open the engine is still what it was opened over. */
    ghost predicate Valid()
      reads this, engine, engine.levels
    {
      && engine.Valid()
      && (forall t | t in bases :: t <= batchToken)
      && (batchOpen ==> batchToken in bases && bases[batchToken] == Base(engine.sequence, engine.levels[..]))
    }

    ghost function Levels(): seq<Level>
      reads this, engine, engine.levels
    {
      engine.levels[..]
    }

    constructor (sha: Hash, schema: Digest, depth: nat)
      requires ValidDepth(depth)
      ensures Valid() && !batchOpen && fresh(engine) && fresh(engine.levels)
      ensures engine.sequence == 0 && Levels() == Genesis(depth)
    {
      this.sha, this.schema := sha, schema;
      engine := new List(depth);
      batchOpen, batchToken, bases := false, 0, map[];
    }

    function Digest(): Digest
      reads this, engine, engine.levels
      requires Valid()
    {
      Commitments.ListCommitment(sha, schema, engine.sequence, engine.levels[..])
    }

    /** At most one batch is open; its token is never reused. */
    method OpenBatch(maxChanges: nat, maxBytes: nat) returns (result: Result<OwnedBatch, DatabaseError>)
      requires Valid()
      modifies this`batchOpen, this`batchToken, this`bases
      ensures Valid()
      ensures old(batchOpen) ==> result == Err(DatabaseError.BatchActive) && batchOpen
      ensures !old(batchOpen) && old(batchToken) == U64_LIMIT - 1 ==> result == Err(DatabaseError.SequenceExhausted) && !batchOpen
      ensures result.Err? ==> batchToken == old(batchToken) && bases == old(bases)
      ensures !old(batchOpen) && old(batchToken) < U64_LIMIT - 1 ==>
                && result.Ok? && batchOpen && batchToken == old(batchToken) + 1 && batchToken !in old(bases)
                && bases == old(bases)[batchToken := Base(engine.sequence, Levels())]
                && fresh(result.value) && fresh(result.value.staging) && result.value.staging.Valid() && result.value.staging.Staged() == map[]
                && result.value.owner == this && result.value.token == batchToken && result.value.base == Digest() && !result.value.sealed
    {
      if batchOpen { return Err(DatabaseError.BatchActive); }
      if batchToken == U64_LIMIT - 1 { return Err(DatabaseError.SequenceExhausted); }
      batchToken := batchToken + 1;
      batchOpen := true;
      bases := bases[batchToken := Base(engine.sequence, engine.levels[..])];
      var staging := new Batch(maxBytes, maxChanges);
      var batch := new OwnedBatch(this, batchToken, Digest(), staging);
      return Ok(batch);
    }

    /** The batch is the open one and its base is still current. */
    predicate Current(batch: OwnedBatch)
      reads this, engine, engine.levels, batch, batch.owner
      requires Valid()
    {
      batch.owner == this && batch.Open() && batch.base == Digest()
    }

    /** Filters the staged effects against the current values, sorts what is left
        and advances a clone. The database itself does not change. */
    method PrepareAdvance(next: U64, batch: OwnedBatch, memory: nat) returns (result: Result<Prepared, DatabaseError>)
      requires Valid() && batch.owner.Valid() && batch.staging.Valid()
      modifies batch`sealed
      ensures batch.sealed == (old(batch.sealed) || result.Ok?)
      ensures result.Ok? ==> old(Current(batch)) && next == engine.sequence + 1
      ensures result.Ok? ==> batch.owner == this && !old(batch.sealed) && batchOpen && batch.token == batchToken && batch.base == Digest()
      ensures old(Current(batch)) && engine.sequence < U64_LIMIT - 1 && next != engine.sequence + 1 ==> result == Err(DatabaseError.WrongAdvance)
      ensures old(Current(batch)) && engine.sequence == U64_LIMIT - 1 ==> result == Err(DatabaseError.SequenceExhausted)
      ensures old(!batch.Open()) ==> result == Err(DatabaseError.ClosedBatch)
      ensures old(batch.Open()) && (batch.owner != this || batch.base != Digest()) ==> result == Err(DatabaseError.StaleBase)
      ensures result.Ok? ==> fresh(result.value) && result.value.owner == this && result.value.token == batchToken && result.value.base == Digest()
      ensures result.Ok? ==>
                && result.value.state != null && fresh(result.value.state) && fresh(result.value.state.levels) && result.value.Valid()
                && result.value.from == Base(engine.sequence, Levels()) && result.value.staged == batch.staging.Staged()
      ensures old(Current(batch)) && next == engine.sequence + 1 ==>
                var rows := NormalForm(Visible(Levels()), batch.staging.Staged());
                var fits := Frames.Encodable(rows) && Fitting(next, Levels(), rows);
                && (result.Err? ==> result.error == DatabaseError.OutOfMemory || result.error == Refused(Frames.RecordTooLarge))
                && (result == Err(DatabaseError.OutOfMemory) ==> memory <= engine.depth)
                && (result == Err(Refused(Frames.RecordTooLarge)) ==> !fits)
                && (memory > engine.depth && fits ==> result.Ok?)
    {
      hide Step, Accepts, Visible, View, Commitments.ListCommitment, NormalForm;
      var owner := batch.owner;
      if !batch.Open() { return Err(DatabaseError.ClosedBatch); }
      if batch.base != owner.Digest() { return Err(DatabaseError.StaleBase); }
      if owner != this { return Err(DatabaseError.StaleBase); }
      if engine.sequence == U64_LIMIT - 1 { return Err(DatabaseError.SequenceExhausted); }
      if next != engine.sequence + 1 { return Err(DatabaseError.WrongAdvance); }
      batch.staging.Unique();
      var kept := FilterChanges(batch.staging.changes);
      FilterIsNormalForm(Visible(Levels()), batch.staging.changes);
      var rows := SortRows(kept);
      Frames.SortedFault(rows, 0, Frames.EMPTY_LENGTH);
      var candidate := engine.Clone();
      assert candidate.levels[..] == Levels();
      ghost var was := candidate.sequence;
      var advanced := candidate.Advance(next, rows, memory);
      if advanced.Err? {
        match advanced.error
        case Rejected(e) => return Err(Refused(e));
        case _ => return Err(DatabaseError.OutOfMemory);
      }
      batch.sealed := true;
      var prepared := new Prepared(this, batch.token, batch.base, candidate, Base(engine.sequence, Levels()), batch.staging.Staged());
      return Ok(prepared);
    }

    /** The loop over staged records, each compared with a point read. */
    method FilterChanges(changes: seq<Record>) returns (kept: seq<Record>)
      requires Valid()
      ensures kept == Filtered(Visible(Levels()), changes)
    {
      hide Visible;
      kept := [];
      for i := 0 to |changes|
        invariant kept == Filtered(Visible(Levels()), changes[..i])
      {
        var r := changes[i];
        var prior := engine.Read(r.Id());
        assert changes[..i + 1][..i] == changes[..i];
        if r.value.Some? {
          if prior.Some? && prior.value == r.value.value { continue; }
        } else if prior.None? {
          continue;
        }
        kept := kept + [r];
      }
      assert changes[..|changes|] == changes;
    }

    /** Dropping a batch reopens the database unless a newer batch has begun. */
    method CloseBatch(batch: OwnedBatch)
      requires Valid() && batch.owner == this
      modifies this`batchOpen
      ensures Valid() && batchOpen == (old(batchOpen) && batch.token != batchToken)
    {
      if batchToken == batch.token { batchOpen := false; }
    }

    /** A pinned view is its own list: no later commit reaches it. */
    method ReadView() returns (view: List)
      requires Valid()
      ensures Valid() && fresh(view) && fresh(view.levels) && view.Valid()
      ensures view.sequence == engine.sequence && view.levels[..] == Levels()
    {
      view := engine.Clone();
    }

    /** Publishes a prepared state, if its batch is still the open one over the
        current digest. No commit can have come between: what is published is the
        step of the values being replaced, and reads as the staged effects over
        them. */
    method Commit(prepared: Prepared) returns (result: Result<(), DatabaseError>)
      requires Valid() && prepared.Valid()
      modifies this`engine, this`batchOpen, prepared`state
      ensures Valid() && prepared.Valid()
      ensures result.Ok? <==> old(prepared.state != null && prepared.owner == this && batchOpen && prepared.token == batchToken && prepared.base == Digest())
      ensures result.Ok? ==> engine == old(prepared.state) && prepared.state == null && !batchOpen
      ensures result.Ok? ==>
                && engine.sequence == old(engine.sequence) + 1
                && Levels() == Step(engine.sequence, old(Levels()), NormalForm(Visible(old(Levels())), prepared.staged))
      ensures result.Ok? && old(Accepts(engine.sequence, Levels())) ==>
                && Accepts(engine.sequence, Levels())
                && forall k :: Get(Levels(), k) == if k in prepared.staged then prepared.staged[k] else old(Get(Levels(), k))
      ensures result.Err? ==> result == Err(DatabaseError.StaleBase) && engine == old(engine) && batchOpen == old(batchOpen) && prepared.state == old(prepared.state)
    {
      hide Step, Accepts, Visible, View, Commitments.ListCommitment, NormalForm, Get;
      if prepared.state == null || prepared.owner != this || !batchOpen || prepared.token != batchToken || prepared.base != Digest() {
        return Err(DatabaseError.StaleBase);
      }
      ghost var n, levels := engine.sequence, Levels();
      engine := prepared.state;
      prepared.state := null;
      batchOpen := false;
      if Accepts(n, levels) { AdvanceReads(n, levels, prepared.staged); }
      return Ok(());
    }
  }

  class OwnedBatch {
    const owner: Database
    const token: U64
    const base: Digest
    const staging: Batch
    var sealed: bool

    constructor (owner: Database, token: U64, base: Digest, staging: Batch)
      ensures this.owner == owner && this.token == token && this.base == base && this.staging == staging && !sealed
    {
      this.owner, this.token, this.base, this.staging, sealed := owner, token, base, staging, false;
    }

    /** Not used up, and the batch its owner currently has open. */
    predicate Open()
      reads this, owner
    {
      !sealed && owner.batchOpen && owner.batchToken == token
    }
  }

  class Prepared {
    const owner: Database
    const token: U64
    const base: Digest
    var state: List?
    ghost const from: Base
    ghost const staged: Effects

    constructor (owner: Database, token: U64, base: Digest, state: List, ghost from: Base, ghost staged: Effects)
      ensures this.owner == owner && this.token == token && this.base == base && this.state == state && this.from == from && this.staged == staged
    {
      this.owner, this.token, this.base, this.state, this.from, this.staged := owner, token, base, state, from, staged;
    }

    /** What is prepared is the advance of the base its batch was opened over. */
    ghost predicate Valid()
      reads this, owner, state, if state != null then {state.levels} else {}
    {
      && token in owner.bases && owner.bases[token] == from
      && (state != null ==>
            && state.Valid() && ValidDepth(|from.levels|) && state.sequence == from.sequence + 1
            && state.levels[..] == Step(state.sequence, from.levels, NormalForm(Visible(from.levels), staged)))
    }
  }

  // ----- the iterator ------------------------------------------------------

  function TableRange(table: U32): Range { Range(table, [], None) }

  ghost predicate InBounds(slots: seq<Bucket>, positions: seq<nat>) {
    |positions| == |slots| && forall i | 0 <= i < |slots| :: positions[i] <= |slots[i]|
  }

  ghost function Unread(table: U32, slots: seq<Bucket>, positions: seq<nat>): (qs: seq<Bucket>)
    requires InBounds(slots, positions)
    ensures |qs| == |slots| && forall i | 0 <= i < |qs| :: qs[i] == Window(TableRange(table), Scans.Suffix(slots[i], positions[i]))
  {
    seq(|slots|, i requires 0 <= i < |slots| => WindowOf(TableRange(table), Scans.Suffix(slots[i], positions[i])))
  }

  lemma {:induction false} EmptySuffix(table: U32, b: Bucket)
    ensures Window(TableRange(table), Scans.Suffix(b, |b|)) == []
  {
  }

  /** Standing on a row of a later table, or at the end, a slot has nothing left. */
  lemma {:induction false} HeadOfTable(table: U32, b: Bucket, p: nat)
    requires p <= |b| && (p < |b| ==> b[p].table >= table)
    ensures var q := Window(TableRange(table), Scans.Suffix(b, p));
            if p < |b| && b[p].table == table
            then q == [b[p]] + Window(TableRange(table), Scans.Suffix(b, p + 1))
            else q == []
  {
    hide Window;
    if p < |b| {
      WindowStep(TableRange(table), b, p);
      if b[p].table > table { NothingPast(TableRange(table), Scans.Suffix(b, p)); }
    } else {
      EmptySuffix(table, b);
    }
  }

  /** The row a slot stands on, when it belongs to the table. */
  function Standing(table: U32, b: Bucket, p: nat): Option<Record>
    requires p <= |b|
  {
    if p < |b| && b[p].table == table then Some(b[p]) else None
  }

  ghost predicate Aligned(table: U32, slots: seq<Bucket>, positions: seq<nat>, upto: nat)
    requires InBounds(slots, positions) && upto <= |slots|
  {
    forall i | 0 <= i < upto :: positions[i] < |slots[i]| ==> slots[i][positions[i]].table >= table
  }

  /** The least row any slot stands on; the first slot with it decides. */
  ghost predicate Selected(table: U32, slots: seq<Bucket>, positions: seq<nat>, upto: nat, selected: Option<(Record, nat)>)
    requires InBounds(slots, positions) && upto <= |slots|
  {
    match selected
    case None => forall i | 0 <= i < upto :: Standing(table, slots[i], positions[i]) == None
    case Some((r, s)) =>
      && s < upto && Standing(table, slots[s], positions[s]) == Some(r)
      && forall i | 0 <= i < upto && Standing(table, slots[i], positions[i]).Some? ::
           var k := Standing(table, slots[i], positions[i]).value.Id();
           (k == r.Id() && i >= s) || Before(r.Id(), k)
  }

  lemma {:induction false} SelectBetter(table: U32, slots: seq<Bucket>, positions: seq<nat>, i: nat, selected: Option<(Record, nat)>)
    requires InBounds(slots, positions) && i < |slots| && Selected(table, slots, positions, i, selected)
    requires Standing(table, slots[i], positions[i]).Some?
    ensures var r := Standing(table, slots[i], positions[i]).value;
            if selected.None? || Before(r.Id(), selected.value.0.Id())
            then Selected(table, slots, positions, i + 1, Some((r, i)))
            else Selected(table, slots, positions, i + 1, selected)
  {
    hide Before;
    var r := Standing(table, slots[i], positions[i]).value;
    if selected.Some? {
      var s := selected.value.0;
      BeforeTotal(r.Id(), s.Id());
      if Before(r.Id(), s.Id()) {
        forall j | 0 <= j < i && Standing(table, slots[j], positions[j]).Some?
          ensures Before(r.Id(), Standing(table, slots[j], positions[j]).value.Id())
        {
          if Standing(table, slots[j], positions[j]).value.Id() != s.Id() {
            BeforeTransitive(r.Id(), s.Id(), Standing(table, slots[j], positions[j]).value.Id());
          }
        }
      }
    }
  }

  lemma {:induction false} SameUnread(table: U32, slots: seq<Bucket>, a: seq<nat>, b: seq<nat>, i: nat)
    requires InBounds(slots, a) && InBounds(slots, b) && i < |slots|
    requires forall j | 0 <= j < |slots| && j != i :: a[j] == b[j]
    requires Window(TableRange(table), Scans.Suffix(slots[i], a[i])) == Window(TableRange(table), Scans.Suffix(slots[i], b[i]))
    ensures Unread(table, slots, a) == Unread(table, slots, b)
  {
    hide Window;
  }

  lemma {:induction false} KeepsSelection(table: U32, slots: seq<Bucket>, a: seq<nat>, b: seq<nat>, i: nat, selected: Option<(Record, nat)>)
    requires InBounds(slots, a) && InBounds(slots, b) && i < |slots|
    requires forall j | 0 <= j < i :: a[j] == b[j]
    requires Selected(table, slots, a, i, selected) && Aligned(table, slots, a, i)
    requires b[i] < |slots[i]| ==> slots[i][b[i]].table >= table
    ensures Selected(table, slots, b, i, selected) && Aligned(table, slots, b, i + 1)
    ensures Standing(table, slots[i], b[i]).None? ==> Selected(table, slots, b, i + 1, selected)
  {
    hide Before;
  }

  lemma {:induction false} NothingStanding(table: U32, slots: seq<Bucket>, positions: seq<nat>)
    requires InBounds(slots, positions) && Aligned(table, slots, positions, |slots|) && Selected(table, slots, positions, |slots|, None)
    ensures Resolved(Unread(table, slots, positions)) == map[]
  {
    hide Window;
    var queues := Unread(table, slots, positions);
    forall i | 0 <= i < |slots| ensures queues[i] == [] { HeadOfTable(table, slots[i], positions[i]); }
    NothingQueued(queues);
  }

  lemma {:induction false} StandingHeads(table: U32, slots: seq<Bucket>, positions: seq<nat>, r: Record, s: nat)
    requires InBounds(slots, positions) && Aligned(table, slots, positions, |slots|)
    requires Selected(table, slots, positions, |slots|, Some((r, s)))
    ensures var queues := Unread(table, slots, positions);
            && s < |slots| && r.table == table && Heads(queues, r.Id()) && queues[s] != [] && queues[s][0].Id() == r.Id()
            && r.Id() in Resolved(queues) && Resolved(queues)[r.Id()] == r.value
  {
    hide Window, Before, Resolved;
    var queues := Unread(table, slots, positions);
    forall i | 0 <= i < |slots|
      ensures queues[i] != [] ==> Standing(table, slots[i], positions[i]) == Some(queues[i][0])
      ensures Standing(table, slots[i], positions[i]).Some? ==> queues[i] != []
    {
      HeadOfTable(table, slots[i], positions[i]);
    }
    forall i | 0 <= i < s && queues[i] != [] ensures queues[i][0].Id() != r.Id() {
      BeforeIrreflexive(r.Id());
    }
    FirstDecides(queues, r.Id(), s);
  }

  class Iterator {
    const table: U32
    const slots: seq<Bucket>
    const positions: array<nat>

    ghost predicate Valid() reads this, positions { InBounds(slots, positions[..]) }

    ghost function Undecided(): Effects
      reads this, positions
      requires Valid()
    {
      Resolved(Unread(table, slots, positions[..]))
    }

    ghost function Remaining(): seq<Record>
      reads this, positions
      requires Valid()
    {
      LiveRecords(Undecided())
    }

    constructor (table: U32, slots: seq<Bucket>)
      ensures Valid() && fresh(positions)
      ensures Remaining() == LiveRecords(InView(TableRange(table), Resolved(slots)))
    {
      this.table, this.slots := table, slots;
      positions := new nat[|slots|](_ => 0);
      new;
      assert Unread(table, slots, positions[..]) == Windows(TableRange(table), slots);
      WindowsResolve(TableRange(table), slots);
    }

    method Next() returns (row: Option<Record>)
      requires Valid()
      modifies positions
      ensures Valid()
      ensures row.None? ==> old(Remaining()) == [] && Remaining() == []
      ensures row.Some? ==> old(Remaining()) == [row.value] + Remaining()
    {
      hide Resolved, Before, Window, LiveRecords, Selected, Aligned;
      while true
        invariant Valid() && Remaining() == old(Remaining())
        decreases Total(Unread(table, slots, positions[..]))
      {
        var selected := Select();
        ghost var queues := Unread(table, slots, positions[..]);
        if selected.None? {
          NothingStanding(table, slots, positions[..]);
          NothingLive();
          return None;
        }
        var (record, s) := selected.value;
        StandingHeads(table, slots, positions[..], record, s);
        PopResolves(queues, record.Id());
        PopShrinks(queues, record.Id());
        Advance(record);
        if record.value.Some? {
          YieldThenRest(Resolved(queues), record.Id());
          return Some(record);
        }
        SkipTombstone(Resolved(queues), record.Id());
      }
    }

    /** First loop: skip lower tables and find the least row stood on. */
    method Select() returns (selected: Option<(Record, nat)>)
      requires Valid()
      modifies positions
      ensures Valid() && Aligned(table, slots, positions[..], |slots|)
      ensures Unread(table, slots, positions[..]) == old(Unread(table, slots, positions[..]))
      ensures Selected(table, slots, positions[..], |slots|, selected)
    {
      hide Before, Window;
      selected := None;
      ghost var before := Unread(table, slots, positions[..]);
      for i := 0 to |slots|
        invariant Valid() && Aligned(table, slots, positions[..], i)
        invariant Unread(table, slots, positions[..]) == before
        invariant Selected(table, slots, positions[..], i, selected)
      {
        ghost var earlier := positions[..];
        SkipLower(i);
        KeepsSelection(table, slots, earlier, positions[..], i, selected);
        var p := positions[i];
        if p == |slots[i]| { continue; }
        var r := slots[i][p];
        if r.table != table { continue; }
        SelectBetter(table, slots, positions[..], i, selected);
        if selected.None? || Before(r.Id(), selected.value.0.Id()) { selected := Some((r, i)); }
      }
    }

    method SkipLower(i: nat)
      requires Valid() && i < |slots|
      modifies positions
      ensures Valid() && (positions[i] < |slots[i]| ==> slots[i][positions[i]].table >= table)
      ensures forall j | 0 <= j < |slots| && j != i :: positions[j] == old(positions[j])
      ensures Unread(table, slots, positions[..]) == old(Unread(table, slots, positions[..]))
    {
      hide Window;
      while positions[i] < |slots[i]| && slots[i][positions[i]].table < table
        invariant Valid()
        invariant forall j | 0 <= j < |slots| && j != i :: positions[j] == old(positions[j])
        invariant Unread(table, slots, positions[..]) == old(Unread(table, slots, positions[..]))
        decreases |slots[i]| - positions[i]
      {
        WindowStep(TableRange(table), slots[i], positions[i]);
        ghost var before, was := positions[..], Unread(table, slots, positions[..]);
        positions[i] := positions[i] + 1;
        SameUnread(table, slots, before, positions[..], i);
      }
    }

    /** Second loop: advance every copy of the selected identity. */
    method Advance(record: Record)
      requires Valid() && Aligned(table, slots, positions[..], |slots|) && record.table == table
      modifies positions
      ensures Valid() && Unread(table, slots, positions[..]) == Pop(old(Unread(table, slots, positions[..])), record.Id())
    {
      hide Window, Before;
      ghost var before, queues := positions[..], Unread(table, slots, positions[..]);
      for i := 0 to |slots|
        invariant Valid() && forall j | i <= j < |slots| :: positions[j] == before[j]
        invariant forall j | 0 <= j < i :: Unread(table, slots, positions[..])[j] == PopOne(queues[j], record.Id())
      {
        assert before[i] == positions[i];
        HeadOfTable(table, slots[i], positions[i]);
        ghost var earlier := positions[..];
        if positions[i] < |slots[i]| {
          var r := slots[i][positions[i]];
          if r.table == table && r.key == record.key { positions[i] := positions[i] + 1; }
        }
        forall j | 0 <= j < i ensures Unread(table, slots, positions[..])[j] == PopOne(queues[j], record.Id()) {
          assert Unread(table, slots, earlier)[j] == PopOne(queues[j], record.Id());
        }
      }
    }
  }

  // ----- one reading of the visible rows -----------------------------------

  /** What a complete read of a range lists is exactly what point reads answer. */
  lemma {:induction false} ListedIsRead(levels: seq<Level>, range: Range, k: Identity)
    ensures var listed := View(LiveRecords(InView(range, Resolved(SlotsOf(levels)))));
            k in listed <==> In(range, k) && Get(levels, k).Some?
    ensures var listed := View(LiveRecords(InView(range, Resolved(SlotsOf(levels)))));
            k in listed ==> listed[k] == Get(levels, k)
  {
    SlotsResolve(levels, 0);
  }

  lemma {:induction false} NarrowerRange(m: Effects, table: U32, start: Bytes, end: Bytes)
    ensures InView(Range(table, start, Some(end)), LiveView(InView(TableRange(table), m))) == LiveView(InView(Range(table, start, Some(end)), m))
  {
  }

  /** A range scan returns what the table iterator returns, restricted to the
      range. */
  lemma {:induction false} ScanIsIteratorInRange(m: Effects, table: U32, start: Bytes, end: Bytes)
    ensures var range := Range(table, start, Some(end));
            LiveRecords(InView(range, m)) == Window(range, LiveRecords(InView(TableRange(table), m)))
  {
    var range := Range(table, start, Some(end));
    var all := LiveRecords(InView(TableRange(table), m));
    WindowView(range, all);
    assert InView(range, LiveView(InView(TableRange(table), m))) == LiveView(InView(range, m)) by { NarrowerRange(m, table, start, end); }
    ViewInjective(LiveRecords(InView(range, m)), Window(range, all));
  }
}
