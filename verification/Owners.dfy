/** The disk owner (src/disk.zig:57-67, 244-304, 426-585, 1275-1298): preparation,
    publication with ambiguous failures, poisoning, pinned views and collection,
    as a step machine and as the object that takes those steps. */
module Owners {
  import opened Wire
  import opened Buckets
  import opened Lists
  import opened Engines
  import opened Frontiers
  import opened Stores
  import opened History
  import opened Normalizing
  import Frames
  import Schedule
  import Slots
  import Staging

  /** How a catalog replacement ends: durable, or failed before or after the new
      catalog was in place. The caller cannot tell the two failures apart. */
  datatype Outcome = Published | LostBefore | LostAfter

  /** Store, durable catalog, and the owner's memory. */
  datatype Disk<D> = Disk(
    blobs: map<D, Blob<D>>, durable: Version<D>, live: Version<D>,
    pending: Option<Version<D>>, poisoned: bool, pins: seq<Version<D>>)

  datatype Action<D> =
    | Prepare(staged: Effects)
    | PrepareFails
    | Publish(outcome: Outcome)
    | Abort
    | Pin
    | Unpin(index: nat)
    | Collect(retained: seq<Reference<D>>)
    | Reopen

  /** The blobs a reference given to collection reaches through its manifest. */
  ghost predicate Retains<D>(blobs: map<D, Blob<D>>, ref: Reference<D>, h: D) {
    ref.manifest in blobs && blobs[ref.manifest].ManifestBlob? && Reaches(ref, blobs[ref.manifest].frontier, h)
  }

  /** Collection never deletes what the live catalog, an open view or a retained
      reference reaches. */
  ghost predicate MustKeep<D>(d: Disk<D>, retained: seq<Reference<D>>, h: D) {
    || Retains(d.blobs, d.live.reference, h)
    || (exists i :: 0 <= i < |d.pins| && Retains(d.blobs, d.pins[i].reference, h))
    || (exists i :: 0 <= i < |retained| && Retains(d.blobs, retained[i], h))
  }

  /** `v` is one advance past `base`. */
  ghost predicate Follows<D>(base: Version<D>, v: Version<D>) {
    |v.history| == |base.history| + 1 && base.history == v.history[..|base.history|]
  }

  ghost predicate Next<D>(names: Naming<D>, d: Disk<D>, action: Action<D>, after: Disk<D>) {
    match action
    case Prepare(staged) =>
      && !d.poisoned && d.pending.None? && after.pending.Some?
      && after == d.(blobs := after.blobs, pending := after.pending)
      && Extends(d.blobs, after.blobs) && Addressed(names, after.blobs) && Holding(names, after.blobs, after.pending.value)
      && Present(d.blobs, d.live.frontier)
      && after.pending.value.history == d.live.history + [NormalForm(Visible(LevelsOf(d.blobs, d.live.frontier)), staged)]
    case PrepareFails => after == d.(blobs := after.blobs) && Extends(d.blobs, after.blobs) && Addressed(names, after.blobs)
    case Publish(outcome) =>
      && !d.poisoned && d.pending.Some?
      && after == (match outcome
                   case Published => d.(durable := d.pending.value, live := d.pending.value, pending := None)
                   case LostBefore => d.(poisoned := true)
                   case LostAfter => d.(durable := d.pending.value, poisoned := true))
    case Abort => d.pending.Some? && after == d.(pending := None)
    case Pin => after == d.(pins := [d.live] + d.pins)
    case Unpin(i) => i < |d.pins| && after == d.(pins := d.pins[..i] + d.pins[i + 1..])
    case Collect(retained) =>
      && !d.poisoned && d.pending.None?
      && after == d.(blobs := after.blobs) && Extends(after.blobs, d.blobs)
      && forall h | h in d.blobs && MustKeep(d, retained, h) :: h in after.blobs
    case Reopen => after == d.(live := d.durable, pending := None, poisoned := false, pins := [])
  }

  /** What every step keeps. */
  ghost predicate Sound<D>(names: Naming<D>, d: Disk<D>) {
    && Addressed(names, d.blobs)
    && Holding(names, d.blobs, d.durable) && Holding(names, d.blobs, d.live)
    && (d.pending.Some? ==> Holding(names, d.blobs, d.pending.value) && Follows(d.live, d.pending.value))
    && (forall i | 0 <= i < |d.pins| :: Holding(names, d.blobs, d.pins[i]))
    && (d.durable == d.live || (d.poisoned && Follows(d.live, d.durable)))
  }

  lemma ReachedIsRetained<D>(names: Naming<D>, blobs: map<D, Blob<D>>, v: Version<D>, h: D)
    requires Holding(names, blobs, v) && Reaches(v.reference, v.frontier, h)
    ensures Retains(blobs, v.reference, h)
  {
  }

  lemma GrowthSound<D>(names: Naming<D>, d: Disk<D>, after: Disk<D>)
    requires Sound(names, d) && Extends(d.blobs, after.blobs) && Addressed(names, after.blobs)
    requires after == d.(blobs := after.blobs, pending := after.pending)
    requires after.pending == d.pending || (after.pending.Some? && Holding(names, after.blobs, after.pending.value) && Follows(d.live, after.pending.value))
    ensures Sound(names, after)
  {
    hide Holding, Addressed, Extends;
    HoldingExtended(names, d.blobs, after.blobs, d.durable);
    HoldingExtended(names, d.blobs, after.blobs, d.live);
    if d.pending.Some? { HoldingExtended(names, d.blobs, after.blobs, d.pending.value); }
    forall i | 0 <= i < |d.pins| ensures Holding(names, after.blobs, d.pins[i]) {
      HoldingExtended(names, d.blobs, after.blobs, d.pins[i]);
    }
  }

  lemma KeptVersion<D>(names: Naming<D>, d: Disk<D>, retained: seq<Reference<D>>, after: Disk<D>, v: Version<D>)
    requires Holding(names, d.blobs, v) && Next(names, d, Collect(retained), after)
    requires v.reference == d.live.reference || (exists i :: 0 <= i < |d.pins| && d.pins[i].reference == v.reference) || v.reference in retained
    ensures Holding(names, after.blobs, v) && LevelsOf(after.blobs, v.frontier) == LevelsOf(d.blobs, v.frontier)
  {
    hide Holding, Retains, Reaches;
    forall h | h in d.blobs && Reaches(v.reference, v.frontier, h) ensures h in after.blobs && after.blobs[h] == d.blobs[h] {
      ReachedIsRetained(names, d.blobs, v, h);
      if v.reference in retained {
        var i :| 0 <= i < |retained| && retained[i] == v.reference;
        assert Retains(d.blobs, retained[i], h);
      }
      assert MustKeep(d, retained, h);
    }
    HoldingPreserved(names, d.blobs, after.blobs, v);
  }

  lemma CollectSound<D>(names: Naming<D>, d: Disk<D>, retained: seq<Reference<D>>, after: Disk<D>)
    requires Sound(names, d) && Next(names, d, Collect(retained), after)
    ensures Sound(names, after)
  {
    hide Holding, MustKeep;
    KeptVersion(names, d, retained, after, d.live);
    forall i | 0 <= i < |d.pins| ensures Holding(names, after.blobs, d.pins[i]) {
      KeptVersion(names, d, retained, after, d.pins[i]);
    }
  }

  /** Soundness is inductive. */
  lemma StepSound<D>(names: Naming<D>, d: Disk<D>, action: Action<D>, after: Disk<D>)
    requires Sound(names, d) && Next(names, d, action, after)
    ensures Sound(names, after)
  {
    hide Holding, Addressed, MustKeep, Visible, NormalForm, Extends;
    match action
    case Collect(retained) => CollectSound(names, d, retained, after);
    case Prepare(_) => GrowthSound(names, d, after);
    case PrepareFails => GrowthSound(names, d, after);
    case _ =>
  }

  // ----- whole runs --------------------------------------------------------

  ghost predicate IsRun<D>(names: Naming<D>, states: seq<Disk<D>>, actions: seq<Action<D>>) {
    |states| == |actions| + 1 && forall i | 0 <= i < |actions| :: Next(names, states[i], actions[i], states[i + 1])
  }

  lemma {:induction false} RunSound<D>(names: Naming<D>, states: seq<Disk<D>>, actions: seq<Action<D>>, i: nat)
    requires IsRun(names, states, actions) && Sound(names, states[0]) && i < |states|
    ensures Sound(names, states[i])
  {
    hide Next, Sound;
    if i > 0 {
      RunSound(names, states, actions, i - 1);
      assert Next(names, states[i - 1], actions[i - 1], states[i - 1 + 1]);
      StepSound(names, states[i - 1], actions[i - 1], states[i]);
    }
  }

  /** The action spares the reference: it is live, pinned or named to collection,
      or the action is no collection. */
  ghost predicate Spares<D>(d: Disk<D>, action: Action<D>, ref: Reference<D>) {
    action.Collect? ==>
      ref == d.live.reference || (exists i :: 0 <= i < |d.pins| && d.pins[i].reference == ref) || ref in action.retained
  }

  lemma StepSpares<D>(names: Naming<D>, d: Disk<D>, action: Action<D>, after: Disk<D>, v: Version<D>)
    requires Next(names, d, action, after) && Holding(names, d.blobs, v) && Spares(d, action, v.reference)
    ensures Holding(names, after.blobs, v) && LevelsOf(after.blobs, v.frontier) == LevelsOf(d.blobs, v.frontier)
  {
    hide Holding, MustKeep, Visible, NormalForm;
    match action
    case Collect(retained) => KeptVersion(names, d, retained, after, v);
    case Prepare(_) => HoldingExtended(names, d.blobs, after.blobs, v);
    case PrepareFails => HoldingExtended(names, d.blobs, after.blobs, v);
    case _ =>
  }

  /** Through any run whose collections spare a reference, it goes on loading with
      the same contents: retained checkpoints stay readable. */
  lemma {:induction false} RunSpares<D>(names: Naming<D>, states: seq<Disk<D>>, actions: seq<Action<D>>, v: Version<D>, i: nat)
    requires IsRun(names, states, actions) && Holding(names, states[0].blobs, v) && i < |states|
    requires forall j | 0 <= j < i :: Spares(states[j], actions[j], v.reference)
    ensures Holding(names, states[i].blobs, v)
    ensures LevelsOf(states[i].blobs, v.frontier) == LevelsOf(states[0].blobs, v.frontier)
  {
    hide Next, Holding, Spares;
    if i > 0 {
      RunSpares(names, states, actions, v, i - 1);
      assert Next(names, states[i - 1], actions[i - 1], states[i - 1 + 1]);
      StepSpares(names, states[i - 1], actions[i - 1], states[i], v);
    }
  }

  lemma RunShape<D>(names: Naming<D>, states: seq<Disk<D>>, actions: seq<Action<D>>)
    requires IsRun(names, states, actions)
    ensures |states| == |actions| + 1
  {
  }

  /** An open view reads the same values in every later state, whatever is
      published, lost or collected meanwhile. */
  lemma ViewsAreStable<D>(names: Naming<D>, states: seq<Disk<D>>, actions: seq<Action<D>>, v: Version<D>, i: nat, k: Identity)
    requires IsRun(names, states, actions) && Sound(names, states[0]) && i < |states|
    requires forall j | 0 <= j <= i :: v in states[j].pins
    ensures Present(states[i].blobs, v.frontier)
    ensures Get(LevelsOf(states[i].blobs, v.frontier), k) == ValueAt(LastWriter(v.history), k)
  {
    hide Next, IsRun, LastWriter, Get, Accepts, Run;
    var p :| 0 <= p < |states[0].pins| && states[0].pins[p] == v;
    assert Holding(names, states[0].blobs, states[0].pins[p]);
    RunShape(names, states, actions);
    forall j | 0 <= j < i ensures Spares(states[j], actions[j], v.reference) {
      assert v in states[j].pins;
      var q :| 0 <= q < |states[j].pins| && states[j].pins[q] == v;
      assert states[j].pins[q].reference == v.reference;
    }
    RunSpares(names, states, actions, v, i);
    VersionReads(names, states[i].blobs, v, k);
  }

  /** While poisoned and not reopened nothing is deleted, and neither catalog nor
      owner move. */
  lemma {:induction false} PoisonFreezes<D>(names: Naming<D>, states: seq<Disk<D>>, actions: seq<Action<D>>, i: nat)
    requires IsRun(names, states, actions) && states[0].poisoned && i < |states|
    requires forall j | 0 <= j < i :: !actions[j].Reopen?
    ensures states[i].poisoned && Extends(states[0].blobs, states[i].blobs)
    ensures states[i].durable == states[0].durable && states[i].live == states[0].live
  {
    hide Addressed, Holding, MustKeep, Visible, NormalForm;
    if i > 0 {
      PoisonFreezes(names, states, actions, i - 1);
      var j := i - 1;
      assert Next(names, states[j], actions[j], states[j + 1]);
      assert !actions[j].Reopen?;
    }
  }

  /** After an ambiguous failure both outcomes stay complete until the owner
      reopens: the old frontier and the attempted one load in every state of the
      run, and reopening yields whichever the catalog names, with its contents. */
  lemma AmbiguityResolves<D>(names: Naming<D>, states: seq<Disk<D>>, actions: seq<Action<D>>, i: nat)
    requires IsRun(names, states, actions) && Sound(names, states[0]) && 0 < i < |states| && 0 < |actions|
    requires actions[0].Publish? && actions[0].outcome != Published
    requires forall j | 1 <= j < i :: !actions[j].Reopen?
    ensures states[0].pending.Some?
    ensures var before, attempted := states[0].live, states[0].pending.value;
            && Holding(names, states[i].blobs, before) && Holding(names, states[i].blobs, attempted)
            && states[i].durable == (if actions[0].outcome == LostAfter then attempted else before)
            && (i < |actions| && actions[i].Reopen? ==> states[i + 1].live == states[i].durable && !states[i + 1].poisoned && Sound(names, states[i + 1]))
  {
    hide Holding, MustKeep, Visible, NormalForm, Extends;
    assert Next(names, states[0], actions[0], states[0 + 1]);
    var before, attempted := states[0].live, states[0].pending.value;
    var later, steps := states[1..], actions[1..];
    forall j | 0 <= j < |steps| ensures Next(names, later[j], steps[j], later[j + 1]) {
      assert Next(names, states[j + 1], actions[j + 1], states[j + 1 + 1]);
    }
    PoisonFreezes(names, later, steps, i - 1);
    HoldingExtended(names, states[0].blobs, states[i].blobs, before);
    HoldingExtended(names, states[0].blobs, states[i].blobs, attempted);
    if i < |actions| && actions[i].Reopen? {
      assert Next(names, states[i], actions[i], states[i + 1]);
      RunSound(names, states, actions, i + 1);
    }
  }

  lemma HistoryStep<D>(names: Naming<D>, d: Disk<D>, action: Action<D>, after: Disk<D>)
    requires Sound(names, d) && Next(names, d, action, after)
    ensures d.durable.history <= after.durable.history
  {
    hide Holding, MustKeep, Visible, NormalForm, Addressed, Extends;
  }

  /** The durable history only ever grows: no durable advance is lost, reordered or
      rewritten by any later step, failure or reopening. */
  lemma {:induction false} DurableHistoryGrows<D>(names: Naming<D>, states: seq<Disk<D>>, actions: seq<Action<D>>, i: nat, j: nat)
    requires IsRun(names, states, actions) && Sound(names, states[0]) && i <= j < |states|
    ensures states[i].durable.history <= states[j].durable.history
  {
    hide Next, Sound;
    if i < j {
      DurableHistoryGrows(names, states, actions, i, j - 1);
      RunSound(names, states, actions, j - 1);
      assert Next(names, states[j - 1], actions[j - 1], states[j - 1 + 1]);
      HistoryStep(names, states[j - 1], actions[j - 1], states[j]);
    }
  }

  // ----- what a preparation builds -----------------------------------------

  lemma WholeExtended<D>(names: Naming<D>, a: map<D, Blob<D>>, b: map<D, Blob<D>>, f: Frontier<D>)
    requires Whole(names, a, f) && Extends(a, b)
    ensures Whole(names, b, f) && LevelsOf(b, f) == LevelsOf(a, f)
  {
    hide Accepts, ValidDepth;
    forall i | 0 <= i < |f.levels| ensures LevelPresent(b, f.levels[i]) && LevelOf(b, f.levels[i]) == LevelOf(a, f.levels[i]) {
      assert LevelPresent(a, f.levels[i]);
    }
    assert LevelsOf(b, f) == LevelsOf(a, f);
  }

  /** The job outputs an advance needs are stored. */
  ghost predicate OutputsStored<D>(names: Naming<D>, blobs: map<D, Blob<D>>, next: nat, levels: seq<Level>, batch: Bucket) {
    forall i: nat | i < |levels| && (i == 0 || Schedule.ShouldSpill(|levels|, next, i - 1)) ::
      Output(NameBuckets(names), next, levels, batch, i) in blobs
  }

  lemma WrittenIsOutput<D>(names: Naming<D>, next: nat, levels: seq<Level>, batch: Bucket, i: nat)
    requires i < |levels| && Receives(|levels|, next, i)
    ensures names.Bucket(Written(next, levels, batch, i)) == Output(NameBuckets(names), next, levels, batch, i)
  {
    hide Merge, Schedule.Half, Schedule.MergeWithEmpty;
  }

  lemma LevelAvailable(levels: seq<Level>, batch: Bucket, i: nat)
    requires i < |levels|
    ensures Available(levels, batch, levels[i].curr) && Available(levels, batch, levels[i].snap) && Available(levels, batch, Buckets.EMPTY)
    ensures levels[i].next.Some? ==> Available(levels, batch, levels[i].next.value)
  {
    assert Holds(levels[i], levels[i].curr) && Holds(levels[i], levels[i].snap);
    if levels[i].next.Some? { assert Holds(levels[i], levels[i].next.value); }
  }

  lemma InputNamed<D>(names: Naming<D>, blobs: map<D, Blob<D>>, levels: seq<Level>, batch: Bucket, b: Bucket)
    requires HasInputs(NameBuckets(names), BucketsIn(blobs), levels, batch) && Available(levels, batch, b)
    ensures names.Bucket(b) in blobs
  {
    assert NameBuckets(names)(b) in BucketsIn(blobs);
  }

  lemma LevelStored<D(!new)>(names: Naming<D>, blobs: map<D, Blob<D>>, next: nat, levels: seq<Level>, batch: Bucket, i: nat)
    requires Ideal(names) && Addressed(names, blobs) && i < |levels|
    requires HasInputs(NameBuckets(names), BucketsIn(blobs), levels, batch) && OutputsStored(names, blobs, next, levels, batch)
    ensures var level := StepLevel(next, levels, batch, i);
            && names.Bucket(level.curr) in blobs && names.Bucket(level.snap) in blobs
            && (level.next.Some? ==> names.Bucket(level.next.value) in blobs)
  {
    hide Merge, Output, Schedule.Half, Schedule.ShouldSpill, Schedule.MergeWithEmpty, Addressed, Ideal, Available, HasInputs;
    var was := levels[i];
    assert Available(levels, batch, was.curr) && Available(levels, batch, was.snap) && Available(levels, batch, Buckets.EMPTY)
        && (was.next.Some? ==> Available(levels, batch, was.next.value)) by { LevelAvailable(levels, batch, i); }
    InputNamed(names, blobs, levels, batch, was.curr);
    InputNamed(names, blobs, levels, batch, was.snap);
    InputNamed(names, blobs, levels, batch, Buckets.EMPTY);
    if was.next.Some? { InputNamed(names, blobs, levels, batch, was.next.value); }
    if Receives(|levels|, next, i) { WrittenIsOutput(names, next, levels, batch, i); }
  }

  /** So the stepped levels are stored under their hash image. */
  lemma StepStored<D(!new)>(names: Naming<D>, blobs: map<D, Blob<D>>, next: U64, levels: seq<Level>, batch: Bucket)
    requires Ideal(names) && Addressed(names, blobs)
    requires HasInputs(NameBuckets(names), BucketsIn(blobs), levels, batch) && OutputsStored(names, blobs, next, levels, batch)
    ensures var f := Shadow(NameBuckets(names), next, Step(next, levels, batch));
            Present(blobs, f) && LevelsOf(blobs, f) == Step(next, levels, batch)
  {
    hide StepLevel, HasInputs, OutputsStored, Addressed, Ideal;
    var after := Step(next, levels, batch);
    var f := Shadow(NameBuckets(names), next, after);
    forall i | 0 <= i < |f.levels| ensures LevelPresent(blobs, f.levels[i]) && LevelOf(blobs, f.levels[i]) == after[i] {
      assert after[i] == StepLevel(next, levels, batch, i);
      LevelStored(names, blobs, next, levels, batch, i);
      NameFound(names, blobs, after[i].curr);
      NameFound(names, blobs, after[i].snap);
      if after[i].next.Some? { NameFound(names, blobs, after[i].next.value); }
    }
    assert LevelsOf(blobs, f) == after;
  }

  lemma ShadowEmpty<D>(names: Naming<D>, n: U64, levels: seq<Level>)
    ensures Shadow(NameBuckets(names), n, levels).empty == names.Empty() && Shadow(NameBuckets(names), n, levels).sequence == n
  {
  }

  /** The version a completed preparation holds. */
  lemma PreparedHolds<D(!new)>(names: Naming<D>, blobs: map<D, Blob<D>>, base: Version<D>, batch: Bucket, v: Version<D>)
    requires Ideal(names) && Addressed(names, blobs) && Holding(names, blobs, base) && base.frontier.sequence < U64_LIMIT - 1
    requires names.Bucket(batch) in blobs
    requires var levels := LevelsOf(blobs, base.frontier);
             && OutputsStored(names, blobs, base.frontier.sequence + 1, levels, batch)
             && v.frontier == Shadow(NameBuckets(names), base.frontier.sequence + 1, Step(base.frontier.sequence + 1, levels, batch))
    requires v.history == base.history + [batch]
    requires v.reference.manifest in blobs && blobs[v.reference.manifest] == ManifestBlob(v.frontier, v.metadata)
    requires v.reference.digest == names.commit(v.frontier)
    ensures Holding(names, blobs, v)
  {
    hide Step, Accepts, OutputsStored, Addressed, Ideal, HasInputs, Shadow;
    var f := base.frontier;
    var levels := LevelsOf(blobs, f);
    ShadowEmpty(names, f.sequence + 1, Step(f.sequence + 1, levels, batch));
    InputsStored(names, blobs, f, batch);
    StepStored(names, blobs, f.sequence + 1, levels, batch);
    StepAccepted(f.sequence, levels, batch);
    assert v.history[..|v.history| - 1] == base.history && v.history[|v.history| - 1] == batch;
  }

  // ----- steps with their soundness ----------------------------------------

  lemma FailedStep<D>(names: Naming<D>, d: Disk<D>, after: Disk<D>)
    requires Sound(names, d) && after == d.(blobs := after.blobs) && Extends(d.blobs, after.blobs) && Addressed(names, after.blobs)
    ensures Next(names, d, PrepareFails, after) && Sound(names, after)
  {
    GrowthSound(names, d, after);
  }

  lemma PreparedStep<D>(names: Naming<D>, d: Disk<D>, staged: Effects, after: Disk<D>)
    requires Sound(names, d) && !d.poisoned && d.pending.None? && after.pending.Some?
    requires after == d.(blobs := after.blobs, pending := after.pending) && Extends(d.blobs, after.blobs) && Addressed(names, after.blobs)
    requires Holding(names, after.blobs, after.pending.value) && Present(d.blobs, d.live.frontier)
    requires after.pending.value.history == d.live.history + [NormalForm(Visible(LevelsOf(d.blobs, d.live.frontier)), staged)]
    ensures Next(names, d, Action.Prepare(staged), after) && Sound(names, after)
  {
    hide Visible, NormalForm;
    GrowthSound(names, d, after);
  }

  lemma SoundParts<D>(names: Naming<D>, d: Disk<D>)
    requires Sound(names, d)
    ensures Addressed(names, d.blobs) && Holding(names, d.blobs, d.live) && Holding(names, d.blobs, d.durable) && Whole(names, d.blobs, d.live.frontier)
  {
    hide Whole, Addressed;
  }

  lemma ExtendsChain<D>(a: map<D, Blob<D>>, b: map<D, Blob<D>>, c: map<D, Blob<D>>)
    requires Extends(a, b) && Extends(b, c)
    ensures Extends(a, c)
  {
  }

  lemma OutputsExtended<D>(names: Naming<D>, a: map<D, Blob<D>>, b: map<D, Blob<D>>, next: nat, levels: seq<Level>, batch: Bucket)
    requires OutputsStored(names, a, next, levels, batch) && Extends(a, b)
    ensures OutputsStored(names, b, next, levels, batch)
  {
    hide Output, Schedule.ShouldSpill;
  }

  /** Everything a preparation stored, seen as one step. */
  lemma BuiltStep<D(!new)>(names: Naming<D>, d: Disk<D>, grown: map<D, Blob<D>>, staged: Effects, kept: Bucket, after: Disk<D>)
    requires Ideal(names) && Sound(names, d) && !d.poisoned && d.pending.None? && d.live.frontier.sequence < U64_LIMIT - 1
    requires Extends(d.blobs, grown) && Extends(grown, after.blobs) && Addressed(names, after.blobs)
    requires Present(d.blobs, d.live.frontier)
    requires var levels, next := LevelsOf(d.blobs, d.live.frontier), d.live.frontier.sequence + 1;
             && kept == NormalForm(Visible(levels), staged) && names.Bucket(kept) in grown && OutputsStored(names, grown, next, levels, kept)
             && after.pending.Some? && after.pending.value.frontier == Shadow(NameBuckets(names), next, Step(next, levels, kept))
    requires after == d.(blobs := after.blobs, pending := after.pending)
    requires var v := after.pending.value;
             && v.history == d.live.history + [kept] && v.reference.digest == names.commit(v.frontier)
             && v.reference.manifest in after.blobs && after.blobs[v.reference.manifest] == ManifestBlob(v.frontier, v.metadata)
    ensures Next(names, d, Action.Prepare(staged), after) && Sound(names, after)
  {
    hide Visible, NormalForm, Addressed, Ideal, Holding, OutputsStored, Shadow, Step, Next, Sound;
    SoundParts(names, d);
    ExtendsChain(d.blobs, grown, after.blobs);
    HoldingExtended(names, d.blobs, after.blobs, d.live);
    OutputsExtended(names, grown, after.blobs, d.live.frontier.sequence + 1, LevelsOf(d.blobs, d.live.frontier), kept);
    PreparedHolds(names, after.blobs, d.live, kept, after.pending.value);
    PreparedStep(names, d, staged, after);
  }

  lemma PublishedStep<D>(names: Naming<D>, d: Disk<D>, outcome: Outcome, after: Disk<D>)
    requires Sound(names, d) && !d.poisoned && d.pending.Some?
    requires outcome == Published ==> after == d.(durable := d.pending.value, live := d.pending.value, pending := None)
    requires outcome == LostBefore ==> after == d.(poisoned := true)
    requires outcome == LostAfter ==> after == d.(durable := d.pending.value, poisoned := true)
    ensures Next(names, d, Publish(outcome), after) && Sound(names, after)
  {
    hide Holding, Addressed;
    StepSound(names, d, Publish(outcome), after);
  }

  lemma ViewStep<D>(names: Naming<D>, d: Disk<D>, after: Disk<D>)
    requires Sound(names, d) && after == d.(pins := [d.live] + d.pins)
    ensures Next(names, d, Pin, after) && Sound(names, after)
  {
    hide Holding, Addressed;
    StepSound(names, d, Pin, after);
  }

  lemma UnviewStep<D>(names: Naming<D>, d: Disk<D>, i: nat, after: Disk<D>)
    requires Sound(names, d) && i < |d.pins| && after == d.(pins := d.pins[..i] + d.pins[i + 1..])
    ensures Next(names, d, Unpin(i), after) && Sound(names, after)
  {
    hide Holding, Addressed;
    StepSound(names, d, Unpin(i), after);
  }

  lemma ReopenedStep<D>(names: Naming<D>, d: Disk<D>, after: Disk<D>)
    requires Sound(names, d) && after == d.(live := d.durable, pending := None, poisoned := false, pins := [])
    ensures Next(names, d, Action.Reopen, after) && Sound(names, after)
  {
    hide Holding, Addressed;
    StepSound(names, d, Action.Reopen, after);
  }

  lemma AbortedStep<D>(names: Naming<D>, d: Disk<D>, after: Disk<D>)
    requires Sound(names, d) && d.pending.Some? && after == d.(pending := None)
    ensures Next(names, d, Abort, after) && Sound(names, after)
  {
    hide Holding, Addressed;
    StepSound(names, d, Abort, after);
  }

  // ----- facts the methods use ---------------------------------------------

  function GenesisName<D>(names: Naming<D>, depth: nat): D { names.hash(ManifestBlob(InitProfile(depth, names.Empty()), [])) }

  lemma GenesisHolds<D(!new)>(names: Naming<D>, depth: nat)
    requires Ideal(names) && ValidDepth(depth)
    ensures var genesis := InitProfile(depth, names.Empty());
            var manifest := ManifestBlob(genesis, []);
            var stored: map<D, Blob<D>> := Put(names, Put(names, map[], BucketBlob(Buckets.EMPTY)), manifest);
            var ref := Reference(names.hash(manifest), names.commit(genesis));
            Addressed(names, stored) && Holding(names, stored, Version(ref, genesis, [], []))
  {
    var genesis := InitProfile(depth, names.Empty());
    var manifest := ManifestBlob(genesis, []);
    var none: map<D, Blob<D>> := map[];
    var one := Put(names, none, BucketBlob(Buckets.EMPTY));
    PutKeeps(names, none, BucketBlob(Buckets.EMPTY));
    PutKeeps(names, one, manifest);
    var stored := Put(names, one, manifest);
    assert names.Empty() in stored && stored[names.Empty()] == BucketBlob(Buckets.EMPTY);
    forall i | 0 <= i < depth ensures LevelPresent(stored, genesis.levels[i]) && LevelOf(stored, genesis.levels[i]) == Genesis(depth)[i] {}
    assert LevelsOf(stored, genesis) == Genesis(depth);
    GenesisAccepted(depth);
  }

  lemma WholeParts<D>(names: Naming<D>, blobs: map<D, Blob<D>>, f: Frontier<D>)
    requires Whole(names, blobs, f)
    ensures Present(blobs, f) && f.empty == names.Empty() && ValidDepth(|f.levels|)
  {
  }

  lemma WholeProfile<D>(names: Naming<D>, blobs: map<D, Blob<D>>, f: Frontier<D>)
    requires f.empty != names.Empty()
    ensures !Whole(names, blobs, f)
  {
  }

  lemma ExtendsSelf<D>(a: map<D, Blob<D>>)
    ensures Extends(a, a)
  {
  }

  /** In any store grown from the base, a job finds its inputs and yields its own
      output. */
  lemma JobReady<D(!new)>(names: Naming<D>, stored: map<D, Blob<D>>, blobs: map<D, Blob<D>>, f: Frontier<D>, next: U64, levels: seq<Level>, batch: Bucket, i: nat)
    requires Ideal(names) && Addressed(names, blobs) && Extends(stored, blobs) && Whole(names, stored, f) && levels == LevelsOf(stored, f)
    requires names.Bucket(batch) in stored && i < |levels| && Shadow(NameBuckets(names), f.sequence, levels) == f
    ensures var job := JobFor(next, f, names.Bucket(batch), i);
            && HasBucket(blobs, job.older) && HasBucket(blobs, job.newer)
            && names.Bucket(Merge(blobs[job.older].rows, blobs[job.newer].rows, job.dropTombstones)) == Output(NameBuckets(names), next, levels, batch, i)
  {
    hide Whole, JobFor, Merge, Shadow, Frontiers.Inputs, HasInputs, Addressed, Ideal, Injective;
    WholeExtended(names, stored, blobs, f);
    assert names.Bucket(batch) in blobs;
    InputsStored(names, blobs, f, batch);
    NamingInjective(names);
    BucketsConsistent(names, blobs);
    JobReads(NameBuckets(names), f.sequence, next, levels, batch, BucketsIn(blobs), i);
    JobDrops(NameBuckets(names), f.sequence, next, levels, batch, i);
  }

  lemma {:induction false} DestinationsFew(depth: nat, next: nat, i: nat)
    ensures |Destinations(depth, next, i)| <= i + 1
  {
    if i > 0 { DestinationsFew(depth, next, i - 1); }
  }

  lemma {:induction false} AllStored<D>(names: Naming<D>, blobs: map<D, Blob<D>>, next: nat, levels: seq<Level>, batch: Bucket, done: seq<D>)
    requires levels != []
    requires var d := Destinations(|levels|, next, |levels| - 1);
             && |done| == |d| && Bounded(d, |levels|)
             && (forall i: nat | i <= |levels| - 1 :: Frontiers.Names(d, i) <==> i == 0 || Schedule.ShouldSpill(|levels|, next, i - 1))
             && forall j | 0 <= j < |d| :: done[j] == Output(NameBuckets(names), next, levels, batch, d[j]) && done[j] in blobs
    ensures OutputsStored(names, blobs, next, levels, batch)
  {
    hide Output, Destinations, Schedule.ShouldSpill;
    var d := Destinations(|levels|, next, |levels| - 1);
    forall i: nat | i < |levels| && (i == 0 || Schedule.ShouldSpill(|levels|, next, i - 1))
      ensures Output(NameBuckets(names), next, levels, batch, i) in blobs
    {
      assert Frontiers.Names(d, i);
      var k :| 0 <= k < |d| && d[k] == i;
      assert done[k] in blobs;
    }
  }

  /** The job into level `i` has run: its output is stored under this name. */
  ghost predicate MergedInto<D>(names: Naming<D>, blobs: map<D, Blob<D>>, next: nat, levels: seq<Level>, batch: Bucket, i: nat, output: D) {
    i < |levels| && output == Output(NameBuckets(names), next, levels, batch, i) && output in blobs
  }

  /** Every job but the remaining ones has run. */
  ghost predicate MergedBut<D>(names: Naming<D>, blobs: map<D, Blob<D>>, next: nat, levels: seq<Level>, batch: Bucket,
                               d: seq<nat>, done: map<nat, D>, remaining: set<nat>) {
    forall j: nat | j < |d| && j !in remaining :: j in done && MergedInto(names, blobs, next, levels, batch, d[j], done[j])
  }

  /** The job indices still to run. */
  function UpTo(n: nat): (s: set<nat>)
    ensures |s| == n && forall j: nat :: j in s <==> j < n
  {
    if n == 0 then {} else UpTo(n - 1) + {n - 1}
  }

  lemma {:induction false} NothingMerged<D>(names: Naming<D>, blobs: map<D, Blob<D>>, next: nat, levels: seq<Level>, batch: Bucket, d: seq<nat>)
    ensures MergedBut(names, blobs, next, levels, batch, d, map[], UpTo(|d|))
  {
    hide UpTo;
  }

  lemma OneMoreMerged<D>(names: Naming<D>, a: map<D, Blob<D>>, b: map<D, Blob<D>>, next: nat, levels: seq<Level>, batch: Bucket,
                         d: seq<nat>, done: map<nat, D>, remaining: set<nat>, j: nat, output: D)
    requires Extends(a, b) && MergedBut(names, a, next, levels, batch, d, done, remaining)
    requires j < |d| && MergedInto(names, b, next, levels, batch, d[j], output)
    ensures MergedBut(names, b, next, levels, batch, d, done[j := output], remaining - {j})
  {
    hide Output;
  }

  /** The results of all jobs, by job index, are the outputs in plan order. */
  lemma AllMerged<D>(names: Naming<D>, blobs: map<D, Blob<D>>, next: nat, levels: seq<Level>, batch: Bucket, d: seq<nat>, done: map<nat, D>)
    requires MergedBut(names, blobs, next, levels, batch, d, done, {})
    ensures forall j: nat | j < |d| :: j in done
    ensures var outputs := InOrder(done, |d|);
            && |outputs| == |d| && Bounded(d, |levels|)
            && forall j | 0 <= j < |d| :: outputs[j] == Output(NameBuckets(names), next, levels, batch, d[j]) && outputs[j] in blobs
  {
    hide Output;
    forall j: nat | j < |d| ensures j in done && MergedInto(names, blobs, next, levels, batch, d[j], done[j]) { assert j !in {}; }
  }

  /** The rows kept of typed changes are typed. */
  lemma {:induction false} KeptTyped(typed: Record -> bool, base: Effects, changes: seq<Record>)
    requires Staging.Distinct(changes) && RowsTyped(typed, changes)
    ensures RowsTyped(typed, NormalForm(base, View(changes)))
  {
    hide NormalForm, View;
    forall i | 0 <= i < |NormalForm(base, View(changes))| ensures typed(NormalForm(base, View(changes))[i]) {
      NormalFormFrom(base, changes, i);
    }
  }

  lemma FinishedShadow<D(!new)>(names: Naming<D>, blobs: map<D, Blob<D>>, f: Frontier<D>, levels: seq<Level>, batch: Bucket, results: seq<D>)
    requires Addressed(names, blobs) && Whole(names, blobs, f) && levels == LevelsOf(blobs, f) && f.sequence < U64_LIMIT - 1
    requires var d := Destinations(|levels|, f.sequence + 1, |levels| - 1);
             && |results| == |d| && Bounded(d, |levels|)
             && forall j | 0 <= j < |d| :: results[j] == Output(NameBuckets(names), f.sequence + 1, levels, batch, d[j])
    ensures var plan := PlanOf(f.sequence + 1, f, names.Bucket(batch));
            && |results| == |plan.jobs| && Targets(plan.jobs, |plan.candidate.levels|)
            && plan.candidate.(levels := SetResults(plan.candidate.levels, plan.jobs, results))
               == Shadow(NameBuckets(names), f.sequence + 1, Step(f.sequence + 1, levels, batch))
  {
    hide Output, Destinations, Step, SetResults, Accepts, Addressed, JobFor, Shadow;
    var hash, next := NameBuckets(names), f.sequence + 1;
    ShadowOfLevels(names, blobs, f);
    var plan := PlanOf(next, f, names.Bucket(batch));
    var d := Destinations(|levels|, next, |levels| - 1);
    forall j | 0 <= j < |plan.jobs| ensures plan.jobs[j].level < |levels| { JobDrops(hash, f.sequence, next, levels, batch, d[j]); }
    CompletesStep(hash, f.sequence, levels, batch, results);
  }

  /** Without the terminal snapshot being empty no frontier is whole; with it the
      empty bucket is stored. */
  lemma StoredInputs<D(!new)>(names: Naming<D>, blobs: map<D, Blob<D>>, f: Frontier<D>)
    requires Ideal(names) && Addressed(names, blobs) && Present(blobs, f) && f.empty == names.Empty() && ValidDepth(|f.levels|)
    requires forall i | 0 <= i < |f.levels| :: Shape(f, i)
    ensures HasInputs(NameBuckets(names), BucketsIn(blobs), LevelsOf(blobs, f), Buckets.EMPTY)
    ensures f.empty in blobs && blobs[f.empty].BucketBlob?
  {
    hide Schedule.Half;
    var last := |f.levels| - 1;
    assert Shape(f, last) && LevelPresent(blobs, f.levels[last]);
    assert f.levels[last].snap == f.empty;
    var levels := LevelsOf(blobs, f);
    forall b: Bucket | Available(levels, Buckets.EMPTY, b) ensures NameBuckets(names)(b) in BucketsIn(blobs) {
      if b == Buckets.EMPTY {
        NameFound(names, blobs, b);
      } else {
        var i :| 0 <= i < |levels| && Holds(levels[i], b);
        assert LevelPresent(blobs, f.levels[i]);
        NamedBucket(names, blobs, f.levels[i].curr);
        NamedBucket(names, blobs, f.levels[i].snap);
        if f.levels[i].next.Some? { NamedBucket(names, blobs, f.levels[i].next.value); }
      }
    }
  }

  /** A whole frontier has the shape that hashes can show. */
  lemma ShapeNeeded<D(!new)>(names: Naming<D>, blobs: map<D, Blob<D>>, f: Frontier<D>)
    requires Addressed(names, blobs) && Present(blobs, f) && f.empty == names.Empty()
    requires exists i | 0 <= i < |f.levels| :: !Shape(f, i)
    ensures !Whole(names, blobs, f)
  {
    hide Schedule.Half;
    if Whole(names, blobs, f) {
      var i :| 0 <= i < |f.levels| && !Shape(f, i);
      assert AcceptsLevel(f.sequence, LevelsOf(blobs, f), i) && LevelPresent(blobs, f.levels[i]);
      NamedBucket(names, blobs, f.levels[i].curr);
      NamedBucket(names, blobs, f.levels[i].snap);
      assert false;
    }
  }

  lemma PinHeld<D>(names: Naming<D>, d: Disk<D>, i: nat)
    requires Sound(names, d) && i < |d.pins|
    ensures Holding(names, d.blobs, d.pins[i])
  {
  }

  lemma FewerTyped<D>(typed: Record -> bool, a: map<D, Blob<D>>, b: map<D, Blob<D>>)
    requires AllTyped(typed, a) && Extends(b, a)
    ensures AllTyped(typed, b)
  {
    hide RowsTyped;
  }

  lemma CollectedStep<D>(names: Naming<D>, d: Disk<D>, after: Disk<D>, retained: seq<Reference<D>>, all: set<D>)
    requires !d.poisoned && d.pending.None? && after == d.(blobs := after.blobs) && Extends(after.blobs, d.blobs)
    requires forall h | h in d.blobs && h in all :: h in after.blobs
    requires forall h | MustKeep(d, retained, h) :: h in all
    ensures Next(names, d, Action.Collect(retained), after)
  {
    hide MustKeep;
  }

  // ----- the owner ---------------------------------------------------------

  datatype OwnerError =
    | Poisoned | PreparedActive | SequenceExhausted | WrongAdvance | BatchTooLarge | MetadataTooLarge
    | StoreFailed | PublishFailed | ClosedPrepared | TooManyViews | InvalidReference | CommitmentMismatch | MissingManifest

  datatype Pinned<D> = Pinned(id: nat, reference: Reference<D>, frontier: Frontier<D>)

  datatype Limits = Limits(batchBytes: nat, batchChanges: nat, metadataBytes: nat, views: nat)

  /** The open views are the pinned versions, in order. */
  ghost predicate ViewsMatch<D>(views: seq<Pinned<D>>, pins: seq<Version<D>>, depth: nat) {
    && |views| == |pins|
    && forall i | 0 <= i < |views| ::
         views[i].reference == pins[i].reference && views[i].frontier == pins[i].frontier && |pins[i].frontier.levels| == depth
  }

  lemma ViewsWithout<D>(views: seq<Pinned<D>>, pins: seq<Version<D>>, depth: nat, i: nat)
    requires ViewsMatch(views, pins, depth) && i < |views|
    ensures i < |pins| && ViewsMatch(views[..i] + views[i + 1..], pins[..i] + pins[i + 1..], depth)
  {
  }

  /** No version carries more metadata than the owner reads back. */
  ghost predicate Metered<D>(limit: nat, d: Disk<D>) {
    && |d.durable.metadata| <= limit && |d.live.metadata| <= limit
    && (d.pending.Some? ==> |d.pending.value.metadata| <= limit)
    && forall i | 0 <= i < |d.pins| :: |d.pins[i].metadata| <= limit
  }

  /** Moving versions between roles meters nothing new. */
  lemma StillMetered<D>(limit: nat, d: Disk<D>, after: Disk<D>)
    requires Metered(limit, d) && (after.pins == d.pins || after.pins == [d.live] + d.pins)
    requires after.durable == d.durable || (d.pending.Some? && after.durable == d.pending.value)
    requires after.live == d.live || (d.pending.Some? && after.live == d.pending.value)
    requires after.pending == d.pending || after.pending.None?
    ensures Metered(limit, after)
  {
  }

  lemma NoViews<D>(depth: nat)
    ensures ViewsMatch<D>([], [], depth)
  {
  }

  /** The first view with this identity was at `i`, and only it is gone. */
  ghost predicate Unlinked<D>(was: seq<Pinned<D>>, now: seq<Pinned<D>>, id: nat, i: nat) {
    && i < |was| && was[i].id == id && (forall j | 0 <= j < i :: was[j].id != id)
    && now == was[..i] + was[i + 1..]
  }

  class Owner<D(==, !new)> {
    const names: Naming<D>
    const depth: nat
    const limits: Limits
    /** The schema's check of one stored row. */
    const typed: Record -> bool
    var blobs: map<D, Blob<D>>
    var catalog: Reference<D>
    var frontier: Frontier<D>
    var reference: Reference<D>
    var metadata: Bytes
    var preparedOpen: bool
    var poisoned: bool
    var views: seq<Pinned<D>>
    ghost var durable: Version<D>
    ghost var live: Version<D>
    ghost var pending: Option<Version<D>>
    ghost var pins: seq<Version<D>>

    ghost function State(): Disk<D>
      reads this
    {
      Disk(blobs, durable, live, pending, poisoned, pins)
    }

    ghost predicate Valid()
      reads this
    {
      && Ideal(names) && ValidDepth(depth) && Sound(names, State())
      && catalog == durable.reference && frontier == live.frontier && reference == live.reference && metadata == live.metadata
      && preparedOpen == pending.Some?
      && ViewsMatch(views, pins, depth)
      && |live.frontier.levels| == depth && |durable.frontier.levels| == depth && (pending.Some? ==> |pending.value.frontier.levels| == depth)
      && AllTyped(typed, blobs) && Metered(limits.metadataBytes, State())
    }

    /** An empty store, initialized: the empty bucket, the genesis manifest and a
        catalog naming it. */
    constructor Create(names: Naming<D>, depth: nat, limits: Limits, typed: Record -> bool)
      requires Ideal(names) && ValidDepth(depth)
      ensures Valid() && this.names == names && this.depth == depth && this.limits == limits && this.typed == typed
      ensures blobs.Keys == {names.Empty(), GenesisName(names, depth)}
      ensures live.history == [] && durable == live && pending.None? && !poisoned && pins == [] && metadata == []
    {
      var genesis := InitProfile(depth, names.Empty());
      var manifest := ManifestBlob(genesis, []);
      var stored: map<D, Blob<D>> := Put(names, Put(names, map[], BucketBlob(Buckets.EMPTY)), manifest);
      var ref := Reference(names.hash(manifest), names.commit(genesis));
      this.names, this.depth, this.limits, this.typed := names, depth, limits, typed;
      blobs, catalog, frontier, reference, metadata := stored, ref, genesis, ref, [];
      preparedOpen, poisoned, views := false, false, [];
      var first := Version(ref, genesis, [], []);
      durable, live, pending, pins := first, first, None, [];
      GenesisHolds(names, depth);
      new;
      NoViews<D>(depth);
    }

    /** Opens a directory that has no catalog. It may hold only what an interrupted
        initialization can have left, and the caller may not expect a database. */
    static method Initialize(names: Naming<D>, depth: nat, limits: Limits, typed: Record -> bool, found: set<D>, expected: Option<Reference<D>>)
      returns (owner: Result<Owner<D>, OwnerError>)
      requires Ideal(names) && ValidDepth(depth)
      ensures expected.Some? ==> owner == Err(CommitmentMismatch)
      ensures expected.None? && !(found <= {names.Empty(), GenesisName(names, depth)}) ==> owner == Err(MissingManifest)
      ensures expected.None? && found <= {names.Empty(), GenesisName(names, depth)} ==> owner.Ok?
      ensures owner.Ok? ==> fresh(owner.value) && owner.value.Valid() && owner.value.live.history == [] && found <= owner.value.blobs.Keys
    {
      if expected.Some? { return Err(CommitmentMismatch); }
      if !(found <= {names.Empty(), GenesisName(names, depth)}) { return Err(MissingManifest); }
      var created := new Owner.Create(names, depth, limits, typed);
      return Ok(created);
    }

    /** The value of a key in the live state: the youngest named bucket that has it. */
    method Read(k: Identity) returns (value: Option<Bytes>)
      requires Valid()
      ensures value == Get(LevelsOf(blobs, frontier), k) == ValueAt(LastWriter(live.history), k)
      ensures value.Some? ==> typed(Record(k.table, k.key, value))
    {
      hide LastWriter, Accepts, Run, AllTyped, ViewsMatch, Metered;
      VersionReads(names, blobs, live, k);
      PresentTyped(typed, blobs, frontier);
      if k in Visible(LevelsOf(blobs, frontier)) { VisibleRowTyped(typed, LevelsOf(blobs, frontier), 0, k); }
      value := ReadFrom(frontier, k);
    }

    method ReadFrom(f: Frontier<D>, k: Identity) returns (value: Option<Bytes>)
      requires Present(blobs, f)
      ensures value == Get(LevelsOf(blobs, f), k)
    {
      ghost var levels := LevelsOf(blobs, f);
      for i := 0 to |f.levels|
        invariant Get(levels, k) == ValueAt(VisibleFrom(levels, i), k)
      {
        assert LevelPresent(blobs, f.levels[i]);
        var found := Lookup(blobs[f.levels[i].curr].rows, k);
        if found.Some? { return found.value.value; }
        found := Lookup(blobs[f.levels[i].snap].rows, k);
        if found.Some? { return found.value.value; }
      }
      return None;
    }

    /** The batch and its metadata are within the owner's limits. */
    predicate Admits(changes: seq<Record>, meta: Bytes) {
      Frames.RowsSize(changes) <= limits.batchBytes && |changes| <= limits.batchChanges && |meta| <= limits.metadataBytes
    }

    /** Builds and stores everything an advance needs, leaving the live state alone.
        `writes` is how many blobs can still be written before the store fails. */
    method Prepare(next: U64, changes: seq<Record>, meta: Bytes, writes: nat) returns (made: Result<Prepared<D>, OwnerError>)
      requires Valid() && Staging.Distinct(changes) && RowsTyped(typed, changes)
      modifies this`blobs, this`preparedOpen, this`pending
      ensures Valid()
      ensures made.Err? ==> Next(names, old(State()), PrepareFails, State())
      ensures made.Ok? ==> Next(names, old(State()), Action.Prepare(View(changes)), State())
      ensures made.Ok? ==> fresh(made.value) && made.value.owner == this && made.value.Valid() && made.value.state.Some? && next == frontier.sequence + 1
      ensures made.Ok? ==> pending.value.metadata == meta
      ensures old(poisoned) ==> made == Err(Poisoned)
      ensures !old(poisoned) && old(preparedOpen) ==> made == Err(PreparedActive)
      ensures !old(poisoned) && !old(preparedOpen) && frontier.sequence < U64_LIMIT - 1 && next != frontier.sequence + 1 ==> made == Err(WrongAdvance)
      ensures !old(poisoned) && !old(preparedOpen) && next == frontier.sequence + 1 && Admits(changes, meta) && writes >= depth + 2 ==> made.Ok?
      ensures !old(poisoned) && !old(preparedOpen) && frontier.sequence == U64_LIMIT - 1 ==> made == Err(OwnerError.SequenceExhausted)
      ensures !old(poisoned) && !old(preparedOpen) && next == frontier.sequence + 1 && !Admits(changes, meta) ==>
                made == Err(if Frames.RowsSize(changes) > limits.batchBytes || |changes| > limits.batchChanges then BatchTooLarge else MetadataTooLarge)
    {
      hide Sound, Next, Ideal, ViewsMatch, AllTyped, Metered, ValidDepth, Frames.RowsSize, Staging.Distinct, RowsTyped, View;
      ghost var before := State();
      SoundParts(names, before);
      ExtendsSelf(blobs);
      FailedStep(names, before, before);
      if poisoned { return Err(Poisoned); }
      if preparedOpen { return Err(PreparedActive); }
      if frontier.sequence == U64_LIMIT - 1 { return Err(OwnerError.SequenceExhausted); }
      if next != frontier.sequence + 1 { return Err(WrongAdvance); }
      if Frames.RowsSize(changes) > limits.batchBytes || |changes| > limits.batchChanges { return Err(BatchTooLarge); }
      if |meta| > limits.metadataBytes { return Err(MetadataTooLarge); }
      made := Assemble(next, changes, meta, writes);
    }

    method Assemble(next: U64, changes: seq<Record>, meta: Bytes, writes: nat) returns (made: Result<Prepared<D>, OwnerError>)
      requires Valid() && Staging.Distinct(changes) && RowsTyped(typed, changes)
      requires !poisoned && !preparedOpen && frontier.sequence < U64_LIMIT - 1 && next == frontier.sequence + 1 && |meta| <= limits.metadataBytes
      modifies this`blobs, this`preparedOpen, this`pending
      ensures Valid()
      ensures made.Err? ==> made == Err(StoreFailed) && writes < depth + 2 && Next(names, old(State()), PrepareFails, State())
      ensures made.Ok? ==> Next(names, old(State()), Action.Prepare(View(changes)), State())
      ensures made.Ok? ==> fresh(made.value) && made.value.owner == this && made.value.Valid() && made.value.state.Some?
      ensures made.Ok? ==> pending.value.metadata == meta
    {
      hide Accepts, Run, View, Visible, NormalForm, Step, Sound, OutputsStored, Next, Holding, Addressed, Ideal;
      hide Extends, Shadow, Staging.Distinct, RowsTyped, AllTyped, Whole, Loads, LevelsOf, ViewsMatch, ValidDepth;
      ghost var before := State();
      SoundParts(names, before);
      WholeParts(names, blobs, frontier);
      var levels := LevelsOf(blobs, frontier);
      var kept := NormalizeAgainst(levels, changes);
      KeptTyped(typed, Visible(levels), changes);
      var built := Build(next, kept, writes, levels);
      FailedStep(names, before, State());
      if built.None? { return Err(StoreFailed); }
      ghost var grown := blobs;
      var manifest := ManifestBlob(built.value, meta);
      var ref := Reference(names.hash(manifest), names.commit(built.value));
      StoreBlob(manifest);
      preparedOpen := true;
      pending := Some(Version(ref, built.value, meta, live.history + [kept]));
      BuiltStep(names, before, grown, View(changes), kept, State());
      var prepared := new Prepared(this, built.value, meta, ref);
      return Ok(prepared);
    }

    /** Stores the batch, plans the advance, runs its merges and completes the
        frontier; one write stays reserved for the manifest. */
    method Build(next: U64, kept: Bucket, writes: nat, ghost levels: seq<Level>) returns (state: Option<Frontier<D>>)
      requires Ideal(names) && Addressed(names, blobs) && Whole(names, blobs, frontier) && levels == LevelsOf(blobs, frontier)
      requires frontier.sequence < U64_LIMIT - 1 && next == frontier.sequence + 1
      requires AllTyped(typed, blobs) && RowsTyped(typed, kept)
      modifies this`blobs
      ensures Addressed(names, blobs) && Extends(old(blobs), blobs) && AllTyped(typed, blobs)
      ensures writes >= |levels| + 2 ==> state.Some?
      ensures state.Some? ==> names.Bucket(kept) in blobs && OutputsStored(names, blobs, next, levels, kept)
      ensures state.Some? ==> state.value == Shadow(NameBuckets(names), next, Step(next, levels, kept))
    {
      hide Accepts, Step, Shadow, OutputsStored, Addressed, Ideal, Output, Destinations, PlanOf, SetResults;
      ExtendsSelf(blobs);
      WholeParts(names, blobs, frontier);
      if writes == 0 { return None; }
      ghost var before := blobs;
      StoreBlob(BucketBlob(kept));
      WholeExtended(names, before, blobs, frontier);
      var plan := MakePlan(frontier, next, names.Bucket(kept));
      ghost var stored := blobs;
      var results := RunMerges(plan.value, next, writes - 1, levels, kept);
      ExtendsChain(before, stored, blobs);
      if results.None? || writes < |plan.value.jobs| + 2 { return None; }
      WholeExtended(names, before, blobs, frontier);
      FinishedShadow(names, blobs, frontier, levels, kept, results.value);
      var finished := Finish(plan.value, results.value);
      return Some(finished.value);
    }

    method NormalizeAgainst(levels: seq<Level>, changes: seq<Record>) returns (kept: Bucket)
      requires Staging.Distinct(changes)
      ensures kept == NormalForm(Visible(levels), View(changes))
    {
      hide View, Visible, NormalForm;
      Slots.SlotsResolve(levels, 0);
      kept := Normalize(changes, Slots.SlotsOf(levels));
      VisibleIs(levels);
    }

    lemma {:induction false} VisibleIs(levels: seq<Level>)
      ensures Visible(levels) == VisibleFrom(levels, 0)
    {
    }

    method StoreBlob(blob: Blob<D>)
      requires Ideal(names) && Addressed(names, blobs) && AllTyped(typed, blobs) && (blob.BucketBlob? ==> RowsTyped(typed, blob.rows))
      modifies this`blobs
      ensures AllTyped(typed, blobs)
      ensures Addressed(names, blobs) && Extends(old(blobs), blobs) && names.hash(blob) in blobs && blobs[names.hash(blob)] == blob
    {
      PutKeeps(names, blobs, blob);
      PutTyped(typed, names, blobs, blob);
      blobs := Put(names, blobs, blob);
    }

    /** Runs the planned merges, each reading its two inputs from the store and
        storing its output. Which job finishes next is left open: workers run
        concurrently, and their order cannot matter. */
    method RunMerges(plan: Plan<D>, next: U64, writes: nat, ghost levels: seq<Level>, ghost batch: Bucket) returns (results: Option<seq<D>>)
      requires Ideal(names) && Addressed(names, blobs) && Whole(names, blobs, frontier) && levels == LevelsOf(blobs, frontier)
      requires names.Bucket(batch) in blobs && frontier.sequence < U64_LIMIT - 1 && next == frontier.sequence + 1
      requires plan == PlanOf(next, frontier, names.Bucket(batch)) && AllTyped(typed, blobs)
      modifies this`blobs
      ensures Addressed(names, blobs) && Extends(old(blobs), blobs) && AllTyped(typed, blobs)
      ensures |plan.jobs| <= |levels| && (writes >= |plan.jobs| <==> results.Some?)
      ensures results.Some? ==> OutputsStored(names, blobs, next, levels, batch)
      ensures results.Some? ==> var d := Destinations(|levels|, next, |levels| - 1);
                && |results.value| == |d| == |plan.jobs| && Bounded(d, |levels|)
                && forall j | 0 <= j < |d| :: results.value[j] == Output(NameBuckets(names), next, levels, batch, d[j])
    {
      hide Accepts, Addressed, Ideal, Output, JobFor, Destinations, Schedule.ShouldSpill, Names, Whole, Extends, AllTyped, MergedInto, MergedBut, Shadow, UpTo, InOrder;
      WholeParts(names, blobs, frontier);
      ghost var d := Destinations(|levels|, next, |levels| - 1);
      ghost var stored := blobs;
      DestinationsAre(|levels|, next, |levels| - 1);
      DestinationsFew(|levels|, next, |levels| - 1);
      ShadowOfLevels(names, blobs, frontier);
      ExtendsSelf(blobs);
      NothingMerged(names, blobs, next, levels, batch, d);
      var done: map<nat, D> := map[];
      var remaining := UpTo(|plan.jobs|);
      var used := 0;
      while remaining != {}
        invariant Addressed(names, blobs) && Extends(stored, blobs) && AllTyped(typed, blobs)
        invariant forall j: nat | j in remaining :: j < |plan.jobs|
        invariant used + |remaining| == |plan.jobs| && used <= writes
        invariant MergedBut(names, blobs, next, levels, batch, d, done, remaining)
        decreases |remaining|
      {
        var j :| j in remaining;
        if used >= writes { return None; }
        ghost var here := blobs;
        var output := RunJob(plan.jobs[j], next, stored, levels, batch, d[j]);
        ExtendsChain(stored, here, blobs);
        OneMoreMerged(names, here, blobs, next, levels, batch, d, done, remaining, j, output);
        done := done[j := output];
        remaining := remaining - {j};
        used := used + 1;
      }
      AllMerged(names, blobs, next, levels, batch, d, done);
      var outputs := InOrder(done, |plan.jobs|);
      AllStored(names, blobs, next, levels, batch, outputs);
      return Some(outputs);
    }

    method RunJob(job: Job<D>, next: U64, ghost stored: map<D, Blob<D>>, ghost levels: seq<Level>, ghost batch: Bucket, ghost i: nat) returns (output: D)
      requires Ideal(names) && Addressed(names, blobs) && AllTyped(typed, blobs)
      requires Extends(stored, blobs) && Whole(names, stored, frontier) && levels == LevelsOf(stored, frontier)
      requires names.Bucket(batch) in stored && i < |levels| && Shadow(NameBuckets(names), frontier.sequence, levels) == frontier
      requires job == JobFor(next, frontier, names.Bucket(batch), i)
      modifies this`blobs
      ensures Addressed(names, blobs) && Extends(old(blobs), blobs) && AllTyped(typed, blobs)
      ensures MergedInto(names, blobs, next, levels, batch, i, output)
    {
      hide Accepts, Addressed, Ideal, Output, JobFor, Merge, Whole, Extends, Shadow, RowsTyped;
      JobReady(names, stored, blobs, frontier, next, levels, batch, i);
      var merged := MergeBuckets(blobs[job.older].rows, blobs[job.newer].rows, job.dropTombstones);
      MergeTyped(typed, blobs[job.older].rows, blobs[job.newer].rows, job.dropTombstones);
      StoreBlob(BucketBlob(merged));
      output := names.Bucket(merged);
    }

    /** Replaces the catalog, and on success makes the version live. */
    method Settle(outcome: Outcome, ghost v: Version<D>, state: Frontier<D>, meta: Bytes, ref: Reference<D>)
      requires Valid() && !poisoned && pending == Some(v) && v.frontier == state && v.metadata == meta && v.reference == ref
      modifies this`catalog, this`durable, this`poisoned, this`metadata, this`reference, this`frontier, this`live, this`preparedOpen, this`pending
      ensures Valid() && Next(names, old(State()), Publish(outcome), State())
      ensures outcome != Published ==> poisoned && preparedOpen && pending == Some(v)
    {
      hide Sound, Next, Ideal, ViewsMatch, AllTyped, Metered, ValidDepth;
      ghost var before := State();
      match outcome {
        case Published =>
          catalog, metadata, reference, frontier, preparedOpen := ref, meta, ref, state, false;
          durable, live, pending := v, v, None;
        case LostBefore =>
          poisoned := true;
        case LostAfter =>
          catalog, durable, poisoned := ref, v, true;
      }
      PublishedStep(names, before, outcome, State());
      StillMetered(limits.metadataBytes, before, State());
    }

    /** Releases an abandoned preparation. */
    method Release()
      requires Valid() && preparedOpen
      modifies this`preparedOpen, this`pending
      ensures Valid() && Next(names, old(State()), Abort, State())
    {
      hide Sound, Next, Ideal, ViewsMatch;
      preparedOpen := false;
      pending := None;
      AbortedStep(names, old(State()), State());
    }

    /** Pins the live frontier until the view is closed. */
    method OpenView(id: nat) returns (view: Result<Pinned<D>, OwnerError>)
      requires Valid()
      modifies this`views, this`pins
      ensures Valid()
      ensures view.Err? <==> |old(views)| >= limits.views
      ensures view.Err? ==> view == Err(TooManyViews) && State() == old(State()) && views == old(views)
      ensures view.Ok? ==> Next(names, old(State()), Pin, State()) && view.value == Pinned(id, reference, frontier) && views == [view.value] + old(views)
    {
      hide Sound, Next, Ideal;
      if |views| >= limits.views { return Err(TooManyViews); }
      var pinned := Pinned(id, reference, frontier);
      views := [pinned] + views;
      pins := [live] + pins;
      ViewStep(names, old(State()), State());
      return Ok(pinned);
    }

    /** Unlinks the first view with this identity. */
    method CloseView(id: nat)
      requires Valid() && exists i :: 0 <= i < |views| && views[i].id == id
      modifies this`views, this`pins
      ensures Valid() && exists i: nat :: Unlinked(old(views), views, id, i) && Next(names, old(State()), Unpin(i), State())
    {
      hide Sound, Next, Ideal, ViewsMatch;
      var i := 0;
      while views[i].id != id
        invariant 0 <= i < |views| && views == old(views) && pins == old(pins)
        invariant exists j :: i <= j < |views| && views[j].id == id
        invariant forall j | 0 <= j < i :: views[j].id != id
        decreases |views| - i
      {
        i := i + 1;
      }
      ViewsWithout(views, pins, depth, i);
      views := views[..i] + views[i + 1..];
      pins := pins[..i] + pins[i + 1..];
      assert Unlinked(old(views), views, id, i);
      UnviewStep(names, old(State()), i, State());
    }

    /** Loads a reference and validates everything it names. It succeeds exactly
        when the reference is usable from the store. */
    method Load(ref: Reference<D>) returns (loaded: Option<(Frontier<D>, Bytes)>)
      requires Ideal(names) && Addressed(names, blobs) && ValidDepth(depth)
      ensures loaded.Some? ==> Usable(ref, loaded.value.0, loaded.value.1)
      ensures loaded.Some? ==>
                var (f, m) := loaded.value;
                && ref.manifest in blobs && blobs[ref.manifest] == ManifestBlob(f, m) && names.commit(f) == ref.digest
                && |f.levels| == depth && |m| <= limits.metadataBytes && Reached(f.sequence, LevelsOf(blobs, f))
                && forall i | 0 <= i < depth :: forall r | r in LevelsOf(blobs, f)[i].curr || r in LevelsOf(blobs, f)[i].snap :: typed(r)
      ensures loaded.None? ==> forall f, m :: !Usable(ref, f, m)
    {
      hide Whole, FrontierTyped;
      if ref.manifest !in blobs || !blobs[ref.manifest].ManifestBlob? { return None; }
      var f, meta := blobs[ref.manifest].frontier, blobs[ref.manifest].metadata;
      if |f.levels| != depth || f.empty != names.Empty() || |meta| > limits.metadataBytes || names.commit(f) != ref.digest {
        if f.empty != names.Empty() { WholeProfile(names, blobs, f); }
        return None;
      }
      var ok := Validate(f);
      if !ok { return None; }
      FrontierRows(typed, blobs, f);
      return Some((f, meta));
    }

    /** Shape, presence of every named bucket, rows that pass the schema's check, a
        tombstone-free terminal bucket, and every pending output recomputed from its
        inputs. */
    method Validate(f: Frontier<D>) returns (ok: bool)
      requires Ideal(names) && Addressed(names, blobs) && ValidDepth(|f.levels|) && f.empty == names.Empty()
      ensures ok <==> Whole(names, blobs, f) && FrontierTyped(typed, blobs, f)
      ensures ok ==> Reached(f.sequence, LevelsOf(blobs, f))
    {
      hide Reached, Accepts, Shape, PendingChecks, LevelChecks, Addressed, Ideal, ValidDepth, HasInputs, Injective, LevelTyped;
      var shaped := ValidateShape(f);
      for i := 0 to |f.levels|
        invariant forall j | 0 <= j < i :: LevelPresent(blobs, f.levels[j])
      {
        if !LevelPresent(blobs, f.levels[i]) { return false; }
      }
      ghost var levels := LevelsOf(blobs, f);
      ShadowOfLevels(names, blobs, f);
      if !shaped {
        ShapeNeeded(names, blobs, f);
        return false;
      }
      for i := 0 to |f.levels|
        invariant forall j: nat | j < i :: LevelTyped(typed, levels[j])
      {
        ok := CheckLevelRows(f.levels[i]);
        if !ok { return false; }
      }
      StoredInputs(names, blobs, f);
      NamingInjective(names);
      BucketsConsistent(names, blobs);
      ShapeAndJobsAreAcceptance(NameBuckets(names), BucketsIn(blobs), f.sequence, levels);
      for i := 0 to |f.levels|
        invariant forall j: nat | j < i :: LevelChecks(NameBuckets(names), BucketsIn(blobs), f.sequence, levels, j)
      {
        ok := ValidateLevel(f, i);
        if !ok { return false; }
      }
      WholeIsReached(names, blobs, f);
      return true;
    }

    method CheckLevelRows(level: HashLevel<D>) returns (ok: bool)
      requires LevelPresent(blobs, level)
      ensures ok <==> LevelTyped(typed, LevelOf(blobs, level))
    {
      hide RowsTyped;
      ok := CheckRows(blobs[level.curr].rows);
      if !ok { return; }
      ok := CheckRows(blobs[level.snap].rows);
      if !ok || level.next.None? { return; }
      ok := CheckRows(blobs[level.next.value].rows);
    }

    method CheckRows(rows: Bucket) returns (ok: bool)
      ensures ok <==> RowsTyped(typed, rows)
    {
      for i := 0 to |rows|
        invariant forall j | 0 <= j < i :: typed(rows[j])
      {
        if !typed(rows[i]) { return false; }
      }
      return true;
    }

    method ValidateLevel(f: Frontier<D>, i: nat) returns (ok: bool)
      requires Addressed(names, blobs) && Present(blobs, f) && f.empty == names.Empty() && i < |f.levels| && Shape(f, i)
      requires f.empty in blobs && blobs[f.empty].BucketBlob?
      ensures ok <==> LevelChecks(NameBuckets(names), BucketsIn(blobs), f.sequence, LevelsOf(blobs, f), i)
    {
      hide Shape, Schedule.Half, Schedule.MergeWithEmpty, Merge, Addressed;
      ShadowOfLevels(names, blobs, f);
      assert LevelPresent(blobs, f.levels[i]) && (i > 0 ==> LevelPresent(blobs, f.levels[i - 1]));
      if i + 1 == |f.levels| {
        var rows := blobs[f.levels[i].curr].rows;
        for r := 0 to |rows|
          invariant forall j | 0 <= j < r :: rows[j].value.Some?
        {
          if rows[r].value.None? {
            assert rows[r] in LevelsOf(blobs, f)[i].curr;
            return false;
          }
        }
      }
      var job := PendingJob(f, i);
      if job.Some? {
        var merged := MergeBuckets(blobs[job.value.older].rows, blobs[job.value.newer].rows, job.value.dropTombstones);
        if Some(names.Bucket(merged)) != f.levels[i].next { return false; }
      }
      return true;
    }

    /** The reference names this frontier and metadata, and all of it passes. */
    ghost predicate Usable(ref: Reference<D>, f: Frontier<D>, m: Bytes)
      reads this`blobs
    {
      Loads(names, blobs, ref, f, m) && |f.levels| == depth && |m| <= limits.metadataBytes && FrontierTyped(typed, blobs, f)
    }

    ghost predicate Loadable(ref: Reference<D>)
      reads this`blobs
    {
      exists f, m :: Usable(ref, f, m)
    }

    /** What an owner holds it can load again. */
    lemma HeldIsUsable(v: Version<D>)
      requires Holding(names, blobs, v) && AllTyped(typed, blobs) && |v.frontier.levels| == depth && |v.metadata| <= limits.metadataBytes
      ensures Usable(v.reference, v.frontier, v.metadata) && Loadable(v.reference)
    {
      hide Accepts, AllTyped, FrontierTyped, Run;
      PresentTyped(typed, blobs, v.frontier);
    }

    lemma UsableOnce(ref: Reference<D>, f: Frontier<D>, m: Bytes, g: Frontier<D>, n: Bytes)
      requires Usable(ref, f, m) && Usable(ref, g, n)
      ensures f == g && m == n
    {
      hide Whole, FrontierTyped;
    }

    /** Keeps what the live catalog, every open view and every given reference
        reach, deletes all the rest and counts it. Nothing is deleted unless every
        one of those references loads. A store that fails has by then deleted some
        of the rest, given by `failed`, and nothing else. */
    method Collect(retained: seq<Reference<D>>, failed: Option<set<D>>) returns (collected: Result<nat, OwnerError>)
      requires Valid()
      modifies this`blobs
      ensures Valid()
      ensures collected.Ok? ==> collected.value == |old(blobs).Keys - blobs.Keys|
      ensures collected.Ok? ==> forall h | h in old(blobs) :: h in blobs <==> MustKeep(old(State()), retained, h)
      ensures collected == Err(StoreFailed) ==> failed.Some? && forall h | h in old(blobs) ::
                h in blobs <==> h !in failed.value || MustKeep(old(State()), retained, h)
      ensures collected.Ok? || collected == Err(StoreFailed) ==> Next(names, old(State()), Action.Collect(retained), State())
      ensures collected.Err? && collected != Err(StoreFailed) ==> State() == old(State())
      ensures old(poisoned) ==> collected == Err(Poisoned)
      ensures !old(poisoned) && old(preparedOpen) ==> collected == Err(PreparedActive)
      ensures !old(poisoned) && !old(preparedOpen) ==>
                (collected == Err(InvalidReference) <==> exists i :: 0 <= i < |retained| && !old(Loadable(retained[i])))
      ensures collected.Ok? ==> failed.None?
    {
      hide Retains, Sound, Next, Ideal, Loadable, AllTyped, Metered, ViewsMatch, ValidDepth, MustKeep, Extends;
      if poisoned { return Err(Poisoned); }
      if preparedOpen { return Err(PreparedActive); }
      ghost var before := State();
      var kept := ReachableFromAll(retained);
      if kept.None? { return Err(InvalidReference); }
      var gone := Sweep(kept.value, failed);
      CollectedStep(names, before, State(), retained, kept.value);
      StepSound(names, before, Action.Collect(retained), State());
      FewerTyped(typed, before.blobs, blobs);
      StillMetered(limits.metadataBytes, before, State());
      if failed.Some? { return Err(StoreFailed); }
      return Ok(gone);
    }

    /** Deletes and counts the blobs outside a set, as far as the store gets. */
    method Sweep(kept: set<D>, failed: Option<set<D>>) returns (gone: nat)
      modifies this`blobs
      ensures Extends(blobs, old(blobs)) && gone == |old(blobs).Keys - blobs.Keys|
      ensures forall h | h in old(blobs) :: h in blobs <==> h in kept || (failed.Some? && h !in failed.value)
    {
      var unreached := set h | h in blobs && h !in kept && (failed.None? || h in failed.value);
      blobs := map h | h in blobs && h !in unreached :: blobs[h];
      assert old(blobs).Keys - blobs.Keys == unreached;
      return |unreached|;
    }

    /** Exactly what the live reference, the open views and the given references
        reach, if all of them load. */
    method ReachableFromAll(retained: seq<Reference<D>>) returns (all: Option<set<D>>)
      requires Valid()
      ensures all.Some? <==> forall i | 0 <= i < |retained| :: Loadable(retained[i])
      ensures all.Some? ==> forall h :: h in all.value <==> MustKeep(State(), retained, h)
    {
      hide Holding, Loads, Retains, Addressed, Sound, Next, Ideal, Loadable, Usable, AllTyped;
      SoundParts(names, State());
      HeldIsUsable(live);
      var reachable := ReachableFrom(reference);
      var found := reachable.value;
      for i := 0 to |views|
        invariant forall h | Retains(blobs, reference, h) :: h in found
        invariant forall j | 0 <= j < i :: forall h | Retains(blobs, pins[j].reference, h) :: h in found
        invariant forall h | h in found :: MustKeep(State(), retained, h)
      {
        PinHeld(names, State(), i);
        HeldIsUsable(pins[i]);
        var more := ReachableFrom(views[i].reference);
        found := found + more.value;
      }
      for i := 0 to |retained|
        invariant forall h | Retains(blobs, reference, h) :: h in found
        invariant forall j | 0 <= j < |pins| :: forall h | Retains(blobs, pins[j].reference, h) :: h in found
        invariant forall j | 0 <= j < i :: forall h | Retains(blobs, retained[j], h) :: h in found
        invariant forall j | 0 <= j < i :: Loadable(retained[j])
        invariant forall h | h in found :: MustKeep(State(), retained, h)
      {
        var more := ReachableFrom(retained[i]);
        if more.None? { return None; }
        found := found + more.value;
      }
      return Some(found);
    }

    method ReachableFrom(ref: Reference<D>) returns (all: Option<set<D>>)
      requires Ideal(names) && Addressed(names, blobs) && ValidDepth(depth)
      ensures all.Some? ==> forall h :: h in all.value <==> Retains(blobs, ref, h)
      ensures all.Some? <==> Loadable(ref)
    {
      hide Whole, Addressed, Ideal, LevelsOf, Reached, FrontierTyped;
      var loaded := Load(ref);
      if loaded.None? { return None; }
      var f := loaded.value.0;
      var found := {ref.manifest};
      for i := 0 to |f.levels|
        invariant ref.manifest in found
        invariant forall j, h | 0 <= j < i && InLevel(f.levels[j], h) :: h in found
        invariant forall h | h in found :: Reaches(ref, f, h)
      {
        found := found + {f.levels[i].curr, f.levels[i].snap};
        if f.levels[i].next.Some? { found := found + {f.levels[i].next.value}; }
      }
      return Some(found);
    }

    /** A new process opens the store: the old owner's memory is gone, and whatever
        the catalog names is loaded, if it passes and is what the caller expects.
        From the store of a valid owner it always passes. */
    method Reopen(expected: Option<Reference<D>>) returns (state: Option<(Frontier<D>, Bytes)>)
      requires Ideal(names) && Addressed(names, blobs) && ValidDepth(depth)
      modifies this`frontier, this`metadata, this`reference, this`preparedOpen, this`poisoned, this`views, this`live, this`pending, this`pins
      ensures state.Some? <==> (expected.None? || expected == Some(catalog)) && Loadable(catalog)
      ensures state.Some? ==> state == Some((frontier, metadata)) && reference == catalog && Usable(catalog, frontier, metadata)
      ensures state.None? ==> State() == old(State()) && frontier == old(frontier) && reference == old(reference) && metadata == old(metadata)
      ensures old(Valid()) ==> Loadable(catalog) && Valid() && (state.Some? ==> Next(names, old(State()), Action.Reopen, State()))
    {
      hide Valid, Usable, Sound, Next, Ideal, Addressed, ViewsMatch, AllTyped, Metered, ValidDepth;
      ghost var sound := Valid();
      if sound {
        ValidParts();
        CatalogUsable();
      }
      if expected.Some? && expected.value != catalog { return None; }
      state := Load(catalog);
      if state.None? { return; }
      if sound { UsableOnce(catalog, durable.frontier, durable.metadata, state.value.0, state.value.1); }
      ghost var before := State();
      Adopt(state.value.0, state.value.1);
      if sound { ForgottenIsValid(before); }
    }

    /** Forgets the old owner's memory in favour of what the catalog names. */
    method Adopt(f: Frontier<D>, m: Bytes)
      modifies this`frontier, this`metadata, this`reference, this`preparedOpen, this`poisoned, this`views, this`live, this`pending, this`pins
      ensures State() == Disk(blobs, durable, durable, None, false, [])
      ensures frontier == f && metadata == m && reference == catalog && !preparedOpen && views == []
    {
      frontier, metadata, reference := f, m, catalog;
      preparedOpen, poisoned, views := false, false, [];
      live, pending, pins := durable, None, [];
    }

    lemma ForgottenIsValid(before: Disk<D>)
      requires Ideal(names) && ValidDepth(depth) && AllTyped(typed, blobs) && Sound(names, before) && Metered(limits.metadataBytes, before)
      requires State() == Disk(before.blobs, before.durable, before.durable, None, false, [])
      requires catalog == durable.reference && frontier == durable.frontier && metadata == durable.metadata && reference == catalog
      requires !preparedOpen && views == [] && |durable.frontier.levels| == depth
      ensures Valid() && Next(names, before, Action.Reopen, State())
    {
      hide Sound, Ideal, AllTyped, ViewsMatch, Next, ValidDepth;
      NoViews<D>(depth);
      ReopenedStep(names, before, State());
    }

    lemma ValidParts()
      requires Valid()
      ensures Ideal(names) && ValidDepth(depth) && AllTyped(typed, blobs) && Sound(names, State()) && Metered(limits.metadataBytes, State())
      ensures catalog == durable.reference && |durable.frontier.levels| == depth
    {
      hide Sound, Ideal, AllTyped, ViewsMatch, ValidDepth, Metered;
    }

    lemma CatalogUsable()
      requires Valid()
      ensures Loadable(catalog) && Usable(catalog, durable.frontier, durable.metadata)
    {
      hide Addressed, Ideal, Accepts, AllTyped, Usable, Loadable, ViewsMatch;
      SoundParts(names, State());
      HeldIsUsable(durable);
    }
  }

  /** An unpublished advance. At most one is open per owner. */
  class Prepared<D(==, !new)> {
    const owner: Owner<D>
    const meta: Bytes
    const ref: Reference<D>
    var state: Option<Frontier<D>>

    constructor (owner: Owner<D>, state: Frontier<D>, meta: Bytes, ref: Reference<D>)
      ensures this.owner == owner && this.state == Some(state) && this.meta == meta && this.ref == ref
    {
      this.owner, this.state, this.meta, this.ref := owner, Some(state), meta, ref;
    }

    ghost predicate Valid()
      reads this, owner
    {
      state.Some? ==>
        && owner.preparedOpen && owner.pending.Some?
        && owner.pending.value.frontier == state.value && owner.pending.value.metadata == meta && owner.pending.value.reference == ref
    }

    /** Publication precedes visibility. A failed publication poisons the owner,
        whichever catalog it left behind. */
    method Commit(outcome: Outcome) returns (result: Result<(), OwnerError>)
      requires Valid() && owner.Valid()
      modifies this`state, owner
      ensures Valid() && owner.Valid()
      ensures old(owner.poisoned) ==> result == Err(Poisoned) && owner.State() == old(owner.State()) && state == old(state)
      ensures !old(owner.poisoned) && old(state.None?) ==> result == Err(ClosedPrepared) && owner.State() == old(owner.State())
      ensures !old(owner.poisoned) && old(state.Some?) ==>
                && Next(owner.names, old(owner.State()), Publish(outcome), owner.State())
                && (result.Ok? <==> outcome == Published) && state == (if result.Ok? then None else old(state))
    {
      hide Sound, Next, Ideal, ViewsMatch;
      if owner.poisoned { return Err(Poisoned); }
      if state.None? { return Err(ClosedPrepared); }
      owner.Settle(outcome, owner.pending.value, state.value, meta, ref);
      if outcome != Published { return Err(PublishFailed); }
      state := None;
      return Ok(());
    }

    /** Dropping an uncommitted preparation reopens the owner to the next one. */
    method Discard()
      requires Valid() && owner.Valid()
      modifies this`state, owner`preparedOpen, owner`pending
      ensures Valid() && owner.Valid() && state.None?
      ensures if old(state.Some?) then Next(owner.names, old(owner.State()), Abort, owner.State()) else owner.State() == old(owner.State())
    {
      hide Sound, Next, Ideal, ViewsMatch;
      if state.Some? {
        owner.Release();
        state := None;
      }
    }
  }
}
