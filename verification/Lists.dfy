/** The factor-four bucket list with delayed promotion (src/list.zig): levels,
    the topology `validate` accepts, one advance, and reads. The object that holds
    them is in `Engines`. */
module Lists {
  import opened Wire
  import opened Buckets
  import opened Schedule

  /** `next` is a scheduled merge output that reads do not see yet; an empty
      output is still a scheduled one. */
  datatype Level = Level(curr: Bucket, snap: Bucket, next: Option<Bucket>)

  const EMPTY_LEVEL := Level(EMPTY, EMPTY, None)

  predicate ValidDepth(depth: nat) { 1 <= depth <= MAX_DEPTH }

  function Genesis(depth: nat): (levels: seq<Level>)
    ensures |levels| == depth && forall i | 0 <= i < depth :: levels[i] == EMPTY_LEVEL
  {
    seq(depth, _ => EMPTY_LEVEL)
  }

  // ----- what reads see ----------------------------------------------------

  /** The effects visible from level `i` down: current over snapshot over all
      older levels. Pending outputs are not visible. */
  function VisibleFrom(levels: seq<Level>, i: nat): Effects
    requires i <= |levels|
    decreases |levels| - i
  {
    if i == |levels| then map[]
    else VisibleFrom(levels, i + 1) + View(levels[i].snap) + View(levels[i].curr)
  }

  function Visible(levels: seq<Level>): Effects { VisibleFrom(levels, 0) }

  function Get(levels: seq<Level>, k: Identity): Option<Bytes> { ValueAt(Visible(levels), k) }

  // ----- the accepted topology ---------------------------------------------

  /** The output scheduled into level `i` by its inputs at sequence `n`. */
  function Scheduled(n: nat, levels: seq<Level>, i: nat): Bucket
    requires 0 < i < |levels|
  {
    var older := if MergeWithEmpty(|levels|, n, i) then EMPTY else levels[i].curr;
    Merge(older, levels[i - 1].snap, i + 1 == |levels|)
  }

  predicate UntouchedCurrent(n: nat, i: nat) { n == 0 || (i > 0 && n < 2 * Half(i - 1)) }

  predicate UntouchedSnapshot(depth: nat, n: nat, i: nat) { i + 1 == depth || n < Half(i) }

  predicate HasPending(n: nat, i: nat) { i != 0 && n >= Half(i - 1) }

  ghost predicate ShapedLevel(n: nat, levels: seq<Level>, i: nat)
    requires i < |levels|
  {
    var level := levels[i];
    && (UntouchedCurrent(n, i) ==> level.curr == EMPTY)
    && (UntouchedSnapshot(|levels|, n, i) ==> level.snap == EMPTY)
    && (level.next.Some? <==> HasPending(n, i))
    && (i + 1 == |levels| ==> forall r | r in level.curr :: r.value.Some?)
  }

  ghost predicate AcceptsLevel(n: nat, levels: seq<Level>, i: nat)
    requires i < |levels|
  {
    ShapedLevel(n, levels, i) && (levels[i].next.Some? ==> levels[i].next.value == Scheduled(n, levels, i))
  }

  /** What `validate` accepts at sequence `n`, when hashes identify buckets. */
  ghost predicate Accepts(n: nat, levels: seq<Level>) {
    forall i | 0 <= i < |levels| :: AcceptsLevel(n, levels, i)
  }

  /** The checks `validate` makes: it compares pending outputs by hash. */
  ghost predicate ChecksLevel<D>(hash: Bucket -> D, n: nat, levels: seq<Level>, i: nat)
    requires i < |levels|
  {
    ShapedLevel(n, levels, i) && (levels[i].next.Some? ==> hash(levels[i].next.value) == hash(Scheduled(n, levels, i)))
  }

  ghost predicate Checks<D>(hash: Bucket -> D, n: nat, levels: seq<Level>) {
    forall i | 0 <= i < |levels| :: ChecksLevel(hash, n, levels, i)
  }

  /** Pending outputs carry no state of their own: an accepted list is determined
      by its sequence and its visible buckets. */
  lemma PendingDetermined(n: nat, a: seq<Level>, b: seq<Level>)
    requires |a| == |b| && Accepts(n, a) && Accepts(n, b)
    requires forall i | 0 <= i < |a| :: a[i].curr == b[i].curr && a[i].snap == b[i].snap
    ensures a == b
  {
    hide Merge, Half, MergeWithEmpty;
    forall i | 0 <= i < |a| ensures a[i] == b[i] {
      assert AcceptsLevel(n, a, i) && AcceptsLevel(n, b, i);
      if i > 0 { assert a[i - 1].snap == b[i - 1].snap; }
    }
  }

  /** The hash identifies buckets. */
  ghost predicate Injective<D(!new)>(hash: Bucket -> D) {
    forall a: Bucket, b: Bucket | hash(a) == hash(b) :: a == b
  }

  // ----- one advance -------------------------------------------------------

  /** Level `i` after the advance to `next`, as a function of the levels before
      it: a spilling level's current becomes its snapshot, a receiving level
      promotes its pending output and schedules a new one, and level zero folds
      in the batch. */
  function StepLevel(next: nat, levels: seq<Level>, batch: Bucket, i: nat): Level
    requires i < |levels|
  {
    var depth := |levels|;
    var spills := ShouldSpill(depth, next, i);
    var kept := if spills then EMPTY else levels[i].curr;
    var snap := if spills then levels[i].curr else levels[i].snap;
    if i == 0 then
      Level(Merge(kept, batch, depth == 1), snap, levels[0].next)
    else if ShouldSpill(depth, next, i - 1) then
      var curr := if levels[i].next.Some? then levels[i].next.value else kept;
      var older := if MergeWithEmpty(depth, next, i) then EMPTY else curr;
      Level(curr, snap, Some(Merge(older, levels[i - 1].curr, i + 1 == depth)))
    else
      Level(kept, snap, levels[i].next)
  }

  function Step(next: nat, levels: seq<Level>, batch: Bucket): (after: seq<Level>)
    ensures |after| == |levels|
    ensures forall i | 0 <= i < |levels| :: after[i] == StepLevel(next, levels, batch, i)
  {
    seq(|levels|, i requires 0 <= i < |levels| => StepLevel(next, levels, batch, i))
  }

  // ----- acceptance is inductive -------------------------------------------

  lemma SnapshotAccepted(n: nat, levels: seq<Level>, batch: Bucket, i: nat)
    requires i < |levels| && AcceptsLevel(n, levels, i)
    ensures UntouchedSnapshot(|levels|, n + 1, i) ==> StepLevel(n + 1, levels, batch, i).snap == EMPTY
  {
    hide Merge, Half, MergeWithEmpty;
    if ShouldSpill(|levels|, n + 1, i) { FirstSpill(|levels|, n, i); }
  }

  lemma RootAccepted(n: nat, levels: seq<Level>, batch: Bucket)
    requires |levels| > 0 && AcceptsLevel(n, levels, 0)
    ensures AcceptsLevel(n + 1, Step(n + 1, levels, batch), 0)
  {
    SnapshotAccepted(n, levels, batch, 0);
  }

  lemma ReceiverAccepted(n: nat, levels: seq<Level>, batch: Bucket, i: nat)
    requires 0 < i < |levels| && Accepts(n, levels) && ShouldSpill(|levels|, n + 1, i - 1)
    ensures AcceptsLevel(n + 1, Step(n + 1, levels, batch), i)
  {
    hide Half, MergeRows, LiveRows, View;
    var after := Step(n + 1, levels, batch);
    assert AcceptsLevel(n, levels, i);
    SnapshotAccepted(n, levels, batch, i);
    FirstSpill(|levels|, n, i - 1);
    assert after[i] == StepLevel(n + 1, levels, batch, i);
    assert after[i - 1].snap == levels[i - 1].curr by { assert after[i - 1] == StepLevel(n + 1, levels, batch, i - 1); }
    assert after[i].next == Some(Scheduled(n + 1, after, i));
  }

  lemma IdleAccepted(n: nat, levels: seq<Level>, batch: Bucket, i: nat)
    requires 0 < i < |levels| && Accepts(n, levels) && !ShouldSpill(|levels|, n + 1, i - 1)
    ensures AcceptsLevel(n + 1, Step(n + 1, levels, batch), i)
  {
    hide Half, MergeRows, LiveRows, View, Merge;
    var after := Step(n + 1, levels, batch);
    assert AcceptsLevel(n, levels, i);
    SnapshotAccepted(n, levels, batch, i);
    IdleDestination(|levels|, n, i);
    if ShouldSpill(|levels|, n + 1, i) { SpillsBelow(|levels|, n + 1, i); }
    assert after[i] == StepLevel(n + 1, levels, batch, i);
    assert after[i - 1].snap == levels[i - 1].snap by { assert after[i - 1] == StepLevel(n + 1, levels, batch, i - 1); }
    assert levels[i].next.Some? ==> Scheduled(n + 1, after, i) == Scheduled(n, levels, i);
  }

  /** One advance takes any accepted state, reached or merely restored, to an
      accepted state. */
  lemma StepAccepted(n: nat, levels: seq<Level>, batch: Bucket)
    requires ValidDepth(|levels|) && Accepts(n, levels)
    ensures Accepts(n + 1, Step(n + 1, levels, batch))
  {
    var next := n + 1;
    var after := Step(next, levels, batch);
    forall i | 0 <= i < |after| ensures AcceptsLevel(next, after, i) {
      if i == 0 {
        RootAccepted(n, levels, batch);
      } else if ShouldSpill(|levels|, n + 1, i - 1) {
        ReceiverAccepted(n, levels, batch, i);
      } else {
        IdleAccepted(n, levels, batch, i);
      }
    }
  }

  // ----- reads after an advance --------------------------------------------

  lemma SameValuesOverlay(a: Effects, b: Effects, c: Effects)
    requires SameValues(a, b)
    ensures SameValues(a + c, b + c)
  {
    forall k: Identity ensures ValueAt(a + c, k) == ValueAt(b + c, k) {
      assert ValueAt(a, k) == ValueAt(b, k);
    }
  }

  lemma SameValuesTransitive(a: Effects, b: Effects, c: Effects)
    requires SameValues(a, b) && SameValues(b, c)
    ensures SameValues(a, c)
  {
    forall k: Identity ensures ValueAt(a, k) == ValueAt(c, k) {
      assert ValueAt(a, k) == ValueAt(b, k);
      assert ValueAt(b, k) == ValueAt(c, k);
    }
  }

  /** The effects that leave level `i - 1` for level `i` at this advance. */
  function Handed(next: nat, levels: seq<Level>, i: nat): Effects
    requires 0 < i <= |levels|
  {
    if ShouldSpill(|levels|, next, i - 1) then View(levels[i - 1].snap) else map[]
  }

  /** The terminal level hands nothing on. */
  lemma NothingHandedOn(next: nat, levels: seq<Level>)
    requires |levels| > 0
    ensures Handed(next, levels, |levels|) == map[]
  {
  }

  /** A spilling level shifts its three runs by one place. */
  lemma SpillerReads(n: nat, levels: seq<Level>, batch: Bucket, i: nat, was: Effects)
    requires Accepts(n, levels) && 0 < i < |levels| && ShouldSpill(|levels|, n + 1, i)
    ensures var level := StepLevel(n + 1, levels, batch, i);
            was + Handed(n + 1, levels, i + 1) + View(level.snap) + View(level.curr) ==
            was + View(levels[i].snap) + View(levels[i].curr) + Handed(n + 1, levels, i)
  {
    hide View, Half;
    assert AcceptsLevel(n, levels, i);
    SpillsBelow(|levels|, n + 1, i);
    SpillingDestination(|levels|, n, i);
    MergeEmpty(levels[i - 1].snap);
  }

  /** A receiving level that does not spill absorbs the snapshot it merged. */
  lemma RestingReads(n: nat, levels: seq<Level>, batch: Bucket, i: nat, was: Effects)
    requires Accepts(n, levels) && 0 < i < |levels|
    requires ShouldSpill(|levels|, n + 1, i - 1) && !ShouldSpill(|levels|, n + 1, i)
    requires i + 1 == |levels| ==> was == map[]
    ensures var level := StepLevel(n + 1, levels, batch, i);
            SameValues(was + Handed(n + 1, levels, i + 1) + View(level.snap) + View(level.curr),
                       was + View(levels[i].snap) + View(levels[i].curr) + Handed(n + 1, levels, i))
  {
    hide Half, MergeRows, LiveRows, View, MergeWithEmpty;
    NothingViewed();
    assert AcceptsLevel(n, levels, i) && AcceptsLevel(n, levels, i - 1);
    RestingDestination(|levels|, n, i);
    FirstSpill(|levels|, n, i - 1);
    var level := StepLevel(n + 1, levels, batch, i);
    var snap, curr, input := View(levels[i].snap), View(levels[i].curr), View(levels[i - 1].snap);
    assert was + map[] == was;
    assert level.snap == levels[i].snap;
    OverlayAssociative(was + snap, curr, input);
    if level.curr == levels[i].curr && levels[i].next.None? {
      assert was + snap + curr + map[] == was + snap + curr;
    } else if i + 1 == |levels| {
      assert snap == map[];
      assert View(level.curr) == LiveView(curr + input);
      assert map[] + LiveView(curr + input) == LiveView(curr + input);
      assert map[] + curr + input == curr + input;
      LiveSameValues(curr + input);
    } else {
      assert View(level.curr) == curr + input;
    }
  }

  /** The same for the rows of one level over whatever lies below it. */
  lemma LevelReads(n: nat, levels: seq<Level>, batch: Bucket, i: nat, was: Effects)
    requires Accepts(n, levels) && 0 < i < |levels|
    requires i + 1 == |levels| ==> was == map[]
    ensures var level := StepLevel(n + 1, levels, batch, i);
            SameValues(was + Handed(n + 1, levels, i + 1) + View(level.snap) + View(level.curr),
                       was + View(levels[i].snap) + View(levels[i].curr) + Handed(n + 1, levels, i))
  {
    if ShouldSpill(|levels|, n + 1, i) {
      SpillerReads(n, levels, batch, i, was);
    } else if ShouldSpill(|levels|, n + 1, i - 1) {
      RestingReads(n, levels, batch, i, was);
    } else {
      hide ShouldSpill, MergeWithEmpty, View, Half;
      assert was + map[] == was;
      var rows := was + View(levels[i].snap) + View(levels[i].curr);
      assert rows + map[] == rows;
    }
  }

  /** Seen from any level below the root, an advance adds exactly the old
      snapshot of a spilling neighbour on top of what was visible before: the
      delayed outputs promoted on the way lose and resurrect nothing. */
  lemma {:induction false} VisibleBelow(n: nat, levels: seq<Level>, batch: Bucket, i: nat)
    requires ValidDepth(|levels|) && Accepts(n, levels) && 0 < i <= |levels|
    ensures SameValues(VisibleFrom(Step(n + 1, levels, batch), i), VisibleFrom(levels, i) + Handed(n + 1, levels, i))
    decreases |levels| - i
  {
    hide Merge, StepLevel, Half, ShouldSpill, MergeWithEmpty, View;
    var after := Step(n + 1, levels, batch);
    if i == |levels| {
      NothingHandedOn(n + 1, levels);
    } else {
      VisibleBelow(n, levels, batch, i + 1);
      var was, below := VisibleFrom(levels, i + 1), VisibleFrom(after, i + 1);
      var level := after[i];
      assert level == StepLevel(n + 1, levels, batch, i);
      SameValuesOverlay(below, was + Handed(n + 1, levels, i + 1), View(level.snap));
      SameValuesOverlay(below + View(level.snap), was + Handed(n + 1, levels, i + 1) + View(level.snap), View(level.curr));
      LevelReads(n, levels, batch, i, was);
      SameValuesTransitive(VisibleFrom(after, i),
                           was + Handed(n + 1, levels, i + 1) + View(level.snap) + View(level.curr),
                           VisibleFrom(levels, i) + Handed(n + 1, levels, i));
    }
  }

  lemma RootReads(n: nat, levels: seq<Level>, batch: Bucket, was: Effects)
    requires Accepts(n, levels) && |levels| > 0
    requires |levels| == 1 ==> was == map[]
    ensures var level := StepLevel(n + 1, levels, batch, 0);
            SameValues(was + Handed(n + 1, levels, 1) + View(level.snap) + View(level.curr),
                       was + View(levels[0].snap) + View(levels[0].curr) + View(batch))
  {
    hide Half, MergeWithEmpty, MergeRows, LiveRows;
    assert AcceptsLevel(n, levels, 0);
    var level := StepLevel(n + 1, levels, batch, 0);
    var snap, curr := View(levels[0].snap), View(levels[0].curr);
    OverlayAssociative(was + snap, curr, View(batch));
    assert was + map[] == was;
    if ShouldSpill(|levels|, n + 1, 0) {
      assert map[] + View(batch) == View(batch);
    } else if |levels| == 1 {
      assert snap == map[];
      assert map[] + LiveView(curr + View(batch)) == LiveView(curr + View(batch));
      assert map[] + curr + View(batch) == curr + View(batch);
      LiveSameValues(curr + View(batch));
    }
  }

  /** One advance from any accepted state reads back as the batch over the old
      values: every named identity takes its effect, every other is unchanged. */
  lemma {:induction false} StepReads(n: nat, levels: seq<Level>, batch: Bucket)
    requires ValidDepth(|levels|) && Accepts(n, levels)
    ensures forall k :: Get(Step(n + 1, levels, batch), k) ==
                        if k in View(batch) then View(batch)[k] else Get(levels, k)
  {
    hide Half, ShouldSpill, MergeWithEmpty, MergeRows, LiveRows;
    var after := Step(n + 1, levels, batch);
    VisibleBelow(n, levels, batch, 1);
    var was, below := VisibleFrom(levels, 1), VisibleFrom(after, 1);
    var level := after[0];
    assert level == StepLevel(n + 1, levels, batch, 0);
    var handed, snap := Handed(n + 1, levels, 1), View(level.snap);
    SameValuesOverlay(below, was + handed, snap);
    SameValuesOverlay(below + snap, was + handed + snap, View(level.curr));
    RootReads(n, levels, batch, was);
    SameValuesTransitive(Visible(after), was + handed + snap + View(level.curr), Visible(levels) + View(batch));
    forall k ensures Get(after, k) == if k in View(batch) then View(batch)[k] else Get(levels, k) {
      assert ValueAt(Visible(after), k) == ValueAt(Visible(levels) + View(batch), k);
    }
  }
}
