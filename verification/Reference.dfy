/** The independent dictionary model (tools/reference.py:66-167): full maps and
    an explicit lookahead instead of sorted buckets and the quarter test. */
module Reference {
  import opened Wire
  import opened Buckets
  import opened Schedule
  import opened Lists
  import opened History

  datatype MapLevel = MapLevel(curr: Effects, snap: Effects, next: Option<Effects>)

  datatype Operation = Operation(id: Identity, effect: Effect)

  function MergeMaps(older: Effects, newer: Effects, terminal: bool): Effects {
    if terminal then LiveView(older + newer) else older + newer
  }

  /** Call-order last write wins, before comparison with the base map. */
  function EncodeOperations(ops: seq<Operation>): Effects {
    if ops == [] then map[]
    else EncodeOperations(ops[..|ops| - 1])[ops[|ops| - 1].id := ops[|ops| - 1].effect]
  }

  /** Staging by call order keeps for each identity the effect of the last
      operation that names it. */
  lemma {:induction false} LastOperationWins(ops: seq<Operation>, i: nat)
    requires i < |ops| && forall j | i < j < |ops| :: ops[j].id != ops[i].id
    ensures ops[i].id in EncodeOperations(ops) && EncodeOperations(ops)[ops[i].id] == ops[i].effect
  {
    if i + 1 < |ops| { LastOperationWins(ops[..|ops| - 1], i); }
  }

  /** It stages exactly the identities some operation names. */
  lemma {:induction false} NamedIsStaged(ops: seq<Operation>, k: Identity)
    ensures k in EncodeOperations(ops) <==> exists i :: 0 <= i < |ops| && ops[i].id == k
  {
    if ops != [] {
      var last := |ops| - 1;
      var front := ops[..last];
      NamedIsStaged(front, k);
      if k in EncodeOperations(front) {
        var i :| 0 <= i < |front| && front[i].id == k;
        assert ops[i].id == k;
      }
      assert forall i | 0 <= i < last :: front[i] == ops[i];
      assert ops[last] == ops[|ops| - 1];
    }
  }

  /** The explicit lookahead: does level `i` spill at its next input? */
  predicate WillSpill(depth: nat, n: nat, i: nat)
    requires 0 < i
  {
    i + 1 != depth && (n + Half(i - 1)) % Half(i) == 0
  }

  function MapStepLevel(n: nat, levels: seq<MapLevel>, rows: Effects, i: nat): MapLevel
    requires i < |levels|
  {
    var depth := |levels|;
    var spills := i + 1 < depth && n % Half(i) == 0;
    var kept := if spills then map[] else levels[i].curr;
    var snap := if spills then levels[i].curr else levels[i].snap;
    if i == 0 then
      MapLevel(MergeMaps(kept, rows, depth == 1), snap, levels[0].next)
    else if n % Half(i - 1) == 0 then
      var curr := if levels[i].next.Some? then levels[i].next.value else kept;
      MapLevel(curr, snap, Some(MergeMaps(if WillSpill(depth, n, i) then map[] else curr, levels[i - 1].curr, i + 1 == depth)))
    else
      MapLevel(kept, snap, levels[i].next)
  }

  function MapStep(n: nat, levels: seq<MapLevel>, rows: Effects): (after: seq<MapLevel>)
    ensures |after| == |levels|
  {
    seq(|levels|, i requires 0 <= i < |levels| => MapStepLevel(n, levels, rows, i))
  }

  /** The map image of a bucket level. */
  function Image(level: Level): MapLevel {
    MapLevel(View(level.curr), View(level.snap), if level.next.Some? then Some(View(level.next.value)) else None)
  }

  function Images(levels: seq<Level>): (maps: seq<MapLevel>)
    ensures |maps| == |levels| && forall i | 0 <= i < |maps| :: maps[i] == Image(levels[i])
  {
    seq(|levels|, i requires 0 <= i < |levels| => Image(levels[i]))
  }

  /** The quarter test agrees with the lookahead at every input of a level, for
      every sequence value. */
  lemma {:induction false} LookaheadAgrees(depth: nat, n: nat, i: nat)
    requires 0 < i < depth && n % Half(i - 1) == 0
    ensures MergeWithEmpty(depth, n, i) <==> WillSpill(depth, n, i)
  {
    QuarterTestIsLookahead(depth, n, i);
  }

  lemma {:induction false} LevelsAgree(n: nat, levels: seq<Level>, batch: Bucket, i: nat)
    requires i < |levels|
    ensures Image(StepLevel(n, levels, batch, i)) == MapStepLevel(n, Images(levels), View(batch), i)
  {
    hide Half, MergeRows, LiveRows;
    if i > 0 && n % Half(i - 1) == 0 { LookaheadAgrees(|levels|, n, i); }
  }

  /** One step of the production scheduler maps onto one step of the reference. */
  lemma {:induction false} StepsAgree(n: nat, levels: seq<Level>, batch: Bucket)
    ensures Images(Step(n, levels, batch)) == MapStep(n, Images(levels), View(batch))
  {
    hide Half, MergeRows, LiveRows, View;
    var after, maps := Step(n, levels, batch), Images(levels);
    forall i | 0 <= i < |levels| ensures Image(after[i]) == MapStepLevel(n, maps, View(batch), i) {
      LevelsAgree(n, levels, batch, i);
    }
    assert Images(after) == MapStep(n, maps, View(batch));
  }

  // ----- whole histories ---------------------------------------------------

  datatype ModelState = ModelState(levels: seq<MapLevel>, logical: Effects)

  function EmptyModel(depth: nat): ModelState {
    ModelState(seq(depth, _ => MapLevel(map[], map[], None)), map[])
  }

  function ModelStep(n: nat, s: ModelState, ops: seq<Operation>): ModelState {
    var rows := Changed(s.logical, EncodeOperations(ops));
    ModelState(MapStep(n, s.levels, rows), MergeMaps(s.logical, rows, true))
  }

  function ModelRun(depth: nat, history: seq<seq<Operation>>): ModelState {
    if history == [] then EmptyModel(depth)
    else ModelStep(|history|, ModelRun(depth, history[..|history| - 1]), history[|history| - 1])
  }

  /** The production batches of a history: each advance keeps the staged effects
      that change what the list itself reads. */
  ghost function Batches(depth: nat, history: seq<seq<Operation>>): (batches: seq<Bucket>)
    ensures |batches| == |history|
  {
    if history == [] then [] else
    var earlier := Batches(depth, history[..|history| - 1]);
    earlier + [BucketOf(Changed(Visible(Run(depth, earlier)), EncodeOperations(history[|history| - 1])))]
  }

  /** The live values a level sequence shows. */
  function Shown(levels: seq<Level>): Effects { LiveView(Visible(levels)) }

  lemma ShownValues(levels: seq<Level>, k: Identity)
    ensures ValueAt(Shown(levels), k) == Get(levels, k)
  {
  }

  lemma GenesisImages(depth: nat)
    ensures EmptyModel(depth).levels == Images(Genesis(depth))
  {
  }

  lemma ChangedSameValues(a: Effects, b: Effects, staged: Effects)
    requires a == LiveView(b)
    ensures Changed(a, staged) == Changed(b, staged)
  {
    LiveSameValues(b);
    assert forall k :: ValueAt(a, k) == ValueAt(b, k);
  }

  lemma {:induction false} LogicalFollows(n: nat, levels: seq<Level>, batch: Bucket)
    requires ValidDepth(|levels|) && Accepts(n, levels)
    ensures Shown(Step(n + 1, levels, batch)) == MergeMaps(Shown(levels), View(batch), true)
  {
    hide Half, Step, VisibleFrom, Accepts, View;
    StepReads(n, levels, batch);
    var after, rows := Step(n + 1, levels, batch), View(batch);
    var left, right := Shown(after), MergeMaps(Shown(levels), rows, true);
    forall k: Identity ensures k in left <==> k in right
                       ensures k in left ==> left[k] == right[k]
    {
      ShownValues(after, k);
      ShownValues(levels, k);
      assert Get(after, k) == if k in rows then rows[k] else Get(levels, k);
    }
  }

  /** After every history both schedulers hold the same current, snapshot and
      pending contents at every level, and the reference's logical map is what
      the list reads. */
  lemma {:induction false} SchedulersAgree(depth: nat, history: seq<seq<Operation>>)
    requires ValidDepth(depth)
    ensures var levels := Run(depth, Batches(depth, history));
            ModelRun(depth, history) == ModelState(Images(levels), Shown(levels))
  {
    hide Half, View, Step, MapStep, VisibleFrom;
    if history == [] {
      GenesisReads(depth, 0);
      GenesisImages(depth);
    } else {
      var earlier, ops := history[..|history| - 1], history[|history| - 1];
      SchedulersAgree(depth, earlier);
      var before := Batches(depth, earlier);
      var levels, rows := Run(depth, before), Changed(Visible(Run(depth, before)), EncodeOperations(ops));
      var batches := Batches(depth, history);
      assert batches == before + [BucketOf(rows)];
      assert batches[..|before|] == before && batches[|before|] == BucketOf(rows);
      RunIsLastWriter(depth, before);
      ChangedSameValues(Shown(levels), Visible(levels), EncodeOperations(ops));
      StepsAgree(|history|, levels, BucketOf(rows));
      LogicalFollows(|before|, levels, BucketOf(rows));
    }
  }

  // ----- the executable model ----------------------------------------------

  function MapRotated(n: nat, levels: seq<MapLevel>, i: nat): MapLevel
    requires i < |levels|
  {
    if i + 1 < |levels| && n % Half(i) == 0 then MapLevel(map[], levels[i].curr, levels[i].next) else levels[i]
  }

  /** The reversed traversal half done. */
  ghost predicate MapTraversed(n: nat, before: seq<MapLevel>, now: seq<MapLevel>, rows: Effects, i: nat)
    requires i < |before| == |now|
  {
    && (forall j | i < j < |now| :: now[j] == MapStepLevel(n, before, rows, j))
    && now[i] == MapRotated(n, before, i)
    && (forall j | 0 <= j < i :: now[j] == before[j])
  }

  lemma MapTraversalStarts(n: nat, before: seq<MapLevel>, rows: Effects)
    requires before != []
    ensures MapTraversed(n, before, before, rows, |before| - 1)
  {
  }

  lemma MapTraversalReceives(n: nat, before: seq<MapLevel>, now: seq<MapLevel>, after: seq<MapLevel>, rows: Effects, i: nat)
    requires 0 < i < |before| == |now| == |after| && MapTraversed(n, before, now, rows, i) && n % Half(i - 1) == 0
    requires after[i] == MapStepLevel(n, before, rows, i)
    requires after[i - 1] == MapLevel(map[], before[i - 1].curr, before[i - 1].next)
    requires forall j | 0 <= j < |now| && j != i && j != i - 1 :: after[j] == now[j]
    ensures MapTraversed(n, before, after, rows, i - 1)
  {
    hide MapStepLevel, Half;
  }

  lemma MapTraversalSkips(n: nat, before: seq<MapLevel>, now: seq<MapLevel>, rows: Effects, i: nat)
    requires 0 < i < |before| == |now| && MapTraversed(n, before, now, rows, i) && n % Half(i - 1) != 0
    ensures MapTraversed(n, before, now, rows, i - 1)
  {
    hide Half, MergeMaps;
  }

  lemma MapTraversalEnds(n: nat, before: seq<MapLevel>, now: seq<MapLevel>, rows: Effects)
    requires 0 < |before| == |now| && MapTraversed(n, before, now, rows, 0)
    ensures now[0 := now[0].(curr := MergeMaps(now[0].curr, rows, |now| == 1))] == MapStep(n, before, rows)
  {
    hide Half, MergeMaps;
  }

  class Model {
    const depth: nat
    var sequence: nat
    var levels: array<MapLevel>
    var logical: Effects

    ghost predicate Valid() reads this { ValidDepth(depth) && levels.Length == depth }

    ghost function State(): ModelState
      reads this, levels
      requires Valid()
    {
      ModelState(levels[..], logical)
    }

    constructor (depth: nat)
      requires ValidDepth(depth)
      ensures Valid() && fresh(levels) && this.depth == depth && sequence == 0 && State() == EmptyModel(depth)
    {
      this.depth := depth;
      sequence := 0;
      levels := new MapLevel[depth](_ => MapLevel(map[], map[], None));
      logical := map[];
      new;
      assert levels[..] == EmptyModel(depth).levels;
    }

    /** The reversed loop with in-place rotation computes `ModelStep`. */
    method Advance(ops: seq<Operation>) returns (rows: Effects)
      requires Valid()
      modifies this, levels
      ensures Valid() && levels == old(levels) && sequence == old(sequence) + 1
      ensures rows == Changed(old(logical), EncodeOperations(ops))
      ensures State() == ModelStep(sequence, old(State()), ops)
    {
      hide MapTraversed, MapStepLevel, MapRotated, MapStep, Half, EncodeOperations, Changed, MergeMaps;
      var n := sequence + 1;
      rows := Changed(logical, EncodeOperations(ops));
      ghost var before := levels[..];
      MapTraversalStarts(n, before, rows);
      var i := depth - 1;
      while i > 0
        invariant 0 <= i < depth && Valid() && levels == old(levels) && logical == old(logical)
        invariant MapTraversed(n, before, levels[..], rows, i)
        modifies levels
      {
        if n % Half(i - 1) == 0 {
          ghost var now := levels[..];
          Receive(n, i, before, rows);
          MapTraversalReceives(n, before, now, levels[..], rows, i);
        } else {
          MapTraversalSkips(n, before, levels[..], rows, i);
        }
        i := i - 1;
      }
      ghost var now := levels[..];
      levels[0] := levels[0].(curr := MergeMaps(levels[0].curr, rows, depth == 1));
      MapTraversalEnds(n, before, now, rows);
      assert levels[..] == now[0 := now[0].(curr := MergeMaps(now[0].curr, rows, |now| == 1))];
      logical := MergeMaps(logical, rows, true);
      sequence := n;
    }

    method Receive(n: nat, i: nat, ghost before: seq<MapLevel>, ghost rows: Effects)
      requires Valid() && 0 < i < depth && |before| == depth && n % Half(i - 1) == 0
      requires MapTraversed(n, before, levels[..], rows, i)
      modifies levels
      ensures levels[i] == MapStepLevel(n, before, rows, i)
      ensures levels[i - 1] == MapLevel(map[], before[i - 1].curr, before[i - 1].next)
      ensures forall j | 0 <= j < depth && j != i && j != i - 1 :: levels[j] == old(levels[j])
    {
      var source, dest := levels[i - 1], levels[i];
      levels[i - 1] := MapLevel(map[], source.curr, source.next);
      var curr := if dest.next.Some? then dest.next.value else dest.curr;
      var older := if WillSpill(depth, n, i) then map[] else curr;
      levels[i] := MapLevel(curr, dest.snap, Some(MergeMaps(older, source.curr, i == depth - 1)));
    }

    /** The self-check of the model: the first slot naming an identity decides,
        and after every history the live part equals the logical map. */
    method Visibles() returns (visible: Effects)
      requires Valid()
      ensures forall list: seq<Level> | Images(list) == levels[..] :: visible == Visible(list)
    {
      visible := map[];
      for i := 0 to depth
        invariant forall list: seq<Level> | Images(list) == levels[..] :: VisibleFrom(list, i) + visible == Visible(list)
      {
        ghost var was := visible;
        visible := levels[i].curr + visible;
        visible := levels[i].snap + visible;
        forall list: seq<Level> | Images(list) == levels[..] ensures VisibleFrom(list, i + 1) + visible == Visible(list) {
          assert Image(list[i]) == levels[i];
          OverlayAssociative(View(list[i].snap), View(list[i].curr), was);
          OverlayAssociative(VisibleFrom(list, i + 1) + View(list[i].snap), View(list[i].curr), was);
          OverlayAssociative(VisibleFrom(list, i + 1), View(list[i].snap), View(list[i].curr) + was);
        }
      }
      forall list: seq<Level> | Images(list) == levels[..] ensures visible == Visible(list) {
        assert map[] + visible == visible;
      }
    }
  }
}
