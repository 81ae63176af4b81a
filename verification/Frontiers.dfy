/** The hash-only planner (src/frontier.zig): one advance over bucket
    identities, with the merges left to the host as independent jobs. */
module Frontiers {
  import opened Wire
  import opened Buckets
  import opened Schedule
  import opened Lists
  import History

  datatype HashLevel<D> = HashLevel(curr: D, snap: D, next: Option<D>)

  /** Level zero's job updates its current; every other produces a pending output. */
  datatype Job<D> = Job(level: nat, older: D, newer: D, dropTombstones: bool)

  datatype Frontier<D> = Frontier(sequence: U64, levels: seq<HashLevel<D>>, empty: D)

  datatype Plan<D> = Plan(jobs: seq<Job<D>>, candidate: Frontier<D>)

  datatype PlanError = SequenceExhausted | InvalidSequence | InvalidResultCount | InvalidTopology

  function InitProfile<D>(depth: nat, empty: D): Frontier<D> {
    Frontier(0, seq(depth, _ => HashLevel(empty, empty, None)), empty)
  }

  // ----- the planned step --------------------------------------------------

  function CandidateLevel<D>(next: nat, base: Frontier<D>, i: nat): HashLevel<D>
    requires i < |base.levels|
  {
    var depth, level := |base.levels|, base.levels[i];
    var spills := ShouldSpill(depth, next, i);
    var kept := if spills then base.empty else level.curr;
    var snap := if spills then level.curr else level.snap;
    if i > 0 && ShouldSpill(depth, next, i - 1) then
      HashLevel(if level.next.Some? then level.next.value else kept, snap, None)
    else
      HashLevel(kept, snap, level.next)
  }

  function Candidate<D>(next: U64, base: Frontier<D>): (c: Frontier<D>)
    ensures |c.levels| == |base.levels|
  {
    Frontier(next, seq(|base.levels|, i requires 0 <= i < |base.levels| => CandidateLevel(next, base, i)), base.empty)
  }

  function JobFor<D>(next: nat, base: Frontier<D>, batch: D, i: nat): Job<D>
    requires i < |base.levels|
  {
    var depth, curr := |base.levels|, CandidateLevel(next, base, i).curr;
    if i == 0 then Job(0, curr, batch, depth == 1)
    else Job(i, if MergeWithEmpty(depth, next, i) then base.empty else curr, base.levels[i - 1].curr, i + 1 == depth)
  }

  /** The destinations of one advance, deepest first; level zero always last. */
  function Destinations(depth: nat, next: nat, i: nat): seq<nat> {
    if i == 0 then [0]
    else (if ShouldSpill(depth, next, i - 1) then [i] else []) + Destinations(depth, next, i - 1)
  }

  /** Every entry of `s` is an index below `limit`. */
  predicate Bounded(s: seq<nat>, limit: nat) { forall k | 0 <= k < |s| :: s[k] < limit }

  ghost predicate Distinct(s: seq<nat>) { forall a, b | 0 <= a < b < |s| :: s[a] != s[b] }

  ghost predicate Names(s: seq<nat>, i: nat) { exists k :: 0 <= k < |s| && s[k] == i }

  lemma PrependName(d: nat, rest: seq<nat>, i: nat)
    ensures Names([d] + rest, i) <==> d == i || Names(rest, i)
  {
    var s := [d] + rest;
    assert s[0] == d;
    if Names(rest, i) {
      var k :| 0 <= k < |rest| && rest[k] == i;
      assert s[k + 1] == i;
    }
    if Names(s, i) && d != i {
      var k :| 0 <= k < |s| && s[k] == i;
      assert rest[k - 1] == i;
    }
  }

  lemma OnlyZero()
    ensures forall d: nat | d <= 0 :: Names([0], d)
  {
    assert [0][0] == 0;
  }

  lemma NotNamed(s: seq<nat>, i: nat)
    requires Bounded(s, i)
    ensures !Names(s, i)
  {
  }

  lemma NoDestinations()
    ensures Bounded([], 0) && Distinct([])
  {
  }

  lemma PrependLarger(d: nat, rest: seq<nat>)
    requires Bounded(rest, d) && Distinct(rest)
    ensures Bounded([d] + rest, d + 1) && Distinct([d] + rest) && Bounded(rest, d + 1)
  {
  }

  lemma {:induction false} DestinationsDiffer(depth: nat, next: nat, i: nat)
    ensures Bounded(Destinations(depth, next, i), i + 1) && Distinct(Destinations(depth, next, i))
  {
    hide Half, ShouldSpill, Bounded, Distinct;
    if i == 0 {
      NoDestinations();
      PrependLarger(0, []);
      assert [0] + [] == [0];
    } else {
      var rest := Destinations(depth, next, i - 1);
      DestinationsDiffer(depth, next, i - 1);
      PrependLarger(i, rest);
      assert [] + rest == rest;
    }
  }

  lemma {:induction false} DestinationNamed(depth: nat, next: nat, i: nat, d: nat)
    requires d <= i
    ensures Names(Destinations(depth, next, i), d) <==> d == 0 || ShouldSpill(depth, next, d - 1)
  {
    hide Half, Names, ShouldSpill;
    if i == 0 {
      OnlyZero();
    } else {
      var rest := Destinations(depth, next, i - 1);
      PrependName(i, rest, d);
      assert [] + rest == rest;
      if d == i {
        DestinationsDiffer(depth, next, i - 1);
        NotNamed(rest, i);
      } else {
        DestinationNamed(depth, next, i - 1, d);
      }
    }
  }

  /** Each receiving level is a destination once; level zero always is. */
  lemma {:induction false} DestinationsAre(depth: nat, next: nat, i: nat)
    ensures Bounded(Destinations(depth, next, i), i + 1) && Distinct(Destinations(depth, next, i))
    ensures forall d: nat | d <= i :: Names(Destinations(depth, next, i), d) <==> d == 0 || ShouldSpill(depth, next, d - 1)
  {
    hide Half, Names, ShouldSpill, Destinations, Bounded, Distinct;
    DestinationsDiffer(depth, next, i);
    forall d: nat | d <= i ensures Names(Destinations(depth, next, i), d) <==> d == 0 || ShouldSpill(depth, next, d - 1) {
      DestinationNamed(depth, next, i, d);
    }
  }

  function JobsFor<D>(next: nat, base: Frontier<D>, batch: D, levels: seq<nat>): (jobs: seq<Job<D>>)
    requires Bounded(levels, |base.levels|)
    ensures |jobs| == |levels| && forall j | 0 <= j < |jobs| :: jobs[j] == JobFor(next, base, batch, levels[j])
  {
    seq(|levels|, j requires 0 <= j < |levels| => JobFor(next, base, batch, levels[j]))
  }

  function PlanOf<D>(next: U64, base: Frontier<D>, batch: D): Plan<D>
    requires base.levels != []
  {
    var depth := |base.levels|;
    DestinationsAre(depth, next, depth - 1);
    Plan(JobsFor(next, base, batch, Destinations(depth, next, depth - 1)), Candidate(next, base))
  }

  function SetResult<D>(levels: seq<HashLevel<D>>, job: Job<D>, result: D): seq<HashLevel<D>>
    requires job.level < |levels|
  {
    if job.level == 0 then levels[0 := levels[0].(curr := result)]
    else levels[job.level := levels[job.level].(next := Some(result))]
  }

  ghost predicate Targets<D>(jobs: seq<Job<D>>, depth: nat) {
    forall j | 0 <= j < |jobs| :: jobs[j].level < depth
  }

  function SetResults<D>(levels: seq<HashLevel<D>>, jobs: seq<Job<D>>, results: seq<D>): (after: seq<HashLevel<D>>)
    requires |jobs| == |results| && Targets(jobs, |levels|)
    ensures |after| == |levels|
  {
    if jobs == [] then levels
    else SetResult(SetResults(levels, jobs[..|jobs| - 1], results[..|jobs| - 1]), jobs[|jobs| - 1], results[|jobs| - 1])
  }

  /** Results correspond to job positions, not to completion order. */
  method Finish<D>(plan: Plan<D>, results: seq<D>) returns (finished: Result<Frontier<D>, PlanError>)
    requires Targets(plan.jobs, |plan.candidate.levels|)
    ensures |results| != |plan.jobs| ==> finished == Err(InvalidResultCount)
    ensures |results| == |plan.jobs| ==>
              finished == Ok(plan.candidate.(levels := SetResults(plan.candidate.levels, plan.jobs, results)))
  {
    if |results| != |plan.jobs| { return Err(InvalidResultCount); }
    var levels := plan.candidate.levels;
    for j := 0 to |results|
      invariant levels == SetResults(plan.candidate.levels, plan.jobs[..j], results[..j])
    {
      levels := SetResult(levels, plan.jobs[j], results[j]);
      TakeGrows(plan.jobs, j);
      TakeGrows(results, j);
      assert plan.jobs[..j + 1][..j] == plan.jobs[..j] && results[..j + 1][..j] == results[..j];
    }
    assert plan.jobs[..|results|] == plan.jobs && results[..|results|] == results;
    return Ok(plan.candidate.(levels := levels));
  }

  /** The jobs emitted so far belong to the destinations above `i`. */
  ghost predicate Emitted<D>(next: nat, base: Frontier<D>, batch: D, jobs: seq<Job<D>>, all: seq<nat>, i: nat)
    requires Bounded(all, |base.levels|)
  {
    && |jobs| <= |all| && all[|jobs|..] == Destinations(|base.levels|, next, i)
    && forall j | 0 <= j < |jobs| :: jobs[j] == JobFor(next, base, batch, all[j])
  }

  lemma EmitOne<D>(next: nat, base: Frontier<D>, batch: D, jobs: seq<Job<D>>, all: seq<nat>, i: nat)
    requires Bounded(all, |base.levels|) && 0 < i < |base.levels|
    requires Emitted(next, base, batch, jobs, all, i) && ShouldSpill(|base.levels|, next, i - 1)
    ensures Emitted(next, base, batch, jobs + [JobFor(next, base, batch, i)], all, i - 1)
  {
    hide JobFor, ShouldSpill;
    var rest := Destinations(|base.levels|, next, i - 1);
    Split([i], rest);
    assert all[|jobs|..][0] == i;
    DropDrop(all, |jobs|, 1);
  }

  lemma EmitLast<D>(next: nat, base: Frontier<D>, batch: D, jobs: seq<Job<D>>, all: seq<nat>)
    requires Bounded(all, |base.levels|) && base.levels != [] && Emitted(next, base, batch, jobs, all, 0)
    ensures jobs + [JobFor(next, base, batch, 0)] == JobsFor(next, base, batch, all)
  {
    hide JobFor;
    assert all[|jobs|..][0] == 0;
  }

  /** Levels above `i` are final, level `i` is only rotated, the rest untouched. */
  ghost predicate Planned<D>(next: nat, base: Frontier<D>, levels: seq<HashLevel<D>>, i: nat)
    requires i < |base.levels| == |levels|
  {
    && (forall j | i < j < |levels| :: levels[j] == CandidateLevel(next, base, j))
    && levels[i] == (if ShouldSpill(|levels|, next, i) then HashLevel(base.empty, base.levels[i].curr, base.levels[i].next) else base.levels[i])
    && (forall j | 0 <= j < i :: levels[j] == base.levels[j])
  }

  method PlanInto<D>(base: Frontier<D>, next: U64, batch: D, levels: seq<HashLevel<D>>, i: nat)
    returns (after: seq<HashLevel<D>>, job: Job<D>)
    requires 0 < i < |base.levels| == |levels|
    requires Planned(next, base, levels, i) && ShouldSpill(|levels|, next, i - 1)
    ensures |after| == |levels| && Planned(next, base, after, i - 1)
    ensures job == JobFor(next, base, batch, i)
  {
    hide Half;
    var source, dest := levels[i - 1], levels[i];
    source := source.(snap := source.curr, curr := base.empty);
    if dest.next.Some? { dest := dest.(curr := dest.next.value, next := None); }
    job := Job(i, if MergeWithEmpty(|levels|, next, i) then base.empty else dest.curr, source.snap, i == |levels| - 1);
    after := levels[i - 1 := source][i := dest];
  }

  lemma PlanningStarts<D>(next: nat, base: Frontier<D>)
    requires base.levels != []
    ensures Planned(next, base, base.levels, |base.levels| - 1)
  {
  }

  lemma PlanningSkips<D>(next: nat, base: Frontier<D>, levels: seq<HashLevel<D>>, i: nat)
    requires 0 < i < |base.levels| == |levels|
    requires Planned(next, base, levels, i) && !ShouldSpill(|levels|, next, i - 1)
    ensures Planned(next, base, levels, i - 1)
  {
    hide Half;
  }

  lemma PlanningEnds<D>(next: U64, base: Frontier<D>, levels: seq<HashLevel<D>>)
    requires 0 < |base.levels| == |levels| && Planned(next, base, levels, 0)
    ensures levels == Candidate(next, base).levels
  {
    hide Half;
  }

  lemma RootJob<D>(next: nat, base: Frontier<D>, batch: D, levels: seq<HashLevel<D>>)
    requires 0 < |base.levels| == |levels| && Planned(next, base, levels, 0)
    ensures Job(0, levels[0].curr, batch, |levels| == 1) == JobFor(next, base, batch, 0)
  {
    hide Half;
  }

  lemma PlanBegins<D>(next: nat, base: Frontier<D>, batch: D)
    requires base.levels != []
    ensures var depth := |base.levels|; var all := Destinations(depth, next, depth - 1);
            && Bounded(all, depth) && Planned(next, base, base.levels, depth - 1)
            && Emitted(next, base, batch, [], all, depth - 1)
  {
    hide Destinations, CandidateLevel, JobFor, Half, ShouldSpill;
    var all := Destinations(|base.levels|, next, |base.levels| - 1);
    DestinationsAre(|base.levels|, next, |base.levels| - 1);
    PlanningStarts(next, base);
    assert all[0..] == all;
  }

  lemma SkipOne<D>(next: nat, base: Frontier<D>, batch: D, jobs: seq<Job<D>>, all: seq<nat>, i: nat)
    requires Bounded(all, |base.levels|) && 0 < i < |base.levels|
    requires Emitted(next, base, batch, jobs, all, i) && !ShouldSpill(|base.levels|, next, i - 1)
    ensures Emitted(next, base, batch, jobs, all, i - 1)
  {
    hide JobFor, ShouldSpill;
    assert [] + Destinations(|base.levels|, next, i - 1) == Destinations(|base.levels|, next, i - 1);
  }

  lemma {:induction false} PlanEnds<D>(next: U64, base: Frontier<D>, batch: D, levels: seq<HashLevel<D>>, jobs: seq<Job<D>>)
    requires 0 < |base.levels| == |levels| && Planned(next, base, levels, 0)
    requires var all := Destinations(|levels|, next, |levels| - 1); Bounded(all, |levels|) && Emitted(next, base, batch, jobs, all, 0)
    ensures PlanOf(next, base, batch) == Plan(jobs + [Job(0, levels[0].curr, batch, |levels| == 1)], Frontier(next, levels, base.empty))
  {
    hide Destinations, CandidateLevel, JobFor, Half, ShouldSpill, Planned, Emitted, JobsFor;
    RootJob(next, base, batch, levels);
    EmitLast(next, base, batch, jobs, Destinations(|levels|, next, |levels| - 1));
    PlanningEnds(next, base, levels);
  }

  /** The planner's descending traversal over a copy of the base's hashes. */
  method MakePlan<D>(base: Frontier<D>, next: U64, batch: D) returns (made: Result<Plan<D>, PlanError>)
    requires ValidDepth(|base.levels|)
    ensures base.sequence == U64_LIMIT - 1 ==> made == Err(PlanError.SequenceExhausted)
    ensures base.sequence < U64_LIMIT - 1 && next != base.sequence + 1 ==> made == Err(PlanError.InvalidSequence)
    ensures next == base.sequence + 1 ==> made == Ok(PlanOf(next, base, batch))
  {
    hide Destinations, Emitted, Planned, ShouldSpill, PlanOf;
    if base.sequence == U64_LIMIT - 1 { return Err(PlanError.SequenceExhausted); }
    if next != base.sequence + 1 { return Err(PlanError.InvalidSequence); }
    var depth := |base.levels|;
    var levels := base.levels;
    var jobs: seq<Job<D>> := [];
    ghost var all := Destinations(depth, next, depth - 1);
    PlanBegins(next, base, batch);
    var i := depth - 1;
    while i > 0
      invariant 0 <= i < depth && |levels| == depth
      invariant Planned(next, base, levels, i)
      invariant Emitted(next, base, batch, jobs, all, i)
    {
      if ShouldSpill(depth, next, i - 1) {
        var rotated, job := PlanInto(base, next, batch, levels, i);
        levels := rotated;
        EmitOne(next, base, batch, jobs, all, i);
        jobs := jobs + [job];
      } else {
        SkipOne(next, base, batch, jobs, all, i);
        PlanningSkips(next, base, levels, i);
      }
      i := i - 1;
    }
    PlanEnds(next, base, batch, levels, jobs);
    jobs := jobs + [Job(0, levels[0].curr, batch, depth == 1)];
    return Ok(Plan(jobs, Frontier(next, levels, base.empty)));
  }

  // ----- refinement of the list --------------------------------------------

  function HashOf<D>(hash: Bucket -> D, level: Level): HashLevel<D> {
    HashLevel(hash(level.curr), hash(level.snap), if level.next.Some? then Some(hash(level.next.value)) else None)
  }

  /** The hash image of a list state. */
  function Shadow<D>(hash: Bucket -> D, n: U64, levels: seq<Level>): (f: Frontier<D>)
    ensures |f.levels| == |levels| && forall i | 0 <= i < |levels| :: f.levels[i] == HashOf(hash, levels[i])
  {
    Frontier(n, seq(|levels|, i requires 0 <= i < |levels| => HashOf(hash, levels[i])), hash(EMPTY))
  }

  predicate Holds(level: Level, b: Bucket) {
    b == level.curr || b == level.snap || level.next == Some(b)
  }

  /** The buckets a host can read before any job of an advance has run: those of
      the base, the empty bucket, and the batch. */
  ghost predicate Available(levels: seq<Level>, batch: Bucket, b: Bucket) {
    b == EMPTY || b == batch || exists i | 0 <= i < |levels| :: Holds(levels[i], b)
  }

  /** The two buckets whose hashes a job names. */
  function Inputs(next: nat, levels: seq<Level>, batch: Bucket, i: nat): (Bucket, Bucket)
    requires i < |levels|
  {
    var depth := |levels|;
    var kept := if ShouldSpill(depth, next, i) then EMPTY else levels[i].curr;
    if i == 0 then (kept, batch)
    else
      var curr := if ShouldSpill(depth, next, i - 1) && levels[i].next.Some? then levels[i].next.value else kept;
      (if MergeWithEmpty(depth, next, i) then EMPTY else curr, levels[i - 1].curr)
  }

  /** No job reads another job's output: every input was there before. */
  lemma JobInputs<D>(hash: Bucket -> D, n: U64, next: nat, levels: seq<Level>, batch: Bucket, i: nat)
    requires i < |levels|
    ensures var (older, newer) := Inputs(next, levels, batch, i);
            var job := JobFor(next, Shadow(hash, n, levels), hash(batch), i);
            && job.older == hash(older) && job.newer == hash(newer)
            && Available(levels, batch, older) && Available(levels, batch, newer)
  {
    hide Half;
  }

  /** A content-addressed store: every name is the hash of what it names. */
  ghost predicate Consistent<D>(hash: Bucket -> D, store: map<D, Bucket>) {
    forall d | d in store :: hash(store[d]) == d
  }

  ghost predicate HasInputs<D>(hash: Bucket -> D, store: map<D, Bucket>, levels: seq<Level>, batch: Bucket) {
    forall b: Bucket | Available(levels, batch, b) :: hash(b) in store
  }

  ghost predicate Readable<D>(store: map<D, Bucket>, jobs: seq<Job<D>>) {
    forall j | 0 <= j < |jobs| :: jobs[j].older in store && jobs[j].newer in store
  }

  /** One host run: the jobs executed one after another in the given order, each
      reading the store and adding its output to it. */
  ghost function Execute<D>(hash: Bucket -> D, store: map<D, Bucket>, jobs: seq<Job<D>>, order: seq<nat>, results: map<nat, D>): map<nat, D>
    requires Bounded(order, |jobs|) && Readable(store, jobs)
    decreases |order|
  {
    if order == [] then results else
    var job := jobs[order[0]];
    var output := Merge(store[job.older], store[job.newer], job.dropTombstones);
    Execute(hash, store[hash(output) := output], jobs, order[1..], results[order[0] := hash(output)])
  }

  /** The result of job `j`, whenever it runs. */
  function Output<D>(hash: Bucket -> D, next: nat, levels: seq<Level>, batch: Bucket, i: nat): D
    requires i < |levels|
  {
    var (older, newer) := Inputs(next, levels, batch, i);
    hash(Merge(older, newer, i + 1 == |levels|))
  }

  ghost predicate AllOutputs<D>(hash: Bucket -> D, next: nat, levels: seq<Level>, batch: Bucket, destinations: seq<nat>, results: map<nat, D>)
    requires Bounded(destinations, |levels|)
  {
    forall j | j in results :: j < |destinations| && results[j] == Output(hash, next, levels, batch, destinations[j])
  }

  /** So each job can run against any store of the base buckets, and reads from it
      the buckets its inputs name. */
  lemma JobReads<D(!new)>(hash: Bucket -> D, n: U64, next: nat, levels: seq<Level>, batch: Bucket, store: map<D, Bucket>, i: nat)
    requires Injective(hash) && Consistent(hash, store) && HasInputs(hash, store, levels, batch) && i < |levels|
    ensures var (older, newer) := Inputs(next, levels, batch, i);
            var job := JobFor(next, Shadow(hash, n, levels), hash(batch), i);
            && job.older in store && job.newer in store && store[job.older] == older && store[job.newer] == newer
  {
    hide JobFor, Inputs, Shadow, Holds, Half, ShouldSpill;
    JobInputs(hash, n, next, levels, batch, i);
    var older, newer := Inputs(next, levels, batch, i).0, Inputs(next, levels, batch, i).1;
    assert Available(levels, batch, older) && Available(levels, batch, newer);
    assert hash(older) in store && hash(newer) in store;
    assert hash(store[hash(older)]) == hash(older) && hash(store[hash(newer)]) == hash(newer);
  }

  lemma JobDrops<D>(hash: Bucket -> D, n: U64, next: nat, levels: seq<Level>, batch: Bucket, i: nat)
    requires i < |levels|
    ensures JobFor(next, Shadow(hash, n, levels), hash(batch), i).dropTombstones == (i + 1 == |levels|)
    ensures JobFor(next, Shadow(hash, n, levels), hash(batch), i).level == i
  {
  }

  /** So running it gives the output of the list's merge. */
  lemma {:induction false} JobOutput<D(!new)>(hash: Bucket -> D, n: U64, next: nat, levels: seq<Level>, batch: Bucket, store: map<D, Bucket>, i: nat)
    requires Injective(hash) && Consistent(hash, store) && HasInputs(hash, store, levels, batch) && i < |levels|
    ensures var job := JobFor(next, Shadow(hash, n, levels), hash(batch), i);
            && job.older in store && job.newer in store
            && hash(Merge(store[job.older], store[job.newer], job.dropTombstones)) == Output(hash, next, levels, batch, i)
  {
    hide JobFor, Inputs, Shadow, Holds, Merge, Consistent, HasInputs, Injective;
    JobReads(hash, n, next, levels, batch, store, i);
    JobDrops(hash, n, next, levels, batch, i);
  }

  lemma MoreInputs<D>(hash: Bucket -> D, store: map<D, Bucket>, levels: seq<Level>, batch: Bucket, output: Bucket)
    requires Consistent(hash, store) && HasInputs(hash, store, levels, batch)
    ensures Consistent(hash, store[hash(output) := output]) && HasInputs(hash, store[hash(output) := output], levels, batch)
  {
    hide Available;
  }

  /** Execution order is immaterial: whatever order covers the jobs, each job's
      result is the same. */
  lemma {:induction false} AnyOrder<D(!new)>(hash: Bucket -> D, n: U64, next: nat, levels: seq<Level>, batch: Bucket,
                             destinations: seq<nat>, store: map<D, Bucket>, order: seq<nat>, results: map<nat, D>)
    requires Injective(hash) && Consistent(hash, store) && HasInputs(hash, store, levels, batch)
    requires Bounded(destinations, |levels|)
    requires Bounded(order, |destinations|)
    requires AllOutputs(hash, next, levels, batch, destinations, results)
    ensures var jobs := JobsFor(next, Shadow(hash, n, levels), hash(batch), destinations);
            && Readable(store, jobs)
            && AllOutputs(hash, next, levels, batch, destinations, Execute(hash, store, jobs, order, results))
            && (forall j :: j in Execute(hash, store, jobs, order, results) <==> j in results || Names(order, j))
    decreases |order|
  {
    hide Merge, JobFor, Shadow, Output, Consistent, HasInputs, Injective;
    var jobs := JobsFor(next, Shadow(hash, n, levels), hash(batch), destinations);
    forall j | 0 <= j < |jobs| ensures jobs[j].older in store && jobs[j].newer in store {
      JobOutput(hash, n, next, levels, batch, store, destinations[j]);
    }
    if order != [] {
      var first := order[0];
      JobOutput(hash, n, next, levels, batch, store, destinations[first]);
      var output := Merge(store[jobs[first].older], store[jobs[first].newer], jobs[first].dropTombstones);
      MoreInputs(hash, store, levels, batch, output);
      AnyOrder(hash, n, next, levels, batch, destinations, store[hash(output) := output], order[1..], results[first := hash(output)]);
      forall j ensures j in Execute(hash, store, jobs, order, results) <==> j in results || Names(order, j) {
        PrependName(first, order[1..], j);
        assert order == [first] + order[1..];
      }
    }
  }

  /** Filling each planned result in completes the hash image of the step. */
  lemma FinishedLevel<D>(hash: Bucket -> D, n: U64, next: U64, levels: seq<Level>, batch: Bucket, i: nat)
    requires i < |levels|
    ensures var level := CandidateLevel(next, Shadow(hash, n, levels), i);
            var result := Output(hash, next, levels, batch, i);
            HashOf(hash, StepLevel(next, levels, batch, i)) ==
              if i == 0 then level.(curr := result)
              else if ShouldSpill(|levels|, next, i - 1) then level.(next := Some(result))
              else level
  {
    hide Half, Merge;
  }

  lemma {:induction false} SettingResults<D>(levels: seq<HashLevel<D>>, jobs: seq<Job<D>>, results: seq<D>, i: nat)
    requires |jobs| == |results| && Targets(jobs, |levels|) && i < |levels|
    requires forall a, b | 0 <= a < b < |jobs| :: jobs[a].level != jobs[b].level
    ensures (forall j | 0 <= j < |jobs| :: jobs[j].level != i) ==> SetResults(levels, jobs, results)[i] == levels[i]
    ensures forall j | 0 <= j < |jobs| && jobs[j].level == i ::
              SetResults(levels, jobs, results)[i] == SetResult(levels, jobs[j], results[j])[i]
  {
    if jobs != [] {
      var last := |jobs| - 1;
      SettingResults(levels, jobs[..last], results[..last], i);
      forall j | 0 <= j < |jobs| && jobs[j].level == i
        ensures SetResults(levels, jobs, results)[i] == SetResult(levels, jobs[j], results[j])[i]
      {
        if j < last { assert jobs[..last][j].level == i; }
      }
    }
  }

  /** The results of a run as the sequence `finish` takes. */
  function InOrder<D>(results: map<nat, D>, count: nat): seq<D>
    requires forall j: nat | j < count :: j in results
  {
    seq(count, j requires 0 <= j < count => results[j])
  }

  /** An execution order that runs every job, in any sequence. */
  ghost predicate CoversAll(order: seq<nat>, count: nat) {
    Bounded(order, count) && forall j: nat | j < count :: Names(order, j)
  }

  lemma LevelFilled<D>(hash: Bucket -> D, n: U64, levels: seq<Level>, batch: Bucket, destinations: seq<nat>,
                       jobs: seq<Job<D>>, results: seq<D>, i: nat)
    requires i < |levels| && n < U64_LIMIT - 1 && |jobs| == |destinations| == |results|
    requires Bounded(destinations, |levels|) && Targets(jobs, |levels|)
    requires forall j | 0 <= j < |jobs| :: jobs[j].level == destinations[j]
    requires forall j | 0 <= j < |jobs| :: results[j] == Output(hash, n + 1, levels, batch, destinations[j])
    requires Names(destinations, i) <==> i == 0 || ShouldSpill(|levels|, n + 1, i - 1)
    ensures var level := CandidateLevel(n + 1, Shadow(hash, n, levels), i);
            var result := Output(hash, n + 1, levels, batch, i);
            if i == 0 || ShouldSpill(|levels|, n + 1, i - 1) then
              exists j :: 0 <= j < |jobs| && jobs[j].level == i && results[j] == result
            else
              forall j | 0 <= j < |jobs| :: jobs[j].level != i
  {
    hide Half, Output, Shadow, CandidateLevel, ShouldSpill;
    if Names(destinations, i) {
      var j :| 0 <= j < |destinations| && destinations[j] == i;
      assert jobs[j].level == i;
    }
  }

  lemma {:induction false} CompletedLevel<D>(hash: Bucket -> D, n: U64, levels: seq<Level>, batch: Bucket, destinations: seq<nat>,
                          jobs: seq<Job<D>>, results: seq<D>, i: nat)
    requires i < |levels| && n < U64_LIMIT - 1 && |jobs| == |destinations| == |results|
    requires Bounded(destinations, |levels|) && Distinct(destinations) && Targets(jobs, |levels|)
    requires forall j | 0 <= j < |jobs| :: jobs[j].level == destinations[j]
    requires forall j | 0 <= j < |jobs| :: results[j] == Output(hash, n + 1, levels, batch, destinations[j])
    requires Names(destinations, i) <==> i == 0 || ShouldSpill(|levels|, n + 1, i - 1)
    ensures SetResults(Candidate(n + 1, Shadow(hash, n, levels)).levels, jobs, results)[i] == HashOf(hash, StepLevel(n + 1, levels, batch, i))
  {
    hide Half, Merge, Inputs, CandidateLevel, StepLevel, Names, SetResults, HashOf, ShouldSpill, Output, Shadow;
    var candidate := Candidate(n + 1, Shadow(hash, n, levels)).levels;
    SettingResults(candidate, jobs, results, i);
    FinishedLevel(hash, n, n + 1, levels, batch, i);
    LevelFilled(hash, n, levels, batch, destinations, jobs, results, i);
  }

  /** However the results were obtained, setting each job's own output completes
      the hash image of the step. */
  lemma CompletesStep<D>(hash: Bucket -> D, n: U64, levels: seq<Level>, batch: Bucket, results: seq<D>)
    requires ValidDepth(|levels|) && n < U64_LIMIT - 1
    requires var plan := PlanOf(n + 1, Shadow(hash, n, levels), hash(batch)); |results| == |plan.jobs| && Targets(plan.jobs, |levels|)
    requires var d := Destinations(|levels|, n + 1, |levels| - 1);
             |results| == |d| && Bounded(d, |levels|) && forall j | 0 <= j < |results| :: results[j] == Output(hash, n + 1, levels, batch, d[j])
    ensures var plan := PlanOf(n + 1, Shadow(hash, n, levels), hash(batch));
            plan.candidate.(levels := SetResults(plan.candidate.levels, plan.jobs, results)) == Shadow(hash, n + 1, Step(n + 1, levels, batch))
  {
    hide Half, Merge, JobFor, Inputs, CandidateLevel, StepLevel, Names, Destinations, SetResults, HashOf, Output, ShouldSpill;
    var depth, next, base := |levels|, n + 1, Shadow(hash, n, levels);
    var destinations := Destinations(depth, next, depth - 1);
    var plan := PlanOf(next, base, hash(batch));
    DestinationsAre(depth, next, depth - 1);
    forall j | 0 <= j < |plan.jobs| ensures plan.jobs[j].level == destinations[j] {
      JobDrops(hash, n, next, levels, batch, destinations[j]);
    }
    var after := SetResults(plan.candidate.levels, plan.jobs, results);
    var expected := Shadow(hash, next, Step(next, levels, batch));
    forall i: nat | i < depth ensures after[i] == expected.levels[i] {
      CompletedLevel(hash, n, levels, batch, destinations, plan.jobs, results, i);
    }
    assert after == expected.levels;
  }

  /** The planner refines the list: from the hash image of any state, planning an
      advance, running its jobs in any order that covers them against any
      consistent store of the base buckets, and finishing, yields exactly the
      hash image of the list's own step. */
  lemma PlanRefinesStep<D(!new)>(hash: Bucket -> D, n: U64, levels: seq<Level>, batch: Bucket, store: map<D, Bucket>, order: seq<nat>)
    requires ValidDepth(|levels|) && n < U64_LIMIT - 1
    requires Injective(hash) && Consistent(hash, store) && HasInputs(hash, store, levels, batch)
    requires CoversAll(order, |PlanOf(n + 1, Shadow(hash, n, levels), hash(batch)).jobs|)
    ensures var plan := PlanOf(n + 1, Shadow(hash, n, levels), hash(batch));
            && Readable(store, plan.jobs) && Targets(plan.jobs, |levels|)
            && var done := Execute(hash, store, plan.jobs, order, map[]);
               && (forall j: nat | j < |plan.jobs| :: j in done)
               && plan.candidate.(levels := SetResults(plan.candidate.levels, plan.jobs, InOrder(done, |plan.jobs|)))
                  == Shadow(hash, n + 1, Step(n + 1, levels, batch))
  {
    hide Half, Merge, JobFor, Inputs, Available, CandidateLevel, StepLevel, Shadow, Execute, Names, Destinations, SetResults;
    var depth, next, base := |levels|, n + 1, Shadow(hash, n, levels);
    var destinations := Destinations(depth, next, depth - 1);
    var plan := PlanOf(next, base, hash(batch));
    DestinationsAre(depth, next, depth - 1);
    forall j | 0 <= j < |plan.jobs| ensures plan.jobs[j].level == destinations[j] {
      JobDrops(hash, n, next, levels, batch, destinations[j]);
    }
    AnyOrder(hash, n, next, levels, batch, destinations, store, order, map[]);
    var done := Execute(hash, store, plan.jobs, order, map[]);
    var results := InOrder(done, |plan.jobs|);
    CompletesStep(hash, n, levels, batch, results);
  }

  // ----- shape and pending work --------------------------------------------

  /** What can be checked from hashes alone. */
  predicate Shape<D(==)>(f: Frontier<D>, i: nat)
    requires i < |f.levels|
  {
    var level := f.levels[i];
    && (UntouchedCurrent(f.sequence, i) ==> level.curr == f.empty)
    && (UntouchedSnapshot(|f.levels|, f.sequence, i) ==> level.snap == f.empty)
    && (level.next.Some? <==> HasPending(f.sequence, i))
  }

  /** A bucket of one live row wherever the frontier names one. */
  function Sketched<D(==)>(f: Frontier<D>, d: D): Bucket { if d == f.empty then EMPTY else [Record(0, [], Some([]))] }

  function SketchedLevel<D(==)>(f: Frontier<D>, i: nat): Level
    requires i < |f.levels|
  {
    Level(Sketched(f, f.levels[i].curr), Sketched(f, f.levels[i].snap), None)
  }

  /** The levels have contents wherever the frontier does, and pending work exactly
      where it does. */
  ghost predicate Occupies<D>(f: Frontier<D>, levels: seq<Level>) {
    && |levels| == |f.levels|
    && forall i | 0 <= i < |f.levels| ::
         && (f.levels[i].curr != f.empty ==> levels[i].curr != EMPTY)
         && (f.levels[i].snap != f.empty ==> levels[i].snap != EMPTY)
         && (f.levels[i].next.Some? <==> levels[i].next.Some?)
  }

  /** Some history as long as the frontier says fills all it names. */
  ghost predicate ShapeReached<D>(f: Frontier<D>) {
    exists levels :: History.Reached(f.sequence, levels) && Occupies(f, levels)
  }

  lemma SketchAccepted<D>(f: Frontier<D>) returns (levels: seq<Level>)
    requires forall i | 0 <= i < |f.levels| :: Shape(f, i)
    ensures Accepts(f.sequence, levels) && Occupies(f, levels)
  {
    hide Merge, Half, MergeWithEmpty;
    var n := f.sequence;
    var visible := seq(|f.levels|, i requires 0 <= i < |f.levels| => SketchedLevel(f, i));
    levels := seq(|f.levels|, i requires 0 <= i < |f.levels| =>
                visible[i].(next := if HasPending(n, i) then Some(Scheduled(n, visible, i)) else None));
    forall i | 0 <= i < |levels| ensures AcceptsLevel(n, levels, i) && (f.levels[i].next.Some? <==> levels[i].next.Some?) {
      assert Shape(f, i);
      if i > 0 { assert Scheduled(n, levels, i) == Scheduled(n, visible, i); }
    }
  }

  /** The shapes accepted from hashes alone are exactly those some history of that
      length has. */
  lemma {:induction false} ShapeIsReached<D(!new)>(f: Frontier<D>)
    requires ValidDepth(|f.levels|)
    ensures (forall i | 0 <= i < |f.levels| :: Shape(f, i)) <==> ShapeReached(f)
  {
    hide Half, History.Reached;
    if forall i | 0 <= i < |f.levels| :: Shape(f, i) {
      var levels := SketchAccepted(f);
      History.AcceptedIsReached(f.sequence, levels);
    }
    if ShapeReached(f) {
      var levels :| History.Reached(f.sequence, levels) && Occupies(f, levels);
      History.AcceptedIsReached(f.sequence, levels);
      forall i | 0 <= i < |f.levels| ensures Shape(f, i) { assert AcceptsLevel(f.sequence, levels, i); }
    }
  }

  method ValidateShape<D(==, !new)>(f: Frontier<D>) returns (ok: bool)
    ensures ok <==> forall i | 0 <= i < |f.levels| :: Shape(f, i)
    ensures ValidDepth(|f.levels|) ==> (ok <==> ShapeReached(f))
  {
    if ValidDepth(|f.levels|) { ShapeIsReached(f); }
    for i := 0 to |f.levels|
      invariant forall j | 0 <= j < i :: Shape(f, j)
    {
      if !Shape(f, i) { return false; }
    }
    return true;
  }

  /** The job whose output level `i` is waiting to promote. */
  function PendingJob<D>(f: Frontier<D>, i: nat): Option<Job<D>>
    requires i < |f.levels|
  {
    if i == 0 || f.levels[i].next.None? then None
    else Some(Job(i, if MergeWithEmpty(|f.levels|, f.sequence, i) then f.empty else f.levels[i].curr, f.levels[i - 1].snap, i + 1 == |f.levels|))
  }

  /** Running a pending job over the store reproduces the recorded output. */
  ghost predicate PendingChecks<D>(hash: Bucket -> D, store: map<D, Bucket>, f: Frontier<D>, i: nat)
    requires i < |f.levels|
  {
    match PendingJob(f, i)
    case None => true
    case Some(job) =>
      && job.older in store && job.newer in store
      && Some(hash(Merge(store[job.older], store[job.newer], job.dropTombstones))) == f.levels[i].next
  }

  ghost predicate LevelChecks<D>(hash: Bucket -> D, store: map<D, Bucket>, n: U64, levels: seq<Level>, i: nat)
    requires i < |levels|
  {
    var f := Shadow(hash, n, levels);
    Shape(f, i) && PendingChecks(hash, store, f, i) && (i + 1 == |levels| ==> forall r | r in levels[i].curr :: r.value.Some?)
  }

  lemma LevelAcceptance<D(!new)>(hash: Bucket -> D, store: map<D, Bucket>, n: U64, levels: seq<Level>, i: nat)
    requires Injective(hash) && Consistent(hash, store) && HasInputs(hash, store, levels, EMPTY) && i < |levels|
    ensures AcceptsLevel(n, levels, i) <==> LevelChecks(hash, store, n, levels, i)
  {
    hide Half, Merge;
    assert Available(levels, EMPTY, EMPTY) && Available(levels, EMPTY, levels[i].curr);
    if i > 0 { assert Available(levels, EMPTY, levels[i - 1].snap); }
  }

  /** Shape, reproduced pending outputs and a tombstone-free terminal level are
      together exactly the topology the list accepts. */
  lemma ShapeAndJobsAreAcceptance<D(!new)>(hash: Bucket -> D, store: map<D, Bucket>, n: U64, levels: seq<Level>)
    requires Injective(hash) && Consistent(hash, store) && HasInputs(hash, store, levels, EMPTY)
    ensures Accepts(n, levels) <==> forall i: nat | i < |levels| :: LevelChecks(hash, store, n, levels, i)
  {
    hide Half, Merge, Shape, PendingChecks, AcceptsLevel, Shadow, HasInputs;
    forall i: nat | i < |levels| ensures AcceptsLevel(n, levels, i) <==> LevelChecks(hash, store, n, levels, i) {
      LevelAcceptance(hash, store, n, levels, i);
    }
  }
}
