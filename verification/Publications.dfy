/** The host over its disk (src/host.zig:231-276 with src/disk.zig:244-304): the
    worker publishes each batch through the disk owner, and what a finished wait
    promises survives a failure and a reopening. */
module Publications {
  import opened Wire
  import opened Buckets
  import opened Lists
  import opened History
  import opened Normalizing
  import opened Stores
  import Hosts
  import Owners
  import Staging

  /** What one publication adds to a history: the effects that change something. */
  ghost function Publish(history: seq<Bucket>, batch: Effects, metadata: Bytes): seq<Bucket> {
    history + [NormalForm(LastWriter(history), batch)]
  }

  ghost function Publishing(): Hosts.Apply<Effects, seq<Bucket>> { (history, batch, metadata) => Publish(history, batch, metadata) }

  type Queue = Hosts.Host<Effects, seq<Bucket>>
  type Submissions = seq<(Effects, Bytes)>

  datatype Service<D> = Service(host: Queue, disk: Owners.Disk<D>)

  // ----- one publication attempt -------------------------------------------

  ghost predicate PreparedBy<D>(names: Naming<D>, d: Owners.Disk<D>, batch: Effects, metadata: Bytes, mid: Owners.Disk<D>) {
    Owners.Next(names, d, Owners.Prepare(batch), mid) && mid.pending.value.metadata == metadata
  }

  /** What the commit of an open preparation leaves, once a failed one has been
      released. */
  ghost predicate Committed<D>(names: Naming<D>, mid: Owners.Disk<D>, outcome: Hosts.Outcome, after: Owners.Disk<D>) {
    match outcome
    case Landed => Owners.Next(names, mid, Owners.Publish(Owners.Published), after)
    case LostBefore(_) => after == mid.(poisoned := true, pending := None)
    case LostAfter(_) => mid.pending.Some? && after == mid.(durable := mid.pending.value, poisoned := true, pending := None)
  }

  /** Preparation and commit. Losing a batch may also mean that it could not be
      prepared. */
  ghost predicate Attempted<D(!new)>(names: Naming<D>, d: Owners.Disk<D>, batch: Effects, metadata: Bytes, outcome: Hosts.Outcome, after: Owners.Disk<D>) {
    || (outcome.LostBefore? && Owners.Next(names, d, Owners.PrepareFails, after))
    || exists mid: Owners.Disk<D> :: PreparedBy(names, d, batch, metadata, mid) && Committed(names, mid, outcome, after)
  }

  /** Every event moves the queue; only a publication touches the disk. */
  ghost predicate Next<D(!new)>(names: Naming<D>, s: Service<D>, event: Hosts.Event<Effects>, after: Service<D>) {
    && Hosts.Next(Publishing(), s.host, event, after.host)
    && if event.Work? && s.host.worker.Busy? then
         var e := s.host.worker.entry;
         Attempted(names, s.disk, e.batch.value, s.host.slots[s.host.head][..e.length], event.outcome, after.disk)
       else
         after.disk == s.disk
  }

  // ----- queue and disk stay together --------------------------------------

  ghost predicate Agrees<D>(d: Hosts.Durable<seq<Bucket>>, v: Version<D>) {
    d.advance == |v.history| && d.state == v.history && d.metadata == v.metadata
  }

  /** The queue's idea of what is durable is the version the catalog names, and
      until something fails that version is also the live one. */
  ghost predicate Joint<D>(names: Naming<D>, base: Hosts.Durable<seq<Bucket>>, s: Service<D>) {
    && Hosts.Inv(Publishing(), base, s.host) && Owners.Sound(names, s.disk)
    && Agrees(s.host.disk, s.disk.durable) && s.disk.pending.None?
    && (s.host.worker.Broken? || s.host.failure.Some? || (s.disk.live == s.disk.durable && !s.disk.poisoned))
  }

  /** Which effects change something depends only on what reads return. */
  lemma SameNormalForm(a: Effects, b: Effects, staged: Effects)
    requires SameValues(a, b)
    ensures NormalForm(a, staged) == NormalForm(b, staged)
  {
    assert forall k: Identity :: ValueAt(a, k) == ValueAt(b, k);
    assert Changed(a, staged) == Changed(b, staged);
  }

  lemma LiveNormalForm<D>(names: Naming<D>, d: Owners.Disk<D>, staged: Effects)
    requires Owners.Sound(names, d) && Present(d.blobs, d.live.frontier)
    ensures NormalForm(Visible(LevelsOf(d.blobs, d.live.frontier)), staged) == NormalForm(LastWriter(d.live.history), staged)
  {
    hide Holding, NormalForm, LastWriter, Visible, Addressed, LevelsOf;
    var levels := LevelsOf(d.blobs, d.live.frontier);
    forall k: Identity ensures ValueAt(Visible(levels), k) == ValueAt(LastWriter(d.live.history), k) {
      VersionReads(names, d.blobs, d.live, k);
    }
    SameNormalForm(Visible(levels), LastWriter(d.live.history), staged);
  }

  /** What a preparation holds is what the queue expects to become durable. */
  lemma PreparedAgrees<D>(names: Naming<D>, d: Owners.Disk<D>, durable: Hosts.Durable<seq<Bucket>>, batch: Effects, metadata: Bytes, mid: Owners.Disk<D>)
    requires Owners.Sound(names, d) && Agrees(durable, d.durable) && d.live == d.durable && PreparedBy(names, d, batch, metadata, mid)
    ensures Owners.Sound(names, mid) && mid.live == mid.durable == d.durable && !mid.poisoned && mid.pending.Some?
    ensures Agrees(Hosts.Landing(Publishing(), durable, (batch, metadata)), mid.pending.value)
  {
    hide Holding, NormalForm, LastWriter, Visible, Addressed, Owners.Sound;
    LiveNormalForm(names, d, batch);
    Owners.StepSound(names, d, Owners.Prepare(batch), mid);
  }

  lemma CommittedSound<D>(names: Naming<D>, mid: Owners.Disk<D>, outcome: Hosts.Outcome, after: Owners.Disk<D>)
    requires Owners.Sound(names, mid) && !mid.poisoned && mid.pending.Some? && Committed(names, mid, outcome, after)
    ensures Owners.Sound(names, after)
  {
    hide Owners.Sound;
    match outcome
    case Landed => Owners.StepSound(names, mid, Owners.Publish(Owners.Published), after);
    case LostBefore(_) =>
      var failed := mid.(poisoned := true);
      Owners.StepSound(names, mid, Owners.Publish(Owners.LostBefore), failed);
      Owners.StepSound(names, failed, Owners.Abort, after);
    case LostAfter(_) =>
      var failed := mid.(durable := mid.pending.value, poisoned := true);
      Owners.StepSound(names, mid, Owners.Publish(Owners.LostAfter), failed);
      Owners.StepSound(names, failed, Owners.Abort, after);
  }

  lemma AttemptKeeps<D(!new)>(names: Naming<D>, d: Owners.Disk<D>, durable: Hosts.Durable<seq<Bucket>>, batch: Effects, metadata: Bytes,
                        outcome: Hosts.Outcome, after: Owners.Disk<D>)
    requires Owners.Sound(names, d) && Agrees(durable, d.durable) && d.live == d.durable && d.pending.None?
    requires Attempted(names, d, batch, metadata, outcome, after)
    ensures Owners.Sound(names, after) && after.pending.None?
    ensures Agrees(if outcome.LostBefore? then durable else Hosts.Landing(Publishing(), durable, (batch, metadata)), after.durable)
    ensures outcome.Landed? ==> after.live == after.durable && !after.poisoned
  {
    hide PreparedBy, Agrees, Owners.Sound, Hosts.Landing;
    if outcome.LostBefore? && Owners.Next(names, d, Owners.PrepareFails, after) {
      Owners.StepSound(names, d, Owners.PrepareFails, after);
    } else {
      var mid: Owners.Disk<D> :| PreparedBy(names, d, batch, metadata, mid) && Committed(names, mid, outcome, after);
      PreparedAgrees(names, d, durable, batch, metadata, mid);
      CommittedSound(names, mid, outcome, after);
    }
  }

  lemma BusyIsCalm(base: Hosts.Durable<seq<Bucket>>, h: Queue)
    requires Hosts.Inv(Publishing(), base, h) && h.worker.Busy?
    ensures h.failure.None?
  {
    hide Hosts.RingInv, Hosts.DurableInv, Hosts.WaitersInv;
  }

  lemma QuietWork(base: Hosts.Durable<seq<Bucket>>, h: Queue, outcome: Hosts.Outcome)
    requires Hosts.Inv(Publishing(), base, h) && Hosts.WorkerCanStep(h) && !h.worker.Busy?
    ensures var after := Hosts.Worked(Publishing(), h, outcome);
            after.disk == h.disk && (h.worker.Broken? || h.failure.Some? ==> after.worker.Broken? || after.failure.Some?)
  {
    hide Hosts.RingInv, Hosts.DurableInv, Hosts.WaitersInv, Hosts.Landing, Hosts.Batches, Hosts.Awake;
  }

  /** Away from publications the durable state stays, and a failure is either
      pending or latched before and after. */
  lemma QuietStep(base: Hosts.Durable<seq<Bucket>>, h: Queue, event: Hosts.Event<Effects>, after: Queue)
    requires Hosts.Inv(Publishing(), base, h) && Hosts.Next(Publishing(), h, event, after) && !(event.Work? && h.worker.Busy?)
    ensures after.disk == h.disk
    ensures h.worker.Broken? || h.failure.Some? ==> after.worker.Broken? || after.failure.Some?
  {
    hide Hosts.Inv, Hosts.Signalled, Hosts.Awake, Hosts.Worked;
    if event.Admit? && !h.paused { Hosts.SignalFrame(Hosts.Admitted(h, event.batch, event.metadata), after); }
    if event.Work? { QuietWork(base, h, event.outcome); }
  }

  /** Every event keeps queue and disk together. */
  lemma JointStep<D(!new)>(names: Naming<D>, base: Hosts.Durable<seq<Bucket>>, s: Service<D>, event: Hosts.Event<Effects>, after: Service<D>)
    requires Joint(names, base, s) && Next(names, s, event, after)
    ensures Joint(names, base, after)
  {
    hide Hosts.Inv, Owners.Sound, Attempted, Agrees, Hosts.Landing;
    Hosts.StepInv(Publishing(), base, s.host, event, after.host);
    if event.Work? && s.host.worker.Busy? {
      BusyIsCalm(base, s.host);
      var e := s.host.worker.entry;
      AttemptKeeps(names, s.disk, s.host.disk, e.batch.value, s.host.slots[s.host.head][..e.length], event.outcome, after.disk);
    } else {
      QuietStep(base, s.host, event, after.host);
    }
  }

  ghost predicate IsRun<D(!new)>(names: Naming<D>, states: seq<Service<D>>, events: seq<Hosts.Event<Effects>>) {
    |states| == |events| + 1 && forall i | 0 <= i < |events| :: Next(names, states[i], events[i], states[i + 1])
  }

  lemma {:induction false} RunJoint<D(!new)>(names: Naming<D>, base: Hosts.Durable<seq<Bucket>>, states: seq<Service<D>>, events: seq<Hosts.Event<Effects>>, i: nat)
    requires IsRun(names, states, events) && Joint(names, base, states[0]) && i < |states|
    ensures Joint(names, base, states[i])
  {
    hide Joint, Next;
    if i > 0 {
      RunJoint(names, base, states, events, i - 1);
      JointStep(names, base, states[i - 1], events[i - 1], states[i]);
    }
  }

  /** A host created over a sound, settled disk starts out together with it. */
  lemma CreatedJoint<D>(names: Naming<D>, base: Hosts.Durable<seq<Bucket>>, capacity: nat, metadataBytes: nat, d: Owners.Disk<D>)
    requires Owners.Sound(names, d) && Agrees(base, d.durable) && d.live == d.durable && d.pending.None? && !d.poisoned
    requires capacity > 0 && base.advance < U64_LIMIT
    ensures Joint(names, base, Service(Hosts.Created(base, capacity, metadataBytes), d))
  {
    hide Hosts.Inv, Owners.Sound;
    Hosts.CreatedInv(Publishing(), base, capacity, metadataBytes);
  }

  // ----- what a finished wait promises -------------------------------------

  /** Submissions over a map, the last one winning. */
  ghost function Overlaid(m: Effects, submitted: Submissions): Effects {
    if submitted == [] then m else Overlaid(m, submitted[..|submitted| - 1]) + submitted[|submitted| - 1].0
  }

  lemma {:induction false} PublishReads(history: seq<Bucket>, batch: Effects, metadata: Bytes, k: Identity)
    ensures ValueAt(LastWriter(Publish(history, batch, metadata)), k) == if k in batch then batch[k] else ValueAt(LastWriter(history), k)
  {
    hide View;
    var rows := NormalForm(LastWriter(history), batch);
    assert Publish(history, batch, metadata)[..|history|] == history;
    assert View(rows) == Changed(LastWriter(history), batch);
  }

  /** Publishing submissions one after another reads as overlaying them: leaving out
      effects that change nothing never shows. */
  lemma {:induction false} FoldReads(base: Hosts.Durable<seq<Bucket>>, submitted: Submissions, k: Identity)
    ensures ValueAt(LastWriter(Hosts.Fold(Publishing(), base, submitted).state), k) == ValueAt(Overlaid(LastWriter(base.state), submitted), k)
  {
    if submitted != [] {
      var front, batch := submitted[..|submitted| - 1], submitted[|submitted| - 1].0;
      FoldReads(base, front, k);
      PublishReads(Hosts.Fold(Publishing(), base, front).state, batch, submitted[|submitted| - 1].1, k);
    }
  }

  /** The last submission that names a key decides it. */
  lemma {:induction false} LastNaming(m: Effects, submitted: Submissions, j: nat, k: Identity)
    requires j < |submitted| && k in submitted[j].0 && forall i | j < i < |submitted| :: k !in submitted[i].0
    ensures k in Overlaid(m, submitted) && Overlaid(m, submitted)[k] == submitted[j].0[k]
  {
    var last := |submitted| - 1;
    if j < last { LastNaming(m, submitted[..last], j, k); }
  }

  /** The catalog's history is the fold of a prefix of the submissions that reaches
      everything reported durable. */
  lemma {:induction false} DurableIsPrefix<D>(names: Naming<D>, base: Hosts.Durable<seq<Bucket>>, s: Service<D>)
    requires Joint(names, base, s)
    ensures var n := |s.disk.durable.history| - base.advance;
            && s.host.cache.advance - base.advance <= n && 0 <= n <= |s.host.submitted|
            && s.disk.durable.history == Hosts.Fold(Publishing(), base, s.host.submitted[..n]).state
  {
    hide Hosts.Landing;
    hide Hosts.RingInv, Hosts.WorkerInv, Hosts.WaitersInv, Owners.Sound;
    var n := s.host.cache.advance - base.advance;
    if s.host.disk != s.host.cache {
      Hosts.FoldStep(Publishing(), base, s.host.submitted, n);
      Hosts.OneAdvances(Publishing(), s.host.cache, s.host.submitted[n]);
    }
  }

  /** Whatever has failed since, reopening gives a complete database that contains
      every submission a wait was told is durable: a key reads as the last of the
      published submissions that names it, and else as it did at the start. */
  lemma WaitSurvivesReopening<D>(names: Naming<D>, base: Hosts.Durable<seq<Bucket>>, s: Service<D>, sequence: nat, after: Owners.Disk<D>, k: Identity)
    requires Joint(names, base, s) && sequence <= s.host.cache.advance && Owners.Next(names, s.disk, Owners.Reopen, after)
    ensures Owners.Sound(names, after) && Present(after.blobs, after.live.frontier) && after.live.frontier.sequence >= sequence
    ensures var n := after.live.frontier.sequence - base.advance;
            && 0 <= n <= |s.host.submitted|
            && Get(LevelsOf(after.blobs, after.live.frontier), k) == ValueAt(Overlaid(LastWriter(base.state), s.host.submitted[..n]), k)
            && forall j | 0 <= j < n && k in s.host.submitted[j].0 && (forall i | j < i < n :: k !in s.host.submitted[i].0) ::
                 Get(LevelsOf(after.blobs, after.live.frontier), k) == s.host.submitted[j].0[k]
  {
    hide Get, LastWriter, LevelsOf, Run, Accepts, Hosts.Fold, Hosts.Inv, Overlaid;
    Owners.StepSound(names, s.disk, Owners.Reopen, after);
    DurableIsPrefix(names, base, s);
    VersionReads(names, after.blobs, after.live, k);
    var n := |s.disk.durable.history| - base.advance;
    var published := s.host.submitted[..n];
    FoldReads(base, published, k);
    forall j | 0 <= j < n && k in s.host.submitted[j].0 && (forall i | j < i < n :: k !in s.host.submitted[i].0)
      ensures ValueAt(Overlaid(LastWriter(base.state), published), k) == s.host.submitted[j].0[k]
    {
      LastNaming(LastWriter(base.state), published, j, k);
    }
  }

  // ----- the attempt on the owner object -----------------------------------

  lemma NothingPending<D>(names: Naming<D>, d: Owners.Disk<D>, after: Owners.Disk<D>)
    requires Owners.Next(names, d, Owners.PrepareFails, after) && d.pending.None?
    ensures after.pending.None?
  {
  }

  lemma CommitSteps<D>(names: Naming<D>, mid: Owners.Disk<D>, outcome: Owners.Outcome, committed: Owners.Disk<D>, after: Owners.Disk<D>, result: Hosts.Outcome)
    requires Owners.Next(names, mid, Owners.Publish(outcome), committed)
    requires match outcome
             case Published => result.Landed? && after == committed
             case LostBefore => result.LostBefore? && Owners.Next(names, committed, Owners.Abort, after)
             case LostAfter => result.LostAfter? && Owners.Next(names, committed, Owners.Abort, after)
    ensures Committed(names, mid, result, after) && after.pending.None? && (result.Landed? ==> !after.poisoned)
  {
  }

  /** The disk part of `publish`: prepare, commit, and release what was not
      committed. */
  method PublishThrough<D(==, !new)>(owner: Owners.Owner<D>, next: U64, changes: seq<Record>, metadata: Bytes, writes: nat, outcome: Owners.Outcome)
    returns (result: Hosts.Outcome)
    requires owner.Valid() && !owner.poisoned && !owner.preparedOpen && Staging.Distinct(changes) && RowsTyped(owner.typed, changes)
    modifies owner
    ensures owner.Valid() && !owner.preparedOpen
    ensures Attempted(owner.names, old(owner.State()), View(changes), metadata, result, owner.State())
    ensures result.Landed? ==> outcome == Owners.Published && !owner.poisoned
  {
    hide Owners.Sound, Owners.Next, Ideal, AllTyped, Owners.Metered, Owners.ViewsMatch, RowsTyped, Staging.Distinct, View;
    ghost var before := owner.State();
    var made := owner.Prepare(next, changes, metadata, writes);
    if made.Err? {
      NothingPending(owner.names, before, owner.State());
      return Hosts.LostBefore(0);
    }
    ghost var mid := owner.State();
    assert PreparedBy(owner.names, before, View(changes), metadata, mid);
    var committed := made.value.Commit(outcome);
    ghost var settled := owner.State();
    made.value.Discard();
    match outcome {
      case Published => result := Hosts.Landed;
      case LostBefore => result := Hosts.LostBefore(0);
      case LostAfter => result := Hosts.LostAfter(0);
    }
    CommitSteps(owner.names, mid, outcome, settled, owner.State(), result);
  }
}
