/** The bounded background host (src/host.zig): submitters, waiters and one worker
    share a ring, a mutex and a single condition variable. A step is one critical
    section, one disk publication, or one wakeup; every interleaving is a run. */
module Hosts {
  import opened Wire

  /** What is durable: the advance reached, the state at it and its metadata. */
  datatype Durable<S> = Durable(advance: nat, state: S, metadata: Bytes)

  type Apply<!B, !S> = (S, B, Bytes) -> S

  function Landing<B, S>(apply: Apply<B, S>, d: Durable<S>, submission: (B, Bytes)): Durable<S> {
    Durable(d.advance + 1, apply(d.state, submission.0, submission.1), submission.1)
  }

  /** The fold of a prefix of the submissions. */
  function Fold<B, S>(apply: Apply<B, S>, base: Durable<S>, submitted: seq<(B, Bytes)>): (d: Durable<S>)
    ensures d.advance == base.advance + |submitted|
  {
    if submitted == [] then base
    else Landing(apply, Fold(apply, base, submitted[..|submitted| - 1]), submitted[|submitted| - 1])
  }

  datatype Entry<B> = Entry(batch: Option<B>, next: nat, length: nat)

  /** Where the worker thread stands. `Busy` and `Committed` hold the active batch
      outside the mutex; `Settled` and `Discarding` hold one that left the ring;
      `Broken` has already freed the batch whose publication failed. */
  datatype Worker<B> =
    | Ready | Asleep | Busy(entry: Entry<B>) | Committed(entry: Entry<B>) | Settled(batch: B)
    | Broken(error: nat) | Discarding(batch: B) | Exited

  datatype Waiter = Waiter(sequence: nat, asleep: bool)

  datatype Host<B, S> = Host(
    ring: seq<Entry<B>>, slots: seq<Bytes>, head: nat, count: nat, accepted: nat,
    paused: bool, stopping: bool, failure: Option<nat>, backpressure: nat,
    cache: Durable<S>, disk: Durable<S>, worker: Worker<B>, waiters: map<nat, Waiter>,
    submitted: seq<(B, Bytes)>, freed: seq<B>)

  /** A position of the ring, at most one lap ahead. */
  function Wrap(i: nat, capacity: nat): nat { if i < capacity then i else i - capacity }

  lemma WrapIsRemainder(i: nat, capacity: nat)
    requires 0 < capacity && i < 2 * capacity
    ensures i % capacity == Wrap(i, capacity)
  {
    if i >= capacity { assert i == capacity + (i - capacity); }
  }

  // ----- the condition variable --------------------------------------------

  function Awake(waiters: map<nat, Waiter>): map<nat, Waiter> { map id | id in waiters :: waiters[id].(asleep := false) }

  function Roused<B>(worker: Worker<B>): Worker<B> { if worker.Asleep? then Ready else worker }

  function Broadcast<B, S>(h: Host<B, S>): Host<B, S> { h.(worker := Roused(h.worker), waiters := Awake(h.waiters)) }

  predicate Sleeping(waiters: map<nat, Waiter>, id: nat) { id in waiters && waiters[id].asleep }

  /** A signal wakes one sleeper, whichever it may be. */
  ghost predicate Signalled<B, S>(h: Host<B, S>, after: Host<B, S>) {
    || (after == h && !h.worker.Asleep? && forall id :: !Sleeping(h.waiters, id))
    || (h.worker.Asleep? && after == h.(worker := Ready))
    || exists id :: Sleeping(h.waiters, id) && after == h.(waiters := h.waiters[id := h.waiters[id].(asleep := false)])
  }

  // ----- steps -------------------------------------------------------------

  /** How one publication ends; a lost one may or may not have reached the disk. */
  datatype Outcome = Landed | LostBefore(error: nat) | LostAfter(error: nat)

  datatype Event<B> =
    | Admit(batch: B, metadata: Bytes)
    | Refuse(counted: bool)
    | WaitFor(id: nat, sequence: nat)
    | WaitAgain(id: nat)
    | WakeWaiter(id: nat)
    | WakeWorker
    | Pause
    | Resume
    | Stop
    | Work(outcome: Outcome)

  function Stored(slot: Bytes, metadata: Bytes): Bytes
    requires |metadata| <= |slot|
  {
    metadata + slot[|metadata|..]
  }

  predicate CanAdmit<B, S>(h: Host<B, S>, metadata: Bytes) {
    && !h.stopping && h.failure.None? && h.count < |h.ring| == |h.slots| && h.head < |h.ring| && h.accepted + 1 < U64_LIMIT
    && |metadata| <= |h.slots[Wrap(h.head + h.count, |h.ring|)]|
  }

  function Admitted<B, S>(h: Host<B, S>, batch: B, metadata: Bytes): Host<B, S>
    requires CanAdmit(h, metadata)
  {
    var tail := Wrap(h.head + h.count, |h.ring|);
    h.(slots := h.slots[tail := Stored(h.slots[tail], metadata)], ring := h.ring[tail := Entry(Some(batch), h.accepted + 1, |metadata|)],
       count := h.count + 1, accepted := h.accepted + 1, submitted := h.submitted + [(batch, metadata)])
  }

  /** The end of `fail`: hand out the next abandoned batch, or finish. */
  function PopOrExit<B, S>(h: Host<B, S>): Host<B, S>
    requires h.head < |h.ring| && (h.count > 0 ==> h.ring[h.head].batch.Some?)
  {
    if h.count == 0 then h.(worker := Exited)
    else h.(worker := Discarding(h.ring[h.head].batch.value), ring := h.ring[h.head := h.ring[h.head].(batch := None)],
            head := Wrap(h.head + 1, |h.ring|), count := h.count - 1)
  }

  ghost predicate WorkerCanStep<B, S>(h: Host<B, S>) {
    && h.head < |h.ring| == |h.slots|
    && match h.worker
       case Ready => true
       case Busy(e) => e.batch.Some? && e.length <= |h.slots[h.head]|
       case Committed(e) => e.batch.Some? && h.count > 0
       case Settled(_) => true
       case Broken(_) =>
         h.count > 0 && var next := Wrap(h.head + 1, |h.ring|); next < |h.ring| && (h.count > 1 ==> h.ring[next].batch.Some?)
       case Discarding(_) => h.count > 0 ==> h.ring[h.head].batch.Some?
       case _ => false
  }

  /** The worker's next step. */
  function Worked<B, S>(apply: Apply<B, S>, h: Host<B, S>, outcome: Outcome): Host<B, S>
    requires WorkerCanStep(h)
  {
    match h.worker
    case Ready =>
      if h.count == 0 || h.paused then
        if h.stopping && h.count == 0 then h.(worker := Exited) else h.(worker := Asleep)
      else
        h.(worker := Busy(h.ring[h.head]), ring := h.ring[h.head := h.ring[h.head].(batch := None)])
    case Busy(e) =>
      var landed := Landing(apply, h.disk, (e.batch.value, h.slots[h.head][..e.length]));
      (match outcome
       case Landed => h.(disk := landed, worker := Committed(e))
       case LostBefore(error) => h.(freed := h.freed + [e.batch.value], worker := Broken(error))
       case LostAfter(error) => h.(disk := landed, freed := h.freed + [e.batch.value], worker := Broken(error)))
    case Committed(e) =>
      Broadcast(h.(cache := h.disk, head := Wrap(h.head + 1, |h.ring|), count := h.count - 1, worker := Settled(e.batch.value)))
    case Settled(b) => h.(freed := h.freed + [b], worker := Ready)
    case Broken(error) =>
      PopOrExit(Broadcast(h.(failure := Some(error), head := Wrap(h.head + 1, |h.ring|), count := h.count - 1)))
    case Discarding(b) => PopOrExit(h.(freed := h.freed + [b]))
    case _ => h
  }

  ghost predicate Next<B, S>(apply: Apply<B, S>, h: Host<B, S>, event: Event<B>, after: Host<B, S>) {
    match event
    case Admit(b, m) => CanAdmit(h, m) && if h.paused then after == Admitted(h, b, m) else Signalled(Admitted(h, b, m), after)
    case Refuse(counted) => after == h.(backpressure := if counted then h.backpressure + 1 else h.backpressure)
    case WaitFor(id, q) =>
      && id !in h.waiters && h.cache.advance < q <= h.accepted && h.failure.None?
      && after == h.(waiters := h.waiters[id := Waiter(q, true)])
    case WaitAgain(id) =>
      && id in h.waiters && !h.waiters[id].asleep
      && after == h.(waiters := if h.waiters[id].sequence <= h.cache.advance || h.failure.Some? then h.waiters - {id}
                                else h.waiters[id := h.waiters[id].(asleep := true)])
    case WakeWaiter(id) => Sleeping(h.waiters, id) && after == h.(waiters := h.waiters[id := h.waiters[id].(asleep := false)])
    case WakeWorker => h.worker.Asleep? && after == h.(worker := Ready)
    case Pause => after == h.(paused := true)
    case Resume => after == Broadcast(h.(paused := false))
    case Stop => after == Broadcast(h.(stopping := true, paused := false))
    case Work(outcome) => WorkerCanStep(h) && after == Worked(apply, h, outcome)
  }

  // ----- the invariant -----------------------------------------------------

  /** How many submissions have left the ring. */
  function Done<B, S>(h: Host<B, S>): int { |h.submitted| - h.count }

  /** The head slot belongs to the worker. */
  predicate Active<B>(worker: Worker<B>) { worker.Busy? || worker.Committed? || worker.Broken? }

  function Held<B>(worker: Worker<B>): seq<B> {
    match worker
    case Busy(e) => if e.batch.Some? then [e.batch.value] else []
    case Committed(e) => if e.batch.Some? then [e.batch.value] else []
    case Settled(b) => [b]
    case Discarding(b) => [b]
    case _ => []
  }

  /** The `k`-th counted slot holds the `k`-th outstanding submission. */
  ghost predicate SlotHolds<B, S>(base: nat, h: Host<B, S>, k: nat)
    requires k < h.count <= |h.ring| == |h.slots| && h.head < |h.ring| && h.count <= |h.submitted|
  {
    var i, (b, m) := Wrap(h.head + k, |h.ring|), h.submitted[Done(h) + k];
    && h.ring[i] == Entry(if k == 0 && Active(h.worker) then None else Some(b), base + Done(h) + k + 1, |m|)
    && |m| <= |h.slots[i]| && h.slots[i][..|m|] == m
  }

  ghost predicate RingInv<B, S>(base: nat, h: Host<B, S>) {
    && 0 < |h.ring| == |h.slots| && h.head < |h.ring| && h.count <= |h.ring| && h.count <= |h.submitted|
    && h.accepted == base + |h.submitted| < U64_LIMIT
    && forall k: nat | k < h.count :: SlotHolds(base, h, k)
  }

  /** The entry the worker carries is the oldest outstanding submission. */
  ghost predicate Carries<B, S>(base: nat, h: Host<B, S>, e: Entry<B>)
    requires h.count <= |h.submitted|
  {
    && h.count > 0
    && e == Entry(Some(h.submitted[Done(h)].0), base + Done(h) + 1, |h.submitted[Done(h)].1|)
  }

  /** Batches freed so far, as a number of submissions. */
  function FreedCount<B, S>(h: Host<B, S>): int {
    Done(h) + match h.worker case Settled(_) => -1 case Discarding(_) => -1 case Broken(_) => 1 case _ => 0
  }

  ghost predicate Batches<B>(batches: seq<B>, submitted: seq<(B, Bytes)>) {
    |batches| == |submitted| && forall i | 0 <= i < |batches| :: batches[i] == submitted[i].0
  }

  ghost predicate WorkerInv<B, S>(base: nat, h: Host<B, S>)
    requires h.count <= |h.submitted|
  {
    && (h.failure.Some? <==> h.worker.Discarding? || (h.worker.Exited? && h.failure.Some?))
    && 0 <= FreedCount(h) <= |h.submitted| && Batches(h.freed, h.submitted[..FreedCount(h)])
    && match h.worker
       case Ready => true
       case Asleep => (h.count == 0 || h.paused) && (h.stopping ==> h.paused && h.count > 0)
       case Busy(e) => Carries(base, h, e)
       case Committed(e) => Carries(base, h, e)
       case Settled(b) => Done(h) > 0 && b == h.submitted[Done(h) - 1].0
       case Broken(_) => h.count > 0
       case Discarding(b) => Done(h) > 0 && b == h.submitted[Done(h) - 1].0
       case Exited => h.count == 0 && (h.stopping || h.failure.Some?)
  }

  /** The disk is one submission ahead of the acknowledged state. */
  ghost predicate DiskAhead<B, S>(apply: Apply<B, S>, base: Durable<S>, h: Host<B, S>) {
    var n := h.cache.advance - base.advance;
    0 <= n < |h.submitted| && h.disk == Landing(apply, h.cache, h.submitted[n])
  }

  /** Durable state is the fold of a submitted prefix: all submissions that left the
      ring, unless a failure cut it short. */
  ghost predicate DurableInv<B, S>(apply: Apply<B, S>, base: Durable<S>, h: Host<B, S>) {
    var n := h.cache.advance - base.advance;
    && 0 <= n <= Done(h) && h.count <= |h.submitted|
    && h.cache == Fold(apply, base, h.submitted[..n])
    && (h.failure.None? ==> n == Done(h))
    && (if h.worker.Committed? then DiskAhead(apply, base, h)
        else if h.worker.Broken? || h.failure.Some? then h.disk == h.cache || DiskAhead(apply, base, h)
        else h.disk == h.cache)
  }

  /** Waiters wait for accepted sequences, and a sleeping one for an outstanding
      submission of a healthy host. */
  ghost predicate WaitersInv<B, S>(h: Host<B, S>) {
    && (forall id | id in h.waiters :: h.waiters[id].sequence <= h.accepted)
    && (forall id | Sleeping(h.waiters, id) :: h.cache.advance < h.waiters[id].sequence && h.failure.None?)
  }

  ghost predicate Inv<B, S>(apply: Apply<B, S>, base: Durable<S>, h: Host<B, S>) {
    RingInv(base.advance, h) && WorkerInv(base.advance, h) && DurableInv(apply, base, h) && WaitersInv(h)
  }

  function Created<B, S>(base: Durable<S>, capacity: nat, metadataBytes: nat): Host<B, S> {
    Host(seq(capacity, _ => Entry(None, 0, 0)), seq(capacity, _ => seq(metadataBytes, _ => 0)), 0, 0, base.advance,
         false, false, None, 0, base, base, Ready, map[], [], [])
  }

  lemma CreatedInv<B, S>(apply: Apply<B, S>, base: Durable<S>, capacity: nat, metadataBytes: nat)
    requires capacity > 0 && base.advance < U64_LIMIT
    ensures Inv(apply, base, Created(base, capacity, metadataBytes))
  {
  }

  // ----- what the invariant says -------------------------------------------

  /** Without a failure everything accepted is durable or outstanding. */
  lemma AcceptedIsDurablePlusQueued<B, S>(apply: Apply<B, S>, base: Durable<S>, h: Host<B, S>)
    requires Inv(apply, base, h) && h.failure.None?
    ensures h.accepted == h.cache.advance + h.count
  {
  }

  /** A sleeping waiter implies outstanding work. */
  lemma SleeperImpliesWork<B, S>(apply: Apply<B, S>, base: Durable<S>, h: Host<B, S>, id: nat)
    requires Inv(apply, base, h) && Sleeping(h.waiters, id)
    ensures h.count > 0
  {
  }

  /** The batches still in the ring, in order. */
  function Queued<B, S>(h: Host<B, S>, k: nat): seq<B>
    requires k <= h.count <= |h.ring| && h.head < |h.ring|
    decreases h.count - k
  {
    if k == h.count then [] else
    var e := h.ring[Wrap(h.head + k, |h.ring|)];
    (if e.batch.Some? then [e.batch.value] else []) + Queued(h, k + 1)
  }

  lemma {:induction false} QueuedAre<B, S>(base: nat, h: Host<B, S>, k: nat)
    requires RingInv(base, h) && k <= h.count && (k == 0 ==> !Active(h.worker))
    ensures Batches(Queued(h, k), h.submitted[Done(h) + k..])
    decreases h.count - k
  {
    if k < h.count {
      QueuedAre(base, h, k + 1);
      assert SlotHolds(base, h, k);
      TakeGrows(h.submitted, Done(h) + k);
    }
  }

  lemma Joined<B>(freed: seq<B>, held: seq<B>, queued: seq<B>, submitted: seq<(B, Bytes)>, f: nat, g: nat)
    requires f <= g <= |submitted| && Batches(freed, submitted[..f]) && Batches(queued, submitted[g..])
    requires g == f + |held| && forall i | 0 <= i < |held| :: held[i] == submitted[f + i].0
    ensures Batches(freed + held + queued, submitted)
  {
  }

  lemma {:induction false} HeadTaken<B, S>(base: nat, h: Host<B, S>)
    requires RingInv(base, h) && h.count > 0 && Active(h.worker)
    ensures Queued(h, 0) == Queued(h, 1)
  {
    assert SlotHolds(base, h, 0);
    assert [] + Queued(h, 1) == Queued(h, 1);
    assert h.head < |h.ring| && Wrap(h.head + 0, |h.ring|) == h.head;
  }

  /** Each submitted batch has exactly one owner: the freed ones, the one in the
      worker's hands and the ones in the ring are together all submissions, in
      submission order. */
  lemma {:induction false} OneOwner<B, S>(apply: Apply<B, S>, base: Durable<S>, h: Host<B, S>)
    requires Inv(apply, base, h)
    ensures Batches(h.freed + Held(h.worker) + Queued(h, 0), h.submitted)
  {
    hide SlotHolds, DurableInv, WaitersInv, Queued, Batches;
    if Active(h.worker) {
      HeadTaken(base.advance, h);
      QueuedAre(base.advance, h, 1);
      Joined(h.freed, Held(h.worker), Queued(h, 0), h.submitted, FreedCount(h), Done(h) + 1);
    } else {
      QueuedAre(base.advance, h, 0);
      Joined(h.freed, Held(h.worker), Queued(h, 0), h.submitted, FreedCount(h), Done(h));
    }
  }

  // ----- the invariant is inductive ----------------------------------------

  lemma WrapNext(head: nat, k: nat, capacity: nat)
    requires head < capacity && k < capacity
    ensures Wrap(head + k, capacity) < capacity
    ensures k + 1 < capacity ==> Wrap(Wrap(head + 1, capacity) + k, capacity) == Wrap(head + (k + 1), capacity)
    ensures Wrap(head + 1, capacity) < capacity
  {
  }

  lemma WrapApart(head: nat, j: nat, k: nat, capacity: nat)
    requires head < capacity && j < k < capacity
    ensures Wrap(head + j, capacity) != Wrap(head + k, capacity)
  {
  }

  lemma PrefixOfMore<T>(s: seq<T>, more: T, n: nat)
    requires n <= |s|
    ensures (s + [more])[..n] == s[..n]
  {
  }

  /** Admission fills a free slot: the counted ones, the active one included, keep
      their entries and their metadata. */
  lemma AdmitRing<B, S>(base: nat, h: Host<B, S>, b: B, m: Bytes)
    requires RingInv(base, h) && CanAdmit(h, m) && (h.count == 0 ==> !Active(h.worker))
    ensures RingInv(base, Admitted(h, b, m))
  {
    var after := Admitted(h, b, m);
    var tail := Wrap(h.head + h.count, |h.ring|);
    forall k: nat | k < after.count ensures SlotHolds(base, after, k) {
      if k < h.count {
        assert SlotHolds(base, h, k);
        WrapApart(h.head, k, h.count, |h.ring|);
      } else {
        assert after.slots[tail][..|m|] == m;
      }
    }
  }

  /** While the worker uses the head slot outside the mutex, no step of anyone
      overwrites that slot's metadata. */
  lemma ActiveSlotPinned<B, S>(apply: Apply<B, S>, base: Durable<S>, h: Host<B, S>, event: Event<B>, after: Host<B, S>)
    requires Inv(apply, base, h) && Active(h.worker) && Next(apply, h, event, after)
    ensures |after.slots| == |h.slots| && after.slots[h.head] == h.slots[h.head]
  {
    hide SlotHolds, DurableInv, WaitersInv;
    if event.Admit? { WrapApart(h.head, 0, h.count, |h.ring|); }
  }

  /** One signal is enough: a worker asleep over an unpaused host sleeps because
      the ring was empty, and then nobody else sleeps. */
  lemma SignalReachesWorker<B, S>(apply: Apply<B, S>, base: Durable<S>, h: Host<B, S>, b: B, m: Bytes, after: Host<B, S>)
    requires Inv(apply, base, h) && CanAdmit(h, m) && !h.paused && Signalled(Admitted(h, b, m), after)
    ensures !after.worker.Asleep?
    ensures h.worker.Asleep? ==> after == Admitted(h, b, m).(worker := Ready)
  {
    hide RingInv, DurableInv;
    if h.worker.Asleep? {
      assert h.count == 0;
      forall id ensures !Sleeping(h.waiters, id) {
        if Sleeping(h.waiters, id) { SleeperImpliesWork(apply, base, h, id); }
      }
    }
  }

  lemma AdmitKeepsWorker<B, S>(base: nat, h: Host<B, S>, b: B, m: Bytes)
    requires h.count <= |h.submitted| && WorkerInv(base, h) && CanAdmit(h, m) && (h.worker.Asleep? ==> h.paused)
    ensures WorkerInv(base, Admitted(h, b, m))
  {
    PrefixOfMore(h.submitted, (b, m), FreedCount(h));
  }

  lemma AdmitKeepsDurable<B, S>(apply: Apply<B, S>, base: Durable<S>, h: Host<B, S>, b: B, m: Bytes)
    requires DurableInv(apply, base, h) && CanAdmit(h, m)
    ensures DurableInv(apply, base, Admitted(h, b, m))
  {
    PrefixOfMore(h.submitted, (b, m), h.cache.advance - base.advance);
  }

  lemma AdmitInv<B, S>(apply: Apply<B, S>, base: Durable<S>, h: Host<B, S>, b: B, m: Bytes)
    requires Inv(apply, base, h) && CanAdmit(h, m) && !h.worker.Asleep?
    ensures Inv(apply, base, Admitted(h, b, m))
  {
    AdmitRing(base.advance, h, b, m);
    AdmitKeepsWorker(base.advance, h, b, m);
    AdmitKeepsDurable(apply, base, h, b, m);
  }

  /** Only `paused` keeps an asleep worker asleep through an admission. */
  lemma PausedAdmitInv<B, S>(apply: Apply<B, S>, base: Durable<S>, h: Host<B, S>, b: B, m: Bytes)
    requires Inv(apply, base, h) && CanAdmit(h, m) && h.paused
    ensures Inv(apply, base, Admitted(h, b, m))
  {
    AdmitRing(base.advance, h, b, m);
    AdmitKeepsWorker(base.advance, h, b, m);
    AdmitKeepsDurable(apply, base, h, b, m);
  }

  /** The same ring under a worker that stands elsewhere. */
  lemma SameRing<B, S>(base: nat, h: Host<B, S>, after: Host<B, S>)
    requires RingInv(base, h) && after.head == h.head && after.count == h.count && Active(after.worker) == Active(h.worker)
    requires after.slots == h.slots && after.ring == h.ring && after.accepted == h.accepted && after.submitted == h.submitted
    ensures RingInv(base, after)
  {
    forall k: nat | k < after.count ensures SlotHolds(base, after, k) { assert SlotHolds(base, h, k); }
  }

  lemma WokenInv<B, S>(apply: Apply<B, S>, base: Durable<S>, h: Host<B, S>, after: Host<B, S>)
    requires Inv(apply, base, h) && after.worker == Roused(h.worker)
    requires after == h.(worker := after.worker, waiters := after.waiters, paused := after.paused, stopping := after.stopping)
    requires h.stopping ==> after.stopping
    requires forall id | id in after.waiters :: id in h.waiters && after.waiters[id].sequence == h.waiters[id].sequence
    requires forall id | Sleeping(after.waiters, id) :: Sleeping(h.waiters, id)
    ensures Inv(apply, base, after)
  {
    hide RingInv, Fold, Landing;
    SameRing(base.advance, h, after);
  }

  lemma CalmInv<B, S>(apply: Apply<B, S>, base: Durable<S>, h: Host<B, S>, after: Host<B, S>)
    requires Inv(apply, base, h)
    requires after == h.(waiters := after.waiters, paused := after.paused, backpressure := after.backpressure)
    requires h.paused ==> after.paused
    requires WaitersInv(after)
    ensures Inv(apply, base, after)
  {
    hide RingInv, Fold, Landing;
    SameRing(base.advance, h, after);
  }

  /** Dropping the head slot shifts the outstanding submissions by one. */
  lemma DropRing<B, S>(base: nat, h: Host<B, S>, after: Host<B, S>)
    requires RingInv(base, h) && h.count > 0
    requires after.head == Wrap(h.head + 1, |h.ring|) && after.count == h.count - 1 && !Active(after.worker)
    requires after.slots == h.slots && after.accepted == h.accepted && after.submitted == h.submitted
    requires |after.ring| == |h.ring| && forall i | 0 <= i < |h.ring| && i != h.head :: after.ring[i] == h.ring[i]
    ensures RingInv(base, after)
    ensures after.count > 0 ==> after.ring[after.head].batch == Some(h.submitted[Done(h) + 1].0)
  {
    WrapNext(h.head, 0, |h.ring|);
    forall k: nat | k < after.count ensures SlotHolds(base, after, k) {
      assert SlotHolds(base, h, k + 1);
      WrapNext(h.head, k, |h.ring|);
      WrapApart(h.head, 0, k + 1, |h.ring|);
    }
    if after.count > 0 { assert SlotHolds(base, after, 0); }
  }

  lemma TakeRing<B, S>(base: nat, h: Host<B, S>)
    requires RingInv(base, h) && !Active(h.worker) && h.count > 0
    ensures Carries(base, h, h.ring[h.head])
    ensures RingInv(base, h.(worker := Busy(h.ring[h.head]), ring := h.ring[h.head := h.ring[h.head].(batch := None)]))
  {
    var after := h.(worker := Busy(h.ring[h.head]), ring := h.ring[h.head := h.ring[h.head].(batch := None)]);
    assert SlotHolds(base, h, 0);
    forall k: nat | k < after.count ensures SlotHolds(base, after, k) {
      assert SlotHolds(base, h, k);
      if k > 0 { WrapApart(h.head, 0, k, |h.ring|); }
    }
  }

  lemma TakeInv<B, S>(apply: Apply<B, S>, base: Durable<S>, h: Host<B, S>)
    requires Inv(apply, base, h) && h.worker.Ready? && h.count > 0 && !h.paused
    ensures var after := h.(worker := Busy(h.ring[h.head]), ring := h.ring[h.head := h.ring[h.head].(batch := None)]);
            Inv(apply, base, after)
  {
    hide RingInv, Fold, Landing;
    TakeRing(base.advance, h);
  }

  /** The entry being published is the oldest queued submission, whose metadata is
      still in its slot. */
  lemma ActiveEntry<B, S>(base: nat, h: Host<B, S>, e: Entry<B>)
    requires RingInv(base, h) && Carries(base, h, e)
    ensures h.head < |h.ring| == |h.slots| && h.count <= |h.submitted|
    ensures e.batch.Some? && e.length <= |h.slots[h.head]| && (e.batch.value, h.slots[h.head][..e.length]) == h.submitted[Done(h)]
  {
    assert SlotHolds(base, h, 0);
  }

  lemma PublishWorker<B, S>(apply: Apply<B, S>, base: Durable<S>, h: Host<B, S>, outcome: Outcome)
    requires Inv(apply, base, h) && h.worker.Busy? && WorkerCanStep(h)
    ensures WorkerInv(base.advance, Worked(apply, h, outcome))
  {
    hide RingInv, DurableInv, WaitersInv, Landing;
    if outcome != Landed { TakeGrows(h.submitted, Done(h)); }
  }

  lemma PublishDurable<B, S>(apply: Apply<B, S>, base: Durable<S>, h: Host<B, S>, outcome: Outcome)
    requires Inv(apply, base, h) && h.worker.Busy? && WorkerCanStep(h)
    requires (h.worker.entry.batch.value, h.slots[h.head][..h.worker.entry.length]) == h.submitted[Done(h)]
    ensures DurableInv(apply, base, Worked(apply, h, outcome)) && WaitersInv(Worked(apply, h, outcome))
  {
    hide RingInv, Fold, Landing, Batches;
  }

  lemma PublishInv<B, S>(apply: Apply<B, S>, base: Durable<S>, h: Host<B, S>, outcome: Outcome)
    requires Inv(apply, base, h) && h.worker.Busy?
    ensures WorkerCanStep(h) && Inv(apply, base, Worked(apply, h, outcome))
  {
    hide RingInv, DurableInv, WaitersInv, Landing;
    ActiveEntry(base.advance, h, h.worker.entry);
    SameRing(base.advance, h, Worked(apply, h, outcome));
    PublishWorker(apply, base, h, outcome);
    PublishDurable(apply, base, h, outcome);
  }

  /** What acknowledging the landed submission leaves. */
  function Acknowledged<B, S>(h: Host<B, S>, batch: B): Host<B, S>
    requires h.count > 0
  {
    Broadcast(h.(cache := h.disk, head := Wrap(h.head + 1, |h.ring|), count := h.count - 1, worker := Settled(batch)))
  }

  lemma NobodySleeps<B, S>(after: Host<B, S>, h: Host<B, S>)
    requires WaitersInv(h) && after.waiters == Awake(h.waiters) && after.accepted == h.accepted
    ensures WaitersInv(after)
  {
  }

  lemma {:induction false} FoldStep<B, S>(apply: Apply<B, S>, base: Durable<S>, submitted: seq<(B, Bytes)>, n: nat)
    requires n < |submitted|
    ensures Fold(apply, base, submitted[..n + 1]) == Landing(apply, Fold(apply, base, submitted[..n]), submitted[n])
  {
    TakeGrows(submitted, n);
    assert submitted[..n + 1][..n] == submitted[..n];
  }

  lemma Lands<B, S>(apply: Apply<B, S>, d: Durable<S>, submission: (B, Bytes))
    ensures var landed := Landing(apply, d, submission); landed.metadata == submission.1 && landed.state == apply(d.state, submission.0, submission.1)
  {
  }

  lemma OneAdvances<B, S>(apply: Apply<B, S>, d: Durable<S>, submission: (B, Bytes))
    ensures Landing(apply, d, submission).advance == d.advance + 1
  {
  }

  lemma AcknowledgeDurable<B, S>(apply: Apply<B, S>, base: Durable<S>, h: Host<B, S>)
    requires DurableInv(apply, base, h) && h.worker.Committed? && h.worker.entry.batch.Some? && h.count > 0 && h.failure.None?
    ensures DurableInv(apply, base, Acknowledged(h, h.worker.entry.batch.value))
  {
    hide Wrap, Landing, Fold, Awake;
    var n := h.cache.advance - base.advance;
    FoldStep(apply, base, h.submitted, n);
    OneAdvances(apply, h.cache, h.submitted[n]);
  }

  lemma AcknowledgeKeeps<B, S>(apply: Apply<B, S>, base: Durable<S>, h: Host<B, S>)
    requires Inv(apply, base, h) && h.worker.Committed? && h.worker.entry.batch.Some?
    ensures var after := Acknowledged(h, h.worker.entry.batch.value);
            WorkerInv(base.advance, after) && DurableInv(apply, base, after) && WaitersInv(after)
  {
    hide RingInv, Wrap, DurableInv, WaitersInv;
    AcknowledgeDurable(apply, base, h);
    NobodySleeps(Acknowledged(h, h.worker.entry.batch.value), h);
  }

  lemma AcknowledgeInv<B, S>(apply: Apply<B, S>, base: Durable<S>, h: Host<B, S>, outcome: Outcome)
    requires Inv(apply, base, h) && h.worker.Committed?
    ensures WorkerCanStep(h) && Inv(apply, base, Worked(apply, h, outcome))
  {
    hide SlotHolds;
    var after := Worked(apply, h, outcome);
    DropRing(base.advance, h, after);
    AcknowledgeKeeps(apply, base, h);
  }

  lemma SettleInv<B, S>(apply: Apply<B, S>, base: Durable<S>, h: Host<B, S>, outcome: Outcome)
    requires Inv(apply, base, h) && h.worker.Settled?
    ensures WorkerCanStep(h) && Inv(apply, base, Worked(apply, h, outcome))
  {
    SameRing(base.advance, h, Worked(apply, h, outcome));
    TakeGrows(h.submitted, Done(h) - 1);
  }

  lemma PopInv<B, S>(base: nat, h: Host<B, S>)
    requires RingInv(base, h) && !Active(h.worker)
    ensures h.count > 0 ==> h.ring[h.head].batch == Some(h.submitted[Done(h)].0)
    ensures RingInv(base, PopOrExit(h))
  {
    if h.count > 0 {
      assert SlotHolds(base, h, 0);
      DropRing(base, h, PopOrExit(h));
    } else {
      SameRing(base, h, PopOrExit(h));
    }
  }

  lemma BreakKeepsWorker<B, S>(apply: Apply<B, S>, base: Durable<S>, h: Host<B, S>, mid: Host<B, S>, after: Host<B, S>)
    requires Inv(apply, base, h) && h.worker.Broken?
    requires mid == Broadcast(h.(failure := Some(h.worker.error), head := Wrap(h.head + 1, |h.ring|), count := h.count - 1)).(worker := Ready)
    requires RingInv(base.advance, mid) && (mid.count > 0 ==> mid.ring[mid.head].batch == Some(h.submitted[Done(mid)].0)) && after == PopOrExit(mid)
    ensures WorkerInv(base.advance, after)
  {
    hide RingInv, SlotHolds, DurableInv, WaitersInv, Wrap;
  }

  lemma BreakKeepsDurable<B, S>(apply: Apply<B, S>, base: Durable<S>, h: Host<B, S>, mid: Host<B, S>, after: Host<B, S>)
    requires Inv(apply, base, h) && h.worker.Broken?
    requires mid == Broadcast(h.(failure := Some(h.worker.error), head := Wrap(h.head + 1, |h.ring|), count := h.count - 1)).(worker := Ready)
    requires RingInv(base.advance, mid) && (mid.count > 0 ==> mid.ring[mid.head].batch == Some(h.submitted[Done(mid)].0)) && after == PopOrExit(mid)
    ensures DurableInv(apply, base, after) && WaitersInv(after)
  {
    hide RingInv, SlotHolds, Batches, Fold, Landing, Wrap;
  }

  lemma BreakKeeps<B, S>(apply: Apply<B, S>, base: Durable<S>, h: Host<B, S>, mid: Host<B, S>, after: Host<B, S>)
    requires Inv(apply, base, h) && h.worker.Broken?
    requires mid == Broadcast(h.(failure := Some(h.worker.error), head := Wrap(h.head + 1, |h.ring|), count := h.count - 1)).(worker := Ready)
    requires RingInv(base.advance, mid) && (mid.count > 0 ==> mid.ring[mid.head].batch == Some(h.submitted[Done(mid)].0)) && after == PopOrExit(mid)
    ensures WorkerInv(base.advance, after) && DurableInv(apply, base, after) && WaitersInv(after)
  {
    hide RingInv, WorkerInv, DurableInv, WaitersInv, PopOrExit;
    BreakKeepsWorker(apply, base, h, mid, after);
    BreakKeepsDurable(apply, base, h, mid, after);
  }

  lemma BrokenStep<B, S>(apply: Apply<B, S>, base: Durable<S>, h: Host<B, S>)
    requires Inv(apply, base, h) && h.worker.Broken?
    ensures WorkerCanStep(h) && h.count > 0
    ensures var mid := Broadcast(h.(failure := Some(h.worker.error), head := Wrap(h.head + 1, |h.ring|), count := h.count - 1)).(worker := Ready);
            && RingInv(base.advance, mid) && (mid.count > 0 ==> mid.head < |mid.ring| && mid.ring[mid.head].batch == Some(h.submitted[Done(mid)].0))
            && mid.head < |mid.ring| && RingInv(base.advance, PopOrExit(mid))
  {
    hide DurableInv, WaitersInv;
    var mid := Broadcast(h.(failure := Some(h.worker.error), head := Wrap(h.head + 1, |h.ring|), count := h.count - 1)).(worker := Ready);
    DropRing(base.advance, h, mid);
    PopInv(base.advance, mid);
  }

  lemma BreakInv<B, S>(apply: Apply<B, S>, base: Durable<S>, h: Host<B, S>, outcome: Outcome)
    requires Inv(apply, base, h) && h.worker.Broken?
    ensures WorkerCanStep(h) && Inv(apply, base, Worked(apply, h, outcome))
  {
    hide RingInv, WorkerInv, DurableInv, WaitersInv;
    BrokenStep(apply, base, h);
    var mid := Broadcast(h.(failure := Some(h.worker.error), head := Wrap(h.head + 1, |h.ring|), count := h.count - 1)).(worker := Ready);
    BreakKeeps(apply, base, h, mid, PopOrExit(mid));
  }

  lemma DiscardKeepsWorker<B, S>(apply: Apply<B, S>, base: Durable<S>, h: Host<B, S>, mid: Host<B, S>, after: Host<B, S>)
    requires Inv(apply, base, h) && h.worker.Discarding? && mid == h.(freed := h.freed + [h.worker.batch])
    requires (mid.count > 0 ==> mid.ring[mid.head].batch == Some(h.submitted[Done(mid)].0)) && after == PopOrExit(mid)
    requires h.submitted[..Done(h)] == h.submitted[..Done(h) - 1] + [h.submitted[Done(h) - 1]]
    ensures WorkerInv(base.advance, after)
  {
    hide RingInv, SlotHolds, DurableInv, WaitersInv, Wrap;
  }

  lemma DiscardKeepsDurable<B, S>(apply: Apply<B, S>, base: Durable<S>, h: Host<B, S>, mid: Host<B, S>, after: Host<B, S>)
    requires Inv(apply, base, h) && h.worker.Discarding? && mid == h.(freed := h.freed + [h.worker.batch])
    requires (mid.count > 0 ==> mid.ring[mid.head].batch == Some(h.submitted[Done(mid)].0)) && after == PopOrExit(mid)
    requires h.submitted[..Done(h)] == h.submitted[..Done(h) - 1] + [h.submitted[Done(h) - 1]]
    ensures DurableInv(apply, base, after) && WaitersInv(after)
  {
    hide RingInv, SlotHolds, Batches, Fold, Landing, Wrap;
  }

  lemma DiscardKeeps<B, S>(apply: Apply<B, S>, base: Durable<S>, h: Host<B, S>, mid: Host<B, S>, after: Host<B, S>)
    requires Inv(apply, base, h) && h.worker.Discarding? && mid == h.(freed := h.freed + [h.worker.batch])
    requires (mid.count > 0 ==> mid.ring[mid.head].batch == Some(h.submitted[Done(mid)].0)) && after == PopOrExit(mid)
    requires h.submitted[..Done(h)] == h.submitted[..Done(h) - 1] + [h.submitted[Done(h) - 1]]
    ensures WorkerInv(base.advance, after) && DurableInv(apply, base, after) && WaitersInv(after)
  {
    hide RingInv, WorkerInv, DurableInv, WaitersInv, PopOrExit;
    DiscardKeepsWorker(apply, base, h, mid, after);
    DiscardKeepsDurable(apply, base, h, mid, after);
  }

  lemma DiscardInv<B, S>(apply: Apply<B, S>, base: Durable<S>, h: Host<B, S>, outcome: Outcome)
    requires Inv(apply, base, h) && h.worker.Discarding?
    ensures WorkerCanStep(h) && Inv(apply, base, Worked(apply, h, outcome))
  {
    var mid := h.(freed := h.freed + [h.worker.batch]);
    SameRing(base.advance, h, mid);
    PopInv(base.advance, mid);
    TakeGrows(h.submitted, Done(h) - 1);
    assert Worked(apply, h, outcome) == PopOrExit(mid);
    DiscardKeeps(apply, base, h, mid, PopOrExit(mid));
  }

  lemma RestInv<B, S>(apply: Apply<B, S>, base: Durable<S>, h: Host<B, S>, after: Host<B, S>)
    requires Inv(apply, base, h) && h.worker.Ready? && (h.count == 0 || h.paused)
    requires after == if h.stopping && h.count == 0 then h.(worker := Exited) else h.(worker := Asleep)
    ensures Inv(apply, base, after)
  {
    SameRing(base.advance, h, after);
  }

  lemma WorkInv<B, S>(apply: Apply<B, S>, base: Durable<S>, h: Host<B, S>, outcome: Outcome)
    requires Inv(apply, base, h) && WorkerCanStep(h)
    ensures Inv(apply, base, Worked(apply, h, outcome))
  {
    hide RingInv, DurableInv, WaitersInv;
    match h.worker
    case Ready =>
      if h.count == 0 || h.paused { RestInv(apply, base, h, Worked(apply, h, outcome)); } else { TakeInv(apply, base, h); }
    case Busy(_) => PublishInv(apply, base, h, outcome);
    case Committed(_) => AcknowledgeInv(apply, base, h, outcome);
    case Settled(_) => SettleInv(apply, base, h, outcome);
    case Broken(_) => BreakInv(apply, base, h, outcome);
    case Discarding(_) => DiscardInv(apply, base, h, outcome);
  }

  lemma AgainInv<B, S>(apply: Apply<B, S>, base: Durable<S>, h: Host<B, S>, id: nat, after: Host<B, S>)
    requires Inv(apply, base, h) && Next(apply, h, WaitAgain(id), after)
    ensures Inv(apply, base, after)
  {
    hide RingInv, DurableInv, WorkerInv;
    CalmInv(apply, base, h, after);
  }

  lemma AdmittedWoken<B, S>(h: Host<B, S>, b: B, m: Bytes)
    requires CanAdmit(h, m)
    ensures Admitted(h.(worker := Ready), b, m) == Admitted(h, b, m).(worker := Ready) && Admitted(h, b, m).worker == h.worker
  {
  }

  lemma SignalledInv<B, S>(apply: Apply<B, S>, base: Durable<S>, h: Host<B, S>, after: Host<B, S>)
    requires Inv(apply, base, h) && !h.worker.Asleep? && Signalled(h, after)
    ensures Inv(apply, base, after)
  {
    hide RingInv, DurableInv, WorkerInv;
    CalmInv(apply, base, h, after);
  }

  lemma SubmitInv<B, S>(apply: Apply<B, S>, base: Durable<S>, h: Host<B, S>, b: B, m: Bytes, after: Host<B, S>)
    requires Inv(apply, base, h) && Next(apply, h, Admit(b, m), after)
    ensures Inv(apply, base, after)
  {
    hide RingInv, DurableInv, WorkerInv, Admitted, WaitersInv;
    AdmittedWoken(h, b, m);
    if h.paused {
      PausedAdmitInv(apply, base, h, b, m);
    } else {
      SignalReachesWorker(apply, base, h, b, m, after);
      if h.worker.Asleep? {
        var woken := h.(worker := Ready);
        WokenInv(apply, base, h, woken);
        AdmitInv(apply, base, woken, b, m);
      } else {
        AdmitInv(apply, base, h, b, m);
        SignalledInv(apply, base, Admitted(h, b, m), after);
      }
    }
  }

  /** Every step of every thread keeps the invariant. */
  lemma StepInv<B, S>(apply: Apply<B, S>, base: Durable<S>, h: Host<B, S>, event: Event<B>, after: Host<B, S>)
    requires Inv(apply, base, h) && Next(apply, h, event, after)
    ensures Inv(apply, base, after)
  {
    hide RingInv, DurableInv, WorkerInv, Worked, Admitted;
    match event
    case Admit(b, m) => SubmitInv(apply, base, h, b, m, after);
    case Refuse(_) => CalmInv(apply, base, h, after);
    case WaitFor(_, _) => CalmInv(apply, base, h, after);
    case WaitAgain(id) => AgainInv(apply, base, h, id, after);
    case WakeWaiter(_) => CalmInv(apply, base, h, after);
    case WakeWorker => WokenInv(apply, base, h, after);
    case Pause => CalmInv(apply, base, h, after);
    case Resume => WokenInv(apply, base, h, after);
    case Stop => WokenInv(apply, base, h, after);
    case Work(outcome) => WorkInv(apply, base, h, outcome);
  }

  // ----- whole runs --------------------------------------------------------

  ghost predicate IsRun<B, S>(apply: Apply<B, S>, states: seq<Host<B, S>>, events: seq<Event<B>>) {
    |states| == |events| + 1 && forall i | 0 <= i < |events| :: Next(apply, states[i], events[i], states[i + 1])
  }

  lemma {:induction false} RunInv<B, S>(apply: Apply<B, S>, base: Durable<S>, states: seq<Host<B, S>>, events: seq<Event<B>>, i: nat)
    requires IsRun(apply, states, events) && Inv(apply, base, states[0]) && i < |states|
    ensures Inv(apply, base, states[i])
  {
    hide Next, Inv;
    if i > 0 {
      RunInv(apply, base, states, events, i - 1);
      assert Next(apply, states[i - 1], events[i - 1], states[i - 1 + 1]);
      StepInv(apply, base, states[i - 1], events[i - 1], states[i]);
    }
  }

  lemma LatchStep<B, S>(apply: Apply<B, S>, base: Durable<S>, h: Host<B, S>, event: Event<B>, after: Host<B, S>)
    requires Inv(apply, base, h) && Next(apply, h, event, after) && h.failure.Some?
    ensures after.failure == h.failure && after.cache == h.cache && after.disk == h.disk && after.submitted == h.submitted
  {
    hide RingInv, DurableInv, WaitersInv, Admitted;
  }

  /** A latched failure stops publication and admission for good. */
  lemma {:induction false} FailureLatches<B, S>(apply: Apply<B, S>, base: Durable<S>, states: seq<Host<B, S>>, events: seq<Event<B>>, i: nat, j: nat)
    requires IsRun(apply, states, events) && Inv(apply, base, states[0]) && i <= j < |states| && states[i].failure.Some?
    ensures states[j].failure == states[i].failure && states[j].cache == states[i].cache
    ensures states[j].disk == states[i].disk && states[j].submitted == states[i].submitted
  {
    hide Next, Inv;
    if i < j {
      FailureLatches(apply, base, states, events, i, j - 1);
      RunInv(apply, base, states, events, j - 1);
      assert Next(apply, states[j - 1], events[j - 1], states[j - 1 + 1]);
      LatchStep(apply, base, states[j - 1], events[j - 1], states[j]);
    }
  }

  lemma SignalFrame<B, S>(h: Host<B, S>, after: Host<B, S>)
    requires Signalled(h, after)
    ensures after == h.(worker := after.worker, waiters := after.waiters)
    ensures after.worker == h.worker || (h.worker.Asleep? && after.worker.Ready?)
  {
  }

  lemma WorkMonotone<B, S>(apply: Apply<B, S>, base: Durable<S>, h: Host<B, S>, outcome: Outcome)
    requires Inv(apply, base, h) && WorkerCanStep(h)
    ensures var after := Worked(apply, h, outcome);
            after.submitted == h.submitted && h.cache.advance <= after.cache.advance && after.stopping == h.stopping
  {
    hide RingInv, WaitersInv, SlotHolds, Fold, Landing, Awake;
    if h.worker.Committed? { OneAdvances(apply, h.cache, h.submitted[h.cache.advance - base.advance]); }
  }

  lemma MonotoneStep<B, S>(apply: Apply<B, S>, base: Durable<S>, h: Host<B, S>, event: Event<B>, after: Host<B, S>)
    requires Inv(apply, base, h) && Next(apply, h, event, after)
    ensures h.submitted <= after.submitted && h.cache.advance <= after.cache.advance && (h.stopping ==> after.stopping)
  {
    hide RingInv, WorkerInv, DurableInv, WaitersInv, Signalled, Awake, Worked;
    if event.Admit? && !h.paused { SignalFrame(Admitted(h, event.batch, event.metadata), after); }
    if event.Work? { WorkMonotone(apply, base, h, event.outcome); }
  }

  /** Submissions are only ever appended, and durability is never taken back. */
  lemma {:induction false} RunMonotone<B, S>(apply: Apply<B, S>, base: Durable<S>, states: seq<Host<B, S>>, events: seq<Event<B>>, i: nat, j: nat)
    requires IsRun(apply, states, events) && Inv(apply, base, states[0]) && i <= j < |states|
    ensures states[i].submitted <= states[j].submitted && states[i].cache.advance <= states[j].cache.advance
  {
    hide Next, Inv;
    if i < j {
      RunMonotone(apply, base, states, events, i, j - 1);
      RunInv(apply, base, states, events, j - 1);
      assert Next(apply, states[j - 1], events[j - 1], states[j - 1 + 1]);
      MonotoneStep(apply, base, states[j - 1], events[j - 1], states[j]);
    }
  }

  // ----- what pausing and stopping hold back --------------------------------

  /** Entries whose publication has begun: the durable ones and the one running. */
  function Begun<B, S>(h: Host<B, S>): nat { h.disk.advance + if h.worker.Busy? then 1 else 0 }

  lemma PausedWork<B, S>(apply: Apply<B, S>, base: Durable<S>, h: Host<B, S>, outcome: Outcome)
    requires Inv(apply, base, h) && WorkerCanStep(h) && h.paused
    ensures var after := Worked(apply, h, outcome);
            after.paused && h.disk.advance <= after.disk.advance && Begun(after) <= Begun(h) && (h.worker.Ready? ==> after.worker.Asleep? || after.worker.Exited?)
  {
    hide RingInv, WaitersInv, Landing, Fold, Awake;
    if h.worker.Busy? { OneAdvances(apply, h.disk, (h.worker.entry.batch.value, h.slots[h.head][..h.worker.entry.length])); }
  }

  lemma PausedStep<B, S>(apply: Apply<B, S>, base: Durable<S>, h: Host<B, S>, event: Event<B>, after: Host<B, S>)
    requires Inv(apply, base, h) && Next(apply, h, event, after) && h.paused && !event.Resume? && !event.Stop?
    ensures after.paused && h.disk.advance <= after.disk.advance && Begun(after) <= Begun(h)
    ensures h.worker.Asleep? && !event.WakeWorker? ==> after.worker.Asleep?
  {
    hide Inv, Awake, Worked;
    if event.Work? { PausedWork(apply, base, h, event.outcome); }
  }

  /** Pausing holds the queue: until somebody resumes or shuts down, only the entry
      already running can still become durable, and a worker that sleeps is not
      woken by any submission. */
  lemma {:induction false} PauseHolds<B, S>(apply: Apply<B, S>, base: Durable<S>, states: seq<Host<B, S>>, events: seq<Event<B>>, i: nat, j: nat)
    requires IsRun(apply, states, events) && Inv(apply, base, states[0]) && i <= j < |states| && states[i].paused
    requires forall k | i <= k < j :: !events[k].Resume? && !events[k].Stop?
    ensures states[j].paused && states[i].disk.advance <= states[j].disk.advance && Begun(states[j]) <= Begun(states[i])
    ensures states[j].disk.advance <= states[i].disk.advance + if states[i].worker.Busy? then 1 else 0
    ensures !states[i].worker.Busy? ==> !states[j].worker.Busy? && states[j].disk.advance == states[i].disk.advance
    ensures states[i].worker.Asleep? && (forall k | i <= k < j :: !events[k].WakeWorker?) ==> states[j].worker.Asleep?
  {
    hide Next, Inv;
    if i < j {
      PauseHolds(apply, base, states, events, i, j - 1);
      RunInv(apply, base, states, events, j - 1);
      assert Next(apply, states[j - 1], events[j - 1], states[j - 1 + 1]);
      PausedStep(apply, base, states[j - 1], events[j - 1], states[j]);
    }
  }

  lemma StoppedStep<B, S>(apply: Apply<B, S>, base: Durable<S>, h: Host<B, S>, event: Event<B>, after: Host<B, S>)
    requires Inv(apply, base, h) && Next(apply, h, event, after) && h.stopping
    ensures after.stopping && after.submitted == h.submitted
  {
    hide Inv, Awake, Worked;
    if event.Work? { WorkMonotone(apply, base, h, event.outcome); }
  }

  /** After shutdown has begun nothing is admitted any more. */
  lemma {:induction false} StoppedIsClosed<B, S>(apply: Apply<B, S>, base: Durable<S>, states: seq<Host<B, S>>, events: seq<Event<B>>, i: nat, j: nat)
    requires IsRun(apply, states, events) && Inv(apply, base, states[0]) && i <= j < |states| && states[i].stopping
    ensures states[j].stopping && states[j].submitted == states[i].submitted
  {
    hide Next, Inv;
    if i < j {
      StoppedIsClosed(apply, base, states, events, i, j - 1);
      RunInv(apply, base, states, events, j - 1);
      assert Next(apply, states[j - 1], events[j - 1], states[j - 1 + 1]);
      StoppedStep(apply, base, states[j - 1], events[j - 1], states[j]);
    }
  }

  // ----- progress ----------------------------------------------------------

  /** No lost wakeup: with work outstanding and no pause, or once stopping, the
      worker is not asleep, and each step it takes is enabled. */
  lemma WorkerRunnable<B, S>(apply: Apply<B, S>, base: Durable<S>, h: Host<B, S>)
    requires Inv(apply, base, h) && !h.paused && (h.count > 0 || h.stopping) && !h.worker.Exited?
    ensures WorkerCanStep(h)
  {
    hide DurableInv, WaitersInv;
    if h.count > 0 { assert SlotHolds(base.advance, h, 0); }
    if h.count > 1 {
      assert SlotHolds(base.advance, h, 1);
      WrapNext(h.head, 0, |h.ring|);
    }
  }

  function WorkSteps<B>(events: seq<Event<B>>): nat {
    if events == [] then 0 else WorkSteps(events[..|events| - 1]) + if events[|events| - 1].Work? then 1 else 0
  }

  /** Worker steps left before the awaited sequence is decided. */
  function Distance<B, S>(h: Host<B, S>, sequence: nat): nat {
    if sequence <= h.cache.advance || h.failure.Some? then 0 else
    var left := 4 * (sequence - h.cache.advance);
    match h.worker
    case Settled(_) => left + 4
    case Ready => left + 3
    case Asleep => left + 3
    case Busy(_) => left + 2
    case Committed(_) => left + 1
    case Broken(_) => 1
    case _ => 1
  }

  lemma SignalDistance<B, S>(apply: Apply<B, S>, base: Durable<S>, h: Host<B, S>, b: B, m: Bytes, after: Host<B, S>, sequence: nat)
    requires Inv(apply, base, h) && Next(apply, h, Admit(b, m), after)
    ensures Distance(after, sequence) == Distance(h, sequence)
  {
    hide RingInv, DurableInv, WorkerInv, WaitersInv, Signalled;
    if !h.paused { SignalFrame(Admitted(h, b, m), after); }
  }

  lemma WorkDistance<B, S>(apply: Apply<B, S>, base: Durable<S>, h: Host<B, S>, outcome: Outcome, sequence: nat)
    requires Inv(apply, base, h) && WorkerCanStep(h) && !h.paused && sequence <= h.accepted
    ensures Distance(h, sequence) > 0 ==> Distance(Worked(apply, h, outcome), sequence) < Distance(h, sequence)
    ensures Distance(h, sequence) == 0 ==> Distance(Worked(apply, h, outcome), sequence) == 0
  {
    hide SlotHolds, Fold, Landing, Wrap, Awake, WaitersInv, Batches;
    if h.worker.Committed? { OneAdvances(apply, h.cache, h.submitted[h.cache.advance - base.advance]); }
    if h.failure.None? { AcceptedIsDurablePlusQueued(apply, base, h); }
  }

  lemma DistanceStep<B, S>(apply: Apply<B, S>, base: Durable<S>, h: Host<B, S>, event: Event<B>, after: Host<B, S>, sequence: nat)
    requires Inv(apply, base, h) && Next(apply, h, event, after) && !h.paused && sequence <= h.accepted
    ensures Distance(after, sequence) <= Distance(h, sequence)
    ensures event.Work? && Distance(h, sequence) > 0 ==> Distance(after, sequence) < Distance(h, sequence)
  {
    hide Inv, Signalled, Awake, Worked;
    match event
    case Work(outcome) => WorkDistance(apply, base, h, outcome, sequence);
    case Admit(b, m) => SignalDistance(apply, base, h, b, m, after, sequence);
    case _ =>
  }

  lemma Decided<B, S>(apply: Apply<B, S>, base: Durable<S>, h: Host<B, S>, sequence: nat)
    requires Inv(apply, base, h) && Distance(h, sequence) == 0
    ensures sequence <= h.cache.advance || h.failure.Some?
    ensures forall id | Sleeping(h.waiters, id) :: h.waiters[id].sequence > sequence
  {
    hide RingInv, DurableInv;
  }

  /** While an accepted sequence is undecided the worker can step. */
  lemma UndecidedRuns<B, S>(apply: Apply<B, S>, base: Durable<S>, h: Host<B, S>, sequence: nat)
    requires Inv(apply, base, h) && !h.paused && sequence <= h.accepted && Distance(h, sequence) > 0
    ensures WorkerCanStep(h)
  {
    hide RingInv, DurableInv, WaitersInv;
    AcceptedIsDurablePlusQueued(apply, base, h);
    WorkerRunnable(apply, base, h);
  }

  lemma UnpausedStep<B, S>(apply: Apply<B, S>, base: Durable<S>, h: Host<B, S>, event: Event<B>, after: Host<B, S>)
    requires Inv(apply, base, h) && Next(apply, h, event, after) && !h.paused && !event.Pause?
    ensures !after.paused && after.accepted >= h.accepted && (h.stopping ==> after.stopping)
  {
    hide RingInv, DurableInv, WorkerInv, WaitersInv, Signalled, Awake, Landing;
    if event.Admit? { SignalFrame(Admitted(h, event.batch, event.metadata), after); }
  }

  /** Waiting ends: as long as nobody pauses, once the worker has taken the number
      of steps fixed at the start the awaited sequence is durable or the failure is
      latched, so no waiter still sleeps for it. */
  lemma {:induction false} WaitsEnd<B, S>(apply: Apply<B, S>, base: Durable<S>, states: seq<Host<B, S>>, events: seq<Event<B>>, i: nat, sequence: nat)
    requires IsRun(apply, states, events) && Inv(apply, base, states[0]) && !states[0].paused && sequence <= states[0].accepted && i < |states|
    requires forall j | 0 <= j < i :: !events[j].Pause?
    ensures !states[i].paused && states[i].accepted >= states[0].accepted
    ensures Distance(states[i], sequence) == 0 || Distance(states[i], sequence) + WorkSteps(events[..i]) <= Distance(states[0], sequence)
    ensures WorkSteps(events[..i]) >= Distance(states[0], sequence) ==>
              && (sequence <= states[i].cache.advance || states[i].failure.Some?)
              && forall id | Sleeping(states[i].waiters, id) :: states[i].waiters[id].sequence > sequence
    ensures Distance(states[i], sequence) > 0 ==> WorkerCanStep(states[i])
  {
    hide Next, Inv, Distance, WorkerCanStep;
    RunInv(apply, base, states, events, i);
    if i > 0 {
      WaitsEnd(apply, base, states, events, i - 1, sequence);
      var j := i - 1;
      RunInv(apply, base, states, events, j);
      assert Next(apply, states[j], events[j], states[j + 1]);
      assert events[..i][..j] == events[..j] && events[..i][j] == events[j] && !events[j].Pause?;
      UnpausedStep(apply, base, states[j], events[j], states[i]);
      DistanceStep(apply, base, states[j], events[j], states[i], sequence);
    }
    if Distance(states[i], sequence) == 0 {
      Decided(apply, base, states[i], sequence);
    } else {
      UndecidedRuns(apply, base, states[i], sequence);
    }
  }

  /** Worker steps left before a stopping host has drained. */
  function Backlog<B, S>(h: Host<B, S>): nat {
    match h.worker
    case Ready => 4 * h.count + 1
    case Asleep => 4 * h.count + 1
    case Busy(_) => 4 * h.count
    case Committed(_) => if h.count > 0 then 4 * h.count - 1 else 0
    case Settled(_) => 4 * h.count + 2
    case Broken(_) => if h.count > 0 then 4 * h.count - 1 else 0
    case Discarding(_) => 4 * h.count + 2
    case Exited => 0
  }

  lemma BacklogStep<B, S>(apply: Apply<B, S>, base: Durable<S>, h: Host<B, S>, event: Event<B>, after: Host<B, S>)
    requires Inv(apply, base, h) && Next(apply, h, event, after) && h.stopping && !h.paused
    ensures Backlog(after) <= Backlog(h) && (event.Work? ==> Backlog(after) < Backlog(h))
  {
    hide SlotHolds, DurableInv, WaitersInv, Landing, Awake, Wrap;
  }

  lemma NoBacklog<B, S>(apply: Apply<B, S>, base: Durable<S>, h: Host<B, S>)
    requires Inv(apply, base, h) && Backlog(h) == 0
    ensures h.worker.Exited? && h.count == 0
  {
    hide RingInv, DurableInv, WaitersInv;
  }

  /** Shutdown drains: from any stopping state, once the worker has taken the number
      of steps fixed at the start it has exited and the ring is empty. Nobody else
      may call in meanwhile; only a pause could delay it. */
  lemma {:induction false} ShutdownDrains<B, S>(apply: Apply<B, S>, base: Durable<S>, states: seq<Host<B, S>>, events: seq<Event<B>>, i: nat)
    requires IsRun(apply, states, events) && Inv(apply, base, states[0]) && states[0].stopping && !states[0].paused && i < |states|
    requires forall j | 0 <= j < i :: !events[j].Pause?
    ensures states[i].stopping && !states[i].paused
    ensures Backlog(states[i]) + WorkSteps(events[..i]) <= Backlog(states[0])
    ensures WorkSteps(events[..i]) >= Backlog(states[0]) ==> states[i].worker.Exited? && states[i].count == 0
    ensures !states[i].worker.Exited? ==> WorkerCanStep(states[i])
  {
    hide Next, Inv, Backlog, WorkerCanStep;
    RunInv(apply, base, states, events, i);
    if i > 0 {
      ShutdownDrains(apply, base, states, events, i - 1);
      var j := i - 1;
      RunInv(apply, base, states, events, j);
      assert Next(apply, states[j], events[j], states[j + 1]);
      assert events[..i][..j] == events[..j] && events[..i][j] == events[j] && !events[j].Pause?;
      UnpausedStep(apply, base, states[j], events[j], states[i]);
      BacklogStep(apply, base, states[j], events[j], states[i]);
    }
    if !states[i].worker.Exited? { WorkerRunnable(apply, base, states[i]); }
    if Backlog(states[i]) == 0 { NoBacklog(apply, base, states[i]); }
  }

  /** A clean shutdown loses nothing: with no failure, everything ever accepted is
      durable when the worker has exited. */
  lemma {:induction false} CleanShutdown<B, S>(apply: Apply<B, S>, base: Durable<S>, h: Host<B, S>)
    requires Inv(apply, base, h) && h.worker.Exited? && h.failure.None?
    ensures h.disk == h.cache == Fold(apply, base, h.submitted) && Batches(h.freed, h.submitted)
  {
    hide RingInv, WaitersInv, Fold;
    assert h.submitted[..|h.submitted|] == h.submitted;
  }

  // ----- steps as the object takes them ---------------------------------

  lemma RingShape<B, S>(apply: Apply<B, S>, base: Durable<S>, h: Host<B, S>)
    requires Inv(apply, base, h)
    ensures 0 < |h.ring| == |h.slots| && h.head < |h.ring| && h.count <= |h.ring| && h.accepted < U64_LIMIT
  {
  }

  lemma Refusable<B, S>(apply: Apply<B, S>, base: Durable<S>, h: Host<B, S>)
    requires Inv(apply, base, h)
    ensures Next(apply, h, Refuse(false), h)
  {
  }

  lemma BusyEntry<B, S>(apply: Apply<B, S>, base: Durable<S>, h: Host<B, S>)
    requires Inv(apply, base, h) && h.worker.Busy?
    ensures WorkerCanStep(h) && h.worker.entry.next == h.disk.advance + 1
    ensures Landing(apply, h.disk, (h.worker.entry.batch.value, h.slots[h.head][..h.worker.entry.length])).advance == h.worker.entry.next
    ensures h.head < |h.slots| && h.worker.entry.batch.Some? && h.worker.entry.length <= |h.slots[h.head]|
    ensures var e := h.worker.entry;
            var landed := Landing(apply, h.disk, (e.batch.value, h.slots[h.head][..e.length]));
            && Worked(apply, h, Landed) == h.(disk := landed, worker := Committed(e))
            && forall error :: Worked(apply, h, LostBefore(error)) == h.(freed := h.freed + [e.batch.value], worker := Broken(error))
                            && Worked(apply, h, LostAfter(error)) == h.(disk := landed, freed := h.freed + [e.batch.value], worker := Broken(error))
  {
    hide RingInv, WaitersInv, Landing, Fold;
    ActiveEntry(base.advance, h, h.worker.entry);
    OneAdvances(apply, h.disk, (h.worker.entry.batch.value, h.slots[h.head][..h.worker.entry.length]));
  }

  lemma CommittedEntry<B, S>(apply: Apply<B, S>, base: Durable<S>, h: Host<B, S>)
    requires Inv(apply, base, h) && h.worker.Committed?
    ensures WorkerCanStep(h) && h.count > 0 && h.worker.entry.batch.Some? && Worked(apply, h, Landed) == Acknowledged(h, h.worker.entry.batch.value)
    ensures h.disk.advance == h.cache.advance + 1
  {
    hide WaitersInv, Fold, Landing;
    OneAdvances(apply, h.cache, h.submitted[h.cache.advance - base.advance]);
    AcknowledgeInv(apply, base, h, Landed);
  }

  /** A publication takes the worker's step. */
  lemma PublicationTaken<B, S>(apply: Apply<B, S>, base: Durable<S>, h: Host<B, S>, outcome: Outcome, after: Host<B, S>)
    requires Inv(apply, base, h) && WorkerCanStep(h) && after == Worked(apply, h, outcome)
    ensures Inv(apply, base, after) && Next(apply, h, Work(outcome), after)
  {
    hide Inv, Worked;
    WorkInv(apply, base, h, outcome);
  }

  /** The state `fail` leaves behind before it takes the first abandoned batch. */
  ghost function Latching<B, S>(h: Host<B, S>): Host<B, S>
    requires h.worker.Broken? && h.count > 0
  {
    Broadcast(h.(failure := Some(h.worker.error), head := Wrap(h.head + 1, |h.ring|), count := h.count - 1))
  }

  lemma BrokenCount<B, S>(apply: Apply<B, S>, base: Durable<S>, h: Host<B, S>)
    requires Inv(apply, base, h) && h.worker.Broken?
    ensures h.count > 0 && WorkerCanStep(h)
    ensures var mid := Latching(h); mid.head < |mid.ring| && (mid.count > 0 ==> mid.ring[mid.head].batch.Some?)
    ensures Worked(apply, h, Landed) == PopOrExit(Latching(h))
  {
    hide SlotHolds, DurableInv, WaitersInv;
    BreakInv(apply, base, h, Landed);
  }

  /** A worker step other than a publication has one result. */
  lemma WorkTaken<B, S>(apply: Apply<B, S>, base: Durable<S>, h: Host<B, S>, after: Host<B, S>)
    requires Inv(apply, base, h) && WorkerCanStep(h) && !h.worker.Busy? && after == Worked(apply, h, Landed)
    ensures Inv(apply, base, after) && forall outcome :: Next(apply, h, Work(outcome), after)
  {
    hide Inv;
    WorkInv(apply, base, h, Landed);
  }

  // ----- the object --------------------------------------------------------

  datatype HostError =
    | InvalidCapacity | Backpressure | Closed | Failed(error: nat) | SequenceExhausted | InvalidSequence
    | TooLarge | BatchTooLarge | NotAccepted

  /** A batch in its caller's hands. */
  class Parcel<B> {
    var content: B

    constructor (batch: B)
      ensures content == batch
    {
      content := batch;
    }
  }

  datatype WaitResult = Reached | Sleeps | WaitFailed(error: HostError)

  /** The host object. Each method is one critical section or one disk action and
      takes the corresponding step. */
  class BoundedHost<B, S> {
    const apply: Apply<B, S>
    const empty: B
    const metadataBytes: nat
    const ring: array<Entry<B>>
    const slots: array<Bytes>
    var head: nat
    var count: nat
    var accepted: nat
    var paused: bool
    var stopping: bool
    var failure: Option<nat>
    var backpressure: nat
    var cache: Durable<S>
    var disk: Durable<S>
    var worker: Worker<B>
    var waiters: map<nat, Waiter>
    ghost const base: Durable<S>
    ghost var submitted: seq<(B, Bytes)>
    ghost var freed: seq<B>

    ghost function State(): Host<B, S>
      reads this, ring, slots
    {
      Host(ring[..], slots[..], head, count, accepted, paused, stopping, failure, backpressure, cache, disk, worker, waiters, submitted, freed)
    }

    ghost predicate Valid()
      reads this, ring, slots
    {
      && Inv(apply, base, State()) && ring.Length == slots.Length
      && forall i | 0 <= i < slots.Length :: |slots[i]| == metadataBytes
    }

    constructor (apply: Apply<B, S>, empty: B, durable: Durable<S>, capacity: nat, metadataBytes: nat)
      requires capacity > 0 && durable.advance < U64_LIMIT
      ensures Valid() && fresh(ring) && fresh(slots) && this.apply == apply && this.empty == empty && base == durable
      ensures State() == Created(durable, capacity, metadataBytes)
      ensures count == 0 && accepted == cache.advance == disk.advance == durable.advance && !paused && !stopping && failure.None?
    {
      this.apply, this.empty, this.metadataBytes, base := apply, empty, metadataBytes, durable;
      ring := new Entry<B>[capacity](_ => Entry(None, 0, 0));
      slots := new Bytes[capacity](_ => seq(metadataBytes, _ => 0));
      head, count, accepted, paused, stopping, failure, backpressure := 0, 0, durable.advance, false, false, None, 0;
      cache, disk, worker, waiters := durable, durable, Ready, map[];
      submitted, freed := [], [];
      new;
      CreatedInv(apply, durable, capacity, metadataBytes);
      assert ring[..] == Created<B, S>(durable, capacity, metadataBytes).ring;
      assert slots[..] == Created<B, S>(durable, capacity, metadataBytes).slots;
    }

    /** A signal wakes some sleeper, if there is one. */
    method Signal()
      modifies this`worker, this`waiters
      ensures Signalled(old(State()), State())
    {
      if worker.Asleep? && (forall id | id in waiters :: !waiters[id].asleep) {
        worker := Ready;
      } else if exists id :: id in waiters && waiters[id].asleep {
        var id :| id in waiters && waiters[id].asleep;
        assert Sleeping(waiters, id);
        waiters := waiters[id := waiters[id].(asleep := false)];
      }
    }

    /** Non-blocking admission. Success moves the batch out of the caller's parcel
        into the queue and leaves an empty batch, itself ready to be submitted. Every
        error leaves the parcel and the accepted frontier as they were, and only
        refusals for a full or contended ring are counted. */
    method TrySubmit(next: nat, parcel: Parcel<B>, metadata: Bytes, contended: bool, withinLimits: bool) returns (result: Result<(), HostError>)
      requires Valid()
      modifies this, ring, slots, parcel
      ensures Valid()
      ensures result.Ok? <==>
                && !contended && !old(stopping) && old(failure).None? && old(count) < ring.Length && old(accepted) + 1 < U64_LIMIT
                && next == old(accepted) + 1 && |metadata| <= metadataBytes && withinLimits
      ensures result.Ok? ==> parcel.content == empty && Next(apply, old(State()), Admit(old(parcel.content), metadata), State())
      ensures result.Err? ==> parcel.content == old(parcel.content) && Next(apply, old(State()), Refuse(result.error == Backpressure), State())
      ensures result.Err? ==> backpressure == old(backpressure) + if result.error == Backpressure then 1 else 0
      ensures result == Err(Backpressure) <==> contended || (!old(stopping) && old(failure).None? && old(count) == ring.Length)
      ensures !contended && old(stopping) ==> result == Err(Closed)
      ensures !contended && !old(stopping) && old(failure).Some? ==> result == Err(Failed(old(failure).value))
      ensures !contended && !old(stopping) && old(failure).None? && old(count) < ring.Length && old(accepted) == U64_LIMIT - 1 ==> result == Err(SequenceExhausted)
      ensures !contended && !old(stopping) && old(failure).None? && old(count) < ring.Length && old(accepted) < U64_LIMIT - 1 ==>
                && (next != old(accepted) + 1 ==> result == Err(InvalidSequence))
                && (next == old(accepted) + 1 && |metadata| > metadataBytes ==> result == Err(TooLarge))
                && (next == old(accepted) + 1 && |metadata| <= metadataBytes && !withinLimits ==> result == Err(BatchTooLarge))
    {
      hide Inv, Next;
      RingShape(apply, base, State());
      if contended {
        Count(true);
        return Err(Backpressure);
      }
      Refusable(apply, base, State());
      if stopping { return Err(Closed); }
      if failure.Some? { return Err(Failed(failure.value)); }
      if count == ring.Length {
        Count(true);
        return Err(Backpressure);
      }
      if accepted == U64_LIMIT - 1 { return Err(SequenceExhausted); }
      if next != accepted + 1 { return Err(InvalidSequence); }
      if |metadata| > metadataBytes { return Err(TooLarge); }
      if !withinLimits { return Err(BatchTooLarge); }
      Enqueue(next, parcel.content, metadata);
      parcel.content := empty;
      return Ok(());
    }

    method Count(rejected: bool)
      requires Valid()
      modifies this`backpressure
      ensures Valid() && Next(apply, old(State()), Refuse(rejected), State())
      ensures backpressure == old(backpressure) + if rejected then 1 else 0
    {
      hide Inv;
      if rejected { backpressure := backpressure + 1; }
      StepInv(apply, base, old(State()), Refuse(rejected), State());
    }

    /** Fills the tail slot, and wakes somebody unless processing is paused. */
    method Enqueue(next: nat, batch: B, metadata: Bytes)
      requires Valid() && !stopping && failure.None? && count < ring.Length && accepted + 1 < U64_LIMIT
      requires next == accepted + 1 && |metadata| <= metadataBytes
      modifies this`count, this`accepted, this`submitted, this`worker, this`waiters, ring, slots
      ensures Valid() && Next(apply, old(State()), Admit(batch, metadata), State())
      ensures count == old(count) + 1 && accepted == next && submitted == old(submitted) + [(batch, metadata)]
      ensures old(paused) ==> worker == old(worker) && waiters == old(waiters)
      ensures !old(paused) ==> !worker.Asleep?
    {
      hide Inv, Signalled;
      RingShape(apply, base, State());
      WrapIsRemainder(head + count, ring.Length);
      var tail := (head + count) % ring.Length;
      slots[tail] := Stored(slots[tail], metadata);
      ring[tail] := Entry(Some(batch), next, |metadata|);
      submitted := submitted + [(batch, metadata)];
      count := count + 1;
      accepted := next;
      assert State() == Admitted(old(State()), batch, metadata);
      if !paused {
        Signal();
        SignalReachesWorker(apply, base, old(State()), batch, metadata, State());
      }
      StepInv(apply, base, old(State()), Admit(batch, metadata), State());
    }

    /** The first look of `wait`, under the mutex. */
    method EnterWait(id: nat, sequence: nat) returns (result: WaitResult)
      requires Valid() && id !in waiters
      modifies this`waiters
      ensures Valid()
      ensures sequence > accepted ==> result == WaitFailed(NotAccepted)
      ensures sequence <= accepted ==>
                result == if sequence <= cache.advance then Reached else if failure.Some? then WaitFailed(Failed(failure.value)) else Sleeps
      ensures result == Sleeps ==> Next(apply, old(State()), WaitFor(id, sequence), State())
      ensures result == Sleeps ==> waiters == old(waiters)[id := Waiter(sequence, true)]
      ensures result != Sleeps ==> State() == old(State())
    {
      hide Inv;
      if sequence > accepted { return WaitFailed(NotAccepted); }
      if sequence <= cache.advance { return Reached; }
      if failure.Some? { return WaitFailed(Failed(failure.value)); }
      waiters := waiters[id := Waiter(sequence, true)];
      StepInv(apply, base, old(State()), WaitFor(id, sequence), State());
      return Sleeps;
    }

    /** What a woken waiter does once it has the mutex again. */
    method ResumeWait(id: nat) returns (result: WaitResult)
      requires Valid() && id in waiters && !waiters[id].asleep
      modifies this`waiters
      ensures Valid() && Next(apply, old(State()), WaitAgain(id), State())
      ensures result == var q := old(waiters)[id].sequence;
                        if q <= cache.advance then Reached else if failure.Some? then WaitFailed(Failed(failure.value)) else Sleeps
      ensures waiters == if result == Sleeps then old(waiters)[id := Waiter(old(waiters)[id].sequence, true)] else old(waiters) - {id}
    {
      hide Inv;
      var q := waiters[id].sequence;
      if q <= cache.advance {
        waiters := waiters - {id};
        result := Reached;
      } else if failure.Some? {
        waiters := waiters - {id};
        result := WaitFailed(Failed(failure.value));
      } else {
        waiters := waiters[id := waiters[id].(asleep := true)];
        result := Sleeps;
      }
      StepInv(apply, base, old(State()), WaitAgain(id), State());
    }

    method PauseProcessing()
      requires Valid()
      modifies this`paused
      ensures Valid() && paused && Next(apply, old(State()), Pause, State())
    {
      hide Inv;
      paused := true;
      StepInv(apply, base, old(State()), Pause, State());
    }

    method ResumeProcessing()
      requires Valid()
      modifies this`paused, this`worker, this`waiters
      ensures Valid() && !paused && Next(apply, old(State()), Resume, State())
      ensures !worker.Asleep? && forall id :: !Sleeping(waiters, id)
    {
      hide Inv;
      paused := false;
      worker, waiters := Roused(worker), Awake(waiters);
      StepInv(apply, base, old(State()), Resume, State());
    }

    /** The critical section of `deinit`, before it joins the worker. */
    method BeginShutdown()
      requires Valid()
      modifies this`paused, this`stopping, this`worker, this`waiters
      ensures Valid() && stopping && !paused && Next(apply, old(State()), Stop, State())
      ensures !worker.Asleep? && forall id :: !Sleeping(waiters, id)
    {
      hide Inv;
      stopping, paused := true, false;
      worker, waiters := Roused(worker), Awake(waiters);
      StepInv(apply, base, old(State()), Stop, State());
    }

    /** Top of the worker loop: exit, sleep, or move the head batch out of its slot,
        which stays counted. */
    method TakeNext()
      requires Valid() && worker.Ready?
      modifies this`worker, ring
      ensures Valid() && forall outcome :: Next(apply, old(State()), Work(outcome), State())
      ensures worker.Busy? <==> !paused && count > 0
      ensures worker.Exited? <==> stopping && count == 0
      ensures !worker.Busy? ==> ring[..] == old(ring[..]) && (worker.Exited? || worker.Asleep?)
      ensures worker.Busy? ==> worker.entry == old(ring[..])[head] && ring[..] == old(ring[..])[head := worker.entry.(batch := None)]
    {
      hide Inv;
      RingShape(apply, base, State());
      if count == 0 || paused {
        worker := if stopping && count == 0 then Exited else Asleep;
      } else {
        worker := Busy(ring[head]);
        ring[head] := ring[head].(batch := None);
      }
      WorkTaken(apply, base, old(State()), State());
    }

    /** Preparation and commit on the disk, outside the mutex. Its sequence check
        always passes. */
    method PublishActive(outcome: Outcome)
      requires Valid() && worker.Busy?
      modifies this`worker, this`disk, this`freed
      ensures Valid() && Next(apply, old(State()), Work(outcome), State()) && old(worker).entry.next == old(disk).advance + 1
      ensures outcome.LostBefore? ==> disk == old(disk)
      ensures !outcome.LostBefore? ==> disk.advance == old(worker).entry.next && disk.metadata == slots[head][..old(worker).entry.length]
      ensures !outcome.LostBefore? ==> disk.state == apply(old(disk).state, old(worker).entry.batch.value, disk.metadata)
      ensures if outcome.Landed? then worker == Committed(old(worker).entry) && freed == old(freed)
              else worker == Broken(outcome.error) && freed == old(freed) + [old(worker).entry.batch.value]
    {
      hide Inv, Next, Worked, WorkerCanStep, Landing;
      BusyEntry(apply, base, State());
      var entry := worker.entry;
      var landed := Landing(apply, disk, (entry.batch.value, slots[head][..entry.length]));
      Lands(apply, disk, (entry.batch.value, slots[head][..entry.length]));
      match outcome {
        case Landed =>
          disk, worker := landed, Committed(entry);
        case LostBefore(error) =>
          freed := freed + [entry.batch.value];
          worker := Broken(error);
        case LostAfter(error) =>
          disk := landed;
          freed := freed + [entry.batch.value];
          worker := Broken(error);
      }
      PublicationTaken(apply, base, old(State()), outcome, State());
    }

    /** The critical section of a successful publication. */
    method Acknowledge()
      requires Valid() && worker.Committed?
      modifies this`cache, this`head, this`count, this`worker, this`waiters
      ensures Valid() && forall outcome :: Next(apply, old(State()), Work(outcome), State())
      ensures cache == disk && cache.advance == old(cache).advance + 1 && count == old(count) - 1 && head == (old(head) + 1) % ring.Length
      ensures worker.Settled? && forall id :: !Sleeping(waiters, id)
    {
      hide Inv, Next, Worked, WorkerCanStep, Landing;
      RingShape(apply, base, State());
      CommittedEntry(apply, base, State());
      WrapIsRemainder(head + 1, ring.Length);
      cache := disk;
      head := (head + 1) % ring.Length;
      count := count - 1;
      worker := Settled(worker.entry.batch.value);
      waiters := Awake(waiters);
      assert State() == Acknowledged(old(State()), old(worker).entry.batch.value);
      WorkTaken(apply, base, old(State()), State());
    }

    /** Frees the published batch. */
    method FreeSettled()
      requires Valid() && worker.Settled?
      modifies this`worker, this`freed
      ensures Valid() && forall outcome :: Next(apply, old(State()), Work(outcome), State())
      ensures worker.Ready? && freed == old(freed) + [old(worker).batch]
    {
      hide Inv;
      RingShape(apply, base, State());
      freed := freed + [worker.batch];
      worker := Ready;
      WorkTaken(apply, base, old(State()), State());
    }

    /** The first critical section of `fail`: latch, drop the failed entry, wake
        everyone and take the first abandoned batch. */
    method LatchFailure()
      requires Valid() && worker.Broken?
      modifies this`failure, this`head, this`count, this`worker, this`waiters, ring
      ensures Valid() && forall outcome :: Next(apply, old(State()), Work(outcome), State())
      ensures failure == Some(old(worker).error) && forall id :: !Sleeping(waiters, id)
      ensures if old(count) == 1 then worker.Exited? && count == 0 else worker.Discarding? && count == old(count) - 2
    {
      hide Inv, RingInv, WorkerInv, DurableInv, WaitersInv, PopOrExit, Worked, Next;
      RingShape(apply, base, State());
      BrokenCount(apply, base, State());
      WrapIsRemainder(head + 1, ring.Length);
      failure := Some(worker.error);
      head := (head + 1) % ring.Length;
      count := count - 1;
      waiters := Awake(waiters);
      assert State() == Latching(old(State()));
      PopNext();
      WorkTaken(apply, base, old(State()), State());
    }

    /** Frees one abandoned batch and takes the next. */
    method DiscardNext()
      requires Valid() && worker.Discarding?
      modifies this`head, this`count, this`worker, this`freed, ring
      ensures Valid() && forall outcome :: Next(apply, old(State()), Work(outcome), State())
      ensures freed == old(freed) + [old(worker).batch]
      ensures if old(count) == 0 then worker.Exited? && count == 0 else worker.Discarding? && count == old(count) - 1
    {
      hide Inv, RingInv, WorkerInv, DurableInv, WaitersInv;
      RingShape(apply, base, State());
      assert WorkerCanStep(State()) by { DiscardInv(apply, base, State(), Landed); }
      freed := freed + [worker.batch];
      PopNext();
      WorkTaken(apply, base, old(State()), State());
    }

    method PopNext()
      requires head < ring.Length && (count > 0 ==> ring[head].batch.Some?)
      modifies this`head, this`count, this`worker, ring
      ensures State() == PopOrExit(old(State()))
      ensures if old(count) == 0 then worker.Exited? && count == 0 else worker.Discarding? && count == old(count) - 1
    {
      if count == 0 {
        worker := Exited;
      } else {
        worker := Discarding(ring[head].batch.value);
        ring[head] := ring[head].(batch := None);
        WrapIsRemainder(head + 1, ring.Length);
        head := (head + 1) % ring.Length;
        count := count - 1;
      }
    }
  }
}
