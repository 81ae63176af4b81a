/** Whole runs from genesis: the last-writer theorem, the closed form of every
    readable bucket, and the amount of merge work a level costs. */
module History {
  import opened Wire
  import opened Buckets
  import opened Schedule
  import opened Lists

  /** The levels after the given history of batches, one per advance. */
  function Run(depth: nat, batches: seq<Bucket>): (levels: seq<Level>)
    ensures |levels| == depth
  {
    if batches == [] then Genesis(depth)
    else Step(|batches|, Run(depth, batches[..|batches| - 1]), batches[|batches| - 1])
  }

  /** The last effect any batch of the history had on each identity. */
  function LastWriter(batches: seq<Bucket>): Effects {
    if batches == [] then map[]
    else LastWriter(batches[..|batches| - 1]) + View(batches[|batches| - 1])
  }

  lemma GenesisAccepted(depth: nat)
    ensures Accepts(0, Genesis(depth))
  {
  }

  lemma {:induction false} GenesisReads(depth: nat, i: nat)
    requires i <= depth
    ensures VisibleFrom(Genesis(depth), i) == map[]
    decreases depth - i
  {
    if i < depth { GenesisReads(depth, i + 1); }
  }

  /** One more batch: the last writer of the longer history. */
  lemma {:induction false} LaterWriter(depth: nat, batches: seq<Bucket>, n: nat)
    requires ValidDepth(depth) && |batches| == n + 1
    requires Accepts(n, Run(depth, batches[..n]))
    requires forall k :: Get(Run(depth, batches[..n]), k) == ValueAt(LastWriter(batches[..n]), k)
    ensures Accepts(n + 1, Run(depth, batches))
    ensures forall k :: Get(Run(depth, batches), k) == ValueAt(LastWriter(batches), k)
  {
    hide Half, View, Accepts, Step, Get, Genesis;
    var before := Run(depth, batches[..n]);
    StepAccepted(n, before, batches[n]);
    StepReads(n, before, batches[n]);
  }

  /** Every reachable state is accepted, and reads return the last write of the
      whole history: no deleted identity resurfaces and no write is lost. */
  lemma {:induction false} RunIsLastWriter(depth: nat, batches: seq<Bucket>)
    requires ValidDepth(depth)
    ensures Accepts(|batches|, Run(depth, batches))
    ensures forall k :: Get(Run(depth, batches), k) == ValueAt(LastWriter(batches), k)
  {
    if batches == [] {
      hide Half, View, Accepts;
      GenesisAccepted(depth);
      GenesisReads(depth, 0);
    } else {
      hide *;
      RunIsLastWriter(depth, batches[..|batches| - 1]);
      LaterWriter(depth, batches, |batches| - 1);
    }
  }

  // ----- spans of advances -------------------------------------------------

  /** The merge of the batches of advances `lo` up to but excluding `hi`,
      clipped at the first advance. Advance `a` carries `batches[a - 1]`. */
  function Span(batches: seq<Bucket>, lo: int, hi: int): Bucket
    requires hi <= |batches| + 1
    decreases hi
  {
    if hi <= lo || hi <= 1 then EMPTY else Merge(Span(batches, lo, hi - 1), batches[hi - 2], false)
  }

  lemma {:induction false} SpanPrefix(batches: seq<Bucket>, b: Bucket, lo: int, hi: int)
    requires hi <= |batches| + 1
    ensures Span(batches + [b], lo, hi) == Span(batches, lo, hi)
    decreases hi
  {
    hide Merge;
    if hi > lo && hi > 1 { SpanPrefix(batches, b, lo, hi - 1); }
  }

  lemma {:induction false} SpanConcat(batches: seq<Bucket>, lo: int, mid: int, hi: int)
    requires lo <= mid <= hi <= |batches| + 1
    ensures Merge(Span(batches, lo, mid), Span(batches, mid, hi), false) == Span(batches, lo, hi)
    decreases hi
  {
    hide Merge, View;
    MergeEmpty(Span(batches, lo, mid));
    if hi <= 1 {
    } else if mid < hi {
      SpanConcat(batches, lo, mid, hi - 1);
      MergeAssociative(Span(batches, lo, mid), Span(batches, mid, hi - 1), batches[hi - 2]);
    }
  }

  lemma {:induction false} SpanClip(batches: seq<Bucket>, lo: int, hi: int)
    requires hi <= |batches| + 1 && lo <= 1
    ensures Span(batches, lo, hi) == Span(batches, 1, hi)
    decreases hi
  {
    hide Merge, View;
    if hi > 1 { SpanClip(batches, lo, hi - 1); }
  }

  lemma {:induction false} SpanOne(batches: seq<Bucket>)
    requires batches != []
    ensures Span(batches, |batches|, |batches| + 1) == batches[|batches| - 1]
  {
    hide Merge, View;
    MergeEmpty(batches[|batches| - 1]);
    assert Span(batches, |batches|, |batches|) == EMPTY;
  }

  // ----- the boundaries ----------------------------------------------------

  /** How far level `i` trails the advances: (4^(i+1) - 4) / 3. */
  function Lag(i: nat): nat { if i == 0 then 0 else Lag(i - 1) + 2 * Half(i - 1) }

  lemma {:induction false} LagFormula(i: nat)
    ensures 3 * Lag(i) == 2 * Half(i) - 4
  {
    if i > 0 { LagFormula(i - 1); }
  }

  /** The boundary between a level's snapshot and its current. */
  function Cut(n: nat, i: nat): int { RoundDown(n, Half(i)) - Lag(i) }

  /** Where level `i`'s current ends: one past the newest advance at the root,
      else at the oldest advance of the snapshot above. */
  function CurrentEnd(n: nat, i: nat): int {
    if i == 0 then n + 1 else Cut(n, i - 1) - Half(i - 1)
  }

  lemma CutBounds(n: nat, i: nat)
    ensures Cut(n, i) <= n && CurrentEnd(n, i) <= n + 1
  {
    RoundDownFacts(n, Half(i));
    if i > 0 { RoundDownFacts(n, Half(i - 1)); }
  }

  function CurrentSpan(batches: seq<Bucket>, n: nat, i: nat): Bucket
    requires n <= |batches|
  {
    CutBounds(n, i);
    Span(batches, Cut(n, i), CurrentEnd(n, i))
  }

  function SnapshotSpan(batches: seq<Bucket>, n: nat, i: nat): Bucket
    requires n <= |batches|
  {
    CutBounds(n, i);
    Span(batches, Cut(n, i) - Half(i), Cut(n, i))
  }

  /** Level `i` of a `depth`-level list holds exactly its span of the history. */
  ghost predicate ClosedLevel(batches: seq<Bucket>, levels: seq<Level>, i: nat)
    requires i < |levels|
  {
    var n := |batches|;
    CutBounds(n, i);
    if i + 1 == |levels| then
      levels[i].curr == Merge(EMPTY, Span(batches, 1, CurrentEnd(n, i)), true) && levels[i].snap == EMPTY
    else
      levels[i].curr == CurrentSpan(batches, n, i) && levels[i].snap == SnapshotSpan(batches, n, i)
  }

  /** Every readable bucket is a merge of a contiguous interval of advances whose
      boundaries depend only on their number. Reading down the levels the
      intervals abut (each snapshot ends where its current starts, and each
      current ends where the snapshot above starts), so they partition the
      history; the terminal one has its tombstones removed. */
  ghost predicate Closed(batches: seq<Bucket>, levels: seq<Level>) {
    forall i | 0 <= i < |levels| :: ClosedLevel(batches, levels, i)
  }

  // ----- arithmetic of one advance -----------------------------------------

  lemma RoundDownStep(n: nat, h: nat)
    requires h > 0
    ensures (n + 1) % h == 0 ==> RoundDown(n + 1, h) == n + 1 && RoundDown(n, h) == n + 1 - h
    ensures (n + 1) % h != 0 ==> RoundDown(n + 1, h) == RoundDown(n, h)
  {
    DivStep(n, h);
    RoundDownFacts(n, h);
    Distribute(n / h + 1, 1, h);
  }

  lemma RoundDownQuarter(n: nat, h: nat)
    requires h > 0
    ensures RoundDown(n, h) == RoundDown(n, 4 * h) + (n / h) % 4 * h
  {
    var q := n / h;
    RoundDownFacts(n, h);
    RoundDownFacts(n, 4 * h);
    QuarterOf(n, h);
    QuarterSplit(q / 4, q % 4, h);
  }

  /** A mature current of a non-terminal level spans between one and four of the
      snapshots feeding it: between half(i - 1) and half(i) advances. */
  lemma CurrentLength(n: nat, i: nat)
    requires i > 0
    ensures CurrentEnd(n, i) - Cut(n, i) == ((n / Half(i - 1)) % 4 + 1) * Half(i - 1)
    ensures Half(i - 1) <= CurrentEnd(n, i) - Cut(n, i) <= Half(i)
  {
    var h := Half(i - 1);
    var q := (n / h) % 4;
    RoundDownQuarter(n, h);
    Distribute(q + 1, 1, h);
    if q == 0 {} else if q == 1 {} else if q == 2 {} else {}
  }

  /** At its own spill every boundary of a level moves to that of a neighbour. */
  lemma SpillerCuts(n: nat, i: nat)
    requires i > 0 && (n + 1) % Half(i) == 0 && (n + 1) % Half(i - 1) == 0
    ensures Cut(n + 1, i) - Half(i) == Cut(n, i) && CurrentEnd(n, i) == Cut(n + 1, i)
    ensures Cut(n, i - 1) - Half(i - 1) == Cut(n + 1, i) && Cut(n, i - 1) == CurrentEnd(n + 1, i)
  {
    RoundDownStep(n, Half(i));
    RoundDownStep(n, Half(i - 1));
  }

  /** An input extends a resting level's current over the merged snapshot. */
  lemma ReceiverCuts(n: nat, i: nat)
    requires i > 0 && (n + 1) % Half(i - 1) == 0
    ensures (n + 1) % Half(i) != 0 ==> Cut(n + 1, i) == Cut(n, i)
    ensures CurrentEnd(n, i) == Cut(n, i - 1) - Half(i - 1) && Cut(n, i - 1) == CurrentEnd(n + 1, i)
    ensures n + 1 == Half(i - 1) ==> CurrentEnd(n + 1, i) <= 0
    ensures Cut(n, i) <= CurrentEnd(n, i) <= Cut(n, i - 1)
  {
    RoundDownStep(n, Half(i));
    RoundDownStep(n, Half(i - 1));
    CurrentLength(n, i);
  }

  lemma IdleCuts(n: nat, i: nat)
    requires i > 0 && (n + 1) % Half(i - 1) != 0 && (n + 1) % Half(i) != 0
    ensures Cut(n + 1, i) == Cut(n, i) && CurrentEnd(n + 1, i) == CurrentEnd(n, i)
  {
    RoundDownStep(n, Half(i));
    RoundDownStep(n, Half(i - 1));
  }

  // ----- the closed form is inductive --------------------------------------

  lemma EmptyTerminal()
    ensures Merge(EMPTY, EMPTY, true) == EMPTY
  {
  }

  lemma {:induction false} NothingSpanned(batches: seq<Bucket>, lo: int, hi: int)
    requires hi <= 1
    ensures Span(batches, lo, hi) == EMPTY
  {
  }

  lemma GenesisClosed(depth: nat, i: nat)
    requires i < depth
    ensures ClosedLevel([], Genesis(depth), i)
  {
    hide Half, Merge, Span, RoundDown, Lag;
    CutBounds(0, i);
    EmptyTerminal();
    NothingSpanned([], 1, CurrentEnd(0, i));
    NothingSpanned([], Cut(0, i), CurrentEnd(0, i));
    NothingSpanned([], Cut(0, i) - Half(i), Cut(0, i));
  }

  lemma RootCuts(n: nat)
    ensures (n + 1) % 2 == 0 ==> Cut(n + 1, 0) == n + 1 && Cut(n, 0) == n - 1
    ensures (n + 1) % 2 != 0 ==> Cut(n + 1, 0) == Cut(n, 0)
    ensures CurrentEnd(n, 0) == n + 1 && Half(0) == 2
  {
    RoundDownStep(n, 2);
  }

  lemma RootClosed(batches: seq<Bucket>, levels: seq<Level>, b: Bucket)
    requires 2 <= |levels| && Closed(batches, levels)
    ensures ClosedLevel(batches + [b], Step(|batches| + 1, levels, b), 0)
  {
    hide Merge, View, RoundDown, Cut, CurrentEnd, Half;
    var n, all := |batches|, batches + [b];
    assert ClosedLevel(batches, levels, 0);
    RootCuts(n);
    RootCuts(n + 1);
    CutBounds(n, 0);
    SpanPrefix(batches, b, Cut(n, 0), n + 1);
    SpanPrefix(batches, b, Cut(n, 0) - 2, Cut(n, 0));
    MergeEmpty(b);
    SpanOne(all);
    assert all[n] == b;
  }

  lemma SpillerClosed(batches: seq<Bucket>, levels: seq<Level>, b: Bucket, i: nat)
    requires 0 < i < |levels| && Accepts(|batches|, levels) && Closed(batches, levels)
    requires ShouldSpill(|levels|, |batches| + 1, i)
    ensures ClosedLevel(batches + [b], Step(|batches| + 1, levels, b), i)
  {
    hide Merge, View, Half, RoundDown, Lag, Cut, CurrentEnd, Span;
    var n := |batches|;
    assert AcceptsLevel(n, levels, i) && ClosedLevel(batches, levels, i) && ClosedLevel(batches, levels, i - 1);
    SpillsBelow(|levels|, n + 1, i);
    SpillingDestination(|levels|, n, i);
    MergeEmpty(levels[i - 1].snap);
    SpillerCuts(n, i);
    CutBounds(n, i);
    CutBounds(n, i - 1);
    SpanPrefix(batches, b, Cut(n + 1, i), Cut(n, i - 1));
    SpanPrefix(batches, b, Cut(n, i), CurrentEnd(n, i));
  }

  lemma IdleIndivisible(depth: nat, n: nat, i: nat)
    requires 0 < i < depth && !ShouldSpill(depth, n + 1, i - 1)
    ensures CurrentEnd(n + 1, i) == CurrentEnd(n, i)
  {
    RoundDownStep(n, Half(i - 1));
  }

  lemma IdleClosed(batches: seq<Bucket>, levels: seq<Level>, b: Bucket, i: nat)
    requires 0 < i < |levels| && Closed(batches, levels)
    requires !ShouldSpill(|levels|, |batches| + 1, i - 1) && !ShouldSpill(|levels|, |batches| + 1, i)
    ensures ClosedLevel(batches + [b], Step(|batches| + 1, levels, b), i)
  {
    hide Merge, View, Half, RoundDown, Lag, Cut, CurrentEnd, Span;
    var n := |batches|;
    assert ClosedLevel(batches, levels, i);
    IdleIndivisible(|levels|, n, i);
    CutBounds(n, i);
    if i + 1 == |levels| {
      SpanPrefix(batches, b, 1, CurrentEnd(n, i));
    } else {
      IdleCuts(n, i);
      SpanPrefix(batches, b, Cut(n, i) - Half(i), Cut(n, i));
      SpanPrefix(batches, b, Cut(n, i), CurrentEnd(n, i));
    }
  }

  lemma SpillsAt(depth: nat, n: nat, i: nat)
    requires 0 < i && i + 1 < depth
    ensures ShouldSpill(depth, n, i - 1) <==> n % Half(i - 1) == 0
    ensures ShouldSpill(depth, n, i) <==> n % Half(i) == 0
  {
  }

  /** A receiver that does not spill keeps its snapshot and, from its second input
      on, has absorbed the snapshot of the level above. */
  lemma RestingStep(n: nat, levels: seq<Level>, b: Bucket, i: nat)
    requires 0 < i && i + 1 < |levels| && Accepts(n, levels)
    requires ShouldSpill(|levels|, n + 1, i - 1) && !ShouldSpill(|levels|, n + 1, i)
    ensures Step(n + 1, levels, b)[i].snap == levels[i].snap
    ensures Step(n + 1, levels, b)[i].curr == if n + 1 == Half(i - 1) then levels[i].curr else Merge(levels[i].curr, levels[i - 1].snap, false)
  {
    hide Merge, View, Half;
    assert AcceptsLevel(n, levels, i);
    RestingDestination(|levels|, n, i);
    FirstSpill(|levels|, n, i - 1);
    assert Step(n + 1, levels, b)[i] == StepLevel(n + 1, levels, b, i);
  }

  lemma RestingClosed(batches: seq<Bucket>, levels: seq<Level>, b: Bucket, i: nat)
    requires 0 < i && i + 1 < |levels| && Accepts(|batches|, levels) && Closed(batches, levels)
    requires ShouldSpill(|levels|, |batches| + 1, i - 1) && !ShouldSpill(|levels|, |batches| + 1, i)
    ensures ClosedLevel(batches + [b], Step(|batches| + 1, levels, b), i)
  {
    hide Merge, View, Half, RoundDown, Lag, Cut, CurrentEnd, Step, Accepts, ShouldSpill, Span;
    var n := |batches|;
    assert ClosedLevel(batches, levels, i) && ClosedLevel(batches, levels, i - 1);
    RestingStep(n, levels, b, i);
    assert (n + 1) % Half(i - 1) == 0 && (n + 1) % Half(i) != 0 by { SpillsAt(|levels|, n + 1, i); }
    ReceiverCuts(n, i);
    CutBounds(n, i);
    CutBounds(n, i - 1);
    if n + 1 == Half(i - 1) {
      NothingSpanned(batches, Cut(n, i), CurrentEnd(n, i));
      NothingSpanned(batches + [b], Cut(n, i), Cut(n, i - 1));
    } else {
      SpanConcat(batches, Cut(n, i), CurrentEnd(n, i), Cut(n, i - 1));
      SpanPrefix(batches, b, Cut(n, i), Cut(n, i - 1));
    }
    SpanPrefix(batches, b, Cut(n, i) - Half(i), Cut(n, i));
  }

  lemma {:induction false} TerminalSpan(batches: seq<Bucket>, mid: int, hi: int)
    requires mid <= hi <= |batches| + 1
    ensures Merge(Merge(EMPTY, Span(batches, 1, mid), true), Span(batches, mid, hi), true) == Merge(EMPTY, Span(batches, 1, hi), true)
  {
    hide Merge, View;
    MergeDropAbsorbs(Span(batches, 1, mid), Span(batches, mid, hi));
    if mid >= 1 {
      SpanConcat(batches, 1, mid, hi);
    } else {
      SpanClip(batches, mid, hi);
      MergeEmpty(Span(batches, 1, hi));
    }
  }

  lemma TerminalClosed(batches: seq<Bucket>, levels: seq<Level>, b: Bucket, i: nat)
    requires 0 < i && i + 1 == |levels| && Accepts(|batches|, levels) && Closed(batches, levels)
    requires ShouldSpill(|levels|, |batches| + 1, i - 1)
    ensures ClosedLevel(batches + [b], Step(|batches| + 1, levels, b), i)
  {
    hide Merge, View, Half, RoundDown, Lag, Cut, CurrentEnd;
    var n := |batches|;
    assert AcceptsLevel(n, levels, i) && ClosedLevel(batches, levels, i) && ClosedLevel(batches, levels, i - 1);
    RestingDestination(|levels|, n, i);
    FirstSpill(|levels|, n, i - 1);
    ReceiverCuts(n, i);
    CutBounds(n, i - 1);
    TerminalSpan(batches, CurrentEnd(n, i), Cut(n, i - 1));
    SpanPrefix(batches, b, 1, Cut(n, i - 1));
    EmptyTerminal();
  }

  /** A list of one level keeps everything in its current. */
  lemma OnlyClosed(batches: seq<Bucket>, levels: seq<Level>, b: Bucket)
    requires |levels| == 1 && Closed(batches, levels)
    ensures ClosedLevel(batches + [b], Step(|batches| + 1, levels, b), 0)
  {
    hide Merge, View, Half;
    var n, all := |batches|, batches + [b];
    assert ClosedLevel(batches, levels, 0);
    assert Step(n + 1, levels, b)[0] == StepLevel(n + 1, levels, b, 0);
    SpanOne(all);
    SpanPrefix(batches, b, 1, n + 1);
    TerminalSpan(all, n + 1, n + 2);
  }

  lemma StepClosed(batches: seq<Bucket>, levels: seq<Level>, b: Bucket, i: nat)
    requires i < |levels|
    requires Accepts(|batches|, levels) && Closed(batches, levels)
    ensures ClosedLevel(batches + [b], Step(|batches| + 1, levels, b), i)
  {
    var n, depth := |batches|, |levels|;
    if depth == 1 {
      OnlyClosed(batches, levels, b);
    } else if i == 0 {
      RootClosed(batches, levels, b);
    } else if ShouldSpill(depth, n + 1, i) {
      SpillerClosed(batches, levels, b, i);
    } else if !ShouldSpill(depth, n + 1, i - 1) {
      IdleClosed(batches, levels, b, i);
    } else if i + 1 == depth {
      TerminalClosed(batches, levels, b, i);
    } else {
      RestingClosed(batches, levels, b, i);
    }
  }

  lemma {:induction false} RunIsClosed(depth: nat, batches: seq<Bucket>)
    requires ValidDepth(depth)
    ensures Closed(batches, Run(depth, batches))
  {
    hide Half, View, Step, ClosedLevel;
    if batches == [] {
      forall i: nat | i < depth ensures ClosedLevel([], Genesis(depth), i) { GenesisClosed(depth, i); }
    } else {
      var earlier, last := batches[..|batches| - 1], batches[|batches| - 1];
      assert batches == earlier + [last];
      RunIsClosed(depth, earlier);
      RunIsLastWriter(depth, earlier);
      var before, after := Run(depth, earlier), Run(depth, batches);
      forall i: nat | i < depth ensures ClosedLevel(batches, after, i) {
        StepClosed(earlier, before, last, i);
      }
    }
  }

  // ----- acceptance is reachability -----------------------------------------

  /** Some history of `n` advances ends in these levels. */
  ghost predicate Reached(n: nat, levels: seq<Level>) {
    exists batches: seq<Bucket> :: |batches| == n && Run(|levels|, batches) == levels
  }

  /** The history continued to `length` advances, all empty but the last. */
  function Padded(batches: seq<Bucket>, b: Bucket, length: int): seq<Bucket> {
    if length <= |batches| then batches else batches + seq(length - 1 - |batches|, _ => EMPTY) + [b]
  }

  lemma {:induction false} SpanExtended(batches: seq<Bucket>, more: seq<Bucket>, lo: int, hi: int)
    requires hi <= |batches| + 1
    ensures Span(batches + more, lo, hi) == Span(batches, lo, hi)
    decreases |more|
  {
    hide Merge;
    if more == [] {
      assert batches + more == batches;
    } else {
      assert batches + more == (batches + [more[0]]) + more[1..];
      SpanExtended(batches + [more[0]], more[1..], lo, hi);
      SpanPrefix(batches, more[0], lo, hi);
    }
  }

  lemma {:induction false} SpanOfEmpty(batches: seq<Bucket>, lo: int, hi: int)
    requires hi <= |batches| + 1 && forall a: nat | a < |batches| && lo <= a + 1 < hi :: batches[a] == EMPTY
    ensures Span(batches, lo, hi) == EMPTY
    decreases hi
  {
    hide Merge;
    MergeEmpty(EMPTY);
    if hi > lo && hi > 1 { SpanOfEmpty(batches, lo, hi - 1); }
  }

  /** The padding holds its one bucket, and what was there stays. */
  lemma {:induction false} PaddedSpan(batches: seq<Bucket>, b: Bucket, lo: int, hi: int)
    requires lo < hi && |batches| == (if lo <= 1 then 0 else lo - 1) && (hi <= 1 ==> b == EMPTY)
    ensures var all := Padded(batches, b, hi - 1);
            |all| == (if hi <= 1 then 0 else hi - 1) && Span(all, lo, hi) == b && batches <= all
  {
    hide Merge;
    var all := Padded(batches, b, hi - 1);
    if hi > 1 {
      SpanOfEmpty(all, lo, hi - 1);
      MergeEmpty(b);
    }
  }

  lemma {:induction false} OnlySpan(b: Bucket, hi: int)
    requires hi <= 1 && b == EMPTY
    ensures Padded([], b, hi - 1) == [] && Span([], 1, hi) == b
  {
  }

  lemma {:induction false} StillSpan(batches: seq<Bucket>, all: seq<Bucket>, lo: int, hi: int)
    requires hi <= |batches| + 1 && batches <= all
    ensures Span(all, lo, hi) == Span(batches, lo, hi)
  {
    assert all == batches + all[|batches|..];
    SpanExtended(batches, all[|batches|..], lo, hi);
  }

  lemma CurrentNonempty(n: nat, i: nat)
    ensures Cut(n, i) < CurrentEnd(n, i)
  {
    CutBounds(n, i);
    if i > 0 { CurrentLength(n, i); }
  }

  /** Before these sequences an interval lies before the first advance. */
  lemma {:induction false} EarlyIntervals(n: nat, i: nat)
    ensures CurrentEnd(n, i) <= 1 ==> UntouchedCurrent(n, i)
    ensures Cut(n, i) <= 1 ==> n < Half(i)
  {
    LagFormula(i);
    RoundDownFacts(n, Half(i));
    AtLeast(n, Half(i));
    if n >= Half(i) { AtLeastOnce(n / Half(i), Half(i)); }
    if i > 0 {
      var h := Half(i - 1);
      LagFormula(i - 1);
      RoundDownFacts(n, h);
      AtLeast(n, h);
      if n >= 2 * h { Distribute(n / h, 1, h); AtLeastOnce(n / h - 1, h); }
    }
  }

  /** A history that puts each bucket of level `i` and older at the last advance of
      its interval. */
  function Filled(n: nat, levels: seq<Level>, i: nat): seq<Bucket>
    requires i < |levels|
    decreases |levels| - i
  {
    Padded(if i + 1 == |levels| then [] else Padded(Filled(n, levels, i + 1), levels[i].snap, Cut(n, i) - 1), levels[i].curr, CurrentEnd(n, i) - 1)
  }

  /** Level `j`'s buckets are the merges of their intervals. */
  ghost predicate FillsLevel(n: nat, levels: seq<Level>, j: nat, batches: seq<Bucket>)
    requires j < |levels|
  {
    && Cut(n, j) < CurrentEnd(n, j) <= |batches| + 1
    && levels[j].curr == Span(batches, if j + 1 == |levels| then 1 else Cut(n, j), CurrentEnd(n, j))
    && (j + 1 < |levels| ==> levels[j].snap == Span(batches, Cut(n, j) - Half(j), Cut(n, j)))
  }

  ghost predicate Fills(n: nat, levels: seq<Level>, i: nat, batches: seq<Bucket>)
    requires i <= |levels|
  {
    forall j | i <= j < |levels| :: FillsLevel(n, levels, j, batches)
  }

  lemma {:induction false} StillFills(n: nat, levels: seq<Level>, i: nat, batches: seq<Bucket>, all: seq<Bucket>)
    requires i <= |levels| && Fills(n, levels, i, batches) && batches <= all
    ensures Fills(n, levels, i, all)
  {
    hide Merge, Cut, CurrentEnd, Half, Span;
    forall j: nat | i <= j < |levels| ensures FillsLevel(n, levels, j, all) {
      assert FillsLevel(n, levels, j, batches);
      StillSpan(batches, all, if j + 1 == |levels| then 1 else Cut(n, j), CurrentEnd(n, j));
      StillSpan(batches, all, Cut(n, j) - Half(j), Cut(n, j));
    }
  }

  lemma {:induction false} OldestFilled(n: nat, levels: seq<Level>, i: nat)
    requires i + 1 == |levels| && AcceptsLevel(n, levels, i)
    ensures var batches := Padded([], levels[i].curr, CurrentEnd(n, i) - 1);
            |batches| == (if CurrentEnd(n, i) <= 1 then 0 else CurrentEnd(n, i) - 1) && FillsLevel(n, levels, i, batches)
  {
    hide Merge, Cut, CurrentEnd, Half, Span, Padded, Lag;
    EarlyIntervals(n, i);
    CurrentNonempty(n, i);
    if CurrentEnd(n, i) > 1 { PaddedSpan([], levels[i].curr, 1, CurrentEnd(n, i)); } else { OnlySpan(levels[i].curr, CurrentEnd(n, i)); }
  }

  lemma {:induction false} YoungerFilled(n: nat, levels: seq<Level>, i: nat, older: seq<Bucket>)
    requires i + 1 < |levels| && AcceptsLevel(n, levels, i)
    requires |older| == (if Cut(n, i) - Half(i) <= 1 then 0 else Cut(n, i) - Half(i) - 1)
    ensures var batches := Padded(Padded(older, levels[i].snap, Cut(n, i) - 1), levels[i].curr, CurrentEnd(n, i) - 1);
            && older <= batches && |batches| == (if CurrentEnd(n, i) <= 1 then 0 else CurrentEnd(n, i) - 1)
            && FillsLevel(n, levels, i, batches)
  {
    hide Merge, Cut, CurrentEnd, Half, Span, Padded, Lag, Scheduled;
    EarlyIntervals(n, i);
    CurrentNonempty(n, i);
    PaddedSpan(older, levels[i].snap, Cut(n, i) - Half(i), Cut(n, i));
    var mid := Padded(older, levels[i].snap, Cut(n, i) - 1);
    PaddedSpan(mid, levels[i].curr, Cut(n, i), CurrentEnd(n, i));
    StillSpan(mid, Padded(mid, levels[i].curr, CurrentEnd(n, i) - 1), Cut(n, i) - Half(i), Cut(n, i));
  }

  /** Buckets that acceptance leaves empty are those whose interval is empty, so a
      history can be filled with all the others. */
  lemma {:induction false} FilledFills(n: nat, levels: seq<Level>, i: nat)
    requires i < |levels| && Accepts(n, levels)
    ensures var batches := Filled(n, levels, i);
            |batches| == (if CurrentEnd(n, i) <= 1 then 0 else CurrentEnd(n, i) - 1) && Fills(n, levels, i, batches)
    decreases |levels| - i
  {
    hide Cut, Half, Padded, Lag, FillsLevel, AcceptsLevel;
    assert AcceptsLevel(n, levels, i);
    if i + 1 == |levels| {
      OldestFilled(n, levels, i);
    } else {
      var older := Filled(n, levels, i + 1);
      FilledFills(n, levels, i + 1);
      YoungerFilled(n, levels, i, older);
      StillFills(n, levels, i + 1, older, Filled(n, levels, i));
    }
  }

  lemma LiveMerge(b: Bucket)
    requires forall r | r in b :: r.value.Some?
    ensures Merge(EMPTY, b, true) == b
  {
    hide View;
    LiveOnly(b);
  }

  /** Acceptance is reachability: the levels accepted at sequence `n` are exactly
      those that some history of `n` advances ends in. */
  lemma {:induction false} AcceptedIsReached(n: nat, levels: seq<Level>)
    requires ValidDepth(|levels|)
    ensures Accepts(n, levels) <==> Reached(n, levels)
  {
    hide Half, Merge, Span, Cut, Step;
    if Accepts(n, levels) {
      var batches := Filled(n, levels, 0);
      FilledFills(n, levels, 0);
      RunIsLastWriter(|levels|, batches);
      RunIsClosed(|levels|, batches);
      var reached := Run(|levels|, batches);
      forall i: nat | i < |levels| ensures reached[i].curr == levels[i].curr && reached[i].snap == levels[i].snap {
        assert ClosedLevel(batches, reached, i) && AcceptsLevel(n, levels, i) && FillsLevel(n, levels, i, batches);
        if i + 1 == |levels| { LiveMerge(levels[i].curr); }
      }
      PendingDetermined(n, reached, levels);
    }
    if Reached(n, levels) {
      var batches: seq<Bucket> :| |batches| == n && Run(|levels|, batches) == levels;
      RunIsLastWriter(|levels|, batches);
    }
  }

  /** What `validate` lets through under a hash that identifies buckets. */
  lemma {:induction false} ValidatedIsReached<D(!new)>(hash: Bucket -> D, n: nat, levels: seq<Level>)
    requires ValidDepth(|levels|) && Injective(hash)
    ensures Checks(hash, n, levels) <==> Reached(n, levels)
  {
    hide Scheduled, ShapedLevel, Reached;
    AcceptedIsReached(n, levels);
    if Checks(hash, n, levels) {
      forall i | 0 <= i < |levels| ensures AcceptsLevel(n, levels, i) { assert ChecksLevel(hash, n, levels, i); }
    }
    if Accepts(n, levels) {
      forall i | 0 <= i < |levels| ensures ChecksLevel(hash, n, levels, i) { assert AcceptsLevel(n, levels, i); }
    }
  }

  // ----- the intervals cover the history once -------------------------------

  lemma {:induction false} AppendSpan(batches: seq<Bucket>, mid: int, hi: int)
    requires mid <= hi <= |batches| + 1
    ensures Merge(Span(batches, 1, mid), Span(batches, mid, hi), false) == Span(batches, 1, hi)
  {
    hide Merge, View;
    if mid >= 1 {
      SpanConcat(batches, 1, mid, hi);
    } else {
      SpanClip(batches, mid, hi);
      MergeEmpty(Span(batches, 1, hi));
    }
  }

  /** The spans of level `i` and everything older, oldest first, merged in order. */
  function FromOldest(batches: seq<Bucket>, depth: nat, i: nat): Bucket
    requires i < depth
    decreases depth - i
  {
    var n := |batches|;
    CutBounds(n, i);
    if i + 1 == depth then Span(batches, 1, CurrentEnd(n, i))
    else Merge(Merge(FromOldest(batches, depth, i + 1), SnapshotSpan(batches, n, i), false), CurrentSpan(batches, n, i), false)
  }

  /** The intervals of all readable buckets, merged in order, are the merge of
      the whole history: none is missing, repeated or out of place. */
  lemma {:induction false} SpansPartitionHistory(batches: seq<Bucket>, depth: nat, i: nat)
    requires i < depth
    ensures CurrentEnd(|batches|, i) <= |batches| + 1
    ensures FromOldest(batches, depth, i) == Span(batches, 1, CurrentEnd(|batches|, i))
    decreases depth - i
  {
    hide Merge, View, RoundDown, Half, Lag;
    var n := |batches|;
    CutBounds(n, i);
    if i + 1 < depth {
      SpansPartitionHistory(batches, depth, i + 1);
      CutBounds(n, i + 1);
      AppendSpan(batches, Cut(n, i) - Half(i), Cut(n, i));
      CurrentNonempty(n, i);
      AppendSpan(batches, Cut(n, i), CurrentEnd(n, i));
    }
  }

  /** How many readable buckets of level `i` and older have advance `a` in their
      interval. */
  function Holders(n: nat, depth: nat, i: nat, a: nat): nat
    requires i < depth
    decreases depth - i
  {
    if i + 1 == depth then (if 1 <= a < CurrentEnd(n, i) then 1 else 0)
    else Holders(n, depth, i + 1, a)
         + (if 1 <= a && Cut(n, i) - Half(i) <= a < Cut(n, i) then 1 else 0)
         + (if 1 <= a && Cut(n, i) <= a < CurrentEnd(n, i) then 1 else 0)
  }

  /** No advance is missing or repeated: each lies in exactly one interval. */
  lemma {:induction false} EachAdvanceOnce(n: nat, depth: nat, i: nat, a: nat)
    requires i < depth
    ensures Holders(n, depth, i, a) == if 1 <= a < CurrentEnd(n, i) then 1 else 0
    ensures i == 0 ==> Holders(n, depth, i, a) == if 1 <= a <= n then 1 else 0
    decreases depth - i
  {
    hide RoundDown, Half, Lag, Cut;
    if i + 1 < depth {
      EachAdvanceOnce(n, depth, i + 1, a);
      CurrentNonempty(n, i);
      assert CurrentEnd(n, i + 1) == Cut(n, i) - Half(i) <= Cut(n, i) < CurrentEnd(n, i);
    }
  }

  // ----- merge work ---------------------------------------------------------

  /** How many advances of the history lie in an interval. */
  function Advances(lo: int, hi: int): nat {
    if hi <= lo || hi <= 1 then 0 else if lo < 1 then hi - 1 else hi - lo
  }

  /** The advances' worth of batches that the merge started into non-terminal
      level `i` at advance `n` reads. */
  function MergeWork(depth: nat, n: nat, i: nat): nat
    requires 0 < i
  {
    if !ShouldSpill(depth, n, i - 1) then 0 else
    (if MergeWithEmpty(depth, n, i) then 0 else Advances(Cut(n, i), CurrentEnd(n, i))) +
    Advances(Cut(n, i - 1) - Half(i - 1), Cut(n, i - 1))
  }

  /** Those advances are what the merge really reads: its inputs are exactly the
      spans that `MergeWork` measures. */
  lemma {:induction false} MergeReads(depth: nat, batches: seq<Bucket>, i: nat)
    requires 0 < i && i + 1 < depth <= MAX_DEPTH && batches != [] && ShouldSpill(depth, |batches|, i - 1)
    ensures var n := |batches|;
            Run(depth, batches)[i].next == Some(Merge(
              if MergeWithEmpty(depth, n, i) then EMPTY else CurrentSpan(batches, n, i), SnapshotSpan(batches, n, i - 1), false))
  {
    hide Merge, View, Half, RoundDown, Lag, Cut, CurrentEnd;
    var n, levels := |batches|, Run(depth, batches);
    RunIsLastWriter(depth, batches);
    RunIsClosed(depth, batches);
    assert AcceptsLevel(n, levels, i) && ClosedLevel(batches, levels, i) && ClosedLevel(batches, levels, i - 1);
    FirstSpill(depth, n - 1, i - 1);
  }

  predicate WithinQuarter(q: nat, h: nat, work: nat) {
    && (q % 4 == 3 ==> work <= h) && (q % 4 == 0 ==> work <= 2 * h)
    && (q % 4 == 1 ==> work <= 3 * h) && (q % 4 == 2 ==> work <= 4 * h)
  }

  /** How many inputs level `i` has received by advance `n`. */
  function Inputs(n: nat, i: nat): nat
    requires 0 < i
  {
    QuotientNatural(n, Half(i - 1));
    n / Half(i - 1)
  }

  /** The quarter of the spill bounds its work, and the first two spills find a
      clipped history. */
  lemma {:induction false} SpillWork(depth: nat, n: nat, i: nat)
    requires 0 < i && i + 1 < depth && n % Half(i - 1) == 0
    ensures var h, q := Half(i - 1), Inputs(n, i);
            && WithinQuarter(q, h, MergeWork(depth, n, i))
            && (q == 1 ==> MergeWork(depth, n, i) <= h)
            && (q == 2 ==> MergeWork(depth, n, i) <= 2 * h)
  {
    hide Half, Lag;
    var h, q := Half(i - 1), Inputs(n, i);
    RoundDownFacts(n, h);
    CurrentLength(n, i);
    Distribute(2, 1, h);
    Distribute(3, 1, h);
    Distribute(4, 1, h);
  }

  /** What a spill of a mature level reads, by the quarter it falls in. */
  function QuarterWork(q: nat, h: nat): nat {
    if q % 4 == 3 then h else if q % 4 == 0 then 2 * h else if q % 4 == 1 then 3 * h else 4 * h
  }

  lemma FourQuarterWorks(q: nat, h: nat)
    ensures QuarterWork(q, h) + QuarterWork(q + 1, h) + QuarterWork(q + 2, h) + QuarterWork(q + 3, h) == 10 * h
  {
    if q % 4 == 0 {} else if q % 4 == 1 {} else if q % 4 == 2 {} else {}
  }

  /** Once the level has spilled the bound is met exactly: a spill reads one to four
      input intervals, by its quarter. */
  lemma {:induction false} MatureSpillWork(depth: nat, n: nat, i: nat)
    requires 0 < i && i + 1 < depth && n % Half(i - 1) == 0 && n >= Half(i)
    ensures MergeWork(depth, n, i) == QuarterWork(Inputs(n, i), Half(i - 1))
  {
    hide Half, Lag;
    var h := Half(i - 1);
    RoundDownFacts(n, h);
    CurrentLength(n, i);
    CurrentNonempty(n, i);
    EarlyIntervals(n, i);
    Distribute(2, 1, h);
    Distribute(3, 1, h);
    Distribute(4, 1, h);
  }

  lemma NextInput(n: nat, h: nat)
    requires h > 0 && n % h == 0
    ensures (n + h) % h == 0 && (n + h) / h == n / h + 1
  {
    Remainder(n, h);
    Distribute(n / h + 1, 1, h);
    QuotientUnique(n + h, n / h + 1, 0, h);
  }

  lemma FourQuarters(q: nat, h: nat, a: nat, b: nat, c: nat, d: nat)
    requires WithinQuarter(q, h, a) && WithinQuarter(q + 1, h, b) && WithinQuarter(q + 2, h, c) && WithinQuarter(q + 3, h, d)
    ensures a + b + c + d <= 10 * h
  {
    if q % 4 == 0 {} else if q % 4 == 1 {} else if q % 4 == 2 {} else {}
  }

  /** Any four consecutive spills into a level read at most ten input intervals'
      worth of batches. */
  lemma {:induction false} FourSpills(depth: nat, n: nat, i: nat)
    requires 0 < i && i + 1 < depth && n % Half(i - 1) == 0
    ensures var h := Half(i - 1);
            MergeWork(depth, n, i) + MergeWork(depth, n + h, i) + MergeWork(depth, n + h + h, i) + MergeWork(depth, n + h + h + h, i) <= 10 * h
  {
    hide Half, MergeWork;
    var h, q := Half(i - 1), Inputs(n, i);
    NextInput(n, h);
    NextInput(n + h, h);
    NextInput(n + h + h, h);
    assert Inputs(n + h, i) == q + 1 && Inputs(n + h + h, i) == q + 2 && Inputs(n + h + h + h, i) == q + 3;
    SpillWork(depth, n, i);
    SpillWork(depth, n + h, i);
    SpillWork(depth, n + h + h, i);
    SpillWork(depth, n + h + h + h, i);
    FourQuarters(q, h, MergeWork(depth, n, i), MergeWork(depth, n + h, i), MergeWork(depth, n + h + h, i), MergeWork(depth, n + h + h + h, i));
  }

  /** Any four consecutive spills of a level that has spilled read exactly ten input
      intervals' worth of batches. */
  lemma {:induction false} FourMatureSpills(depth: nat, n: nat, i: nat)
    requires 0 < i && i + 1 < depth && n % Half(i - 1) == 0 && n >= Half(i)
    ensures var h := Half(i - 1);
            MergeWork(depth, n, i) + MergeWork(depth, n + h, i) + MergeWork(depth, n + h + h, i) + MergeWork(depth, n + h + h + h, i) == 10 * h
  {
    hide Half, MergeWork, QuarterWork;
    var h, q := Half(i - 1), Inputs(n, i);
    NextInput(n, h);
    NextInput(n + h, h);
    NextInput(n + h + h, h);
    assert Inputs(n + h, i) == q + 1 && Inputs(n + h + h, i) == q + 2 && Inputs(n + h + h + h, i) == q + 3;
    MatureSpillWork(depth, n, i);
    MatureSpillWork(depth, n + h, i);
    MatureSpillWork(depth, n + h + h, i);
    MatureSpillWork(depth, n + h + h + h, i);
    FourQuarterWorks(q, h);
  }

  function TotalWork(depth: nat, n: nat, i: nat): nat
    requires 0 < i
  {
    if n == 0 then 0 else TotalWork(depth, n - 1, i) + MergeWork(depth, n, i)
  }

  /** Input intervals read by the first `q` spills into a level. */
  function Allowance(q: nat): nat {
    if q < 2 then q
    else if q % 4 == 0 then 10 * (q / 4) - 4
    else if q % 4 == 1 then 10 * (q / 4) - 1
    else if q % 4 == 2 then 10 * (q / 4) + 3
    else 10 * (q / 4) + 4
  }

  lemma {:induction false} NoWorkBetweenSpills(depth: nat, n: nat, i: nat)
    requires 0 < i && n % Half(i - 1) != 0
    ensures MergeWork(depth, n, i) == 0
  {
  }

  lemma AllowanceGrows(q: nat, h: nat, work: nat)
    requires var p := q + 1;
             && WithinQuarter(p, h, work)
             && (p == 1 ==> work <= h) && (p == 2 ==> work <= 2 * h)
    ensures Allowance(q) * h + work <= Allowance(q + 1) * h
  {
    var extra := Allowance(q + 1) - Allowance(q);
    Distribute(Allowance(q + 1), Allowance(q), h);
    assert 1 <= extra <= 4;
    Distribute(extra, 1, h);
    if extra == 1 {} else if extra == 2 {} else if extra == 3 {} else {}
  }

  lemma {:induction false} TotalWithinAllowance(depth: nat, n: nat, i: nat)
    requires 0 < i && i + 1 < depth
    ensures TotalWork(depth, n, i) <= Allowance(Inputs(n, i)) * Half(i - 1)
    decreases n
  {
    hide Half, MergeWork;
    var h := Half(i - 1);
    if n > 0 {
      TotalWithinAllowance(depth, n - 1, i);
      DivStep(n - 1, h);
      if n % h == 0 {
        var q := Inputs(n, i);
        SpillWork(depth, n, i);
        AllowanceGrows(q - 1, h, MergeWork(depth, n, i));
      } else {
        assert MergeWork(depth, n, i) == 0 by { NoWorkBetweenSpills(depth, n, i); }
      }
    }
  }

  lemma TimesTwoAndFive(a: nat, q: nat, h: nat)
    ensures (2 * a) * h == 2 * (a * h) && (5 * q) * h == 5 * (q * h)
  {
  }

  lemma AllowanceRate(q: nat, h: nat)
    ensures 2 * (Allowance(q) * h) <= 5 * (q * h)
  {
    var slack := 5 * q - 2 * Allowance(q);
    assert slack >= 0;
    Distribute(5 * q, 2 * Allowance(q), h);
    if slack > 0 { AtLeastOnce(slack, h); }
    TimesTwoAndFive(Allowance(q), q, h);
  }

  /** Over any number of advances a non-terminal level costs at most five halves
      of a batch unit per advance. */
  lemma {:induction false} WorkBound(depth: nat, n: nat, i: nat)
    requires 0 < i && i + 1 < depth
    ensures 2 * TotalWork(depth, n, i) <= 5 * n
  {
    hide Half, TotalWork, Allowance;
    var h, q := Half(i - 1), Inputs(n, i);
    TotalWithinAllowance(depth, n, i);
    Remainder(n, h);
    AllowanceRate(q, h);
  }
}
