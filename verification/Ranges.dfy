/** Range proofs (src/disk.zig:844-1273): which consecutive blocks of a bucket a
    proof must carry, and the entries it claims, under the completeness rules of
    docs/format-v2.md:112-126. */
module Ranges {
  import opened Wire
  import opened Buckets
  import opened Slots
  import opened Cursors
  import opened Digests
  import opened Blocks
  import opened Staging
  import Frames

  /** The identity sorts before everything the range can contain. */
  predicate Below(range: Range, k: Identity) {
    k.table < range.table || (k.table == range.table && LexLess(k.key, range.start))
  }

  lemma Trichotomy(range: Range, k: Identity)
    ensures In(range, k) <==> !Below(range, k) && !Past(range, k)
  {
  }

  lemma BelowDownward(range: Range, a: Identity, b: Identity)
    requires (a == b || Before(a, b)) && Below(range, b)
    ensures Below(range, a)
  {
    if a != b && a.table == b.table == range.table { LexTransitive(a.key, b.key, range.start); }
  }

  lemma PastUpward(range: Range, a: Identity, b: Identity)
    requires (a == b || Before(a, b)) && Past(range, a)
    ensures Past(range, b)
  {
    if a != b && a.table == b.table == range.table && LexLess(b.key, range.end.value) {
      LexTransitive(a.key, b.key, range.end.value);
    }
  }

  // ----- blocks of a sorted stream -----------------------------------------

  /** A sorted stream cut into non-empty blocks. */
  ghost predicate Stream(blocks: seq<seq<Record>>) {
    Sorted(Flatten(blocks)) && forall i | 0 <= i < |blocks| :: blocks[i] != []
  }

  function Offset(blocks: seq<seq<Record>>, i: nat): nat
    requires i <= |blocks|
  {
    if i == 0 then 0 else |blocks[0]| + Offset(blocks[1..], i - 1)
  }

  lemma {:induction false} FlattenAt(blocks: seq<seq<Record>>, i: nat, a: nat)
    requires i < |blocks| && a < |blocks[i]|
    ensures Offset(blocks, i) + a < |Flatten(blocks)| && Flatten(blocks)[Offset(blocks, i) + a] == blocks[i][a]
  {
    if i > 0 { FlattenAt(blocks[1..], i - 1, a); }
  }

  lemma {:induction false} OffsetGrows(blocks: seq<seq<Record>>, i: nat, j: nat)
    requires i < j <= |blocks|
    ensures Offset(blocks, i) + |blocks[i]| <= Offset(blocks, j)
  {
    if i > 0 { OffsetGrows(blocks[1..], i - 1, j - 1); }
  }

  lemma BlocksOrdered(blocks: seq<seq<Record>>, i: nat, a: nat, j: nat, b: nat)
    requires Stream(blocks) && i < |blocks| && j < |blocks| && a < |blocks[i]| && b < |blocks[j]|
    requires i < j || (i == j && a < b)
    ensures Before(blocks[i][a].Id(), blocks[j][b].Id())
  {
    FlattenAt(blocks, i, a);
    FlattenAt(blocks, j, b);
    if i < j { OffsetGrows(blocks, i, j); }
  }

  lemma {:induction false} FlattenMember(blocks: seq<seq<Record>>, r: Record) returns (i: nat, a: nat)
    requires r in Flatten(blocks)
    ensures i < |blocks| && a < |blocks[i]| && blocks[i][a] == r
  {
    if r in blocks[0] {
      i := 0;
      a :| 0 <= a < |blocks[0]| && blocks[0][a] == r;
    } else {
      i, a := FlattenMember(blocks[1..], r);
      i := i + 1;
    }
  }

  lemma {:induction false} FlattenConcat(a: seq<seq<Record>>, b: seq<seq<Record>>)
    ensures Flatten(a + b) == Flatten(a) + Flatten(b)
  {
    if a == [] {
      assert a + b == b;
    } else {
      assert (a + b)[1..] == a[1..] + b;
      FlattenConcat(a[1..], b);
      Assoc(a[0], Flatten(a[1..]), Flatten(b));
    }
  }

  lemma {:induction false} WindowConcat(range: Range, a: seq<Record>, b: seq<Record>)
    ensures Window(range, a + b) == Window(range, a) + Window(range, b)
  {
    hide In;
    if a == [] {
      assert a + b == b;
    } else {
      assert (a + b)[1..] == a[1..] + b;
      WindowConcat(range, a[1..], b);
    }
  }

  lemma {:induction false} WindowNone(range: Range, rows: seq<Record>)
    requires forall r | r in rows :: !In(range, r.Id())
    ensures Window(range, rows) == []
  {
    hide In;
    if rows != [] { WindowNone(range, rows[1..]); }
  }

  // ----- completeness of a covering run ------------------------------------

  datatype Run = Run(from: nat, to: nat)

  /** The completeness rules: the run starts at block zero or at a block ending
      before the range, and ends at the final block or at one starting past it. */
  ghost predicate Covers(range: Range, blocks: seq<seq<Record>>, run: Run)
    requires forall i | 0 <= i < |blocks| :: blocks[i] != []
  {
    && run.from <= run.to < |blocks|
    && (run.from == 0 || Below(range, blocks[run.from][|blocks[run.from]| - 1].Id()))
    && (run.to + 1 == |blocks| || Past(range, blocks[run.to][0].Id()))
  }

  /** Under those rules alone no in-range record lies outside the run. */
  lemma {:induction false} RunIsComplete(range: Range, blocks: seq<seq<Record>>, run: Run)
    requires Stream(blocks) && Covers(range, blocks, run)
    ensures Window(range, Flatten(blocks[run.from..run.to + 1])) == Window(range, Flatten(blocks))
  {
    hide Before, In, Below, Past, Window;
    var before, inside, after := blocks[..run.from], blocks[run.from..run.to + 1], blocks[run.to + 1..];
    Extend(blocks, run.from, run.to + 1);
    Rejoin(blocks, run.to + 1);
    FlattenConcat(before, inside);
    FlattenConcat(blocks[..run.to + 1], after);
    WindowConcat(range, Flatten(before), Flatten(inside));
    WindowConcat(range, Flatten(before) + Flatten(inside), Flatten(after));
    forall r | r in Flatten(before) ensures !In(range, r.Id()) {
      var i, a := FlattenMember(before, r);
      BlocksOrdered(blocks, i, a, run.from, |blocks[run.from]| - 1);
      BelowDownward(range, r.Id(), blocks[run.from][|blocks[run.from]| - 1].Id());
      Trichotomy(range, r.Id());
    }
    forall r | r in Flatten(after) ensures !In(range, r.Id()) {
      var i, a := FlattenMember(after, r);
      BlocksOrdered(blocks, run.to, 0, run.to + 1 + i, a);
      PastUpward(range, blocks[run.to][0].Id(), r.Id());
      Trichotomy(range, r.Id());
    }
    WindowNone(range, Flatten(before));
    WindowNone(range, Flatten(after));
    assert [] + Window(range, Flatten(inside)) == Window(range, Flatten(inside));
    assert Window(range, Flatten(inside)) + [] == Window(range, Flatten(inside));
  }

  // ----- choosing the run --------------------------------------------------

  /** What the first pass records about a block: whether it holds an in-range
      record, ends before the range, or starts past it. */
  datatype Meta = Meta(hit: bool, prefix: bool, suffix: bool)

  predicate Hits(range: Range, block: seq<Record>) { exists i :: 0 <= i < |block| && In(range, block[i].Id()) }

  function MetaOf(range: Range, block: seq<Record>): Meta
    requires block != []
  {
    Meta(Hits(range, block), Below(range, block[|block| - 1].Id()), Past(range, block[0].Id()))
  }

  function Metas(range: Range, blocks: seq<seq<Record>>): (metas: seq<Meta>)
    requires forall i | 0 <= i < |blocks| :: blocks[i] != []
    ensures |metas| == |blocks| && forall i | 0 <= i < |blocks| :: metas[i] == MetaOf(range, blocks[i])
  {
    seq(|blocks|, i requires 0 <= i < |blocks| => MetaOf(range, blocks[i]))
  }

  function FirstHit(metas: seq<Meta>): (first: Option<nat>)
    ensures first.None? ==> forall i | 0 <= i < |metas| :: !metas[i].hit
    ensures first.Some? ==> first.value < |metas| && metas[first.value].hit && forall i | 0 <= i < first.value :: !metas[i].hit
  {
    if metas == [] then None else
    var k := |metas| - 1;
    var earlier := FirstHit(metas[..k]);
    if earlier.Some? then earlier else if metas[k].hit then Some(k) else None
  }

  function LastHit(metas: seq<Meta>): (last: nat)
    ensures (exists i :: 0 <= i < |metas| && metas[i].hit) ==>
              last < |metas| && metas[last].hit && forall i | last < i < |metas| :: !metas[i].hit
  {
    if metas == [] then 0 else
    var k := |metas| - 1;
    if metas[k].hit then k else LastHit(metas[..k])
  }

  function LastPrefix(metas: seq<Meta>): (anchor: Option<nat>)
    ensures anchor.None? ==> forall i | 0 <= i < |metas| :: !metas[i].prefix
    ensures anchor.Some? ==> anchor.value < |metas| && metas[anchor.value].prefix && forall i | anchor.value < i < |metas| :: !metas[i].prefix
  {
    if metas == [] then None else
    var k := |metas| - 1;
    if metas[k].prefix then Some(k) else LastPrefix(metas[..k])
  }

  /** The run selected from the block metadata. */
  function Selection(metas: seq<Meta>): Run
    requires metas != []
  {
    var count := |metas|;
    match FirstHit(metas)
    case Some(inner) =>
      var last := LastHit(metas);
      Run(if inner > 0 then inner - 1 else 0, if last + 1 < count then last + 1 else count - 1)
    case None =>
      match LastPrefix(metas)
      case None => if count > 1 && !metas[0].suffix then Run(0, 1) else Run(0, 0)
      case Some(from) =>
        if from + 1 < count && !metas[from + 1].suffix && from + 2 < count then Run(from, from + 2)
        else Run(from, if from + 1 < count - 1 then from + 1 else count - 1)
  }

  /** A block without in-range records that is followed by one with some ends
      before the range. */
  lemma EndsBelow(range: Range, blocks: seq<seq<Record>>, i: nat, j: nat)
    requires Stream(blocks) && i < j < |blocks| && !Hits(range, blocks[i]) && Hits(range, blocks[j])
    ensures Below(range, blocks[i][|blocks[i]| - 1].Id())
  {
    hide Before, In, Below, Past;
    var b :| 0 <= b < |blocks[j]| && In(range, blocks[j][b].Id());
    var k := blocks[i][|blocks[i]| - 1].Id();
    BlocksOrdered(blocks, i, |blocks[i]| - 1, j, b);
    Trichotomy(range, k);
    Trichotomy(range, blocks[j][b].Id());
    if Past(range, k) { PastUpward(range, k, blocks[j][b].Id()); }
  }

  lemma StartsPast(range: Range, blocks: seq<seq<Record>>, i: nat, j: nat)
    requires Stream(blocks) && i < j < |blocks| && Hits(range, blocks[i]) && !Hits(range, blocks[j])
    ensures Past(range, blocks[j][0].Id())
  {
    hide Before, In, Below, Past;
    var a :| 0 <= a < |blocks[i]| && In(range, blocks[i][a].Id());
    var k := blocks[j][0].Id();
    BlocksOrdered(blocks, i, a, j, 0);
    Trichotomy(range, k);
    Trichotomy(range, blocks[i][a].Id());
    if Below(range, k) { BelowDownward(range, blocks[i][a].Id(), k); }
  }

  /** After a block that neither hits the range nor ends before it, everything is
      past the range. */
  lemma NextStartsPast(range: Range, blocks: seq<seq<Record>>, i: nat)
    requires Stream(blocks) && i + 1 < |blocks| && !Hits(range, blocks[i]) && !Below(range, blocks[i][|blocks[i]| - 1].Id())
    ensures Past(range, blocks[i + 1][0].Id())
  {
    hide Before, In, Below, Past;
    var k := blocks[i][|blocks[i]| - 1].Id();
    Trichotomy(range, k);
    BlocksOrdered(blocks, i, |blocks[i]| - 1, i + 1, 0);
    PastUpward(range, k, blocks[i + 1][0].Id());
  }

  lemma NonemptyBlocks(blocks: seq<seq<Record>>)
    requires Stream(blocks)
    ensures forall i | 0 <= i < |blocks| :: blocks[i] != []
  {
  }

  /** The selected run satisfies the completeness rules, for every sorted stream,
      however it was cut, and every range. */
  lemma {:induction false} SelectionCovers(range: Range, blocks: seq<seq<Record>>)
    requires Stream(blocks) && blocks != []
    ensures Covers(range, blocks, Selection(Metas(range, blocks)))
  {
    hide Before, In, Below, Past, Hits, Stream;
    assert forall i | 0 <= i < |blocks| :: blocks[i] != [] by { NonemptyBlocks(blocks); }
    var metas := Metas(range, blocks);
    var run := Selection(metas);
    match FirstHit(metas)
    case Some(inner) =>
      var last := LastHit(metas);
      if inner > 0 { EndsBelow(range, blocks, inner - 1, inner); }
      if last + 1 < |blocks| { StartsPast(range, blocks, last, last + 1); }
    case None =>
      match LastPrefix(metas)
      case None =>
        if |blocks| > 1 { NextStartsPast(range, blocks, 0); }
      case Some(from) =>
        if from + 2 < |blocks| { NextStartsPast(range, blocks, from + 1); }
  }

  // ----- no shorter run would do -------------------------------------------

  /** The interval has room for a key. */
  predicate Proper(range: Range) { range.end.Some? ==> LexLess(range.start, range.end.value) }

  /** No run that meets the completeness rules is shorter on either side. */
  ghost predicate Least(range: Range, blocks: seq<seq<Record>>, run: Run)
    requires forall i | 0 <= i < |blocks| :: blocks[i] != []
  {
    forall other: Run | Covers(range, blocks, other) :: other.from <= run.from && run.to <= other.to
  }

  /** The run proves that nothing in range lies outside of it, with no block that a
      shorter run could leave out. */
  ghost predicate Serves(range: Range, blocks: seq<seq<Record>>, run: Run) {
    (forall i | 0 <= i < |blocks| :: blocks[i] != []) && Covers(range, blocks, run) && (Proper(range) ==> Least(range, blocks, run))
  }

  lemma BelowIsNotPast(range: Range, k: Identity)
    requires Proper(range) && Below(range, k)
    ensures !Past(range, k)
  {
    if k.table == range.table && range.end.Some? { LexTransitive(k.key, range.start, range.end.value); }
  }

  /** A block that ends before the range lies before every block with a hit, and
      one that starts past it after every such block. */
  lemma HitBetween(range: Range, blocks: seq<seq<Record>>, i: nat, j: nat)
    requires Stream(blocks) && i < |blocks| && j < |blocks| && Hits(range, blocks[j]) && blocks[i] != []
    ensures Below(range, blocks[i][|blocks[i]| - 1].Id()) ==> i < j
    ensures Past(range, blocks[i][0].Id()) ==> j < i
  {
    hide Before, In, Below, Past;
    var b :| 0 <= b < |blocks[j]| && In(range, blocks[j][b].Id());
    var hit, first, last := blocks[j][b].Id(), blocks[i][0].Id(), blocks[i][|blocks[i]| - 1].Id();
    Trichotomy(range, hit);
    if i >= j {
      if i > j || b < |blocks[i]| - 1 { BlocksOrdered(blocks, j, b, i, |blocks[i]| - 1); }
      if Below(range, last) { BelowDownward(range, hit, last); }
    }
    if i <= j {
      if i < j || 0 < b { BlocksOrdered(blocks, i, 0, j, b); }
      if Past(range, first) { PastUpward(range, first, hit); }
    }
  }

  /** Neither does a block that ends before the range come after one starting past it. */
  lemma PrefixBeforeSuffix(range: Range, blocks: seq<seq<Record>>, i: nat, j: nat)
    requires Stream(blocks) && Proper(range) && i < |blocks| && j < |blocks| && blocks[i] != [] && blocks[j] != []
    requires Below(range, blocks[i][|blocks[i]| - 1].Id()) && Past(range, blocks[j][0].Id())
    ensures i < j
  {
    hide Before, In, Below, Past;
    var first, last := blocks[j][0].Id(), blocks[i][|blocks[i]| - 1].Id();
    if j <= i {
      if j < i || 0 < |blocks[i]| - 1 { BlocksOrdered(blocks, j, 0, i, |blocks[i]| - 1); }
      PastUpward(range, first, last);
      BelowIsNotPast(range, last);
    }
  }

  /** The selected run lies inside every run that meets the completeness rules:
      a proof carries no block it could do without. */
  lemma {:induction false} SelectionIsLeast(range: Range, blocks: seq<seq<Record>>)
    requires Stream(blocks) && blocks != [] && Proper(range)
    requires forall i | 0 <= i < |blocks| :: blocks[i] != []
    ensures Least(range, blocks, Selection(Metas(range, blocks)))
  {
    hide Before, In, Below, Past, Hits, Stream, Proper;
    var metas := Metas(range, blocks);
    var selected := Selection(metas);
    forall other: Run | Covers(range, blocks, other) ensures other.from <= selected.from && selected.to <= other.to {
      match FirstHit(metas)
      case Some(inner) =>
        var last := LastHit(metas);
        assert last < |metas| && metas[last].hit by { assert metas[inner].hit; }
        HitBetween(range, blocks, other.from, inner);
        HitBetween(range, blocks, other.to, last);
      case None =>
        match LastPrefix(metas)
        case None => assert !metas[other.from].prefix;
        case Some(anchor) =>
          assert metas[other.from].prefix ==> other.from <= anchor;
          if metas[other.to].suffix { PrefixBeforeSuffix(range, blocks, anchor, other.to); }
    }
  }

  /** The metadata is that of a sorted stream of blocks. */
  ghost predicate Summarizes(range: Range, blocks: seq<seq<Record>>, metas: seq<Meta>) {
    Stream(blocks) && (forall i | 0 <= i < |blocks| :: blocks[i] != []) && metas == Metas(range, blocks)
  }

  lemma SelectionServes(range: Range, blocks: seq<seq<Record>>, metas: seq<Meta>)
    requires Summarizes(range, blocks, metas) && metas != []
    ensures Serves(range, blocks, Selection(metas))
  {
    hide Covers, Least, Proper, Selection;
    SelectionCovers(range, blocks);
    if Proper(range) { SelectionIsLeast(range, blocks); }
  }

  /** From the metadata alone: the run that meets the completeness rules and is the
      shortest to do so, for every stream that has this metadata. */
  method SelectRun(metas: seq<Meta>) returns (run: Run)
    requires metas != []
    ensures run == Selection(metas)
    ensures forall range, blocks | Summarizes(range, blocks, metas) :: Serves(range, blocks, run)
  {
    hide Serves, Summarizes;
    forall range, blocks | Summarizes(range, blocks, metas) ensures Serves(range, blocks, Selection(metas)) {
      SelectionServes(range, blocks, metas);
    }
    var count := |metas|;
    var first: Option<nat> := None;
    var last: nat := 0;
    for i := 0 to count
      invariant first == FirstHit(metas[..i]) && last == LastHit(metas[..i])
    {
      assert metas[..i + 1][..i] == metas[..i];
      if metas[i].hit {
        if first.None? { first := Some(i); }
        last := i;
      }
    }
    assert metas[..count] == metas;
    if first.Some? {
      var inner := first.value;
      return Run(if inner > 0 then inner - 1 else 0, if last + 1 < count then last + 1 else count - 1);
    }
    var anchor: Option<nat> := None;
    for i := 0 to count
      invariant anchor == LastPrefix(metas[..i])
    {
      assert metas[..i + 1][..i] == metas[..i];
      if metas[i].prefix { anchor := Some(i); }
    }
    if anchor.None? {
      if count > 1 && !metas[0].suffix { return Run(0, 1); }
      return Run(0, 0);
    }
    var from := anchor.value;
    if from + 1 < count && !metas[from + 1].suffix && from + 2 < count { return Run(from, from + 2); }
    return Run(from, if from + 1 < count - 1 then from + 1 else count - 1);
  }

  // ----- the two passes over a bucket --------------------------------------

  lemma GreedyNonempty(block: seq<Record>, last: bool, target: nat)
    requires GreedyBlock(block, last, target)
    ensures block != []
  {
  }

  lemma CutIsStream(rows: Bucket, target: nat)
    ensures Stream(CutBlocks(rows, target)) && Flatten(CutBlocks(rows, target)) == rows
    ensures rows != [] ==> CutBlocks(rows, target) != []
  {
    hide CutBlocks, GreedyBlock;
    BlocksAreStream(rows, target);
    forall i | 0 <= i < |CutBlocks(rows, target)| ensures CutBlocks(rows, target)[i] != [] {
      GreedyNonempty(CutBlocks(rows, target)[i], i + 1 == |CutBlocks(rows, target)|, target);
    }
  }

  lemma SurveyBegins(range: Range)
    ensures Metas(range, []) == [] && !Hits(range, []) && Frames.RowsSize([]) == 0
  {
  }

  lemma HitsSnoc(range: Range, open: seq<Record>, r: Record)
    ensures Hits(range, open + [r]) <==> Hits(range, open) || In(range, r.Id())
  {
    hide In;
    var all := open + [r];
    if Hits(range, open) {
      var i :| 0 <= i < |open| && In(range, open[i].Id());
      assert all[i] == open[i];
    }
    assert all[|open|] == r;
  }

  lemma MetasSnoc(range: Range, done: seq<seq<Record>>, block: seq<Record>)
    requires block != [] && forall j | 0 <= j < |done| :: done[j] != []
    ensures Metas(range, done + [block]) == Metas(range, done) + [MetaOf(range, block)]
  {
    hide MetaOf;
  }

  /** One record joins the open block, which closes when it reaches the target. */
  lemma {:induction false} GreedyStep(done: seq<seq<Record>>, open: seq<Record>, rows: seq<Record>, i: nat, target: nat)
    requires i < |rows|
    ensures var more := open + [rows[i]];
            done + Greedy(open, rows[i..], target) ==
              if Frames.RowsSize(more) >= target then (done + [more]) + Greedy([], rows[i + 1..], target)
              else done + Greedy(more, rows[i + 1..], target)
  {
    hide Frames.RowsSize;
    TakeGrows(rows, i);
    Assoc(done, [open + [rows[i]]], Greedy([], rows[i + 1..], target));
  }

  lemma {:induction false} GreedyEnd(done: seq<seq<Record>>, open: seq<Record>, target: nat)
    ensures done + Greedy(open, [], target) == if open == [] then done else done + [open]
  {
    assert done + [] == done;
  }

  /** First pass: the block metadata and the record count. */
  method Survey(rows: Bucket, range: Range, target: nat) returns (metas: seq<Meta>, records: nat)
    requires forall i | 0 <= i < |CutBlocks(rows, target)| :: CutBlocks(rows, target)[i] != []
    ensures metas == Metas(range, CutBlocks(rows, target)) && records == |rows|
  {
    hide In, Below, Past, Frames.RowSize, Frames.RowsSize, Hits, Greedy, Metas;
    metas, records := [], 0;
    var size: nat := 0;
    var hit, lastBelow, firstPast, seen := false, false, false, false;
    ghost var open: seq<Record>, done: seq<seq<Record>> := [], [];
    SurveyBegins(range);
    assert rows[0..] == rows && done + Greedy([], rows, target) == Greedy([], rows, target);
    for i := 0 to |rows|
      invariant records == i
      invariant CutBlocks(rows, target) == done + Greedy(open, rows[i..], target)
      invariant (forall j | 0 <= j < |done| :: done[j] != []) && metas == Metas(range, done)
      invariant size == Frames.RowsSize(open) && (seen <==> open != []) && hit == Hits(range, open)
      invariant open != [] ==> lastBelow == Below(range, open[|open| - 1].Id()) && firstPast == Past(range, open[0].Id())
    {
      var k := rows[i].Id();
      if !seen {
        seen := true;
        firstPast := Past(range, k);
      }
      HitsSnoc(range, open, rows[i]);
      if In(range, k) { hit := true; }
      lastBelow := Below(range, k);
      GreedyStep(done, open, rows, i, target);
      Frames.RowsSnoc(open, rows[i]);
      size := size + Frames.RowSize(rows[i]);
      records := records + 1;
      open := open + [rows[i]];
      if size >= target {
        MetasSnoc(range, done, open);
        metas := metas + [Meta(hit, lastBelow, firstPast)];
        done, open := done + [open], [];
        size, hit, seen := 0, false, false;
        SurveyBegins(range);
      }
    }
    assert rows[|rows|..] == [];
    GreedyEnd(done, open, target);
    if seen {
      MetasSnoc(range, done, open);
      metas := metas + [Meta(hit, lastBelow, firstPast)];
      done := done + [open];
    }
  }

  datatype KeptBlock = KeptBlock(index: nat, bytes: Bytes)

  /** The blocks of `blocks` inside the run, with their positions and bytes. */
  function Kept(blocks: seq<seq<Record>>, run: Run): seq<KeptBlock> {
    if blocks == [] then [] else
    var k := |blocks| - 1;
    Kept(blocks[..k], run) + if run.from <= k <= run.to then [KeptBlock(k, Frames.FrameRows(blocks[k]))] else []
  }

  lemma {:induction false} KeptIs(blocks: seq<seq<Record>>, run: Run)
    ensures var lo, hi := if run.from < |blocks| then run.from else |blocks|, if run.to + 1 < |blocks| then run.to + 1 else |blocks|;
            && |Kept(blocks, run)| == (if lo < hi then hi - lo else 0)
            && forall j | 0 <= j < |Kept(blocks, run)| :: Kept(blocks, run)[j] == KeptBlock(run.from + j, Frames.FrameRows(blocks[run.from + j]))
  {
    hide Frames.FrameRows;
    if blocks != [] { KeptIs(blocks[..|blocks| - 1], run); }
  }

  lemma {:induction false} KeptSnoc(blocks: seq<seq<Record>>, block: seq<Record>, run: Run)
    ensures Kept(blocks + [block], run) ==
            Kept(blocks, run) + if run.from <= |blocks| <= run.to then [KeptBlock(|blocks|, Frames.FrameRows(block))] else []
  {
    Appended(blocks, block);
  }

  lemma {:induction false} KeptNothing(run: Run)
    ensures Kept([], run) == []
  {
  }

  /** A block hash over re-framed bytes. */
  function BlockDigest(sha: Hash, index: nat, bytes: Bytes): Digest { sha(BLOCK_DOMAIN + ToBig(8, index) + bytes) }

  /** Second pass: every leaf of the block tree, and the bytes of the run's blocks. */
  method Retain(sha: Hash, rows: Bucket, target: nat, run: Run) returns (leaves: seq<Digest>, kept: seq<KeptBlock>)
    ensures leaves == BlockHashes(sha, CutBlocks(rows, target))
    ensures kept == Kept(CutBlocks(rows, target), run)
  {
    hide Frames.RowSize, Frames.FrameRecord, Frames.FrameRows, Kept;
    leaves, kept := [], [];
    var block: Bytes := [];
    var size: nat := 0;
    ghost var open: seq<Record>, done: seq<seq<Record>> := [], [];
    EmptySize();
    assert Kept(done, run) == [] by { KeptNothing(run); }
    assert rows[0..] == rows && done + Greedy([], rows, target) == Greedy([], rows, target);
    for i := 0 to |rows|
      invariant CutBlocks(rows, target) == done + Greedy(open, rows[i..], target)
      invariant block == Frames.FrameRows(open) && size == Frames.RowsSize(open) && (|block| > 0 <==> open != [])
      invariant leaves == BlockHashes(sha, done) && kept == Kept(done, run)
    {
      TakeGrows(rows, i);
      Frames.RowsSnoc(open, rows[i]);
      block := block + Frames.FrameRecord(rows[i]);
      size := size + Frames.RowSize(rows[i]);
      open := open + [rows[i]];
      Frames.RowsSizeLower(open);
      if size >= target {
        Close(sha, done, open);
        KeptSnoc(done, open, run);
        if run.from <= |leaves| <= run.to { kept := kept + [KeptBlock(|leaves|, block)]; }
        leaves := leaves + [BlockDigest(sha, |leaves|, block)];
        Assoc(done, [open], Greedy([], rows[i + 1..], target));
        block, size, done, open := [], 0, done + [open], [];
        EmptySize();
      }
    }
    assert rows[|rows|..] == [];
    if |block| > 0 {
      Close(sha, done, open);
      KeptSnoc(done, open, run);
      if run.from <= |leaves| <= run.to { kept := kept + [KeptBlock(|leaves|, block)]; }
      leaves := leaves + [BlockDigest(sha, |leaves|, block)];
      done := done + [open];
    }
    assert done == CutBlocks(rows, target);
  }

  datatype RangeRun = RangeRun(blockCount: nat, recordCount: nat, blocks: seq<KeptBlock>, leaves: seq<Digest>)

  /** The slot's contribution to a proof: counts and leaves that reproduce the
      bucket hash, and the shortest run of consecutive blocks that proves the bucket
      has nothing in range outside of it. */
  ghost predicate AttestsSlot(sha: Hash, target: nat, range: Range, rows: Bucket, proof: RangeRun, run: Run) {
    var blocks := CutBlocks(rows, target);
    && Serves(range, blocks, run)
    && proof.blockCount == |blocks| && proof.recordCount == |rows| && proof.leaves == BlockHashes(sha, blocks)
    && |proof.blocks| == run.to + 1 - run.from
    && (forall j | 0 <= j < |proof.blocks| :: proof.blocks[j] == KeptBlock(run.from + j, Frames.FrameRows(blocks[run.from + j])))
    && Window(range, Flatten(blocks[run.from..run.to + 1])) == Window(range, rows)
  }

  lemma RunInside(range: Range, blocks: seq<seq<Record>>, run: Run)
    requires Serves(range, blocks, run)
    ensures (forall i | 0 <= i < |blocks| :: blocks[i] != []) && Covers(range, blocks, run)
    ensures run.from <= run.to < |blocks|
  {
    hide Least, Proper;
  }

  method RangeRunForSlot(sha: Hash, rows: Bucket, range: Range, target: nat) returns (proof: RangeRun, ghost run: Run)
    requires rows != []
    ensures AttestsSlot(sha, target, range, rows, proof, run)
    ensures BucketHash(sha, rows, target) ==
              sha(BUCKET_DOMAIN + ToBig(8, proof.recordCount) + ToBig(8, proof.blockCount) + TreeRoot(sha, proof.leaves))
  {
    hide Window, TreeRoot, Serves, Covers, Frames.FrameRows, Stream, CutBlocks, Kept, Selection, Hits, Flatten;
    CutIsStream(rows, target);
    ghost var blocks := CutBlocks(rows, target);
    NonemptyBlocks(blocks);
    var metas, records := Survey(rows, range, target);
    var selected := SelectRun(metas);
    assert Summarizes(range, blocks, metas);
    RunInside(range, blocks, selected);
    RunIsComplete(range, blocks, selected);
    var leaves, kept := Retain(sha, rows, target, selected);
    KeptIs(blocks, selected);
    proof, run := RangeRun(|metas|, records, kept, leaves), selected;
  }

  // ----- the claimed entries -----------------------------------------------

  lemma {:induction false} ViewConcat(a: seq<Record>, b: seq<Record>)
    ensures View(a + b) == View(b) + View(a)
  {
    if a == [] {
      assert a + b == b && View(b) + map[] == View(b);
    } else {
      assert (a + b)[1..] == a[1..] + b;
      ViewConcat(a[1..], b);
      OverlaySetNewer(View(b), View(a[1..]), a[0].Id(), a[0].value);
    }
  }

  /** The claim under construction: the identities decided so far are those of
      `m`, and the entries are its live ones. */
  ghost predicate Claims(decided: set<Identity>, entries: seq<Record>, m: Effects) {
    decided == m.Keys && Distinct(entries) && View(entries) == LiveView(m)
  }

  /** One more older row: it is decided here unless a younger slot did. */
  lemma {:induction false} ClaimRow(decided: set<Identity>, entries: seq<Record>, older: Effects, m: Effects, r: Record)
    requires Claims(decided, entries, older + m) && r.Id() !in older
    ensures r.Id() in decided ==> Claims(decided, entries, older[r.Id() := r.value] + m)
    ensures r.Id() !in decided && r.value.None? ==> Claims(decided + {r.Id()}, entries, older[r.Id() := r.value] + m)
    ensures r.Id() !in decided && r.value.Some? ==> Claims(decided + {r.Id()}, entries + [r], older[r.Id() := r.value] + m)
  {
    var was, now := older + m, older[r.Id() := r.value] + m;
    if r.Id() in decided {
      assert now == was;
    } else {
      assert now == was[r.Id() := r.value];
      LiveCons(was, r.Id(), r.value);
      if r.value.Some? {
        ViewOfDistinct(entries);
        forall i | 0 <= i < |entries| ensures entries[i].Id() != r.Id() { assert entries[i].Id() in View(entries); }
        ViewSnoc(entries, r);
      }
    }
  }

  lemma {:induction false} WindowOne(range: Range, r: Record)
    ensures Window(range, [r]) == if In(range, r.Id()) then [r] else []
  {
    assert [r][1..] == [];
  }

  lemma {:induction false} WindowRowStep(range: Range, block: seq<Record>, j: nat)
    requires Sorted(block) && j < |block|
    ensures View(Window(range, block[..j + 1])) ==
              if In(range, block[j].Id()) then View(Window(range, block[..j]))[block[j].Id() := block[j].value] else View(Window(range, block[..j]))
    ensures block[j].Id() !in View(Window(range, block[..j]))
  {
    hide In, Before, Window;
    var front, r := block[..j], block[j];
    TakeGrows(block, j);
    WindowConcat(range, front, [r]);
    WindowRows(range, front);
    assert Window(range, [r]) == if In(range, r.Id()) then [r] else [] by { WindowOne(range, r); }
    var kept := Window(range, front);
    WindowSorted(range, front);
    SortedDistinct(kept);
    if r.Id() in View(kept) {
      ViewOfDistinct(kept);
      var i :| 0 <= i < |kept| && kept[i].Id() == r.Id();
      assert kept[i] in front;
      var q :| 0 <= q < j && block[q] == kept[i];
      BeforeAsymmetric(block[q].Id(), r.Id());
    }
    ViewConcat(kept, [r]);
    ViewCons(r, []);
    assert [r] + [] == [r];
    assert kept + [] == kept;
    assert map[r.Id() := r.value] + View(kept) == View(kept)[r.Id() := r.value];
  }

  lemma {:induction false} NothingWindowed(range: Range, m: Effects)
    ensures View(Window(range, [])) + m == m
  {
  }

  lemma FramesNothing()
    ensures Frames.FrameRows([]) == []
  {
  }

  /** From a row past the range on, the window of a sorted block has no more rows. */
  lemma {:induction false} PastRest(range: Range, block: seq<Record>, j: nat)
    requires Sorted(block) && j < |block| && Past(range, block[j].Id())
    ensures Window(range, block) == Window(range, block[..j + 1]) == Window(range, block[..j])
  {
    hide Window, Before;
    var rest := block[j..];
    NothingPast(range, rest);
    Rejoin(block, j);
    WindowConcat(range, block[..j], rest);
    TakeGrows(block, j);
    WindowConcat(range, block[..j], [block[j]]);
    WindowOne(range, block[j]);
    Trichotomy(range, block[j].Id());
  }

  /** Parses one retained block and claims its in-range rows, stopping at the
      first row of the table past the range. */
  method ClaimBlock(bytes: Bytes, range: Range, decided: set<Identity>, entries: seq<Record>, ghost block: seq<Record>, ghost m: Effects)
    returns (decidedNow: set<Identity>, entriesNow: seq<Record>)
    requires bytes == Frames.FrameRows(block) && Sorted(block) && forall r | r in block :: Frames.Fits(r)
    requires range.end.Some? && Claims(decided, entries, m)
    ensures Claims(decidedNow, entriesNow, View(Window(range, block)) + m)
  {
    hide Window, Claims, Frames.FrameRows, Frames.FrameRecord, Frames.TakeRecord, Before, View;
    decidedNow, entriesNow := decided, entries;
    var reader := new Frames.Reader(bytes, 0);
    ghost var j: nat := 0;
    assert block[..0] == [] && block[0..] == block && bytes[0..] == bytes;
    assert View(Window(range, block[..0])) + m == m by { NothingWindowed(range, m); }
    while reader.pos + 8 <= |bytes|
      invariant reader.Valid() && fresh(reader) && reader.bytes == bytes && j <= |block|
      invariant reader.Rest() == Frames.FrameRows(block[j..])
      invariant Claims(decidedNow, entriesNow, View(Window(range, block[..j])) + m)
      decreases |bytes| - reader.pos
    {
      Frames.RowsSizeLower(block[j..]);
      assert j < |block| by { FramesNothing(); }
      TakeGrows(block, j);
      Frames.RowsCons(block[j], block[j + 1..]);
      Frames.TakeFramed(block[j], Frames.FrameRows(block[j + 1..]));
      var row := reader.TakeRow();
      WindowRowStep(range, block, j);
      j := j + 1;
      var record := row.value;
      if record.table != range.table { continue; }
      if LexLess(record.key, range.start) { continue; }
      if !LexLess(record.key, range.end.value) {
        PastRest(range, block, j - 1);
        return;
      }
      ClaimRow(decidedNow, entriesNow, View(Window(range, block[..j - 1])), m, record);
      if record.Id() !in decidedNow {
        decidedNow := decidedNow + {record.Id()};
        if record.value.Some? { entriesNow := entriesNow + [record]; }
      }
    }
    Frames.RowsSizeLower(block[j..]);
    assert block[..|block|] == block;
  }

  lemma {:induction false} BlockSorted(blocks: seq<seq<Record>>, i: nat)
    requires Stream(blocks) && i < |blocks|
    ensures Sorted(blocks[i]) && forall r | r in blocks[i] :: r in Flatten(blocks)
  {
    hide Before, Stream;
    forall a, b | 0 <= a < b < |blocks[i]| ensures Before(blocks[i][a].Id(), blocks[i][b].Id()) { BlocksOrdered(blocks, i, a, i, b); }
    forall a | 0 <= a < |blocks[i]| ensures blocks[i][a] in Flatten(blocks) { FlattenAt(blocks, i, a); }
  }

  lemma {:induction false} FlattenStep(range: Range, blocks: seq<seq<Record>>, j: nat)
    requires j < |blocks|
    ensures View(Window(range, Flatten(blocks[..j + 1]))) == View(Window(range, blocks[j])) + View(Window(range, Flatten(blocks[..j])))
  {
    hide View, Window;
    TakeGrows(blocks, j);
    FlattenConcat(blocks[..j], [blocks[j]]);
    assert Flatten([blocks[j]]) == blocks[j];
    WindowConcat(range, Flatten(blocks[..j]), blocks[j]);
    ViewConcat(Window(range, Flatten(blocks[..j])), Window(range, blocks[j]));
  }

  /** Claims every block of one slot's run, which is every in-range row of the slot. */
  method ClaimSlot(proof: RangeRun, range: Range, decided: set<Identity>, entries: seq<Record>,
                   ghost sha: Hash, ghost target: nat, ghost rows: Bucket, ghost run: Run, ghost m: Effects)
    returns (decidedNow: set<Identity>, entriesNow: seq<Record>)
    requires AttestsSlot(sha, target, range, rows, proof, run) && forall r | r in rows :: Frames.Fits(r)
    requires range.end.Some? && Claims(decided, entries, m)
    ensures Claims(decidedNow, entriesNow, InView(range, View(rows)) + m)
  {
    hide Window, Claims, Frames.FrameRows, Before, View, InView, Stream, CutBlocks, Covers, Serves;
    ghost var blocks := CutBlocks(rows, target);
    CutIsStream(rows, target);
    RunInside(range, blocks, run);
    ghost var inside := blocks[run.from..run.to + 1];
    decidedNow, entriesNow := decided, entries;
    assert inside[..0] == [];
    assert View(Window(range, Flatten(inside[..0]))) + m == m by { NothingWindowed(range, m); }
    for j := 0 to |proof.blocks|
      invariant Claims(decidedNow, entriesNow, View(Window(range, Flatten(inside[..j]))) + m)
    {
      ghost var block := inside[j];
      BlockSorted(blocks, run.from + j);
      ghost var seen := View(Window(range, Flatten(inside[..j])));
      decidedNow, entriesNow := ClaimBlock(proof.blocks[j].bytes, range, decidedNow, entriesNow, block, seen + m);
      FlattenStep(range, inside, j);
      OverlayAssociative(View(Window(range, block)), seen, m);
    }
    assert inside[..|proof.blocks|] == inside;
    WindowView(range, rows);
  }

  datatype RangeError = InvalidRange

  ghost predicate Attested(sha: Hash, target: nat, range: Range, rows: Bucket, proof: RangeRun) {
    rows != [] && exists run :: AttestsSlot(sha, target, range, rows, proof, run)
  }

  ghost predicate Lists(runs: seq<(nat, RangeRun)>, i: nat) { exists j :: 0 <= j < |runs| && runs[j].0 == i }

  /** One attested run per non-empty slot, in slot order. */
  ghost predicate ProvesSlots(sha: Hash, target: nat, range: Range, slots: seq<Bucket>, upto: nat, runs: seq<(nat, RangeRun)>)
    requires upto <= |slots|
  {
    && (forall j | 0 <= j < |runs| :: runs[j].0 < upto && Attested(sha, target, range, slots[runs[j].0], runs[j].1))
    && (forall j, k | 0 <= j < k < |runs| :: runs[j].0 < runs[k].0)
    && (forall i | 0 <= i < upto && slots[i] != [] :: Lists(runs, i))
  }

  lemma ProvesMore(sha: Hash, target: nat, range: Range, slots: seq<Bucket>, i: nat, runs: seq<(nat, RangeRun)>, proof: RangeRun, run: Run)
    requires i < |slots| && slots[i] != [] && ProvesSlots(sha, target, range, slots, i, runs)
    requires AttestsSlot(sha, target, range, slots[i], proof, run)
    ensures ProvesSlots(sha, target, range, slots, i + 1, runs + [(i, proof)])
  {
    hide AttestsSlot;
    var all := runs + [(i, proof)];
    assert all[|runs|] == (i, proof);
    assert Attested(sha, target, range, slots[i], proof);
    forall p | 0 <= p < i + 1 && slots[p] != [] ensures Lists(all, p) {
      if p < i {
        assert Lists(runs, p);
        var j :| 0 <= j < |runs| && runs[j].0 == p;
        assert all[j] == runs[j];
      }
    }
  }

  lemma NothingClaimed(range: Range)
    ensures Claims({}, [], InView(range, Resolved([])))
  {
  }

  lemma EmptySlot(range: Range, m: Effects)
    ensures InView(range, View([])) + m == m
  {
  }

  lemma {:induction false} SortedClaims(decided: set<Identity>, entries: seq<Record>, m: Effects)
    requires Claims(decided, entries, m)
    ensures SortRows(entries) == LiveRecords(m)
  {
    SortKeepsView(entries);
    ViewInjective(SortRows(entries), LiveRecords(m));
  }

  /** The whole proof body: one attested run per non-empty slot, youngest first,
      and the youngest-wins live entries recomputed from the retained blocks
      alone. They are exactly the live visible records of the range. */
  method ProveRange(sha: Hash, slots: seq<Bucket>, table: U32, start: Bytes, end: Bytes, target: nat)
    returns (proved: Result<(seq<Record>, seq<(nat, RangeRun)>), RangeError>)
    requires forall s, r | s in slots && r in s :: Frames.Fits(r)
    ensures proved.Err? <==> !LexLess(start, end)
    ensures proved.Ok? ==> proved.value.0 == LiveRecords(InView(Range(table, start, Some(end)), Resolved(slots)))
    ensures proved.Ok? ==> ProvesSlots(sha, target, Range(table, start, Some(end)), slots, |slots|, proved.value.1)
  {
    hide Resolved, InView, View, Claims, AttestsSlot, Before, Attested, Lists;
    if !LexLess(start, end) { return Err(InvalidRange); }
    var range := Range(table, start, Some(end));
    var decided: set<Identity> := {};
    var entries: seq<Record> := [];
    var runs: seq<(nat, RangeRun)> := [];
    assert Claims(decided, entries, InView(range, Resolved(slots[..0]))) by { NothingClaimed(range); }
    for i := 0 to |slots|
      invariant Claims(decided, entries, InView(range, Resolved(slots[..i])))
      invariant ProvesSlots(sha, target, range, slots, i, runs)
    {
      ghost var m := InView(range, Resolved(slots[..i]));
      ResolvedSnoc(slots, i);
      InViewOverlay(range, View(slots[i]), Resolved(slots[..i]));
      if |slots[i]| == 0 {
        EmptySlot(range, m);
        continue;
      }
      var proof, run := RangeRunForSlot(sha, slots[i], range, target);
      assert slots[i] in slots;
      decided, entries := ClaimSlot(proof, range, decided, entries, sha, target, slots[i], run, m);
      ProvesMore(sha, target, range, slots, i, runs, proof, run);
      runs := runs + [(i, proof)];
    }
    assert slots[..|slots|] == slots;
    var sorted := SortRows(entries);
    SortedClaims(decided, entries, InView(range, Resolved(slots)));
    return Ok((sorted, runs));
  }
}
