/** The content-addressed store behind the disk database: blobs by name, and what
    it takes for a reference to load (src/disk.zig:426-534, src/disk.zig:1288-1298). */
module Stores {
  import opened Wire
  import opened Buckets
  import opened Lists
  import opened Frontiers
  import opened History

  /** A stored blob by content: a canonical bucket or a frontier manifest. */
  datatype Blob<D> = BucketBlob(rows: Bucket) | ManifestBlob(frontier: Frontier<D>, metadata: Bytes)

  /** How blobs are named and frontiers committed to. */
  datatype Naming<!D> = Naming(hash: Blob<D> -> D, commit: Frontier<D> -> D) {
    function Bucket(b: Bucket): D { hash(BucketBlob(b)) }

    function Empty(): D { Bucket([]) }
  }

  datatype Reference<D> = Reference(manifest: D, digest: D)

  /** Names identify blobs. */
  ghost predicate Ideal<D(!new)>(names: Naming<D>) {
    forall a: Blob<D>, b: Blob<D> | names.hash(a) == names.hash(b) :: a == b
  }

  ghost predicate Addressed<D>(names: Naming<D>, blobs: map<D, Blob<D>>) {
    forall h | h in blobs :: names.hash(blobs[h]) == h
  }

  ghost predicate Extends<D>(a: map<D, Blob<D>>, b: map<D, Blob<D>>) {
    forall h | h in a :: h in b && b[h] == a[h]
  }

  /** A put writes nothing over a name that is already there. */
  function Put<D>(names: Naming<D>, blobs: map<D, Blob<D>>, blob: Blob<D>): map<D, Blob<D>> {
    if names.hash(blob) in blobs then blobs else blobs[names.hash(blob) := blob]
  }

  lemma PutKeeps<D(!new)>(names: Naming<D>, blobs: map<D, Blob<D>>, blob: Blob<D>)
    requires Ideal(names) && Addressed(names, blobs)
    ensures var after := Put(names, blobs, blob);
            Addressed(names, after) && Extends(blobs, after) && names.hash(blob) in after && after[names.hash(blob)] == blob
  {
  }

  // ----- frontiers over a store --------------------------------------------

  predicate HasBucket<D(==)>(blobs: map<D, Blob<D>>, h: D) { h in blobs && blobs[h].BucketBlob? }

  predicate LevelPresent<D(==)>(blobs: map<D, Blob<D>>, level: HashLevel<D>) {
    HasBucket(blobs, level.curr) && HasBucket(blobs, level.snap) && (level.next.Some? ==> HasBucket(blobs, level.next.value))
  }

  predicate Present<D(==)>(blobs: map<D, Blob<D>>, f: Frontier<D>) {
    forall i | 0 <= i < |f.levels| :: LevelPresent(blobs, f.levels[i])
  }

  function LevelOf<D(==)>(blobs: map<D, Blob<D>>, level: HashLevel<D>): Level
    requires LevelPresent(blobs, level)
  {
    Level(blobs[level.curr].rows, blobs[level.snap].rows, if level.next.Some? then Some(blobs[level.next.value].rows) else None)
  }

  /** The buckets a frontier names. */
  function LevelsOf<D(==)>(blobs: map<D, Blob<D>>, f: Frontier<D>): (levels: seq<Level>)
    requires Present(blobs, f)
    ensures |levels| == |f.levels| && forall i | 0 <= i < |levels| :: levels[i] == LevelOf(blobs, f.levels[i])
  {
    seq(|f.levels|, i requires 0 <= i < |f.levels| => LevelOf(blobs, f.levels[i]))
  }

  function NameBuckets<D>(names: Naming<D>): Bucket -> D { (b: Bucket) => names.Bucket(b) }

  lemma NamingInjective<D(!new)>(names: Naming<D>)
    requires Ideal(names)
    ensures Injective(NameBuckets(names))
  {
  }

  /** The buckets of a store, by name. */
  ghost function BucketsIn<D>(blobs: map<D, Blob<D>>): map<D, Bucket> {
    map h | h in blobs && blobs[h].BucketBlob? :: blobs[h].rows
  }

  lemma BucketsConsistent<D>(names: Naming<D>, blobs: map<D, Blob<D>>)
    requires Addressed(names, blobs)
    ensures Consistent(NameBuckets(names), BucketsIn(blobs))
  {
    forall h | h in BucketsIn(blobs) ensures NameBuckets(names)(BucketsIn(blobs)[h]) == h {
      assert blobs[h] == BucketBlob(blobs[h].rows);
    }
  }

  lemma NamedBucket<D>(names: Naming<D>, blobs: map<D, Blob<D>>, h: D)
    requires Addressed(names, blobs) && HasBucket(blobs, h)
    ensures names.Bucket(blobs[h].rows) == h
  {
    assert blobs[h] == BucketBlob(blobs[h].rows);
  }

  /** A present frontier is the hash image of the levels it names. */
  lemma ShadowOfLevels<D>(names: Naming<D>, blobs: map<D, Blob<D>>, f: Frontier<D>)
    requires Addressed(names, blobs) && Present(blobs, f) && f.empty == names.Empty()
    ensures Shadow(NameBuckets(names), f.sequence, LevelsOf(blobs, f)) == f
  {
    var shadow := Shadow(NameBuckets(names), f.sequence, LevelsOf(blobs, f));
    forall i | 0 <= i < |f.levels| ensures shadow.levels[i] == f.levels[i] {
      assert LevelPresent(blobs, f.levels[i]);
      NamedBucket(names, blobs, f.levels[i].curr);
      NamedBucket(names, blobs, f.levels[i].snap);
      if f.levels[i].next.Some? { NamedBucket(names, blobs, f.levels[i].next.value); }
    }
    assert shadow.levels == f.levels;
  }

  lemma NameFound<D(!new)>(names: Naming<D>, blobs: map<D, Blob<D>>, b: Bucket)
    requires Ideal(names) && Addressed(names, blobs) && names.Bucket(b) in blobs
    ensures HasBucket(blobs, names.Bucket(b)) && blobs[names.Bucket(b)].rows == b
  {
    assert names.hash(blobs[names.Bucket(b)]) == names.hash(BucketBlob(b));
  }

  /** Complete and accepted: every named bucket is stored, and together they are a
      topology the list accepts. */
  ghost predicate Whole<D>(names: Naming<D>, blobs: map<D, Blob<D>>, f: Frontier<D>) {
    ValidDepth(|f.levels|) && f.empty == names.Empty() && Present(blobs, f) && Accepts(f.sequence, LevelsOf(blobs, f))
  }

  /** A complete frontier is one some history of its length ends in. */
  lemma WholeIsReached<D>(names: Naming<D>, blobs: map<D, Blob<D>>, f: Frontier<D>)
    requires Whole(names, blobs, f)
    ensures Reached(f.sequence, LevelsOf(blobs, f))
  {
    hide Reached, Accepts;
    AcceptedIsReached(f.sequence, LevelsOf(blobs, f));
  }

  /** The reference loads from this store: its manifest is there, says `f`, matches
      the committed digest, and `f` is whole. */
  ghost predicate Loads<D>(names: Naming<D>, blobs: map<D, Blob<D>>, ref: Reference<D>, f: Frontier<D>, metadata: Bytes) {
    && ref.manifest in blobs && blobs[ref.manifest] == ManifestBlob(f, metadata)
    && names.commit(f) == ref.digest && Whole(names, blobs, f)
  }

  predicate RowsTyped(typed: Record -> bool, rows: seq<Record>) { forall i | 0 <= i < |rows| :: typed(rows[i]) }

  predicate LevelTyped(typed: Record -> bool, level: Level) {
    && RowsTyped(typed, level.curr) && RowsTyped(typed, level.snap)
    && (level.next.Some? ==> RowsTyped(typed, level.next.value))
  }

  /** Every row the frontier names passes the schema's check. */
  ghost predicate FrontierTyped<D>(typed: Record -> bool, blobs: map<D, Blob<D>>, f: Frontier<D>) {
    Present(blobs, f) && forall i | 0 <= i < |f.levels| :: LevelTyped(typed, LevelsOf(blobs, f)[i])
  }

  lemma FrontierRows<D>(typed: Record -> bool, blobs: map<D, Blob<D>>, f: Frontier<D>)
    requires FrontierTyped(typed, blobs, f)
    ensures forall i | 0 <= i < |f.levels| :: forall r | r in LevelsOf(blobs, f)[i].curr || r in LevelsOf(blobs, f)[i].snap :: typed(r)
  {
    forall i | 0 <= i < |f.levels| ensures forall r | r in LevelsOf(blobs, f)[i].curr || r in LevelsOf(blobs, f)[i].snap :: typed(r) {
      assert LevelTyped(typed, LevelsOf(blobs, f)[i]);
    }
  }

  /** So does every stored row. */
  ghost predicate AllTyped<D>(typed: Record -> bool, blobs: map<D, Blob<D>>) {
    forall h | h in blobs && blobs[h].BucketBlob? :: RowsTyped(typed, blobs[h].rows)
  }

  lemma MergeTyped(typed: Record -> bool, older: Bucket, newer: Bucket, dropTombstones: bool)
    requires RowsTyped(typed, older) && RowsTyped(typed, newer)
    ensures RowsTyped(typed, Merge(older, newer, dropTombstones))
  {
    MergeRowsFrom(older, newer);
    LiveSubset(MergeRows(older, newer));
    var merged := Merge(older, newer, dropTombstones);
    forall i | 0 <= i < |merged| ensures typed(merged[i]) {
      assert merged[i] in MergeRows(older, newer);
      assert merged[i] in older || merged[i] in newer;
    }
  }

  lemma PresentTyped<D>(typed: Record -> bool, blobs: map<D, Blob<D>>, f: Frontier<D>)
    requires AllTyped(typed, blobs) && Present(blobs, f)
    ensures FrontierTyped(typed, blobs, f)
  {
    hide RowsTyped;
    forall i | 0 <= i < |f.levels| ensures LevelTyped(typed, LevelsOf(blobs, f)[i]) { assert LevelPresent(blobs, f.levels[i]); }
  }

  /** What typed levels show passes the check too: every visible effect came in with
      some row. */
  lemma {:induction false} VisibleRowTyped(typed: Record -> bool, levels: seq<Level>, i: nat, k: Identity)
    requires i <= |levels| && k in VisibleFrom(levels, i) && forall j | 0 <= j < |levels| :: LevelTyped(typed, levels[j])
    ensures typed(Record(k.table, k.key, VisibleFrom(levels, i)[k]))
    decreases |levels| - i
  {
    hide View;
    assert LevelTyped(typed, levels[i]);
    if k in View(levels[i].curr) {
      ViewOf(levels[i].curr);
      var r :| 0 <= r < |levels[i].curr| && levels[i].curr[r].Id() == k;
    } else if k in View(levels[i].snap) {
      ViewOf(levels[i].snap);
      var r :| 0 <= r < |levels[i].snap| && levels[i].snap[r].Id() == k;
    } else {
      VisibleRowTyped(typed, levels, i + 1, k);
    }
  }

  lemma PutTyped<D>(typed: Record -> bool, names: Naming<D>, blobs: map<D, Blob<D>>, blob: Blob<D>)
    requires AllTyped(typed, blobs) && (blob.BucketBlob? ==> RowsTyped(typed, blob.rows))
    ensures AllTyped(typed, Put(names, blobs, blob))
  {
    hide RowsTyped;
  }

  predicate InLevel<D(==)>(level: HashLevel<D>, h: D) { h == level.curr || h == level.snap || level.next == Some(h) }

  /** The blobs a reference keeps alive. */
  predicate Reaches<D(==)>(ref: Reference<D>, f: Frontier<D>, h: D) {
    h == ref.manifest || exists i :: 0 <= i < |f.levels| && InLevel(f.levels[i], h)
  }

  lemma LevelPreserved<D>(a: map<D, Blob<D>>, b: map<D, Blob<D>>, level: HashLevel<D>)
    requires LevelPresent(a, level)
    requires forall h | h in a && InLevel(level, h) :: h in b && b[h] == a[h]
    ensures LevelPresent(b, level) && LevelOf(b, level) == LevelOf(a, level)
  {
    assert InLevel(level, level.curr) && InLevel(level, level.snap);
    if level.next.Some? { assert InLevel(level, level.next.value); }
  }

  /** A store that keeps what a reference reaches still loads it, with the same
      contents. */
  lemma LoadsPreserved<D>(names: Naming<D>, a: map<D, Blob<D>>, b: map<D, Blob<D>>, ref: Reference<D>, f: Frontier<D>, metadata: Bytes)
    requires Loads(names, a, ref, f, metadata)
    requires forall h | h in a && Reaches(ref, f, h) :: h in b && b[h] == a[h]
    ensures Loads(names, b, ref, f, metadata) && LevelsOf(b, f) == LevelsOf(a, f)
  {
    hide Accepts, ValidDepth, InLevel, LevelOf, LevelPresent;
    assert Reaches(ref, f, ref.manifest);
    forall i | 0 <= i < |f.levels| ensures LevelPresent(b, f.levels[i]) && LevelOf(b, f.levels[i]) == LevelOf(a, f.levels[i]) {
      assert LevelPresent(a, f.levels[i]);
      forall h | h in a && InLevel(f.levels[i], h) ensures h in b && b[h] == a[h] { assert Reaches(ref, f, h); }
      LevelPreserved(a, b, f.levels[i]);
    }
    assert LevelsOf(b, f) == LevelsOf(a, f);
  }

  /** Nothing less is enough: a store with only some of these blobs loads the
      reference if and only if it has all that the reference reaches. */
  lemma {:induction false} LoadsNeedsAll<D>(names: Naming<D>, a: map<D, Blob<D>>, b: map<D, Blob<D>>, ref: Reference<D>, f: Frontier<D>, metadata: Bytes)
    requires Loads(names, a, ref, f, metadata) && Extends(b, a)
    ensures Loads(names, b, ref, f, metadata) <==> forall h | Reaches(ref, f, h) :: h in b
  {
    hide Accepts, ValidDepth, LevelOf;
    if forall h | Reaches(ref, f, h) :: h in b {
      LoadsPreserved(names, a, b, ref, f, metadata);
    }
    if Loads(names, b, ref, f, metadata) {
      forall h | Reaches(ref, f, h) ensures h in b {
        if h != ref.manifest {
          var i :| 0 <= i < |f.levels| && InLevel(f.levels[i], h);
          assert LevelPresent(b, f.levels[i]);
        }
      }
    }
  }

  /** The terminal snapshot always holds the empty bucket, so every whole frontier
      keeps the empty blob that later merges start from. */
  lemma EmptyIsKept<D>(names: Naming<D>, blobs: map<D, Blob<D>>, f: Frontier<D>)
    requires Whole(names, blobs, f) && Addressed(names, blobs)
    ensures names.Empty() in blobs && f.levels[|f.levels| - 1].snap == names.Empty()
  {
    var last := |f.levels| - 1;
    var levels := LevelsOf(blobs, f);
    assert AcceptsLevel(f.sequence, levels, last) && LevelPresent(blobs, f.levels[last]);
    NamedBucket(names, blobs, f.levels[last].snap);
  }

  /** Every bucket an advance from a whole frontier may read is stored. */
  lemma InputsStored<D(!new)>(names: Naming<D>, blobs: map<D, Blob<D>>, f: Frontier<D>, batch: Bucket)
    requires Ideal(names) && Whole(names, blobs, f) && Addressed(names, blobs) && names.Bucket(batch) in blobs
    ensures HasInputs(NameBuckets(names), BucketsIn(blobs), LevelsOf(blobs, f), batch)
  {
    hide Accepts;
    EmptyIsKept(names, blobs, f);
    var levels := LevelsOf(blobs, f);
    forall b: Bucket | Available(levels, batch, b) ensures NameBuckets(names)(b) in BucketsIn(blobs) {
      if b == Buckets.EMPTY {
        NameFound(names, blobs, b);
      } else if b == batch {
        NameFound(names, blobs, b);
      } else {
        var i :| 0 <= i < |levels| && Holds(levels[i], b);
        assert LevelPresent(blobs, f.levels[i]);
        NamedBucket(names, blobs, f.levels[i].curr);
        NamedBucket(names, blobs, f.levels[i].snap);
        if f.levels[i].next.Some? { NamedBucket(names, blobs, f.levels[i].next.value); }
      }
    }
  }

  // ----- versions ----------------------------------------------------------

  /** A published or publishable state together with the history of normalized
      batches that led to it. */
  datatype Version<D> = Version(reference: Reference<D>, frontier: Frontier<D>, metadata: Bytes, history: seq<Bucket>)

  /** The version loads, and holds exactly what its history leaves behind. */
  ghost predicate Holding<D>(names: Naming<D>, blobs: map<D, Blob<D>>, v: Version<D>) {
    && Loads(names, blobs, v.reference, v.frontier, v.metadata)
    && v.frontier.sequence == |v.history|
    && LevelsOf(blobs, v.frontier) == Run(|v.frontier.levels|, v.history)
  }

  lemma HoldingPreserved<D>(names: Naming<D>, a: map<D, Blob<D>>, b: map<D, Blob<D>>, v: Version<D>)
    requires Holding(names, a, v)
    requires forall h | h in a && Reaches(v.reference, v.frontier, h) :: h in b && b[h] == a[h]
    ensures Holding(names, b, v) && LevelsOf(b, v.frontier) == LevelsOf(a, v.frontier)
  {
    hide Loads, Run, Reaches;
    LoadsPreserved(names, a, b, v.reference, v.frontier, v.metadata);
  }

  lemma HoldingExtended<D>(names: Naming<D>, a: map<D, Blob<D>>, b: map<D, Blob<D>>, v: Version<D>)
    requires Holding(names, a, v) && Extends(a, b)
    ensures Holding(names, b, v) && LevelsOf(b, v.frontier) == LevelsOf(a, v.frontier)
  {
    hide Holding, Reaches;
    HoldingPreserved(names, a, b, v);
  }

  /** What a version reads is the last write of its whole history. */
  lemma VersionReads<D>(names: Naming<D>, blobs: map<D, Blob<D>>, v: Version<D>, k: Identity)
    requires Holding(names, blobs, v)
    ensures Get(LevelsOf(blobs, v.frontier), k) == ValueAt(LastWriter(v.history), k)
  {
    hide Run, LastWriter, Accepts;
    RunIsLastWriter(|v.frontier.levels|, v.history);
  }
}
