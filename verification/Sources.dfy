/** Restoring from borrowed frames (src/database.zig:401-434): the caller supplies
    the header and, slot by slot, the canonical frames of each level. */
module Sources {
  import opened Wire
  import opened Buckets
  import opened Lists
  import opened Engines
  import opened Digests
  import opened Checkpoints
  import Commitments
  import Frames
  import History
  import ReferenceDigests

  datatype Slot = Current | Snapshot | Pending

  /** What the source answers for one slot. Only a pending slot may be absent. */
  datatype Answer = Supplied(frame: Bytes) | Absent | SourceFailed

  type Source = (nat, Slot) -> Answer

  /** The source's answers for a level are that level's frames. */
  ghost predicate LevelSupplied(source: Source, i: nat, level: Level) {
    && source(i, Current) == Supplied(Frames.EncodeFrame(level.curr))
    && source(i, Snapshot) == Supplied(Frames.EncodeFrame(level.snap))
    && source(i, Pending) == (if level.next.Some? then Supplied(Frames.EncodeFrame(level.next.value)) else Absent)
  }

  ghost predicate Supplies(source: Source, levels: seq<Level>) {
    forall i | 0 <= i < |levels| :: LevelSupplied(source, i, levels[i])
  }

  /** The header and the frames of a state of typed rows within the size limit. */
  ghost predicate Framed(sha: Hash, schema: Digest, tables: seq<Table>, depth: nat, header: Bytes, source: Source, n: U64, levels: seq<Level>) {
    && header == Header(sha, schema, depth, n) && Supplies(source, levels)
    && |levels| == depth && AllWhole(tables, levels) && |Checkpoint(sha, schema, n, levels)| <= MAX_CHECKPOINT_BYTES
  }

  /** A state is framed whose topology check has this result. */
  ghost predicate FramedChecking(sha: Hash, schema: Digest, tables: seq<Table>, depth: nat, header: Bytes, source: Source, checked: bool) {
    exists n: U64, levels :: Framed(sha, schema, tables, depth, header, source, n, levels) && Checks(Commitments.FrameHash(sha), n, levels) == checked
  }

  /** The state a restore from this header and source must produce. */
  ghost predicate Describes(sha: Hash, schema: Digest, tables: seq<Table>, depth: nat, header: Bytes, source: Source, expected: Digest, n: U64, levels: seq<Level>) {
    && Framed(sha, schema, tables, depth, header, source, n, levels)
    && Checks(Commitments.FrameHash(sha), n, levels) && Commitments.ListCommitment(sha, schema, n, levels) == expected
  }

  /** A frame answers for at most one level. */
  lemma SuppliedOnce(tables: seq<Table>, source: Source, i: nat, a: Level, b: Level)
    requires LevelSupplied(source, i, a) && LevelSupplied(source, i, b) && Whole(tables, a) && Whole(tables, b)
    ensures a == b
  {
    hide Frames.EncodeFrame, Frames.Encodable, LevelStorable;
    Frames.EncodeFrameInjective(a.curr, b.curr);
    Frames.EncodeFrameInjective(a.snap, b.snap);
    if a.next.Some? { Frames.EncodeFrameInjective(a.next.value, b.next.value); }
  }

  lemma {:induction false} SuppliedAllOnce(tables: seq<Table>, source: Source, a: seq<Level>, b: seq<Level>)
    requires Supplies(source, a) && Supplies(source, b) && AllWhole(tables, a) && AllWhole(tables, b) && |a| == |b|
    ensures a == b
  {
    hide LevelSupplied, Whole;
    forall i | 0 <= i < |a| ensures a[i] == b[i] { SuppliedOnce(tables, source, i, a[i], b[i]); }
  }

  /** At most one state fits a header and a source. */
  lemma FramedOnce(sha: Hash, schema: Digest, tables: seq<Table>, depth: nat, header: Bytes, source: Source,
                   n: U64, levels: seq<Level>, m: U64, others: seq<Level>)
    requires Framed(sha, schema, tables, depth, header, source, n, levels)
    requires Framed(sha, schema, tables, depth, header, source, m, others)
    ensures n == m && levels == others
  {
    hide Header, Supplies, AllWhole;
    SuppliedAllOnce(tables, source, levels, others);
    HeaderParts(sha, schema, depth, n, []);
    HeaderParts(sha, schema, depth, m, []);
    assert Header(sha, schema, depth, n) + [] == Header(sha, schema, depth, m) + [];
  }

  /** A source that answers with a checkpoint's frames restores as the checkpoint's
      bytes do. */
  lemma DescribesRestored(sha: Hash, schema: Digest, tables: seq<Table>, depth: nat, header: Bytes, source: Source, expected: Digest, n: U64, levels: seq<Level>)
    requires Describes(sha, schema, tables, depth, header, source, expected, n, levels)
    ensures Restored(sha, schema, tables, depth, Checkpoint(sha, schema, n, levels), expected) == Some((n, levels))
  {
    hide Restored, Checkpoint, Supplies, Checks, AllWhole, Commitments.ListCommitment;
    RestoreExactly(sha, schema, tables, depth, Checkpoint(sha, schema, n, levels), expected, n, levels);
  }

  // ----- the loop ----------------------------------------------------------

  lemma RowsStorable(tables: seq<Table>, rows: seq<Record>)
    requires Frames.Encodable(rows) && forall j | 0 <= j < |rows| :: Typed(tables, rows[j])
    ensures AllStorable(tables, rows) && Sorted(rows)
  {
    hide Typed;
  }

  /** A supplied frame, counted, decoded and checked row by row. */
  method TakeSupplied(tables: seq<Table>, frame: Bytes, total: nat) returns (taken: Option<(Bucket, nat)>)
    requires ValidSchema(tables) && total <= MAX_CHECKPOINT_BYTES
    ensures taken.Some? ==>
              var (b, sum) := taken.value;
              && frame == Frames.EncodeFrame(b) && Frames.Encodable(b) && AllStorable(tables, b)
              && sum == total + 8 + |frame| <= MAX_CHECKPOINT_BYTES
    ensures taken.None? ==>
              || total + 8 + |frame| > MAX_CHECKPOINT_BYTES
              || forall b: Bucket :: !(frame == Frames.EncodeFrame(b) && Frames.Encodable(b) && AllStorable(tables, b))
  {
    hide Typed, Frames.DecodeFrame, Frames.EncodeFrame, Frames.Encodable;
    var sum := AccountFrame(total, |frame|);
    if sum.None? { return None; }
    var decoded := Frames.Decode(frame);
    if decoded.Err? {
      forall b: Bucket ensures !(frame == Frames.EncodeFrame(b) && Frames.Encodable(b) && AllStorable(tables, b)) {
        Frames.DecodeExactly(frame, b);
      }
      return None;
    }
    var rows := decoded.value;
    Frames.DecodedIsFrame(frame, rows);
    for i := 0 to |rows|
      invariant forall j | 0 <= j < i :: Typed(tables, rows[j])
    {
      var typed := CheckTyped(tables, rows[i]);
      if !typed {
        forall b: Bucket ensures !(frame == Frames.EncodeFrame(b) && Frames.Encodable(b) && AllStorable(tables, b)) {
          if frame == Frames.EncodeFrame(b) && Frames.Encodable(b) {
            Frames.EncodeFrameInjective(rows, b);
            assert rows[i] in b;
          }
        }
        return None;
      }
    }
    RowsStorable(tables, rows);
    var b: Bucket := rows;
    return Some((b, sum.value));
  }

  method TakeSuppliedLevel(tables: seq<Table>, source: Source, i: nat, total: nat) returns (taken: Option<(Level, nat)>)
    requires ValidSchema(tables) && total <= MAX_CHECKPOINT_BYTES
    ensures taken.Some? ==>
              var (level, sum) := taken.value;
              Whole(tables, level) && LevelSupplied(source, i, level) && sum == total + |PutLevel(level)| <= MAX_CHECKPOINT_BYTES
    ensures taken.None? ==>
              forall level :: Whole(tables, level) && LevelSupplied(source, i, level) ==> total + |PutLevel(level)| > MAX_CHECKPOINT_BYTES
  {
    hide Frames.EncodeFrame, Frames.Encodable, AllStorable, PutLevel, ValidSchema;
    forall level: Level
      ensures |PutLevel(level)| == 17 + |Frames.EncodeFrame(level.curr)| + |Frames.EncodeFrame(level.snap)|
                                   + (if level.next.Some? then 8 + |Frames.EncodeFrame(level.next.value)| else 0)
    {
      FramePrefixSize(level);
    }
    var answer := source(i, Current);
    if !answer.Supplied? { return None; }
    var curr := TakeSupplied(tables, answer.frame, total);
    if curr.None? { return None; }
    answer := source(i, Snapshot);
    if !answer.Supplied? { return None; }
    var snap := TakeSupplied(tables, answer.frame, curr.value.1);
    if snap.None? { return None; }
    var sum := Account(snap.value.1, 1);
    if sum.None? { return None; }
    answer := source(i, Pending);
    match answer {
      case SourceFailed => return None;
      case Absent => return Some((Level(curr.value.0, snap.value.0, None), sum.value));
      case Supplied(frame) =>
        var next := TakeSupplied(tables, frame, sum.value);
        if next.None? { return None; }
        return Some((Level(curr.value.0, snap.value.0, Some(next.value.0)), next.value.1));
    }
  }

  lemma WrongHeader(sha: Hash, schema: Digest, depth: nat, header: Bytes, n: U64)
    requires |header| != HEADER_LENGTH || header[..25] != MAGIC || header[25..57] != schema || header[57..89] != Commitments.ProfileHash(sha, depth)
    ensures header != Header(sha, schema, depth, n)
  {
    HeaderParts(sha, schema, depth, n, []);
    assert Header(sha, schema, depth, n) + [] == Header(sha, schema, depth, n);
  }

  lemma RightHeader(sha: Hash, schema: Digest, depth: nat, header: Bytes)
    requires |header| == HEADER_LENGTH && header[..25] == MAGIC && header[25..57] == schema && header[57..89] == Commitments.ProfileHash(sha, depth)
    ensures header == Header(sha, schema, depth, ReadU64(header[89..97]))
  {
    ParsedHeader(sha, schema, depth, header);
    assert header[97..] == [];
  }

  lemma {:induction false} LevelAppended(done: seq<Level>, level: Level)
    ensures PutLevels(done + [level]) == PutLevels(done) + PutLevel(level)
  {
    hide PutLevels, PutLevel;
    PutLevelsSnoc(done + [level], |done|);
    assert (done + [level])[..|done| + 1] == done + [level] && (done + [level])[..|done|] == done;
  }

  /** A level that does not fit after the ones already taken fits in no state. */
  lemma {:induction false} TooLarge(tables: seq<Table>, source: Source, done: seq<Level>, others: seq<Level>)
    requires |done| < |others| && AllWhole(tables, done) && Supplies(source, done) && AllWhole(tables, others) && Supplies(source, others)
    requires forall level :: Whole(tables, level) && LevelSupplied(source, |done|, level) ==> HEADER_LENGTH + |PutLevels(done)| + |PutLevel(level)| > MAX_CHECKPOINT_BYTES
    ensures HEADER_LENGTH + |PutLevels(others)| > MAX_CHECKPOINT_BYTES
  {
    hide PutLevel, Whole, LevelSupplied, PutLevels;
    var i := |done|;
    SuppliedAllOnce(tables, source, done, others[..i]);
    PutLevelsSnoc(others, i);
    PutLevelsPrefix(others, i + 1);
    assert Whole(tables, others[i]) && LevelSupplied(source, i, others[i]);
  }

  /** Every level in turn, under the running size limit. */
  method TakeSuppliedLevels(sha: Hash, schema: Digest, tables: seq<Table>, source: Source, levels: array<Level>) returns (ok: bool)
    requires ValidSchema(tables)
    modifies levels
    ensures ok ==> AllWhole(tables, levels[..]) && Supplies(source, levels[..]) && HEADER_LENGTH + |PutLevels(levels[..])| <= MAX_CHECKPOINT_BYTES
    ensures !ok ==> forall others: seq<Level> :: |others| == levels.Length && AllWhole(tables, others) && Supplies(source, others)
                      ==> HEADER_LENGTH + |PutLevels(others)| > MAX_CHECKPOINT_BYTES
  {
    hide PutLevel, Whole, LevelSupplied, ValidSchema;
    var total := HEADER_LENGTH;
    for i := 0 to levels.Length
      invariant AllWhole(tables, levels[..i]) && Supplies(source, levels[..i])
      invariant total == HEADER_LENGTH + |PutLevels(levels[..i])| <= MAX_CHECKPOINT_BYTES
    {
      var taken := TakeSuppliedLevel(tables, source, i, total);
      if taken.None? {
        forall others: seq<Level> | |others| == levels.Length && AllWhole(tables, others) && Supplies(source, others)
          ensures HEADER_LENGTH + |PutLevels(others)| > MAX_CHECKPOINT_BYTES
        {
          TooLarge(tables, source, levels[..i], others);
        }
        return false;
      }
      ghost var done := levels[..i];
      levels[i] := taken.value.0;
      total := taken.value.1;
      assert levels[..i] == done && levels[..i + 1] == done + [taken.value.0];
      LevelAppended(done, taken.value.0);
    }
    assert levels[..levels.Length] == levels[..];
    return true;
  }

  /** The restore from borrowed frames. A database comes back exactly when the
      header and the answers describe a state, and it is that state. Each refusal
      has its cause: no state is framed at all, the one that is fails the topology
      check, or it has another digest. */
  method RestoreFrom(sha: Hash, schema: Digest, tables: seq<Table>, depth: nat, header: Bytes, source: Source, expected: Digest)
    returns (restored: Result<List, RestoreError>)
    requires ValidSchema(tables) && ValidDepth(depth)
    ensures restored.Ok? ==>
              && fresh(restored.value) && fresh(restored.value.levels) && restored.value.Valid() && restored.value.depth == depth
              && Describes(sha, schema, tables, depth, header, source, expected, restored.value.sequence, restored.value.levels[..])
    ensures restored.Ok? ==> Commitments.ListCommitment(sha, schema, restored.value.sequence, restored.value.levels[..]) == expected
    ensures restored.Err? ==> forall n: U64, levels :: !Describes(sha, schema, tables, depth, header, source, expected, n, levels)
    ensures restored == Err(InvalidCheckpoint) <==> forall n: U64, levels :: !Framed(sha, schema, tables, depth, header, source, n, levels)
    ensures restored == Err(InvalidTopology) <==> FramedChecking(sha, schema, tables, depth, header, source, false)
    ensures restored.Err? && FramedChecking(sha, schema, tables, depth, header, source, true) ==> restored == Err(CommitmentMismatch)
  {
    hide PutLevels, Commitments.ProfileHash, Commitments.ListCommitment, Checks, Supplies, AllWhole, ValidSchema;
    hide History.Reached, Injective, Accepts, ReferenceDigests.DatabaseDigest;
    if |header| != HEADER_LENGTH || header[..25] != MAGIC || header[25..57] != schema || header[57..89] != Commitments.ProfileHash(sha, depth) {
      forall n: U64, levels ensures !Framed(sha, schema, tables, depth, header, source, n, levels) { WrongHeader(sha, schema, depth, header, n); }
      return Err(InvalidCheckpoint);
    }
    var list := new List(depth);
    list.sequence := ReadU64(header[89..97]);
    RightHeader(sha, schema, depth, header);
    var ok := TakeSuppliedLevels(sha, schema, tables, source, list.levels);
    if !ok { return Err(InvalidCheckpoint); }
    ghost var n, levels := list.sequence, list.levels[..];
    assert Framed(sha, schema, tables, depth, header, source, n, levels);
    forall m: U64, others | Framed(sha, schema, tables, depth, header, source, m, others) ensures m == n && others == levels {
      FramedOnce(sha, schema, tables, depth, header, source, n, levels, m, others);
    }
    var valid := list.Validate(Commitments.FrameHash(sha));
    if !valid { return Err(InvalidTopology); }
    var digest := Commitments.ListDigest(sha, schema, list);
    if digest != expected { return Err(CommitmentMismatch); }
    return Ok(list);
  }
}
