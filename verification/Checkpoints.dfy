/** Checkpoints of the portable database (src/database.zig:309-475): one canonical
    byte string per typed state, and a restore that accepts nothing else. */
module Checkpoints {
  import opened Wire
  import opened Buckets
  import opened Lists
  import opened Engines
  import opened Digests
  import opened History
  import Codecs
  import Commitments
  import Cursors
  import Databases
  import Frames
  import ReferenceDigests
  import Slots

  const MAGIC: Bytes := Frames.Ascii("bucketlist.checkpoint.v1") + [0]
  const HEADER_LENGTH: nat := 97
  const MAX_CHECKPOINT_BYTES: nat := 1024 * 1024 * 1024

  // ----- typed rows --------------------------------------------------------

  datatype Table = Table(id: U32, key: Codecs.Shape, value: Codecs.Shape)

  ghost predicate ValidSchema(tables: seq<Table>) {
    && (forall i | 0 <= i < |tables| :: Codecs.Supported(tables[i].key) && Codecs.Supported(tables[i].value))
    && (forall i, j | 0 <= i < j < |tables| :: tables[i].id != tables[j].id)
  }

  predicate DecodesWhole(shape: Codecs.Shape, s: Bytes) {
    var d := Codecs.Decode(shape, s);
    d.Some? && d.value.1 == []
  }

  predicate TypedFor(t: Table, r: Record) {
    DecodesWhole(t.key, r.key) && (r.value.Some? ==> DecodesWhole(t.value, r.value.value))
  }

  /** The row belongs to a declared table and decodes under its codecs. */
  predicate Typed(tables: seq<Table>, r: Record) {
    && (exists i :: 0 <= i < |tables| && tables[i].id == r.table)
    && (forall i | 0 <= i < |tables| && tables[i].id == r.table :: TypedFor(tables[i], r))
  }

  /** A row a checkpoint can hold: typed, with lengths that fit their fields. */
  predicate Storable(tables: seq<Table>, r: Record) { Frames.Fits(r) && Typed(tables, r) }

  ghost predicate AllStorable(tables: seq<Table>, rows: seq<Record>) { forall r | r in rows :: Storable(tables, r) }

  ghost predicate LevelStorable(tables: seq<Table>, level: Level) {
    && AllStorable(tables, level.curr) && AllStorable(tables, level.snap)
    && (level.next.Some? ==> AllStorable(tables, level.next.value))
  }

  ghost predicate LevelsStorable(tables: seq<Table>, levels: seq<Level>) {
    forall i | 0 <= i < |levels| :: LevelStorable(tables, levels[i])
  }

  /** A level that frames and restores: storable rows in frames of word size. */
  ghost predicate Whole(tables: seq<Table>, level: Level) { Commitments.EncodableLevel(level) && LevelStorable(tables, level) }

  ghost predicate AllWhole(tables: seq<Table>, levels: seq<Level>) { forall i | 0 <= i < |levels| :: Whole(tables, levels[i]) }

  // ----- rows are conserved ------------------------------------------------

  lemma MergeStorable(tables: seq<Table>, older: Bucket, newer: Bucket, dropTombstones: bool)
    requires AllStorable(tables, older) && AllStorable(tables, newer)
    ensures AllStorable(tables, Merge(older, newer, dropTombstones))
  {
    hide Storable;
    MergeRowsFrom(older, newer);
    LiveSubset(MergeRows(older, newer));
  }

  lemma EmptyStorable(tables: seq<Table>)
    ensures AllStorable(tables, EMPTY)
  {
  }

  lemma LevelStepStorable(tables: seq<Table>, next: nat, levels: seq<Level>, batch: Bucket, i: nat)
    requires LevelsStorable(tables, levels) && AllStorable(tables, batch) && AllStorable(tables, EMPTY) && i < |levels|
    ensures LevelStorable(tables, StepLevel(next, levels, batch, i))
  {
    hide Storable, Merge, AllStorable, Schedule.Half;
    assert LevelStorable(tables, levels[i]);
    var level := StepLevel(next, levels, batch, i);
    if i == 0 {
      MergeStorable(tables, levels[0].curr, batch, |levels| == 1);
      MergeStorable(tables, EMPTY, batch, |levels| == 1);
    } else {
      assert LevelStorable(tables, levels[i - 1]);
      MergeStorable(tables, level.curr, levels[i - 1].curr, i + 1 == |levels|);
      MergeStorable(tables, EMPTY, levels[i - 1].curr, i + 1 == |levels|);
    }
  }

  lemma {:induction false} StepStorable(tables: seq<Table>, next: nat, levels: seq<Level>, batch: Bucket)
    requires LevelsStorable(tables, levels) && AllStorable(tables, batch)
    ensures LevelsStorable(tables, Step(next, levels, batch))
  {
    hide Storable, Merge, AllStorable;
    assert AllStorable(tables, EMPTY) by { EmptyStorable(tables); }
    forall i | 0 <= i < |levels| ensures LevelStorable(tables, StepLevel(next, levels, batch, i)) {
      LevelStepStorable(tables, next, levels, batch, i);
    }
  }

  /** Whatever is stored after any history came in with some batch of it. */
  lemma {:induction false} RunStorable(tables: seq<Table>, depth: nat, batches: seq<Bucket>)
    requires forall i | 0 <= i < |batches| :: AllStorable(tables, batches[i])
    ensures LevelsStorable(tables, Run(depth, batches))
  {
    hide Step, AllStorable;
    if batches == [] {
      EmptyStorable(tables);
    } else {
      RunStorable(tables, depth, batches[..|batches| - 1]);
      StepStorable(tables, |batches|, Run(depth, batches[..|batches| - 1]), batches[|batches| - 1]);
    }
  }

  // ----- typed writes and reads --------------------------------------------

  lemma {:induction false} WholeDecodes(shape: Codecs.Shape, v: Codecs.Value)
    requires Codecs.Encodes(shape, v)
    ensures Codecs.Decode(shape, Codecs.Encode(shape, v)) == Some((v, []))
  {
    hide Codecs.Encode, Codecs.Decode, Codecs.Encodes;
    Codecs.DecodeEncoded(shape, v, []);
    assert Codecs.Encode(shape, v) + [] == Codecs.Encode(shape, v);
  }

  /** What a typed put stages is a typed row. */
  lemma {:induction false} PutIsTyped(tables: seq<Table>, i: nat, key: Codecs.Value, value: Codecs.Value)
    requires ValidSchema(tables) && i < |tables|
    requires Codecs.Encodes(tables[i].key, key) && Codecs.Encodes(tables[i].value, value)
    ensures Typed(tables, Record(tables[i].id, Codecs.Encode(tables[i].key, key), Some(Codecs.Encode(tables[i].value, value))))
    ensures Typed(tables, Record(tables[i].id, Codecs.Encode(tables[i].key, key), None))
  {
    hide Codecs.Encode, Codecs.Decode, Codecs.Encodes, Codecs.Supported;
    WholeDecodes(tables[i].key, key);
    WholeDecodes(tables[i].value, value);
  }

  lemma {:induction false} VisibleTyped(tables: seq<Table>, levels: seq<Level>, i: nat, k: Identity)
    requires LevelsStorable(tables, levels) && i <= |levels| && k in VisibleFrom(levels, i)
    ensures Typed(tables, Record(k.table, k.key, VisibleFrom(levels, i)[k]))
    decreases |levels| - i
  {
    hide Typed, View;
    assert LevelStorable(tables, levels[i]);
    ViewOf(levels[i].curr);
    ViewOf(levels[i].snap);
    if k in View(levels[i].curr) {
      var j :| 0 <= j < |levels[i].curr| && levels[i].curr[j].Id() == k;
      assert levels[i].curr[j] in levels[i].curr;
    } else if k in View(levels[i].snap) {
      var j :| 0 <= j < |levels[i].snap| && levels[i].snap[j].Id() == k;
      assert levels[i].snap[j] in levels[i].snap;
    } else {
      VisibleTyped(tables, levels, i + 1, k);
    }
  }

  /** The value decode that a typed read treats as impossible to fail never does:
      every value a typed state returns for a table decodes under its codec. */
  lemma TypedReadsDecode(tables: seq<Table>, levels: seq<Level>, i: nat, key: Bytes)
    requires LevelsStorable(tables, levels) && i < |tables|
    ensures var value := Get(levels, Identity(tables[i].id, key));
            value.Some? ==> DecodesWhole(tables[i].value, value.value)
  {
    var k := Identity(tables[i].id, key);
    if k in Visible(levels) { VisibleTyped(tables, levels, 0, k); }
  }

  /** Neither does the decode of a scanned or iterated row: every record such a
      listing of a typed state yields is live and decodes under its table. */
  lemma ListedDecodes(tables: seq<Table>, levels: seq<Level>, i: nat, range: Cursors.Range, j: nat)
    requires LevelsStorable(tables, levels) && i < |tables| && range.table == tables[i].id
    requires j < |Cursors.LiveRecords(Cursors.InView(range, Slots.Resolved(Slots.SlotsOf(levels))))|
    ensures var r := Cursors.LiveRecords(Cursors.InView(range, Slots.Resolved(Slots.SlotsOf(levels))))[j];
            r.value.Some? && DecodesWhole(tables[i].key, r.key) && DecodesWhole(tables[i].value, r.value.value)
  {
    hide View, DecodesWhole, Cursors.LiveRecords, VisibleFrom;
    var listed := Cursors.LiveRecords(Cursors.InView(range, Slots.Resolved(Slots.SlotsOf(levels))));
    ViewOf(listed);
    var k := listed[j].Id();
    Databases.ListedIsRead(levels, range, k);
    VisibleTyped(tables, levels, 0, k);
  }

  // ----- the layout --------------------------------------------------------

  function Header(sha: Hash, schema: Digest, depth: nat, n: U64): (h: Bytes)
    ensures |h| == HEADER_LENGTH
  {
    MAGIC + schema + Commitments.ProfileHash(sha, depth) + ToBig(8, n)
  }

  function FramePrefix(bytes: Bytes): Bytes { ToBig(8, |bytes|) + bytes }

  function PutBucket(b: Bucket): Bytes { FramePrefix(Frames.EncodeFrame(b)) }

  function PutPending(next: Option<Bucket>): Bytes {
    match next case None => [0] case Some(b) => [1] + PutBucket(b)
  }

  function PutLevel(level: Level): Bytes { PutBucket(level.curr) + (PutBucket(level.snap) + PutPending(level.next)) }

  function PutLevels(levels: seq<Level>): Bytes {
    if levels == [] then [] else PutLevel(levels[0]) + PutLevels(levels[1..])
  }

  /** The checkpoint of a state. */
  function Checkpoint(sha: Hash, schema: Digest, n: U64, levels: seq<Level>): Bytes {
    Header(sha, schema, |levels|, n) + PutLevels(levels)
  }

  // ----- parsing -----------------------------------------------------------

  function TakeFrame(s: Bytes): Option<(Bytes, Bytes)> {
    if |s| < 8 then None else
    Frames.TakeBytes(s[8..], ReadU64(s[..8]))
  }

  lemma TakenBucket(tables: seq<Table>, s: Bytes, rows: seq<Record>)
    requires TakeFrame(s).Some? && Frames.DecodeFrame(TakeFrame(s).value.0) == Ok(rows)
    requires forall i | 0 <= i < |rows| :: Typed(tables, rows[i])
    ensures Frames.Encodable(rows) && AllStorable(tables, rows) && s == PutBucket(rows) + TakeFrame(s).value.1
  {
    hide Typed, Frames.DecodeFrame, Frames.EncodeFrame, ToBig;
    Frames.DecodedIsFrame(TakeFrame(s).value.0, rows);
    U64Canonical(s[..8]);
    Rejoin(s, 8);
    Rejoin(s[8..], ReadU64(s[..8]));
  }

  function TakeBucket(tables: seq<Table>, s: Bytes): (t: Option<(Bucket, Bytes)>)
    ensures t.Some? ==> Frames.Encodable(t.value.0) && AllStorable(tables, t.value.0) && s == PutBucket(t.value.0) + t.value.1
  {
    match TakeFrame(s)
    case None => None
    case Some((frame, rest)) =>
      match Frames.DecodeFrame(frame)
      case Err(_) => None
      case Ok(rows) =>
        if forall i | 0 <= i < |rows| :: Typed(tables, rows[i]) then
          TakenBucket(tables, s, rows);
          Some((rows, rest))
        else None
  }

  lemma {:induction false} FrameLength(b: Bucket)
    ensures |Frames.EncodeFrame(b)| == Frames.EMPTY_LENGTH + Frames.RowsSize(b)
  {
    Frames.RowsSizeLower(b);
  }

  lemma BucketTaken(tables: seq<Table>, b: Bucket, rest: Bytes)
    requires Frames.Encodable(b) && AllStorable(tables, b)
    ensures TakeBucket(tables, PutBucket(b) + rest) == Some((b, rest))
  {
    hide Typed, Frames.DecodeFrame, Frames.EncodeFrame, ToBig, Frames.RowsSize;
    var frame := Frames.EncodeFrame(b);
    FrameLength(b);
    U64RoundTrip(|frame|);
    Assoc(ToBig(8, |frame|), frame, rest);
    Split(ToBig(8, |frame|), frame + rest);
    Split(frame, rest);
    Frames.FrameDecodes(b);
    assert TakeFrame(PutBucket(b) + rest) == Some((frame, rest));
    forall i | 0 <= i < |b| ensures Typed(tables, b[i]) { assert b[i] in b && Storable(tables, b[i]); }
  }

  function TakePending(tables: seq<Table>, s: Bytes): (t: Option<(Option<Bucket>, Bytes)>)
    ensures t.Some? ==> s == PutPending(t.value.0) + t.value.1
    ensures t.Some? && t.value.0.Some? ==> Frames.Encodable(t.value.0.value) && AllStorable(tables, t.value.0.value)
  {
    if s == [] then None
    else if s[0] == 0 then Some((None, s[1..]))
    else if s[0] == 1 then
      match TakeBucket(tables, s[1..])
      case None => None
      case Some((b, rest)) => Assoc([1], PutBucket(b), rest); Some((Some(b), rest))
    else None
  }

  function TakeLevel(tables: seq<Table>, s: Bytes): (t: Option<(Level, Bytes)>)
    ensures t.Some? ==> Whole(tables, t.value.0) && s == PutLevel(t.value.0) + t.value.1
  {
    hide PutBucket, TakeBucket, PutPending, TakePending, AllStorable, Frames.Encodable;
    match TakeBucket(tables, s)
    case None => None
    case Some((curr, s1)) =>
      match TakeBucket(tables, s1)
      case None => None
      case Some((snap, s2)) =>
        match TakePending(tables, s2)
        case None => None
        case Some((next, rest)) =>
          Assoc(PutBucket(snap), PutPending(next), rest);
          Assoc(PutBucket(curr), PutBucket(snap) + PutPending(next), rest);
          Some((Level(curr, snap, next), rest))
  }

  lemma PendingTaken(tables: seq<Table>, next: Option<Bucket>, rest: Bytes)
    requires next.Some? ==> Frames.Encodable(next.value) && AllStorable(tables, next.value)
    ensures TakePending(tables, PutPending(next) + rest) == Some((next, rest))
  {
    hide TakeBucket, PutBucket, Frames.Encodable, AllStorable;
    Split(PutPending(next), rest);
    if next.Some? {
      BucketTaken(tables, next.value, rest);
      Assoc([1], PutBucket(next.value), rest);
      Split([1], PutBucket(next.value) + rest);
    }
  }

  lemma LevelTaken(tables: seq<Table>, level: Level, rest: Bytes)
    requires Whole(tables, level)
    ensures TakeLevel(tables, PutLevel(level) + rest) == Some((level, rest))
  {
    hide TakeBucket, PutBucket, Frames.Encodable, AllStorable, TakePending, PutPending;
    var curr, snap, next := PutBucket(level.curr), PutBucket(level.snap), PutPending(level.next);
    Assoc(curr, snap + next, rest);
    Assoc(snap, next, rest);
    BucketTaken(tables, level.curr, snap + (next + rest));
    BucketTaken(tables, level.snap, next + rest);
    PendingTaken(tables, level.next, rest);
  }

  function TakeLevels(tables: seq<Table>, s: Bytes, depth: nat): (t: Option<(seq<Level>, Bytes)>)
    ensures t.Some? ==> |t.value.0| == depth
    decreases depth
  {
    if depth == 0 then Some(([], s)) else
    match TakeLevel(tables, s)
    case None => None
    case Some((level, after)) =>
      match TakeLevels(tables, after, depth - 1)
      case None => None
      case Some((more, rest)) => Some(([level] + more, rest))
  }

  lemma {:induction false} LevelPrepended(tables: seq<Table>, level: Level, more: seq<Level>, rest: Bytes)
    requires Whole(tables, level) && AllWhole(tables, more)
    ensures AllWhole(tables, [level] + more)
    ensures PutLevels([level] + more) + rest == PutLevel(level) + (PutLevels(more) + rest)
  {
    hide PutLevel, Whole;
    assert ([level] + more)[1..] == more;
    Assoc(PutLevel(level), PutLevels(more), rest);
  }

  lemma {:induction false} TakenLevels(tables: seq<Table>, s: Bytes, depth: nat)
    requires TakeLevels(tables, s, depth).Some?
    ensures var (levels, rest) := TakeLevels(tables, s, depth).value; AllWhole(tables, levels) && s == PutLevels(levels) + rest
    decreases depth
  {
    hide TakeLevel, PutLevel, Whole;
    if depth == 0 {
      assert [] + s == s;
    } else {
      var (level, after) := TakeLevel(tables, s).value;
      TakenLevels(tables, after, depth - 1);
      LevelPrepended(tables, level, TakeLevels(tables, after, depth - 1).value.0, TakeLevels(tables, after, depth - 1).value.1);
    }
  }

  lemma {:induction false} LevelsTaken(tables: seq<Table>, levels: seq<Level>, rest: Bytes)
    requires AllWhole(tables, levels)
    ensures TakeLevels(tables, PutLevels(levels) + rest, |levels|) == Some((levels, rest))
  {
    hide PutLevel, TakeLevel, Whole;
    if levels == [] {
      assert [] + rest == rest;
    } else {
      var more := levels[1..];
      Assoc(PutLevel(levels[0]), PutLevels(more), rest);
      LevelTaken(tables, levels[0], PutLevels(more) + rest);
      LevelsTaken(tables, more, rest);
      assert levels == [levels[0]] + more;
    }
  }

  datatype Parsed = Parsed(n: U64, levels: seq<Level>, rest: Bytes)

  lemma ParsedHeader(sha: Hash, schema: Digest, depth: nat, bytes: Bytes)
    requires |bytes| >= HEADER_LENGTH
    requires bytes[..25] == MAGIC && bytes[25..57] == schema && bytes[57..89] == Commitments.ProfileHash(sha, depth)
    ensures bytes == Header(sha, schema, depth, ReadU64(bytes[89..97])) + bytes[97..]
  {
    hide Commitments.ProfileHash, ToBig;
    U64Canonical(bytes[89..97]);
    Extend(bytes, 25, 57);
    Extend(bytes, 57, 89);
    Extend(bytes, 89, 97);
    Rejoin(bytes, 97);
  }

  /** Header and levels, before topology, digest and trailing bytes are checked. */
  function ParseCheckpoint(sha: Hash, schema: Digest, tables: seq<Table>, depth: nat, bytes: Bytes): (p: Option<Parsed>)
    ensures p.Some? ==> |p.value.levels| == depth && bytes == Checkpoint(sha, schema, p.value.n, p.value.levels) + p.value.rest
    ensures p.Some? ==> AllWhole(tables, p.value.levels)
  {
    hide PutLevels, TakeLevels, AllWhole, Commitments.ProfileHash;
    if |bytes| > MAX_CHECKPOINT_BYTES || |bytes| < HEADER_LENGTH then None
    else if bytes[..25] != MAGIC || bytes[25..57] != schema || bytes[57..89] != Commitments.ProfileHash(sha, depth) then None
    else
      match TakeLevels(tables, bytes[97..], depth)
      case None => None
      case Some((levels, rest)) =>
        ParsedHeader(sha, schema, depth, bytes);
        TakenLevels(tables, bytes[97..], depth);
        Assoc(bytes[..97], PutLevels(levels), rest);
        Some(Parsed(ReadU64(bytes[89..97]), levels, rest))
  }

  /** The state a restore yields, if it accepts. */
  ghost function Restored(sha: Hash, schema: Digest, tables: seq<Table>, depth: nat, bytes: Bytes, expected: Digest): Option<(U64, seq<Level>)> {
    match ParseCheckpoint(sha, schema, tables, depth, bytes)
    case None => None
    case Some(p) =>
      if Checks(Commitments.FrameHash(sha), p.n, p.levels) && Commitments.ListCommitment(sha, schema, p.n, p.levels) == expected && p.rest == []
      then Some((p.n, p.levels)) else None
  }

  /** The states a checkpoint is accepted for. */
  ghost predicate Restorable(sha: Hash, schema: Digest, tables: seq<Table>, depth: nat, n: U64, levels: seq<Level>) {
    && |levels| == depth && AllWhole(tables, levels)
    && Checks(Commitments.FrameHash(sha), n, levels) && |Checkpoint(sha, schema, n, levels)| <= MAX_CHECKPOINT_BYTES
  }

  lemma ParsedFits(sha: Hash, schema: Digest, tables: seq<Table>, depth: nat, bytes: Bytes)
    requires ParseCheckpoint(sha, schema, tables, depth, bytes).Some?
    ensures |bytes| <= MAX_CHECKPOINT_BYTES
  {
  }

  lemma HeaderParts(sha: Hash, schema: Digest, depth: nat, n: U64, body: Bytes)
    ensures var bytes := Header(sha, schema, depth, n) + body;
            && bytes[..25] == MAGIC && bytes[25..57] == schema && bytes[57..89] == Commitments.ProfileHash(sha, depth)
            && ReadU64(bytes[89..97]) == n && bytes[97..] == body
  {
    hide Commitments.ProfileHash, ToBig;
    U64RoundTrip(n);
    var bytes := Header(sha, schema, depth, n) + body;
    assert bytes[89..97] == ToBig(8, n);
  }

  lemma CheckpointParses(sha: Hash, schema: Digest, tables: seq<Table>, depth: nat, n: U64, levels: seq<Level>)
    requires |levels| == depth && AllWhole(tables, levels)
    requires |Checkpoint(sha, schema, n, levels)| <= MAX_CHECKPOINT_BYTES
    ensures ParseCheckpoint(sha, schema, tables, depth, Checkpoint(sha, schema, n, levels)) == Some(Parsed(n, levels, []))
  {
    hide AllWhole, PutLevels, TakeLevels, ToBig, Commitments.ProfileHash;
    var bytes, body := Checkpoint(sha, schema, n, levels), PutLevels(levels);
    Split(Header(sha, schema, depth, n), body);
    HeaderParts(sha, schema, depth, n, body);
    assert body + [] == body;
    LevelsTaken(tables, levels, []);
  }

  /** Restore accepts exactly the checkpoints of typed, well-formed states under
      the expected digest, each from its one byte string: accepted bytes re-encode
      to themselves. */
  lemma RestoreExactly(sha: Hash, schema: Digest, tables: seq<Table>, depth: nat, bytes: Bytes, expected: Digest, n: U64, levels: seq<Level>)
    ensures Restored(sha, schema, tables, depth, bytes, expected) == Some((n, levels)) <==>
              && Restorable(sha, schema, tables, depth, n, levels) && bytes == Checkpoint(sha, schema, n, levels)
              && Commitments.ListCommitment(sha, schema, n, levels) == expected
  {
    hide AllWhole, Commitments.ListCommitment, Checks, Checkpoint, ParseCheckpoint;
    var parsed := ParseCheckpoint(sha, schema, tables, depth, bytes);
    if Restored(sha, schema, tables, depth, bytes, expected) == Some((n, levels)) {
      assert Checkpoint(sha, schema, n, levels) + [] == Checkpoint(sha, schema, n, levels);
      assert |bytes| <= MAX_CHECKPOINT_BYTES by { ParsedFits(sha, schema, tables, depth, bytes); }
    }
    if Restorable(sha, schema, tables, depth, n, levels) && bytes == Checkpoint(sha, schema, n, levels) {
      CheckpointParses(sha, schema, tables, depth, n, levels);
    }
  }

  // ----- what restores was reached -----------------------------------------

  /** Every pending output and its recomputation, as hashed. */
  ghost function PendingFrames(n: nat, levels: seq<Level>): set<Bytes> {
    (set i | 0 <= i < |levels| && levels[i].next.Some? :: Frames.EncodeFrame(levels[i].next.value))
    + set i | 0 < i < |levels| :: Frames.EncodeFrame(Scheduled(n, levels, i))
  }

  lemma {:induction false} PutLevelsCovers(levels: seq<Level>, i: nat)
    requires i < |levels|
    ensures |PutLevel(levels[i])| <= |PutLevels(levels)|
  {
    hide PutLevel;
    if i > 0 { PutLevelsCovers(levels[1..], i - 1); }
  }

  /** Outputs recomputed from a state within the checkpoint limit have frames. */
  lemma {:induction false} ScheduledEncodable(tables: seq<Table>, n: nat, levels: seq<Level>, i: nat)
    requires 0 < i < |levels| && AllWhole(tables, levels) && |PutLevels(levels)| <= MAX_CHECKPOINT_BYTES
    ensures Frames.Encodable(Scheduled(n, levels, i))
  {
    hide PutLevels, LevelStorable, Frames.EncodeFrame, Merge, Schedule.MergeWithEmpty, Frames.Encodable;
    assert Whole(tables, levels[i]) && Whole(tables, levels[i - 1]);
    PutLevelsCovers(levels, i);
    PutLevelsCovers(levels, i - 1);
    FrameLength(levels[i].curr);
    FrameLength(levels[i - 1].snap);
    assert Frames.Encodable(EMPTY) && Frames.RowsSize(EMPTY) == 0 by { Frames.FaultFree(EMPTY); }
    var older := if Schedule.MergeWithEmpty(|levels|, n, i) then EMPTY else levels[i].curr;
    Frames.MergeEncodable(older, levels[i - 1].snap, i + 1 == |levels|);
  }

  /** A state passing the checks by hash is accepted, unless two of the frames
      compared collide. */
  lemma {:induction false} CheckedAccepts(sha: Hash, tables: seq<Table>, n: nat, levels: seq<Level>)
    requires AllWhole(tables, levels) && |PutLevels(levels)| <= MAX_CHECKPOINT_BYTES && Checks(Commitments.FrameHash(sha), n, levels)
    ensures Accepts(n, levels) || Collision(sha, PendingFrames(n, levels))
  {
    hide PutLevels, LevelStorable, Frames.EncodeFrame, Scheduled, Frames.Encodable, Commitments.FrameHash;
    var hashed := PendingFrames(n, levels);
    if !Collision(sha, hashed) {
      forall i | 0 <= i < |levels| ensures AcceptsLevel(n, levels, i) {
        assert ChecksLevel(Commitments.FrameHash(sha), n, levels, i) && Whole(tables, levels[i]);
        if levels[i].next.Some? {
          ScheduledEncodable(tables, n, levels, i);
          Commitments.FrameHashForces(sha, hashed, levels[i].next.value, Scheduled(n, levels, i));
        }
      }
    }
  }

  /** Whatever restores is a state some history of its length ends in. */
  lemma {:induction false} RestoredIsReached(sha: Hash, schema: Digest, tables: seq<Table>, depth: nat, bytes: Bytes, expected: Digest, n: U64, levels: seq<Level>)
    requires ValidDepth(depth) && Restored(sha, schema, tables, depth, bytes, expected) == Some((n, levels))
    ensures Reached(n, levels) || Collision(sha, PendingFrames(n, levels))
  {
    hide Restored, Checks, PutLevels, Commitments.ListCommitment, AllWhole, Reached, PendingFrames, Accepts;
    RestoreExactly(sha, schema, tables, depth, bytes, expected, n, levels);
    CheckedAccepts(sha, tables, n, levels);
    AcceptedIsReached(n, levels);
  }

  // ----- resuming ----------------------------------------------------------

  lemma AcceptedChecks<D>(hash: Bucket -> D, n: nat, levels: seq<Level>)
    requires Accepts(n, levels)
    ensures Checks(hash, n, levels)
  {
    hide Scheduled, ShapedLevel;
    forall i | 0 <= i < |levels| ensures ChecksLevel(hash, n, levels, i) { assert AcceptsLevel(n, levels, i); }
  }

  lemma FittingLevels(sha: Hash, schema: Digest, tables: seq<Table>, n: U64, levels: seq<Level>)
    requires LevelsStorable(tables, levels) && |Checkpoint(sha, schema, n, levels)| <= MAX_CHECKPOINT_BYTES
    ensures AllWhole(tables, levels)
  {
    hide PutLevels, Typed, Frames.RowsSize, Frames.EncodeFrame, Header;
    forall i | 0 <= i < |levels| ensures Whole(tables, levels[i]) {
      PutLevelsCovers(levels, i);
      assert LevelStorable(tables, levels[i]);
      FrameLength(levels[i].curr);
      FrameLength(levels[i].snap);
      if levels[i].next.Some? { FrameLength(levels[i].next.value); }
    }
  }

  /** Every accepted, typed state within the size limit comes back from its own
      checkpoint: sequence, contents and pending outputs. */
  lemma CheckpointResumes(sha: Hash, schema: Digest, tables: seq<Table>, n: U64, levels: seq<Level>)
    requires Accepts(n, levels) && LevelsStorable(tables, levels) && |Checkpoint(sha, schema, n, levels)| <= MAX_CHECKPOINT_BYTES
    ensures Restored(sha, schema, tables, |levels|, Checkpoint(sha, schema, n, levels), Commitments.ListCommitment(sha, schema, n, levels))
            == Some((n, levels))
  {
    hide LevelsStorable, AllWhole, Commitments.ListCommitment, AcceptsLevel, Checkpoint, Restored;
    assert Checks(Commitments.FrameHash(sha), n, levels) by { AcceptedChecks(Commitments.FrameHash(sha), n, levels); }
    FittingLevels(sha, schema, tables, n, levels);
    RestoreExactly(sha, schema, tables, |levels|, Checkpoint(sha, schema, n, levels), Commitments.ListCommitment(sha, schema, n, levels), n, levels);
  }

  /** Every reachable database within the size limit resumes exactly. */
  lemma {:induction false} ReachableResumes(sha: Hash, schema: Digest, tables: seq<Table>, depth: nat, batches: seq<Bucket>)
    requires ValidDepth(depth) && |batches| < U64_LIMIT && forall i | 0 <= i < |batches| :: AllStorable(tables, batches[i])
    requires |Checkpoint(sha, schema, |batches|, Run(depth, batches))| <= MAX_CHECKPOINT_BYTES
    ensures var levels := Run(depth, batches);
            Restored(sha, schema, tables, depth, Checkpoint(sha, schema, |batches|, levels), Commitments.ListCommitment(sha, schema, |batches|, levels))
            == Some((|batches|, levels))
  {
    hide Checkpoint, AllStorable, Commitments.ListCommitment, Restored, Accepts;
    RunIsLastWriter(depth, batches);
    RunStorable(tables, depth, batches);
    CheckpointResumes(sha, schema, tables, |batches|, Run(depth, batches));
  }

  /** A trusted digest admits one byte string: whatever restores under the digest
      of a state is that state's own checkpoint and yields that state, unless two
      of the strings hashed on the way collide. */
  lemma RestoreBinds(sha: Hash, schema: Digest, tables: seq<Table>, n: U64, levels: seq<Level>, depth: nat, bytes: Bytes)
    requires ValidDepth(|levels|) && ValidDepth(depth) && forall i | 0 <= i < |levels| :: Commitments.EncodableLevel(levels[i])
    requires Restored(sha, schema, tables, depth, bytes, Commitments.ListCommitment(sha, schema, n, levels)).Some?
    ensures var (m, other) := Restored(sha, schema, tables, depth, bytes, Commitments.ListCommitment(sha, schema, n, levels)).value;
            || (m == n && other == levels && bytes == Checkpoint(sha, schema, n, levels))
            || Collision(sha, Commitments.ListInputs(sha, schema, n, levels) + Commitments.ListInputs(sha, schema, m, other))
  {
    hide Checkpoint, Commitments.ListCommitment, Checks, Commitments.ListInputs, Restored, LevelStorable, Commitments.EncodableLevel;
    var expected := Commitments.ListCommitment(sha, schema, n, levels);
    var (m, other) := Restored(sha, schema, tables, depth, bytes, expected).value;
    RestoreExactly(sha, schema, tables, depth, bytes, expected, m, other);
    Commitments.ListCommitmentBinds(sha, schema, n, levels, m, other);
  }

  // ----- the writer --------------------------------------------------------

  datatype LevelFrames = LevelFrames(curr: Bytes, snap: Bytes, next: Option<Bytes>)

  function FramesOf(level: Level): LevelFrames {
    LevelFrames(Frames.EncodeFrame(level.curr), Frames.EncodeFrame(level.snap),
                if level.next.Some? then Some(Frames.EncodeFrame(level.next.value)) else None)
  }

  /** Adds to a running size, refusing to pass the checkpoint limit. */
  function Account(total: nat, count: nat): Option<nat>
    requires total <= MAX_CHECKPOINT_BYTES
  {
    if count > MAX_CHECKPOINT_BYTES - total then None else Some(total + count)
  }

  method AccountFrame(total: nat, count: nat) returns (sum: Option<nat>)
    requires total <= MAX_CHECKPOINT_BYTES
    ensures sum == if total + 8 + count <= MAX_CHECKPOINT_BYTES then Some(total + 8 + count) else None
  {
    sum := Account(total, 8);
    if sum.None? { return; }
    sum := Account(sum.value, count);
  }

  lemma PutLevelsSnoc(levels: seq<Level>, i: nat)
    requires i < |levels|
    ensures PutLevels(levels[..i + 1]) == PutLevels(levels[..i]) + PutLevel(levels[i])
  {
    hide PutLevel;
    if i == 0 {
      assert levels[..1] == [levels[0]] && levels[..1][1..] == [];
      assert PutLevel(levels[0]) + [] == [] + PutLevel(levels[0]);
    } else {
      var rest := levels[1..];
      PutLevelsSnoc(rest, i - 1);
      assert levels[..i + 1][1..] == rest[..i] && levels[..i][1..] == rest[..i - 1];
      Assoc(PutLevel(levels[0]), PutLevels(rest[..i - 1]), PutLevel(rest[i - 1]));
    }
  }

  lemma {:induction false} PutLevelsPrefix(levels: seq<Level>, i: nat)
    requires i <= |levels|
    ensures |PutLevels(levels[..i])| <= |PutLevels(levels)|
    decreases |levels| - i
  {
    hide PutLevels, PutLevel;
    if i < |levels| {
      PutLevelsSnoc(levels, i);
      PutLevelsPrefix(levels, i + 1);
    } else {
      assert levels[..i] == levels;
    }
  }

  lemma PutNothing(levels: seq<Level>)
    ensures PutLevels(levels[..0]) == []
  {
  }

  /** The size computed ahead of writing is exact, and it is refused exactly when
      the checkpoint would exceed the limit. */
  method EncodedSize(levels: seq<Level>) returns (size: Option<nat>)
    ensures size == if HEADER_LENGTH + |PutLevels(levels)| <= MAX_CHECKPOINT_BYTES then Some(HEADER_LENGTH + |PutLevels(levels)|) else None
  {
    hide PutLevels, Frames.EncodeFrame, ToBig;
    var total := HEADER_LENGTH;
    assert PutLevels(levels[..0]) == [] by { PutNothing(levels); }
    for i := 0 to |levels|
      invariant total == HEADER_LENGTH + |PutLevels(levels[..i])| <= MAX_CHECKPOINT_BYTES
    {
      PutLevelsSnoc(levels, i);
      PutLevelsPrefix(levels, i + 1);
      var frames := FramesOf(levels[i]);
      size := AccountFrame(total, |frames.curr|);
      if size.None? { return; }
      size := AccountFrame(size.value, |frames.snap|);
      if size.None? { return; }
      size := Account(size.value, 1);
      if size.None? { return; }
      if frames.next.Some? {
        size := AccountFrame(size.value, |frames.next.value|);
        if size.None? { return; }
      }
      total := size.value;
    }
    assert levels[..|levels|] == levels;
    return Some(total);
  }

  method WriteFrame(out: array<Byte>, pos: nat, bytes: Bytes) returns (next: nat)
    requires pos + 8 + |bytes| <= out.Length
    modifies out
    ensures next == pos + 8 + |bytes| && out[..next] == old(out[..pos]) + FramePrefix(bytes)
  {
    ghost var before := out[..pos];
    next := Frames.Put(out, pos, ToBig(8, |bytes|));
    next := Frames.Put(out, next, bytes);
    Assoc(before, ToBig(8, |bytes|), bytes);
  }

  lemma FramePrefixSize(level: Level)
    ensures |PutLevel(level)| == 17 + |Frames.EncodeFrame(level.curr)| + |Frames.EncodeFrame(level.snap)|
                                 + (if level.next.Some? then 8 + |Frames.EncodeFrame(level.next.value)| else 0)
    ensures forall b: Bytes :: |FramePrefix(b)| == 8 + |b|
  {
  }

  method WriteLevel(out: array<Byte>, pos: nat, level: Level) returns (next: nat)
    requires pos + |PutLevel(level)| <= out.Length
    modifies out
    ensures next == pos + |PutLevel(level)| && out[..next] == old(out[..pos]) + PutLevel(level)
  {
    hide Frames.EncodeFrame, FramePrefix;
    FramePrefixSize(level);
    ghost var before, curr, snap := out[..pos], PutBucket(level.curr), PutBucket(level.snap);
    var frames := FramesOf(level);
    next := WriteFrame(out, pos, frames.curr);
    next := WriteFrame(out, next, frames.snap);
    Assoc(before, curr, snap);
    ghost var here := next;
    next := Frames.Put(out, next, [if level.next.Some? then 1 else 0]);
    if frames.next.Some? {
      ghost var tagged := out[..next];
      next := WriteFrame(out, next, frames.next.value);
      Assoc(before + (curr + snap), [1], FramePrefix(frames.next.value));
    }
    Assoc(before, curr + snap, PutPending(level.next));
    Assoc(curr, snap, PutPending(level.next));
  }

  /** Writes the checkpoint of a list into a buffer of exactly the computed size. */
  method EncodeCheckpoint(sha: Hash, schema: Digest, list: List) returns (bytes: Option<Bytes>)
    requires list.Valid()
    ensures bytes == if |Checkpoint(sha, schema, list.sequence, list.levels[..])| <= MAX_CHECKPOINT_BYTES
                     then Some(Checkpoint(sha, schema, list.sequence, list.levels[..])) else None
  {
    hide PutLevels, PutLevel, Commitments.ProfileHash, ToBig;
    var levels := list.levels[..];
    var size := EncodedSize(levels);
    if size.None? { return None; }
    var out := new Byte[size.value](_ => 0);
    var header := Header(sha, schema, list.depth, list.sequence);
    var pos := Frames.Put(out, 0, header);
    assert out[..0] == [] && [] + header == header && header + [] == header;
    assert PutLevels(levels[..0]) == [] by { PutNothing(levels); }
    for i := 0 to |levels|
      invariant list.levels[..] == levels && fresh(out)
      invariant pos == HEADER_LENGTH + |PutLevels(levels[..i])| <= out.Length && out[..pos] == header + PutLevels(levels[..i])
    {
      PutLevelsSnoc(levels, i);
      PutLevelsPrefix(levels, i + 1);
      pos := WriteLevel(out, pos, levels[i]);
      Assoc(header, PutLevels(levels[..i]), PutLevel(levels[i]));
    }
    assert levels[..|levels|] == levels && out[..] == out[..pos];
    return Some(out[..]);
  }

  // ----- the reader --------------------------------------------------------

  datatype RestoreError = InvalidCheckpoint | InvalidTopology | CommitmentMismatch

  method CheckDecodes(shape: Codecs.Shape, s: Bytes) returns (ok: bool)
    requires Codecs.Supported(shape)
    ensures ok == DecodesWhole(shape, s)
  {
    hide Codecs.Decode;
    var reader := new Frames.Reader(s, 0);
    assert s[0..] == s;
    var value := Codecs.DecodeFrom(shape, reader);
    ok := value.Some? && reader.pos == |s|;
  }

  method CheckTyped(tables: seq<Table>, r: Record) returns (ok: bool)
    requires ValidSchema(tables)
    ensures ok == Typed(tables, r)
  {
    hide DecodesWhole, Codecs.Supported;
    var found := false;
    for i := 0 to |tables|
      invariant found <==> exists j :: 0 <= j < i && tables[j].id == r.table
      invariant forall j | 0 <= j < i && tables[j].id == r.table :: TypedFor(tables[j], r)
    {
      if tables[i].id == r.table {
        var decodes := CheckDecodes(tables[i].key, r.key);
        if !decodes { assert !TypedFor(tables[i], r); return false; }
        if r.value.Some? {
          decodes := CheckDecodes(tables[i].value, r.value.value);
          if !decodes { assert !TypedFor(tables[i], r); return false; }
        }
        found := true;
      }
    }
    return found;
  }

  method TakeFrameFrom(reader: Frames.Reader) returns (frame: Option<Bytes>)
    requires reader.Valid()
    modifies reader
    ensures reader.Valid()
    ensures match TakeFrame(old(reader.Rest()))
            case None => frame == None
            case Some((f, rest)) => frame == Some(f) && reader.Rest() == rest && reader.pos == old(reader.pos) + 8 + |f|
  {
    var length := reader.Take(8);
    if length.None? { return None; }
    frame := reader.Take(ReadU64(length.value));
  }

  /** One frame, counted against the limit, decoded and checked row by row. The
      count never trips: it is the position in an input that passed the limit. */
  method TakeBucketFrom(tables: seq<Table>, reader: Frames.Reader, total: nat) returns (taken: Option<(Bucket, nat)>)
    requires ValidSchema(tables) && reader.Valid() && total == reader.pos && |reader.bytes| <= MAX_CHECKPOINT_BYTES
    modifies reader
    ensures reader.Valid()
    ensures match TakeBucket(tables, old(reader.Rest()))
            case None => taken == None
            case Some((b, rest)) => taken == Some((b, reader.pos)) && reader.Rest() == rest
  {
    hide Typed, Frames.DecodeFrame, PutBucket;
    var frame := TakeFrameFrom(reader);
    if frame.None? { return None; }
    var sum := AccountFrame(total, |frame.value|);
    if sum.None? { return None; }
    var decoded := Frames.Decode(frame.value);
    if decoded.Err? { return None; }
    var rows := decoded.value;
    Frames.DecodedIsFrame(frame.value, rows);
    for i := 0 to |rows|
      invariant reader.Valid() && reader.Rest() == TakeFrame(old(reader.Rest())).value.1 && reader.pos == sum.value
      invariant forall j | 0 <= j < i :: Typed(tables, rows[j])
    {
      var typed := CheckTyped(tables, rows[i]);
      if !typed { return None; }
    }
    var b: Bucket := rows;
    return Some((b, sum.value));
  }

  method TakeLevelFrom(tables: seq<Table>, reader: Frames.Reader, total: nat) returns (taken: Option<(Level, nat)>)
    requires ValidSchema(tables) && reader.Valid() && total == reader.pos && |reader.bytes| <= MAX_CHECKPOINT_BYTES
    modifies reader
    ensures reader.Valid()
    ensures match TakeLevel(tables, old(reader.Rest()))
            case None => taken == None
            case Some((level, rest)) => taken == Some((level, reader.pos)) && reader.Rest() == rest
  {
    hide TakeBucket, PutBucket, ValidSchema, AllStorable, Frames.Encodable;
    var curr := TakeBucketFrom(tables, reader, total);
    if curr.None? { return None; }
    var snap := TakeBucketFrom(tables, reader, curr.value.1);
    if snap.None? { return None; }
    var sum := Account(snap.value.1, 1);
    if sum.None? { assert reader.Rest() == []; return None; }
    var tag := reader.Take(1);
    if tag.None? { return None; }
    if tag.value[0] == 0 { return Some((Level(curr.value.0, snap.value.0, None), sum.value)); }
    if tag.value[0] != 1 { return None; }
    var next := TakeBucketFrom(tables, reader, sum.value);
    if next.None? { return None; }
    return Some((Level(curr.value.0, snap.value.0, Some(next.value.0)), next.value.1));
  }

  lemma LevelsAfterOne(tables: seq<Table>, s: Bytes, depth: nat)
    requires depth > 0
    ensures TakeLevels(tables, s, depth) == match TakeLevel(tables, s)
                                            case None => None
                                            case Some((level, after)) => Onto([level], TakeLevels(tables, after, depth - 1))
  {
    hide TakeLevel;
  }

  method TakeLevelsFrom(tables: seq<Table>, reader: Frames.Reader, levels: array<Level>) returns (ok: bool)
    requires ValidSchema(tables) && reader.Valid() && |reader.bytes| <= MAX_CHECKPOINT_BYTES
    modifies reader, levels
    ensures reader.Valid()
    ensures match TakeLevels(tables, old(reader.Rest()), levels.Length)
            case None => !ok
            case Some((all, rest)) => ok && levels[..] == all && reader.Rest() == rest
  {
    hide TakeLevel, PutLevel, ValidSchema, Whole, AllWhole;
    ghost var all, depth := TakeLevels(tables, reader.Rest(), levels.Length), levels.Length;
    OntoNothing(all);
    var total := reader.pos;
    for i := 0 to levels.Length
      invariant reader.Valid() && total == reader.pos
      invariant all == Onto(levels[..i], TakeLevels(tables, reader.Rest(), depth - i))
    {
      ghost var here := reader.Rest();
      var level := TakeLevelFrom(tables, reader, total);
      LevelsAfterOne(tables, here, depth - i);
      if level.None? { return false; }
      levels[i] := level.value.0;
      total := level.value.1;
      OntoStep(levels[..i], level.value.0, TakeLevels(tables, reader.Rest(), depth - i - 1));
      assert levels[..i + 1] == levels[..i] + [level.value.0];
    }
    assert levels[..levels.Length] == levels[..] && levels[..] + [] == levels[..];
    return true;
  }

  /** The restore of a byte string: parse, topology, digest, trailing bytes, in
      that order. A database comes back only for the state `Restored` names. */
  method Restore(sha: Hash, schema: Digest, tables: seq<Table>, depth: nat, bytes: Bytes, expected: Digest)
    returns (restored: Result<List, RestoreError>)
    requires ValidSchema(tables) && ValidDepth(depth)
    ensures restored.Ok? <==> Restored(sha, schema, tables, depth, bytes, expected).Some?
    ensures restored.Ok? ==>
              && fresh(restored.value) && fresh(restored.value.levels) && restored.value.Valid() && restored.value.depth == depth
              && Restored(sha, schema, tables, depth, bytes, expected) == Some((restored.value.sequence, restored.value.levels[..]))
    ensures ParseCheckpoint(sha, schema, tables, depth, bytes).None? ==> restored == Err(InvalidCheckpoint)
    ensures restored == Err(InvalidTopology) <==>
              var p := ParseCheckpoint(sha, schema, tables, depth, bytes);
              p.Some? && !Checks(Commitments.FrameHash(sha), p.value.n, p.value.levels)
    ensures restored == Err(CommitmentMismatch) <==>
              var p := ParseCheckpoint(sha, schema, tables, depth, bytes);
              && p.Some? && Checks(Commitments.FrameHash(sha), p.value.n, p.value.levels)
              && Commitments.ListCommitment(sha, schema, p.value.n, p.value.levels) != expected
  {
    hide TakeLevels, PutLevels, Commitments.ProfileHash, Commitments.ListCommitment, Checks, AllWhole, ValidSchema;
    hide Reached, Injective, Accepts, ReferenceDigests.DatabaseDigest;
    if |bytes| > MAX_CHECKPOINT_BYTES || |bytes| < HEADER_LENGTH { return Err(InvalidCheckpoint); }
    if bytes[..25] != MAGIC || bytes[25..57] != schema || bytes[57..89] != Commitments.ProfileHash(sha, depth) {
      return Err(InvalidCheckpoint);
    }
    var list := new List(depth);
    list.sequence := ReadU64(bytes[89..97]);
    var reader := new Frames.Reader(bytes, HEADER_LENGTH);
    var taken := TakeLevelsFrom(tables, reader, list.levels);
    if !taken { return Err(InvalidCheckpoint); }
    var valid := list.Validate(Commitments.FrameHash(sha));
    if !valid { return Err(InvalidTopology); }
    var digest := Commitments.ListDigest(sha, schema, list);
    if digest != expected { return Err(CommitmentMismatch); }
    if reader.pos != |bytes| { return Err(InvalidCheckpoint); }
    return Ok(list);
  }
}
