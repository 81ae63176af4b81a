/** Hash composition (src/list.zig:107-144, src/database.zig:63-76,
    src/frontier.zig:143-195): what a database digest commits to. */
module Commitments {
  import opened Wire
  import opened Buckets
  import opened Lists
  import opened Engines
  import opened Digests
  import opened Frontiers
  import opened ReferenceDigests
  import Frames
  import Reference
  import History

  type Levels = seq<HashLevel<Digest>>

  const PROFILE_DOMAIN: Bytes := Frames.Ascii("bucketlist.profile.v1") + [0]
  const LEVEL_DOMAIN: Bytes := Frames.Ascii("bucketlist.level.v1") + [0]
  const LIST_DOMAIN: Bytes := Frames.Ascii("bucketlist.list.v1") + [0]
  const CONTINUATION_DOMAIN: Bytes := Frames.Ascii("bucketlist.continuation.v1") + [0]
  const DATABASE_DOMAIN: Bytes := Frames.Ascii("bucketlist.database.v1") + [0]

  function ProfileInput(depth: nat): Bytes { PROFILE_DOMAIN + ToBig(4, depth) + ToBig(4, 4) }

  function ProfileHash(sha: Hash, depth: nat): Digest { sha(ProfileInput(depth)) }

  function LevelInput(i: nat, level: HashLevel<Digest>): Bytes { LEVEL_DOMAIN + ToBig(4, i) + level.curr + level.snap }

  function LevelHash(sha: Hash, i: nat, level: HashLevel<Digest>): Digest { sha(LevelInput(i, level)) }

  function LevelHashes(sha: Hash, levels: Levels): Bytes {
    if levels == [] then []
    else LevelHashes(sha, levels[..|levels| - 1]) + LevelHash(sha, |levels| - 1, levels[|levels| - 1])
  }

  function RootInput(sha: Hash, profile: Digest, levels: Levels): Bytes { LIST_DOMAIN + profile + LevelHashes(sha, levels) }

  function Root(sha: Hash, profile: Digest, levels: Levels): Digest { sha(RootInput(sha, profile, levels)) }

  function PendingEntry(next: Option<Digest>): Bytes {
    match next case None => [0] case Some(d) => [1] + d
  }

  function PendingEntries(levels: Levels): Bytes {
    if levels == [] then []
    else PendingEntries(levels[..|levels| - 1]) + (ToBig(4, |levels| - 1) + PendingEntry(levels[|levels| - 1].next))
  }

  function ContinuationInput(profile: Digest, levels: Levels): Bytes { CONTINUATION_DOMAIN + profile + PendingEntries(levels) }

  function Continuation(sha: Hash, profile: Digest, levels: Levels): Digest { sha(ContinuationInput(profile, levels)) }

  function CommitmentInput(sha: Hash, schema: Digest, profile: Digest, sequence: U64, levels: Levels): Bytes {
    DATABASE_DOMAIN + schema + profile + ToBig(8, sequence) + Root(sha, profile, levels) + Continuation(sha, profile, levels)
  }

  /** The database digest: schema, profile, sequence, visible and pending state. */
  function Commitment(sha: Hash, schema: Digest, profile: Digest, sequence: U64, levels: Levels): Digest {
    sha(CommitmentInput(sha, schema, profile, sequence, levels))
  }

  /** A bucket's version-one identity. */
  function FrameHash(sha: Hash): Bucket -> Digest { (b: Bucket) => sha(Frames.EncodeFrame(b)) }

  /** The digest of a list state at a profile of its own depth. */
  function ListCommitment(sha: Hash, schema: Digest, n: U64, levels: seq<Level>): Digest {
    Commitment(sha, schema, ProfileHash(sha, |levels|), n, Shadow(FrameHash(sha), n, levels).levels)
  }

  // ----- the strings a digest hashes ---------------------------------------

  ghost function LevelInputs(levels: Levels): set<Bytes> { set i | 0 <= i < |levels| :: LevelInput(i, levels[i]) }

  /** Everything hashed to obtain a database digest from bucket hashes. */
  ghost function CommitmentInputs(sha: Hash, schema: Digest, profile: Digest, sequence: U64, levels: Levels): set<Bytes> {
    LevelInputs(levels) + {RootInput(sha, profile, levels), ContinuationInput(profile, levels), CommitmentInput(sha, schema, profile, sequence, levels)}
  }

  ghost function FrameInputs(level: Level): set<Bytes> {
    {Frames.EncodeFrame(level.curr), Frames.EncodeFrame(level.snap)} +
    if level.next.Some? then {Frames.EncodeFrame(level.next.value)} else {}
  }

  /** Everything hashed to obtain the digest of a list: its profile, its bucket
      frames, and what combines them. */
  ghost function ListInputs(sha: Hash, schema: Digest, n: U64, levels: seq<Level>): set<Bytes> {
    {ProfileInput(|levels|)}
    + CommitmentInputs(sha, schema, ProfileHash(sha, |levels|), n, Shadow(FrameHash(sha), n, levels).levels)
    + set i, x | 0 <= i < |levels| && x in FrameInputs(levels[i]) :: x
  }

  // ----- what equal digests force ------------------------------------------

  lemma ProfileForces(sha: Hash, hashed: set<Bytes>, a: nat, b: nat)
    requires a < U32_LIMIT && b < U32_LIMIT && ProfileHash(sha, a) == ProfileHash(sha, b)
    requires {ProfileInput(a), ProfileInput(b)} <= hashed
    ensures a == b || Collision(sha, hashed)
  {
    hide ToBig;
    var x, y, four := PROFILE_DOMAIN + ToBig(4, a), PROFILE_DOMAIN + ToBig(4, b), ToBig(4, 4);
    EqualOrCollision(sha, hashed, ProfileInput(a), ProfileInput(b));
    if x + four == y + four {
      Unconcat(x, y, four, four);
      Unconcat(PROFILE_DOMAIN, PROFILE_DOMAIN, ToBig(4, a), ToBig(4, b));
      PowerValues();
      ToBigInjective(4, a, b);
    }
  }

  lemma LevelForces(sha: Hash, hashed: set<Bytes>, i: nat, a: HashLevel<Digest>, b: HashLevel<Digest>)
    requires LevelHash(sha, i, a) == LevelHash(sha, i, b) && {LevelInput(i, a), LevelInput(i, b)} <= hashed
    ensures (a.curr == b.curr && a.snap == b.snap) || Collision(sha, hashed)
  {
    hide ToBig;
    var prefix := LEVEL_DOMAIN + ToBig(4, i);
    EqualOrCollision(sha, hashed, LevelInput(i, a), LevelInput(i, b));
    if prefix + a.curr + a.snap == prefix + b.curr + b.snap {
      Unconcat(prefix + a.curr, prefix + b.curr, a.snap, b.snap);
      Unconcat(prefix, prefix, a.curr, b.curr);
    }
  }

  lemma {:induction false} LevelHashesSize(sha: Hash, levels: Levels)
    ensures |LevelHashes(sha, levels)| == 32 * |levels|
  {
    if levels != [] { LevelHashesSize(sha, levels[..|levels| - 1]); }
  }

  lemma {:induction false} FewerLevels(levels: Levels, k: nat)
    requires k <= |levels|
    ensures LevelInputs(levels[..k]) <= LevelInputs(levels)
  {
    hide LevelInput;
  }

  lemma {:induction false} LevelsForce(sha: Hash, hashed: set<Bytes>, a: Levels, b: Levels)
    requires |a| == |b| && LevelHashes(sha, a) == LevelHashes(sha, b) && LevelInputs(a) + LevelInputs(b) <= hashed
    ensures (forall i | 0 <= i < |a| :: a[i].curr == b[i].curr && a[i].snap == b[i].snap) || Collision(sha, hashed)
    decreases |a|
  {
    hide LevelHash, LevelInput;
    var k := |a| - 1;
    if k >= 0 {
      LevelHashesSize(sha, a[..k]);
      LevelHashesSize(sha, b[..k]);
      Unconcat(LevelHashes(sha, a[..k]), LevelHashes(sha, b[..k]), LevelHash(sha, k, a[k]), LevelHash(sha, k, b[k]));
      FewerLevels(a, k);
      FewerLevels(b, k);
      LevelsForce(sha, hashed, a[..k], b[..k]);
      assert LevelInput(k, a[k]) in LevelInputs(a) && LevelInput(k, b[k]) in LevelInputs(b);
      LevelForces(sha, hashed, k, a[k], b[k]);
      if !Collision(sha, hashed) {
        forall i | 0 <= i < |a| ensures a[i].curr == b[i].curr && a[i].snap == b[i].snap {
          if i < k { assert a[..k][i] == a[i] && b[..k][i] == b[i]; }
        }
      }
    }
  }

  /** Entries of one level and everything after them determine presence and hash. */
  lemma EntryForces(index: Bytes, a: Option<Digest>, b: Option<Digest>, x: Bytes, y: Bytes)
    requires index + PendingEntry(a) + x == index + PendingEntry(b) + y
    ensures a == b && x == y
  {
    Assoc(index, PendingEntry(a), x);
    Assoc(index, PendingEntry(b), y);
    Unconcat(index, index, PendingEntry(a) + x, PendingEntry(b) + y);
    assert (PendingEntry(a) + x)[0] == (PendingEntry(b) + y)[0];
    Unconcat(PendingEntry(a), PendingEntry(b), x, y);
    if a.Some? { Unconcat([1], [1], a.value, b.value); }
  }

  /** The pending section parses back: the concatenated entries of equally many
      levels agree only if every pending output does. */
  lemma {:induction false} PendingForces(a: Levels, b: Levels, x: Bytes, y: Bytes)
    requires |a| == |b| && PendingEntries(a) + x == PendingEntries(b) + y
    ensures (forall i | 0 <= i < |a| :: a[i].next == b[i].next) && x == y
    decreases |a|
  {
    hide PendingEntry, ToBig;
    var k := |a| - 1;
    if k < 0 {
      assert [] + x == x && [] + y == y;
    } else {
      var index, p, q := ToBig(4, k), PendingEntry(a[k].next), PendingEntry(b[k].next);
      Assoc(PendingEntries(a[..k]), index + p, x);
      Assoc(PendingEntries(b[..k]), index + q, y);
      PendingForces(a[..k], b[..k], index + p + x, index + q + y);
      EntryForces(index, a[k].next, b[k].next, x, y);
      forall i | 0 <= i < |a| ensures a[i].next == b[i].next {
        if i < k { assert a[..k][i] == a[i] && b[..k][i] == b[i]; }
      }
    }
  }

  lemma RootForces(sha: Hash, hashed: set<Bytes>, p: Digest, a: Levels, b: Levels)
    requires |a| == |b| && Root(sha, p, a) == Root(sha, p, b)
    requires LevelInputs(a) + LevelInputs(b) + {RootInput(sha, p, a), RootInput(sha, p, b)} <= hashed
    ensures (forall i | 0 <= i < |a| :: a[i].curr == b[i].curr && a[i].snap == b[i].snap) || Collision(sha, hashed)
  {
    hide LevelHashes, LevelInputs;
    EqualOrCollision(sha, hashed, RootInput(sha, p, a), RootInput(sha, p, b));
    if !Collision(sha, hashed) {
      Unconcat(LIST_DOMAIN + p, LIST_DOMAIN + p, LevelHashes(sha, a), LevelHashes(sha, b));
      LevelsForce(sha, hashed, a, b);
    }
  }

  lemma ContinuationForces(sha: Hash, hashed: set<Bytes>, p: Digest, a: Levels, b: Levels)
    requires |a| == |b| && Continuation(sha, p, a) == Continuation(sha, p, b)
    requires {ContinuationInput(p, a), ContinuationInput(p, b)} <= hashed
    ensures (forall i | 0 <= i < |a| :: a[i].next == b[i].next) || Collision(sha, hashed)
  {
    hide PendingEntries;
    var d := CONTINUATION_DOMAIN + p;
    EqualOrCollision(sha, hashed, ContinuationInput(p, a), ContinuationInput(p, b));
    if !Collision(sha, hashed) {
      Unconcat(d, d, PendingEntries(a), PendingEntries(b));
      assert PendingEntries(a) + [] == PendingEntries(b) + [];
      PendingForces(a, b, [], []);
    }
  }

  /** A database digest commits to the schema, the profile, the sequence and every
      current, snapshot and pending hash. */
  lemma CommitmentForces(sha: Hash, hashed: set<Bytes>, s: Digest, p: Digest, n: U64, a: Levels, t: Digest, q: Digest, m: U64, b: Levels)
    requires |a| == |b| && Commitment(sha, s, p, n, a) == Commitment(sha, t, q, m, b)
    requires CommitmentInputs(sha, s, p, n, a) + CommitmentInputs(sha, t, q, m, b) <= hashed
    ensures (s == t && p == q && n == m && a == b) || Collision(sha, hashed)
  {
    hide ToBig, Root, Continuation, RootInput, ContinuationInput, LevelInputs;
    var d := DATABASE_DOMAIN;
    var x, y := d + s + p + ToBig(8, n) + Root(sha, p, a), d + t + q + ToBig(8, m) + Root(sha, q, b);
    EqualOrCollision(sha, hashed, CommitmentInput(sha, s, p, n, a), CommitmentInput(sha, t, q, m, b));
    if !Collision(sha, hashed) {
      Unconcat(x, y, Continuation(sha, p, a), Continuation(sha, q, b));
      Unconcat(d + s + p + ToBig(8, n), d + t + q + ToBig(8, m), Root(sha, p, a), Root(sha, q, b));
      Unconcat(d + s + p, d + t + q, ToBig(8, n), ToBig(8, m));
      Unconcat(d + s, d + t, p, q);
      Unconcat(d, d, s, t);
      PowerValues();
      ToBigInjective(8, n, m);
      RootForces(sha, hashed, p, a, b);
      ContinuationForces(sha, hashed, p, a, b);
    }
  }

  lemma FrameHashForces(sha: Hash, hashed: set<Bytes>, a: Bucket, b: Bucket)
    requires Frames.Encodable(a) && Frames.Encodable(b) && FrameHash(sha)(a) == FrameHash(sha)(b)
    requires {Frames.EncodeFrame(a), Frames.EncodeFrame(b)} <= hashed
    ensures a == b || Collision(sha, hashed)
  {
    hide Frames.EncodeFrame;
    EqualOrCollision(sha, hashed, Frames.EncodeFrame(a), Frames.EncodeFrame(b));
    if Frames.EncodeFrame(a) == Frames.EncodeFrame(b) { Frames.EncodeFrameInjective(a, b); }
  }

  ghost predicate EncodableLevel(level: Level) {
    Frames.Encodable(level.curr) && Frames.Encodable(level.snap) && (level.next.Some? ==> Frames.Encodable(level.next.value))
  }

  lemma DepthForces(sha: Hash, hashed: set<Bytes>, schema: Digest, n: U64, depth: nat, x: Levels, m: U64, other: nat, y: Levels)
    requires ValidDepth(depth) && ValidDepth(other)
    requires var p, q := ProfileHash(sha, depth), ProfileHash(sha, other);
             && Commitment(sha, schema, p, n, x) == Commitment(sha, schema, q, m, y)
             && {CommitmentInput(sha, schema, p, n, x), CommitmentInput(sha, schema, q, m, y), ProfileInput(depth), ProfileInput(other)} <= hashed
    ensures depth == other || Collision(sha, hashed)
  {
    hide ToBig, Root, Continuation, ProfileHash, ProfileInput;
    var p, q := ProfileHash(sha, depth), ProfileHash(sha, other);
    var d := DATABASE_DOMAIN + schema;
    EqualOrCollision(sha, hashed, CommitmentInput(sha, schema, p, n, x), CommitmentInput(sha, schema, q, m, y));
    if !Collision(sha, hashed) {
      Unconcat(d + p + ToBig(8, n) + Root(sha, p, x), d + q + ToBig(8, m) + Root(sha, q, y), Continuation(sha, p, x), Continuation(sha, q, y));
      Unconcat(d + p + ToBig(8, n), d + q + ToBig(8, m), Root(sha, p, x), Root(sha, q, y));
      Unconcat(d + p, d + q, ToBig(8, n), ToBig(8, m));
      Unconcat(d, d, p, q);
      ProfileForces(sha, hashed, depth, other);
    }
  }

  lemma LevelShadowForces(sha: Hash, hashed: set<Bytes>, a: Level, b: Level)
    requires EncodableLevel(a) && EncodableLevel(b) && HashOf(FrameHash(sha), a) == HashOf(FrameHash(sha), b)
    requires FrameInputs(a) + FrameInputs(b) <= hashed
    ensures a == b || Collision(sha, hashed)
  {
    hide Frames.EncodeFrame, Frames.Encodable, FrameHash;
    FrameHashForces(sha, hashed, a.curr, b.curr);
    FrameHashForces(sha, hashed, a.snap, b.snap);
    if a.next.Some? { FrameHashForces(sha, hashed, a.next.value, b.next.value); }
  }

  /** Two list states of any depths with one digest are the same state: the same
      sequence and the same rows in every current, snapshot and pending bucket. */
  lemma ListCommitmentBinds(sha: Hash, schema: Digest, n: U64, a: seq<Level>, m: U64, b: seq<Level>)
    requires ValidDepth(|a|) && ValidDepth(|b|)
    requires (forall i | 0 <= i < |a| :: EncodableLevel(a[i])) && (forall i | 0 <= i < |b| :: EncodableLevel(b[i]))
    requires ListCommitment(sha, schema, n, a) == ListCommitment(sha, schema, m, b)
    ensures (n == m && a == b) || Collision(sha, ListInputs(sha, schema, n, a) + ListInputs(sha, schema, m, b))
  {
    hide EncodableLevel, FrameHash, ProfileHash, ProfileInput, FrameInputs, LevelInputs, RootInput, ContinuationInput, CommitmentInput;
    var h := FrameHash(sha);
    var hashed := ListInputs(sha, schema, n, a) + ListInputs(sha, schema, m, b);
    var x, y := Shadow(h, n, a).levels, Shadow(h, m, b).levels;
    if !Collision(sha, hashed) {
      DepthForces(sha, hashed, schema, n, |a|, x, m, |b|, y);
      CommitmentForces(sha, hashed, schema, ProfileHash(sha, |a|), n, x, schema, ProfileHash(sha, |b|), m, y);
      forall i | 0 <= i < |a| ensures a[i] == b[i] {
        assert x[i] == y[i];
        assert forall s | s in FrameInputs(a[i]) :: s in ListInputs(sha, schema, n, a);
        assert forall s | s in FrameInputs(b[i]) :: s in ListInputs(sha, schema, m, b);
        LevelShadowForces(sha, hashed, a[i], b[i]);
      }
    }
  }

  // ----- the reference model's commitments ---------------------------------

  lemma SameTags()
    ensures Frames.DOMAIN == Tag("bucketlist.bucket.v1") && PROFILE_DOMAIN == Tag("bucketlist.profile.v1")
    ensures LEVEL_DOMAIN == Tag("bucketlist.level.v1") && LIST_DOMAIN == Tag("bucketlist.list.v1")
    ensures CONTINUATION_DOMAIN == Tag("bucketlist.continuation.v1") && DATABASE_DOMAIN == Tag("bucketlist.database.v1")
  {
  }

  lemma ItemIsRecord(r: Record)
    ensures EncodeItem(r) == Frames.FrameRecord(r)
  {
    hide ToBig;
    if r.value.Some? { Assoc([1], ToBig(4, |r.value.value|), r.value.value); }
    Assoc(ToBig(4, r.table), ToBig(4, |r.key|), r.key);
    Assoc(ToBig(4, r.table), ToBig(4, |r.key|) + r.key, Frames.FrameEffect(r.value));
    Assoc(ToBig(4, |r.key|), r.key, Frames.FrameEffect(r.value));
  }

  lemma {:induction false} ItemsAreRows(rows: seq<Record>)
    ensures Joined(seq(|rows|, i requires 0 <= i < |rows| => EncodeItem(rows[i]))) == Frames.FrameRows(rows)
  {
    hide EncodeItem, Frames.FrameRecord;
    var items := seq(|rows|, i requires 0 <= i < |rows| => EncodeItem(rows[i]));
    if rows != [] {
      var rest := rows[1..];
      ItemIsRecord(rows[0]);
      ItemsAreRows(rest);
      assert items[1..] == seq(|rest|, i requires 0 <= i < |rest| => EncodeItem(rest[i]));
    }
  }

  /** A dictionary's bytes are the frame of its bucket. */
  lemma {:induction false} DictionaryIsFrame(b: Bucket)
    ensures EncodeDictionary(View(b)) == Frames.EncodeFrame(b)
  {
    hide View, EncodeItem, Frames.FrameRows, Tag;
    SameTags();
    ViewInjective(BucketOf(View(b)), b);
    ViewCount(b);
    ItemsAreRows(b);
  }

  lemma {:induction false} LevelIsReference(sha: Hash, i: nat, level: Level)
    ensures LevelHash(sha, i, HashOf(FrameHash(sha), level)) == LevelDigest(sha, i, Reference.Image(level))
    ensures ToBig(4, i) + PendingEntry(HashOf(FrameHash(sha), level).next) == PendingPart(sha, i, Reference.Image(level))
  {
    hide View, EncodeDictionary, Frames.EncodeFrame, ToBig, Tag;
    SameTags();
    DictionaryIsFrame(level.curr);
    DictionaryIsFrame(level.snap);
    if level.next.Some? { DictionaryIsFrame(level.next.value); }
  }

  ghost function LevelDigests(sha: Hash, levels: seq<Reference.MapLevel>): seq<Bytes> {
    seq(|levels|, i requires 0 <= i < |levels| => LevelDigest(sha, i, levels[i]))
  }

  ghost function PendingParts(sha: Hash, levels: seq<Reference.MapLevel>): seq<Bytes> {
    seq(|levels|, i requires 0 <= i < |levels| => PendingPart(sha, i, levels[i]))
  }

  lemma {:induction false} PartsAreReference(sha: Hash, n: U64, levels: seq<Level>, k: nat)
    requires k <= |levels|
    ensures var shadow := Shadow(FrameHash(sha), n, levels).levels;
            && LevelHashes(sha, shadow[..k]) == Joined(LevelDigests(sha, Reference.Images(levels))[..k])
            && PendingEntries(shadow[..k]) == Joined(PendingParts(sha, Reference.Images(levels))[..k])
  {
    hide FrameHash, LevelHash, LevelDigest, PendingPart, PendingEntry, Reference.Image, ToBig;
    var shadow, images := Shadow(FrameHash(sha), n, levels).levels, Reference.Images(levels);
    if k > 0 {
      var i := k - 1;
      PartsAreReference(sha, n, levels, i);
      LevelIsReference(sha, i, levels[i]);
      assert images[i] == Reference.Image(levels[i]) && shadow[i] == HashOf(FrameHash(sha), levels[i]);
      assert shadow[..k][..i] == shadow[..i];
      JoinedTake(LevelDigests(sha, images), i);
      JoinedTake(PendingParts(sha, images), i);
    }
  }

  lemma {:induction false} RootIsReference(sha: Hash, n: U64, levels: seq<Level>)
    ensures var shadow, images := Shadow(FrameHash(sha), n, levels).levels, Reference.Images(levels);
            && Root(sha, ProfileHash(sha, |levels|), shadow) == RootDigest(sha, images)
            && Continuation(sha, ProfileHash(sha, |levels|), shadow) == ContinuationDigest(sha, images)
  {
    hide FrameHash, LevelHashes, PendingEntries, LevelDigest, PendingPart, ToBig, Tag;
    SameTags();
    var shadow, images := Shadow(FrameHash(sha), n, levels).levels, Reference.Images(levels);
    PartsAreReference(sha, n, levels, |levels|);
    assert shadow[..|levels|] == shadow;
    assert LevelDigests(sha, images)[..|levels|] == LevelDigests(sha, images);
    assert PendingParts(sha, images)[..|levels|] == PendingParts(sha, images);
  }

  /** What the list hashes is what the reference model hashes, for any levels:
      the digest, spelled out over dictionaries. */
  lemma {:induction false} DigestsAreReference(sha: Hash, schema: Digest, n: U64, levels: seq<Level>)
    ensures ListCommitment(sha, schema, n, levels) == DatabaseDigest(sha, schema, n, Reference.Images(levels))
  {
    hide FrameHash, Root, Continuation, RootDigest, ContinuationDigest, ToBig, Tag;
    SameTags();
    RootIsReference(sha, n, levels);
  }

  /** After every history the reference model and the list commit to one digest. */
  lemma {:induction false} ReferenceCommits(sha: Hash, schema: Digest, depth: nat, history: seq<seq<Reference.Operation>>)
    requires ValidDepth(depth) && |history| < U64_LIMIT
    ensures DatabaseDigest(sha, schema, |history|, Reference.ModelRun(depth, history).levels)
            == ListCommitment(sha, schema, |history|, History.Run(depth, Reference.Batches(depth, history)))
  {
    hide DatabaseDigest, ListCommitment, Reference.Batches, Reference.ModelRun, History.Run;
    Reference.SchedulersAgree(depth, history);
    DigestsAreReference(sha, schema, |history|, History.Run(depth, Reference.Batches(depth, history)));
  }

  // ----- the hashing loops -------------------------------------------------

  method ListRoot(sha: Hash, list: List) returns (root: Digest)
    requires list.Valid()
    ensures root == Root(sha, ProfileHash(sha, list.depth), Shadow(FrameHash(sha), list.sequence, list.levels[..]).levels)
    ensures root == RootDigest(sha, Reference.Images(list.levels[..]))
  {
    hide ProfileHash, LevelHash, FrameHash, RootDigest, Reference.Images;
    var bytes: Bytes := LIST_DOMAIN + ProfileHash(sha, list.depth);
    ghost var prefix, shadow := bytes, Shadow(FrameHash(sha), list.sequence, list.levels[..]).levels;
    assert prefix + [] == prefix;
    for i := 0 to list.depth
      invariant bytes == prefix + LevelHashes(sha, shadow[..i])
    {
      var level := list.levels[i];
      assert shadow[..i + 1][..i] == shadow[..i] && shadow[i] == HashOf(FrameHash(sha), list.levels[..][i]);
      Assoc(prefix, LevelHashes(sha, shadow[..i]), LevelHash(sha, i, shadow[i]));
      bytes := bytes + LevelHash(sha, i, HashOf(FrameHash(sha), level));
    }
    assert shadow[..list.depth] == shadow;
    root := sha(bytes);
    RootIsReference(sha, list.sequence, list.levels[..]);
  }

  method ListContinuation(sha: Hash, list: List) returns (digest: Digest)
    requires list.Valid()
    ensures digest == Continuation(sha, ProfileHash(sha, list.depth), Shadow(FrameHash(sha), list.sequence, list.levels[..]).levels)
    ensures digest == ContinuationDigest(sha, Reference.Images(list.levels[..]))
  {
    hide ProfileHash, PendingEntry, FrameHash, ContinuationDigest, Reference.Images;
    var bytes: Bytes := CONTINUATION_DOMAIN + ProfileHash(sha, list.depth);
    ghost var prefix, shadow := bytes, Shadow(FrameHash(sha), list.sequence, list.levels[..]).levels;
    assert prefix + [] == prefix;
    for i := 0 to list.depth
      invariant bytes == prefix + PendingEntries(shadow[..i])
    {
      var next := list.levels[i].next;
      var hashed := if next.Some? then Some(FrameHash(sha)(next.value)) else None;
      assert shadow[..i + 1][..i] == shadow[..i] && shadow[i] == HashOf(FrameHash(sha), list.levels[..][i]);
      Assoc(prefix, PendingEntries(shadow[..i]), ToBig(4, i) + PendingEntry(hashed));
      bytes := bytes + (ToBig(4, i) + PendingEntry(hashed));
    }
    assert shadow[..list.depth] == shadow;
    digest := sha(bytes);
    RootIsReference(sha, list.sequence, list.levels[..]);
  }

  /** The engine commitment from the two hashing loops. */
  method ListDigest(sha: Hash, schema: Digest, list: List) returns (digest: Digest)
    requires list.Valid()
    ensures digest == ListCommitment(sha, schema, list.sequence, list.levels[..])
    ensures digest == DatabaseDigest(sha, schema, list.sequence, Reference.Images(list.levels[..]))
  {
    hide ProfileHash, FrameHash, Root, Continuation, DatabaseDigest, Reference.Images;
    DigestsAreReference(sha, schema, list.sequence, list.levels[..]);
    var root := ListRoot(sha, list);
    var continuation := ListContinuation(sha, list);
    digest := sha(DATABASE_DOMAIN + schema + ProfileHash(sha, list.depth) + ToBig(8, list.sequence) + root + continuation);
  }
}
