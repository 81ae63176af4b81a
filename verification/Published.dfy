/** The published formats against the model: the checkpoint layout of
    docs/format.md:65-92, the literal vectors of docs/encoding.md:139-176,
    docs/structure.md:38-45 and the source tests, and the block tree of
    docs/format-v2.md:38-59 on small leaf counts. */
module Published {
  import opened Wire
  import opened Buckets
  import opened Lists
  import opened Digests
  import opened Codecs
  import opened ReferenceDigests
  import Blocks
  import Checkpoints
  import Commitments
  import Frames
  import Reference

  // ----- the checkpoint layout ---------------------------------------------

  function Counted(frame: Bytes): Bytes { Packed64(|frame|) + frame }

  /** One level: current, snapshot, and the pending output behind a presence byte. */
  ghost function LevelText(level: Reference.MapLevel): Bytes {
    Counted(EncodeDictionary(level.curr)) + Counted(EncodeDictionary(level.snap))
    + match level.next case None => [0] case Some(rows) => [1] + Counted(EncodeDictionary(rows))
  }

  ghost function LevelTexts(levels: seq<Reference.MapLevel>): seq<Bytes> {
    seq(|levels|, i requires 0 <= i < |levels| => LevelText(levels[i]))
  }

  /** A checkpoint as documented, over the dictionaries of the reference model. */
  ghost function CheckpointText(sha: Hash, schema: Digest, sequence: nat, levels: seq<Reference.MapLevel>): Bytes {
    Tag("bucketlist.checkpoint.v1") + schema + Profile(sha, |levels|) + Packed64(sequence) + Joined(LevelTexts(levels))
  }

  lemma {:induction false} LevelIsText(level: Level)
    ensures Checkpoints.PutLevel(level) == LevelText(Reference.Image(level))
  {
    hide View, EncodeDictionary, Frames.EncodeFrame, ToBig;
    Commitments.DictionaryIsFrame(level.curr);
    Commitments.DictionaryIsFrame(level.snap);
    if level.next.Some? { Commitments.DictionaryIsFrame(level.next.value); }
    Assoc(Checkpoints.PutBucket(level.curr), Checkpoints.PutBucket(level.snap), Checkpoints.PutPending(level.next));
  }

  lemma {:induction false} LevelsAreText(levels: seq<Level>)
    ensures Checkpoints.PutLevels(levels) == Joined(LevelTexts(Reference.Images(levels)))
  {
    hide Checkpoints.PutLevel, LevelText, Reference.Image;
    if levels != [] {
      LevelIsText(levels[0]);
      LevelsAreText(levels[1..]);
      assert Reference.Images(levels)[0] == Reference.Image(levels[0]);
      assert LevelTexts(Reference.Images(levels))[1..] == LevelTexts(Reference.Images(levels[1..]));
    }
  }

  lemma CheckpointTag()
    ensures Checkpoints.MAGIC == Tag("bucketlist.checkpoint.v1")
  {
  }

  /** Every checkpoint has the documented bytes. */
  lemma {:induction false} CheckpointIsText(sha: Hash, schema: Digest, n: U64, levels: seq<Level>)
    ensures Checkpoints.Checkpoint(sha, schema, n, levels) == CheckpointText(sha, schema, n, Reference.Images(levels))
  {
    hide Checkpoints.PutLevels, LevelTexts, Joined, Tag, ToBig;
    CheckpointTag();
    Commitments.SameTags();
    LevelsAreText(levels);
  }

  // ----- record encodings --------------------------------------------------

  /** The value is encodable at this shape, as exactly these bytes. */
  ghost predicate Writes(shape: Shape, v: Value, s: Bytes) { Encodes(shape, v) && Encode(shape, v) == s }

  lemma SmallVectors()
    ensures Writes(IntShape(2, true), IntValue(-1), [0x7f, 0xff]) && Writes(IntShape(2, true), IntValue(-2), [0x7f, 0xfe])
    ensures Writes(IntShape(1, false), IntValue(0xab), [0xab]) && Writes(IntShape(1, false), IntValue(0xcd), [0xcd])
  {
    PowerValues();
  }

  lemma BoundaryVectors()
    ensures Writes(IntShape(2, true), IntValue(-0x8000), [0x00, 0x00])
    ensures Writes(IntShape(2, true), IntValue(0), [0x80, 0x00]) && Writes(IntShape(2, true), IntValue(0x7fff), [0xff, 0xff])
  {
    PowerValues();
  }

  lemma {:induction false} LowByte(width: nat, v: nat)
    requires width > 0 && v < 256
    ensures ToBig(width, v) == Zeros(width - 1) + [v]
  {
    if width > 1 { LowByte(width - 1, 0); }
  }

  lemma LongVector()
    ensures Writes(IntShape(8, true), IntValue(-0x8000_0000_0000_0000), Zeros(7) + [0])
  {
    hide ToBig;
    PowerValues();
    LowByte(8, 0);
  }

  lemma {:induction false} LeafVectors()
    ensures Writes(BoolShape, BoolValue(false), [0]) && Writes(BoolShape, BoolValue(true), [1])
    ensures Writes(EnumShape(2, {2, 400}), EnumValue(400), [0x01, 0x90])
    ensures Writes(BytesShape(8), BytesValue(0, Zeros(8)), [0, 0, 0, 0])
    ensures Writes(BytesShape(8), BytesValue(3, [0x63, 0x61, 0x74, 0, 0, 0, 0, 0]), [0, 0, 0, 3, 0x63, 0x61, 0x74])
  {
    PowerValues();
    assert [0x63, 0x61, 0x74, 0, 0, 0, 0, 0][..3] == [0x63, 0x61, 0x74];
  }

  const RECORD := StructShape([BoolShape, IntShape(2, true), BytesShape(8), EnumShape(2, {2, 400}), ArrayShape(2, IntShape(1, false))])

  lemma NothingJoined()
    ensures Joined([]) == []
  {
  }

  lemma {:induction false} JoinedCons(first: Bytes, rest: seq<Bytes>)
    ensures Joined([first] + rest) == first + Joined(rest)
  {
    assert ([first] + rest)[1..] == rest;
  }

  lemma JoinedFive(a: Bytes, b: Bytes, c: Bytes, d: Bytes, e: Bytes)
    ensures Joined([d, e]) == d + e
    ensures Joined([a, b, c, d, e]) == a + (b + (c + (d + e)))
  {
    hide Joined;
    JoinedCons(e, []);
    JoinedCons(d, [e]);
    JoinedCons(c, [d, e]);
    JoinedCons(b, [c, d, e]);
    JoinedCons(a, [b, c, d, e]);
    assert [e] + [] == [e] && [d] + [e] == [d, e] && [c] + [d, e] == [c, d, e] && [b] + [c, d, e] == [b, c, d, e];
    assert [a] + [b, c, d, e] == [a, b, c, d, e];
    NothingJoined();
  }

  /** A composite writes the encodings of its parts one after another. */
  lemma {:induction false} PartsWrite(owner: Shape, shapes: seq<Shape>, vs: seq<Value>, parts: seq<Bytes>)
    requires |shapes| == |vs| == |parts| && forall i | 0 <= i < |shapes| :: shapes[i] < owner
    requires forall i | 0 <= i < |shapes| :: Writes(shapes[i], vs[i], parts[i])
    ensures EncodesAll(shapes, vs) && EncodeAll(owner, shapes, vs) == Joined(parts)
  {
    hide Encode, Encodes;
    if shapes != [] {
      forall i | 0 <= i < |shapes[1..]| ensures Writes(shapes[1..][i], vs[1..][i], parts[1..][i]) {
        assert Writes(shapes[i + 1], vs[i + 1], parts[i + 1]);
      }
      PartsWrite(owner, shapes[1..], vs[1..], parts[1..]);
    }
  }

  /** So does a composite value of any supported array or struct. */
  lemma {:induction false} CompositeWrites(shape: Shape, vs: seq<Value>, parts: seq<Bytes>)
    requires Supported(shape) && (shape.ArrayShape? || shape.StructShape?) && |Parts(shape)| == |vs| == |parts|
    requires forall i | 0 <= i < |vs| :: Writes(Parts(shape)[i], vs[i], parts[i])
    ensures Writes(shape, Composite(vs), Joined(parts))
  {
    hide Encodes;
    PartsWrite(shape, Parts(shape), vs, parts);
    CompositeEncodes(shape, Composite(vs));
  }

  lemma {:induction false} FiveFields(vs: seq<Value>, a: Bytes, b: Bytes, c: Bytes, d: Bytes, e: Bytes)
    requires |vs| == 5 && Writes(BoolShape, vs[0], a) && Writes(IntShape(2, true), vs[1], b) && Writes(BytesShape(8), vs[2], c)
    requires Writes(EnumShape(2, {2, 400}), vs[3], d) && Writes(ArrayShape(2, IntShape(1, false)), vs[4], e)
    ensures Writes(RECORD, Composite(vs), a + (b + (c + (d + e))))
  {
    hide Writes, Joined;
    PowerValues();
    JoinedFive(a, b, c, d, e);
    CompositeWrites(RECORD, vs, [a, b, c, d, e]);
  }

  lemma {:induction false} TailVector()
    ensures Writes(ArrayShape(2, IntShape(1, false)), Composite([IntValue(0xab), IntValue(0xcd)]), [0xab] + [0xcd])
  {
    hide Encode, Encodes, Joined;
    SmallVectors();
    JoinedFive([], [], [], [0xab], [0xcd]);
    CompositeWrites(ArrayShape(2, IntShape(1, false)), [IntValue(0xab), IntValue(0xcd)], [[0xab], [0xcd]]);
  }

  /** The documented record of five fields, each in its own bytes. */
  lemma {:induction false} RecordVector()
    ensures Writes(RECORD, Composite([BoolValue(true), IntValue(-2), BytesValue(3, [0x63, 0x61, 0x74, 0, 0, 0, 0, 0]), EnumValue(400),
                                      Composite([IntValue(0xab), IntValue(0xcd)])]),
                   [0x01] + ([0x7f, 0xfe] + ([0x00, 0x00, 0x00, 0x03, 0x63, 0x61, 0x74] + ([0x01, 0x90] + ([0xab] + [0xcd])))))
  {
    hide Writes, Joined;
    SmallVectors();
    LeafVectors();
    TailVector();
    FiveFields([BoolValue(true), IntValue(-2), BytesValue(3, [0x63, 0x61, 0x74, 0, 0, 0, 0, 0]), EnumValue(400), Composite([IntValue(0xab), IntValue(0xcd)])],
               [0x01], [0x7f, 0xfe], [0x00, 0x00, 0x00, 0x03, 0x63, 0x61, 0x74], [0x01, 0x90], [0xab] + [0xcd]);
  }

  /** Bytes no decoder may accept whole. */
  predicate Refuses(shape: Shape, s: Bytes) {
    match Decode(shape, s) case None => true case Some((_, rest)) => rest != []
  }

  lemma {:induction false} RefusedVectors()
    ensures Refuses(BoolShape, [2]) && Refuses(EnumShape(1, {1, 4}), [2])
    ensures Refuses(IntShape(2, false), [1]) && Refuses(IntShape(2, false), [0, 1, 2])
    ensures Refuses(BytesShape(4), [0, 0, 0, 5, 1, 2, 3, 4, 5]) && Refuses(BytesShape(4), [0, 0, 0, 3, 1, 2]) && Refuses(BytesShape(4), [0, 0, 0, 0, 1])
  {
    PowerValues();
  }

  // ----- bucket frames -----------------------------------------------------

  /** Rows given as literal bytes. */
  ghost predicate FramedAs(rows: seq<Record>, count: Bytes, bytes: Bytes) {
    Frames.EncodeFrame(rows) == Tag("bucketlist.bucket.v1") + count + bytes
  }

  lemma {:induction false} FrameVectors()
    ensures FramedAs([], [0, 0, 0, 0, 0, 0, 0, 0], [])
    ensures FramedAs([Record(7, [0x6b], Some([0x76]))], [0, 0, 0, 0, 0, 0, 0, 1], [0, 0, 0, 7, 0, 0, 0, 1, 0x6b, 1, 0, 0, 0, 1, 0x76])
    ensures FramedAs([Record(7, [0x6b], None)], [0, 0, 0, 0, 0, 0, 0, 1], [0, 0, 0, 7, 0, 0, 0, 1, 0x6b, 0])
  {
    hide ToBig, Tag;
    Commitments.SameTags();
    LowByte(4, 1);
    LowByte(4, 7);
    LowByte(8, 0);
    LowByte(8, 1);
    var put, deletion := Record(7, [0x6b], Some([0x76])), Record(7, [0x6b], None);
    assert [put][1..] == [] && [deletion][1..] == [];
    assert Frames.FrameRecord(put) == [0, 0, 0, 7, 0, 0, 0, 1, 0x6b, 1, 0, 0, 0, 1, 0x76];
    assert Frames.FrameRecord(deletion) == [0, 0, 0, 7, 0, 0, 0, 1, 0x6b, 0];
  }

  // ----- the block hash ----------------------------------------------------

  function NodeOf(sha: Hash, left: Digest, right: Digest): Digest { sha(Tag("bucketlist.blocknode.v2") + left + right) }

  lemma BlockTags()
    ensures Blocks.NODE_DOMAIN == Tag("bucketlist.blocknode.v2") && Blocks.BLOCK_DOMAIN == Tag("bucketlist.block.v2")
    ensures Blocks.EMPTY_DOMAIN == Tag("bucketlist.block.v2.empty") && Blocks.BUCKET_DOMAIN == Tag("bucketlist.bucket.v2")
  {
  }

  lemma SmallHeights()
    ensures Blocks.Heights(1) == [0] && Blocks.Heights(2) == [1] && Blocks.Heights(3) == [1, 0]
  {
    assert Blocks.Heights(1) == Blocks.Carry([] + [0]) == [0];
    assert Blocks.Heights(2) == Blocks.Carry([0] + [0]) == Blocks.Carry([0, 0][..0] + [1]) == [1];
    assert Blocks.Heights(3) == Blocks.Carry([1] + [0]) == [1, 0];
  }

  lemma SmallTrees(sha: Hash, a: Digest, b: Digest)
    ensures Pow2(0) == 1 && Pow2(1) == 2
    ensures Blocks.Balanced(sha, [a], 0) == a && Blocks.Balanced(sha, [a, b], 1) == NodeOf(sha, a, b)
  {
    hide Tag;
    BlockTags();
    assert [a, b][..1] == [a] && [a, b][1..] == [b];
  }

  lemma SmallRoots(sha: Hash, a: Digest, b: Digest, c: Digest)
    requires Blocks.SumPow2([0]) == 1 && Blocks.SumPow2([1]) == 2 && Blocks.SumPow2([1, 0]) == 3
    ensures Blocks.SegmentsRoot(sha, [a], [0]) == a && Blocks.SegmentsRoot(sha, [a, b], [1]) == NodeOf(sha, a, b)
    ensures Blocks.SegmentsRoot(sha, [a, b, c], [1, 0]) == NodeOf(sha, NodeOf(sha, a, b), c)
  {
    hide Tag, Blocks.Balanced, Pow2;
    BlockTags();
    SmallTrees(sha, a, b);
    SmallTrees(sha, c, b);
    assert [a][0..] == [a] && [a, b][0..] == [a, b];
    assert [a, b, c][..2] == [a, b] && [a, b, c][2..] == [c] && [1, 0][..1] == [1];
  }

  /** One leaf is its own root, two make a node, and a third stands on its right. */
  lemma {:induction false} TreeVectors(sha: Hash, a: Digest, b: Digest, c: Digest)
    ensures Blocks.TreeRoot(sha, [a]) == a && Blocks.TreeRoot(sha, [a, b]) == NodeOf(sha, a, b)
    ensures Blocks.TreeRoot(sha, [a, b, c]) == NodeOf(sha, NodeOf(sha, a, b), c)
  {
    hide Blocks.TreeRoot, Blocks.Heights, Blocks.SegmentsRoot, NodeOf;
    SmallHeights();
    Blocks.RootIsSegments(sha, [a]);
    Blocks.RootIsSegments(sha, [a, b]);
    Blocks.RootIsSegments(sha, [a, b, c]);
    SmallRoots(sha, a, b, c);
  }

  function BlockText(sha: Hash, i: nat, block: seq<Record>): Digest {
    sha(Tag("bucketlist.block.v2") + Packed64(i) + Joined(seq(|block|, j requires 0 <= j < |block| => EncodeItem(block[j]))))
  }

  function BucketText(sha: Hash, records: nat, blocks: seq<seq<Record>>): Digest {
    sha(Tag("bucketlist.bucket.v2") + Packed64(records) + Packed64(|blocks|)
        + if blocks == [] then sha(Tag("bucketlist.block.v2.empty"))
          else Blocks.TreeRoot(sha, seq(|blocks|, i requires 0 <= i < |blocks| => BlockText(sha, i, blocks[i]))))
  }

  /** The bucket hash as documented, over the greedy blocks of the records. */
  lemma {:induction false} BucketIsText(sha: Hash, rows: seq<Record>, target: nat)
    ensures Blocks.BucketHash(sha, rows, target) == BucketText(sha, |rows|, Blocks.CutBlocks(rows, target))
  {
    hide Blocks.TreeRoot, Blocks.CutBlocks, ToBig, Tag, Joined, Frames.FrameRows, EncodeItem;
    BlockTags();
    var blocks := Blocks.CutBlocks(rows, target);
    forall i | 0 <= i < |blocks| ensures BlockText(sha, i, blocks[i]) == Blocks.BlockHash(sha, i, blocks[i]) {
      Commitments.ItemsAreRows(blocks[i]);
    }
    assert seq(|blocks|, i requires 0 <= i < |blocks| => BlockText(sha, i, blocks[i])) == Blocks.BlockHashes(sha, blocks);
  }
}
