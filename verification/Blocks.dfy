/** The version-two block hash (tools/v2-vectors.py): greedy blocks over the
    framed record stream, reduced through a peak-structured Merkle tree. */
module Blocks {
  import opened Wire
  import opened Buckets
  import opened Frames
  import opened Digests

  const BLOCK_DOMAIN: Bytes := Ascii("bucketlist.block.v2") + [0]
  const NODE_DOMAIN: Bytes := Ascii("bucketlist.blocknode.v2") + [0]
  const EMPTY_DOMAIN: Bytes := Ascii("bucketlist.block.v2.empty") + [0]
  const BUCKET_DOMAIN: Bytes := Ascii("bucketlist.bucket.v2") + [0]

  // ----- greedy blocks -----------------------------------------------------

  /** A block closes as soon as its framed length reaches the target; the last
      may be shorter. `open` is the block under construction. */
  function Greedy(open: seq<Record>, rows: seq<Record>, target: nat): seq<seq<Record>>
    decreases |rows|
  {
    if rows == [] then (if open == [] then [] else [open])
    else if RowsSize(open + [rows[0]]) >= target then [open + [rows[0]]] + Greedy([], rows[1..], target)
    else Greedy(open + [rows[0]], rows[1..], target)
  }

  function CutBlocks(rows: seq<Record>, target: nat): seq<seq<Record>> { Greedy([], rows, target) }

  function Flatten(blocks: seq<seq<Record>>): seq<Record> {
    if blocks == [] then [] else blocks[0] + Flatten(blocks[1..])
  }

  /** Every block but the last has reached the target, and none would have
      without its final record. */
  predicate GreedyBlock(block: seq<Record>, last: bool, target: nat) {
    && block != []
    && (!last ==> RowsSize(block) >= target)
    && (|block| > 1 ==> RowsSize(block[..|block| - 1]) < target)
  }

  lemma OneRecordBlock(r: Record, last: bool, target: nat)
    requires RowsSize([] + [r]) >= target
    ensures GreedyBlock([] + [r], last, target)
  {
  }

  /** The block grown from an open one keeps its records in front and satisfies
      the greedy rule. */
  lemma {:induction false} FirstBlock(open: seq<Record>, rows: seq<Record>, target: nat)
    requires open != [] && RowsSize(open) < target
    requires |open| > 1 ==> RowsSize(open[..|open| - 1]) < target
    ensures var blocks := Greedy(open, rows, target); blocks != [] && GreedyBlock(blocks[0], |blocks| == 1, target)
    decreases |rows|
  {
    hide RowsSize;
    if rows != [] {
      var grown := open + [rows[0]];
      assert grown[..|grown| - 1] == open;
      if RowsSize(grown) < target { FirstBlock(grown, rows[1..], target); }
    }
  }

  lemma {:induction false} GreedyBlocks(open: seq<Record>, rows: seq<Record>, target: nat)
    requires open != [] ==> RowsSize(open) < target
    ensures Flatten(Greedy(open, rows, target)) == open + rows
    ensures forall i | 0 <= i < |Greedy(open, rows, target)| && (open != [] ==> i > 0) ::
              GreedyBlock(Greedy(open, rows, target)[i], i + 1 == |Greedy(open, rows, target)|, target)
    ensures open != [] && |open| + |rows| > 0 ==> Greedy(open, rows, target) != []
    decreases |rows|
  {
    hide RowsSize, GreedyBlock;
    if rows == [] {
      assert open + [] == open;
    } else {
      var r, rest := rows[0], rows[1..];
      var grown := open + [r];
      Assoc(open, [r], rest);
      assert rows == [r] + rest;
      if RowsSize(grown) >= target {
        GreedyBlocks([], rest, target);
        assert [] + rest == rest;
        var tail := Greedy([], rest, target);
        assert ([grown] + tail)[1..] == tail;
        if open == [] { assert GreedyBlock(grown, |tail| == 0, target) by { OneRecordBlock(r, |tail| == 0, target); } }
      } else {
        GreedyBlocks(grown, rest, target);
        if open == [] { FirstBlock(grown, rest, target); }
      }
    }
  }

  /** The greedy blocks are non-empty and concatenate back to the stream. */
  lemma BlocksAreStream(rows: seq<Record>, target: nat)
    ensures Flatten(CutBlocks(rows, target)) == rows
    ensures forall i | 0 <= i < |CutBlocks(rows, target)| ::
              GreedyBlock(CutBlocks(rows, target)[i], i + 1 == |CutBlocks(rows, target)|, target)
  {
    GreedyBlocks([], rows, target);
    assert [] + rows == rows;
  }

  lemma {:induction false} FlattenCount(blocks: seq<seq<Record>>)
    requires forall i | 0 <= i < |blocks| :: blocks[i] != []
    ensures |Flatten(blocks)| >= |blocks|
  {
    if blocks != [] { FlattenCount(blocks[1..]); }
  }

  // ----- the peak tree -----------------------------------------------------

  datatype Peak = Peak(span: nat, hash: Digest)

  function NodeInput(left: Digest, right: Digest): Bytes { NODE_DOMAIN + left + right }

  function Node(sha: Hash, left: Digest, right: Digest): Digest { sha(NodeInput(left, right)) }

  /** Merge the two rightmost peaks while their spans are equal. */
  function Settle(sha: Hash, peaks: seq<Peak>): seq<Peak>
    decreases |peaks|
  {
    var k := |peaks|;
    if k >= 2 && peaks[k - 1].span == peaks[k - 2].span then
      Settle(sha, peaks[..k - 2] + [Peak(2 * peaks[k - 2].span, Node(sha, peaks[k - 2].hash, peaks[k - 1].hash))])
    else peaks
  }

  function Peaks(sha: Hash, leaves: seq<Digest>): seq<Peak> {
    if leaves == [] then []
    else Settle(sha, Peaks(sha, leaves[..|leaves| - 1]) + [Peak(1, leaves[|leaves| - 1])])
  }

  function FoldPeaks(sha: Hash, peaks: seq<Peak>): Digest
    requires peaks != []
  {
    var k := |peaks| - 1;
    if k == 0 then peaks[0].hash else Node(sha, FoldPeaks(sha, peaks[..k]), peaks[k].hash)
  }

  // ----- an independent reading of the peaks -------------------------------

  /** The classic balanced tree over `Pow2(height)` leaves. */
  function Balanced(sha: Hash, leaves: seq<Digest>, height: nat): Digest
    requires |leaves| == Pow2(height)
  {
    if height == 0 then leaves[0]
    else
      var half := Pow2(height - 1);
      Node(sha, Balanced(sha, leaves[..half], height - 1), Balanced(sha, leaves[half..], height - 1))
  }

  /** The peaks are balanced trees over consecutive segments of the leaves, of the
      given heights, oldest first. */
  ghost predicate Over(sha: Hash, peaks: seq<Peak>, heights: seq<nat>, leaves: seq<Digest>)
    requires |peaks| == |heights|
  {
    var k := |peaks| - 1;
    if peaks == [] then leaves == []
    else
      var span := Pow2(heights[k]);
      && peaks[k].span == span <= |leaves|
      && peaks[k].hash == Balanced(sha, leaves[|leaves| - span..], heights[k])
      && Over(sha, peaks[..k], heights[..k], leaves[..|leaves| - span])
  }

  ghost predicate Decreasing(heights: seq<nat>) {
    forall i, j | 0 <= i < j < |heights| :: heights[i] > heights[j]
  }

  /** The heights left after carrying, as in adding one to a binary counter. */
  function Carry(heights: seq<nat>): seq<nat>
    decreases |heights|
  {
    var k := |heights|;
    if k >= 2 && heights[k - 1] == heights[k - 2] then Carry(heights[..k - 2] + [heights[k - 2] + 1]) else heights
  }

  /** The peak heights of `n` leaves: the set bits of `n`, highest first. */
  function Heights(n: nat): seq<nat> {
    if n == 0 then [] else Carry(Heights(n - 1) + [0])
  }

  function SumPow2(heights: seq<nat>): nat {
    if heights == [] then 0 else SumPow2(heights[..|heights| - 1]) + Pow2(heights[|heights| - 1])
  }

  lemma {:induction false} Pow2Injective(a: nat, b: nat)
    ensures Pow2(a) == Pow2(b) <==> a == b
    ensures Pow2(a) > 0
  {
    if a > 0 && b > 0 { Pow2Injective(a - 1, b - 1); }
    else if a > 0 { Pow2Injective(a - 1, 0); }
  }

  lemma SnocDecreasing(front: seq<nat>, x: nat)
    requires Decreasing(front) && (front != [] ==> front[|front| - 1] > x)
    ensures Decreasing(front + [x])
  {
  }

  lemma FrontDecreasing(front: seq<nat>, x: nat)
    requires Decreasing(front + [x])
    ensures Decreasing(front) && (front != [] ==> front[|front| - 1] > x)
  {
    var all := front + [x];
    forall i, j | 0 <= i < j < |front| ensures front[i] > front[j] { assert all[i] > all[j]; }
    if front != [] { assert all[|front| - 1] > all[|front|]; }
  }

  lemma Appended<T>(front: seq<T>, x: T)
    ensures (front + [x])[..|front|] == front && (front + [x])[|front|] == x
  {
  }

  lemma {:induction false} SumSnoc(front: seq<nat>, x: nat)
    ensures SumPow2(front + [x]) == SumPow2(front) + Pow2(x)
  {
    Appended(front, x);
  }

  lemma {:induction false} CarryDecreasing(front: seq<nat>, x: nat)
    requires Decreasing(front) && (front != [] ==> front[|front| - 1] >= x)
    ensures Decreasing(Carry(front + [x])) && SumPow2(Carry(front + [x])) == SumPow2(front) + Pow2(x)
    decreases |front|
  {
    hide SumPow2, Decreasing;
    SumSnoc(front, x);
    if front != [] && front[|front| - 1] == x {
      var rest := front[..|front| - 1];
      assert front == rest + [x];
      SumSnoc(rest, x);
      FrontDecreasing(rest, x);
      assert (front + [x])[..|front| - 1] == rest;
      CarryDecreasing(rest, x + 1);
    } else {
      SnocDecreasing(front, x);
    }
  }

  /** The peak spans are strictly decreasing powers of two that sum to the leaf
      count: its binary decomposition. */
  lemma {:induction false} HeightsAreBinary(n: nat)
    ensures Decreasing(Heights(n)) && SumPow2(Heights(n)) == n
  {
    if n > 0 {
      HeightsAreBinary(n - 1);
      CarryDecreasing(Heights(n - 1), 0);
    }
  }

  /** One more balanced tree on the right. */
  lemma OverSnoc(sha: Hash, peaks: seq<Peak>, heights: seq<nat>, leaves: seq<Digest>, height: nat)
    requires |peaks| == |heights| && Pow2(height) <= |leaves|
    requires Over(sha, peaks, heights, leaves[..|leaves| - Pow2(height)])
    ensures var last := Peak(Pow2(height), Balanced(sha, leaves[|leaves| - Pow2(height)..], height));
            Over(sha, peaks + [last], heights + [height], leaves)
  {
    hide Balanced, Pow2;
    Appended(peaks, Peak(Pow2(height), Balanced(sha, leaves[|leaves| - Pow2(height)..], height)));
    Appended(heights, height);
  }

  lemma {:induction false} MergePeaks(sha: Hash, peaks: seq<Peak>, heights: seq<nat>, leaves: seq<Digest>)
    requires |peaks| == |heights| >= 2 && Over(sha, peaks, heights, leaves)
    requires heights[|heights| - 1] == heights[|heights| - 2]
    ensures var k := |peaks|;
            Over(sha, peaks[..k - 2] + [Peak(2 * peaks[k - 2].span, Node(sha, peaks[k - 2].hash, peaks[k - 1].hash))],
                 heights[..k - 2] + [heights[k - 2] + 1], leaves)
  {
    hide Node;
    var k, n, h := |peaks|, |leaves|, heights[|heights| - 1];
    var span := Pow2(h);
    var left, pair := leaves[..n - span], leaves[n - 2 * span..];
    assert peaks[..k - 1][k - 2] == peaks[k - 2] && heights[..k - 1][k - 2] == h;
    assert peaks[..k - 1][..k - 2] == peaks[..k - 2] && heights[..k - 1][..k - 2] == heights[..k - 2];
    assert left[|left| - span..] == pair[..span];
    assert leaves[n - span..] == pair[span..];
    assert left[..|left| - span] == leaves[..n - 2 * span];
    assert Balanced(sha, pair, h + 1) == Node(sha, peaks[k - 2].hash, peaks[k - 1].hash);
    OverSnoc(sha, peaks[..k - 2], heights[..k - 2], leaves, h + 1);
  }

  lemma {:induction false} LastSpans(sha: Hash, peaks: seq<Peak>, heights: seq<nat>, leaves: seq<Digest>)
    requires |peaks| == |heights| >= 2 && Over(sha, peaks, heights, leaves)
    ensures var k := |peaks|; peaks[k - 1].span == Pow2(heights[k - 1]) && peaks[k - 2].span == Pow2(heights[k - 2])
  {
    hide Node, Balanced, Pow2;
    var k := |peaks|;
    assert peaks[..k - 1][k - 2] == peaks[k - 2] && heights[..k - 1][k - 2] == heights[k - 2];
  }

  lemma {:induction false} SettleOver(sha: Hash, peaks: seq<Peak>, heights: seq<nat>, leaves: seq<Digest>)
    requires |peaks| == |heights| && Over(sha, peaks, heights, leaves)
    ensures |Settle(sha, peaks)| == |Carry(heights)| && Over(sha, Settle(sha, peaks), Carry(heights), leaves)
    decreases |peaks|
  {
    hide Node, Balanced, Over, Pow2;
    var k := |peaks|;
    if k >= 2 {
      Pow2Injective(heights[k - 1], heights[k - 2]);
      LastSpans(sha, peaks, heights, leaves);
      if peaks[k - 1].span == peaks[k - 2].span {
        var merged := Peak(2 * peaks[k - 2].span, Node(sha, peaks[k - 2].hash, peaks[k - 1].hash));
        MergePeaks(sha, peaks, heights, leaves);
        SettleOver(sha, peaks[..k - 2] + [merged], heights[..k - 2] + [heights[k - 2] + 1], leaves);
      }
    }
  }

  lemma BalancedLeaf(sha: Hash, leaf: Digest)
    ensures Balanced(sha, [leaf], 0) == leaf && Pow2(0) == 1
  {
  }

  lemma {:induction false} AppendLeaf(sha: Hash, peaks: seq<Peak>, heights: seq<nat>, leaves: seq<Digest>)
    requires |peaks| == |heights| && leaves != [] && Over(sha, peaks, heights, leaves[..|leaves| - 1])
    ensures Over(sha, peaks + [Peak(1, leaves[|leaves| - 1])], heights + [0], leaves)
  {
    hide Over;
    var last := leaves[|leaves| - 1];
    assert leaves[|leaves| - 1..] == [last];
    BalancedLeaf(sha, last);
    OverSnoc(sha, peaks, heights, leaves, 0);
  }

  /** The peaks of any leaf list are the balanced trees of its binary segments,
      whatever the leaves are. */
  lemma {:induction false} PeaksAreBinary(sha: Hash, leaves: seq<Digest>)
    ensures |Peaks(sha, leaves)| == |Heights(|leaves|)|
    ensures Over(sha, Peaks(sha, leaves), Heights(|leaves|), leaves)
  {
    hide Balanced, Settle, Carry;
    if leaves != [] {
      var n := |leaves|;
      PeaksAreBinary(sha, leaves[..n - 1]);
      AppendLeaf(sha, Peaks(sha, leaves[..n - 1]), Heights(n - 1), leaves);
      SettleOver(sha, Peaks(sha, leaves[..n - 1]) + [Peak(1, leaves[n - 1])], Heights(n - 1) + [0], leaves);
    }
  }

  // ----- equal roots force equal leaves ------------------------------------

  /** The strings hashed for the nodes of a balanced tree. */
  ghost function BalancedInputs(sha: Hash, leaves: seq<Digest>, height: nat): set<Bytes>
    requires |leaves| == Pow2(height)
  {
    if height == 0 then {}
    else
      var left, right := leaves[..Pow2(height - 1)], leaves[Pow2(height - 1)..];
      BalancedInputs(sha, left, height - 1) + BalancedInputs(sha, right, height - 1)
      + {NodeInput(Balanced(sha, left, height - 1), Balanced(sha, right, height - 1))}
  }

  /** The strings hashed for the trees below the peaks. */
  ghost function PeakInputs(sha: Hash, heights: seq<nat>, leaves: seq<Digest>): set<Bytes> {
    var k := |heights| - 1;
    if heights == [] || Pow2(heights[k]) > |leaves| then {}
    else
      var cut := |leaves| - Pow2(heights[k]);
      PeakInputs(sha, heights[..k], leaves[..cut]) + BalancedInputs(sha, leaves[cut..], heights[k])
  }

  /** The strings hashed to fold the peaks into the root. */
  ghost function FoldInputs(sha: Hash, peaks: seq<Peak>): set<Bytes> {
    var k := |peaks| - 1;
    if k <= 0 then {} else FoldInputs(sha, peaks[..k]) + {NodeInput(FoldPeaks(sha, peaks[..k]), peaks[k].hash)}
  }

  /** Every string hashed to obtain the root of a non-empty leaf list. */
  ghost function TreeInputs(sha: Hash, leaves: seq<Digest>): set<Bytes> {
    PeakInputs(sha, Heights(|leaves|), leaves) + FoldInputs(sha, Peaks(sha, leaves))
  }

  lemma NodesForce(sha: Hash, hashed: set<Bytes>, a: Digest, b: Digest, c: Digest, d: Digest)
    requires Node(sha, a, b) == Node(sha, c, d) && {NodeInput(a, b), NodeInput(c, d)} <= hashed
    ensures (a == c && b == d) || Collision(sha, hashed)
  {
    EqualOrCollision(sha, hashed, NodeInput(a, b), NodeInput(c, d));
    if NODE_DOMAIN + a + b == NODE_DOMAIN + c + d {
      Unconcat(NODE_DOMAIN + a, NODE_DOMAIN + c, b, d);
      Unconcat(NODE_DOMAIN, NODE_DOMAIN, a, c);
    }
  }

  lemma {:induction false} BalancedForces(sha: Hash, hashed: set<Bytes>, a: seq<Digest>, b: seq<Digest>, height: nat)
    requires |a| == |b| == Pow2(height) && Balanced(sha, a, height) == Balanced(sha, b, height)
    requires BalancedInputs(sha, a, height) + BalancedInputs(sha, b, height) <= hashed
    ensures a == b || Collision(sha, hashed)
    decreases height
  {
    hide Node, NodeInput;
    if height > 0 {
      var half := Pow2(height - 1);
      NodesForce(sha, hashed, Balanced(sha, a[..half], height - 1), Balanced(sha, a[half..], height - 1),
                 Balanced(sha, b[..half], height - 1), Balanced(sha, b[half..], height - 1));
      if !Collision(sha, hashed) {
        BalancedForces(sha, hashed, a[..half], b[..half], height - 1);
        BalancedForces(sha, hashed, a[half..], b[half..], height - 1);
        Rejoin(a, half);
        Rejoin(b, half);
      }
    }
  }

  lemma {:induction false} FoldForces(sha: Hash, hashed: set<Bytes>, a: seq<Peak>, b: seq<Peak>)
    requires |a| == |b| > 0 && FoldPeaks(sha, a) == FoldPeaks(sha, b)
    requires FoldInputs(sha, a) + FoldInputs(sha, b) <= hashed
    ensures (forall i | 0 <= i < |a| :: a[i].hash == b[i].hash) || Collision(sha, hashed)
    decreases |a|
  {
    hide Node, NodeInput;
    var k := |a| - 1;
    if k > 0 {
      NodesForce(sha, hashed, FoldPeaks(sha, a[..k]), a[k].hash, FoldPeaks(sha, b[..k]), b[k].hash);
      if !Collision(sha, hashed) {
        FoldForces(sha, hashed, a[..k], b[..k]);
        forall i | 0 <= i < |a| ensures a[i].hash == b[i].hash {
          if i < k { assert a[..k][i].hash == b[..k][i].hash; }
        }
      }
    }
  }

  lemma {:induction false} OverForces(sha: Hash, hashed: set<Bytes>, p: seq<Peak>, q: seq<Peak>, heights: seq<nat>, a: seq<Digest>, b: seq<Digest>)
    requires |p| == |q| == |heights| && |a| == |b| && Over(sha, p, heights, a) && Over(sha, q, heights, b)
    requires forall i | 0 <= i < |p| :: p[i].hash == q[i].hash
    requires PeakInputs(sha, heights, a) + PeakInputs(sha, heights, b) <= hashed
    ensures a == b || Collision(sha, hashed)
    decreases |p|
  {
    hide Balanced, BalancedInputs;
    var k := |p| - 1;
    if k >= 0 {
      var cut := |a| - Pow2(heights[k]);
      BalancedForces(sha, hashed, a[cut..], b[cut..], heights[k]);
      forall i | 0 <= i < k ensures p[..k][i].hash == q[..k][i].hash {
        assert p[i].hash == q[i].hash;
      }
      OverForces(sha, hashed, p[..k], q[..k], heights[..k], a[..cut], b[..cut]);
      Rejoin(a, cut);
      Rejoin(b, cut);
    }
  }

  function TreeRoot(sha: Hash, leaves: seq<Digest>): Digest
    requires leaves != []
  {
    PeaksAreBinary(sha, leaves);
    HeightsAreBinary(|leaves|);
    FoldPeaks(sha, Peaks(sha, leaves))
  }

  lemma {:induction false} NonemptyHeights(n: nat)
    requires n > 0
    ensures Heights(n) != []
  {
    HeightsAreBinary(n);
  }

  /** The root spelled out: the balanced trees over the segments given by the
      heights, combined from the left. */
  function SegmentsRoot(sha: Hash, leaves: seq<Digest>, heights: seq<nat>): Digest
    requires heights != [] && SumPow2(heights) == |leaves|
    decreases |heights|
  {
    var k := |heights| - 1;
    var cut := |leaves| - Pow2(heights[k]);
    var last := Balanced(sha, leaves[cut..], heights[k]);
    if k == 0 then last else Node(sha, SegmentsRoot(sha, leaves[..cut], heights[..k]), last)
  }

  lemma {:induction false} FoldIsSegments(sha: Hash, peaks: seq<Peak>, heights: seq<nat>, leaves: seq<Digest>)
    requires |peaks| == |heights| > 0 && SumPow2(heights) == |leaves| && Over(sha, peaks, heights, leaves)
    ensures FoldPeaks(sha, peaks) == SegmentsRoot(sha, leaves, heights)
    decreases |peaks|
  {
    hide Node, Balanced, Pow2;
    var k := |peaks| - 1;
    if k > 0 { FoldIsSegments(sha, peaks[..k], heights[..k], leaves[..|leaves| - Pow2(heights[k])]); }
  }

  /** The root of any leaves folds the balanced trees of their binary segments from
      the left, largest first. */
  lemma {:induction false} RootIsSegments(sha: Hash, leaves: seq<Digest>)
    requires leaves != []
    ensures SumPow2(Heights(|leaves|)) == |leaves| && Heights(|leaves|) != []
    ensures TreeRoot(sha, leaves) == SegmentsRoot(sha, leaves, Heights(|leaves|))
  {
    hide FoldPeaks, SegmentsRoot, Peaks, Over, Heights;
    PeaksAreBinary(sha, leaves);
    HeightsAreBinary(|leaves|);
    NonemptyHeights(|leaves|);
    FoldIsSegments(sha, Peaks(sha, leaves), Heights(|leaves|), leaves);
  }

  /** Equal roots over equal leaf counts have equal leaves, unless two of the tree
      nodes collide. */
  lemma RootsForceLeaves(sha: Hash, hashed: set<Bytes>, a: seq<Digest>, b: seq<Digest>)
    requires |a| == |b| > 0 && TreeRoot(sha, a) == TreeRoot(sha, b) && TreeInputs(sha, a) + TreeInputs(sha, b) <= hashed
    ensures a == b || Collision(sha, hashed)
  {
    hide FoldPeaks, Peaks, Over, Heights, FoldInputs, PeakInputs;
    PeaksAreBinary(sha, a);
    PeaksAreBinary(sha, b);
    HeightsAreBinary(|a|);
    assert Peaks(sha, a) != [] by { NonemptyHeights(|a|); }
    FoldForces(sha, hashed, Peaks(sha, a), Peaks(sha, b));
    if !Collision(sha, hashed) { OverForces(sha, hashed, Peaks(sha, a), Peaks(sha, b), Heights(|a|), a, b); }
  }

  // ----- the bucket hash ---------------------------------------------------

  function BlockInput(index: nat, block: seq<Record>): Bytes { BLOCK_DOMAIN + ToBig(8, index) + FrameRows(block) }

  function BlockHash(sha: Hash, index: nat, block: seq<Record>): Digest { sha(BlockInput(index, block)) }

  function BlockHashes(sha: Hash, blocks: seq<seq<Record>>): (hashes: seq<Digest>)
    ensures |hashes| == |blocks|
  {
    seq(|blocks|, i requires 0 <= i < |blocks| => BlockHash(sha, i, blocks[i]))
  }

  function BlockRoot(sha: Hash, blocks: seq<seq<Record>>): Digest {
    if blocks == [] then sha(EMPTY_DOMAIN) else TreeRoot(sha, BlockHashes(sha, blocks))
  }

  function BucketInput(sha: Hash, count: nat, blocks: seq<seq<Record>>): Bytes {
    BUCKET_DOMAIN + ToBig(8, count) + ToBig(8, |blocks|) + BlockRoot(sha, blocks)
  }

  function BucketHash(sha: Hash, rows: seq<Record>, target: nat): Digest { sha(BucketInput(sha, |rows|, CutBlocks(rows, target))) }

  ghost function BlockInputs(blocks: seq<seq<Record>>): set<Bytes> { set i | 0 <= i < |blocks| :: BlockInput(i, blocks[i]) }

  /** Every string hashed to obtain a bucket hash: the header, the blocks and the
      nodes of the tree over them. */
  ghost function BucketInputs(sha: Hash, rows: seq<Record>, target: nat): set<Bytes> {
    var blocks := CutBlocks(rows, target);
    {BucketInput(sha, |rows|, blocks)} + BlockInputs(blocks) + TreeInputs(sha, BlockHashes(sha, blocks))
  }

  /** The record lists the model's fixed-width integers can frame. */
  ghost predicate Framable(rows: seq<Record>) {
    (forall r | r in rows :: Fits(r)) && |rows| < U64_LIMIT
  }

  lemma {:induction false} FlattenFrames(a: seq<seq<Record>>, b: seq<seq<Record>>)
    requires |a| == |b| && forall i | 0 <= i < |a| :: FrameRows(a[i]) == FrameRows(b[i])
    ensures FrameRows(Flatten(a)) == FrameRows(Flatten(b))
  {
    hide FrameRows;
    if a != [] {
      forall i | 0 <= i < |a| - 1 ensures FrameRows(a[1..][i]) == FrameRows(b[1..][i]) {
        assert FrameRows(a[i + 1]) == FrameRows(b[i + 1]);
      }
      FlattenFrames(a[1..], b[1..]);
      FrameRowsConcat(a[0], Flatten(a[1..]));
      FrameRowsConcat(b[0], Flatten(b[1..]));
    }
  }

  lemma {:induction false} BlockHashForces(sha: Hash, hashed: set<Bytes>, i: nat, a: seq<Record>, b: seq<Record>)
    requires BlockHash(sha, i, a) == BlockHash(sha, i, b) && {BlockInput(i, a), BlockInput(i, b)} <= hashed
    ensures FrameRows(a) == FrameRows(b) || Collision(sha, hashed)
  {
    hide FrameRows;
    var prefix := BLOCK_DOMAIN + ToBig(8, i);
    EqualOrCollision(sha, hashed, BlockInput(i, a), BlockInput(i, b));
    if prefix + FrameRows(a) == prefix + FrameRows(b) { Unconcat(prefix, prefix, FrameRows(a), FrameRows(b)); }
  }

  lemma {:induction false} HeadersForce(sha: Hash, hashed: set<Bytes>, a: nat, p: seq<seq<Record>>, c: nat, q: seq<seq<Record>>)
    requires a < U64_LIMIT && |p| < U64_LIMIT && c < U64_LIMIT && |q| < U64_LIMIT
    requires sha(BucketInput(sha, a, p)) == sha(BucketInput(sha, c, q)) && {BucketInput(sha, a, p), BucketInput(sha, c, q)} <= hashed
    ensures (a == c && |p| == |q| && BlockRoot(sha, p) == BlockRoot(sha, q)) || Collision(sha, hashed)
  {
    hide ToBig, BlockRoot;
    var x, y := BUCKET_DOMAIN + ToBig(8, a), BUCKET_DOMAIN + ToBig(8, c);
    EqualOrCollision(sha, hashed, BucketInput(sha, a, p), BucketInput(sha, c, q));
    if !Collision(sha, hashed) {
      Unconcat(x + ToBig(8, |p|), y + ToBig(8, |q|), BlockRoot(sha, p), BlockRoot(sha, q));
      Unconcat(x, y, ToBig(8, |p|), ToBig(8, |q|));
      Unconcat(BUCKET_DOMAIN, BUCKET_DOMAIN, ToBig(8, a), ToBig(8, c));
      PowerValues();
      ToBigInjective(8, a, c);
      ToBigInjective(8, |p|, |q|);
    }
  }

  lemma {:induction false} BlocksForce(sha: Hash, hashed: set<Bytes>, p: seq<seq<Record>>, q: seq<seq<Record>>)
    requires BlockHashes(sha, p) == BlockHashes(sha, q) && BlockInputs(p) + BlockInputs(q) <= hashed && !Collision(sha, hashed)
    ensures |p| == |q| && forall i | 0 <= i < |p| :: FrameRows(p[i]) == FrameRows(q[i])
  {
    hide FrameRows, BlockInput, Collision;
    assert |BlockHashes(sha, p)| == |BlockHashes(sha, q)|;
    forall i | 0 <= i < |p| ensures FrameRows(p[i]) == FrameRows(q[i]) {
      assert BlockHashes(sha, p)[i] == BlockHashes(sha, q)[i];
      assert BlockInput(i, p[i]) in BlockInputs(p) && BlockInput(i, q[i]) in BlockInputs(q);
      BlockHashForces(sha, hashed, i, p[i], q[i]);
    }
  }

  /** The bucket hash determines the record list: two framable lists with one hash
      are equal, or two of the strings hashed to obtain those hashes collide. */
  lemma BucketHashInjective(sha: Hash, a: seq<Record>, b: seq<Record>, target: nat)
    requires Framable(a) && Framable(b) && BucketHash(sha, a, target) == BucketHash(sha, b, target)
    ensures a == b || Collision(sha, BucketInputs(sha, a, target) + BucketInputs(sha, b, target))
  {
    hide FrameRows, RowsSize, TreeRoot, CutBlocks, ToBig, TreeInputs, BlockInputs, Collision, BucketInput;
    var hashed := BucketInputs(sha, a, target) + BucketInputs(sha, b, target);
    var p, q := CutBlocks(a, target), CutBlocks(b, target);
    BlocksAreStream(a, target);
    BlocksAreStream(b, target);
    FlattenCount(p);
    FlattenCount(q);
    HeadersForce(sha, hashed, |a|, p, |b|, q);
    if !Collision(sha, hashed) {
      if p != [] { RootsForceLeaves(sha, hashed, BlockHashes(sha, p), BlockHashes(sha, q)); }
      BlocksForce(sha, hashed, p, q);
      FlattenFrames(p, q);
      FrameRowsInjective(a, b);
    }
  }

  // ----- the executable model ----------------------------------------------

  method FoldLeft(sha: Hash, peaks: seq<Peak>) returns (root: Digest)
    requires peaks != []
    ensures root == FoldPeaks(sha, peaks)
  {
    root := peaks[0].hash;
    for i := 1 to |peaks|
      invariant root == FoldPeaks(sha, peaks[..i])
    {
      assert peaks[..i + 1][..i] == peaks[..i];
      root := Node(sha, root, peaks[i].hash);
    }
    assert peaks[..|peaks|] == peaks;
  }

  method ComputeTreeRoot(sha: Hash, leaves: seq<Digest>) returns (root: Digest)
    requires leaves != []
    ensures root == TreeRoot(sha, leaves)
  {
    hide FoldPeaks, Node, Over;
    var peaks: seq<Peak> := [];
    for n := 0 to |leaves|
      invariant peaks == Peaks(sha, leaves[..n])
    {
      assert leaves[..n + 1][..n] == leaves[..n];
      peaks := peaks + [Peak(1, leaves[n])];
      while |peaks| >= 2 && peaks[|peaks| - 1].span == peaks[|peaks| - 2].span
        invariant Settle(sha, peaks) == Peaks(sha, leaves[..n + 1])
        decreases |peaks|
      {
        var k := |peaks|;
        peaks := peaks[..k - 2] + [Peak(2 * peaks[k - 2].span, Node(sha, peaks[k - 2].hash, peaks[k - 1].hash))];
      }
    }
    assert leaves[..|leaves|] == leaves;
    PeaksAreBinary(sha, leaves);
    NonemptyHeights(|leaves|);
    root := FoldLeft(sha, peaks);
  }

  lemma EmptySize()
    ensures RowsSize([]) == 0 && FrameRows([]) == []
  {
  }

  lemma Close(sha: Hash, done: seq<seq<Record>>, block: seq<Record>)
    ensures BlockHashes(sha, done + [block]) == BlockHashes(sha, done) + [BlockHash(sha, |done|, block)]
  {
    hide FrameRows;
  }

  method ComputeBucketHash(sha: Hash, rows: seq<Record>, target: nat) returns (digest: Digest)
    ensures digest == BucketHash(sha, rows, target)
  {
    hide FrameRows, RowsSize, TreeRoot;
    var hashes: seq<Digest> := [];
    var current: Bytes := [];
    var length: nat := 0;
    ghost var open: seq<Record> := [];
    ghost var done: seq<seq<Record>> := [];
    EmptySize();
    for i := 0 to |rows|
      invariant CutBlocks(rows, target) == done + Greedy(open, rows[i..], target)
      invariant current == FrameRows(open) && length == RowsSize(open) && (length == 0 <==> open == [])
      invariant hashes == BlockHashes(sha, done)
    {
      TakeGrows(rows, i);
      RowsSnoc(open, rows[i]);
      current := current + FrameRecord(rows[i]);
      length := length + RowSize(rows[i]);
      open := open + [rows[i]];
      if length >= target {
        hashes := hashes + [sha(BLOCK_DOMAIN + ToBig(8, |hashes|) + current)];
        Close(sha, done, open);
        Assoc(done, [open], Greedy([], rows[i + 1..], target));
        current, length, done, open := [], 0, done + [open], [];
        EmptySize();
      }
    }
    assert rows[|rows|..] == [];
    if length > 0 {
      hashes := hashes + [sha(BLOCK_DOMAIN + ToBig(8, |hashes|) + current)];
      Close(sha, done, open);
      done := done + [open];
    }
    assert done == CutBlocks(rows, target);
    var root: Digest;
    if |hashes| == 0 { root := sha(EMPTY_DOMAIN); } else { root := ComputeTreeRoot(sha, hashes); }
    digest := sha(BUCKET_DOMAIN + ToBig(8, |rows|) + ToBig(8, |hashes|) + root);
  }
}
