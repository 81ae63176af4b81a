# A Dafny model of bucketlist-zig

This project models, in Dafny, a deterministic factor-four log-structured
database: a "bucket list" of sorted immutable buckets whose merges are scheduled
by the sequence number alone and become visible one spill later than they are
started. It covers five cores of the repository and proves what each promises.

* **Scheduler and reads** (`Schedule`, `Lists`, `History`, `Engines`, `Reference`). One
  advance, run in place in the descending loop order, keeps the topology that
  `validate` accepts, from any accepted state, and reads back as the batch over
  the old values. Over any history of any depth reads are those of the last-writer
  map, every readable bucket is pinned to a closed interval of the history, the
  intervals partition it, and the merge work is known. Accepted levels are exactly
  those some history of that length ends in. The Python model with its explicit
  lookahead computes the same state.
* **Planner and commitments** (`Frontiers`, `Digests`, `ReferenceDigests`,
  `Commitments`). The
  hash-only planner refines the list: its jobs read only the base, the empty bucket
  and the fresh batch, may run in any order, and complete to the image of the step.
  Equal database digests force equal sequence, topology and pending work, or exhibit
  two different strings, among those the two commitments hash, with one digest.
* **Fast forms over the levels** (`Slots`, `Staging`, `Normalizing`, `Cursors`,
  `Scans`, `Databases`, `Ranges`, `Checkpoints`, `Sources`, `Stores`, `Owners`). The
  merge-join filter, the k-way scan and the portable iterator each equal a
  definition on effect maps. Covering runs of range proofs are complete. A
  checkpoint restores exactly, from bytes and from frames supplied one by one. The
  disk owner is a state machine over prepare, publish (with its two ambiguous
  failures), abort, pin, unpin, collect and reopen, and the class `Owner` takes its
  steps.
* **Background host** (`Hosts`, `Publications`). A ring buffer, any number of
  submitters and waiters, one worker and one shared condition variable, as a state
  machine over critical sections; the class `BoundedHost` takes its steps. Joined
  with the disk owner, a wait that returned promises a batch that is still read
  after any later failure and a reopening.
* **Encodings** (`Wire`, `Buckets`, `Frames`, `Codecs`, `Blocks`, `Operations`,
  `Published`). Frames and typed values decode exactly what was encoded, typed
  encodings keep structural order, and the block-tree hash of a record stream
  determines it up to a hash collision. Frames, digests, checkpoints, block hashes
  and record encodings are those that the Python models and the documentation spell
  out, written down a second time in their own terms.

Conventions. A bucket is a strictly sorted `seq<Record>`, and `View` is its map from
identity to effect, where `None` is a tombstone. `Get` reads a level sequence and
`Accepts(n, levels)` is the accepted topology at sequence `n`. Integers are
unbounded; 32- and 64-bit limits are written where the source has them. The hash
function is a parameter: over bytes no injectivity is assumed, and conclusions end
in `|| Collision(sha, S)`, two different members of the finite set `S` of strings
actually hashed with one digest. Where a blob's name stands for its content
(`Frontiers`, `Stores`, `Owners`) the naming is assumed injective. Failures of
allocation, of the store and of publication are parameters (`memory`, `writes`,
`outcome`) that range over every result. A method that changes state states its whole
new state through a specification function or a step of a state machine; what the
source promises is proved of that function or machine.

The comment at src/list.zig:174 says the depth bound keeps the lookahead in 64 bits.
For the interval itself it does (`Schedule.HalfIsShift`); the explicit lookahead that
the quarter test stands for reaches 2^64 once the sequence enters the last interval of
the range, and exactly then (`Schedule.LookaheadOverflows`, `Schedule.LookaheadFits`).
The quarter test never computes it, and `Schedule.QuarterTestIsLookahead` covers those
sequences too.

## Model

| member | source | states |
|---|---|---|
| Wire.LexConcat | src/codec.zig:146-154 | An equal-length prefix decides the order of two concatenations, and only a tie passes the decision on |
| Wire.BigPreservesOrder | src/codec.zig:119-127 | Fixed-width big-endian bytes compare lexicographically exactly as the integers do |
| Wire.FromToBig | src/bucket.zig:224-233 | Reading back a written fixed-width integer gives the integer |
| Wire.ToFromBig | src/bucket.zig:224-233 | Every fixed-width byte string is the writing of the integer it reads as |
| Buckets.Compare | src/bucket.zig:17-20 | The three-way result is a strict total order on table then key, and equal means the same identity |
| Buckets.ViewInjective | src/bucket.zig:89-135 | Two strictly sorted row sequences with one identity-to-effect map are the same sequence: a bucket has one representation |
| Buckets.Merge | src/bucket.zig:164-188 | The merge is a strictly sorted bucket whose map is the newer over the older, without tombstones exactly when they are dropped |
| Buckets.MergeAssociative | src/bucket.zig:164-188 | Merging without dropping is associative |
| Buckets.MergeDropAbsorbs | src/bucket.zig:164-188 | Tombstones dropped from the oldest input early or late give the same terminal bucket |
| Buckets.MergeEmpty | src/bucket.zig:167-168 | The two shortcuts for an empty input agree with the full merge |
| Buckets.MergeCursor.Next | src/bucket.zig:190-222 | Each call yields the head of what the newest-wins merge has still to produce and leaves the rest |
| Buckets.CountKept | src/bucket.zig:171-175 | The first pass counts exactly the rows the second pass will write |
| Buckets.FillKept | src/bucket.zig:177-186 | The second pass fills the array with exactly the kept rows, in order |
| Buckets.MergeBuckets | src/bucket.zig:166-188 | The two-pass merge with its shortcuts computes the merge function on every pair of buckets |
| Buckets.Lookup | src/bucket.zig:73-87 | Binary search finds a row if and only if the bucket names the identity, and the row carries its effect, tombstones included |
| Frames.TakeFramed | src/bucket.zig:113-130 | Parsing a framed record followed by anything returns the record and the rest: framing is self-delimiting |
| Frames.TakenIsFramed | src/bucket.zig:148-158 | Whatever record the parser takes, the bytes it consumed are that record's frame |
| Frames.FaultFree | src/bucket.zig:90-104 | The checking pass finds no fault if and only if the rows are strictly sorted, every length fits 32 bits and the size fits a machine word |
| Frames.FaultIsFirst | src/bucket.zig:90-103 | The fault reported is that of the first row with which the rows could not be written, for order if it follows no smaller row and else for size |
| Frames.SortedFault | src/bucket.zig:90-103 | Rows in strict order can only be refused for their size |
| Frames.DecodeExactly | src/bucket.zig:137-161 | A byte string decodes to given rows if and only if those rows are encodable and the string is their frame |
| Frames.MalformedIsNoFrame | src/bucket.zig:137-161 | Bytes are called malformed if and only if they are the frame of no rows at all, sorted or not |
| Frames.EncodeFrameInjective | src/bucket.zig:89-135 | Equal frames come from equal buckets |
| Frames.MergeEncodable | src/bucket.zig:166-188 | A merge of encodable buckets whose sizes fit together is encodable, so it cannot fail on order or length |
| Frames.CheckRows | src/bucket.zig:90-103 | The checking loop returns the first fault in row order, or the exact encoded size |
| Frames.FromSorted | src/bucket.zig:90-135 | The encoder writes exactly the frame of encodable rows and returns the first fault of any others |
| Frames.MergeFramed | src/bucket.zig:166-188 | The merge with its frame: refused only as too large, only when the output has no frame, and never by the shortcuts |
| Frames.Reader.TakeRow | src/bucket.zig:148-158 | One record is consumed exactly as the parser function takes it, or nothing is returned |
| Frames.Decode | src/bucket.zig:139-161 | The imperative decoder agrees with the parser function on every byte string, with the same error |
| Schedule.HalfIsShift | src/list.zig:174-178 | The spill interval is the single bit the source shifts into place and, doubled, fits 64 bits at every depth up to 31 |
| Schedule.SpillsBelow | src/list.zig:180-182 | A level that spills receives from a level that spills at the same advance |
| Schedule.SpillingDestination | src/list.zig:184-189 | A level about to spill was last merged from empty and has already received an input |
| Schedule.RestingDestination | src/list.zig:184-189 | A level that receives without spilling was last merged with its old contents |
| Schedule.IdleDestination | src/list.zig:184-189 | Between two inputs of a level neither its merge choice nor its maturity changes |
| Schedule.FirstSpill | src/list.zig:180-182 | A spill cannot precede its interval, and one within the first two intervals is the first |
| Schedule.QuarterTestIsLookahead | src/list.zig:184-189 | The modular quarter test holds exactly when the next incoming spill also spills the level, for every sequence value |
| Schedule.LookaheadFits | src/list.zig:174-189 | The explicit lookahead stays below 2^64 if and only if the sequence lies before the last interval of the 64-bit range |
| Schedule.LookaheadOverflows | src/list.zig:174-189 | At the largest sequence the lookahead of level one is 2^64 exactly |
| Lists.StepAccepted | src/list.zig:70-97 | One advance takes any accepted state, reached or restored, to an accepted state |
| Lists.VisibleBelow | src/list.zig:76-90 | Seen from any lower level an advance adds exactly the snapshot handed down: delayed promotion loses and resurrects nothing |
| Lists.StepReads | src/list.zig:70-105 | After one advance from any accepted state each identity named by the batch reads as its effect and every other reads as before |
| Engines.RoomyStepFits | src/list.zig:70-97 | While every bucket leaves room for two of its size no advance is refused for the size of an output |
| Engines.List.Advance | src/list.zig:58-68 | Every error leaves the list as it was and has its exact cause: exhausted, wrong sequence, the first fault of the records, an output too large for a frame, or memory; success is the step, and from an accepted state gives an accepted state that reads as the batch over the old values |
| Engines.List.AdvanceInPlace | src/list.zig:70-97 | The descending in-place loop computes the simultaneous step of all levels from the levels before it |
| Engines.List.Traverse | src/list.zig:70-90 | The descending traversal writes exactly the levels above the root, each from the levels before it, or fails for memory or for an output that has no frame |
| Engines.List.Spill | src/list.zig:76-89 | One iteration rotates the source, promotes the pending output, starts the next merge and touches no other level; it is refused only for an output that has no frame |
| Engines.List.Read | src/list.zig:99-105 | The youngest-first loop returns what the visible map says, a tombstone as absent |
| Engines.List.Validate | src/list.zig:146-172 | Accepts exactly the shapes and pending hashes of the schedule; under a hash that identifies buckets these are exactly the levels some history of this length ends in |
| Engines.List.Clone | src/list.zig:45-56 | The copy has the same levels in storage of its own |
| History.RunIsLastWriter | src/list.zig:60-105 | After any history from genesis, at any depth from 1 to 31, the state is accepted and reads are those of the last-writer map |
| History.AcceptedIsReached | src/list.zig:146-172 | Acceptance is reachability: the levels accepted at a sequence are exactly those that some history of that many advances ends in, with every bucket and pending output |
| History.ValidatedIsReached | src/list.zig:146-172 | So are the levels that pass with pending outputs compared by a hash that identifies buckets |
| History.LagFormula | src/list.zig:70-97 | The boundary of level i trails its last spill by (4^(i+1) - 4)/3 advances |
| History.CurrentLength | src/list.zig:175-189 | A mature current bucket spans one to four input intervals of its level, one more than the inputs received modulo four |
| History.RunIsClosed | src/list.zig:70-97 | At every depth each bucket is the merge of an interval of the history fixed by the advance count alone, the terminal one without tombstones |
| History.SpansPartitionHistory | src/list.zig:70-97 | The merges of those intervals, oldest to youngest, are the merge of the whole history in order |
| History.EachAdvanceOnce | src/list.zig:70-97 | Every advance of the history lies in exactly one of those intervals, and nothing else does: none missing, none repeated |
| History.MergeReads | src/list.zig:76-89 | The merge started into a level reads exactly the two intervals its work is measured by |
| History.SpillWork | src/list.zig:88-89 | The quarter of a spill bounds what its merge reads by one to four input intervals |
| History.MatureSpillWork | src/list.zig:88-89 | Once a level has spilled, its merges read exactly one to four input intervals, by their quarter |
| History.FourSpills | src/list.zig:180-189 | Any four consecutive spills into a non-terminal level read at most ten input intervals' worth of batches |
| History.FourMatureSpills | src/list.zig:180-189 | Any four consecutive spills of such a level read exactly ten input intervals |
| History.WorkBound | src/list.zig:74-90 | Over n advances each non-terminal level reads at most 5n/2 advances' worth of batches |
| Reference.LookaheadAgrees | tools/reference.py:143-154 | The model's explicit lookahead and the quarter test make the same choice at every input |
| Reference.StepsAgree | tools/reference.py:139-157 | One step of the list and one of the model commute with the bucket-to-map image |
| Reference.SchedulersAgree | tools/reference.py:139-164 | After every history of operations both schedulers hold the same current, snapshot and pending maps, and the model's logical map is what the list shows |
| Reference.LastOperationWins | tools/reference.py:116-128 | The effect staged for an identity is that of the last operation naming it |
| Reference.NamedIsStaged | tools/reference.py:116-128 | Exactly the identities some operation names are staged |
| Operations.CallsAgree | tools/reference.py:116-128 | For every call with arguments of its declared types the codec writes the key and value bytes the model has, and a deletion none |
| Operations.Stage | src/database.zig:154-172 | Calling the batch once per operation leaves staged what the model makes of the operations; the first refusal ends it, and within the budgets there is none |
| Reference.Model.Advance | tools/reference.py:139-157 | The reversed loop computes the model's step and returns the operations that changed something |
| Reference.Model.Visibles | tools/reference.py:158-163 | Collecting the first mention of each key, youngest first, gives the list's visible map |
| Frontiers.DestinationsAre | src/frontier.zig:97-131 | A plan targets level zero and exactly the receiving levels, each once |
| Frontiers.MakePlan | src/frontier.zig:97-131 | Refuses an exhausted or wrong sequence; otherwise the loop builds the planned jobs and candidate from the base alone |
| Frontiers.JobInputs | src/frontier.zig:67-69 | Both inputs of every job name a bucket of the base, the empty bucket or the fresh batch |
| Frontiers.JobReads | src/frontier.zig:97-131 | A store holding those buckets resolves each job to the two buckets the list would merge |
| Frontiers.AnyOrder | src/frontier.zig:67-80 | Jobs run in any order, even repeatedly, each give the output of the list's merge: no job reads another's result |
| Frontiers.SettingResults | src/frontier.zig:84-90 | Filling in results touches each target once and no other level |
| Frontiers.Finish | src/frontier.zig:81-92 | A wrong number of results is refused; otherwise the candidate receives each result at its job's level |
| Frontiers.PlanRefinesStep | src/frontier.zig:81-141 | Planning, running the jobs in any order and finishing gives the hash image of the list's step |
| Frontiers.CompletesStep | src/frontier.zig:81-131 | Whatever produced the job outputs, finishing with them gives the hash image of the list's step |
| Frontiers.ValidateShape | src/frontier.zig:197-211 | Accepts exactly the frontiers whose emptiness and pending presence fit the sequence at every level, which are those some history of that length fills |
| Frontiers.ShapeIsReached | src/frontier.zig:197-211 | A shape passes if and only if some history of that length has contents wherever it names a bucket and pending work exactly where it does |
| Frontiers.ShapeAndJobsAreAcceptance | src/frontier.zig:200-224 | Shape, recomputed pending jobs and tombstone-free terminal contents hold at every level if and only if the named levels are accepted |
| Commitments.ProfileForces | src/list.zig:107-113 | Equal profile hashes force equal depth, up to a collision |
| Commitments.PendingForces | src/list.zig:134-144 | The pending stream of a known depth parses uniquely: presence and identity at every level are determined |
| Commitments.CommitmentForces | src/frontier.zig:152-195 | Equal database digests force equal schema, profile, sequence, visible topology and pending work, up to a collision |
| Commitments.ListCommitmentBinds | src/database.zig:63-76 | Two lists of encodable buckets with equal digests have the same depth, sequence and contents, up to a collision |
| Commitments.ReferenceCommits | tools/reference.py:166-175 | After every history the database digest spelled out over the model's dictionaries equals the list's digest |
| Commitments.DigestsAreReference | tools/reference.py:166-175 | For any levels the list's digest is the one spelled out in the model's own terms: literal tags, joined level digests, pending parts |
| Commitments.RootIsReference | docs/structure.md:129-142 | So are root and continuation |
| Commitments.DictionaryIsFrame | tools/reference.py:53-58 | The model's bytes of a dictionary, its sorted items joined behind a count, are the frame of the bucket with those effects |
| Commitments.ListRoot | src/list.zig:115-130 | The root loop hashes the level hashes in order under the profile, which is the root spelled out over the level contents |
| Commitments.ListContinuation | src/list.zig:132-144 | The continuation loop hashes index, presence and identity of every pending output, which is the continuation spelled out over them |
| Commitments.ListDigest | src/database.zig:63-76 | The database digest is the commitment of the list's hash image, the value the planner commits to, and the digest spelled out over the level contents |
| Slots.SlotsResolve | src/list.zig:99-105 | Youngest-wins over the readable buckets in lookup order is what reads see |
| Staging.Batch.Replace | src/disk.zig:222-241 | A call sets the identity's final effect and keeps every other; it is refused exactly when a budget would be exceeded and then changes nothing |
| Staging.RowsSizeUpdate | src/disk.zig:226-232 | Replacing a staged row changes the byte count by the difference of the two rows, which never underflows |
| Staging.SortKeepsView | src/database.zig:225 | Sorting rows of distinct identities keeps their effects |
| Staging.SortPermutes | src/database.zig:225 | The sorted rows are a rearrangement: none lost, added or changed |
| Staging.SortIsUnique | src/database.zig:225 | Rows of distinct identities have one sorted rearrangement, so any sort, stable or not, gives it |
| Normalizing.ScanBucket | src/disk.zig:322-342 | One forward pass with one monotone index decides every row the bucket names, leaves earlier decisions alone and keeps the unresolved count exact |
| Normalizing.Compact | src/disk.zig:345-352 | In-place compaction leaves exactly the surviving rows, in order |
| Normalizing.SurvivorsSorted | src/disk.zig:345-352 | When every decision is final the survivors are strictly sorted and are exactly the effects that change a read |
| Normalizing.Normalize | src/disk.zig:309-354 | The merge-join with early exit returns exactly the sorted rows whose effect differs from the visible value |
| Normalizing.FilterIsNormalForm | src/database.zig:214-225 | Filtering by point reads and then sorting gives the same rows as the merge-join |
| Normalizing.NormalFormIsLeast | src/database.zig:216-224 | Every row kept is a staged effect that changes a read, and effects that read as the staged ones name all identities the kept rows do |
| Normalizing.CallOrderIrrelevant | src/database.zig:154-172 | Batches with the same final effects advance with the same rows whatever the order of calls |
| Cursors.HalfOpen | src/disk.zig:1015-1030 | An interval holds its start, excludes its end, and holds exactly the keys in between |
| Cursors.WindowsResolve | src/disk.zig:1021-1062 | Youngest-wins over the per-slot windows is the window of youngest-wins |
| Cursors.PopResolves | src/disk.zig:956-964 | Retiring the least identity from every queue removes exactly it from what is undecided, and it precedes everything left |
| Cursors.YieldThenRest | src/disk.zig:951-968 | A live least identity is the first of the records still to come, and the others are those of the rest |
| Scans.PositionSlot | src/disk.zig:994-1013 | The cursor stops on the first in-range record it has not read, or on nothing when none is left |
| Scans.FindBest | src/disk.zig:935-950 | The selection loop returns the least standing identity, at its youngest slot, or nothing only when every cursor is done |
| Scans.Scan.TakeLeast | src/disk.zig:952-968 | One round decides the least identity, retires its older copies, keeps the rest and reduces the unread total |
| Scans.Scan.Retire | src/disk.zig:956-960 | Every other slot standing on the decided identity moves past it and no other slot moves |
| Scans.Scan.Next | src/disk.zig:929-970 | Each call yields the first live visible record not yet yielded, or nothing exactly when none remains |
| Scans.ScanState | src/disk.zig:1035-1061 | A fresh scan has to yield exactly the live visible records in range, sorted; slots it closed at once contribute nothing |
| Scans.OpenScan | src/disk.zig:1021-1062 | An interval is refused exactly when it is empty |
| Scans.Drain | src/disk.zig:903-1062 | Calling next to the end yields exactly the live visible records in range, strictly ascending, each once |
| Databases.Database.OpenBatch | src/database.zig:90-96 | At most one batch is open, its token is new, and an exhausted token counter is refused |
| Databases.Database.FilterChanges | src/database.zig:216-224 | The per-key loop keeps exactly the effects that differ from what reads give |
| Databases.Database.PrepareAdvance | src/database.zig:209-232 | Leaves the database unchanged, gives each refusal its cause, an output without a frame and lack of memory included, and otherwise prepares the successor of the base its batch was opened over |
| Databases.Database.CloseBatch | src/database.zig:123-129 | Dropping a batch reopens the database only if no newer batch has begun |
| Databases.Database.Commit | src/database.zig:234-241 | Publishes if and only if the prepared state is unused, from this database, of the open batch and over the current digest; what is published is then one step past the levels being replaced, and reads as the staged effects over them |
| Databases.Database.ReadView | src/database.zig:243-245 | A view is a copy that no later commit reaches |
| Databases.NormalFormReads | src/database.zig:216-224 | Omitting effects that change nothing alters no read after the advance |
| Databases.AdvanceReads | src/database.zig:209-241 | Advancing with only the effects that change something is accepted and reads as all staged effects over the old values |
| Databases.Iterator.Select | src/database.zig:280-289 | The selection skips lower tables only, and picks the least standing key at its youngest slot |
| Databases.Iterator.Next | src/database.zig:278-305 | Each call yields the first live visible row of the table not yet yielded, or nothing exactly when none remains |
| Databases.ListedIsRead | src/disk.zig:1015-1062 | A key is listed by a scan if and only if it is in range and a point read finds it, with the same value |
| Databases.ScanIsIteratorInRange | src/database.zig:272-307 | A scan of an interval lists the portable iterator's rows restricted to it |
| Codecs.RawIntFacts | src/codec.zig:119-136 | Flipping the sign bit maps the signed range onto the unsigned one by a shift, and reading undoes it |
| Codecs.DecodeEncoded | src/codec.zig:138-186 | Decoding a canonical value's encoding followed by anything returns the value and the rest, for every supported shape |
| Codecs.EncodeDecoded | src/codec.zig:156-186 | Whatever input is accepted, the value is canonical and its encoding is the input consumed |
| Codecs.EncodedSize | src/codec.zig:47-73 | No encoding exceeds the size computed from its shape |
| Codecs.MaximumIsReached | src/codec.zig:47-73 | Some value of every inhabited shape takes all of the size computed from it |
| Codecs.PrefixFree | src/codec.zig:138-154 | No encoding of a shape is a proper prefix of another |
| Codecs.EncodingPreservesOrder | src/codec.zig:119-154 | Bytes compare exactly as values do: signed numeric, fieldwise for composites, length first for bounded bytes |
| Codecs.EncodeInto | src/codec.zig:138-154 | The writer succeeds if and only if the value is canonical and fits, writes exactly the encoding, and blames the value only when it is at fault |
| Codecs.EncodePartsInto | src/codec.zig:149-150 | The loop over elements or fields writes the concatenation of their encodings under the same conditions |
| Codecs.DecodeFrom | src/codec.zig:156-186 | The reader consumes exactly what the decoding function does, for every shape and input |
| Blocks.BlocksAreStream | tools/v2-vectors.py:45-63 | The greedy blocks concatenate to the stream; all but the last reach the target and none reaches it a record early |
| Blocks.HeightsAreBinary | tools/v2-vectors.py:32-38 | Peak spans are strictly decreasing powers of two that sum to the leaf count |
| Blocks.PeaksAreBinary | tools/v2-vectors.py:32-38 | Each peak is the root of the balanced tree over its own consecutive leaves |
| Blocks.RootIsSegments | docs/format-v2.md:38-57 | The root folds, from the left, the balanced trees over the binary segments of the leaves, largest first |
| Blocks.RootsForceLeaves | tools/v2-vectors.py:32-42 | At equal leaf counts equal roots force equal leaves, up to a collision |
| Blocks.BucketHashInjective | tools/v2-vectors.py:25-72 | Record streams with equal block-tree hashes are equal, up to a collision |
| Blocks.ComputeTreeRoot | tools/v2-vectors.py:32-42 | The peak-merging loop and final fold compute the tree root |
| Blocks.ComputeBucketHash | tools/v2-vectors.py:45-72 | The streaming loop hashes the greedy blocks of the records, the last short one included |
| Ranges.RunIsComplete | docs/format-v2.md:112-126 | A run meeting the two bracket rules holds every in-range record of its bucket |
| Ranges.SelectRun | src/disk.zig:854-883 | From the metadata alone, the loops choose the shortest run that meets the bracket rules, for every sorted stream with that metadata |
| Ranges.SelectionCovers | src/disk.zig:849-883 | On the blocks of any non-empty bucket the selected run meets both bracket rules |
| Ranges.SelectionIsLeast | src/disk.zig:849-883 | The selected run lies inside every run that meets the bracket rules: no block of it could be left out |
| Ranges.Survey | src/disk.zig:1182-1210 | The first pass cuts the block stream's own blocks and classifies each, the short last one included |
| Ranges.Retain | src/disk.zig:1212-1256 | The second pass cuts the same blocks, hashes every leaf and keeps the bytes of exactly the run |
| Ranges.RangeRunForSlot | src/disk.zig:1176-1273 | The run of any non-empty bucket is complete for the interval and the shortest that is, and its leaves and counts recompute the bucket's hash |
| Ranges.ClaimBlock | src/disk.zig:1105-1130 | Parsing one block's bytes decides each of its in-range keys not yet decided and claims those that are live |
| Ranges.ClaimSlot | src/disk.zig:1103-1130 | After a slot's run, decided keys and claimed entries are those of youngest-wins over the slots so far |
| Ranges.ProveRange | src/disk.zig:1064-1174 | An empty interval is refused; otherwise the entries are exactly the live visible records in range and every non-empty slot has one complete and shortest run, in slot order |
| Checkpoints.StepStorable | src/list.zig:70-97 | An advance with typed rows of encodable lengths keeps every bucket so |
| Checkpoints.RunStorable | src/list.zig:70-97 | Every bucket of every run over such batches holds such rows |
| Checkpoints.PutIsTyped | src/database.zig:136-152 | What a typed put or delete stages decodes under its table |
| Checkpoints.TypedReadsDecode | src/database.zig:82-88 | A read value always decodes under its table, so the unreachable case of the typed get is unreachable |
| Checkpoints.ListedDecodes | src/database.zig:293-303 | Every row a scan or iterator of a typed state yields is live and decodes under its table |
| Checkpoints.RestoreExactly | src/database.zig:389-448 | Bytes restore to given state against a digest if and only if they are that state's checkpoint, the state passes every check, and its digest is the expected one |
| Checkpoints.CheckpointResumes | src/database.zig:362-434 | The checkpoint of any accepted typed state within the size limit restores to exactly that state |
| Checkpoints.ReachableResumes | src/database.zig:326-434 | The same for every reachable database, with its sequence and every bucket |
| Checkpoints.RestoredIsReached | src/database.zig:389-434 | Whatever restores is a state some history of its length ends in, up to a collision of the frames compared |
| Checkpoints.RestoreBinds | src/database.zig:389-434 | Any bytes accepted against a database's digest are its checkpoint and restore it, up to a collision |
| Lists.PendingDetermined | src/list.zig:146-172 | Two accepted states with one sequence and the same visible buckets have the same pending outputs |
| Checkpoints.AccountFrame | src/database.zig:352-360 | The running total grows by a frame exactly when the limit allows it |
| Checkpoints.EncodedSize | src/database.zig:326-335 | The accounted size is the exact length of the checkpoint, or nothing exactly above the limit |
| Checkpoints.WriteLevel | src/database.zig:371-377 | One level's frames are written after what is already there and nothing before is touched |
| Checkpoints.EncodeCheckpoint | src/database.zig:366-380 | The writer fills a buffer of the accounted size with exactly the checkpoint |
| Checkpoints.CheckTyped | src/database.zig:450-466 | A row passes if and only if its table exists and key and value decode whole under it |
| Checkpoints.TakeBucketFrom | src/database.zig:436-466 | One frame is taken, bounded, decoded and type-checked exactly as the parser function says |
| Checkpoints.Restore | src/database.zig:389-434 | Restoring succeeds exactly as defined, tells malformed bytes from bad topology and a wrong digest, and rebuilds sequence and levels |
| Sources.FramedOnce | src/database.zig:401-434 | A header and a frame source describe at most one state |
| Sources.DescribesRestored | src/database.zig:389-434 | A source answering with a checkpoint's frames restores what the checkpoint's bytes restore |
| Sources.TakeSuppliedLevel | src/database.zig:417-429 | A level is taken exactly when its answers are the frames of one, typed and within the limit; only the pending answer may be absent |
| Sources.RestoreFrom | src/database.zig:408-434 | A database comes back exactly when header and answers frame a state that passes the topology check and has the expected digest, and it is that state; each refusal tells which of the three failed |
| Stores.PutKeeps | src/disk.zig:291-296 | Storing a blob keeps every stored blob and makes this one readable under its name |
| Stores.ShadowOfLevels | src/disk.zig:459-534 | A frontier whose buckets are stored is the hash image of the levels it names |
| Stores.WholeIsReached | src/disk.zig:426-457 | A complete frontier names levels some history of its length ends in |
| Stores.EmptyIsKept | src/disk.zig:104-109 | Every complete frontier names the empty bucket, so collection never takes the sentinel the planner uses |
| Stores.InputsStored | src/frontier.zig:67-69 | A complete frontier and a stored batch supply every job input |
| Stores.LoadsPreserved | src/disk.zig:1288-1298 | Keeping the manifest and the buckets a reference names is enough for it to load with the same contents |
| Stores.LoadsNeedsAll | src/disk.zig:1288-1298 | A store with only some of the blobs loads a reference if and only if it has all that the reference reaches |
| Stores.VersionReads | src/disk.zig:160-169 | A held version reads as the last-writer map of its history |
| Stores.VisibleRowTyped | src/disk.zig:426-443 | What levels of checked rows show passes the schema's check |
| Owners.StepSound | src/disk.zig:245-304 | Every action, failing ones included, keeps the catalog, the live frontier, the open preparation and every view complete in the store |
| Owners.RunSound | src/disk.zig:245-304 | So does every run of actions |
| Owners.RunSpares | src/disk.zig:1275-1298 | A version that each collection finds current, viewed or explicitly retained stays complete with unchanged contents through any run |
| Owners.ViewsAreStable | src/disk.zig:543-585 | While a view stays open its reads are those of the history it pinned, whatever is published or collected |
| Owners.PoisonFreezes | src/disk.zig:261-268 | After a failed publication and until reopening nothing is deleted and neither catalog nor live state moves |
| Owners.AmbiguityResolves | src/disk.zig:259-275 | After an ambiguous failure old and attempted frontier stay complete until reopening, which adopts the one that reached the catalog |
| Owners.DurableHistoryGrows | src/disk.zig:261-275 | The published history is only ever extended |
| Owners.StepStored | src/disk.zig:297-300 | Base, batch and merge outputs in the store make the whole successor frontier present |
| Owners.PreparedHolds | src/disk.zig:280-304 | A preparation over a held version is itself complete, accepted and one batch longer |
| Owners.Owner.Create | src/disk.zig:97-113 | A new database publishes a complete genesis with empty history and stores nothing but it and the empty bucket |
| Owners.Owner.Initialize | src/disk.zig:97-113 | A directory without a catalog is refused when a database is expected or foreign blobs are found, and is initialized otherwise; what an interrupted initialization left does no harm |
| Owners.Owner.Read | src/disk.zig:160-169 | Point reads over stored buckets equal the last-writer map of the live history, and a value read passes the schema's check |
| Owners.Owner.Prepare | src/disk.zig:280-304 | Each refusal has its cause and leaves catalog and live state alone; success stores everything the next version needs and opens one preparation with the given metadata |
| Owners.Owner.Build | src/disk.zig:290-300 | Storing the batch, planning, merging and finishing gives the hash image of the step, every named blob stored |
| Owners.Owner.RunMerges | src/disk.zig:369-394 | Jobs finish in any order, each storing its output before it counts; the results are the list's merge outputs in job order, and are missing exactly when the store fails before the last |
| Owners.Owner.Settle | src/disk.zig:259-275 | Visibility follows durable publication; any publication error poisons the owner and keeps the preparation open |
| Owners.Owner.OpenView | src/disk.zig:545-552 | A view pins the live version, and is refused exactly at the limit without any change |
| Owners.Owner.CloseView | src/disk.zig:577-584 | Exactly the first matching view is unlinked and the others keep their order |
| Owners.Owner.Load | src/disk.zig:506-534 | What loads is what the stored manifest says, under the digest of the reference, of this depth, within the metadata limit, with rows the schema accepts and levels some history ends in; and whatever is so loads |
| Owners.Owner.Validate | src/disk.zig:426-457 | Accepts a frontier if and only if every bucket is stored, the named levels are an accepted topology and every row passes the schema's check; some history then ends in those levels |
| Owners.Owner.ReachableFrom | src/disk.zig:1288-1298 | The set holds exactly what a loadable reference retains, and is refused for any other |
| Owners.Owner.ReachableFromAll | src/disk.zig:1280-1285 | One set holds exactly what the live reference, every view and every retained reference reach, and exists exactly when each retained reference loads |
| Owners.Owner.Collect | src/disk.zig:1277-1287 | Refused while poisoned, prepared or given a bad root, changing nothing; success leaves of the stored blobs exactly those reachable from live state, views and retained references and counts the others; a store that fails partway has deleted none of the reachable |
| Owners.Owner.Reopen | src/disk.zig:83-96 | Reopening any store succeeds if and only if the catalog names a usable version and the caller expects no other; it adopts that version, and the store of a valid owner always has one |
| Owners.Prepared.Commit | src/disk.zig:261-275 | A poisoned owner or used preparation changes nothing; otherwise the outcome of publication decides between adopting and poisoning, and only success uses the preparation up |
| Owners.Prepared.Discard | src/disk.zig:252-258 | Dropping an unused preparation reopens the owner, and dropping a used one changes nothing |
| Hosts.StepInv | src/host.zig:109-276 | Every critical section and every worker action keeps the host invariant |
| Hosts.RunInv | src/host.zig:109-276 | So every interleaving does |
| Hosts.AcceptedIsDurablePlusQueued | src/host.zig:128-165 | Without a failure the accepted sequence is the durable one plus the queue length |
| Hosts.OneOwner | src/host.zig:128-152 | Freed, held and queued batches, in that order, are exactly the submitted ones: none lost, doubled or reordered |
| Hosts.ActiveSlotPinned | src/host.zig:226-232 | No event overwrites the metadata slot of the entry being published |
| Hosts.SleeperImpliesWork | src/host.zig:169-177 | A sleeping waiter implies a non-empty queue |
| Hosts.SignalReachesWorker | src/host.zig:144-151 | One signal on admission never leaves the worker asleep: if it sleeps, it is the one woken |
| Hosts.AdmitRing | src/host.zig:144-150 | Admission fills the free tail slot and keeps consecutive sequences in queue order |
| Hosts.FailureLatches | src/host.zig:242-276 | Once a failure is latched nothing more is admitted or published and the failure never changes |
| Hosts.PauseHolds | src/host.zig:196-202 | While paused and until resumed or shut down only the entry already running can still become durable, and a sleeping worker is not woken by submissions |
| Hosts.StoppedIsClosed | src/host.zig:106-114 | After shutdown has begun nothing is admitted any more |
| Hosts.RunMonotone | src/host.zig:128-177 | Submissions and the durable sequence only grow |
| Hosts.WorkerRunnable | src/host.zig:216-240 | With processing on and work queued or shutdown begun, the worker can take a step |
| Hosts.WaitsEnd | src/host.zig:167-177 | Unpaused, a computable number of worker steps makes an accepted sequence durable or latches a failure and leaves no waiter for it asleep, and until then the worker can always take the next |
| Hosts.ShutdownDrains | src/host.zig:106-123 | After shutdown begins a computable number of worker steps empties the queue and ends the worker, who can always take the next |
| Hosts.CleanShutdown | src/host.zig:106-123 | A worker that exits without a failure leaves the durable state of the whole submission order and every batch freed once |
| Hosts.BoundedHost.TrySubmit | src/host.zig:125-152 | Admission succeeds exactly under its conditions, moves the batch out and leaves an empty one that can itself be submitted; each refusal has its cause and leaves batch and accepted sequence alone |
| Hosts.BoundedHost.Enqueue | src/host.zig:144-151 | Fills the tail slot, moves the accepted sequence by one; paused it wakes nobody, else the worker is left awake |
| Hosts.BoundedHost.Signal | src/host.zig:151 | Wakes at most one sleeper, and some sleeper if there is one |
| Hosts.BoundedHost.EnterWait | src/host.zig:169-176 | The first look refuses an unaccepted sequence, reports a durable one or a failure, and otherwise sleeps |
| Hosts.BoundedHost.ResumeWait | src/host.zig:173-176 | A woken waiter looks again and sleeps only while undecided |
| Hosts.BoundedHost.PauseProcessing | src/host.zig:197-202 | Pausing stops no entry already running and wakes nobody |
| Hosts.BoundedHost.ResumeProcessing | src/host.zig:204-209 | Resuming wakes the worker and every waiter |
| Hosts.BoundedHost.BeginShutdown | src/host.zig:109-114 | Shutdown also resumes, so paused work drains |
| Hosts.BoundedHost.TakeNext | src/host.zig:216-231 | The worker exits when stopping over an empty queue, sleeps when paused or without work, and else moves the head batch out of its still counted slot |
| Hosts.BoundedHost.PublishActive | src/host.zig:231-246 | Publication applies the batch with its pinned metadata at the next sequence; a loss breaks the worker and frees the batch, with the disk as the loss left it |
| Hosts.BoundedHost.Acknowledge | src/host.zig:248-256 | Cache, head and count move together and everyone is woken |
| Hosts.BoundedHost.FreeSettled | src/host.zig:238 | A published batch is freed once, after it is acknowledged |
| Hosts.BoundedHost.LatchFailure | src/host.zig:259-270 | The failure is latched, the failed entry dropped, everyone woken and the first abandoned batch taken |
| Hosts.BoundedHost.DiscardNext | src/host.zig:266-275 | Abandoned batches are freed one at a time, in order, until the queue is empty and the worker exits |
| Publications.JointStep | src/host.zig:231-276 | Every event of host and disk keeps them together: what the queue calls durable is the history and metadata of the version the catalog names, and until a failure that version is live |
| Publications.RunJoint | src/host.zig:109-276 | So does every interleaving |
| Publications.CreatedJoint | src/host.zig:66-104 | A host created over a sound, settled disk starts out so |
| Publications.FoldReads | src/host.zig:243-246 | Publishing submissions one after another reads as overlaying them, though effects that change nothing are left out |
| Publications.DurableIsPrefix | src/host.zig:243-276 | The catalog's history is that of a prefix of the submissions that reaches everything reported durable, even when the last publication failed after its catalog was in place |
| Publications.WaitSurvivesReopening | src/host.zig:167-177 | Whatever failed since, reopening gives a complete database with every submission a wait reported durable: a key reads as the last published submission that names it |
| Publications.PublishThrough | src/host.zig:243-246 | Preparing, committing and dropping through the disk owner is one publication attempt of the joined machine, with the outcome that holds |
| Published.CheckpointIsText | docs/format.md:67-80 | Every checkpoint has the documented bytes: tag, schema, profile, sequence, and per level counted current, snapshot and pending frames behind a presence byte |
| Published.BucketIsText | docs/format-v2.md:31-64 | The version-two bucket hash is the documented one over the greedy blocks of the records |
| Published.TreeVectors | docs/format-v2.md:38-57 | One leaf is its own root, two make a node, and a third stands on its right |
| Published.FrameVectors | docs/structure.md:30-45 | The empty bucket, the documented one-record bucket and its deletion have their literal bytes |
| Published.RecordVector | src/codec.zig:188-194 | The five-field record of the codec test has its literal bytes |
| Published.BoundaryVectors | docs/encoding.md:137-142 | The signed boundary values have their literal bytes |
| Published.LeafVectors | docs/encoding.md:144-146 | Booleans, bounded strings and enum tags have their literal bytes |
| Published.RefusedVectors | src/codec.zig:199-207 | The documented malformed inputs are refused |
| Published.CompositeWrites | src/codec.zig:149-150 | An array or struct writes the encodings of its parts one after another, with nothing between |

## Left out

- `src/proofs.zig` and `src/store.zig` are not part of this model: the store is a map from name to blob, and the range-proof rules are those of docs/format-v2.md.
- Block paths inside range proofs, and the sharing of one root along a run: a run carries all leaves instead.
- Single-key proof generation: its absence rule needs both neighbours in one block, so it cannot succeed for every absent key.
- SHA-256 itself, and the literal hash vectors and fixtures.
- Files, fsync, locks, compression, the read index, the manifest and catalog byte framing, allocators and reference counts.
- `src/checkpoints.zig`, `src/proof_flat.zig`, `src/proofs_wire.zig`, `src/proof_gen.zig`: they repeat, in an easier form, protocols and framings proved here.
- `src/schema.zig`: compile-time reflection; tables are given with distinct identifiers, and the owner is given the schema's check of one row.
- The library hash map's entry limit in the portable batch, and the two batch types: both are one `Staging.Batch`, whose budgets are parameters.
- The drain of a scan's cursors to their authenticated end (`finish`).
- Databases.Database.OpenBatch: takes the staging budgets as parameters, because the portable batch has no byte budget.
- Scans.Scan.Next: the errors of a stored stream are not modelled; that a yielded entry decodes is `Checkpoints.ListedDecodes`.
- Ranges.RangeRunForSlot: the run carries the complete list of leaves where the source carries the paths of its two end blocks.
- Ranges.ProveRange: the profile and commitment fields copied into a proof, and the paths above, are not modelled.
- Checkpoints.TakeBucketFrom: takes frames cut from one byte slice; frames supplied by a caller are `Sources.RestoreFrom`.
- Sources.RestoreFrom: an error of the source itself is reported as a malformed checkpoint, where the original passes it on.
- Owners.Owner.RunMerges: a job is atomic, so two jobs writing one blob at once are not modelled; any order of finishing is.
- Owners.Owner.Load: a manifest is a value, so malformed manifest bytes appear only as a blob that is no manifest.
- Owners.Owner.Collect: which unreachable blobs a failing store has deleted by then is a parameter.
- Owners.Owner.Create: files in the directory that are not named like blobs are not modelled.
- Hosts.ShutdownDrains: assumes no pause after shutdown begins, as src/host.zig:106 requires of callers.
- Hosts.BoundedHost.PublishActive: the object publishes through a function of state, batch and metadata; `Publications` joins the state machine with the disk owner's and `Publications.PublishThrough` takes that step on the class `Owner`. Mutual exclusion is taken as atomic critical sections.
