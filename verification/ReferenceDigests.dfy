/** The bytes and digests of the reference model in its own terms
    (tools/reference.py:53-63, 133-137, 166-175; docs/structure.md:15-28, 129-142):
    dictionaries, joined parts and literal tags. */
module ReferenceDigests {
  import opened Wire
  import opened Buckets
  import opened Digests
  import opened Reference

  /** `struct.pack` of an unsigned word, big-endian. */
  function Packed32(n: nat): Bytes { ToBig(4, n) }

  function Packed64(n: nat): Bytes { ToBig(8, n) }

  function Joined(parts: seq<Bytes>): Bytes {
    if parts == [] then [] else parts[0] + Joined(parts[1..])
  }

  /** A literal tag with its closing NUL. */
  function Tag(text: string): Bytes { seq(|text|, i requires 0 <= i < |text| => text[i] as int % 256) + [0] }

  function EncodeItem(r: Record): Bytes {
    Packed32(r.table) + Packed32(|r.key|) + r.key + match r.value case None => [0] case Some(v) => [1] + Packed32(|v|) + v
  }

  /** The items of a dictionary in sorted order, encoded and joined. */
  ghost function EncodeDictionary(rows: Effects): Bytes {
    var items := BucketOf(rows);
    Tag("bucketlist.bucket.v1") + Packed64(|rows|) + Joined(seq(|items|, i requires 0 <= i < |items| => EncodeItem(items[i])))
  }

  ghost function DictionaryHash(sha: Hash, rows: Effects): Digest { sha(EncodeDictionary(rows)) }

  function Profile(sha: Hash, depth: nat): Digest { sha(Tag("bucketlist.profile.v1") + Packed32(depth) + Packed32(4)) }

  ghost function LevelDigest(sha: Hash, i: nat, level: MapLevel): Digest {
    sha(Tag("bucketlist.level.v1") + Packed32(i) + DictionaryHash(sha, level.curr) + DictionaryHash(sha, level.snap))
  }

  ghost function RootDigest(sha: Hash, levels: seq<MapLevel>): Digest {
    sha(Tag("bucketlist.list.v1") + Profile(sha, |levels|)
        + Joined(seq(|levels|, i requires 0 <= i < |levels| => LevelDigest(sha, i, levels[i]))))
  }

  ghost function PendingPart(sha: Hash, i: nat, level: MapLevel): Bytes {
    Packed32(i) + match level.next case None => [0] case Some(rows) => [1] + DictionaryHash(sha, rows)
  }

  ghost function ContinuationDigest(sha: Hash, levels: seq<MapLevel>): Digest {
    sha(Tag("bucketlist.continuation.v1") + Profile(sha, |levels|)
        + Joined(seq(|levels|, i requires 0 <= i < |levels| => PendingPart(sha, i, levels[i]))))
  }

  ghost function DatabaseDigest(sha: Hash, schema: Digest, sequence: nat, levels: seq<MapLevel>): Digest {
    sha(Tag("bucketlist.database.v1") + schema + Profile(sha, |levels|) + Packed64(sequence)
        + RootDigest(sha, levels) + ContinuationDigest(sha, levels))
  }

  lemma {:induction false} JoinedSnoc(parts: seq<Bytes>, last: Bytes)
    ensures Joined(parts + [last]) == Joined(parts) + last
  {
    if parts == [] {
      assert [] + [last] == [last] && Joined([last]) == last + [];
    } else {
      assert (parts + [last])[1..] == parts[1..] + [last];
      JoinedSnoc(parts[1..], last);
      Assoc(parts[0], Joined(parts[1..]), last);
    }
  }

  lemma {:induction false} JoinedTake(parts: seq<Bytes>, k: nat)
    requires k < |parts|
    ensures Joined(parts[..k + 1]) == Joined(parts[..k]) + parts[k]
  {
    TakeGrows(parts, k);
    JoinedSnoc(parts[..k], parts[k]);
  }
}
