/** Digests of byte strings. The hash is a parameter. Results about equal digests
    say that the inputs are equal unless two of the finitely many strings that
    were hashed to obtain those digests collide. */
module Digests {
  import opened Wire

  type Digest = d: Bytes | |d| == 32 witness seq(32, _ => 0)

  type Hash = Bytes -> Digest

  /** Two different strings among `hashed` have one digest. */
  ghost predicate Collision(sha: Hash, hashed: set<Bytes>) {
    exists x, y :: x in hashed && y in hashed && x != y && sha(x) == sha(y)
  }

  lemma EqualOrCollision(sha: Hash, hashed: set<Bytes>, x: Bytes, y: Bytes)
    requires sha(x) == sha(y) && x in hashed && y in hashed
    ensures x == y || Collision(sha, hashed)
  {
  }

  /** Equal concatenations split at equal lengths into equal parts. */
  lemma Unconcat(a: Bytes, b: Bytes, x: Bytes, y: Bytes)
    requires |a| == |b| && a + x == b + y
    ensures a == b && x == y
  {
    Split(a, x);
    Split(b, y);
  }
}
