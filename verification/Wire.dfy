/** Bytes, fixed-width big-endian integers and unsigned lexicographic order:
    the vocabulary shared by bucket frames, record keys and checkpoints. */
module Wire {
  type Byte = b: int | 0 <= b < 256
  type Bytes = seq<Byte>

  const U32_LIMIT: int := 0x1_0000_0000
  const U64_LIMIT: int := 0x1_0000_0000_0000_0000
  type U32 = n: int | 0 <= n < 0x1_0000_0000
  type U64 = n: int | 0 <= n < 0x1_0000_0000_0000_0000

  datatype Option<+T> = None | Some(value: T)
  datatype Result<+T, +E> = Ok(value: T) | Err(error: E)

  // ----- sequence facts, stated once for opaque pieces ---------------------

  lemma Assoc<T>(a: seq<T>, b: seq<T>, c: seq<T>)
    ensures (a + b) + c == a + (b + c)
  {
  }

  lemma Split<T>(a: seq<T>, b: seq<T>)
    ensures (a + b)[..|a|] == a && (a + b)[|a|..] == b
  {
  }

  lemma Rejoin<T>(s: seq<T>, n: nat)
    requires n <= |s|
    ensures s == s[..n] + s[n..]
  {
  }

  lemma DropDrop<T>(s: seq<T>, n: nat, m: nat)
    requires n + m <= |s|
    ensures s[n..][m..] == s[n + m..] && s[..n] + s[n..][..m] == s[..n + m]
  {
  }

  lemma SliceOfTail<T>(s: seq<T>, start: nat, i: nat, j: nat)
    requires i <= j && start + j <= |s|
    ensures s[start..][i..j] == s[start + i..start + j]
  {
  }

  lemma One<T>(s: seq<T>, i: nat)
    requires i < |s|
    ensures s[i..i + 1] == [s[i]]
  {
  }

  lemma Extend<T>(s: seq<T>, i: nat, j: nat)
    requires i <= j <= |s|
    ensures s[..i] + s[i..j] == s[..j]
  {
  }

  lemma TakeGrows<T>(s: seq<T>, n: nat)
    requires n < |s|
    ensures s[..n + 1] == s[..n] + [s[n]] && s[n..] == [s[n]] + s[n + 1..] && s[n..][1..] == s[n + 1..]
  {
  }

  function Pow2(k: nat): nat { if k == 0 then 1 else 2 * Pow2(k - 1) }

  // ----- a list parsed one element at a time -------------------------------

  /** The result of parsing a list whose first elements are already taken. */
  ghost function Onto<T>(front: seq<T>, more: Option<(seq<T>, Bytes)>): Option<(seq<T>, Bytes)> {
    match more
    case None => None
    case Some((tail, rest)) => Some((front + tail, rest))
  }

  lemma OntoNothing<T>(more: Option<(seq<T>, Bytes)>)
    ensures Onto([], more) == more
  {
    if more.Some? { assert [] + more.value.0 == more.value.0; }
  }

  lemma OntoStep<T>(front: seq<T>, one: T, more: Option<(seq<T>, Bytes)>)
    ensures Onto(front, Onto([one], more)) == Onto(front + [one], more)
  {
    if more.Some? { Assoc(front, [one], more.value.0); }
  }

  // ----- big-endian integers ---------------------------------------------

  function Pow256(width: nat): (p: nat)
    ensures p >= 1
  {
    if width == 0 then 1 else 256 * Pow256(width - 1)
  }

  /** The big-endian bytes of `v` at the given width (the low bytes of `v`). */
  function ToBig(width: nat, v: nat): (s: Bytes)
    ensures |s| == width
  {
    if width == 0 then [] else ToBig(width - 1, v / 256) + [v % 256]
  }

  function FromBig(s: Bytes): (v: nat)
    ensures v < Pow256(|s|)
  {
    if s == [] then 0 else FromBig(s[..|s| - 1]) * 256 + s[|s| - 1]
  }

  lemma PowerValues()
    ensures Pow256(1) == 256 && Pow256(2) == 0x1_0000 && Pow256(4) == U32_LIMIT && Pow256(8) == U64_LIMIT
  {
    assert Pow256(2) == 256 * Pow256(1);
    assert Pow256(3) == 256 * Pow256(2);
    assert Pow256(4) == 256 * Pow256(3);
    assert Pow256(5) == 256 * Pow256(4);
    assert Pow256(6) == 256 * Pow256(5);
    assert Pow256(7) == 256 * Pow256(6);
  }

  lemma Digit(high: nat, low: Byte)
    ensures (high * 256 + low) / 256 == high && (high * 256 + low) % 256 == low
  {
  }

  lemma Snoc(s: Bytes, low: Byte)
    ensures (s + [low])[..|s|] == s && (s + [low])[|s|] == low
  {
  }

  lemma {:induction false} FromToBig(width: nat, v: nat)
    requires v < Pow256(width)
    ensures FromBig(ToBig(width, v)) == v
  {
    if width > 0 {
      FromToBig(width - 1, v / 256);
      Snoc(ToBig(width - 1, v / 256), v % 256);
    }
  }

  lemma {:induction false} ToFromBig(s: Bytes)
    ensures ToBig(|s|, FromBig(s)) == s
  {
    if s != [] {
      var front, low := s[..|s| - 1], s[|s| - 1];
      ToFromBig(front);
      Digit(FromBig(front), low);
      TakeGrows(s, |s| - 1);
    }
  }

  lemma {:induction false} ToBigInjective(width: nat, a: nat, b: nat)
    requires a < Pow256(width) && b < Pow256(width) && ToBig(width, a) == ToBig(width, b)
    ensures a == b
  {
    FromToBig(width, a);
    FromToBig(width, b);
  }

  function U32Bytes(v: U32): (s: Bytes)
    ensures |s| == 4
  {
    ToBig(4, v)
  }

  function U64Bytes(v: U64): (s: Bytes)
    ensures |s| == 8
  {
    ToBig(8, v)
  }

  function ReadU32(s: Bytes): U32
    requires |s| == 4
  {
    PowerValues();
    FromBig(s)
  }

  function ReadU64(s: Bytes): U64
    requires |s| == 8
  {
    PowerValues();
    FromBig(s)
  }

  lemma U32RoundTrip(v: U32)
    ensures ReadU32(U32Bytes(v)) == v
  {
    PowerValues();
    FromToBig(4, v);
  }

  lemma U64RoundTrip(v: U64)
    ensures ReadU64(U64Bytes(v)) == v
  {
    PowerValues();
    FromToBig(8, v);
  }

  lemma U32Canonical(s: Bytes)
    requires |s| == 4
    ensures U32Bytes(ReadU32(s)) == s
  {
    ToFromBig(s);
  }

  lemma U64Canonical(s: Bytes)
    requires |s| == 8
    ensures U64Bytes(ReadU64(s)) == s
  {
    ToFromBig(s);
  }

  // ----- unsigned lexicographic order ------------------------------------

  predicate LexLess(a: Bytes, b: Bytes) {
    b != [] && (a == [] || a[0] < b[0] || (a[0] == b[0] && LexLess(a[1..], b[1..])))
  }

  lemma {:induction false} LexIrreflexive(a: Bytes)
    ensures !LexLess(a, a)
  {
    if a != [] { LexIrreflexive(a[1..]); }
  }

  lemma {:induction false} LexTransitive(a: Bytes, b: Bytes, c: Bytes)
    requires LexLess(a, b) && LexLess(b, c)
    ensures LexLess(a, c)
  {
    if a != [] && a[0] == b[0] && b[0] == c[0] { LexTransitive(a[1..], b[1..], c[1..]); }
  }

  lemma {:induction false} LexTotal(a: Bytes, b: Bytes)
    ensures a == b || LexLess(a, b) || LexLess(b, a)
  {
    if a != [] && b != [] && a[0] == b[0] {
      LexTotal(a[1..], b[1..]);
      assert a == [a[0]] + a[1..] && b == [b[0]] + b[1..];
    }
  }

  /** Encodings of equal length compare first where they first differ, so a
      common-length prefix decides the order of two concatenations. */
  lemma {:induction false} LexConcat(a: Bytes, b: Bytes, x: Bytes, y: Bytes)
    requires |a| == |b|
    ensures LexLess(a + x, b + y) <==> LexLess(a, b) || (a == b && LexLess(x, y))
  {
    if a == [] {
      assert a + x == x && b + y == y;
    } else {
      LexConcat(a[1..], b[1..], x, y);
      assert (a + x)[1..] == a[1..] + x && (b + y)[1..] == b[1..] + y;
      assert a[0] == b[0] && a[1..] == b[1..] ==> a == b by {
        assert a == [a[0]] + a[1..] && b == [b[0]] + b[1..];
      }
    }
  }

  lemma {:induction false} BigPreservesOrder(width: nat, a: nat, b: nat)
    requires a < Pow256(width) && b < Pow256(width)
    ensures LexLess(ToBig(width, a), ToBig(width, b)) <==> a < b
  {
    if width > 0 {
      BigPreservesOrder(width - 1, a / 256, b / 256);
      LexConcat(ToBig(width - 1, a / 256), ToBig(width - 1, b / 256), [a % 256], [b % 256]);
      if ToBig(width - 1, a / 256) == ToBig(width - 1, b / 256) {
        ToBigInjective(width - 1, a / 256, b / 256);
      }
    }
  }
}
