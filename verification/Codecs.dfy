/** The canonical record codec (src/codec.zig) over every supported type shape:
    integers, booleans, fixed arrays, structs, exhaustive enums, bounded bytes. */
module Codecs {
  import opened Wire
  import Frames

  /** A supported type. Widths are in bytes; an enum lists its declared tags. */
  datatype Shape =
    | IntShape(width: nat, signed: bool)
    | BoolShape
    | ArrayShape(length: nat, element: Shape)
    | StructShape(fields: seq<Shape>)
    | EnumShape(width: nat, tags: set<nat>)
    | BytesShape(bound: nat)

  /** A value in memory. Bounded bytes keep their whole backing storage, of which
      only `data[..length]` is active. */
  datatype Value =
    | IntValue(n: int)
    | BoolValue(b: bool)
    | Composite(parts: seq<Value>)
    | EnumValue(tag: nat)
    | BytesValue(length: U32, data: Bytes)

  predicate IntegerWidth(width: nat) { width == 1 || width == 2 || width == 4 || width == 8 }

  /** The shapes the codec compiles for. */
  predicate Supported(shape: Shape) {
    match shape
    case IntShape(width, _) => IntegerWidth(width)
    case BoolShape => true
    case ArrayShape(length, element) => length < U32_LIMIT && Supported(element)
    case StructShape(fields) => forall f | f in fields :: Supported(f)
    case EnumShape(width, tags) => IntegerWidth(width) && forall t | t in tags :: t < Pow256(width)
    case BytesShape(bound) => bound < U32_LIMIT
  }

  /** The element types of an array or struct, in encoding order. */
  function Parts(shape: Shape): (parts: seq<Shape>)
    requires shape.ArrayShape? || shape.StructShape?
    ensures forall i | 0 <= i < |parts| :: parts[i] < shape
    ensures Supported(shape) ==> forall i | 0 <= i < |parts| :: Supported(parts[i])
  {
    match shape
    case ArrayShape(length, element) => seq(length, _ => element)
    case StructShape(fields) => fields
  }

  function SignBit(width: nat): int { Pow256(width) / 2 }

  /** The values a Zig variable of this shape can hold. */
  ghost predicate HasShape(shape: Shape, v: Value)
    decreases shape
  {
    match shape
    case IntShape(width, signed) =>
      v.IntValue? && if signed then -SignBit(width) <= v.n < SignBit(width) else 0 <= v.n < Pow256(width)
    case BoolShape => v.BoolValue?
    case EnumShape(_, tags) => v.EnumValue? && v.tag in tags
    case BytesShape(bound) => v.BytesValue? && |v.data| == bound
    case _ =>
      v.Composite? && |v.parts| == |Parts(shape)| && forall i | 0 <= i < |v.parts| :: HasShape(Parts(shape)[i], v.parts[i])
  }

  /** Bounded bytes are canonical when the length is in bounds and the unused
      storage is zero; everything else always is. */
  ghost predicate Canonical(shape: Shape, v: Value)
    requires HasShape(shape, v)
    decreases shape
  {
    match shape
    case BytesShape(bound) => v.length <= bound && forall i | v.length <= i < bound :: v.data[i] == 0
    case ArrayShape(_, _) => forall i | 0 <= i < |v.parts| :: Canonical(Parts(shape)[i], v.parts[i])
    case StructShape(_) => forall i | 0 <= i < |v.parts| :: Canonical(Parts(shape)[i], v.parts[i])
    case _ => true
  }

  ghost predicate Encodes(shape: Shape, v: Value) { Supported(shape) && HasShape(shape, v) && Canonical(shape, v) }

  ghost predicate EncodesAll(shapes: seq<Shape>, vs: seq<Value>) {
    |shapes| == |vs| && forall i | 0 <= i < |vs| :: Encodes(shapes[i], vs[i])
  }

  lemma {:induction false} CompositeEncodes(shape: Shape, v: Value)
    requires Supported(shape) && (shape.ArrayShape? || shape.StructShape?)
    ensures Encodes(shape, v) <==> v.Composite? && EncodesAll(Parts(shape), v.parts)
  {
  }

  function MaximumSize(shape: Shape): nat {
    match shape
    case IntShape(width, _) => width
    case BoolShape => 1
    case ArrayShape(_, _) => MaximumSizes(shape, Parts(shape))
    case StructShape(_) => MaximumSizes(shape, Parts(shape))
    case EnumShape(width, _) => width
    case BytesShape(bound) => 4 + bound
  }

  function MaximumSizes(owner: Shape, shapes: seq<Shape>): nat
    requires forall i | 0 <= i < |shapes| :: shapes[i] < owner
    decreases owner, |shapes|
  {
    if shapes == [] then 0 else MaximumSize(shapes[0]) + MaximumSizes(owner, shapes[1..])
  }

  // ----- integers ----------------------------------------------------------

  /** The two's-complement bits of a value, read as an unsigned number. */
  function BitCast(width: nat, n: int): int { if n < 0 then n + Pow256(width) else n }

  /** Exclusive-or with the sign bit. */
  function FlipSign(width: nat, raw: int): int {
    if raw >= SignBit(width) then raw - SignBit(width) else raw + SignBit(width)
  }

  function RawInt(width: nat, signed: bool, n: int): int {
    if signed then FlipSign(width, BitCast(width, n)) else n
  }

  function FromRaw(width: nat, signed: bool, raw: int): int {
    if !signed then raw else
    var bits := FlipSign(width, raw);
    if bits >= SignBit(width) then bits - Pow256(width) else bits
  }

  lemma {:induction false} SignBitDoubles(width: nat)
    requires width > 0
    ensures 2 * SignBit(width) == Pow256(width) && SignBit(width) > 0
  {
  }

  /** Flipping the sign bit shifts the signed range onto the unsigned one, so the
      raw numbers are in range, invert, and keep numeric order. */
  lemma {:induction false} RawIntFacts(width: nat, signed: bool, n: int)
    requires width > 0
    requires if signed then -SignBit(width) <= n < SignBit(width) else 0 <= n < Pow256(width)
    ensures 0 <= RawInt(width, signed, n) < Pow256(width)
    ensures RawInt(width, signed, n) == if signed then n + SignBit(width) else n
    ensures FromRaw(width, signed, RawInt(width, signed, n)) == n
  {
    SignBitDoubles(width);
  }

  lemma {:induction false} FromRawFacts(width: nat, signed: bool, raw: int)
    requires width > 0 && 0 <= raw < Pow256(width)
    ensures var n := FromRaw(width, signed, raw);
            && (if signed then -SignBit(width) <= n < SignBit(width) else 0 <= n < Pow256(width))
            && RawInt(width, signed, n) == raw
  {
    SignBitDoubles(width);
  }

  // ----- encoding and decoding ---------------------------------------------

  function EncodeInt(width: nat, signed: bool, n: int): Bytes {
    var raw := RawInt(width, signed, n);
    ToBig(width, if raw >= 0 then raw else 0)
  }

  function Encode(shape: Shape, v: Value): Bytes
    requires Encodes(shape, v)
    decreases shape
  {
    match shape
    case IntShape(width, signed) => EncodeInt(width, signed, v.n)
    case BoolShape => [if v.b then 1 else 0]
    case EnumShape(width, _) => ToBig(width, v.tag)
    case BytesShape(_) => ToBig(4, v.length) + v.data[..v.length]
    case _ => CompositeEncodes(shape, v); EncodeAll(shape, Parts(shape), v.parts)
  }

  function EncodeAll(owner: Shape, shapes: seq<Shape>, vs: seq<Value>): Bytes
    requires EncodesAll(shapes, vs) && forall i | 0 <= i < |shapes| :: shapes[i] < owner
    decreases owner, |shapes|
  {
    if shapes == [] then [] else Encode(shapes[0], vs[0]) + EncodeAll(owner, shapes[1..], vs[1..])
  }

  function DecodeInt(width: nat, signed: bool, s: Bytes): Option<(Value, Bytes)> {
    match Frames.TakeBytes(s, width)
    case None => None
    case Some((head, rest)) => Some((IntValue(FromRaw(width, signed, FromBig(head))), rest))
  }

  function DecodeEnum(width: nat, tags: set<nat>, s: Bytes): Option<(Value, Bytes)> {
    match Frames.TakeBytes(s, width)
    case None => None
    case Some((head, rest)) => if FromBig(head) in tags then Some((EnumValue(FromBig(head)), rest)) else None
  }

  function Zeros(n: nat): (z: Bytes)
    ensures |z| == n
  {
    seq(n, _ => 0)
  }

  function DecodeBytes(bound: nat, s: Bytes): Option<(Value, Bytes)> {
    if |s| < 4 then None else
    var length := ReadU32(s[..4]);
    if length > bound then None else
    match Frames.TakeBytes(s[4..], length)
    case None => None
    case Some((data, rest)) => Some((BytesValue(length, data + Zeros(bound - length)), rest))
  }

  /** The value at the front of `s` and the bytes after it. */
  function Decode(shape: Shape, s: Bytes): Option<(Value, Bytes)>
    decreases shape
  {
    match shape
    case IntShape(width, signed) => DecodeInt(width, signed, s)
    case BoolShape =>
      if s == [] then None
      else if s[0] == 0 then Some((BoolValue(false), s[1..]))
      else if s[0] == 1 then Some((BoolValue(true), s[1..]))
      else None
    case EnumShape(width, tags) => DecodeEnum(width, tags, s)
    case BytesShape(bound) => DecodeBytes(bound, s)
    case _ =>
      match DecodeAll(shape, Parts(shape), s)
      case None => None
      case Some((vs, rest)) => Some((Composite(vs), rest))
  }

  function DecodeAll(owner: Shape, shapes: seq<Shape>, s: Bytes): (d: Option<(seq<Value>, Bytes)>)
    requires forall i | 0 <= i < |shapes| :: shapes[i] < owner
    ensures d.Some? ==> |d.value.0| == |shapes|
    decreases owner, |shapes|
  {
    if shapes == [] then Some(([], s)) else
    match Decode(shapes[0], s)
    case None => None
    case Some((v, after)) =>
      match DecodeAll(owner, shapes[1..], after)
      case None => None
      case Some((vs, rest)) => Some(([v] + vs, rest))
  }

  // ----- decode undoes encode ----------------------------------------------

  lemma DecodeEncodedInt(width: nat, signed: bool, n: int, rest: Bytes)
    requires Encodes(IntShape(width, signed), IntValue(n))
    ensures DecodeInt(width, signed, EncodeInt(width, signed, n) + rest) == Some((IntValue(n), rest))
  {
    hide ToBig, FromBig, RawInt, FromRaw, SignBit;
    RawIntFacts(width, signed, n);
    FromToBig(width, RawInt(width, signed, n));
    Split(EncodeInt(width, signed, n), rest);
  }

  lemma {:induction false} DecodeEncodedEnum(width: nat, tags: set<nat>, tag: nat, rest: Bytes)
    requires Encodes(EnumShape(width, tags), EnumValue(tag))
    ensures DecodeEnum(width, tags, ToBig(width, tag) + rest) == Some((EnumValue(tag), rest))
  {
    hide ToBig, FromBig;
    FromToBig(width, tag);
    Split(ToBig(width, tag), rest);
  }

  lemma DecodeEncodedBytes(bound: nat, v: Value, rest: Bytes)
    requires Encodes(BytesShape(bound), v)
    ensures DecodeBytes(bound, ToBig(4, v.length) + v.data[..v.length] + rest) == Some((v, rest))
  {
    U32RoundTrip(v.length);
    var active := v.data[..v.length];
    Assoc(ToBig(4, v.length), active, rest);
    Split(ToBig(4, v.length), active + rest);
    Split(active, rest);
    assert active + Zeros(bound - v.length) == v.data;
  }

  lemma {:induction false} DecodeEncodedLeaf(shape: Shape, v: Value, rest: Bytes)
    requires Encodes(shape, v) && !shape.ArrayShape? && !shape.StructShape?
    ensures Decode(shape, Encode(shape, v) + rest) == Some((v, rest))
  {
    match shape
    case IntShape(width, signed) => DecodeEncodedInt(width, signed, v.n, rest);
    case BoolShape => Split(Encode(shape, v), rest);
    case EnumShape(width, tags) => DecodeEncodedEnum(width, tags, v.tag, rest);
    case BytesShape(bound) => DecodeEncodedBytes(bound, v, rest);
  }

  /** Decoding undoes encoding at the front of any stream: the encodings of one
      shape are prefix-free. */
  lemma {:induction false} DecodeEncoded(shape: Shape, v: Value, rest: Bytes)
    requires Encodes(shape, v)
    ensures Decode(shape, Encode(shape, v) + rest) == Some((v, rest))
    decreases shape
  {
    if shape.ArrayShape? || shape.StructShape? {
      CompositeEncodes(shape, v);
      DecodeEncodedAll(shape, Parts(shape), v.parts, rest);
    } else {
      DecodeEncodedLeaf(shape, v, rest);
    }
  }

  lemma {:induction false} DecodeEncodedAll(owner: Shape, shapes: seq<Shape>, vs: seq<Value>, rest: Bytes)
    requires EncodesAll(shapes, vs) && forall i | 0 <= i < |shapes| :: shapes[i] < owner
    ensures DecodeAll(owner, shapes, EncodeAll(owner, shapes, vs) + rest) == Some((vs, rest))
    decreases owner, |shapes|
  {
    hide Encode, Decode, Encodes;
    if shapes == [] {
      assert [] + rest == rest;
    } else {
      var more := EncodeAll(owner, shapes[1..], vs[1..]);
      Assoc(Encode(shapes[0], vs[0]), more, rest);
      DecodeEncoded(shapes[0], vs[0], more + rest);
      DecodeEncodedAll(owner, shapes[1..], vs[1..], rest);
      assert vs == [vs[0]] + vs[1..];
    }
  }

  // ----- accepted input re-encodes to itself -------------------------------

  lemma EncodeDecodedBytes(bound: nat, s: Bytes)
    requires bound < U32_LIMIT && DecodeBytes(bound, s).Some?
    ensures var (v, rest) := DecodeBytes(bound, s).value;
            Encodes(BytesShape(bound), v) && s == ToBig(4, v.length) + v.data[..v.length] + rest
  {
    var (v, rest) := DecodeBytes(bound, s).value;
    var data := s[4..][..v.length];
    U32Canonical(s[..4]);
    Rejoin(s, 4);
    Rejoin(s[4..], v.length);
    Split(data, Zeros(bound - v.length));
    Assoc(s[..4], data, rest);
  }

  lemma {:induction false} EncodeDecodedLeaf(shape: Shape, s: Bytes)
    requires Supported(shape) && !shape.ArrayShape? && !shape.StructShape? && Decode(shape, s).Some?
    ensures var (v, rest) := Decode(shape, s).value; Encodes(shape, v) && s == Encode(shape, v) + rest
  {
    match shape
    case IntShape(width, signed) =>
      Rejoin(s, width);
      ToFromBig(s[..width]);
      FromRawFacts(width, signed, FromBig(s[..width]));
    case BoolShape => assert s == [s[0]] + s[1..];
    case EnumShape(width, tags) =>
      Rejoin(s, width);
      ToFromBig(s[..width]);
    case BytesShape(bound) => EncodeDecodedBytes(bound, s);
  }

  /** The decoder is strict: whatever it accepts is exactly the encoding of the
      value it returns. */
  lemma {:induction false} EncodeDecoded(shape: Shape, s: Bytes)
    requires Supported(shape) && Decode(shape, s).Some?
    ensures var (v, rest) := Decode(shape, s).value; Encodes(shape, v) && s == Encode(shape, v) + rest
    decreases shape
  {
    if shape.ArrayShape? || shape.StructShape? {
      EncodeDecodedAll(shape, Parts(shape), s);
      var (vs, rest) := DecodeAll(shape, Parts(shape), s).value;
      CompositeEncodes(shape, Composite(vs));
    } else {
      EncodeDecodedLeaf(shape, s);
    }
  }

  lemma {:induction false} EncodeDecodedAll(owner: Shape, shapes: seq<Shape>, s: Bytes)
    requires forall i | 0 <= i < |shapes| :: shapes[i] < owner && Supported(shapes[i])
    requires DecodeAll(owner, shapes, s).Some?
    ensures var (vs, rest) := DecodeAll(owner, shapes, s).value; EncodesAll(shapes, vs) && s == EncodeAll(owner, shapes, vs) + rest
    decreases owner, |shapes|
  {
    hide Encode, Decode, Encodes, Supported;
    if shapes == [] {
      assert [] + s == s;
    } else {
      var (v, after) := Decode(shapes[0], s).value;
      EncodeDecoded(shapes[0], s);
      EncodeDecodedAll(owner, shapes[1..], after);
      var (vs, rest) := DecodeAll(owner, shapes[1..], after).value;
      var all := [v] + vs;
      assert all[1..] == vs;
      Assoc(Encode(shapes[0], v), EncodeAll(owner, shapes[1..], vs), rest);
    }
  }

  // ----- size --------------------------------------------------------------

  lemma {:induction false} EncodedSize(shape: Shape, v: Value)
    requires Encodes(shape, v)
    ensures |Encode(shape, v)| <= MaximumSize(shape)
    decreases shape
  {
    if shape.ArrayShape? || shape.StructShape? {
      CompositeEncodes(shape, v);
      EncodedSizes(shape, Parts(shape), v.parts);
    }
  }

  lemma {:induction false} EncodedSizes(owner: Shape, shapes: seq<Shape>, vs: seq<Value>)
    requires EncodesAll(shapes, vs) && forall i | 0 <= i < |shapes| :: shapes[i] < owner
    ensures |EncodeAll(owner, shapes, vs)| <= MaximumSizes(owner, shapes)
    decreases owner, |shapes|
  {
    hide Encode, Encodes, MaximumSize;
    if shapes != [] {
      EncodedSize(shapes[0], vs[0]);
      EncodedSizes(owner, shapes[1..], vs[1..]);
    }
  }

  /** The shape has values: no enum in it is without tags. */
  predicate Inhabited(shape: Shape) {
    match shape
    case EnumShape(_, tags) => tags != {}
    case ArrayShape(_, element) => Inhabited(element)
    case StructShape(fields) => forall f | f in fields :: Inhabited(f)
    case _ => true
  }

  /** The size computed from the shape is needed: some value takes all of it. */
  lemma {:induction false} MaximumIsReached(shape: Shape) returns (v: Value)
    requires Supported(shape) && Inhabited(shape)
    ensures Encodes(shape, v) && |Encode(shape, v)| == MaximumSize(shape)
    decreases shape
  {
    match shape
    case IntShape(_, _) => SignBitDoubles(shape.width); v := IntValue(0);
    case BoolShape => v := BoolValue(true);
    case EnumShape(_, tags) =>
      var tag :| tag in tags;
      v := EnumValue(tag);
    case BytesShape(bound) => v := BytesValue(bound, Zeros(bound));
    case _ =>
      var vs := MaximaAreReached(shape, Parts(shape));
      v := Composite(vs);
      CompositeEncodes(shape, v);
  }

  lemma {:induction false} MaximaAreReached(owner: Shape, shapes: seq<Shape>) returns (vs: seq<Value>)
    requires forall i | 0 <= i < |shapes| :: shapes[i] < owner && Supported(shapes[i]) && Inhabited(shapes[i])
    ensures EncodesAll(shapes, vs) && |EncodeAll(owner, shapes, vs)| == MaximumSizes(owner, shapes)
    decreases owner, |shapes|
  {
    hide Encode, Encodes, MaximumSize;
    vs := [];
    if shapes != [] {
      var first := MaximumIsReached(shapes[0]);
      var more := MaximaAreReached(owner, shapes[1..]);
      vs := [first] + more;
      assert vs[1..] == more;
    }
  }

  // ----- order -------------------------------------------------------------

  /** Structural order: numeric, false before true, by enum tag, length first for
      bounded bytes, and by first differing part for composites. */
  ghost predicate Less(shape: Shape, a: Value, b: Value)
    requires HasShape(shape, a) && HasShape(shape, b)
    decreases shape
  {
    match shape
    case IntShape(_, _) => a.n < b.n
    case BoolShape => !a.b && b.b
    case EnumShape(_, _) => a.tag < b.tag
    case BytesShape(bound) =>
      a.length < b.length || (a.length == b.length <= bound && LexLess(a.data[..a.length], b.data[..b.length]))
    case _ =>
      exists i :: 0 <= i < |a.parts| && a.parts[..i] == b.parts[..i] && Less(Parts(shape)[i], a.parts[i], b.parts[i])
  }

  ghost predicate LessAll(owner: Shape, shapes: seq<Shape>, a: seq<Value>, b: seq<Value>)
    requires EncodesAll(shapes, a) && EncodesAll(shapes, b)
  {
    exists i :: 0 <= i < |a| && a[..i] == b[..i] && Less(shapes[i], a[i], b[i])
  }

  /** Where neither of two strings is a prefix of the other, what follows them
      cannot change their order. */
  lemma {:induction false} LexDecided(x: Bytes, y: Bytes, u: Bytes, v: Bytes)
    requires !(x <= y) && !(y <= x)
    ensures LexLess(x + u, y + v) <==> LexLess(x, y)
  {
    if x[0] == y[0] {
      var xs, ys := x[1..], y[1..];
      assert x == [x[0]] + xs && y == [y[0]] + ys;
      LexDecided(xs, ys, u, v);
      assert (x + u)[1..] == xs + u && (y + v)[1..] == ys + v;
    }
  }

  lemma {:induction false} PrefixFree(shape: Shape, a: Value, b: Value)
    requires Encodes(shape, a) && Encodes(shape, b) && Encode(shape, a) <= Encode(shape, b)
    ensures a == b
  {
    hide Encode, Decode, Encodes;
    var x, y := Encode(shape, a), Encode(shape, b);
    DecodeEncoded(shape, a, y[|x|..]);
    DecodeEncoded(shape, b, []);
    Rejoin(y, |x|);
    assert y[..|x|] == x && y + [] == y;
    assert Decode(shape, y) == Some((a, y[|x|..])) && Decode(shape, y) == Some((b, []));
  }

  lemma {:induction false} BytesOrder(bound: nat, a: Value, b: Value)
    requires Encodes(BytesShape(bound), a) && Encodes(BytesShape(bound), b)
    ensures LexLess(ToBig(4, a.length) + a.data[..a.length], ToBig(4, b.length) + b.data[..b.length])
            <==> a.length < b.length || (a.length == b.length <= bound && LexLess(a.data[..a.length], b.data[..b.length]))
  {
    hide LexLess, ToBig;
    PowerValues();
    BigPreservesOrder(4, a.length, b.length);
    LexConcat(ToBig(4, a.length), ToBig(4, b.length), a.data[..a.length], b.data[..b.length]);
    if ToBig(4, a.length) == ToBig(4, b.length) { ToBigInjective(4, a.length, b.length); }
  }

  lemma {:induction false} LeafOrder(shape: Shape, a: Value, b: Value)
    requires Encodes(shape, a) && Encodes(shape, b) && !shape.ArrayShape? && !shape.StructShape?
    ensures LexLess(Encode(shape, a), Encode(shape, b)) <==> Less(shape, a, b)
  {
    hide ToBig, RawInt, FromRaw, Pow256, SignBit;
    match shape
    case IntShape(width, signed) =>
      RawIntFacts(width, signed, a.n);
      RawIntFacts(width, signed, b.n);
      BigPreservesOrder(width, RawInt(width, signed, a.n), RawInt(width, signed, b.n));
    case BoolShape =>
    case EnumShape(width, tags) =>
      BigPreservesOrder(width, a.tag, b.tag);
    case BytesShape(bound) =>
      BytesOrder(bound, a, b);
  }

  /** Byte order of encodings is structural order of values. */
  lemma {:induction false} EncodingPreservesOrder(shape: Shape, a: Value, b: Value)
    requires Encodes(shape, a) && Encodes(shape, b)
    ensures LexLess(Encode(shape, a), Encode(shape, b)) <==> Less(shape, a, b)
    decreases shape
  {
    if shape.ArrayShape? || shape.StructShape? {
      CompositeEncodes(shape, a);
      CompositeEncodes(shape, b);
      AllPreserveOrder(shape, Parts(shape), a.parts, b.parts);
    } else {
      LeafOrder(shape, a, b);
    }
  }

  lemma NothingLess(owner: Shape, shapes: seq<Shape>, a: seq<Value>, b: seq<Value>)
    requires EncodesAll(shapes, a) && EncodesAll(shapes, b) && shapes == []
    ensures !LessAll(owner, shapes, a, b)
  {
  }

  lemma SameFront(a: seq<Value>, b: seq<Value>, i: nat)
    requires 0 < i <= |a| && i <= |b| && a[..i] == b[..i]
    ensures a[0] == b[0] && a[1..][..i - 1] == b[1..][..i - 1]
  {
    assert a[0] == a[..i][0] && b[0] == b[..i][0];
    assert a[1..][..i - 1] == a[..i][1..] && b[1..][..i - 1] == b[..i][1..];
  }

  lemma FirstDifference(owner: Shape, shapes: seq<Shape>, a: seq<Value>, b: seq<Value>)
    requires EncodesAll(shapes, a) && EncodesAll(shapes, b) && shapes != [] && LessAll(owner, shapes, a, b)
    ensures Less(shapes[0], a[0], b[0]) || (a[0] == b[0] && LessAll(owner, shapes[1..], a[1..], b[1..]))
  {
    hide Less;
    var i :| 0 <= i < |a| && a[..i] == b[..i] && Less(shapes[i], a[i], b[i]);
    if i > 0 {
      SameFront(a, b, i);
      assert Less(shapes[1..][i - 1], a[1..][i - 1], b[1..][i - 1]);
    }
  }

  lemma SameLongerFront(a: seq<Value>, b: seq<Value>, i: nat)
    requires i < |a| == |b| && a[0] == b[0] && a[1..][..i] == b[1..][..i]
    ensures a[..i + 1] == b[..i + 1]
  {
    assert a[..i + 1] == [a[0]] + a[1..][..i] && b[..i + 1] == [b[0]] + b[1..][..i];
  }

  lemma LaterDifference(owner: Shape, shapes: seq<Shape>, a: seq<Value>, b: seq<Value>)
    requires EncodesAll(shapes, a) && EncodesAll(shapes, b) && shapes != [] && a[0] == b[0]
    requires LessAll(owner, shapes[1..], a[1..], b[1..])
    ensures LessAll(owner, shapes, a, b)
  {
    hide Less, Supported, Canonical, HasShape;
    var i :| 0 <= i < |a[1..]| && a[1..][..i] == b[1..][..i] && Less(shapes[1..][i], a[1..][i], b[1..][i]);
    SameLongerFront(a, b, i);
    var j := i + 1;
    assert shapes[1..][i] == shapes[j] && a[1..][i] == a[j] && b[1..][i] == b[j];
    assert a[..j] == b[..j] && Less(shapes[j], a[j], b[j]);
  }

  lemma LessAllStep(owner: Shape, shapes: seq<Shape>, a: seq<Value>, b: seq<Value>)
    requires EncodesAll(shapes, a) && EncodesAll(shapes, b) && shapes != []
    ensures LessAll(owner, shapes, a, b) <==>
              if a[0] == b[0] then Less(shapes[0], a[0], b[0]) || LessAll(owner, shapes[1..], a[1..], b[1..])
              else Less(shapes[0], a[0], b[0])
  {
    if LessAll(owner, shapes, a, b) { FirstDifference(owner, shapes, a, b); }
    if Less(shapes[0], a[0], b[0]) { assert a[..0] == b[..0]; }
    if a[0] == b[0] && LessAll(owner, shapes[1..], a[1..], b[1..]) { LaterDifference(owner, shapes, a, b); }
  }

  lemma {:induction false} AllPreserveOrder(owner: Shape, shapes: seq<Shape>, a: seq<Value>, b: seq<Value>)
    requires EncodesAll(shapes, a) && EncodesAll(shapes, b) && forall i | 0 <= i < |shapes| :: shapes[i] < owner
    ensures LexLess(EncodeAll(owner, shapes, a), EncodeAll(owner, shapes, b)) <==> LessAll(owner, shapes, a, b)
    decreases owner, |shapes|
  {
    hide Encode, Encodes, Less, LessAll;
    if shapes == [] {
      NothingLess(owner, shapes, a, b);
    } else {
      var x, y := Encode(shapes[0], a[0]), Encode(shapes[0], b[0]);
      var u, v := EncodeAll(owner, shapes[1..], a[1..]), EncodeAll(owner, shapes[1..], b[1..]);
      EncodingPreservesOrder(shapes[0], a[0], b[0]);
      AllPreserveOrder(owner, shapes[1..], a[1..], b[1..]);
      LessAllStep(owner, shapes, a, b);
      if a[0] == b[0] {
        LexConcat(x, y, u, v);
        LexIrreflexive(x);
      } else {
        if x <= y { PrefixFree(shapes[0], a[0], b[0]); }
        if y <= x { PrefixFree(shapes[0], b[0], a[0]); }
        LexDecided(x, y, u, v);
      }
    }
  }

  // ----- the writer and the reader -----------------------------------------

  datatype EncodeError = NoSpace | NonCanonical

  lemma {:induction false} EncodeAllSnoc(owner: Shape, shapes: seq<Shape>, vs: seq<Value>, i: nat)
    requires i < |shapes| && EncodesAll(shapes, vs) && forall j | 0 <= j < |shapes| :: shapes[j] < owner
    ensures EncodesAll(shapes[..i], vs[..i]) && EncodesAll(shapes[..i + 1], vs[..i + 1])
    ensures EncodeAll(owner, shapes[..i + 1], vs[..i + 1]) == EncodeAll(owner, shapes[..i], vs[..i]) + Encode(shapes[i], vs[i])
    decreases i
  {
    hide Encode, Encodes;
    var p, q := shapes[..i + 1], vs[..i + 1];
    var e := Encode(shapes[i], vs[i]);
    if i == 0 {
      assert e + [] == [] + e;
    } else {
      EncodeAllSnoc(owner, shapes[1..], vs[1..], i - 1);
      assert p[1..] == shapes[1..][..i] && q[1..] == vs[1..][..i];
      assert shapes[..i][1..] == shapes[1..][..i - 1] && vs[..i][1..] == vs[1..][..i - 1];
      Assoc(Encode(shapes[0], vs[0]), EncodeAll(owner, shapes[1..][..i - 1], vs[1..][..i - 1]), e);
    }
  }

  lemma {:induction false} EncodeAllPrefix(owner: Shape, shapes: seq<Shape>, vs: seq<Value>, i: nat)
    requires i <= |shapes| && EncodesAll(shapes, vs) && forall j | 0 <= j < |shapes| :: shapes[j] < owner
    ensures EncodesAll(shapes[..i], vs[..i])
    ensures |EncodeAll(owner, shapes[..i], vs[..i])| <= |EncodeAll(owner, shapes, vs)|
    decreases |shapes| - i
  {
    hide Encode, Encodes;
    if i == |shapes| {
      assert shapes[..i] == shapes && vs[..i] == vs;
    } else {
      EncodeAllSnoc(owner, shapes, vs, i);
      EncodeAllPrefix(owner, shapes, vs, i + 1);
    }
  }

  method Write(out: array<Byte>, position: nat, data: Bytes) returns (written: Result<nat, EncodeError>)
    requires position <= out.Length
    modifies out
    ensures position + |data| <= out.Length ==> written == Ok(position + |data|) && out[..position + |data|] == old(out[..position]) + data
    ensures position + |data| > out.Length ==> written == Err(NoSpace) && out[..position] == old(out[..position])
  {
    if |data| > out.Length - position { return Err(NoSpace); }
    var next := Frames.Put(out, position, data);
    return Ok(next);
  }

  method EncodeBytesInto(bound: nat, v: Value, out: array<Byte>, position: nat) returns (written: Result<nat, EncodeError>)
    requires bound < U32_LIMIT && HasShape(BytesShape(bound), v) && position <= out.Length
    modifies out
    ensures written.Ok? <==> Canonical(BytesShape(bound), v) && position + 4 + v.length <= out.Length
    ensures written.Ok? ==> written.value == position + 4 + v.length
    ensures written.Ok? ==> out[..written.value] == old(out[..position]) + (ToBig(4, v.length) + v.data[..v.length])
    ensures written == Err(NonCanonical) ==> !Canonical(BytesShape(bound), v)
  {
    if v.length > bound { return Err(NonCanonical); }
    for i := v.length to bound
      invariant forall j | v.length <= j < i :: v.data[j] == 0
    {
      if v.data[i] != 0 { return Err(NonCanonical); }
    }
    ghost var before := out[..position];
    written := Write(out, position, ToBig(4, v.length));
    if written.Err? { return; }
    written := Write(out, written.value, v.data[..v.length]);
    Assoc(before, ToBig(4, v.length), v.data[..v.length]);
  }

  /** Appends the encoding of `v` at `position`. It succeeds exactly when the value
      is canonical and its encoding fits, and then has written just that. */
  method EncodeInto(shape: Shape, v: Value, out: array<Byte>, position: nat) returns (written: Result<nat, EncodeError>)
    requires Supported(shape) && HasShape(shape, v) && position <= out.Length
    modifies out
    ensures written.Ok? <==> Canonical(shape, v) && position + |Encode(shape, v)| <= out.Length
    ensures written.Ok? ==> written.value == position + |Encode(shape, v)|
    ensures written.Ok? ==> out[..written.value] == old(out[..position]) + Encode(shape, v)
    ensures written == Err(NonCanonical) ==> !Canonical(shape, v)
    decreases shape
  {
    match shape
    case IntShape(width, signed) =>
      written := Write(out, position, EncodeInt(width, signed, v.n));
    case BoolShape =>
      written := Write(out, position, [if v.b then 1 else 0]);
    case EnumShape(width, _) =>
      written := Write(out, position, ToBig(width, v.tag));
    case BytesShape(bound) =>
      written := EncodeBytesInto(bound, v, out, position);
    case _ =>
      written := EncodePartsInto(shape, v, out, position);
  }

  lemma {:induction false} EncodeNothing(owner: Shape)
    ensures EncodesAll([], []) && EncodeAll(owner, [], []) == []
  {
  }

  lemma {:induction false} PartAdded(owner: Shape, shapes: seq<Shape>, vs: seq<Value>, i: nat)
    requires i < |shapes| == |vs| && forall j | 0 <= j < |shapes| :: shapes[j] < owner
    requires EncodesAll(shapes[..i], vs[..i]) && Encodes(shapes[i], vs[i])
    ensures EncodesAll(shapes[..i + 1], vs[..i + 1])
    ensures EncodeAll(owner, shapes[..i + 1], vs[..i + 1]) == EncodeAll(owner, shapes[..i], vs[..i]) + Encode(shapes[i], vs[i])
  {
    hide Encode, EncodeAll, Encodes;
    var p, q := shapes[..i + 1], vs[..i + 1];
    forall j | 0 <= j < |q| ensures Encodes(p[j], q[j]) {
      if j < i { assert shapes[..i][j] == p[j] && vs[..i][j] == q[j]; }
    }
    EncodeAllSnoc(owner, p, q, i);
    assert p[..i] == shapes[..i] && q[..i] == vs[..i] && p[..i + 1] == p && q[..i + 1] == q;
  }

  lemma {:induction false} WholeEncoding(shape: Shape, v: Value)
    requires Encodes(shape, v) && (shape.ArrayShape? || shape.StructShape?)
    ensures EncodesAll(Parts(shape), v.parts) && Encode(shape, v) == EncodeAll(shape, Parts(shape), v.parts)
  {
    CompositeEncodes(shape, v);
  }

  /** A part that is not canonical, or does not fit after those before it, refuses
      the whole value. */
  lemma {:induction false} PartRefused(shape: Shape, v: Value, i: nat, used: nat, room: nat)
    requires Supported(shape) && HasShape(shape, v) && (shape.ArrayShape? || shape.StructShape?) && i < |v.parts|
    requires EncodesAll(Parts(shape)[..i], v.parts[..i]) && used == |EncodeAll(shape, Parts(shape)[..i], v.parts[..i])|
    ensures !Canonical(Parts(shape)[i], v.parts[i]) ==> !Canonical(shape, v)
    ensures Canonical(shape, v) && used + |Encode(Parts(shape)[i], v.parts[i])| > room ==> |Encode(shape, v)| > room
  {
    hide Encode;
    if Canonical(shape, v) {
      WholeEncoding(shape, v);
      EncodeAllSnoc(shape, Parts(shape), v.parts, i);
      EncodeAllPrefix(shape, Parts(shape), v.parts, i + 1);
    }
  }

  method EncodePartsInto(shape: Shape, v: Value, out: array<Byte>, position: nat) returns (written: Result<nat, EncodeError>)
    requires Supported(shape) && HasShape(shape, v) && (shape.ArrayShape? || shape.StructShape?) && position <= out.Length
    modifies out
    ensures written.Ok? <==> Canonical(shape, v) && position + |Encode(shape, v)| <= out.Length
    ensures written.Ok? ==> written.value == position + |Encode(shape, v)|
    ensures written.Ok? ==> out[..written.value] == old(out[..position]) + Encode(shape, v)
    ensures written == Err(NonCanonical) ==> !Canonical(shape, v)
    decreases shape, 0
  {
    hide Encode, EncodeAll;
    var shapes := Parts(shape);
    ghost var before, done: Bytes := out[..position], [];
    assert before + [] == before && EncodeAll(shape, [], []) == [] by { EncodeNothing(shape); }
    var next := position;
    for i := 0 to |shapes|
      invariant next <= out.Length && EncodesAll(shapes[..i], v.parts[..i])
      invariant done == EncodeAll(shape, shapes[..i], v.parts[..i])
      invariant next == position + |done| && out[..next] == before + done
    {
      written := EncodeInto(shapes[i], v.parts[i], out, next);
      PartRefused(shape, v, i, |done|, out.Length - position);
      if written.Err? { return; }
      PartAdded(shape, shapes, v.parts, i);
      Assoc(before, done, Encode(shapes[i], v.parts[i]));
      next, done := written.value, done + Encode(shapes[i], v.parts[i]);
    }
    assert shapes[..|shapes|] == shapes && v.parts[..|shapes|] == v.parts;
    CompositeEncodes(shape, v);
    WholeEncoding(shape, v);
    return Ok(next);
  }

  /** Reads the value at the front of what the reader has left. */
  method DecodeFrom(shape: Shape, reader: Frames.Reader) returns (value: Option<Value>)
    requires Supported(shape) && reader.Valid()
    modifies reader
    ensures reader.Valid()
    ensures match Decode(shape, old(reader.Rest()))
            case None => value == None
            case Some((v, rest)) => value == Some(v) && reader.Rest() == rest
    decreases shape
  {
    match shape
    case IntShape(width, signed) =>
      var head := reader.Take(width);
      if head.None? { return None; }
      return Some(IntValue(FromRaw(width, signed, FromBig(head.value))));
    case BoolShape =>
      var tag := reader.Take(1);
      if tag.None? { return None; }
      if tag.value[0] == 0 { return Some(BoolValue(false)); }
      if tag.value[0] == 1 { return Some(BoolValue(true)); }
      return None;
    case EnumShape(width, tags) =>
      var head := reader.Take(width);
      if head.None? || FromBig(head.value) !in tags { return None; }
      return Some(EnumValue(FromBig(head.value)));
    case BytesShape(bound) =>
      var length := reader.TakeInt();
      if length.None? || length.value > bound { return None; }
      var data := reader.Take(length.value);
      if data.None? { return None; }
      return Some(BytesValue(length.value, data.value + Zeros(bound - length.value)));
    case _ =>
      value := DecodePartsFrom(shape, reader);
  }

  lemma {:induction false} DecodeOneMore(owner: Shape, shapes: seq<Shape>, s: Bytes)
    requires shapes != [] && forall i | 0 <= i < |shapes| :: shapes[i] < owner
    ensures Decode(shapes[0], s).None? ==> DecodeAll(owner, shapes, s) == None
    ensures Decode(shapes[0], s).Some? ==>
              DecodeAll(owner, shapes, s) == Onto([Decode(shapes[0], s).value.0], DecodeAll(owner, shapes[1..], Decode(shapes[0], s).value.1))
  {
    hide Decode;
  }

  method DecodePartsFrom(shape: Shape, reader: Frames.Reader) returns (value: Option<Value>)
    requires Supported(shape) && reader.Valid() && (shape.ArrayShape? || shape.StructShape?)
    modifies reader
    ensures reader.Valid()
    ensures match DecodeAll(shape, Parts(shape), old(reader.Rest()))
            case None => value == None
            case Some((vs, rest)) => value == Some(Composite(vs)) && reader.Rest() == rest
    decreases shape, 0
  {
    hide Decode;
    var shapes := Parts(shape);
    var vs: seq<Value> := [];
    ghost var all := DecodeAll(shape, shapes, reader.Rest());
    OntoNothing(all);
    assert shapes[0..] == shapes;
    for i := 0 to |shapes|
      invariant reader.Valid()
      invariant all == Onto(vs, DecodeAll(shape, shapes[i..], reader.Rest()))
    {
      ghost var here := reader.Rest();
      TakeGrows(shapes, i);
      var v := DecodeFrom(shapes[i], reader);
      DecodeOneMore(shape, shapes[i..], here);
      if v.None? { return None; }
      OntoStep(vs, v.value, DecodeAll(shape, shapes[i + 1..], reader.Rest()));
      vs := vs + [v.value];
    }
    assert vs + [] == vs;
    return Some(Composite(vs));
  }
}
