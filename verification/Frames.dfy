/** Canonical bucket frames (src/bucket.zig): the byte image of a bucket, its
    two-pass writer and its strict parser. */
module Frames {
  import opened Wire
  import opened Buckets

  /** Lengths are machine words of a 64-bit target. */
  const USIZE_MAX: nat := 0xffff_ffff_ffff_ffff

  function Ascii(s: string): (b: Bytes)
    ensures |b| == |s|
  {
    seq(|s|, i requires 0 <= i < |s| => (s[i] as int) % 256)
  }

  const DOMAIN: Bytes := Ascii("bucketlist.bucket.v1") + [0]

  /** Bytes of the empty frame: the domain tag and a zero count. */
  const EMPTY_LENGTH: nat := 29

  datatype FrameError = InvalidBucket | InvalidRecordOrder | RecordTooLarge

  // ----- record framing ---------------------------------------------------

  predicate Fits(r: Record) {
    |r.key| < U32_LIMIT && (r.value.Some? ==> |r.value.value| < U32_LIMIT)
  }

  function FrameEffect(e: Effect): Bytes {
    match e
    case None => [0]
    case Some(v) => [1] + (ToBig(4, |v|) + v)
  }

  function RowSize(r: Record): nat {
    9 + |r.key| + match r.value case None => 0 case Some(v) => 4 + |v|
  }

  function FrameRecord(r: Record): (s: Bytes)
    ensures |s| == RowSize(r)
  {
    ToBig(4, r.table) + (ToBig(4, |r.key|) + (r.key + FrameEffect(r.value)))
  }

  function FrameRows(rows: seq<Record>): Bytes {
    if rows == [] then [] else FrameRecord(rows[0]) + FrameRows(rows[1..])
  }

  function EncodeFrame(rows: seq<Record>): Bytes {
    DOMAIN + ToBig(8, |rows|) + FrameRows(rows)
  }

  function RowsSize(rows: seq<Record>): nat {
    if rows == [] then 0 else RowSize(rows[0]) + RowsSize(rows[1..])
  }

  /** The row lists that have a frame. */
  ghost predicate Encodable(rows: seq<Record>) {
    Sorted(rows) && (forall r | r in rows :: Fits(r)) && EMPTY_LENGTH + RowsSize(rows) <= USIZE_MAX
  }

  /** `size` bytes from the front of `s`, and the rest. */
  function TakeBytes(s: Bytes, size: nat): Option<(Bytes, Bytes)> {
    if |s| < size then None else Some((s[..size], s[size..]))
  }

  function TakeEffect(s: Bytes): Option<(Effect, Bytes)> {
    if s == [] then None
    else if s[0] == 0 then Some((None, s[1..]))
    else if s[0] != 1 || |s| < 5 then None
    else
      match TakeBytes(s[1..][4..], ReadU32(s[1..][..4]))
      case None => None
      case Some((value, rest)) => Some((Some(value), rest))
  }

  /** The record framed at the front of `s`, and the bytes after it. */
  function TakeRecord(s: Bytes): Option<(Record, Bytes)> {
    if |s| < 8 then None else
    var table, after := ReadU32(s[..4]), s[4..];
    match TakeBytes(after[4..], ReadU32(after[..4]))
    case None => None
    case Some((key, effect)) =>
      match TakeEffect(effect)
      case None => None
      case Some((value, rest)) => Some((Record(table, key, value), rest))
  }

  predicate EffectFits(e: Effect) { e.Some? ==> |e.value| < U32_LIMIT }

  lemma TakeFramedEffect(e: Effect, rest: Bytes)
    requires EffectFits(e)
    ensures TakeEffect(FrameEffect(e) + rest) == Some((e, rest))
  {
    if e.Some? {
      var length := ToBig(4, |e.value|);
      U32RoundTrip(|e.value|);
      Assoc([1], length + e.value, rest);
      Assoc(length, e.value, rest);
      Split([1], length + (e.value + rest));
      Split(length, e.value + rest);
      Split(e.value, rest);
    } else {
      Split([0], rest);
    }
  }

  /** Framing is prefix-free: a framed record is recovered from any stream that
      starts with it. */
  lemma TakeFramed(r: Record, rest: Bytes)
    requires Fits(r)
    ensures TakeRecord(FrameRecord(r) + rest) == Some((r, rest))
  {
    hide FrameEffect, TakeEffect;
    var table, length, effect := ToBig(4, r.table), ToBig(4, |r.key|), FrameEffect(r.value);
    U32RoundTrip(r.table);
    U32RoundTrip(|r.key|);
    Assoc(table, length + (r.key + effect), rest);
    Assoc(length, r.key + effect, rest);
    Assoc(r.key, effect, rest);
    Split(table, length + (r.key + (effect + rest)));
    Split(length, r.key + (effect + rest));
    Split(r.key, effect + rest);
    TakeFramedEffect(r.value, rest);
  }

  lemma TakenEffectIsFramed(s: Bytes)
    requires TakeEffect(s).Some?
    ensures var (e, rest) := TakeEffect(s).value; EffectFits(e) && s == FrameEffect(e) + rest
  {
    var (e, rest) := TakeEffect(s).value;
    Rejoin(s, 1);
    One(s, 0);
    if e.Some? {
      var t := s[1..];
      U32Canonical(t[..4]);
      Rejoin(t, 4);
      Rejoin(t[4..], |e.value|);
      Assoc(t[..4], e.value, rest);
      Assoc([1], t[..4] + e.value, rest);
    }
  }

  /** Whatever parses as a record is exactly that record's frame. */
  lemma TakenIsFramed(s: Bytes)
    requires TakeRecord(s).Some?
    ensures var (r, rest) := TakeRecord(s).value; Fits(r) && s == FrameRecord(r) + rest
  {
    hide FrameEffect, TakeEffect;
    var (r, rest) := TakeRecord(s).value;
    var t := s[4..];
    var u := t[4..];
    U32Canonical(s[..4]);
    U32Canonical(t[..4]);
    Rejoin(s, 4);
    Rejoin(t, 4);
    Rejoin(u, |r.key|);
    TakenEffectIsFramed(u[|r.key|..]);
    var effect := FrameEffect(r.value);
    Assoc(r.key, effect, rest);
    Assoc(t[..4], r.key + effect, rest);
    Assoc(s[..4], t[..4] + (r.key + effect), rest);
  }

  /** `count` records from the front of `s`, and the bytes after them. */
  function TakeRows(s: Bytes, count: nat): (t: Option<(seq<Record>, Bytes)>)
    ensures t.Some? ==> |t.value.0| == count
  {
    if count == 0 then Some(([], s)) else
    match TakeRecord(s)
    case None => None
    case Some((r, after)) =>
      match TakeRows(after, count - 1)
      case None => None
      case Some((rows, rest)) => Some(([r] + rows, rest))
  }

  lemma {:induction false} TakeFramedRows(rows: seq<Record>, rest: Bytes)
    requires forall r | r in rows :: Fits(r)
    ensures TakeRows(FrameRows(rows) + rest, |rows|) == Some((rows, rest))
  {
    hide TakeRecord, FrameRecord, RowSize;
    if rows == [] {
      assert FrameRows(rows) + rest == rest;
    } else {
      var r, tail := rows[0], rows[1..];
      TakeFramedRows(tail, rest);
      Assoc(FrameRecord(r), FrameRows(tail), rest);
      TakeFramed(r, FrameRows(tail) + rest);
      assert rows == [r] + tail;
    }
  }

  lemma {:induction false} RowsCons(r: Record, tail: seq<Record>)
    ensures FrameRows([r] + tail) == FrameRecord(r) + FrameRows(tail)
    ensures RowsSize([r] + tail) == RowSize(r) + RowsSize(tail)
  {
    hide FrameRecord, RowSize;
    assert ([r] + tail)[1..] == tail;
  }

  lemma {:induction false} TakenRowsAreFramed(s: Bytes, count: nat)
    requires TakeRows(s, count).Some?
    ensures var (rows, rest) := TakeRows(s, count).value;
            (forall r | r in rows :: Fits(r)) && s == FrameRows(rows) + rest
    decreases count
  {
    hide TakeRecord, FrameRecord, RowSize;
    if count == 0 {
      assert [] + s == s;
    } else {
      var (r, after) := TakeRecord(s).value;
      TakenIsFramed(s);
      TakenRowsAreFramed(after, count - 1);
      var (tail, rest) := TakeRows(after, count - 1).value;
      RowsCons(r, tail);
      Assoc(FrameRecord(r), FrameRows(tail), rest);
    }
  }

  /** Two streams of framed records agree only when the records do. */
  lemma {:induction false} FrameRowsInjective(a: seq<Record>, b: seq<Record>)
    requires (forall r | r in a :: Fits(r)) && (forall r | r in b :: Fits(r))
    requires |a| == |b| && FrameRows(a) == FrameRows(b)
    ensures a == b
  {
    hide TakeRecord, FrameRecord, TakeRows, FrameRows;
    TakeFramedRows(a, []);
    TakeFramedRows(b, []);
  }

  lemma {:induction false} FrameRowsConcat(a: seq<Record>, b: seq<Record>)
    ensures FrameRows(a + b) == FrameRows(a) + FrameRows(b)
    ensures RowsSize(a + b) == RowsSize(a) + RowsSize(b)
  {
    hide FrameRecord;
    if a == [] {
      assert a + b == b;
    } else {
      FrameRowsConcat(a[1..], b);
      Assoc(FrameRecord(a[0]), FrameRows(a[1..]), FrameRows(b));
      Assoc([a[0]], a[1..], b);
      assert a == [a[0]] + a[1..];
      RowsCons(a[0], a[1..] + b);
    }
  }

  lemma {:induction false} RowsSnoc(front: seq<Record>, r: Record)
    ensures FrameRows(front + [r]) == FrameRows(front) + FrameRecord(r)
    ensures RowsSize(front + [r]) == RowsSize(front) + RowSize(r)
  {
    hide FrameRecord;
    FrameRowsConcat(front, [r]);
    RowsCons(r, []);
    assert FrameRecord(r) + [] == FrameRecord(r);
  }

  lemma FrameRowsSnoc(rows: seq<Record>, i: nat)
    requires i < |rows|
    ensures FrameRows(rows[..i + 1]) == FrameRows(rows[..i]) + FrameRecord(rows[i])
    ensures RowsSize(rows[i..]) == RowSize(rows[i]) + RowsSize(rows[i + 1..])
  {
    TakeGrows(rows, i);
    hide FrameRecord, RowSize;
    FrameRowsConcat(rows[..i], [rows[i]]);
    RowsCons(rows[i], []);
    RowsCons(rows[i], rows[i + 1..]);
    assert FrameRecord(rows[i]) + [] == FrameRecord(rows[i]);
  }

  lemma {:induction false} RowsSizeLower(rows: seq<Record>)
    ensures RowsSize(rows) >= 9 * |rows|
    ensures |FrameRows(rows)| == RowsSize(rows)
  {
    if rows != [] { RowsSizeLower(rows[1..]); }
  }

  /** A merge output has a frame no longer than its inputs' rows together. */
  lemma {:induction false} MergeFits(older: seq<Record>, newer: seq<Record>)
    requires (forall r | r in older :: Fits(r)) && (forall r | r in newer :: Fits(r))
    ensures forall r | r in MergeRows(older, newer) :: Fits(r)
    ensures RowsSize(MergeRows(older, newer)) <= RowsSize(older) + RowsSize(newer)
    decreases |older| + |newer|
  {
    hide Before, RowSize, Fits;
    if older != [] && newer != [] {
      match Compare(older[0].Id(), newer[0].Id())
      case Lt =>
        MergeFits(older[1..], newer);
        RowsCons(older[0], MergeRows(older[1..], newer));
      case Eq =>
        MergeFits(older[1..], newer[1..]);
        RowsCons(newer[0], MergeRows(older[1..], newer[1..]));
      case Gt =>
        MergeFits(older, newer[1..]);
        RowsCons(newer[0], MergeRows(older, newer[1..]));
    }
  }

  lemma {:induction false} LiveFits(rows: seq<Record>)
    requires forall r | r in rows :: Fits(r)
    ensures forall r | r in LiveRows(rows) :: Fits(r)
    ensures RowsSize(LiveRows(rows)) <= RowsSize(rows)
  {
    hide RowSize, Fits;
    if rows != [] {
      LiveFits(rows[1..]);
      if rows[0].value.Some? { RowsCons(rows[0], LiveRows(rows[1..])); }
      else { assert [] + LiveRows(rows[1..]) == LiveRows(rows[1..]); }
    }
  }

  lemma EncodableSorted(rows: seq<Record>)
    requires Encodable(rows)
    ensures Sorted(rows)
  {
  }

  lemma {:induction false} MergeEncodable(older: Bucket, newer: Bucket, dropTombstones: bool)
    requires Encodable(older) && Encodable(newer) && EMPTY_LENGTH + RowsSize(older) + RowsSize(newer) <= USIZE_MAX
    ensures Encodable(Merge(older, newer, dropTombstones))
  {
    hide RowsSize, Fits, MergeRows, LiveRows, Sorted;
    MergeFits(older, newer);
    LiveFits(MergeRows(older, newer));
  }

  // ----- whole frames -----------------------------------------------------

  /** What the checking pass of the writer reports first, from row `i` with
      `length` bytes already counted. */
  function FirstFault(rows: seq<Record>, i: nat, length: nat): Option<FrameError>
    requires i <= |rows|
    decreases |rows| - i
  {
    if i == |rows| then None
    else if i != 0 && !Before(rows[i - 1].Id(), rows[i].Id()) then Some(InvalidRecordOrder)
    else if !Fits(rows[i]) || length + RowSize(rows[i]) > USIZE_MAX then Some(RecordTooLarge)
    else FirstFault(rows, i + 1, length + RowSize(rows[i]))
  }

  /** Row `j` follows its predecessor and fits its length fields. */
  ghost predicate RowPasses(rows: seq<Record>, j: nat)
    requires j < |rows|
  {
    (j != 0 ==> Before(rows[j - 1].Id(), rows[j].Id())) && Fits(rows[j])
  }

  lemma RowPassing(rows: seq<Record>, j: nat)
    requires j < |rows|
    ensures RowPasses(rows, j) <==> (j == 0 || Before(rows[j - 1].Id(), rows[j].Id())) && Fits(rows[j])
  {
  }

  lemma {:induction false} FaultFreeFrom(rows: seq<Record>, i: nat, length: nat)
    requires i <= |rows| && length <= USIZE_MAX
    ensures FirstFault(rows, i, length) == None <==>
            && (forall j | i <= j < |rows| :: RowPasses(rows, j))
            && length + RowsSize(rows[i..]) <= USIZE_MAX
    decreases |rows| - i
  {
    hide RowPasses, RowSize;
    if i < |rows| {
      assert RowPasses(rows, i) <==> (i == 0 || Before(rows[i - 1].Id(), rows[i].Id())) && Fits(rows[i]) by { RowPassing(rows, i); }
      assert rows[i..][1..] == rows[i + 1..];
      if length + RowSize(rows[i]) <= USIZE_MAX { FaultFreeFrom(rows, i + 1, length + RowSize(rows[i])); }
    }
  }

  /** The writer's checks accept exactly the encodable row lists. */
  lemma {:induction false} FaultFree(rows: seq<Record>)
    ensures FirstFault(rows, 0, EMPTY_LENGTH) == None <==> Encodable(rows)
  {
    FaultFreeFrom(rows, 0, EMPTY_LENGTH);
    assert rows[0..] == rows;
    if FirstFault(rows, 0, EMPTY_LENGTH) == None {
      forall j | 0 <= j < |rows| ensures Fits(rows[j]) && (j != 0 ==> Before(rows[j - 1].Id(), rows[j].Id())) { assert RowPasses(rows, j); }
      AdjacentSorted(rows);
    }
  }

  lemma {:induction false} FaultFrom(rows: seq<Record>, i: nat, length: nat) returns (k: nat)
    requires i <= |rows| && length <= USIZE_MAX && FirstFault(rows, i, length).Some?
    ensures i <= k < |rows| && (forall j | i <= j < k :: RowPasses(rows, j)) && length + RowsSize(rows[i..k]) <= USIZE_MAX
    ensures if k != 0 && !Before(rows[k - 1].Id(), rows[k].Id()) then FirstFault(rows, i, length) == Some(InvalidRecordOrder)
            else FirstFault(rows, i, length) == Some(RecordTooLarge) && (!Fits(rows[k]) || length + RowsSize(rows[i..k]) + RowSize(rows[k]) > USIZE_MAX)
    decreases |rows| - i
  {
    hide RowSize;
    if (i != 0 && !Before(rows[i - 1].Id(), rows[i].Id())) || !Fits(rows[i]) || length + RowSize(rows[i]) > USIZE_MAX {
      k := i;
    } else {
      k := FaultFrom(rows, i + 1, length + RowSize(rows[i]));
      assert rows[i..k][1..] == rows[i + 1..k];
    }
  }

  /** The fault reported is the first: the rows before it could be written, and with
      it they cannot, for its order if it follows no smaller row and else for size. */
  lemma {:induction false} FaultIsFirst(rows: seq<Record>) returns (k: nat)
    requires !Encodable(rows)
    ensures k < |rows| && Encodable(rows[..k]) && !Encodable(rows[..k + 1])
    ensures FirstFault(rows, 0, EMPTY_LENGTH) ==
              Some(if k > 0 && !Before(rows[k - 1].Id(), rows[k].Id()) then InvalidRecordOrder else RecordTooLarge)
  {
    hide RowSize, FirstFault, RowsSize;
    FaultFree(rows);
    k := FaultFrom(rows, 0, EMPTY_LENGTH);
    var front, more := rows[..k], rows[..k + 1];
    assert rows[0..k] == front;
    TakeGrows(rows, k);
    RowsSnoc(front, rows[k]);
    forall j | 0 <= j < k ensures Fits(front[j]) && (j != 0 ==> Before(front[j - 1].Id(), front[j].Id())) { assert RowPasses(rows, j); }
    AdjacentSorted(front);
    assert more[k] == rows[k] && (k > 0 ==> more[k - 1] == rows[k - 1]);
  }

  /** Sorted rows can only be refused for their size. */
  lemma {:induction false} SortedFault(rows: seq<Record>, i: nat, length: nat)
    requires Sorted(rows) && i <= |rows|
    ensures FirstFault(rows, i, length).Some? ==> FirstFault(rows, i, length).value == RecordTooLarge
    decreases |rows| - i
  {
    if i < |rows| { SortedFault(rows, i + 1, length + RowSize(rows[i])); }
  }

  /** The strict parser of a whole frame. */
  function DecodeFrame(encoded: Bytes): Result<seq<Record>, FrameError> {
    if |encoded| < EMPTY_LENGTH || encoded[..21] != DOMAIN then Err(InvalidBucket) else
    var count := ReadU64(encoded[21..29]);
    if count > (|encoded| - 29) / 9 then Err(InvalidBucket) else
    match TakeRows(encoded[29..], count)
    case None => Err(InvalidBucket)
    case Some((rows, rest)) =>
      if rest != [] then Err(InvalidBucket) else
      match FirstFault(rows, 0, EMPTY_LENGTH)
      case None => Ok(rows)
      case Some(e) => Err(e)
  }

  lemma DecodedIsFrame(encoded: Bytes, rows: seq<Record>)
    requires DecodeFrame(encoded) == Ok(rows)
    ensures Encodable(rows) && EncodeFrame(rows) == encoded
  {
    hide TakeRecord, FrameRecord, TakeRows, FrameRows, FirstFault;
    FaultFree(rows);
    var body := encoded[29..];
    TakenRowsAreFramed(body, |rows|);
    U64Canonical(encoded[21..29]);
    assert FrameRows(rows) + [] == FrameRows(rows);
    Extend(encoded, 21, 29);
    Rejoin(encoded, 29);
  }

  lemma {:induction false} FrameParts(rows: seq<Record>)
    requires |rows| < U64_LIMIT
    ensures var encoded := EncodeFrame(rows);
            && |encoded| >= EMPTY_LENGTH + 9 * |rows| && encoded[..21] == DOMAIN
            && ReadU64(encoded[21..29]) == |rows| && encoded[29..] == FrameRows(rows)
  {
    hide FrameRecord, FrameRows, RowsSize, ToBig;
    var count, body := ToBig(8, |rows|), FrameRows(rows);
    RowsSizeLower(rows);
    U64RoundTrip(|rows|);
    Split(DOMAIN + count, body);
    Assoc(DOMAIN, count, body);
    Split(DOMAIN, count + body);
    Split(count, body);
    SliceOfTail(DOMAIN + (count + body), 21, 0, 8);
  }

  /** Rows whose lengths fit their fields parse back from their frame, in any order;
      what is wrong with them is then found as the writer would find it. */
  lemma {:induction false} FramedDecodes(rows: seq<Record>)
    requires (forall r | r in rows :: Fits(r)) && |rows| < U64_LIMIT
    ensures DecodeFrame(EncodeFrame(rows)) == (match FirstFault(rows, 0, EMPTY_LENGTH) case None => Ok(rows) case Some(e) => Err(e))
  {
    hide EncodeFrame, TakeRecord, FrameRecord, TakeRows, FrameRows, FirstFault, Fits;
    FrameParts(rows);
    assert FrameRows(rows) + [] == FrameRows(rows);
    TakeFramedRows(rows, []);
  }

  lemma FrameDecodes(rows: seq<Record>)
    requires Encodable(rows)
    ensures DecodeFrame(EncodeFrame(rows)) == Ok(rows)
  {
    hide DecodeFrame, EncodeFrame, FirstFault;
    FaultFree(rows);
    RowsSizeLower(rows);
    FramedDecodes(rows);
  }

  /** The bytes are the frame of some rows, sorted or not. */
  ghost predicate IsFrame(encoded: Bytes) {
    exists rows: seq<Record> :: (forall r | r in rows :: Fits(r)) && |rows| < U64_LIMIT && EncodeFrame(rows) == encoded
  }

  lemma {:induction false} FaultIsAboutRows(rows: seq<Record>, i: nat, length: nat)
    requires i <= |rows|
    ensures FirstFault(rows, i, length) != Some(InvalidBucket)
    decreases |rows| - i
  {
    if i < |rows| { FaultIsAboutRows(rows, i + 1, length + RowSize(rows[i])); }
  }

  lemma DecodedRows(encoded: Bytes) returns (rows: seq<Record>)
    requires DecodeFrame(encoded) != Err(InvalidBucket)
    ensures (forall r | r in rows :: Fits(r)) && |rows| < U64_LIMIT && EncodeFrame(rows) == encoded
  {
    hide TakeRecord, FrameRecord, TakeRows, FrameRows, FirstFault;
    var body := encoded[29..];
    var count := ReadU64(encoded[21..29]);
    rows := TakeRows(body, count).value.0;
    TakenRowsAreFramed(body, count);
    U64Canonical(encoded[21..29]);
    assert FrameRows(rows) + [] == FrameRows(rows);
    Extend(encoded, 21, 29);
    Rejoin(encoded, 29);
  }

  /** The parser calls bytes malformed exactly when they are no frame at all. */
  lemma {:induction false} MalformedIsNoFrame(encoded: Bytes)
    ensures DecodeFrame(encoded) == Err(InvalidBucket) <==> !IsFrame(encoded)
  {
    hide DecodeFrame, EncodeFrame, FirstFault;
    if DecodeFrame(encoded) != Err(InvalidBucket) { var rows := DecodedRows(encoded); }
    if IsFrame(encoded) {
      var rows: seq<Record> :| (forall r | r in rows :: Fits(r)) && |rows| < U64_LIMIT && EncodeFrame(rows) == encoded;
      FramedDecodes(rows);
      FaultIsAboutRows(rows, 0, EMPTY_LENGTH);
    }
  }

  /** Frames and encodable row lists correspond one to one. */
  lemma DecodeExactly(encoded: Bytes, rows: seq<Record>)
    requires |encoded| <= USIZE_MAX
    ensures DecodeFrame(encoded) == Ok(rows) <==> Encodable(rows) && EncodeFrame(rows) == encoded
  {
    if DecodeFrame(encoded) == Ok(rows) { DecodedIsFrame(encoded, rows); }
    if Encodable(rows) && EncodeFrame(rows) == encoded { FrameDecodes(rows); }
  }

  lemma EncodeFrameInjective(a: seq<Record>, b: seq<Record>)
    requires Encodable(a) && Encodable(b) && EncodeFrame(a) == EncodeFrame(b)
    ensures a == b
  {
    RowsSizeLower(a);
    DecodeExactly(EncodeFrame(a), a);
    DecodeExactly(EncodeFrame(b), b);
  }

  // ----- the writer and the parser over buffers ---------------------------

  /** Copies `data` at `pos`, as `@memcpy` into a slice of the buffer. */
  method Put(buffer: array<Byte>, pos: nat, data: Bytes) returns (next: nat)
    requires pos + |data| <= buffer.Length
    modifies buffer
    ensures next == pos + |data|
    ensures buffer[..next] == old(buffer[..pos]) + data
  {
    forall i | 0 <= i < |data| { buffer[pos + i] := data[i]; }
    next := pos + |data|;
  }

  method CheckRows(rows: seq<Record>) returns (checked: Result<nat, FrameError>)
    ensures match FirstFault(rows, 0, EMPTY_LENGTH)
            case None => checked == Ok(EMPTY_LENGTH + RowsSize(rows))
            case Some(e) => checked == Err(e)
  {
    var length: nat := EMPTY_LENGTH;
    assert rows[0..] == rows;
    for i := 0 to |rows|
      invariant length + RowsSize(rows[i..]) == EMPTY_LENGTH + RowsSize(rows)
      invariant FirstFault(rows, i, length) == FirstFault(rows, 0, EMPTY_LENGTH)
    {
      var r := rows[i];
      TakeGrows(rows, i);
      if i != 0 && !Before(rows[i - 1].Id(), r.Id()) { return Err(InvalidRecordOrder); }
      if !Fits(r) || length + RowSize(r) > USIZE_MAX { return Err(RecordTooLarge); }
      length := length + RowSize(r);
    }
    return Ok(length);
  }

  method PutEffect(buffer: array<Byte>, start: nat, e: Effect) returns (pos: nat)
    requires start + |FrameEffect(e)| <= buffer.Length
    modifies buffer
    ensures pos == start + |FrameEffect(e)|
    ensures buffer[..pos] == old(buffer[..start]) + FrameEffect(e)
  {
    ghost var before := buffer[..start];
    match e
    case None =>
      pos := Put(buffer, start, [0]);
    case Some(v) =>
      ghost var length := ToBig(4, |v|);
      pos := Put(buffer, start, [1]);
      pos := Put(buffer, pos, ToBig(4, |v|));
      pos := Put(buffer, pos, v);
      Assoc(before, [1], length);
      Assoc(before, [1] + length, v);
      Assoc([1], length, v);
  }

  method PutRecord(buffer: array<Byte>, start: nat, r: Record) returns (pos: nat)
    requires start + RowSize(r) <= buffer.Length
    modifies buffer
    ensures pos == start + RowSize(r)
    ensures buffer[..pos] == old(buffer[..start]) + FrameRecord(r)
  {
    ghost var before := buffer[..start];
    ghost var table, length := ToBig(4, r.table), ToBig(4, |r.key|);
    pos := Put(buffer, start, ToBig(4, r.table));
    pos := Put(buffer, pos, ToBig(4, |r.key|));
    pos := Put(buffer, pos, r.key);
    ghost var named := buffer[..pos];
    pos := PutEffect(buffer, pos, r.value);
    Assoc(before, table, length);
    Assoc(before, table + length, r.key);
    Assoc(before, table + length + r.key, FrameEffect(r.value));
    Assoc(table, length, r.key);
    Assoc(table, length + r.key, FrameEffect(r.value));
    Assoc(length, r.key, FrameEffect(r.value));
  }

  method PutRows(buffer: array<Byte>, start: nat, rows: seq<Record>) returns (pos: nat)
    requires start + RowsSize(rows) <= buffer.Length
    modifies buffer
    ensures pos == start + RowsSize(rows)
    ensures buffer[..pos] == old(buffer[..start]) + FrameRows(rows)
  {
    pos := start;
    ghost var header := buffer[..start];
    assert rows[0..] == rows && header + [] == header;
    for i := 0 to |rows|
      invariant start <= pos && pos + RowsSize(rows[i..]) == start + RowsSize(rows)
      invariant buffer[..pos] == header + FrameRows(rows[..i])
    {
      FrameRowsSnoc(rows, i);
      Assoc(header, FrameRows(rows[..i]), FrameRecord(rows[i]));
      pos := PutRecord(buffer, pos, rows[i]);
    }
    assert rows[..|rows|] == rows;
  }

  /** Checks every row, then fills a buffer of exactly the counted size. */
  method FromSorted(rows: seq<Record>) returns (built: Result<Bytes, FrameError>)
    ensures match FirstFault(rows, 0, EMPTY_LENGTH)
            case None => built == Ok(EncodeFrame(rows)) && Encodable(rows)
            case Some(e) => built == Err(e)
  {
    FaultFree(rows);
    var checked := CheckRows(rows);
    if checked.Err? { return Err(checked.error); }
    var length := checked.value;
    RowsSizeLower(rows);
    var buffer := new Byte[length](_ => 0);
    var pos := Put(buffer, 0, DOMAIN);
    pos := Put(buffer, pos, ToBig(8, |rows|));
    ghost var header := DOMAIN + ToBig(8, |rows|);
    assert buffer[..pos] == header;
    pos := PutRows(buffer, pos, rows);
    assert buffer[..] == buffer[..pos];
    return Ok(buffer[..]);
  }

  /** A merge whose output is framed. The shortcuts hand an input on as it is; any
      other output is refused when its frame cannot be written. */
  method MergeFramed(older: Bucket, newer: Bucket, dropTombstones: bool) returns (merged: Result<Bucket, FrameError>)
    ensures merged.Ok? ==> merged.value == Merge(older, newer, dropTombstones)
    ensures merged.Err? ==> merged.error == RecordTooLarge && !Encodable(Merge(older, newer, dropTombstones))
  {
    hide Merge, FirstFault, Encodable;
    var rows := MergeBuckets(older, newer, dropTombstones);
    if !dropTombstones && (|newer| == 0 || |older| == 0) { return Ok(rows); }
    FaultFree(rows);
    SortedFault(rows, 0, EMPTY_LENGTH);
    var checked := CheckRows(rows);
    return if checked.Ok? then Ok(rows) else Err(checked.error);
  }

  class Reader {
    const bytes: Bytes
    var pos: nat

    constructor (bytes: Bytes, pos: nat)
      requires pos <= |bytes|
      ensures Valid() && this.bytes == bytes && this.pos == pos
    {
      this.bytes, this.pos := bytes, pos;
    }

    ghost predicate Valid() reads this { pos <= |bytes| }

    /** The bytes still to be read. */
    ghost function Rest(): Bytes
      reads this
      requires Valid()
    {
      bytes[pos..]
    }

    method Take(n: nat) returns (taken: Option<Bytes>)
      requires Valid()
      modifies this
      ensures Valid()
      ensures match TakeBytes(old(Rest()), n)
              case None => taken == None && pos == old(pos)
              case Some((head, rest)) => taken == Some(head) && Rest() == rest && pos == old(pos) + n
    {
      if n > |bytes| - pos { return None; }
      SliceOfTail(bytes, pos, 0, n);
      DropDrop(bytes, pos, n);
      taken := Some(bytes[pos..pos + n]);
      pos := pos + n;
    }

    method TakeInt() returns (value: Option<U32>)
      requires Valid()
      modifies this
      ensures Valid()
      ensures match TakeBytes(old(Rest()), 4)
              case None => value == None && pos == old(pos)
              case Some((head, rest)) => value == Some(ReadU32(head)) && Rest() == rest && pos == old(pos) + 4
    {
      var field := Take(4);
      if field.None? { return None; }
      return Some(ReadU32(field.value));
    }

    /** One record, field by field; it advances exactly over the record's frame. */
    method TakeRow() returns (row: Option<Record>)
      requires Valid()
      modifies this
      ensures Valid()
      ensures match TakeRecord(old(Rest()))
              case None => row == None
              case Some((r, rest)) => row == Some(r) && Rest() == rest && pos > old(pos)
    {
      var table := TakeInt();
      if table.None? { return None; }
      var keyLength := TakeInt();
      if keyLength.None? { return None; }
      var key := Take(keyLength.value);
      if key.None? { return None; }
      var effect := TakeValue();
      if effect.None? { return None; }
      return Some(Record(table.value, key.value, effect.value));
    }

    method TakeValue() returns (effect: Option<Effect>)
      requires Valid()
      modifies this
      ensures Valid() && pos >= old(pos)
      ensures match TakeEffect(old(Rest()))
              case None => effect == None
              case Some((e, rest)) => effect == Some(e) && Rest() == rest
    {
      var tag := Take(1);
      if tag.None? { return None; }
      if tag.value[0] == 0 { return Some(None); }
      if tag.value[0] != 1 { return None; }
      var valueLength := TakeInt();
      if valueLength.None? { return None; }
      var value := Take(valueLength.value);
      if value.None? { return None; }
      return Some(Some(value.value));
    }
  }

  lemma RowsAfterOne(s: Bytes, count: nat)
    requires count > 0
    ensures TakeRows(s, count) == match TakeRecord(s)
                                  case None => None
                                  case Some((r, after)) => Onto([r], TakeRows(after, count - 1))
  {
    hide TakeRecord;
  }

  method DecodeRows(reader: Reader, count: nat) returns (rows: Option<seq<Record>>)
    requires reader.Valid()
    modifies reader
    ensures reader.Valid()
    ensures match TakeRows(old(reader.Rest()), count)
            case None => rows == None
            case Some((taken, rest)) => rows == Some(taken) && reader.Rest() == rest
  {
    hide TakeRecord;
    var taken: seq<Record> := [];
    ghost var all := TakeRows(reader.Rest(), count);
    OntoNothing(all);
    for i := 0 to count
      invariant reader.Valid()
      invariant all == Onto(taken, TakeRows(reader.Rest(), count - i))
    {
      ghost var here := reader.Rest();
      var row := reader.TakeRow();
      RowsAfterOne(here, count - i);
      if row.None? { return None; }
      OntoStep(taken, row.value, TakeRows(reader.Rest(), count - i - 1));
      taken := taken + [row.value];
    }
    assert taken + [] == taken;
    return Some(taken);
  }

  method Decode(encoded: Bytes) returns (decoded: Result<seq<Record>, FrameError>)
    ensures decoded == DecodeFrame(encoded)
  {
    hide TakeRows, FirstFault;
    if |encoded| < EMPTY_LENGTH || encoded[..21] != DOMAIN { return Err(InvalidBucket); }
    var count := ReadU64(encoded[21..29]);
    if count > (|encoded| - 29) / 9 { return Err(InvalidBucket); }
    var reader := new Reader(encoded, 29);
    var rows := DecodeRows(reader, count);
    if rows.None? || reader.pos != |encoded| { return Err(InvalidBucket); }
    var checked := CheckRows(rows.value);
    if checked.Err? { return Err(checked.error); }
    return Ok(rows.value);
  }
}
