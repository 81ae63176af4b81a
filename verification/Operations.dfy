/** The operations of the reference model (tools/reference.py:37-38, 70-83, 116-130)
    against the production codec and batch: the same bytes for each call, and the
    same staged effects for each sequence of calls. */
module Operations {
  import opened Wire
  import opened Buckets
  import opened Staging
  import opened Reference
  import opened ReferenceDigests
  import opened Codecs
  import Frames

  /** The calls of the reference corpus on its two tables. */
  datatype Call =
    | PutAccount(account: int, balance: int, active: bool)
    | DeleteAccount(account: int)
    | PutName(name: Bytes, owner: nat)
    | DeleteName(name: Bytes)

  /** A signed integer moved up by half its range, in big endian. */
  function Shifted(n: int, width: nat): Bytes {
    var raised := n + Pow256(width) / 2;
    ToBig(width, if raised >= 0 then raised else 0)
  }

  function AccountKey(account: int): Identity { Identity(1, Shifted(account, 2)) }

  function NameKey(name: Bytes): Identity { Identity(2, Packed32(|name|) + name) }

  /** The operation a call stands for, in the reference model's bytes. */
  function OperationOf(call: Call): Operation {
    match call
    case PutAccount(account, balance, active) => Operation(AccountKey(account), Some(Shifted(balance, 8) + [if active then 1 else 0]))
    case DeleteAccount(account) => Operation(AccountKey(account), None)
    case PutName(name, owner) => Operation(NameKey(name), Some(Packed64(owner)))
    case DeleteName(name) => Operation(NameKey(name), None)
  }

  // ----- the same call through the codec -----------------------------------

  const ACCOUNT_KEY := IntShape(2, true)
  const ACCOUNT := StructShape([IntShape(8, true), BoolShape])
  const NAME_KEY := BytesShape(8)
  const NAME := IntShape(8, false)

  /** The arguments are values of the declared types. */
  predicate WellTyped(call: Call) {
    match call
    case PutAccount(account, balance, _) => -0x8000 <= account < 0x8000 && -0x8000_0000_0000_0000 <= balance < 0x8000_0000_0000_0000
    case DeleteAccount(account) => -0x8000 <= account < 0x8000
    case PutName(name, owner) => |name| <= 8 && owner < 0x1_0000_0000_0000_0000
    case DeleteName(name) => |name| <= 8
  }

  function KeyShape(call: Call): Shape { if call.PutAccount? || call.DeleteAccount? then ACCOUNT_KEY else NAME_KEY }

  function KeyOf(call: Call): Value
    requires WellTyped(call)
  {
    if call.PutAccount? || call.DeleteAccount? then IntValue(call.account)
    else BytesValue(|call.name|, call.name + Zeros(8 - |call.name|))
  }

  /** The shape and value a put stores; a deletion stores none. */
  function Put(call: Call): Option<(Shape, Value)> {
    match call
    case PutAccount(_, balance, active) => Some((ACCOUNT, Composite([IntValue(balance), BoolValue(active)])))
    case PutName(_, owner) => Some((NAME, IntValue(owner)))
    case _ => None
  }

  lemma {:induction false} SignedEncoding(n: int, width: nat)
    requires width == 2 || width == 8
    requires -SignBit(width) <= n < SignBit(width)
    ensures Encodes(IntShape(width, true), IntValue(n)) && Encode(IntShape(width, true), IntValue(n)) == Shifted(n, width)
  {
    hide ToBig;
    RawIntFacts(width, true, n);
  }

  lemma {:induction false} UnsignedEncoding(owner: nat)
    requires owner < Pow256(8)
    ensures Encodes(NAME, IntValue(owner)) && Encode(NAME, IntValue(owner)) == Packed64(owner)
  {
    hide ToBig;
  }

  lemma {:induction false} BytesEncoding(name: Bytes)
    requires |name| <= 8
    ensures var v := BytesValue(|name|, name + Zeros(8 - |name|));
            Encodes(NAME_KEY, v) && Encode(NAME_KEY, v) == NameKey(name).key
  {
    hide ToBig;
    assert (name + Zeros(8 - |name|))[..|name|] == name;
  }

  lemma {:induction false} AccountEncoding(balance: int, active: bool)
    requires -SignBit(8) <= balance < SignBit(8)
    ensures var v := Composite([IntValue(balance), BoolValue(active)]);
            Encodes(ACCOUNT, v) && Encode(ACCOUNT, v) == Shifted(balance, 8) + [if active then 1 else 0]
  {
    hide ToBig;
    var vs, shapes := [IntValue(balance), BoolValue(active)], [IntShape(8, true), BoolShape];
    SignedEncoding(balance, 8);
    CompositeEncodes(ACCOUNT, Composite(vs));
    assert vs[1..] == [BoolValue(active)] && shapes[1..] == [BoolShape];
    assert vs[1..][1..] == [] && shapes[1..][1..] == [];
    assert EncodeAll(ACCOUNT, shapes[1..][1..], vs[1..][1..]) == [];
    assert EncodeAll(ACCOUNT, shapes[1..], vs[1..]) == [if active then 1 else 0] + [];
  }

  /** Every call of the declared types stages the bytes the reference model has for
      it: the codec writes its keys and values. */
  lemma {:induction false} CallsAgree(call: Call)
    requires WellTyped(call)
    ensures Encodes(KeyShape(call), KeyOf(call)) && OperationOf(call).id.key == Encode(KeyShape(call), KeyOf(call))
    ensures Put(call).Some? ==>
              var (shape, v) := Put(call).value;
              Encodes(shape, v) && OperationOf(call).effect == Some(Encode(shape, v))
    ensures Put(call).None? ==> OperationOf(call).effect == None
  {
    hide ToBig, Encode, Encodes;
    PowerValues();
    match call
    case PutAccount(account, balance, active) => SignedEncoding(account, 2); AccountEncoding(balance, active);
    case DeleteAccount(account) => SignedEncoding(account, 2);
    case PutName(name, owner) => BytesEncoding(name); UnsignedEncoding(owner);
    case DeleteName(name) => BytesEncoding(name);
  }

  // ----- staging a sequence of calls ---------------------------------------

  function RowOf(op: Operation): Record { Record(op.id.table, op.id.key, op.effect) }

  function RowsOf(ops: seq<Operation>): seq<Record> { seq(|ops|, i requires 0 <= i < |ops| => RowOf(ops[i])) }

  lemma {:induction false} StageOne(base: Effects, ops: seq<Operation>, i: nat)
    requires i < |ops|
    ensures (base + EncodeOperations(ops[..i]))[ops[i].id := ops[i].effect] == base + EncodeOperations(ops[..i + 1])
  {
    assert ops[..i + 1][..i] == ops[..i];
  }

  lemma NothingStaged(base: Effects, ops: seq<Operation>)
    ensures base + EncodeOperations(ops[..0]) == base && Frames.RowsSize(RowsOf(ops)[..0]) == 0
  {
  }

  lemma {:induction false} FrontFits(rows: seq<Record>, k: nat)
    requires k <= |rows|
    ensures Frames.RowsSize(rows[..k]) <= Frames.RowsSize(rows)
  {
    hide Frames.RowSize;
    if k > 0 {
      FrontFits(rows[1..], k - 1);
      assert rows[..k][1..] == rows[1..][..k - 1];
    }
  }

  /** Staging calls one by one leaves over the batch what the reference model makes
      of them. A refused call ends it, with all earlier ones staged; within the
      budgets none is refused. */
  method Stage(batch: Batch, ops: seq<Operation>) returns (count: nat)
    requires batch.Valid()
    modifies batch
    ensures batch.Valid() && count <= |ops|
    ensures batch.Staged() == old(batch.Staged()) + EncodeOperations(ops[..count])
    ensures |old(batch.changes)| + |ops| <= batch.maxChanges && old(batch.byteCount) + Frames.RowsSize(RowsOf(ops)) <= batch.maxBytes ==> count == |ops|
  {
    hide View, EncodeOperations, Frames.RowSize, Frames.RowsSize;
    count := 0;
    ghost var base, rows := batch.Staged(), RowsOf(ops);
    NothingStaged(base, ops);
    while count < |ops|
      invariant count <= |ops| && batch.Valid()
      invariant batch.Staged() == base + EncodeOperations(ops[..count])
      invariant |batch.changes| <= |old(batch.changes)| + count
      invariant batch.byteCount <= old(batch.byteCount) + Frames.RowsSize(rows[..count])
      modifies batch
    {
      StageOne(base, ops, count);
      TakeGrows(rows, count);
      Frames.RowsSnoc(rows[..count], rows[count]);
      FrontFits(rows, count + 1);
      var staged := batch.Replace(RowOf(ops[count]));
      if staged.Err? { return; }
      count := count + 1;
    }
    assert ops[..count] == ops;
  }
}
