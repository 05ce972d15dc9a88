/** The slice of the LLVM IR that the peephole rewriter reads and mutates:
    values, instructions, basic blocks and functions, and the three framework
    primitives it calls (replaceAllUsesWith, IRBuilder::CreateShl before an
    instruction, and the lookup of the instruction behind an operand). */
module IR {

  datatype Option<T> = None | Some(value: T)

  /** The identity of an instruction (in LLVM, its address). */
  type Id = nat

  /** An operand: an integer constant (its zero-extended value), the result of
      another instruction, or an argument of the enclosing function. */
  datatype Value = Const(n: nat) | Inst(id: Id) | Arg(k: nat)

  /** The binary opcodes the rewriter tells apart; every other binary opcode is
      OtherBinOp. Shl is the opcode of the instruction strength reduction builds. */
  datatype BinOp = Add | Sub | Mul | Shl | OtherBinOp

  /** A binary instruction always has exactly two operands; any other
      instruction (phi, call, load, compare, terminator, ...) has a list. */
  datatype Instr =
    | Binary(id: Id, op: BinOp, lhs: Value, rhs: Value)
    | Other(id: Id, operands: seq<Value>)

  type Block = seq<Instr>

  /** A function body: its basic blocks in order. `nextId` stands for the
      framework's allocator: the next instruction it creates gets that identity. */
  datatype Function = Function(blocks: seq<Block>, nextId: Id)

  /** Where an instruction sits: block `b`, position `k` in it. */
  datatype Loc = Loc(b: nat, k: nat)

  function Operands(ins: Instr): seq<Value> {
    match ins
    case Binary(_, _, l, r) => [l, r]
    case Other(_, ops) => ops
  }

  /** getOperand(i) of a binary instruction. */
  function Operand(ins: Instr, i: nat): Value
    requires ins.Binary? && i < 2
  {
    if i == 0 then ins.lhs else ins.rhs
  }

  /** `ins` is a user of instruction `x`. */
  predicate Uses(ins: Instr, x: Id) {
    Inst(x) in Operands(ins)
  }

  /** No instruction of the function uses `x`. */
  predicate Unused(fn: Function, x: Id) {
    forall bi, k | 0 <= bi < |fn.blocks| && 0 <= k < |fn.blocks[bi]| :: !Uses(fn.blocks[bi][k], x)
  }

  predicate ValidLoc(fn: Function, l: Loc) {
    l.b < |fn.blocks| && l.k < |fn.blocks[l.b]|
  }

  /** Every instruction identity and every instruction operand was handed out
      by the allocator before `nextId`. */
  predicate WellFormed(fn: Function) {
    forall bi, k | 0 <= bi < |fn.blocks| && 0 <= k < |fn.blocks[bi]| :: InstrBelow(fn.blocks[bi][k], fn.nextId)
  }

  predicate InstrBelow(ins: Instr, n: Id) {
    ins.id < n && forall u <- Operands(ins) :: u.Inst? ==> u.id < n
  }

  /** No two instructions of a block share an identity. */
  predicate DistinctIds(blk: Block) {
    forall i, j | 0 <= i < j < |blk| :: blk[i].id != blk[j].id
  }

  /** The identities of the instructions of a block. */
  function Ids(blk: Block): set<Id> {
    set ins | ins in blk :: ins.id
  }

  /** Operand substitution leaves every instruction in place with its identity
      and opcode. */
  predicate SameShape(fn: Function, fn': Function) {
    |fn'.blocks| == |fn.blocks| && fn'.nextId == fn.nextId &&
    forall bi | 0 <= bi < |fn.blocks| :: SameShapeBlock(fn.blocks[bi], fn'.blocks[bi])
  }

  predicate SameShapeBlock(blk: Block, blk': Block) {
    |blk'| == |blk| &&
    forall k | 0 <= k < |blk| ::
      blk'[k].id == blk[k].id && blk'[k].Binary? == blk[k].Binary? &&
      (blk[k].Binary? ==> blk'[k].op == blk[k].op)
  }

  function SubstValue(u: Value, x: Id, v: Value): Value {
    if u == Inst(x) then v else u
  }

  function SubstInstr(ins: Instr, x: Id, v: Value): (r: Instr)
    ensures r.id == ins.id && r.Binary? == ins.Binary? && (ins.Binary? ==> r.op == ins.op)
    ensures v != Inst(x) ==> !Uses(r, x)
    ensures forall u <- Operands(r) :: u in Operands(ins) || u == v
  {
    match ins
    case Binary(id, op, l, r) => Binary(id, op, SubstValue(l, x, v), SubstValue(r, x, v))
    case Other(id, ops) => Other(id, seq(|ops|, j requires 0 <= j < |ops| => SubstValue(ops[j], x, v)))
  }

  function RauwBlock(blk: Block, x: Id, v: Value): (r: Block)
    ensures SameShapeBlock(blk, r)
  {
    seq(|blk|, k requires 0 <= k < |blk| => SubstInstr(blk[k], x, v))
  }

  /** replaceAllUsesWith: every operand, in every block of the function, that
      refers to instruction `x` now refers to `v`; nothing else changes. */
  function Rauw(fn: Function, x: Id, v: Value): (r: Function)
    ensures SameShape(fn, r)
  {
    Function(seq(|fn.blocks|, bi requires 0 <= bi < |fn.blocks| => RauwBlock(fn.blocks[bi], x, v)), fn.nextId)
  }

  /** IRBuilder positioned at instruction `i` of block `b`, CreateShl(x, 1):
      a new shl instruction with a fresh identity, inserted just before it. */
  function CreateShlBefore(fn: Function, b: nat, i: nat, x: Value): (r: Function)
    requires b < |fn.blocks| && i <= |fn.blocks[b]|
    ensures |r.blocks| == |fn.blocks| && r.nextId == fn.nextId + 1
    ensures |r.blocks[b]| == |fn.blocks[b]| + 1
    ensures r.blocks[b][i] == Binary(fn.nextId, Shl, x, Const(1))
    ensures r.blocks[b][..i] == fn.blocks[b][..i] && r.blocks[b][i + 1..] == fn.blocks[b][i..]
    ensures forall bi | 0 <= bi < |fn.blocks| && bi != b :: r.blocks[bi] == fn.blocks[bi]
  {
    var blk := fn.blocks[b];
    Function(fn.blocks[b := blk[..i] + [Binary(fn.nextId, Shl, x, Const(1))] + blk[i..]], fn.nextId + 1)
  }

  /** IRBuilder::CreateShl(x, 1) with the builder positioned at instruction
      `i` of block `b`: the default constant folder turns the shl of a
      constant into the constant twice as large and inserts nothing; any
      other operand gets a new shl instruction before position `i`. The
      value is what the uses of the Mul are redirected to. */
  function CreateShl(fn: Function, b: nat, i: nat, x: Value): (r: (Function, Value))
    requires b < |fn.blocks| && i <= |fn.blocks[b]|
    ensures |r.0.blocks| == |fn.blocks| && |r.0.blocks[b]| == |fn.blocks[b]| + (if x.Const? then 0 else 1)
  {
    if x.Const? then (fn, Const(x.n * 2))
    else (CreateShlBefore(fn, b, i, x), Inst(fn.nextId))
  }

  /** The position of the first instruction of `blk` at or after `k` whose
      identity is `x`. */
  function IndexFrom(blk: Block, x: Id, k: nat): (r: Option<nat>)
    requires k <= |blk|
    ensures r.Some? ==> k <= r.value < |blk| && blk[r.value].id == x &&
                        forall j | k <= j < r.value :: blk[j].id != x
    ensures r.None? ==> forall j | k <= j < |blk| :: blk[j].id != x
    decreases |blk| - k
  {
    if k == |blk| then None
    else if blk[k].id == x then Some(k)
    else IndexFrom(blk, x, k + 1)
  }

  function LocateFrom(fn: Function, x: Id, bi: nat): (r: Option<Loc>)
    requires bi <= |fn.blocks|
    ensures r.Some? ==> bi <= r.value.b && ValidLoc(fn, r.value) && fn.blocks[r.value.b][r.value.k].id == x
    ensures r.None? ==> forall bj, k | bi <= bj < |fn.blocks| && 0 <= k < |fn.blocks[bj]| :: fn.blocks[bj][k].id != x
    decreases |fn.blocks| - bi
  {
    if bi == |fn.blocks| then None
    else match IndexFrom(fn.blocks[bi], x, 0)
      case Some(k) => Some(Loc(bi, k))
      case None => LocateFrom(fn, x, bi + 1)
  }

  /** dyn_cast<Instruction> of an operand `Inst(x)`: where instruction `x` is. */
  function Locate(fn: Function, x: Id): (r: Option<Loc>)
    ensures r.Some? ==> ValidLoc(fn, r.value) && fn.blocks[r.value.b][r.value.k].id == x
    ensures r.None? ==> forall bi, k | 0 <= bi < |fn.blocks| && 0 <= k < |fn.blocks[bi]| :: fn.blocks[bi][k].id != x
  {
    LocateFrom(fn, x, 0)
  }

  /** A rank for every identity under which each binary instruction ranks
      above the instructions it uses: in SSA form outside phi nodes a binary
      instruction never uses itself, directly or through other binary
      instructions. */
  predicate Ranked(fn: Function, rank: Id -> nat) {
    forall bi, k | 0 <= bi < |fn.blocks| && 0 <= k < |fn.blocks[bi]| :: InstrRanked(fn.blocks[bi][k], rank)
  }

  predicate InstrRanked(ins: Instr, rank: Id -> nat) {
    ins.Binary? ==> forall u <- Operands(ins) :: u.Inst? ==> rank(u.id) < rank(ins.id)
  }

  /** After substituting `v` for `x` an instruction uses `y` only if it used
      `y` before and `y` is not `x`, or `v` is `y`; and if it used `x`, it now
      uses `v`. */
  lemma SubstUses(ins: Instr, x: Id, v: Value, y: Id)
    ensures Uses(SubstInstr(ins, x, v), y) ==> (Uses(ins, y) && y != x) || v == Inst(y)
    ensures Uses(ins, x) && v == Inst(y) ==> Uses(SubstInstr(ins, x, v), y)
  {
    var ops, ops' := Operands(ins), Operands(SubstInstr(ins, x, v));
    assert |ops'| == |ops| && forall j | 0 <= j < |ops| :: ops'[j] == SubstValue(ops[j], x, v);
    if Uses(SubstInstr(ins, x, v), y) {
      var j :| 0 <= j < |ops'| && ops'[j] == Inst(y);
    }
    if Uses(ins, x) && v == Inst(y) {
      var j :| 0 <= j < |ops| && ops[j] == Inst(x);
      assert ops'[j] == Inst(y);
    }
  }

  /** replaceAllUsesWith(v) on `x` leaves `x` without users, unless `v` is
      `x` itself. */
  lemma RauwClears(fn: Function, x: Id, v: Value)
    requires v != Inst(x)
    ensures Unused(Rauw(fn, x, v), x)
  {
    var r := Rauw(fn, x, v);
    forall bi, k | 0 <= bi < |r.blocks| && 0 <= k < |r.blocks[bi]|
      ensures !Uses(r.blocks[bi][k], x)
    {
      SubstUses(fn.blocks[bi][k], x, v, x);
    }
  }

  /** An instruction without users keeps none when the replacement is not it. */
  lemma RauwKeepsUnused(fn: Function, x: Id, v: Value, q: Id)
    requires Unused(fn, q) && v != Inst(q)
    ensures Unused(Rauw(fn, x, v), q)
  {
    var r := Rauw(fn, x, v);
    forall bi, k | 0 <= bi < |r.blocks| && 0 <= k < |r.blocks[bi]|
      ensures !Uses(r.blocks[bi][k], q)
    {
      SubstUses(fn.blocks[bi][k], x, v, q);
    }
  }

  /** replaceAllUsesWith on an instruction without users changes nothing. */
  lemma RauwNoop(fn: Function, x: Id, v: Value)
    requires Unused(fn, x)
    ensures Rauw(fn, x, v) == fn
  {
    var r := Rauw(fn, x, v);
    forall bi | 0 <= bi < |fn.blocks|
      ensures r.blocks[bi] == fn.blocks[bi]
    {
      forall k | 0 <= k < |fn.blocks[bi]|
        ensures r.blocks[bi][k] == fn.blocks[bi][k]
      {
        var ins := fn.blocks[bi][k];
        assert !Uses(ins, x);
        match ins
        case Binary(_, _, _, _) =>
        case Other(id, ops) =>
          assert forall j | 0 <= j < |ops| :: ops[j] != Inst(x);
          assert SubstInstr(ins, x, v).operands == ops;
      }
    }
  }

  /** Substituting a value the allocator already handed out keeps every
      identity and operand below `nextId`. */
  lemma RauwWellFormed(fn: Function, x: Id, v: Value)
    requires WellFormed(fn) && (v.Inst? ==> v.id < fn.nextId)
    ensures WellFormed(Rauw(fn, x, v))
  {
    var r := Rauw(fn, x, v);
    forall bi, k | 0 <= bi < |r.blocks| && 0 <= k < |r.blocks[bi]|
      ensures InstrBelow(r.blocks[bi][k], r.nextId)
    {
      var ins := fn.blocks[bi][k];
      assert InstrBelow(ins, fn.nextId);
      forall u <- Operands(r.blocks[bi][k]) | u.Inst?
        ensures u.id < r.nextId
      {
        SubstUses(ins, x, v, u.id);
      }
    }
  }

  /** Substituting for `x` a value ranked no higher than `x` keeps the
      ranking. */
  lemma RauwRanked(fn: Function, x: Id, v: Value, rank: Id -> nat)
    requires Ranked(fn, rank) && (v.Inst? ==> rank(v.id) <= rank(x))
    ensures Ranked(Rauw(fn, x, v), rank)
  {
    var r := Rauw(fn, x, v);
    forall bi, k | 0 <= bi < |r.blocks| && 0 <= k < |r.blocks[bi]|
      ensures InstrRanked(r.blocks[bi][k], rank)
    {
      var ins := fn.blocks[bi][k];
      assert InstrRanked(ins, rank);
      if ins.Binary? {
        forall u <- Operands(r.blocks[bi][k]) | u.Inst?
          ensures rank(u.id) < rank(ins.id)
        {
          SubstUses(ins, x, v, u.id);
        }
      }
    }
  }

  /** Instructions that keep their places and identities keep their identity
      sets and distinctness. */
  lemma SameShapeIds(blk: Block, blk': Block)
    requires SameShapeBlock(blk, blk')
    ensures Ids(blk') == Ids(blk)
    ensures DistinctIds(blk) ==> DistinctIds(blk')
  {
    forall y | y in Ids(blk) ensures y in Ids(blk') {
      var ins :| ins in blk && ins.id == y;
      var k :| 0 <= k < |blk| && blk[k] == ins;
      assert blk'[k] in blk';
    }
    forall y | y in Ids(blk') ensures y in Ids(blk) {
      var ins :| ins in blk' && ins.id == y;
      var k :| 0 <= k < |blk'| && blk'[k] == ins;
      assert blk[k] in blk;
    }
  }

  /** Where each instruction of the function sits after CreateShlBefore: the
      shl at position `i` of block `b`, the instructions that followed it one
      place on, everything else where it was. */
  lemma CreateShlAt(fn: Function, b: nat, i: nat, x: Value, bi: nat, k: nat)
    requires b < |fn.blocks| && i <= |fn.blocks[b]|
    requires bi < |fn.blocks| && k < |CreateShlBefore(fn, b, i, x).blocks[bi]|
    ensures var fn1 := CreateShlBefore(fn, b, i, x);
      if bi == b && k == i then fn1.blocks[bi][k] == Binary(fn.nextId, Shl, x, Const(1))
      else if bi == b && k > i then fn1.blocks[bi][k] == fn.blocks[b][k - 1]
      else k < |fn.blocks[bi]| && fn1.blocks[bi][k] == fn.blocks[bi][k]
  {
    var fn1 := CreateShlBefore(fn, b, i, x);
    if bi == b && k < i {
      assert fn1.blocks[b][..i][k] == fn.blocks[b][..i][k];
    } else if bi == b && k > i {
      assert fn1.blocks[b][i + 1..][k - i - 1] == fn.blocks[b][i..][k - i - 1];
    }
  }

  /** Rewriting operands moves no identity, so lookups find the same places. */
  lemma {:induction false} IndexFromSameShape(blk: Block, blk': Block, x: Id, k: nat)
    requires SameShapeBlock(blk, blk') && k <= |blk|
    ensures IndexFrom(blk', x, k) == IndexFrom(blk, x, k)
    decreases |blk| - k
  {
    if k < |blk| && blk[k].id != x {
      IndexFromSameShape(blk, blk', x, k + 1);
    }
  }

  lemma {:induction false} LocateFromSameShape(fn: Function, fn': Function, x: Id, bi: nat)
    requires SameShape(fn, fn') && bi <= |fn.blocks|
    ensures LocateFrom(fn', x, bi) == LocateFrom(fn, x, bi)
    decreases |fn.blocks| - bi
  {
    if bi < |fn.blocks| {
      IndexFromSameShape(fn.blocks[bi], fn'.blocks[bi], x, 0);
      LocateFromSameShape(fn, fn', x, bi + 1);
    }
  }

  /** replaceAllUsesWith does not move any instruction: the instruction
      behind an operand is found where it was. */
  lemma LocateRauw(fn: Function, x: Id, v: Value, y: Id)
    ensures Locate(Rauw(fn, x, v), y) == Locate(fn, y)
  {
    LocateFromSameShape(fn, Rauw(fn, x, v), y, 0);
  }

  /** A user of `d` anywhere in the function, followed to its place after
      the shl is inserted, uses the shl once `d` is replaced by it. */
  lemma CreateShlRedirects(fn: Function, b: nat, i: nat, x: Value, d: Id, bi: nat, k: nat)
    requires b < |fn.blocks| && i <= |fn.blocks[b]|
    requires bi < |fn.blocks| && k < |fn.blocks[bi]| && Uses(fn.blocks[bi][k], d)
    ensures var k' := if bi == b && k >= i then k + 1 else k;
      var r := Rauw(CreateShlBefore(fn, b, i, x), d, Inst(fn.nextId));
      k' < |r.blocks[bi]| && Uses(r.blocks[bi][k'], fn.nextId)
  {
    var k' := if bi == b && k >= i then k + 1 else k;
    var fn1 := CreateShlBefore(fn, b, i, x);
    CreateShlAt(fn, b, i, x, bi, k');
    assert Rauw(fn1, d, Inst(fn.nextId)).blocks[bi][k'] == SubstInstr(fn1.blocks[bi][k'], d, Inst(fn.nextId));
    SubstUses(fn.blocks[bi][k], d, Inst(fn.nextId), fn.nextId);
  }

  /** CreateShlBefore adds the shl's identity to the block and removes none. */
  lemma CreateShlIds(fn: Function, b: nat, i: nat, x: Value)
    requires b < |fn.blocks| && i <= |fn.blocks[b]|
    ensures Ids(CreateShlBefore(fn, b, i, x).blocks[b]) == Ids(fn.blocks[b]) + {fn.nextId}
  {
    var fn1 := CreateShlBefore(fn, b, i, x);
    var blk, blk1 := fn.blocks[b], fn1.blocks[b];
    forall y | y in Ids(blk) ensures y in Ids(blk1) {
      var ins :| ins in blk && ins.id == y;
      var k :| 0 <= k < |blk| && blk[k] == ins;
      var k1 := if k < i then k else k + 1;
      CreateShlAt(fn, b, i, x, b, k1);
      assert blk1[k1] in blk1;
    }
    assert blk1[i] in blk1;
    forall y | y in Ids(blk1) ensures y in Ids(blk) || y == fn.nextId {
      var ins :| ins in blk1 && ins.id == y;
      var k1 :| 0 <= k1 < |blk1| && blk1[k1] == ins;
      CreateShlAt(fn, b, i, x, b, k1);
      if k1 != i {
        assert blk[if k1 > i then k1 - 1 else k1] in blk;
      }
    }
  }
}
