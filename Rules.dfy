/** The rewriter of LocalOpts::runOnBasicBlock stated as functions: the three
    rules, one step of the scan, the whole scan of a block, the deferred
    deletion, and the per-function and per-module drivers. The class in
    LocalOpts.dfy is proved against these. */
module Rules {
  import opened IR

  /** The three counters: algebraic_identity_num, strength_reduction_num,
      multi_inst_optimization_num. */
  datatype Stats = Stats(algebraic: nat, strength: nat, multiInst: nat)

  function Total(s: Stats): nat {
    s.algebraic + s.strength + s.multiInst
  }

  predicate StatsLe(s: Stats, t: Stats) {
    s.algebraic <= t.algebraic && s.strength <= t.strength && s.multiInst <= t.multiInst
  }

  /** The scan of block `b` in progress: the function as rewritten so far, the
      iterator's position in block `b`, the deletion list deleteInst, and the
      counters. */
  datatype ScanState = ScanState(fn: Function, pos: nat, queue: seq<Id>, stats: Stats)

  predicate InBlock(st: ScanState, b: nat) {
    b < |st.fn.blocks| && st.pos <= |st.fn.blocks[b]|
  }

  predicate AtInstr(st: ScanState, b: nat) {
    b < |st.fn.blocks| && st.pos < |st.fn.blocks[b]|
  }

  /** The instruction under the iterator. */
  function Current(st: ScanState, b: nat): Instr
    requires AtInstr(st, b)
  {
    st.fn.blocks[b][st.pos]
  }

  /** The algebraic-identity loop over operand 0 then operand 1: the first
      operand that is the constant 0 selects the other operand. It runs for
      Sub exactly as for Add. */
  function IdentityReplacement(ins: Instr): (r: Option<Value>)
    requires ins.Binary?
    ensures r.Some? <==> Const(0) in Operands(ins)
    ensures r.Some? ==> exists i | 0 <= i < 2 ::
      Operand(ins, i) == Const(0) && r.value == Operand(ins, 1 - i) && (i == 1 ==> Operand(ins, 0) != Const(0))
  {
    if ins.lhs == Const(0) then
      assert Operand(ins, 0) == Const(0) && Operand(ins, 1 - 0) == ins.rhs;
      Some(ins.rhs)
    else if ins.rhs == Const(0) then
      assert Operand(ins, 1) == Const(0) && Operand(ins, 1 - 1) == ins.lhs;
      Some(ins.lhs)
    else None
  }

  /** The opcode-sum test: one of the two is Add and the other Sub. */
  predicate Complementary(a: BinOp, b: BinOp): (r: bool)
    ensures r <==> a != b && a in {Add, Sub} && b in {Add, Sub}
  {
    (a == Add && b == Sub) || (a == Sub && b == Add)
  }

  /** An opcode numbering in the manner of Instruction::getOpcode: addN is
      the number of Add and of nothing else, subN that of Sub and of nothing
      else. Other opcodes may share numbers or sum to addN + subN. */
  ghost predicate OpcodeNumbers(num: Instr -> nat, addN: nat, subN: nat) {
    forall j: Instr {:trigger num(j)} ::
      (num(j) == addN <==> j.Binary? && j.op == Add) &&
      (num(j) == subN <==> j.Binary? && j.op == Sub)
  }

  /** The opcode-sum test of the fold, made where the instruction is an Add
      or a Sub, holds exactly when the other instruction is a binary one of
      the other of the two opcodes: the sum test and Complementary agree on
      every J, whatever the numbering. */
  lemma OpcodeSumIsComplementary(ins: Instr, j: Instr, num: Instr -> nat, addN: nat, subN: nat)
    requires IsAddSub(ins) && OpcodeNumbers(num, addN, subN)
    ensures num(ins) + num(j) == addN + subN <==> j.Binary? && Complementary(ins.op, j.op)
  {
    assert num(ins) == (if ins.op == Add then addN else subN);
  }

  /** The add/sub fold test on `ins` (op1 a constant K, op0 an instruction J
      of the complementary opcode whose op1 is the same K): where J is. */
  function FoldPartner(fn: Function, ins: Instr): (r: Option<Loc>)
    requires ins.Binary?
    ensures r.Some? ==> ValidLoc(fn, r.value)
  {
    if ins.rhs.Const? && ins.lhs.Inst? then
      match Locate(fn, ins.lhs.id)
      case None => None
      case Some(l) =>
        var j := fn.blocks[l.b][l.k];
        if j.Binary? && Complementary(ins.op, j.op) && j.rhs == ins.rhs then Some(l) else None
    else None
  }

  /** The strength-reduction loop over operand 0 then operand 1: the first
      operand that is the constant 2 selects the other operand. */
  function StrengthOperand(ins: Instr): (r: Option<Value>)
    requires ins.Binary?
    ensures r.Some? <==> Const(2) in Operands(ins)
    ensures r.Some? ==> exists i | 0 <= i < 2 ::
      Operand(ins, i) == Const(2) && r.value == Operand(ins, 1 - i) && (i == 1 ==> Operand(ins, 0) != Const(2))
  {
    if ins.lhs == Const(2) then
      assert Operand(ins, 0) == Const(2) && Operand(ins, 1 - 0) == ins.rhs;
      Some(ins.rhs)
    else if ins.rhs == Const(2) then
      assert Operand(ins, 1) == Const(2) && Operand(ins, 1 - 1) == ins.lhs;
      Some(ins.lhs)
    else None
  }

  /** The identity rule on the Add or Sub under the iterator. */
  function IdentityRule(st: ScanState, b: nat): (r: ScanState)
    requires AtInstr(st, b) && Current(st, b).Binary?
    ensures AtInstr(r, b) && r.pos == st.pos && SameShape(st.fn, r.fn)
  {
    var ins := Current(st, b);
    match IdentityReplacement(ins)
    case None => st
    case Some(v) =>
      ScanState(Rauw(st.fn, ins.id, v), st.pos, st.queue + [ins.id],
                st.stats.(algebraic := st.stats.algebraic + 1))
  }

  /** The fold rule on the Add or Sub under the iterator, as the identity rule
      left it. */
  function FoldRule(st: ScanState, b: nat): (r: ScanState)
    requires AtInstr(st, b) && Current(st, b).Binary?
    ensures AtInstr(r, b) && r.pos == st.pos && SameShape(st.fn, r.fn)
  {
    var ins := Current(st, b);
    match FoldPartner(st.fn, ins)
    case None => st
    case Some(l) =>
      ScanState(Rauw(st.fn, ins.id, st.fn.blocks[l.b][l.k].lhs), st.pos, st.queue + [ins.id],
                st.stats.(multiInst := st.stats.multiInst + 1))
  }

  /** The shl built for a Mul whose other operand is `x`. */
  function ShlOf(fn: Function, x: Value): Instr {
    Binary(fn.nextId, Shl, x, Const(1))
  }

  /** Strength reduction on the Mul under the iterator, followed by the
      iterator's advance past it: the iterator stays on the Mul, which a
      newly inserted shl pushes one place on. */
  function StrengthRule(st: ScanState, b: nat): (r: ScanState)
    requires AtInstr(st, b) && Current(st, b).Binary?
    ensures b < |r.fn.blocks| && |r.fn.blocks| == |st.fn.blocks| && r.pos <= |r.fn.blocks[b]|
    ensures |r.fn.blocks[b]| - r.pos == |st.fn.blocks[b]| - st.pos - 1
  {
    var ins := Current(st, b);
    match StrengthOperand(ins)
    case None => st.(pos := st.pos + 1)
    case Some(x) =>
      var (fn1, v) := CreateShl(st.fn, b, st.pos, x);
      ScanState(Rauw(fn1, ins.id, v), st.pos + 1 + (|fn1.blocks[b]| - |st.fn.blocks[b]|), st.queue + [ins.id],
                st.stats.(strength := st.stats.strength + 1))
  }

  predicate IsAddSub(ins: Instr) {
    ins.Binary? && (ins.op == Add || ins.op == Sub)
  }

  predicate IsMul(ins: Instr) {
    ins.Binary? && ins.op == Mul
  }

  /** One turn of the scan loop: the switch on the opcode, then iter++.
      Every counter increment comes with one enqueue, the deletion list only
      grows, and one instruction of the original block is consumed. */
  function Step(st: ScanState, b: nat): (r: ScanState)
    requires AtInstr(st, b)
    ensures InBlock(r, b) && |r.fn.blocks| == |st.fn.blocks|
    ensures |r.fn.blocks[b]| - r.pos == |st.fn.blocks[b]| - st.pos - 1
    ensures st.queue <= r.queue && StatsLe(st.stats, r.stats)
    ensures Total(r.stats) + |st.queue| == Total(st.stats) + |r.queue|
  {
    var ins := Current(st, b);
    if IsAddSub(ins) then
      var r := FoldRule(IdentityRule(st, b), b);
      r.(pos := r.pos + 1)
    else if IsMul(ins) then
      StrengthRule(st, b)
    else
      st.(pos := st.pos + 1)
  }

  /** The rest of the scan from `st`. */
  function ScanFrom(st: ScanState, b: nat): (r: ScanState)
    requires InBlock(st, b)
    ensures InBlock(r, b) && |r.fn.blocks| == |st.fn.blocks| && r.pos == |r.fn.blocks[b]|
    ensures st.queue <= r.queue && StatsLe(st.stats, r.stats)
    ensures Total(r.stats) + |st.queue| == Total(st.stats) + |r.queue|
    decreases |st.fn.blocks[b]| - st.pos
  {
    if st.pos == |st.fn.blocks[b]| then st else ScanFrom(Step(st, b), b)
  }

  /** The whole scan of block `b`, starting from counters `stats` and an empty
      deletion list. */
  function Scan(fn: Function, b: nat, stats: Stats): (r: ScanState)
    requires b < |fn.blocks|
    ensures InBlock(r, b) && |r.fn.blocks| == |fn.blocks| && r.pos == |r.fn.blocks[b]|
    ensures StatsLe(stats, r.stats) && Total(r.stats) == Total(stats) + |r.queue|
  {
    ScanFrom(ScanState(fn, 0, [], stats), b)
  }

  /** One turn of the deletion loop: if the instruction `x` is still in the
      block and isSafeToRemove holds of it, it is erased; an identity already
      erased is skipped. */
  function EraseIfSafe(blk: Block, x: Id, isSafeToRemove: Instr -> bool): (r: Block)
    ensures |r| == |blk| || |r| == |blk| - 1
    ensures forall ins <- r :: ins in blk
    ensures forall ins <- blk :: ins.id != x ==> ins in r
    ensures x !in Ids(blk) ==> r == blk
  {
    match IndexFrom(blk, x, 0)
    case None => blk
    case Some(k) =>
      if isSafeToRemove(blk[k]) then
        var r := blk[..k] + blk[k + 1..];
        assert forall j | 0 <= j < |blk| && j != k :: blk[j] in r by {
          forall j | 0 <= j < |blk| && j != k ensures blk[j] in r {
            if j < k { assert r[j] == blk[j]; } else { assert r[j - 1] == blk[j]; }
          }
        }
        assert blk[k] in blk;
        r
      else blk
  }

  /** The deletion loop over the whole list, in enqueue order. */
  function Drain(blk: Block, queue: seq<Id>, isSafeToRemove: Instr -> bool): (r: Block)
    ensures forall ins <- r :: ins in blk
    ensures forall ins <- blk :: ins.id !in queue ==> ins in r
  {
    if queue == [] then blk
    else EraseIfSafe(Drain(blk, queue[..|queue| - 1], isSafeToRemove), queue[|queue| - 1], isSafeToRemove)
  }

  /** runOnBasicBlock on block `b`: the scan, then the deletions. */
  function RunBlock(fn: Function, b: nat, stats: Stats, isSafeToRemove: Instr -> bool): (r: (Function, Stats))
    requires b < |fn.blocks|
    ensures |r.0.blocks| == |fn.blocks|
  {
    var s := Scan(fn, b, stats);
    (s.fn.(blocks := s.fn.blocks[b := Drain(s.fn.blocks[b], s.queue, isSafeToRemove)]), s.stats)
  }

  /** runOnFunction from block `b` on. */
  function RunBlocks(fn: Function, b: nat, stats: Stats, isSafeToRemove: Instr -> bool): (r: (Function, Stats))
    ensures |r.0.blocks| == |fn.blocks|
    decreases |fn.blocks| - b
  {
    if b >= |fn.blocks| then (fn, stats)
    else
      var (fn1, stats1) := RunBlock(fn, b, stats, isSafeToRemove);
      RunBlocks(fn1, b + 1, stats1, isSafeToRemove)
  }

  /** runOnModule from function `i` on: functions are rewritten one after the
      other, the counters carried across. */
  function RunFunctions(m: seq<Function>, i: nat, stats: Stats, isSafeToRemove: Instr -> bool): (r: (seq<Function>, Stats))
    ensures |r.0| == |m|
    decreases |m| - i
  {
    if i >= |m| then (m, stats)
    else
      var (fn1, stats1) := RunBlocks(m[i], 0, stats, isSafeToRemove);
      RunFunctions(m[i := fn1], i + 1, stats1, isSafeToRemove)
  }
}
