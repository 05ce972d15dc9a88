/** What one turn of the scan does, rule by rule: which uses are redirected
    where, what is enqueued, which counter rises, and that everything else is
    left as it was. */
module RuleLemmas {
  import opened IR
  import opened Rules

  /** Whether some rule rewrites `ins` when the scan reaches it in `fn`. */
  predicate Rewrites(fn: Function, ins: Instr) {
    (IsAddSub(ins) && (IdentityReplacement(ins).Some? || FoldPartner(fn, ins).Some?)) ||
    (IsMul(ins) && StrengthOperand(ins).Some?)
  }

  lemma SubstInstrNoop(ins: Instr, x: Id, v: Value)
    requires !Uses(ins, x)
    ensures SubstInstr(ins, x, v) == ins
  {
    match ins
    case Binary(_, _, _, _) =>
    case Other(id, ops) =>
      assert forall j | 0 <= j < |ops| :: ops[j] != Inst(x);
      assert SubstInstr(ins, x, v).operands == ops;
  }

  /** An Add or Sub whose operand 0 or 1 is the constant 0 (Sub with the 0 as
      operand 0 included): the first such operand selects the other one, every
      use of the instruction is redirected to it, the instruction is enqueued,
      and the algebraic counter rises by exactly one. The fold is still tried
      afterwards, and it fires exactly when op1 is the 0 and op0 is an
      instruction J of the other opcode whose op1 is 0 as well; it then
      enqueues the same instruction again and counts once more, but redirects
      nothing. Otherwise the fold counter stays where it was. */
  lemma IdentityStep(st: ScanState, b: nat)
    requires AtInstr(st, b) && IsAddSub(Current(st, b))
    requires Current(st, b).lhs == Const(0) || Current(st, b).rhs == Const(0)
    requires !Uses(Current(st, b), Current(st, b).id)
    ensures var ins, r := Current(st, b), Step(st, b);
      var v := if ins.lhs == Const(0) then ins.rhs else ins.lhs;
      var fires := ins.rhs == Const(0) && ins.lhs.Inst? && Locate(st.fn, ins.lhs.id).Some? &&
        var l := Locate(st.fn, ins.lhs.id).value;
        var j := st.fn.blocks[l.b][l.k];
        j.Binary? && Complementary(ins.op, j.op) && j.rhs == Const(0);
      r.fn == Rauw(st.fn, ins.id, v) && Unused(r.fn, ins.id) && r.pos == st.pos + 1 &&
      r.queue == st.queue + (if fires then [ins.id, ins.id] else [ins.id]) &&
      r.stats == Stats(st.stats.algebraic + 1, st.stats.strength, st.stats.multiInst + (if fires then 1 else 0))
  {
    var ins := Current(st, b);
    var v := if ins.lhs == Const(0) then ins.rhs else ins.lhs;
    assert v in Operands(ins);
    var s1 := IdentityRule(st, b);
    assert s1.fn == Rauw(st.fn, ins.id, v);
    RauwClears(st.fn, ins.id, v);
    SubstInstrNoop(ins, ins.id, v);
    assert Current(s1, b) == ins;
    if ins.rhs.Const? && ins.lhs.Inst? {
      LocateRauw(st.fn, ins.id, v, ins.lhs.id);
      match Locate(st.fn, ins.lhs.id)
      case None =>
      case Some(l) =>
        var j := st.fn.blocks[l.b][l.k];
        assert s1.fn.blocks[l.b][l.k] == SubstInstr(j, ins.id, v);
        if j.Binary? {
          RauwNoop(s1.fn, ins.id, s1.fn.blocks[l.b][l.k].lhs);
        }
    }
  }

  /** The identity rule does not stop the fold: c = b + 0 (or b - 0) where b
      is a - 0 (or a + 0) is rewritten by both rules. Every use of c goes to
      b, c is enqueued twice, and both the algebraic and the
      multi-instruction counter rise by one. */
  lemma IdentityThenFold(st: ScanState, b: nat, l: Loc)
    requires AtInstr(st, b)
    requires var ins := Current(st, b);
      IsAddSub(ins) && ins.rhs == Const(0) && ins.lhs.Inst? && Locate(st.fn, ins.lhs.id) == Some(l)
    requires var ins, j := Current(st, b), st.fn.blocks[l.b][l.k];
      j.Binary? && Complementary(ins.op, j.op) && j.rhs == Const(0) && !Uses(ins, ins.id) && !Uses(j, ins.id)
    ensures var ins, r := Current(st, b), Step(st, b);
      r.fn == Rauw(st.fn, ins.id, ins.lhs) && Unused(r.fn, ins.id) && r.pos == st.pos + 1 &&
      r.queue == st.queue + [ins.id, ins.id] &&
      r.stats == Stats(st.stats.algebraic + 1, st.stats.strength, st.stats.multiInst + 1)
  {
    var ins, j := Current(st, b), st.fn.blocks[l.b][l.k];
    var s1 := IdentityRule(st, b);
    assert IdentityReplacement(ins) == Some(ins.lhs);
    assert s1.fn == Rauw(st.fn, ins.id, ins.lhs);
    RauwClears(st.fn, ins.id, ins.lhs);
    SubstInstrNoop(ins, ins.id, ins.lhs);
    SubstInstrNoop(j, ins.id, ins.lhs);
    assert Current(s1, b) == ins;
    LocateRauw(st.fn, ins.id, ins.lhs, ins.lhs.id);
    assert s1.fn.blocks[l.b][l.k] == j;
    assert FoldPartner(s1.fn, ins) == Some(l);
    RauwNoop(s1.fn, ins.id, j.lhs);
  }

  /** The add/sub fold on an Add or Sub the identity rule left alone: when
      op1 is a constant K and op0 an instruction J of the other opcode whose
      op1 is the same K, every use goes to J's op0, the instruction (not J) is
      enqueued, J is unchanged and the multi-instruction counter rises by
      one. */
  lemma FoldStep(st: ScanState, b: nat, l: Loc)
    requires AtInstr(st, b)
    requires var ins := Current(st, b);
      IsAddSub(ins) && ins.lhs != Const(0) && ins.rhs != Const(0) &&
      ins.rhs.Const? && ins.lhs.Inst? && Locate(st.fn, ins.lhs.id) == Some(l)
    requires var ins, j := Current(st, b), st.fn.blocks[l.b][l.k];
      j.Binary? && Complementary(ins.op, j.op) && j.rhs == ins.rhs && !Uses(j, ins.id)
    ensures var ins, j, r := Current(st, b), st.fn.blocks[l.b][l.k], Step(st, b);
      r.fn == Rauw(st.fn, ins.id, j.lhs) && Unused(r.fn, ins.id) &&
      ValidLoc(r.fn, l) && r.fn.blocks[l.b][l.k] == j &&
      r.queue == st.queue + [ins.id] && r.pos == st.pos + 1 &&
      r.stats == st.stats.(multiInst := st.stats.multiInst + 1)
  {
    var ins, j := Current(st, b), st.fn.blocks[l.b][l.k];
    assert j.lhs in Operands(j);
    RauwClears(st.fn, ins.id, j.lhs);
    SubstInstrNoop(j, ins.id, j.lhs);
  }

  /** Strength reduction on a Mul with the constant 2 as an operand and a
      non-constant other operand: a shl of that operand by 1 now sits
      immediately before the Mul, every former
      user of the Mul uses the shl instead, the Mul has no users left and is
      enqueued once, and the strength counter rises by one. Nothing else
      changes: the new function is the insertion followed by the redirect. */
  lemma StrengthStep(st: ScanState, b: nat)
    requires AtInstr(st, b) && IsMul(Current(st, b)) && WellFormed(st.fn)
    requires Current(st, b).lhs == Const(2) || Current(st, b).rhs == Const(2)
    requires !StrengthOperand(Current(st, b)).value.Const?
    requires !Uses(Current(st, b), Current(st, b).id)
    ensures var ins, r := Current(st, b), Step(st, b);
      var x := if ins.lhs == Const(2) then ins.rhs else ins.lhs;
      r.fn == Rauw(CreateShlBefore(st.fn, b, st.pos, x), ins.id, Inst(st.fn.nextId)) &&
      |r.fn.blocks| == |st.fn.blocks| && |r.fn.blocks[b]| == |st.fn.blocks[b]| + 1 &&
      r.fn.blocks[b][st.pos] == ShlOf(st.fn, x) && r.fn.blocks[b][st.pos + 1] == ins &&
      Unused(r.fn, ins.id) &&
      (forall bi, k | 0 <= bi < |st.fn.blocks| && 0 <= k < |st.fn.blocks[bi]| && Uses(st.fn.blocks[bi][k], ins.id) ::
         Uses(r.fn.blocks[bi][if bi == b && k > st.pos then k + 1 else k], st.fn.nextId)) &&
      r.queue == st.queue + [ins.id] && r.pos == st.pos + 2 &&
      r.stats == st.stats.(strength := st.stats.strength + 1)
  {
    StrengthPlacesShl(st, b);
    StrengthRedirects(st, b);
  }

  lemma StrengthPlacesShl(st: ScanState, b: nat)
    requires AtInstr(st, b) && IsMul(Current(st, b)) && WellFormed(st.fn)
    requires Current(st, b).lhs == Const(2) || Current(st, b).rhs == Const(2)
    requires !StrengthOperand(Current(st, b)).value.Const?
    requires !Uses(Current(st, b), Current(st, b).id)
    ensures var ins, r := Current(st, b), Step(st, b);
      var x := if ins.lhs == Const(2) then ins.rhs else ins.lhs;
      r.fn == Rauw(CreateShlBefore(st.fn, b, st.pos, x), ins.id, Inst(st.fn.nextId)) &&
      |r.fn.blocks| == |st.fn.blocks| && |r.fn.blocks[b]| == |st.fn.blocks[b]| + 1 &&
      r.fn.blocks[b][st.pos] == ShlOf(st.fn, x) && r.fn.blocks[b][st.pos + 1] == ins &&
      Unused(r.fn, ins.id) &&
      r.queue == st.queue + [ins.id] && r.pos == st.pos + 2 &&
      r.stats == st.stats.(strength := st.stats.strength + 1)
  {
    var ins, r := Current(st, b), Step(st, b);
    var x := if ins.lhs == Const(2) then ins.rhs else ins.lhs;
    var n := st.fn.nextId;
    assert x in Operands(ins);
    assert InstrBelow(ins, n);
    var fn1 := CreateShlBefore(st.fn, b, st.pos, x);
    assert CreateShl(st.fn, b, st.pos, x) == (fn1, Inst(n));
    assert r.fn == Rauw(fn1, ins.id, Inst(n));
    RauwClears(fn1, ins.id, Inst(n));
    CreateShlAt(st.fn, b, st.pos, x, b, st.pos);
    CreateShlAt(st.fn, b, st.pos, x, b, st.pos + 1);
    SubstInstrNoop(ShlOf(st.fn, x), ins.id, Inst(n));
    SubstInstrNoop(ins, ins.id, Inst(n));
  }

  lemma StrengthRedirects(st: ScanState, b: nat)
    requires AtInstr(st, b) && IsMul(Current(st, b))
    requires Current(st, b).lhs == Const(2) || Current(st, b).rhs == Const(2)
    requires !StrengthOperand(Current(st, b)).value.Const?
    requires !Uses(Current(st, b), Current(st, b).id)
    ensures var ins, r := Current(st, b), Step(st, b);
      |r.fn.blocks| == |st.fn.blocks| && |r.fn.blocks[b]| == |st.fn.blocks[b]| + 1 &&
      forall bi, k | 0 <= bi < |st.fn.blocks| && 0 <= k < |st.fn.blocks[bi]| && Uses(st.fn.blocks[bi][k], ins.id) ::
        Uses(r.fn.blocks[bi][if bi == b && k > st.pos then k + 1 else k], st.fn.nextId)
  {
    var ins, r := Current(st, b), Step(st, b);
    var x := if ins.lhs == Const(2) then ins.rhs else ins.lhs;
    var n := st.fn.nextId;
    assert CreateShl(st.fn, b, st.pos, x) == (CreateShlBefore(st.fn, b, st.pos, x), Inst(n));
    assert r.fn == Rauw(CreateShlBefore(st.fn, b, st.pos, x), ins.id, Inst(n));
    forall bi, k | 0 <= bi < |st.fn.blocks| && 0 <= k < |st.fn.blocks[bi]| && Uses(st.fn.blocks[bi][k], ins.id)
      ensures Uses(r.fn.blocks[bi][if bi == b && k > st.pos then k + 1 else k], n)
    {
      assert bi == b ==> k != st.pos;
      CreateShlRedirects(st.fn, b, st.pos, x, ins.id, bi, k);
    }
  }

  /** Strength reduction on a Mul of the constant 2 by a constant c: the
      builder folds the shl into the constant 2c and inserts nothing, every
      use of the Mul is redirected to that constant, the Mul is enqueued, the
      strength counter rises by one and the iterator moves on by one. */
  lemma StrengthFoldsConstant(st: ScanState, b: nat)
    requires AtInstr(st, b) && IsMul(Current(st, b))
    requires Current(st, b).lhs == Const(2) || Current(st, b).rhs == Const(2)
    requires StrengthOperand(Current(st, b)).value.Const?
    ensures var ins, r := Current(st, b), Step(st, b);
      var c := StrengthOperand(ins).value.n;
      r.fn == Rauw(st.fn, ins.id, Const(2 * c)) && Unused(r.fn, ins.id) &&
      r.fn.blocks[b][st.pos] == ins &&
      r.queue == st.queue + [ins.id] && r.pos == st.pos + 1 &&
      r.stats == st.stats.(strength := st.stats.strength + 1)
  {
    var ins := Current(st, b);
    var c := StrengthOperand(ins).value.n;
    RauwClears(st.fn, ins.id, Const(2 * c));
    assert !Uses(ins, ins.id);
    SubstInstrNoop(ins, ins.id, Const(2 * c));
  }

  /** A turn of the scan changes nothing but the iterator exactly when no rule
      applies: non-binary instructions, binary opcodes other than Add, Sub and
      Mul, and Add, Sub or Mul that match no pattern are left as they are, and
      no counter moves for them. */
  lemma QuietStep(st: ScanState, b: nat)
    requires AtInstr(st, b)
    ensures Step(st, b) == st.(pos := st.pos + 1) <==> !Rewrites(st.fn, Current(st, b))
  {
    var ins := Current(st, b);
    if Rewrites(st.fn, ins) {
      assert |Step(st, b).queue| > |st.queue|;
    }
  }

  /** An instance of IdentityThenFold on concrete input: c = b + 0 where
      b = a - 0 sits in a block not yet scanned. The instruction is
      enqueued twice and counted by both counters, and its users are left on
      b, the identity's choice. */
  lemma IdentityThenFoldDoubleCounts()
    ensures var fn := Function([[Binary(1, Sub, Arg(0), Const(0))],
                                [Binary(2, Add, Inst(1), Const(0)), Other(3, [Inst(2)])]], 4);
      var r := Step(ScanState(fn, 0, [], Stats(0, 0, 0)), 1);
      r.queue == [2, 2] && r.stats == Stats(1, 0, 1) && r.fn.blocks[1][1] == Other(3, [Inst(1)])
  {
    var fn := Function([[Binary(1, Sub, Arg(0), Const(0))],
                        [Binary(2, Add, Inst(1), Const(0)), Other(3, [Inst(2)])]], 4);
    var st := ScanState(fn, 0, [], Stats(0, 0, 0));
    var s1 := IdentityRule(st, 1);
    assert s1.fn == Rauw(fn, 2, Inst(1));
    assert s1.fn.blocks[1][1].operands == [Inst(1)];
    assert s1.fn.blocks[0][0] == Binary(1, Sub, Arg(0), Const(0));
    assert IndexFrom(s1.fn.blocks[0], 1, 0) == Some(0);
    assert Locate(s1.fn, 1) == Some(Loc(0, 0));
    assert FoldPartner(s1.fn, Current(s1, 1)) == Some(Loc(0, 0));
    RauwClears(fn, 2, Inst(1));
    RauwNoop(s1.fn, 2, Arg(0));
  }
}
