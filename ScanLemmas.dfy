/** What holds of the whole scan of a block and of runOnBasicBlock: uses are
    redirected before an instruction is enqueued, so nothing enqueued has a
    user when the scan ends; nothing is erased during the scan; the deletions
    afterwards erase exactly the enqueued instructions that pass
    isSafeToRemove and leave no reference to an enqueued instruction behind. */
module ScanLemmas {
  import opened IR
  import opened Rules
  import opened Deletion

  /** What holds at every turn of the scan of block `b`: identities come from
      the allocator, binary instructions rank above what they use, the block's
      identities are distinct, and every enqueued instruction is an
      instruction of the block that has no users. */
  predicate ScanInv(st: ScanState, b: nat, rank: Id -> nat) {
    InBlock(st, b) && WellFormed(st.fn) && Ranked(st.fn, rank) && DistinctIds(st.fn.blocks[b]) &&
    forall q <- st.queue :: q < st.fn.nextId && q in Ids(st.fn.blocks[b]) && Unused(st.fn, q)
  }

  /** Redirecting the uses of an instruction of the block to a value that no
      enqueued instruction is, and ranked no higher, then enqueueing it. */
  lemma RauwEnqueueKeepsInv(st: ScanState, b: nat, rank: Id -> nat, d: Id, v: Value, stats: Stats)
    requires ScanInv(st, b, rank)
    requires d in Ids(st.fn.blocks[b]) && d < st.fn.nextId && v != Inst(d)
    requires v.Inst? ==> v.id < st.fn.nextId && rank(v.id) <= rank(d)
    requires forall q <- st.queue :: v != Inst(q)
    ensures ScanInv(ScanState(Rauw(st.fn, d, v), st.pos, st.queue + [d], stats), b, rank)
  {
    var fn' := Rauw(st.fn, d, v);
    RauwWellFormed(st.fn, d, v);
    RauwRanked(st.fn, d, v, rank);
    SameShapeIds(st.fn.blocks[b], fn'.blocks[b]);
    RauwClears(st.fn, d, v);
    forall q <- st.queue ensures Unused(fn', q) {
      RauwKeepsUnused(st.fn, d, v, q);
    }
  }

  lemma IdentityKeepsInv(st: ScanState, b: nat, rank: Id -> nat)
    requires ScanInv(st, b, rank) && AtInstr(st, b) && Current(st, b).Binary?
    ensures ScanInv(IdentityRule(st, b), b, rank)
  {
    var ins := Current(st, b);
    match IdentityReplacement(ins)
    case None =>
    case Some(v) =>
      assert v in Operands(ins);
      assert InstrBelow(ins, st.fn.nextId) && InstrRanked(ins, rank);
      assert ins in st.fn.blocks[b];
      forall q <- st.queue ensures v != Inst(q) {
        assert !Uses(ins, q);
      }
      RauwEnqueueKeepsInv(st, b, rank, ins.id, v, st.stats.(algebraic := st.stats.algebraic + 1));
  }

  lemma FoldKeepsInv(st: ScanState, b: nat, rank: Id -> nat)
    requires ScanInv(st, b, rank) && AtInstr(st, b) && Current(st, b).Binary?
    ensures ScanInv(FoldRule(st, b), b, rank)
  {
    var ins := Current(st, b);
    match FoldPartner(st.fn, ins)
    case None =>
    case Some(l) =>
      var j := st.fn.blocks[l.b][l.k];
      var v := j.lhs;
      assert v in Operands(j) && ins.lhs in Operands(ins);
      assert InstrBelow(j, st.fn.nextId) && InstrRanked(j, rank);
      assert InstrBelow(ins, st.fn.nextId) && InstrRanked(ins, rank);
      assert j.id == ins.lhs.id;
      assert ins in st.fn.blocks[b];
      forall q <- st.queue ensures v != Inst(q) {
        assert !Uses(j, q);
      }
      RauwEnqueueKeepsInv(st, b, rank, ins.id, v, st.stats.(multiInst := st.stats.multiInst + 1));
  }

  /** Strength reduction keeps the invariant; an inserted shl takes the Mul's
      rank. */
  lemma StrengthKeepsInv(st: ScanState, b: nat, rank: Id -> nat) returns (rank': Id -> nat)
    requires ScanInv(st, b, rank) && AtInstr(st, b) && Current(st, b).Binary?
    ensures ScanInv(StrengthRule(st, b), b, rank')
  {
    var ins := Current(st, b);
    rank' := rank;
    match StrengthOperand(ins)
    case None =>
    case Some(x) =>
      if x.Const? {
        assert ins in st.fn.blocks[b];
        RauwEnqueueKeepsInv(st.(pos := st.pos + 1), b, rank, ins.id, Const(x.n * 2),
                            st.stats.(strength := st.stats.strength + 1));
      } else {
        rank' := ShlKeepsInv(st, b, rank, x);
      }
  }

  /** The shl takes the Mul's rank: it sits where the Mul's users expect it
      and above the operand it shifts. */
  lemma ShlKeepsInv(st: ScanState, b: nat, rank: Id -> nat, x: Value) returns (rank': Id -> nat)
    requires ScanInv(st, b, rank) && AtInstr(st, b) && Current(st, b).Binary?
    requires StrengthOperand(Current(st, b)) == Some(x) && !x.Const?
    ensures ScanInv(StrengthRule(st, b), b, rank')
  {
    var ins := Current(st, b);
    var n := st.fn.nextId;
    var fn1 := CreateShlBefore(st.fn, b, st.pos, x);
    rank' := ShlInsertKeepsInv(st, b, rank, x);
    var st1 := ScanState(fn1, st.pos + 2, st.queue, st.stats);
    CreateShlAt(st.fn, b, st.pos, x, b, st.pos + 1);
    assert fn1.blocks[b][st.pos + 1] in fn1.blocks[b];
    assert CreateShl(st.fn, b, st.pos, x) == (fn1, Inst(n));
    RauwEnqueueKeepsInv(st1, b, rank', ins.id, Inst(n), st.stats.(strength := st.stats.strength + 1));
  }

  /** Inserting the shl before the Mul, with the iterator past both. */
  lemma ShlInsertKeepsInv(st: ScanState, b: nat, rank: Id -> nat, x: Value) returns (rank': Id -> nat)
    requires ScanInv(st, b, rank) && AtInstr(st, b) && Current(st, b).Binary?
    requires StrengthOperand(Current(st, b)) == Some(x)
    ensures ScanInv(ScanState(CreateShlBefore(st.fn, b, st.pos, x), st.pos + 2, st.queue, st.stats), b, rank')
    ensures rank'(st.fn.nextId) <= rank'(Current(st, b).id)
    ensures forall q <- st.queue :: Inst(st.fn.nextId) != Inst(q)
  {
    var ins := Current(st, b);
    var n := st.fn.nextId;
    var d := ins.id;
    rank' := (y: Id) => if y == n then rank(d) else rank(y);
    var fn1 := CreateShlBefore(st.fn, b, st.pos, x);
    ShlInsertInstrs(st, b, rank, x, rank');
    CreateShlIds(st.fn, b, st.pos, x);
    assert DistinctIds(fn1.blocks[b]) by {
      forall i, j | 0 <= i < j < |fn1.blocks[b]| ensures fn1.blocks[b][i].id != fn1.blocks[b][j].id {
        CreateShlAt(st.fn, b, st.pos, x, b, i);
        CreateShlAt(st.fn, b, st.pos, x, b, j);
      }
    }
    assert ins.id < n;
  }

  /** Instruction by instruction, after the shl is inserted: identities and
      operands stay below the allocator, ranks stay ordered, and nothing uses
      an enqueued instruction. */
  lemma ShlInsertInstrs(st: ScanState, b: nat, rank: Id -> nat, x: Value, rank': Id -> nat)
    requires ScanInv(st, b, rank) && AtInstr(st, b) && Current(st, b).Binary?
    requires StrengthOperand(Current(st, b)) == Some(x)
    requires forall y :: rank'(y) == if y == st.fn.nextId then rank(Current(st, b).id) else rank(y)
    ensures var fn1 := CreateShlBefore(st.fn, b, st.pos, x);
      forall bi, k | 0 <= bi < |fn1.blocks| && 0 <= k < |fn1.blocks[bi]| ::
        InstrBelow(fn1.blocks[bi][k], st.fn.nextId + 1) && InstrRanked(fn1.blocks[bi][k], rank') &&
        (forall q <- st.queue :: !Uses(fn1.blocks[bi][k], q))
  {
    var ins := Current(st, b);
    var n := st.fn.nextId;
    var fn1 := CreateShlBefore(st.fn, b, st.pos, x);
    var shl := Binary(n, Shl, x, Const(1));
    assert x in Operands(ins);
    assert InstrBelow(ins, n) && InstrRanked(ins, rank);
    forall bi, k | 0 <= bi < |fn1.blocks| && 0 <= k < |fn1.blocks[bi]|
      ensures InstrBelow(fn1.blocks[bi][k], n + 1) && InstrRanked(fn1.blocks[bi][k], rank')
      ensures forall q <- st.queue :: !Uses(fn1.blocks[bi][k], q)
    {
      CreateShlAt(st.fn, b, st.pos, x, bi, k);
      if bi == b && k == st.pos {
        assert fn1.blocks[bi][k] == shl;
        forall q <- st.queue ensures !Uses(shl, q) {
          assert !Uses(ins, q);
        }
      } else {
        var e := st.fn.blocks[bi][if bi == b && k > st.pos then k - 1 else k];
        assert fn1.blocks[bi][k] == e;
        assert InstrBelow(e, n) && InstrRanked(e, rank);
        forall q <- st.queue ensures !Uses(e, q) {
          assert Unused(st.fn, q);
        }
      }
    }
  }

  lemma StepKeepsInv(st: ScanState, b: nat, rank: Id -> nat) returns (rank': Id -> nat)
    requires ScanInv(st, b, rank) && AtInstr(st, b)
    ensures ScanInv(Step(st, b), b, rank')
  {
    var ins := Current(st, b);
    rank' := rank;
    if IsAddSub(ins) {
      IdentityKeepsInv(st, b, rank);
      FoldKeepsInv(IdentityRule(st, b), b, rank);
    } else if IsMul(ins) {
      rank' := StrengthKeepsInv(st, b, rank);
    }
  }

  /** The invariant holds when the scan ends. */
  lemma {:induction false} ScanKeepsInv(st: ScanState, b: nat, rank: Id -> nat) returns (rank': Id -> nat)
    requires ScanInv(st, b, rank)
    ensures ScanInv(ScanFrom(st, b), b, rank')
    decreases |st.fn.blocks[b]| - st.pos
  {
    if st.pos == |st.fn.blocks[b]| {
      rank' := rank;
    } else {
      var rank1 := StepKeepsInv(st, b, rank);
      rank' := ScanKeepsInv(Step(st, b), b, rank1);
    }
  }

  /** A turn of the scan erases no instruction of the block: it only rewrites
      operands and inserts shl instructions. */
  lemma StepKeepsIds(st: ScanState, b: nat)
    requires AtInstr(st, b)
    ensures Ids(st.fn.blocks[b]) <= Ids(Step(st, b).fn.blocks[b])
  {
    var ins := Current(st, b);
    if IsAddSub(ins) {
      var s1 := IdentityRule(st, b);
      SameShapeIds(st.fn.blocks[b], s1.fn.blocks[b]);
      SameShapeIds(s1.fn.blocks[b], FoldRule(s1, b).fn.blocks[b]);
    } else if IsMul(ins) {
      match StrengthOperand(ins)
      case None =>
      case Some(x) =>
        var (fn1, v) := CreateShl(st.fn, b, st.pos, x);
        if !x.Const? {
          CreateShlIds(st.fn, b, st.pos, x);
        }
        SameShapeIds(fn1.blocks[b], Rauw(fn1, ins.id, v).blocks[b]);
    }
  }

  lemma {:induction false} ScanKeepsIds(st: ScanState, b: nat)
    requires InBlock(st, b)
    ensures Ids(st.fn.blocks[b]) <= Ids(ScanFrom(st, b).fn.blocks[b])
    decreases |st.fn.blocks[b]| - st.pos
  {
    if st.pos < |st.fn.blocks[b]| {
      StepKeepsIds(st, b);
      ScanKeepsIds(Step(st, b), b);
    }
  }

  /** runOnBasicBlock on a well-formed function in SSA form: the scan erases
      nothing and leaves every enqueued instruction, each one of the block,
      without users; the total counter increase is the length of the deletion
      list; the deletions then erase exactly the enqueued instructions that
      pass isSafeToRemove, keep the rest of the block in order, touch no other
      block, and leave no instruction referring to an enqueued one. */
  lemma RunBlockSound(fn: Function, b: nat, stats: Stats, isSafeToRemove: Instr -> bool, rank: Id -> nat)
    requires b < |fn.blocks| && WellFormed(fn) && Ranked(fn, rank) && DistinctIds(fn.blocks[b])
    ensures var s, r := Scan(fn, b, stats), RunBlock(fn, b, stats, isSafeToRemove);
      Ids(fn.blocks[b]) <= Ids(s.fn.blocks[b]) &&
      (forall q <- s.queue :: q in Ids(s.fn.blocks[b]) && Unused(s.fn, q)) &&
      Total(r.1) == Total(stats) + |s.queue| && StatsLe(stats, r.1) &&
      r.0.blocks[b] == Keep(s.fn.blocks[b], s.queue, isSafeToRemove) &&
      (forall bi | 0 <= bi < |fn.blocks| && bi != b :: r.0.blocks[bi] == s.fn.blocks[bi]) &&
      (forall q <- s.queue :: Unused(r.0, q))
  {
    var st0 := ScanState(fn, 0, [], stats);
    var s, r := Scan(fn, b, stats), RunBlock(fn, b, stats, isSafeToRemove);
    var rank' := ScanKeepsInv(st0, b, rank);
    ScanKeepsIds(st0, b);
    DrainIsKeep(s.fn.blocks[b], s.queue, isSafeToRemove);
    forall q <- s.queue ensures Unused(r.0, q) {
      KeepKeepsUnused(s.fn, b, s.queue, isSafeToRemove, q);
    }
  }

  /** Erasing instructions from a block gives no instruction a new user. */
  lemma KeepKeepsUnused(fn: Function, b: nat, queue: seq<Id>, isSafeToRemove: Instr -> bool, q: Id)
    requires b < |fn.blocks| && Unused(fn, q)
    ensures Unused(fn.(blocks := fn.blocks[b := Keep(fn.blocks[b], queue, isSafeToRemove)]), q)
  {
    var fn' := fn.(blocks := fn.blocks[b := Keep(fn.blocks[b], queue, isSafeToRemove)]);
    forall bi, k | 0 <= bi < |fn'.blocks| && 0 <= k < |fn'.blocks[bi]| ensures !Uses(fn'.blocks[bi][k], q) {
      if bi == b {
        assert fn'.blocks[b][k] in fn.blocks[b];
        var k' :| 0 <= k' < |fn.blocks[b]| && fn.blocks[b][k'] == fn'.blocks[b][k];
      }
    }
  }
}
