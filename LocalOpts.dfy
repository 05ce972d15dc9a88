/** The LocalOpts module pass: its three counter fields, the scan of one basic
    block with its deferred deletions, and the per-function and per-module
    drivers that OR the per-block results. */
module LocalOptsPass {
  import opened IR
  import opened Rules

  class LocalOpts {
    var algebraicIdentityNum: nat
    var strengthReductionNum: nat
    var multiInstOptimizationNum: nat

    /** The three counter values that dumpInformation reports. */
    function Counters(): Stats
      reads this
    {
      Stats(algebraicIdentityNum, strengthReductionNum, multiInstOptimizationNum)
    }

    constructor ()
      ensures Counters() == Stats(0, 0, 0)
    {
      algebraicIdentityNum, strengthReductionNum, multiInstOptimizationNum := 0, 0, 0;
    }

    /** runOnBasicBlock: one forward scan of block `b` applying the three
        rules, then the deletion of the enqueued instructions. The result is
        always true. */
    method RunOnBasicBlock(fn: Function, b: nat, isSafeToRemove: Instr -> bool) returns (fn': Function, changed: bool)
      requires b < |fn.blocks|
      modifies this
      ensures (fn', Counters()) == RunBlock(fn, b, old(Counters()), isSafeToRemove)
      ensures changed
    {
      var cur := fn;
      var deleteInst: seq<Id> := [];
      var i: nat := 0;
      ghost var final := Scan(fn, b, Counters());
      while i < |cur.blocks[b]|
        invariant b < |cur.blocks| && i <= |cur.blocks[b]|
        invariant ScanFrom(ScanState(cur, i, deleteInst, Counters()), b) == final
        decreases |cur.blocks[b]| - i
      {
        ghost var st := ScanState(cur, i, deleteInst, Counters());
        var inst := cur.blocks[b][i];
        if inst.Binary? && (inst.op == Add || inst.op == Sub) {
          cur, deleteInst := AlgebraicIdentity(cur, b, i, deleteInst);
          cur, deleteInst := MultiInstFold(cur, b, i, deleteInst);
        } else if inst.Binary? && inst.op == Mul {
          cur, i, deleteInst := StrengthReduction(cur, b, i, deleteInst);
        }
        i := i + 1;
        assert ScanState(cur, i, deleteInst, Counters()) == Step(st, b);
      }
      // instructions are erased only after the scan, in enqueue order
      var blk := cur.blocks[b];
      for j := 0 to |deleteInst|
        invariant blk == Drain(cur.blocks[b], deleteInst[..j], isSafeToRemove)
      {
        assert deleteInst[..j + 1][..j] == deleteInst[..j];
        blk := EraseIfSafe(blk, deleteInst[j], isSafeToRemove);
      }
      assert deleteInst[..|deleteInst|] == deleteInst;
      fn' := cur.(blocks := cur.blocks[b := blk]);
      changed := true;
    }

    /** x + 0 = 0 + x = x: operand 0, then operand 1, is compared with the
        constant 0; the first hit redirects every use of the instruction to the
        other operand and enqueues it. Sub is handled the same way. */
    method AlgebraicIdentity(fn: Function, b: nat, i: nat, deleteInst: seq<Id>) returns (fn': Function, deleteInst': seq<Id>)
      requires b < |fn.blocks| && i < |fn.blocks[b]| && fn.blocks[b][i].Binary?
      modifies this
      ensures ScanState(fn', i, deleteInst', Counters()) == IdentityRule(ScanState(fn, i, deleteInst, old(Counters())), b)
    {
      ghost var st := ScanState(fn, i, deleteInst, Counters());
      fn', deleteInst' := fn, deleteInst;
      var inst := fn.blocks[b][i];
      for k := 0 to 2
        invariant ScanState(fn', i, deleteInst', Counters()) == st
        invariant k > 0 ==> Operand(inst, 0) != Const(0)
        invariant k > 1 ==> Operand(inst, 1) != Const(0)
      {
        if Operand(inst, k) == Const(0) {
          algebraicIdentityNum := algebraicIdentityNum + 1;
          var anotherVal := Operand(inst, if k == 0 then 1 else 0);
          fn' := Rauw(fn', inst.id, anotherVal);
          deleteInst' := deleteInst' + [inst.id];
          assert IdentityReplacement(inst) == Some(anotherVal);
          assert ScanState(fn', i, deleteInst', Counters()) == IdentityRule(st, b);
          break;
        }
      }
    }

    /** b = a + k; c = b - k ==> uses of c become a (and with - and +
        exchanged): tried on the instruction as the identity rule left it. */
    method MultiInstFold(fn: Function, b: nat, i: nat, deleteInst: seq<Id>) returns (fn': Function, deleteInst': seq<Id>)
      requires b < |fn.blocks| && i < |fn.blocks[b]| && fn.blocks[b][i].Binary?
      modifies this
      ensures ScanState(fn', i, deleteInst', Counters()) == FoldRule(ScanState(fn, i, deleteInst, old(Counters())), b)
    {
      fn', deleteInst' := fn, deleteInst;
      var inst := fn.blocks[b][i];
      if inst.rhs.Const? && inst.lhs.Inst? {
        var loc := Locate(fn, inst.lhs.id);
        if loc.Some? {
          var anotherInst := fn.blocks[loc.value.b][loc.value.k];
          if anotherInst.Binary? && Complementary(inst.op, anotherInst.op) && anotherInst.rhs == inst.rhs {
            multiInstOptimizationNum := multiInstOptimizationNum + 1;
            fn' := Rauw(fn, inst.id, anotherInst.lhs);
            deleteInst' := deleteInst + [inst.id];
          }
        }
      }
    }

    /** x * 2 ==> x << 1: operand 0, then operand 1, is compared with the
        constant 2; the first hit builds a shl of the other operand by 1 just
        before the Mul (or, for a constant operand, the folded constant),
        redirects every use of the Mul to it and enqueues the Mul. The
        returned position is that of the iterator before iter++. */
    method StrengthReduction(fn: Function, b: nat, i: nat, deleteInst: seq<Id>) returns (fn': Function, i': nat, deleteInst': seq<Id>)
      requires b < |fn.blocks| && i < |fn.blocks[b]| && fn.blocks[b][i].Binary?
      modifies this
      ensures ScanState(fn', i' + 1, deleteInst', Counters()) == StrengthRule(ScanState(fn, i, deleteInst, old(Counters())), b)
    {
      ghost var st := ScanState(fn, i, deleteInst, Counters());
      fn', i', deleteInst' := fn, i, deleteInst;
      var inst := fn.blocks[b][i];
      for k := 0 to 2
        invariant ScanState(fn', i', deleteInst', Counters()) == st
        invariant k > 0 ==> Operand(inst, 0) != Const(2)
        invariant k > 1 ==> Operand(inst, 1) != Const(2)
      {
        if Operand(inst, k) == Const(2) {
          strengthReductionNum := strengthReductionNum + 1;
          var anotherVal := Operand(inst, if k == 0 then 1 else 0);
          var built := CreateShl(fn', b, i, anotherVal);
          var val := built.1;
          // the iterator follows the Mul, which an inserted shl moves one place on
          i' := i + (|built.0.blocks[b]| - |fn.blocks[b]|);
          fn' := Rauw(built.0, inst.id, val);
          deleteInst' := deleteInst' + [inst.id];
          assert StrengthOperand(inst) == Some(anotherVal);
          assert ScanState(fn', i' + 1, deleteInst', Counters()) == StrengthRule(st, b);
          break;
        }
      }
    }

    /** runOnFunction: every block in order; the result is true iff some
        block reported a change. */
    method RunOnFunction(fn: Function, isSafeToRemove: Instr -> bool) returns (fn': Function, transform: bool)
      modifies this
      ensures (fn', Counters()) == RunBlocks(fn, 0, old(Counters()), isSafeToRemove)
      ensures transform == (|fn.blocks| > 0)
    {
      transform := false;
      fn' := fn;
      var b := 0;
      while b < |fn'.blocks|
        invariant |fn'.blocks| == |fn.blocks| && b <= |fn.blocks|
        invariant RunBlocks(fn', b, Counters(), isSafeToRemove) == RunBlocks(fn, 0, old(Counters()), isSafeToRemove)
        invariant transform == (b > 0)
        decreases |fn.blocks| - b
      {
        var changed;
        fn', changed := RunOnBasicBlock(fn', b, isSafeToRemove);
        if changed {
          transform := true;
        }
        b := b + 1;
      }
    }

    /** runOnModule: every function in order; the result is true iff some
        function reported a change. */
    method RunOnModule(m: seq<Function>, isSafeToRemove: Instr -> bool) returns (m': seq<Function>, transform: bool)
      modifies this
      ensures (m', Counters()) == RunFunctions(m, 0, old(Counters()), isSafeToRemove)
      ensures transform <==> exists f | f in m :: |f.blocks| > 0
    {
      transform := false;
      m' := m;
      var i := 0;
      while i < |m'|
        invariant |m'| == |m| && i <= |m|
        invariant m'[i..] == m[i..]
        invariant RunFunctions(m', i, Counters(), isSafeToRemove) == RunFunctions(m, 0, old(Counters()), isSafeToRemove)
        invariant transform <==> exists j | 0 <= j < i :: |m[j].blocks| > 0
        decreases |m| - i
      {
        var changed;
        var fn1;
        assert m'[i] == m[i];
        fn1, changed := RunOnFunction(m'[i], isSafeToRemove);
        m' := m'[i := fn1];
        if changed {
          transform := true;
        }
        i := i + 1;
      }
    }
  }
}
