/** The values the rewrites preserve: w-bit two's-complement integer
    arithmetic, with every value taken modulo 2^w. */
module Semantics {
  import opened IR
  import opened Rules

  function Pow2(w: nat): (r: nat)
    ensures r >= 1
  {
    if w == 0 then 1 else 2 * Pow2(w - 1)
  }

  /** The values of the function's arguments and of the instructions'
      results. */
  datatype Env = Env(args: nat -> nat, results: Id -> nat)

  /** The w-bit value of an operand. */
  function ValueOf(env: Env, v: Value, w: nat): (r: nat)
    ensures r < Pow2(w)
  {
    match v
    case Const(n) => n % Pow2(w)
    case Arg(k) => env.args(k) % Pow2(w)
    case Inst(x) => env.results(x) % Pow2(w)
  }

  /** add, sub, mul and shl on w-bit integers, wrapping around. */
  function Eval(op: BinOp, x: nat, y: nat, w: nat): (r: nat)
    requires op != OtherBinOp
    ensures r < Pow2(w)
  {
    var m := Pow2(w);
    match op
    case Add => (x + y) % m
    case Sub => (x - y) % m
    case Mul => (x * y) % m
    case Shl => (x * Pow2(y)) % m
  }

  function EvalInstr(env: Env, ins: Instr, w: nat): nat
    requires ins.Binary? && ins.op != OtherBinOp
  {
    Eval(ins.op, ValueOf(env, ins.lhs, w), ValueOf(env, ins.rhs, w), w)
  }

  /** `env` gives instruction `ins` the value it computes. */
  predicate Computes(env: Env, ins: Instr, w: nat)
    requires ins.Binary? && ins.op != OtherBinOp
  {
    env.results(ins.id) % Pow2(w) == EvalInstr(env, ins, w)
  }

  lemma ModSmall(x: int, m: nat)
    requires 0 <= x < m
    ensures x % m == x
  {
  }

  lemma ModWrapDown(x: int, m: nat)
    requires m <= x < 2 * m
    ensures x % m == x - m
  {
    ModSmall(x - m, m);
    assert x == (x - m) + m;
  }

  lemma ModWrapUp(x: int, m: nat)
    requires -(m as int) <= x < 0
    ensures x % m == x + m
  {
    ModSmall(x + m, m);
    assert x == (x + m) - m;
  }

  /** (a + k) - k == a on w-bit integers. */
  lemma AddThenSub(a: nat, k: nat, m: nat)
    requires a < m && k < m
    ensures ((a + k) % m - k) % m == a
  {
    if a + k < m {
      ModSmall(a + k, m);
      ModSmall(a, m);
    } else {
      ModWrapDown(a + k, m);
      ModWrapUp(a - m, m);
    }
  }

  /** (a - k) + k == a on w-bit integers. */
  lemma SubThenAdd(a: nat, k: nat, m: nat)
    requires a < m && k < m
    ensures ((a - k) % m + k) % m == a
  {
    if a >= k {
      ModSmall(a - k, m);
      ModSmall(a, m);
    } else {
      ModWrapUp(a - k, m);
      ModWrapDown(a - k + m + k, m);
    }
  }

  /** x + 0, 0 + x and x - 0 equal x: the replacement the identity rule picks
      for an Add, or for a Sub whose operand 0 is not the constant 0, has the
      instruction's value. */
  lemma IdentityPreservesValue(env: Env, ins: Instr, w: nat)
    requires IsAddSub(ins) && IdentityReplacement(ins).Some?
    requires ins.op == Add || ins.lhs != Const(0)
    ensures ValueOf(env, IdentityReplacement(ins).value, w) == EvalInstr(env, ins, w)
  {
    var m := Pow2(w);
    var x, y := ValueOf(env, ins.lhs, w), ValueOf(env, ins.rhs, w);
    if ins.lhs == Const(0) {
      ModSmall(y, m);
    } else {
      ModSmall(x, m);
    }
  }

  /** 0 - x is not x: for every width of two bits or more, the rewrite of
      sub(0, x) to x that the identity rule performs changes the value when x
      is 1. */
  lemma SubZeroMinuendChangesValue(w: nat, env: Env)
    requires w >= 2 && env.args(0) == 1
    ensures var ins := Binary(0, Sub, Const(0), Arg(0));
      IdentityReplacement(ins) == Some(Arg(0)) && ValueOf(env, Arg(0), w) != EvalInstr(env, ins, w)
  {
    var m := Pow2(w);
    assert m >= 4 by {
      assert Pow2(w) == 2 * Pow2(w - 1) && Pow2(w - 1) == 2 * Pow2(w - 2);
    }
    ModSmall(0, m);
    ModSmall(1, m);
    ModWrapUp(-1, m);
  }

  /** b = a + k; c = b - k gives c == a, and b = a - k; c = b + k gives
      c == a: the fold's replacement, J's operand 0, has the instruction's
      value whenever J has the value it computes. */
  lemma FoldPreservesValue(env: Env, ins: Instr, j: Instr, w: nat)
    requires IsAddSub(ins) && j.Binary? && Complementary(ins.op, j.op)
    requires ins.lhs == Inst(j.id) && j.rhs == ins.rhs
    requires Computes(env, j, w)
    ensures ValueOf(env, j.lhs, w) == EvalInstr(env, ins, w)
  {
    var a, k := ValueOf(env, j.lhs, w), ValueOf(env, j.rhs, w);
    var b := ValueOf(env, ins.lhs, w);
    assert b == Eval(j.op, a, k, w);
    assert EvalInstr(env, ins, w) == Eval(ins.op, b, k, w);
    FoldArith(ins.op, j.op, a, k, b, w);
  }

  lemma FoldArith(op: BinOp, jop: BinOp, a: nat, k: nat, b: nat, w: nat)
    requires Complementary(op, jop) && a < Pow2(w) && k < Pow2(w)
    requires b == Eval(jop, a, k, w)
    ensures Eval(op, b, k, w) == a
  {
    var m := Pow2(w);
    if op == Sub {
      assert b == (a + k) % m;
      AddThenSub(a, k, m);
    } else {
      assert b == (a - k) % m;
      SubThenAdd(a, k, m);
    }
  }

  /** x * 2 == x << 1: the shl that strength reduction builds has the Mul's
      value, at every width. */
  lemma StrengthPreservesValue(env: Env, fn: Function, ins: Instr, w: nat)
    requires IsMul(ins) && StrengthOperand(ins).Some?
    ensures EvalInstr(env, ShlOf(fn, StrengthOperand(ins).value), w) == EvalInstr(env, ins, w)
  {
    var m := Pow2(w);
    var x := ValueOf(env, StrengthOperand(ins).value, w);
    if w == 0 {
      assert m == 1;
    } else {
      ModSmall(1, m);
      assert Pow2(1) == 2;
      if w == 1 {
        assert m == 2;
        assert 2 % m == 0;
        assert (x * 2) % 2 == 0;
      } else {
        assert m >= 4 by {
          assert Pow2(w) == 2 * Pow2(w - 1) && Pow2(w - 1) >= 2;
        }
        ModSmall(2, m);
      }
    }
  }

  lemma MulAtLeast(a: int, m: nat)
    requires a >= 1
    ensures a * m >= m
  {
    assert a * m == (a - 1) * m + m;
  }

  /** The remainder is the one r in [0, m) with a == q * m + r. */
  lemma ModUnique(a: int, m: nat, q: int, r: int)
    requires m > 0 && a == q * m + r && 0 <= r < m
    ensures a % m == r
  {
    var q0, r0 := a / m, a % m;
    assert (q - q0) * m == r0 - r;
    if q > q0 {
      MulAtLeast(q - q0, m);
    } else if q < q0 {
      MulAtLeast(q0 - q, m);
    }
  }

  /** Doubling commutes with reduction modulo m. */
  lemma DoubleMod(c: nat, m: nat)
    requires m > 0
    ensures (c * 2) % m == ((c % m) * (2 % m)) % m
  {
    var x := c % m;
    assert c == (c / m) * m + x;
    if m == 1 {
      ModUnique(c * 2, m, c * 2, 0);
      ModUnique(x * (2 % m), m, x * (2 % m), 0);
    } else if m == 2 {
      assert 2 % m == 0;
      ModUnique(c * 2, m, c, 0);
    } else {
      ModSmall(2, m);
      if 2 * x < m {
        ModSmall(2 * x, m);
        ModUnique(c * 2, m, 2 * (c / m), 2 * x);
      } else {
        ModWrapDown(2 * x, m);
        ModUnique(c * 2, m, 2 * (c / m) + 1, 2 * x - m);
      }
    }
  }

  /** 2 * c == c * 2 on w-bit integers: the constant the builder folds the
      shl of a constant c into has the Mul's value, at every width. */
  lemma StrengthFoldPreservesValue(env: Env, ins: Instr, w: nat)
    requires IsMul(ins) && StrengthOperand(ins).Some? && StrengthOperand(ins).value.Const?
    ensures ValueOf(env, Const(StrengthOperand(ins).value.n * 2), w) == EvalInstr(env, ins, w)
  {
    var m := Pow2(w);
    var c := StrengthOperand(ins).value.n;
    DoubleMod(c, m);
    assert (c % m) * (2 % m) == (2 % m) * (c % m);
  }
}
