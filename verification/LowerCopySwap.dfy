/** `lower_copy_swap.rs`: copies and swaps become machine instructions; `Mem`
    registers become words of local memory. */
module LowerCopySwap {
  import opened Wrappers
  import opened Ir

  datatype MachOp =
    | Mov(dst: Reg, src: Src)
    | Ldc(dst: Reg, word: Value)
    | BMov(dst: Reg, bar: Reg)
    | Ld(dst: Reg, addr: nat)
    | St(addr: nat, data: Reg)
    | PassB(dst: Reg, src: Src)
    | Xor(dst: Reg, a: Reg, b: Reg)
    | PLop3Swap(x: Reg, y: Reg)

  /** Registers other than `Mem`, and local memory by the address of a word. */
  datatype Machine = Machine(regs: State, slm: nat -> Value)

  function SetReg(m: Machine, d: Reg, v: Value): Machine {
    Machine((r: Reg) => if r == d then v else m.regs(r), m.slm)
  }

  function Exec(op: MachOp, m: Machine): Machine {
    match op
    case Mov(d, src) => SetReg(m, d, Eval(src, m.regs))
    case Ldc(d, word) => SetReg(m, d, word)
    case BMov(d, q) => SetReg(m, d, m.regs(q))
    case Ld(d, addr) => SetReg(m, d, m.slm(addr))
    case St(addr, q) => Machine(m.regs, (a: nat) => if a == addr then m.regs(q) else m.slm(a))
    case PassB(d, src) => SetReg(m, d, Eval(src, m.regs))
    case Xor(d, a, b) => SetReg(m, d, XorV(m.regs(a), m.regs(b)))
    case PLop3Swap(x, y) => SetReg(SetReg(m, x, m.regs(y)), y, m.regs(x))
  }

  function ExecAll(ops: seq<MachOp>, m: Machine): Machine {
    if ops == [] then m else Exec(ops[|ops| - 1], ExecAll(ops[..|ops| - 1], m))
  }

  function Slot(slmStart: nat, r: Reg): nat {
    slmStart + r.idx * 4
  }

  /** The registers a machine state stands for, `Mem` ones read from memory. */
  function Abs(slmStart: nat, m: Machine): State {
    (r: Reg) => if r.file == Mem then m.slm(Slot(slmStart, r)) else m.regs(r)
  }

  /** The copies `lower_copy` accepts; on any other it panics. */
  predicate CopyOk(d: Reg, src: Src) {
    && (src.IsUniform() || !d.file.IsUniform())
    && match d.file
       case GPR => !src.Bool? && (src.FromReg? ==> src.reg.file in {GPR, UGPR, Bar, Mem})
       case UGPR => !src.Bool? && (src.FromReg? ==> src.reg.file in {GPR, UGPR, Bar, Mem})
       case Pred => src.Bool? || (src.FromReg? && src.reg.file.IsPredicate())
       case UPred => src.Bool? || (src.FromReg? && src.reg.file.IsPredicate())
       case Bar => src.FromReg? && src.reg.file in {GPR, UGPR}
       case Mem => src.FromReg? && src.reg.file == GPR
       case Carry => false
  }

  /** The swaps `lower_swap` accepts, on files that have a logic operation. */
  predicate SwapOk(x: Reg, y: Reg) {
    x.file == y.file && x.file in {GPR, UGPR, Pred, UPred}
  }

  predicate MoveOk(m: Move) {
    match m
    case Copy(d, src) => CopyOk(d, src)
    case Swap(x, y) => SwapOk(x, y)
  }

  /** `ops` does to every machine state what `code` does to the registers that
      state stands for. */
  ghost predicate Simulates(slmStart: nat, ops: seq<MachOp>, code: seq<Move>) {
    forall m: Machine, r: Reg ::
      Abs(slmStart, ExecAll(ops, m))(r) == Run(code, Abs(slmStart, m))(r)
  }

  ghost predicate Refines(slmStart: nat, ops: seq<MachOp>, mv: Move) {
    forall m: Machine, r: Reg ::
      Abs(slmStart, ExecAll(ops, m))(r) == Step(mv, Abs(slmStart, m))(r)
  }

  /** Every local-memory access of `ops` lies in [lo, hi). */
  ghost predicate Within(ops: seq<MachOp>, lo: nat, hi: nat) {
    forall i :: 0 <= i < |ops| ==>
      && (ops[i].Ld? ==> lo <= ops[i].addr && ops[i].addr + 4 <= hi)
      && (ops[i].St? ==> lo <= ops[i].addr && ops[i].addr + 4 <= hi)
  }

  /** Which of the operations a generation has, and on which register files: the
      exclusive-or of predicates gives way to the two-result logic operation. */
  predicate Available(sm: nat, op: MachOp) {
    match op
    case Mov(d, src) =>
      && d.file in {GPR, UGPR} && !src.Bool? && (src.FromReg? ==> src.reg.file in {GPR, UGPR})
      && (src.CBuf? ==> d.file == GPR && sm < 100)
    case Ldc(d, _) => d.file == UGPR || (d.file == GPR && sm >= 100)
    case BMov(d, q) => (d.file == Bar && q.file in {GPR, UGPR}) || (d.file in {GPR, UGPR} && q.file == Bar)
    case Ld(d, _) => d.file in {GPR, UGPR}
    case St(_, q) => q.file == GPR
    case PassB(d, src) => d.file.IsPredicate() && (src.Bool? || (src.FromReg? && src.reg.file.IsPredicate()))
    case Xor(d, a, b) => d.file == a.file == b.file && (d.file in {GPR, UGPR} || (d.file.IsPredicate() && sm < 70))
    case PLop3Swap(x, y) => x.file == y.file && x.file.IsPredicate() && sm >= 70
  }

  ghost predicate AllAvailable(sm: nat, ops: seq<MachOp>) {
    forall i :: 0 <= i < |ops| ==> Available(sm, ops[i])
  }

  /** The end of the local-memory words a move reads or writes, four bytes to a `Mem`
      register. */
  function SlmEnd(slmStart: nat, mv: Move): nat {
    match mv
    case Copy(d, src) =>
      if d.file == Mem then slmStart + 4 * d.idx + 4
      else if src.FromReg? && src.reg.file == Mem then slmStart + 4 * src.reg.idx + 4
      else 0
    case Swap(_, _) => 0
  }

  /** `size` is the least that covers `before` and the words of `code`. */
  ghost predicate Reserves(slmStart: nat, code: seq<Move>, before: nat, size: nat) {
    && before <= size && (forall i :: 0 <= i < |code| ==> SlmEnd(slmStart, code[i]) <= size)
    && (size == before || exists i :: 0 <= i < |code| && SlmEnd(slmStart, code[i]) == size)
  }

  lemma ReservesNext(slmStart: nat, code: seq<Move>, mv: Move, before: nat, size: nat, size': nat)
    requires Reserves(slmStart, code, before, size) && Reserves(slmStart, [mv], size, size')
    ensures Reserves(slmStart, code + [mv], before, size')
  {
    var longer := code + [mv];
    assert longer[|code|] == mv && forall i :: 0 <= i < |code| ==> longer[i] == code[i];
    if size' != size {
      var i :| 0 <= i < |[mv]| && SlmEnd(slmStart, [mv][i]) == size';
      assert SlmEnd(slmStart, longer[|code|]) == size';
    } else if size != before {
      var i :| 0 <= i < |code| && SlmEnd(slmStart, code[i]) == size;
      assert SlmEnd(slmStart, longer[i]) == size;
    }
  }

  lemma ExecOne(op: MachOp, m: Machine)
    ensures ExecAll([op], m) == Exec(op, m)
  {
    assert [op][..0] == [];
  }

  lemma ExecSnoc(ops: seq<MachOp>, op: MachOp, m: Machine)
    ensures ExecAll(ops + [op], m) == Exec(op, ExecAll(ops, m))
  {
    assert (ops + [op])[..|ops|] == ops;
  }

  lemma {:induction false} ExecConcat(a: seq<MachOp>, b: seq<MachOp>, m: Machine)
    ensures ExecAll(a + b, m) == ExecAll(b, ExecAll(a, m))
    decreases |b|
  {
    if b == [] {
      assert a + b == a;
    } else {
      var b', op := b[..|b| - 1], b[|b| - 1];
      assert a + b == (a + b') + [op];
      ExecSnoc(a + b', op, m);
      ExecConcat(a, b', m);
    }
  }

  lemma XorCancels(a: Value, b: Value)
    ensures XorV(XorV(a, b), b) == a && XorV(XorV(a, b), a) == b
  {
  }

  /** Three exclusive-ors exchange two distinct registers. */
  lemma XorSwap(x: Reg, y: Reg, m: Machine)
    requires x != y
    ensures var m' := ExecAll([Xor(x, x, y), Xor(y, x, y), Xor(x, x, y)], m);
            && m'.slm == m.slm
            && forall r :: m'.regs(r) == Step(Swap(x, y), m.regs)(r)
  {
    var op1, op2 := Xor(x, x, y), Xor(y, x, y);
    ExecOne(op1, m);
    ExecSnoc([op1], op2, m);
    ExecSnoc([op1] + [op2], op1, m);
    assert [op1] + [op2] + [op1] == [op1, op2, op1];
    XorCancels(m.regs(x), m.regs(y));
  }

  lemma SwapRefines(slmStart: nat, x: Reg, y: Reg)
    requires SwapOk(x, y) && x != y
    ensures Refines(slmStart, [Xor(x, x, y), Xor(y, x, y), Xor(x, x, y)], Swap(x, y))
    ensures Refines(slmStart, [PLop3Swap(x, y)], Swap(x, y))
  {
    var xors := [Xor(x, x, y), Xor(y, x, y), Xor(x, x, y)];
    forall m: Machine, r: Reg
      ensures Abs(slmStart, ExecAll(xors, m))(r) == Step(Swap(x, y), Abs(slmStart, m))(r)
      ensures Abs(slmStart, ExecAll([PLop3Swap(x, y)], m))(r) == Step(Swap(x, y), Abs(slmStart, m))(r)
    {
      XorSwap(x, y, m);
      ExecOne(PLop3Swap(x, y), m);
    }
  }

  /** `op` is a right instruction for the copy `d <- src`: a memory slot stands
      for a `Mem` register on either side. */
  predicate Carries(slmStart: nat, op: MachOp, d: Reg, src: Src) {
    match op
    case St(addr, data) => d.file == Mem && addr == Slot(slmStart, d) && src == FromReg(data) && data.file != Mem
    case Ld(q, addr) => q == d && d.file != Mem && src.FromReg? && src.reg.file == Mem && addr == Slot(slmStart, src.reg)
    case Mov(q, from) => q == d && d.file != Mem && from == src && (src.FromReg? ==> src.reg.file != Mem)
    case PassB(q, from) => q == d && d.file != Mem && from == src && (src.FromReg? ==> src.reg.file != Mem)
    case BMov(q, bar) => q == d && d.file != Mem && src == FromReg(bar) && bar.file != Mem
    case Ldc(q, word) => q == d && d.file != Mem && src == CBuf(word)
    case _ => false
  }

  lemma CarriesRefines(slmStart: nat, op: MachOp, d: Reg, src: Src)
    requires Carries(slmStart, op, d, src)
    ensures Refines(slmStart, [op], Copy(d, src))
  {
    forall m: Machine, r: Reg
      ensures Abs(slmStart, ExecAll([op], m))(r) == Step(Copy(d, src), Abs(slmStart, m))(r)
    {
      ExecOne(op, m);
      assert !op.Ld? ==> Eval(src, Abs(slmStart, m)) == Eval(src, m.regs);
      assert r.file == Mem && Slot(slmStart, r) == Slot(slmStart, d) && d.file == Mem ==> r == d;
    }
  }

  lemma StepCongruence(mv: Move, s: State, t: State, r: Reg)
    requires forall q :: s(q) == t(q)
    ensures Step(mv, s)(r) == Step(mv, t)(r)
  {
    match mv
    case Copy(d, src) => assert Eval(src, s) == Eval(src, t);
    case Swap(x, y) =>
  }

  lemma LowerStep(slmStart: nat, ops: seq<MachOp>, piece: seq<MachOp>, code: seq<Move>, mv: Move)
    requires Simulates(slmStart, ops, code) && Refines(slmStart, piece, mv)
    ensures Simulates(slmStart, ops + piece, code + [mv])
  {
    forall m: Machine, r: Reg
      ensures Abs(slmStart, ExecAll(ops + piece, m))(r) == Run(code + [mv], Abs(slmStart, m))(r)
    {
      ExecConcat(ops, piece, m);
      var mid := ExecAll(ops, m);
      assert (code + [mv])[..|code|] == code;
      StepCongruence(mv, Abs(slmStart, mid), Run(code, Abs(slmStart, m)), r);
    }
  }

  lemma LowerNothing(sm: nat, slmStart: nat, size: nat)
    ensures Simulates(slmStart, [], []) && AllAvailable(sm, []) && Within([], slmStart, size)
  {
  }

  lemma PieceFits(sm: nat, ops: seq<MachOp>, piece: seq<MachOp>, lo: nat, mid: nat, hi: nat)
    requires AllAvailable(sm, ops) && AllAvailable(sm, piece) && Within(ops, lo, mid) && Within(piece, lo, hi) && mid <= hi
    ensures AllAvailable(sm, ops + piece) && Within(ops + piece, lo, hi)
  {
  }

  class LowerCopySwap {
    const slmStart: nat
    var slmSize: nat

    constructor (size: nat)
      ensures slmStart == slmSize == size
    {
      slmStart := size;
      slmSize := size;
    }

    method LowerCopy(sm: nat, d: Reg, src: Src) returns (ops: seq<MachOp>)
      requires CopyOk(d, src)
      modifies this
      ensures Refines(slmStart, ops, Copy(d, src)) && AllAvailable(sm, ops)
      ensures Reserves(slmStart, [Copy(d, src)], old(slmSize), slmSize)
      ensures Within(ops, slmStart, slmSize)
    {
      var op;
      match d.file {
      case GPR => op := LowerToGpr(sm, d, src);
      case UGPR => op := LowerToGpr(sm, d, src);
      case Pred => op := PassB(d, src);
      case UPred => op := PassB(d, src);
      case Bar => op := BMov(d, src.reg);
      case Mem =>
        var addr := Slot(slmStart, d);
        slmSize := if slmSize > addr + 4 then slmSize else addr + 4;
        op := St(addr, src.reg);
      }
      CarriesRefines(slmStart, op, d, src);
      ops := [op];
      assert [Copy(d, src)][0] == Copy(d, src);
    }

    method LowerToGpr(sm: nat, d: Reg, src: Src) returns (op: MachOp)
      requires d.file in {GPR, UGPR} && CopyOk(d, src)
      modifies this
      ensures Carries(slmStart, op, d, src) && Available(sm, op)
      ensures slmSize == if old(slmSize) >= SlmEnd(slmStart, Copy(d, src)) then old(slmSize) else SlmEnd(slmStart, Copy(d, src))
      ensures Within([op], slmStart, slmSize)
    {
      match src
      case Imm(_) => op := Mov(d, src);
      case CBuf(w) =>
        if d.file == UGPR || sm >= 100 { op := Ldc(d, w); } else { op := Mov(d, src); }
      case FromReg(q) =>
        if q.file == Bar {
          op := BMov(d, q);
        } else if q.file == Mem {
          var addr := Slot(slmStart, q);
          slmSize := if slmSize > addr + 4 then slmSize else addr + 4;
          op := Ld(d, addr);
        } else {
          op := Mov(d, src);
        }
    }

    method LowerSwap(sm: nat, x: Reg, y: Reg) returns (ops: seq<MachOp>)
      requires SwapOk(x, y)
      ensures Refines(slmStart, ops, Swap(x, y)) && AllAvailable(sm, ops)
      ensures Within(ops, slmStart, slmSize)
    {
      if x == y {
        ops := [];
      } else if x.file.IsPredicate() && sm >= 70 {
        ops := [PLop3Swap(x, y)];
        SwapRefines(slmStart, x, y);
      } else {
        ops := [Xor(x, x, y), Xor(y, x, y), Xor(x, x, y)];
        SwapRefines(slmStart, x, y);
      }
    }

    /** The whole pass over a run of copies and swaps. */
    method Lower(sm: nat, code: seq<Move>) returns (ops: seq<MachOp>)
      requires forall i :: 0 <= i < |code| ==> MoveOk(code[i])
      modifies this
      ensures Simulates(slmStart, ops, code) && AllAvailable(sm, ops)
      ensures Reserves(slmStart, code, old(slmSize), slmSize)
      ensures Within(ops, slmStart, slmSize)
    {
      hide Simulates, Refines, AllAvailable, Within;
      ops := [];
      LowerNothing(sm, slmStart, slmSize);
      for i := 0 to |code|
        invariant Simulates(slmStart, ops, code[..i]) && AllAvailable(sm, ops)
        invariant Reserves(slmStart, code[..i], old(slmSize), slmSize)
        invariant Within(ops, slmStart, slmSize)
      {
        var piece;
        ghost var size := slmSize;
        match code[i] {
        case Copy(d, src) => piece := LowerCopy(sm, d, src);
        case Swap(x, y) => piece := LowerSwap(sm, x, y);
        }
        LowerStep(slmStart, ops, piece, code[..i], code[i]);
        PieceFits(sm, ops, piece, slmStart, size, slmSize);
        ReservesNext(slmStart, code[..i], code[i], old(slmSize), size, slmSize);
        assert code[..i + 1] == code[..i] + [code[i]];
        ops := ops + piece;
      }
      assert code[..|code|] == code;
    }
  }
}
