/** Registers, operands and simultaneous copies: the part of `ir.rs` that the
    register allocator and the two copy-lowering passes share. */
module Ir {

  import opened Wrappers

  datatype RegFile = GPR | UGPR | Pred | UPred | Carry | Bar | Mem
  {
    predicate IsUniform() { UGPR? || UPred? }
    predicate IsPredicate() { Pred? || UPred? }
  }

  /** One scalar register. */
  datatype Reg = Reg(file: RegFile, idx: nat)

  /** A run of `comps` consecutive registers of one file. */
  datatype RegRef = RegRef(file: RegFile, base: nat, comps: nat) {
    function Comp(c: nat): Reg
      requires c < comps
    {
      Reg(file, base + c)
    }

    predicate Covers(r: Reg) {
      r.file == file && base <= r.idx < base + comps
    }
  }

  /** A register word. */
  datatype Value = Word(bits: bv32)

  function XorV(a: Value, b: Value): Value {
    Word(a.bits ^ b.bits)
  }

  /** The unmodified operands a copy may read: an immediate (zero included), a
      constant-buffer word, a boolean constant, or a register.  The constants do
      not change while the shader runs, so each carries its value. */
  datatype Src = Imm(value: Value) | CBuf(word: Value) | Bool(b: bool) | FromReg(reg: Reg) {
    predicate IsUniform() {
      FromReg? ==> reg.file.IsUniform()
    }
  }

  type State = Reg -> Value

  function Eval(src: Src, s: State): Value {
    match src
    case Imm(v) => v
    case CBuf(v) => v
    case Bool(b) => Word(if b then 1 else 0)
    case FromReg(r) => s(r)
  }

  datatype Pair = Pair(dst: Reg, src: Src)

  /** `OpParCopy`: all destinations take their sources' old values at once. */
  datatype ParCopy = ParCopy(pairs: seq<Pair>, tmp: Option<RegRef>)

  predicate Distinct(pairs: seq<Pair>) {
    forall i, j :: 0 <= i < j < |pairs| ==> pairs[i].dst != pairs[j].dst
  }

  predicate IsDst(pairs: seq<Pair>, r: Reg) {
    exists i :: 0 <= i < |pairs| && pairs[i].dst == r
  }

  predicate IsTmp(tmp: Option<RegRef>, r: Reg) {
    tmp.Some? && tmp.value.Covers(r)
  }

  /** `t` is `s` after the simultaneous copy, up to the temporary. */
  ghost predicate ParDone(pc: ParCopy, s: State, t: State) {
    && (forall i :: 0 <= i < |pc.pairs| ==> t(pc.pairs[i].dst) == Eval(pc.pairs[i].src, s))
    && (forall r :: !IsDst(pc.pairs, r) && !IsTmp(pc.tmp, r) ==> t(r) == s(r))
  }

  /** The two virtual instructions a parallel copy is lowered to. */
  datatype Move = Copy(dst: Reg, src: Src) | Swap(x: Reg, y: Reg)

  function Step(m: Move, s: State): State {
    match m
    case Copy(d, src) => r => if r == d then Eval(src, s) else s(r)
    case Swap(x, y) => r => if r == x then s(y) else if r == y then s(x) else s(r)
  }

  function Run(code: seq<Move>, s: State): State {
    if code == [] then s else Step(code[|code| - 1], Run(code[..|code| - 1], s))
  }

  /** The operand whose initial value register `r` holds after `code`: moves
      never compute, so running them is tracking where values come from. */
  function Origin(code: seq<Move>, r: Reg): Src {
    if code == [] then FromReg(r)
    else
      var before := code[..|code| - 1];
      match code[|code| - 1]
      case Copy(d, src) =>
        if r != d then Origin(before, r) else if src.FromReg? then Origin(before, src.reg) else src
      case Swap(x, y) =>
        if r == x then Origin(before, y) else if r == y then Origin(before, x) else Origin(before, r)
  }

  function OriginOf(code: seq<Move>, src: Src): Src {
    if src.FromReg? then Origin(code, src.reg) else src
  }

  lemma {:induction false} OriginSound(code: seq<Move>, s: State, r: Reg)
    ensures Run(code, s)(r) == Eval(Origin(code, r), s)
  {
    if code != [] {
      var before := code[..|code| - 1];
      match code[|code| - 1]
      case Copy(d, src) =>
        OriginSound(before, s, r);
        if src.FromReg? { OriginSound(before, s, src.reg); }
      case Swap(x, y) =>
        OriginSound(before, s, r);
        OriginSound(before, s, x);
        OriginSound(before, s, y);
    }
  }

  lemma OriginSnoc(code: seq<Move>, m: Move, r: Reg)
    ensures Origin(code + [m], r) ==
            match m
            case Copy(d, src) => if r == d then OriginOf(code, src) else Origin(code, r)
            case Swap(x, y) => Origin(code, if r == x then y else if r == y then x else r)
  {
    assert (code + [m])[..|code|] == code;
  }
}
