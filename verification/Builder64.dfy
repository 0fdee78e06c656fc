/** The 64-bit helpers of `builder.rs` and what the 32-bit instructions they emit
    compute, as `ir.rs` folds them. */
module Builder64 {
  import opened Wrappers
  import opened Powers

  const WORD := 0x1_0000_0000
  const WIDE := 0x1_0000_0000_0000_0000

  type Word = w: int | 0 <= w < WORD

  /** SSA values are numbered across all files. */
  type Ssa = nat

  datatype Mod = Plain | INeg | BNot

  datatype Ref = Zero | Imm32(w: Word) | Value(ssa: Ssa)

  datatype Src = Src(ref: Ref, mod: Mod)

  /** A predicate operand. */
  datatype Flag = Const(b: bool) | FlagOf(ssa: Ssa)

  datatype SetOp = And | Or | Xor

  datatype CmpOp = False | True | Eq | Ne | Lt | Le | Gt | Ge

  datatype IntType = U32 | I32 | U64 | I64 {
    predicate Signed() { I32? || I64? }
    function Bits(): nat { if U32? || I32? then 32 else 64 }
  }

  datatype Op =
    | IAdd2(dst: Ssa, a: Src, b: Src, carry: Ssa)
    | IAdd2X(dst: Ssa, a: Src, b: Src, carryIn: Ssa)
    | IAdd3(dst: Ssa, a: Src, b: Src, c: Src, over0: Ssa, over1: Option<Ssa>)
    | IAdd3X(dst: Ssa, a: Src, b: Src, c: Src, carry0: Flag, carry1: Flag)
    | ISetP(dst: Ssa, set_: SetOp, cmp: CmpOp, signed: bool, ex: bool, a: Src, b: Src, accum: Flag, lowCmp: Flag)
    | Shf(dst: Ssa, low: Src, high: Src, shift: Src, right: bool, wrap: bool, ty: IntType, dstHigh: bool)
    | Prmt(dst: Ssa, a: Src, b: Src, sel: nat)
    | Copy(dst: Ssa, src: Src)

  /** General registers hold words, predicates and carries a bit. */
  datatype State = State(words: Ssa -> Word, flags: Ssa -> bool)

  // ---------------------------------------------------------------------------
  // What an instruction computes
  // ---------------------------------------------------------------------------

  function Read(st: State, s: Src): Word {
    match s.ref
    case Zero => 0
    case Imm32(w) => w
    case Value(v) => st.words(v)
  }

  function Not(w: Word): Word { WORD - 1 - w }

  function ReadNot(st: State, s: Src): Word {
    if s.mod.BNot? then Not(Read(st, s)) else Read(st, s)
  }

  /** A negated addend keeps the bit that two's complement carries out of the word. */
  function Addend(st: State, s: Src): nat {
    if s.mod.INeg? then Not(Read(st, s)) + 1 else Read(st, s)
  }

  function ReadFlag(st: State, f: Flag): bool {
    match f
    case Const(b) => b
    case FlagOf(v) => st.flags(v)
  }

  function SetWord(st: State, dst: Ssa, w: Word): State {
    st.(words := (v: Ssa) => var r: Word := if v == dst then w else st.words(v); r)
  }

  function SetFlag(st: State, dst: Ssa, b: bool): State {
    st.(flags := (v: Ssa) => if v == dst then b else st.flags(v))
  }

  function Bit(b: bool): nat { if b then 1 else 0 }

  function AsSigned32(w: Word): int { if w >= WORD / 2 then w - WORD else w }

  function AsSigned64(w: nat): int { if w >= WIDE / 2 then w - WIDE else w }

  predicate Compare(op: CmpOp, x: int, y: int) {
    match op
    case False => false
    case True => true
    case Eq => x == y
    case Ne => x != y
    case Lt => x < y
    case Le => x <= y
    case Gt => x > y
    case Ge => x >= y
  }

  predicate Combine(op: SetOp, a: bool, b: bool) {
    match op
    case And => a && b
    case Or => a || b
    case Xor => a != b
  }

  predicate ComparePart(op: CmpOp, signed: bool, x: Word, y: Word) {
    if signed then Compare(op, AsSigned32(x), AsSigned32(y)) else Compare(op, x, y)
  }

  /** A funnel shift of the two words.  Before SM70 a left shift always keeps the high
      word, and keeping the high word shifts in zeros unless the type is `I64`. */
  function Funnel(sm: nat, low: Word, high: Word, shift: Word, right: bool, wrap: bool, ty: IntType, dstHigh: bool): (r: Word) {
    var n := if wrap then shift % ty.Bits() else if shift <= ty.Bits() then shift else ty.Bits();
    var x := low + high * WORD;
    var arithmetic := ty.Signed() && !(sm < 70 && dstHigh && !ty.I64?);
    var shifted := if !right then x * Pow2(n) % WIDE else if arithmetic then AsSigned64(x) / Pow2(n) % WIDE else x / Pow2(n) % WIDE;
    if (sm < 70 && !right) || dstHigh then shifted / WORD else shifted % WORD
  }

  function Byte(w: Word, i: nat): (b: nat)
    ensures b < 256
  {
    if i == 0 then w % 256 else Byte(w / 256, i - 1)
  }

  function Nibble(sel: nat, i: nat): (n: nat)
    ensures n < 16
  {
    if i == 0 then sel % 16 else Nibble(sel / 16, i - 1)
  }

  /** Bit 2 of a selector picks the operand and bits 0 and 1 the byte; bit 3 spreads the
      byte's top bit over it. */
  function Select(nib: nat, a: Word, b: Word): (r: nat)
    ensures r < 256
  {
    var byte := Byte(if nib / 4 % 2 == 0 then a else b, nib % 4);
    if nib < 8 then byte else if byte >= 128 then 255 else 0
  }

  function FromBytes(b0: nat, b1: nat, b2: nat, b3: nat): Word
    requires b0 < 256 && b1 < 256 && b2 < 256 && b3 < 256
  {
    b0 + (b1 + (b2 + b3 * 256) * 256) * 256
  }

  function Permute(a: Word, b: Word, sel: nat): Word {
    FromBytes(Select(Nibble(sel, 0), a, b), Select(Nibble(sel, 1), a, b), Select(Nibble(sel, 2), a, b), Select(Nibble(sel, 3), a, b))
  }

  function Step(sm: nat, op: Op, st: State): State {
    match op
    case IAdd2(dst, a, b, carry) =>
      var sum := Addend(st, a) + Addend(st, b);
      SetFlag(SetWord(st, dst, sum % WORD), carry, sum >= WORD)
    case IAdd2X(dst, a, b, carryIn) =>
      SetWord(st, dst, (ReadNot(st, a) + ReadNot(st, b) + Bit(st.flags(carryIn))) % WORD)
    case IAdd3(dst, a, b, c, over0, over1) =>
      var sum := Addend(st, a) + Addend(st, b) + Addend(st, c);
      var st1 := SetFlag(SetWord(st, dst, sum % WORD), over0, sum >= WORD);
      if over1.Some? then SetFlag(st1, over1.value, sum >= 2 * WORD) else st1
    case IAdd3X(dst, a, b, c, carry0, carry1) =>
      var carries := Bit(ReadFlag(st, carry0)) + Bit(ReadFlag(st, carry1));
      SetWord(st, dst, (ReadNot(st, a) + ReadNot(st, b) + ReadNot(st, c) + carries) % WORD)
    case ISetP(dst, set_, cmp, signed, ex, a, b, accum, lowCmp) =>
      var x, y := Read(st, a), Read(st, b);
      var c := if ex && x == y && cmp != False && cmp != True then ReadFlag(st, lowCmp) else ComparePart(cmp, signed, x, y);
      SetFlag(st, dst, Combine(set_, c, ReadFlag(st, accum)))
    case Shf(dst, low, high, shift, right, wrap, ty, dstHigh) =>
      SetWord(st, dst, Funnel(sm, Read(st, low), Read(st, high), Read(st, shift), right, wrap, ty, dstHigh))
    case Prmt(dst, a, b, sel) =>
      SetWord(st, dst, Permute(Read(st, a), Read(st, b), sel))
    case Copy(dst, src) =>
      SetWord(st, dst, Read(st, src))
  }

  /** What folding insists on: modifiers of the operand's kind, and no extended
      comparison before SM70. */
  predicate Foldable(sm: nat, op: Op) {
    match op
    case IAdd2(_, a, b, _) => !a.mod.BNot? && !b.mod.BNot?
    case IAdd2X(_, a, b, _) => !a.mod.INeg? && !b.mod.INeg?
    case IAdd3(_, a, b, c, _, _) => !a.mod.BNot? && !b.mod.BNot? && !c.mod.BNot?
    case IAdd3X(_, a, b, c, _, _) => !a.mod.INeg? && !b.mod.INeg? && !c.mod.INeg?
    case ISetP(_, _, _, _, ex, _, _, _, _) => ex ==> sm >= 70
    case _ => true
  }

  /** The values an instruction defines. */
  function Defs(op: Op): set<Ssa> {
    match op
    case IAdd2(dst, _, _, carry) => {dst, carry}
    case IAdd3(dst, _, _, _, over0, over1) => {dst, over0} + (if over1.Some? then {over1.value} else {})
    case _ => {op.dst}
  }

  function Run(sm: nat, code: seq<Op>, st: State): State {
    if code == [] then st else Step(sm, code[|code| - 1], Run(sm, code[..|code| - 1], st))
  }

  lemma RunPush(sm: nat, code: seq<Op>, op: Op, st: State)
    ensures Run(sm, code + [op], st) == Step(sm, op, Run(sm, code, st))
  {
    assert (code + [op])[..|code|] == code;
  }

  /** Only fresh values are defined. */
  ghost predicate Fresh(sm: nat, code: seq<Op>, from: Ssa, to: Ssa) {
    forall op :: op in code ==> Foldable(sm, op) && forall v :: v in Defs(op) ==> from <= v < to
  }

  lemma StepKeeps(sm: nat, op: Op, st: State, v: Ssa)
    requires v !in Defs(op)
    ensures Step(sm, op, st).words(v) == st.words(v) && Step(sm, op, st).flags(v) == st.flags(v)
  {
    hide Funnel, Permute, Combine, ComparePart;
  }

  /** Values from before keep what they hold. */
  lemma {:induction false} RunKeeps(sm: nat, code: seq<Op>, from: Ssa, to: Ssa, st: State, v: Ssa)
    requires Fresh(sm, code, from, to) && v < from
    ensures Run(sm, code, st).words(v) == st.words(v) && Run(sm, code, st).flags(v) == st.flags(v)
  {
    hide Step;
    if code != [] {
      var n := |code| - 1;
      assert code[n] in code;
      RunKeeps(sm, code[..n], from, to, st, v);
      StepKeeps(sm, code[n], Run(sm, code[..n], st), v);
    }
  }

  // ---------------------------------------------------------------------------
  // 64-bit values
  // ---------------------------------------------------------------------------

  datatype Pair = Pair(lo: Ssa, hi: Ssa)

  function Wide(st: State, p: Pair): nat { st.words(p.lo) + st.words(p.hi) * WORD }

  function Number(w: nat, signed: bool): int { if signed then AsSigned64(w) else w }

  // ---- shifting a number is shifting its halves

  lemma Halves(v: int)
    ensures v % WIDE / WORD == v / WORD % WORD && v % WIDE % WORD == v % WORD
    ensures v % WIDE == v % WORD + v / WORD % WORD * WORD
  {
    var q, u := v / WIDE, v % WIDE;
    QuotientUnique(v, WORD, q * WORD + u / WORD, u % WORD, v / WORD, v % WORD);
    QuotientUnique(v / WORD, WORD, q, u / WORD, v / WORD / WORD, v / WORD % WORD);
  }

  lemma Swap(a: int, p: nat)
    requires p > 0
    ensures a / p / WORD == a / WORD / p
  {
    DivDiv(a, p, WORD);
    DivDiv(a, WORD, p);
    assert p * WORD == WORD * p;
  }

  /** Left: both halves are high words of a funnel shift, the low one of the low word
      with zeros below it. */
  lemma ShiftLeft(x0: Word, x1: Word, p: nat)
    ensures (x0 * WORD) * p % WIDE / WORD + (x0 + x1 * WORD) * p % WIDE / WORD * WORD == (x0 + x1 * WORD) * p % WIDE
    ensures x0 * p % WIDE % WORD + (x0 + x1 * WORD) * p % WIDE / WORD * WORD == (x0 + x1 * WORD) * p % WIDE
  {
    var v := (x0 + x1 * WORD) * p;
    Halves(v);
    Halves((x0 * WORD) * p);
    Halves(x0 * p);
    assert (x0 * WORD) * p == (x0 * p) * WORD;
    assert v == (x1 * p) * WORD + x0 * p;
    QuotientUnique(v, WORD, x1 * p + x0 * p / WORD, x0 * p % WORD, v / WORD, v % WORD);
  }

  /** Right: the low half is the low word of the whole, and the high half does not
      depend on the low word, which may as well be zero. */
  lemma ShiftRight(x0: Word, hi: int, p: nat)
    requires p > 0
    ensures (x0 + hi * WORD) / p % WIDE % WORD + hi * WORD / p % WIDE / WORD * WORD == (x0 + hi * WORD) / p % WIDE
  {
    var v := x0 + hi * WORD;
    Halves(v / p);
    Halves(hi * WORD / p);
    Swap(v, p);
    Swap(hi * WORD, p);
    assert v / WORD == hi;
  }

  lemma SignOfHalves(x0: Word, x1: Word)
    ensures AsSigned64(x0 + x1 * WORD) == x0 + AsSigned32(x1) * WORD
    ensures AsSigned64(x1 * WORD) == AsSigned32(x1) * WORD
  {
  }

  // ---------------------------------------------------------------------------
  // What the emitted instructions compute
  // ---------------------------------------------------------------------------

  lemma RunTwo(sm: nat, a: Op, b: Op, st: State)
    ensures Run(sm, [a, b], st) == Step(sm, b, Step(sm, a, st))
  {
    hide Step;
    RunPush(sm, [], a, st);
    RunPush(sm, [a], b, st);
    assert [] + [a] == [a] && [a] + [b] == [a, b];
  }

  lemma RunThree(sm: nat, a: Op, b: Op, c: Op, st: State)
    ensures Run(sm, [a, b, c], st) == Step(sm, c, Step(sm, b, Step(sm, a, st)))
  {
    hide Step;
    RunTwo(sm, a, b, st);
    RunPush(sm, [a, b], c, st);
    assert [a, b] + [c] == [a, b, c];
  }

  lemma {:induction false} RunConcat(sm: nat, a: seq<Op>, b: seq<Op>, st: State)
    ensures Run(sm, a + b, st) == Run(sm, b, Run(sm, a, st))
    decreases |b|
  {
    hide Step;
    if b == [] {
      assert a + b == a;
    } else {
      assert (a + b)[..|a + b| - 1] == a + b[..|b| - 1];
      RunConcat(sm, a, b[..|b| - 1], st);
    }
  }

  /** A value computed by `code` is still there after whatever is emitted next. */
  lemma ResultStays(sm: nat, code: seq<Op>, later: seq<Op>, from: Ssa, to: Ssa, st: State, v: Ssa)
    requires Fresh(sm, later, from, to) && v < from
    ensures Run(sm, code + later, st).words(v) == Run(sm, code, st).words(v)
    ensures Run(sm, code + later, st).flags(v) == Run(sm, code, st).flags(v)
  {
    RunConcat(sm, code, later, st);
    RunKeeps(sm, later, from, to, Run(sm, code, st), v);
  }

  const NIL := Src(Zero, Plain)

  function Use(v: Ssa): Src { Src(Value(v), Plain) }

  predicate Known(s: Src, next: Ssa) { s.ref.Value? ==> s.ref.ssa < next }

  function Shl64Low(sm: nat, x: Pair, shift: Src, dst: Ssa): Op {
    if sm >= 70 then Shf(dst, Use(x.lo), NIL, shift, false, true, U64, false) else Shf(dst, NIL, Use(x.lo), shift, false, true, U64, true)
  }

  lemma Shl64Runs(sm: nat, x: Pair, shift: Src, dst: Pair, st: State)
    requires dst.lo != dst.hi && dst.lo != x.lo && dst.lo != x.hi && shift.ref != Value(dst.lo)
    ensures var code := [Shl64Low(sm, x, shift, dst.lo), Shf(dst.hi, Use(x.lo), Use(x.hi), shift, false, true, U64, true)];
            Wide(Run(sm, code, st), dst) == Wide(st, x) * Pow2(Read(st, shift) % 64) % WIDE
  {
    RunTwo(sm, Shl64Low(sm, x, shift, dst.lo), Shf(dst.hi, Use(x.lo), Use(x.hi), shift, false, true, U64, true), st);
    ShiftLeft(st.words(x.lo), st.words(x.hi), Pow2(Read(st, shift) % 64));
  }

  lemma Shr64Runs(sm: nat, x: Pair, shift: Src, signed: bool, dst: Pair, st: State)
    requires dst.lo != dst.hi && dst.lo != x.lo && dst.lo != x.hi && shift.ref != Value(dst.lo)
    ensures var ty := if signed then I64 else U64;
            var code := [Shf(dst.lo, Use(x.lo), Use(x.hi), shift, true, true, ty, false), Shf(dst.hi, NIL, Use(x.hi), shift, true, true, ty, true)];
            Wide(Run(sm, code, st), dst) == Number(Wide(st, x), signed) / Pow2(Read(st, shift) % 64) % WIDE
  {
    var ty := if signed then I64 else U64;
    RunTwo(sm, Shf(dst.lo, Use(x.lo), Use(x.hi), shift, true, true, ty, false), Shf(dst.hi, NIL, Use(x.hi), shift, true, true, ty, true), st);
    SignOfHalves(st.words(x.lo), st.words(x.hi));
    ShiftRight(st.words(x.lo), if signed then AsSigned32(st.words(x.hi)) else st.words(x.hi), Pow2(Read(st, shift) % 64));
  }

  // ---- addition

  /** An operand of a 64-bit addition: nothing, or a pair, negated or not. */
  datatype Src64 = Src64(pair: Option<Pair>, neg: bool) {
    function Lo(): Src {
      if pair.None? then NIL else Src(Value(pair.value.lo), if neg then INeg else Plain)
    }

    function Hi(): Src {
      if pair.None? then NIL else Src(Value(pair.value.hi), if neg then BNot else Plain)
    }

    function Meaning(st: State): int {
      if pair.None? then 0 else if neg then 0 - Wide(st, pair.value) else Wide(st, pair.value)
    }

    /** A negated zero is not known to be zero. */
    predicate IsZero() { pair.None? && !neg }

    predicate KnownTo(next: Ssa) { pair.Some? ==> pair.value.lo < next && pair.value.hi < next }

    /** Negates a pair, whose words may be zero. */
    predicate NegatesPair() { pair.Some? && neg }

    /** Negated, and negating its low word carries. */
    predicate Carries(st: State) { NegatesPair() && st.words(pair.value.lo) == 0 }
  }

  predicate ThreeSrcs(x: Src64, y: Src64, z: Src64) { !x.IsZero() && !y.IsZero() && !z.IsZero() }

  /** The low words carry more than the carries emitted can hold. */
  predicate CarryLost(sm: nat, x: Src64, y: Src64, z: Src64, st: State) {
    if sm >= 70 && ThreeSrcs(x, y, z) then x.Carries(st) && y.Carries(st) && z.Carries(st)
    else (x.Carries(st) && y.Carries(st)) || (x.Carries(st) && z.Carries(st)) || (y.Carries(st) && z.Carries(st))
  }

  lemma CancelMod(h: nat, a: nat, b: nat)
    requires a < WORD && b < WORD
    ensures (h + a) % WORD == (h + b) % WORD <==> a == b
  {
    var q, q' := (h + a) / WORD, (h + b) / WORD;
    if (h + a) % WORD == (h + b) % WORD {
      assert a - b == (q - q') * WORD;
    }
  }

  /** The high word of the sum of three, given the low words' sum and the carries counted. */
  lemma SumOfHalves(lo: nat, carries: nat, his: nat, total: int)
    requires total % WIDE == (lo + his * WORD) % WIDE && lo <= 3 * WORD && carries < WORD
    ensures lo % WORD + (his + carries) % WORD * WORD == total % WIDE <==> carries == lo / WORD
  {
    var v := lo + his * WORD;
    Halves(v);
    QuotientUnique(v, WORD, his + lo / WORD, lo % WORD, v / WORD, v % WORD);
    CancelMod(his, carries, lo / WORD);
  }

  lemma Terms(st: State, x: Src64)
    ensures (x.Meaning(st) - Addend(st, x.Lo()) - ReadNot(st, x.Hi()) * WORD) % WIDE == 0
    ensures Addend(st, x.Lo()) <= WORD && (Addend(st, x.Lo()) == WORD <==> x.Carries(st))
    ensures x.pair.None? ==> Addend(st, x.Lo()) == 0
  {
  }

  function AddLow(sm: nat, x: Src64, y: Src64, z: Src64, dst: Ssa, carry: Ssa, carry2: Option<Ssa>): Op {
    if sm >= 70 then IAdd3(dst, x.Lo(), y.Lo(), z.Lo(), carry, carry2) else IAdd2(dst, x.Lo(), y.Lo(), carry)
  }

  function AddHigh(sm: nat, x: Src64, y: Src64, z: Src64, dst: Ssa, carry: Ssa, carry2: Option<Ssa>): Op {
    if sm >= 70 then IAdd3X(dst, x.Hi(), y.Hi(), z.Hi(), FlagOf(carry), if carry2.Some? then FlagOf(carry2.value) else Const(false))
    else IAdd2X(dst, x.Hi(), y.Hi(), carry)
  }

  function LowSum(st: State, x: Src64, y: Src64, z: Src64): nat { Addend(st, x.Lo()) + Addend(st, y.Lo()) + Addend(st, z.Lo()) }

  function HighSum(st: State, x: Src64, y: Src64, z: Src64): nat { ReadNot(st, x.Hi()) + ReadNot(st, y.Hi()) + ReadNot(st, z.Hi()) }

  /** The carries that reach the high words. */
  function Counted(two: bool, lo: nat): nat { Bit(lo >= WORD) + if two then Bit(lo >= 2 * WORD) else 0 }

  lemma HighSumStays(st: State, st': State, x: Src64, y: Src64, z: Src64, next: Ssa)
    requires x.KnownTo(next) && y.KnownTo(next) && z.KnownTo(next) && forall v: Ssa :: v < next ==> st'.words(v) == st.words(v)
    ensures HighSum(st', x, y, z) == HighSum(st, x, y, z)
  {
  }

  lemma AddLowStep(sm: nat, x: Src64, y: Src64, z: Src64, dst: Ssa, carry: Ssa, carry2: Option<Ssa>, next: Ssa, st: State)
    requires x.KnownTo(next) && y.KnownTo(next) && z.KnownTo(next) && next <= dst
    requires (sm < 70 ==> z.IsZero() && carry2.None?) && (carry2.Some? ==> carry2.value != carry)
    ensures var st1 := Step(sm, AddLow(sm, x, y, z, dst, carry, carry2), st);
            && st1.words(dst) == LowSum(st, x, y, z) % WORD && st1.flags(carry) == (LowSum(st, x, y, z) >= WORD)
            && (carry2.Some? ==> st1.flags(carry2.value) == (LowSum(st, x, y, z) >= 2 * WORD))
            && HighSum(st1, x, y, z) == HighSum(st, x, y, z)
  {
    assert sm < 70 ==> Addend(st, z.Lo()) == 0;
    hide Addend, ReadNot, HighSum;
    HighSumStays(st, Step(sm, AddLow(sm, x, y, z, dst, carry, carry2), st), x, y, z, next);
  }

  lemma AddHighStep(sm: nat, x: Src64, y: Src64, z: Src64, dst: Ssa, carry: Ssa, carry2: Option<Ssa>, st: State)
    requires sm < 70 ==> z.IsZero() && carry2.None?
    ensures var st1 := Step(sm, AddHigh(sm, x, y, z, dst, carry, carry2), st);
            && st1.words(dst) == (HighSum(st, x, y, z) + Bit(st.flags(carry)) + if carry2.Some? then Bit(st.flags(carry2.value)) else 0) % WORD
            && forall v :: v != dst ==> st1.words(v) == st.words(v)
  {
  }

  lemma AddRuns(sm: nat, x: Src64, y: Src64, z: Src64, dst: Pair, carry: Ssa, carry2: Option<Ssa>, next: Ssa, st: State)
    requires x.KnownTo(next) && y.KnownTo(next) && z.KnownTo(next) && next <= dst.lo < dst.hi
    requires (sm < 70 ==> z.IsZero() && carry2.None?) && (carry2.Some? ==> carry2.value != carry)
    ensures var after := Run(sm, [AddLow(sm, x, y, z, dst.lo, carry, carry2), AddHigh(sm, x, y, z, dst.hi, carry, carry2)], st);
            after.words(dst.lo) == LowSum(st, x, y, z) % WORD &&
            after.words(dst.hi) == (HighSum(st, x, y, z) + Counted(carry2.Some?, LowSum(st, x, y, z))) % WORD
  {
    var low, high := AddLow(sm, x, y, z, dst.lo, carry, carry2), AddHigh(sm, x, y, z, dst.hi, carry, carry2);
    hide Step, Run, LowSum, HighSum, AddLow, AddHigh;
    RunTwo(sm, low, high, st);
    AddLowStep(sm, x, y, z, dst.lo, carry, carry2, next, st);
    AddHighStep(sm, x, y, z, dst.hi, carry, carry2, Step(sm, low, st));
  }

  lemma AddMultiples(a: int, b: int, c: int)
    requires a % WIDE == 0 && b % WIDE == 0 && c % WIDE == 0
    ensures (a + b + c) % WIDE == 0
  {
  }

  lemma Congruent(a: int, b: int)
    requires (a - b) % WIDE == 0
    ensures a % WIDE == b % WIDE
  {
  }

  lemma SumMeaning(st: State, x: Src64, y: Src64, z: Src64)
    ensures (x.Meaning(st) + y.Meaning(st) + z.Meaning(st)) % WIDE == (LowSum(st, x, y, z) + HighSum(st, x, y, z) * WORD) % WIDE
    ensures LowSum(st, x, y, z) <= 3 * WORD
  {
    Terms(st, x);
    Terms(st, y);
    Terms(st, z);
    hide Addend, ReadNot;
    AddMultiples(x.Meaning(st) - Addend(st, x.Lo()) - ReadNot(st, x.Hi()) * WORD,
                 y.Meaning(st) - Addend(st, y.Lo()) - ReadNot(st, y.Hi()) * WORD,
                 z.Meaning(st) - Addend(st, z.Lo()) - ReadNot(st, z.Hi()) * WORD);
    Congruent(x.Meaning(st) + y.Meaning(st) + z.Meaning(st), LowSum(st, x, y, z) + HighSum(st, x, y, z) * WORD);
  }

  lemma CountedOrLost(sm: nat, x: Src64, y: Src64, z: Src64, st: State)
    requires sm < 70 ==> z.IsZero()
    ensures var lo := LowSum(st, x, y, z);
            Counted(sm >= 70 && ThreeSrcs(x, y, z), lo) == lo / WORD <==> !CarryLost(sm, x, y, z, st)
  {
    Terms(st, x);
    Terms(st, y);
    Terms(st, z);
    hide Addend;
  }

  lemma Iadd64Runs(sm: nat, x: Src64, y: Src64, z: Src64, dst: Pair, carry: Ssa, carry2: Option<Ssa>, next: Ssa, st: State)
    requires x.KnownTo(next) && y.KnownTo(next) && z.KnownTo(next) && next <= dst.lo < dst.hi
    requires (sm < 70 ==> z.IsZero()) && (carry2.Some? <==> sm >= 70 && ThreeSrcs(x, y, z)) && (carry2.Some? ==> carry2.value != carry)
    ensures
      var after := Run(sm, [AddLow(sm, x, y, z, dst.lo, carry, carry2), AddHigh(sm, x, y, z, dst.hi, carry, carry2)], st);
      (Wide(after, dst) == (x.Meaning(st) + y.Meaning(st) + z.Meaning(st)) % WIDE) <==> !CarryLost(sm, x, y, z, st)
  {
    hide Addend, ReadNot, Run, CarryLost, ThreeSrcs, AddLow, AddHigh;
    AddRuns(sm, x, y, z, dst, carry, carry2, next, st);
    CountedOrLost(sm, x, y, z, st);
    SumMeaning(st, x, y, z);
    SumOfHalves(LowSum(st, x, y, z), Counted(carry2.Some?, LowSum(st, x, y, z)), HighSum(st, x, y, z),
                x.Meaning(st) + y.Meaning(st) + z.Meaning(st));
  }

  // ---- which additions are exact whatever the words hold

  /** Where no state loses a carry: a caller knows its operands, not their words. */
  predicate CarrySafe(sm: nat, x: Src64, y: Src64, z: Src64) {
    if sm >= 70 && ThreeSrcs(x, y, z) then !(x.NegatesPair() && y.NegatesPair() && z.NegatesPair())
    else !(x.NegatesPair() && y.NegatesPair()) && !(x.NegatesPair() && z.NegatesPair()) && !(y.NegatesPair() && z.NegatesPair())
  }

  /** Every register zero: a negated pair carries. */
  const ZEROS := State((v: Ssa) => var w: Word := 0; w, (v: Ssa) => false)

  lemma ExactOperands(sm: nat, x: Src64, y: Src64, z: Src64)
    ensures (forall st :: !CarryLost(sm, x, y, z, st)) <==> CarrySafe(sm, x, y, z)
  {
    assert CarrySafe(sm, x, y, z) || CarryLost(sm, x, y, z, ZEROS);
  }

  /** One negated operand is always exact. */
  lemma OneNegatedExact(sm: nat, x: Src64, y: Src64, z: Src64)
    requires Bit(x.neg) + Bit(y.neg) + Bit(z.neg) <= 1
    ensures forall st :: !CarryLost(sm, x, y, z, st)
  {
    ExactOperands(sm, x, y, z);
  }

  function Negated(lo: Ssa): Src64 { Src64(Some(Pair(lo, lo + 1)), true) }

  /** The third operand, if there is one. */
  function Third(three: bool): Src64 { if three then Negated(4) else Src64(None, false) }

  lemma ZeroSums(three: bool)
    ensures var n := if three then 3 else 2;
            && LowSum(ZEROS, Negated(0), Negated(2), Third(three)) == n * WORD
            && HighSum(ZEROS, Negated(0), Negated(2), Third(three)) == n * (WORD - 1)
            && Negated(0).Meaning(ZEROS) + Negated(2).Meaning(ZEROS) + Third(three).Meaning(ZEROS) == 0
  {
  }

  /** Minus zero minus zero comes out as -2^32, as does a third minus zero from SM70 on. */
  lemma NegatedZeros(sm: nat, three: bool)
    requires three ==> sm >= 70
    ensures
      var x, y, z, carry2 := Negated(0), Negated(2), Third(three), if three then Some(9) else None;
      && Wide(Run(sm, [AddLow(sm, x, y, z, 6, 8, carry2), AddHigh(sm, x, y, z, 7, 8, carry2)], ZEROS), Pair(6, 7)) == WIDE - WORD
      && x.Meaning(ZEROS) + y.Meaning(ZEROS) + z.Meaning(ZEROS) == 0
  {
    ZeroSums(three);
    hide Run, Step, LowSum, HighSum, AddLow, AddHigh, Src64.Meaning;
    AddRuns(sm, Negated(0), Negated(2), Third(three), Pair(6, 7), 8, if three then Some(9) else None, 6, ZEROS);
  }

  // ---- comparison

  function Strict(op: CmpOp): CmpOp {
    if op.Lt? || op.Le? then Lt else Gt
  }

  /** Unequal high words decide; equal ones leave it to the low words, which have no
      sign. */
  lemma CompareHalves(op: CmpOp, signed: bool, x0: Word, x1: Word, y0: Word, y1: Word)
    ensures var whole := Compare(op, Number(x0 + x1 * WORD, signed), Number(y0 + y1 * WORD, signed));
            && (op.Eq? ==> whole == (Compare(op, x0, y0) && Compare(op, x1, y1)))
            && (op.Ne? ==> whole == (Compare(op, x0, y0) || Compare(op, x1, y1)))
            && (op.Lt? || op.Le? || op.Gt? || op.Ge? ==>
                  && whole == (ComparePart(Strict(op), signed, x1, y1) || (x1 == y1 && Compare(op, x0, y0)))
                  && whole == if x1 == y1 then Compare(op, x0, y0) else ComparePart(op, signed, x1, y1))
  {
    SignOfHalves(x0, x1);
    SignOfHalves(y0, y1);
  }

  function IsetpLow(op: CmpOp, x: Pair, y: Pair, low: Ssa): Op {
    ISetP(low, And, op, false, false, Use(x.lo), Use(y.lo), Const(true), Const(true))
  }

  function IsetpEqual(op: CmpOp, x: Pair, y: Pair, low: Ssa, dst: Ssa): Op {
    ISetP(dst, if op.Eq? then And else Or, op, false, false, Use(x.hi), Use(y.hi), FlagOf(low), Const(true))
  }

  function IsetpExtended(op: CmpOp, signed: bool, x: Pair, y: Pair, low: Ssa, dst: Ssa): Op {
    ISetP(dst, And, op, signed, true, Use(x.hi), Use(y.hi), Const(true), FlagOf(low))
  }

  function IsetpHigh(op: CmpOp, signed: bool, x: Pair, y: Pair, both: Ssa, dst: Ssa): Op {
    ISetP(dst, Or, Strict(op), signed, false, Use(x.hi), Use(y.hi), FlagOf(both), Const(true))
  }

  /** Equality takes two comparisons, an order two from SM70 on and three before. */
  function Isetp64Code(sm: nat, op: CmpOp, signed: bool, x: Pair, y: Pair, low: Ssa, both: Ssa, dst: Ssa): seq<Op> {
    if op.Eq? || op.Ne? then [IsetpLow(op, x, y, low), IsetpEqual(op, x, y, low, dst)]
    else if sm >= 70 then [IsetpLow(op, x, y, low), IsetpExtended(op, signed, x, y, low, dst)]
    else [IsetpLow(op, x, y, low), IsetpEqual(Eq, x, y, low, both), IsetpHigh(op, signed, x, y, both, dst)]
  }

  lemma SetpStep(sm: nat, op: Op, st: State)
    requires op.ISetP?
    ensures Step(sm, op, st).words == st.words
    ensures Step(sm, op, st).flags(op.dst) == Combine(op.set_,
              if op.ex && Read(st, op.a) == Read(st, op.b) && !op.cmp.False? && !op.cmp.True? then ReadFlag(st, op.lowCmp)
              else ComparePart(op.cmp, op.signed, Read(st, op.a), Read(st, op.b)), ReadFlag(st, op.accum))
  {
  }

  lemma IsetpEqualRuns(sm: nat, op: CmpOp, x: Pair, y: Pair, low: Ssa, dst: Ssa, st: State)
    requires op.Eq? || op.Ne?
    ensures var x0, y0, x1, y1 := st.words(x.lo), st.words(y.lo), st.words(x.hi), st.words(y.hi);
            Run(sm, [IsetpLow(op, x, y, low), IsetpEqual(op, x, y, low, dst)], st).flags(dst) ==
            if op.Eq? then x0 == y0 && x1 == y1 else x0 != y0 || x1 != y1
  {
    var first, second := IsetpLow(op, x, y, low), IsetpEqual(op, x, y, low, dst);
    hide Step, Run;
    RunTwo(sm, first, second, st);
    SetpStep(sm, first, st);
    SetpStep(sm, second, Step(sm, first, st));
  }

  lemma IsetpExtendedRuns(sm: nat, op: CmpOp, signed: bool, x: Pair, y: Pair, low: Ssa, dst: Ssa, st: State)
    requires !op.False? && !op.True?
    ensures var x0, y0, x1, y1 := st.words(x.lo), st.words(y.lo), st.words(x.hi), st.words(y.hi);
            Run(sm, [IsetpLow(op, x, y, low), IsetpExtended(op, signed, x, y, low, dst)], st).flags(dst) ==
            if x1 == y1 then Compare(op, x0, y0) else ComparePart(op, signed, x1, y1)
  {
    var first, second := IsetpLow(op, x, y, low), IsetpExtended(op, signed, x, y, low, dst);
    assert ComparePart(op, false, st.words(x.lo), st.words(y.lo)) == Compare(op, st.words(x.lo), st.words(y.lo));
    hide Step, Run, Compare, ComparePart;
    RunTwo(sm, first, second, st);
    SetpStep(sm, first, st);
    SetpStep(sm, second, Step(sm, first, st));
  }

  lemma IsetpOrderedRuns(sm: nat, op: CmpOp, signed: bool, x: Pair, y: Pair, low: Ssa, both: Ssa, dst: Ssa, st: State)
    requires !op.False? && !op.True?
    ensures var x0, y0, x1, y1 := st.words(x.lo), st.words(y.lo), st.words(x.hi), st.words(y.hi);
            Run(sm, [IsetpLow(op, x, y, low), IsetpEqual(Eq, x, y, low, both), IsetpHigh(op, signed, x, y, both, dst)], st).flags(dst) ==
            (ComparePart(Strict(op), signed, x1, y1) || (x1 == y1 && Compare(op, x0, y0)))
  {
    var first, second, third := IsetpLow(op, x, y, low), IsetpEqual(Eq, x, y, low, both), IsetpHigh(op, signed, x, y, both, dst);
    assert ComparePart(op, false, st.words(x.lo), st.words(y.lo)) == Compare(op, st.words(x.lo), st.words(y.lo));
    assert ComparePart(Eq, false, st.words(x.hi), st.words(y.hi)) == (st.words(x.hi) == st.words(y.hi));
    hide Step, Run, Compare, ComparePart, Strict;
    RunThree(sm, first, second, third, st);
    SetpStep(sm, first, st);
    SetpStep(sm, second, Step(sm, first, st));
    SetpStep(sm, third, Step(sm, second, Step(sm, first, st)));
  }

  lemma Isetp64Runs(sm: nat, op: CmpOp, signed: bool, x: Pair, y: Pair, low: Ssa, both: Ssa, dst: Ssa, st: State)
    requires !op.False? && !op.True?
    ensures Run(sm, Isetp64Code(sm, op, signed, x, y, low, both, dst), st).flags(dst) ==
            Compare(op, Number(Wide(st, x), signed), Number(Wide(st, y), signed))
  {
    hide Step, Run, Number, IsetpLow, IsetpEqual, IsetpExtended, IsetpHigh;
    CompareHalves(op, signed, st.words(x.lo), st.words(x.hi), st.words(y.lo), st.words(y.hi));
    if op.Eq? || op.Ne? {
      IsetpEqualRuns(sm, op, x, y, low, dst, st);
    } else if sm >= 70 {
      IsetpExtendedRuns(sm, op, signed, x, y, low, dst, st);
    } else {
      IsetpOrderedRuns(sm, op, signed, x, y, low, both, dst, st);
    }
  }

  // ---- byte permutation

  function PackSel(sel: seq<nat>): nat
    requires |sel| == 4
  {
    sel[0] + (sel[1] + (sel[2] + sel[3] * 16) * 16) * 16
  }

  lemma ByteNext(b: nat, rest: nat, i: nat)
    requires b < 256 && b + rest * 256 < WORD && i > 0
    ensures Byte(b + rest * 256, 0) == b && rest < WORD && Byte(b + rest * 256, i) == Byte(rest, i - 1)
  {
    assert (b + rest * 256) / 256 == rest && (b + rest * 256) % 256 == b;
  }

  lemma BytesOf(b0: nat, b1: nat, b2: nat, b3: nat, i: nat)
    requires b0 < 256 && b1 < 256 && b2 < 256 && b3 < 256 && i < 4
    ensures Byte(FromBytes(b0, b1, b2, b3), i) == [b0, b1, b2, b3][i]
  {
    hide Byte;
    ByteNext(b0, b1 + (b2 + b3 * 256) * 256, if i == 0 then 1 else i);
    ByteNext(b1, b2 + b3 * 256, if i <= 1 then 1 else i - 1);
    ByteNext(b2, b3, 1);
    ByteNext(b3, 0, 1);
  }

  lemma NibbleNext(n: nat, rest: nat, i: nat)
    requires n < 16 && i > 0
    ensures Nibble(n + rest * 16, 0) == n && Nibble(n + rest * 16, i) == Nibble(rest, i - 1)
  {
    assert (n + rest * 16) / 16 == rest && (n + rest * 16) % 16 == n;
  }

  lemma NibblesOf(sel: seq<nat>, i: nat)
    requires |sel| == 4 && (forall k :: 0 <= k < 4 ==> sel[k] < 16) && i < 4
    ensures Nibble(PackSel(sel), i) == sel[i]
  {
    hide Nibble;
    NibbleNext(sel[0], sel[1] + (sel[2] + sel[3] * 16) * 16, if i == 0 then 1 else i);
    NibbleNext(sel[1], sel[2] + sel[3] * 16, if i <= 1 then 1 else i - 1);
    NibbleNext(sel[2], sel[3], 1);
    NibbleNext(sel[3], 0, 1);
  }

  lemma PermuteAt(a: Word, b: Word, sel: seq<nat>, i: nat)
    requires |sel| == 4 && (forall k :: 0 <= k < 4 ==> sel[k] < 16) && i < 4
    ensures Byte(Permute(a, b, PackSel(sel)), i) == Select(sel[i], a, b)
  {
    NibblesOf(sel, i);
    var n := PackSel(sel);
    hide Byte, FromBytes, Select, Nibble, PackSel;
    BytesOf(Select(Nibble(n, 0), a, b), Select(Nibble(n, 1), a, b), Select(Nibble(n, 2), a, b), Select(Nibble(n, 3), a, b), i);
  }

  /** Selectors 0 to 7 pick a plain byte. */
  function PlainByte(sel: nat, a: Word, b: Word): nat {
    if sel < 4 then Byte(a, sel) else Byte(b, sel % 4)
  }

  lemma PlainSelect(sel: nat, a: Word, b: Word)
    requires sel < 8
    ensures Select(sel, a, b) == PlainByte(sel, a, b)
  {
  }

  /** Code that defines only fresh values leaves the operands alone. */
  lemma SourceKept(sm: nat, code: seq<Op>, from: Ssa, to: Ssa, st: State, s: Src)
    requires Fresh(sm, code, from, to) && Known(s, from)
    ensures Read(Run(sm, code, st), s) == Read(st, s)
  {
    if s.ref.Value? { RunKeeps(sm, code, from, to, st, s.ref.ssa); }
  }

  // ---------------------------------------------------------------------------
  // The builder
  // ---------------------------------------------------------------------------

  class SsaBuilder {
    const sm: nat
    var instrs: seq<Op>
    var next: Ssa

    constructor (sm: nat)
      ensures this.sm == sm && instrs == [] && next == 0
    {
      this.sm, instrs, next := sm, [], 0;
    }

    method AllocSsa() returns (v: Ssa)
      modifies `next
      ensures v == old(next) && next == v + 1
    {
      v := next;
      next := next + 1;
    }

    method AllocPair() returns (p: Pair)
      modifies `next
      ensures p == Pair(old(next), old(next) + 1) && next == old(next) + 2
    {
      var lo := AllocSsa();
      var hi := AllocSsa();
      p := Pair(lo, hi);
    }

    method PushOp(op: Op)
      modifies `instrs
      ensures instrs == old(instrs) + [op]
    {
      instrs := instrs + [op];
    }

    /** `shl64`: multiplication by a power of two modulo 2^64, the amount modulo 64. */
    method Shl64(x: Pair, shift: Src) returns (dst: Pair, ghost code: seq<Op>)
      requires x.lo < next && x.hi < next && Known(shift, next) && shift.mod.Plain?
      modifies this
      ensures instrs == old(instrs) + code && Fresh(sm, code, old(next), next) && old(next) <= dst.lo < dst.hi < next
      ensures forall st :: Wide(Run(sm, code, st), dst) == Wide(st, x) * Pow2(Read(st, shift) % 64) % WIDE
    {
      dst := AllocPair();
      if sm >= 70 {
        PushOp(Shf(dst.lo, Use(x.lo), NIL, shift, false, true, U64, false));
      } else {
        PushOp(Shf(dst.lo, NIL, Use(x.lo), shift, false, true, U64, true));
      }
      PushOp(Shf(dst.hi, Use(x.lo), Use(x.hi), shift, false, true, U64, true));
      code := [Shl64Low(sm, x, shift, dst.lo), Shf(dst.hi, Use(x.lo), Use(x.hi), shift, false, true, U64, true)];
      forall st: State
        ensures Wide(Run(sm, code, st), dst) == Wide(st, x) * Pow2(Read(st, shift) % 64) % WIDE
      {
        Shl64Runs(sm, x, shift, dst, st);
      }
    }

    /** `shr64`: division rounding down, of the number with or without its sign. */
    method Shr64(x: Pair, shift: Src, signed: bool) returns (dst: Pair, ghost code: seq<Op>)
      requires x.lo < next && x.hi < next && Known(shift, next) && shift.mod.Plain?
      modifies this
      ensures instrs == old(instrs) + code && Fresh(sm, code, old(next), next) && old(next) <= dst.lo < dst.hi < next
      ensures forall st :: Wide(Run(sm, code, st), dst) == Number(Wide(st, x), signed) / Pow2(Read(st, shift) % 64) % WIDE
    {
      dst := AllocPair();
      var ty := if signed then I64 else U64;
      PushOp(Shf(dst.lo, Use(x.lo), Use(x.hi), shift, true, true, ty, false));
      PushOp(Shf(dst.hi, NIL, Use(x.hi), shift, true, true, ty, true));
      code := [Shf(dst.lo, Use(x.lo), Use(x.hi), shift, true, true, ty, false), Shf(dst.hi, NIL, Use(x.hi), shift, true, true, ty, true)];
      forall st: State
        ensures Wide(Run(sm, code, st), dst) == Number(Wide(st, x), signed) / Pow2(Read(st, shift) % 64) % WIDE
      {
        Shr64Runs(sm, x, shift, signed, dst, st);
      }
    }

    /** `iadd64`: the sum modulo 2^64, except where the low words carry more than the
        emitted carries hold. */
    method Iadd64(x: Src64, y: Src64, z: Src64) returns (dst: Pair, ghost code: seq<Op>)
      requires x.KnownTo(next) && y.KnownTo(next) && z.KnownTo(next) && (sm < 70 ==> z.IsZero())
      modifies this
      ensures instrs == old(instrs) + code && Fresh(sm, code, old(next), next) && old(next) <= dst.lo < dst.hi < next
      ensures forall st :: (Wide(Run(sm, code, st), dst) == (x.Meaning(st) + y.Meaning(st) + z.Meaning(st)) % WIDE)
                           <==> !CarryLost(sm, x, y, z, st)
      ensures (forall st :: Wide(Run(sm, code, st), dst) == (x.Meaning(st) + y.Meaning(st) + z.Meaning(st)) % WIDE)
              <==> CarrySafe(sm, x, y, z)
    {
      var three := ThreeSrcs(x, y, z);
      dst := AllocPair();
      var carry := AllocSsa();
      var carry2: Option<Ssa> := None;
      if sm >= 70 {
        if three {
          var c := AllocSsa();
          carry2 := Some(c);
        }
        PushOp(IAdd3(dst.lo, x.Lo(), y.Lo(), z.Lo(), carry, carry2));
        PushOp(IAdd3X(dst.hi, x.Hi(), y.Hi(), z.Hi(), FlagOf(carry), if carry2.Some? then FlagOf(carry2.value) else Const(false)));
      } else {
        PushOp(IAdd2(dst.lo, x.Lo(), y.Lo(), carry));
        PushOp(IAdd2X(dst.hi, x.Hi(), y.Hi(), carry));
      }
      code := [AddLow(sm, x, y, z, dst.lo, carry, carry2), AddHigh(sm, x, y, z, dst.hi, carry, carry2)];
      forall st: State
        ensures (Wide(Run(sm, code, st), dst) == (x.Meaning(st) + y.Meaning(st) + z.Meaning(st)) % WIDE) <==> !CarryLost(sm, x, y, z, st)
      {
        Iadd64Runs(sm, x, y, z, dst, carry, carry2, old(next), st);
      }
      ExactOperands(sm, x, y, z);
    }

    /** `ineg64`: always exact, a single negated operand carries at most once. */
    method Ineg64(x: Src64) returns (dst: Pair, ghost code: seq<Op>)
      requires x.KnownTo(next)
      modifies this
      ensures instrs == old(instrs) + code && Fresh(sm, code, old(next), next) && old(next) <= dst.lo < dst.hi < next
      ensures forall st :: Wide(Run(sm, code, st), dst) == (0 - x.Meaning(st)) % WIDE
    {
      var nothing := Src64(None, false);
      dst, code := Iadd64(nothing, x.(neg := !x.neg), nothing);
      forall st: State
        ensures Wide(Run(sm, code, st), dst) == (0 - x.Meaning(st)) % WIDE
      {
        assert !CarryLost(sm, nothing, x.(neg := !x.neg), nothing, st);
      }
    }

    /** `isetp64`. */
    method Isetp64(signed: bool, op: CmpOp, x: Pair, y: Pair) returns (dst: Ssa, ghost code: seq<Op>)
      requires x.lo < next && x.hi < next && y.lo < next && y.hi < next && !op.False? && !op.True?
      modifies this
      ensures instrs == old(instrs) + code && Fresh(sm, code, old(next), next) && old(next) <= dst < next
      ensures forall st :: Run(sm, code, st).flags(dst) == Compare(op, Number(Wide(st, x), signed), Number(Wide(st, y), signed))
    {
      var low := AllocSsa();
      PushOp(ISetP(low, And, op, false, false, Use(x.lo), Use(y.lo), Const(true), Const(true)));
      dst := AllocSsa();
      ghost var both := 0;
      if op.Eq? || op.Ne? {
        PushOp(ISetP(dst, if op.Eq? then And else Or, op, false, false, Use(x.hi), Use(y.hi), FlagOf(low), Const(true)));
      } else if sm >= 70 {
        PushOp(ISetP(dst, And, op, signed, true, Use(x.hi), Use(y.hi), Const(true), FlagOf(low)));
      } else {
        var lowAndHighEq := AllocSsa();
        both := lowAndHighEq;
        PushOp(ISetP(lowAndHighEq, And, Eq, false, false, Use(x.hi), Use(y.hi), FlagOf(low), Const(true)));
        PushOp(ISetP(dst, Or, Strict(op), signed, false, Use(x.hi), Use(y.hi), FlagOf(lowAndHighEq), Const(true)));
      }
      code := Isetp64Code(sm, op, signed, x, y, low, both, dst);
      forall st: State
        ensures Run(sm, code, st).flags(dst) == Compare(op, Number(Wide(st, x), signed), Number(Wide(st, y), signed))
      {
        Isetp64Runs(sm, op, signed, x, y, low, both, dst, st);
      }
    }

    /** `prmt`: byte `i` of the result is what selector `i` picks; the two selections that
        pick one operand whole are copies. */
    method Prmt(x: Src, y: Src, sel: seq<nat>) returns (dst: Ssa, ghost code: seq<Op>)
      requires Known(x, next) && Known(y, next) && x.mod.Plain? && y.mod.Plain?
      requires |sel| == 4 && forall k :: 0 <= k < 4 ==> sel[k] < 16
      modifies this
      ensures instrs == old(instrs) + code && Fresh(sm, code, old(next), next) && old(next) <= dst < next
      ensures forall st, i: nat | i < 4 :: Byte(Run(sm, code, st).words(dst), i) == Select(sel[i], Read(st, x), Read(st, y))
    {
      dst := AllocSsa();
      var op := if sel == [0, 1, 2, 3] then Copy(dst, x) else if sel == [4, 5, 6, 7] then Copy(dst, y) else Op.Prmt(dst, x, y, PackSel(sel));
      PushOp(op);
      code := [op];
      forall st: State, i: nat | i < 4
        ensures Byte(Run(sm, code, st).words(dst), i) == Select(sel[i], Read(st, x), Read(st, y))
      {
        RunPush(sm, [], op, st);
        assert [] + [op] == code;
        PermuteAt(Read(st, x), Read(st, y), sel, i);
        if sel[i] < 8 { PlainSelect(sel[i], Read(st, x), Read(st, y)); }
      }
    }

    /** Selectors for two permutations: the first keeps what operands 0 and 1 give, the
        second mixes in operand 2. */
    method SplitTwo(sel: seq<nat>) returns (selA: seq<nat>, selB: seq<nat>)
      requires |sel| == 4 && forall k :: 0 <= k < 4 ==> sel[k] < 12
      ensures |selA| == |selB| == 4 && forall k :: 0 <= k < 4 ==> SplitInTwo(sel[k], k, selA[k], selB[k])
    {
      selA, selB := [0, 0, 0, 0], [0, 0, 0, 0];
      for i := 0 to 4
        invariant |selA| == |selB| == 4
        invariant forall k :: 0 <= k < i ==> SplitInTwo(sel[k], k, selA[k], selB[k])
        invariant forall k :: i <= k < 4 ==> selA[k] == 0
      {
        if sel[i] < 8 {
          selA, selB := selA[i := sel[i]], selB[i := i];
        } else {
          selB := selB[i := sel[i] - 8 + 4];
        }
      }
    }

    /** Selectors for three: operands 0 and 1, operands 2 and 3, and the mix. */
    method SplitThree(sel: seq<nat>) returns (selA: seq<nat>, selB: seq<nat>, selC: seq<nat>)
      requires |sel| == 4 && forall k :: 0 <= k < 4 ==> sel[k] < 16
      ensures |selA| == |selB| == |selC| == 4 && forall k :: 0 <= k < 4 ==> SplitInThree(sel[k], k, selA[k], selB[k], selC[k])
    {
      selA, selB, selC := [0, 0, 0, 0], [0, 0, 0, 0], [0, 0, 0, 0];
      for i := 0 to 4
        invariant |selA| == |selB| == |selC| == 4
        invariant forall k :: 0 <= k < i ==> SplitInThree(sel[k], k, selA[k], selB[k], selC[k])
        invariant forall k :: i <= k < 4 ==> selA[k] == 0 && selB[k] == 0
      {
        if sel[i] < 8 {
          selA, selC := selA[i := sel[i]], selC[i := i];
        } else {
          selB, selC := selB[i := sel[i] - 8], selC[i := 4 + i];
        }
      }
    }

    /** `prmt4`: any four bytes of four words, in at most three permutations. */
    method Prmt4(src: seq<Src>, sel: seq<nat>) returns (dst: Ssa, ghost code: seq<Op>)
      requires |src| == 4 && forall k :: 0 <= k < 4 ==> Known(src[k], next) && src[k].mod.Plain?
      requires |sel| == 4 && forall k :: 0 <= k < 4 ==> sel[k] < 16
      modifies this
      ensures instrs == old(instrs) + code && Fresh(sm, code, old(next), next) && old(next) <= dst < next
      ensures forall st, i: nat | i < 4 :: Byte(Run(sm, code, st).words(dst), i) == Byte(Read(st, src[sel[i] / 4]), sel[i] % 4)
    {
      var maxSel := sel[0];
      for i := 1 to 4
        invariant forall k :: 0 <= k < i ==> sel[k] <= maxSel
        invariant maxSel < 16
      {
        if sel[i] > maxSel { maxSel := sel[i]; }
      }
      if maxSel < 8 {
        dst, code := Prmt(src[0], src[1], sel);
        forall st: State, i: nat | i < 4
          ensures Byte(Run(sm, code, st).words(dst), i) == Byte(Read(st, src[sel[i] / 4]), sel[i] % 4)
        {
          PlainSelect(sel[i], Read(st, src[0]), Read(st, src[1]));
        }
      } else if maxSel < 12 {
        dst, code := PrmtTwice(src, sel);
      } else {
        dst, code := PrmtThrice(src, sel);
      }
    }

    method PrmtTwice(src: seq<Src>, sel: seq<nat>) returns (dst: Ssa, ghost code: seq<Op>)
      requires |src| == 4 && forall k :: 0 <= k < 4 ==> Known(src[k], next) && src[k].mod.Plain?
      requires |sel| == 4 && forall k :: 0 <= k < 4 ==> sel[k] < 12
      modifies this
      ensures instrs == old(instrs) + code && Fresh(sm, code, old(next), next) && old(next) <= dst < next
      ensures forall st, i: nat | i < 4 :: Byte(Run(sm, code, st).words(dst), i) == Byte(Read(st, src[sel[i] / 4]), sel[i] % 4)
    {
      hide Byte, Run, Select;
      var selA, selB := SplitTwo(sel);
      var a;
      ghost var codeA, codeB;
      a, codeA := Prmt(src[0], src[1], selA);
      ghost var next1 := next;
      dst, codeB := Prmt(Use(a), src[2], selB);
      code := codeA + codeB;
      forall st: State, i: nat | i < 4
        ensures Byte(Run(sm, code, st).words(dst), i) == Byte(Read(st, src[sel[i] / 4]), sel[i] % 4)
      {
        var st1 := Run(sm, codeA, st);
        RunConcat(sm, codeA, codeB, st);
        SourceKept(sm, codeA, old(next), next1, st, src[2]);
        PickTwice(sel[i], i, selA[i], selB[i], Read(st, src[0]), Read(st, src[1]), Read(st, src[2]), st1.words(a));
      }
    }

    method PrmtThrice(src: seq<Src>, sel: seq<nat>) returns (dst: Ssa, ghost code: seq<Op>)
      requires |src| == 4 && forall k :: 0 <= k < 4 ==> Known(src[k], next) && src[k].mod.Plain?
      requires |sel| == 4 && forall k :: 0 <= k < 4 ==> sel[k] < 16
      modifies this
      ensures instrs == old(instrs) + code && Fresh(sm, code, old(next), next) && old(next) <= dst < next
      ensures forall st, i: nat | i < 4 :: Byte(Run(sm, code, st).words(dst), i) == Byte(Read(st, src[sel[i] / 4]), sel[i] % 4)
    {
      hide Byte, Run, Select;
      var selA, selB, selC := SplitThree(sel);
      var a, b;
      ghost var codeA, codeB, codeC;
      a, codeA := Prmt(src[0], src[1], selA);
      ghost var next1 := next;
      b, codeB := Prmt(src[2], src[3], selB);
      ghost var next2 := next;
      dst, codeC := Prmt(Use(a), Use(b), selC);
      code := codeA + codeB + codeC;
      forall st: State, i: nat | i < 4
        ensures Byte(Run(sm, code, st).words(dst), i) == Byte(Read(st, src[sel[i] / 4]), sel[i] % 4)
      {
        RunConcat(sm, codeA + codeB, codeC, st);
        RunConcat(sm, codeA, codeB, st);
        var st1 := Run(sm, codeA, st);
        var st2 := Run(sm, codeB, st1);
        SourceKept(sm, codeA, old(next), next1, st, src[2]);
        SourceKept(sm, codeA, old(next), next1, st, src[3]);
        RunKeeps(sm, codeB, next1, next2, st1, a);
        PickThrice(sel[i], i, selA[i], selB[i], selC[i], Read(st, src[0]), Read(st, src[1]), Read(st, src[2]), Read(st, src[3]),
                   st1.words(a), st2.words(b));
      }
    }
  }

  ghost predicate SplitInTwo(sel: nat, i: nat, selA: nat, selB: nat) {
    selA < 8 && if sel < 8 then selA == sel && selB == i else selB == sel - 4
  }

  ghost predicate SplitInThree(sel: nat, i: nat, selA: nat, selB: nat, selC: nat) {
    selA < 8 && selB < 8 && if sel < 8 then selA == sel && selC == i else selB == sel - 8 && selC == 4 + i
  }

  lemma PickTwice(sel: nat, i: nat, selA: nat, selB: nat, w0: Word, w1: Word, w2: Word, a: Word)
    requires sel < 12 && i < 4 && SplitInTwo(sel, i, selA, selB) && Byte(a, i) == Select(selA, w0, w1)
    ensures Select(selB, a, w2) == Byte([w0, w1, w2][sel / 4], sel % 4)
  {
    hide Byte, Select;
    PlainSelect(selA, w0, w1);
    PlainSelect(selB, a, w2);
  }

  lemma PickThrice(sel: nat, i: nat, selA: nat, selB: nat, selC: nat, w0: Word, w1: Word, w2: Word, w3: Word, a: Word, b: Word)
    requires sel < 16 && i < 4 && SplitInThree(sel, i, selA, selB, selC)
    requires Byte(a, i) == Select(selA, w0, w1) && Byte(b, i) == Select(selB, w2, w3)
    ensures Select(selC, a, b) == Byte([w0, w1, w2, w3][sel / 4], sel % 4)
  {
    hide Byte, Select;
    PlainSelect(selA, w0, w1);
    PlainSelect(selB, w2, w3);
    PlainSelect(selC, a, b);
  }
}
