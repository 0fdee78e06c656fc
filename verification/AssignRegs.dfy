/** `assign_regs.rs`: one register file's allocator, and the vector allocator that
    repairs it before each instruction with one simultaneous copy. */
module AssignRegs {
  import opened Wrappers
  import opened Ir
  import opened Finite
  import opened Powers

  type SSA = nat

  // ---------------------------------------------------------------------------
  // Where values live
  // ---------------------------------------------------------------------------

  /** The least power of two that is not below `n`. */
  function NextPowerOfTwo(n: nat): (p: nat)
    ensures p > 0 && n <= p
  {
    if n <= 1 then 1 else 2 * NextPowerOfTwo((n + 1) / 2)
  }

  lemma {:induction false} LeastPower(n: nat, e: nat) returns (k: nat)
    ensures NextPowerOfTwo(n) == Pow2(k)
    ensures n <= Pow2(e) ==> NextPowerOfTwo(n) <= Pow2(e)
  {
    if n <= 1 {
      k := 0;
    } else {
      assert n <= Pow2(e) ==> e > 0;
      var half := LeastPower((n + 1) / 2, if e > 0 then e - 1 else 0);
      k := half + 1;
    }
  }

  predicate RangeUnset(s: set<nat>, reg: nat, comps: nat) {
    forall r :: reg <= r < reg + comps ==> r !in s
  }

  /** A place for `comps` registers from `reg` on, aligned, clear of `s`. */
  predicate Fits(s: set<nat>, numRegs: nat, reg: nat, comps: nat, align: nat)
    requires align > 0
  {
    reg % align == 0 && reg + comps <= numRegs && RangeUnset(s, reg, comps)
  }

  ghost predicate NoPlace(s: set<nat>, numRegs: nat, comps: nat, align: nat)
    requires align > 0
  {
    forall r: nat :: !Fits(s, numRegs, r, comps, align)
  }

  ghost predicate Lowest(s: set<nat>, numRegs: nat, reg: nat, comps: nat, align: nat)
    requires align > 0
  {
    Fits(s, numRegs, reg, comps, align) && forall r: nat :: r < reg ==> !Fits(s, numRegs, r, comps, align)
  }

  class RegAllocator {
    const file: RegFile
    const numRegs: nat
    var used: set<nat>
    var pinned: set<nat>
    var regSsa: seq<Option<SSA>>
    var ssaReg: map<SSA, nat>

    /** `used`, `regSsa` and `ssaReg` describe one one-to-one placement; what
        `regSsa` says of an unused register is stale. */
    ghost predicate Valid()
      reads this
    {
      && (forall r :: r in used ==>
            && r < numRegs && r < |regSsa| && regSsa[r].Some?
            && regSsa[r].value in ssaReg && ssaReg[regSsa[r].value] == r)
      && (forall s :: s in ssaReg ==> ssaReg[s] in used && regSsa[ssaReg[s]] == Some(s))
      && pinned <= used
    }

    constructor (file: RegFile, numRegs: nat)
      ensures Valid() && ssaReg == map[] && used == {} && pinned == {}
      ensures this.file == file && this.numRegs == numRegs
    {
      this.file, this.numRegs := file, numRegs;
      used, pinned, regSsa, ssaReg := {}, {}, [], map[];
    }

    predicate RegIsUsed(reg: nat)
      reads this
    {
      reg in used
    }

    function TryGetReg(ssa: SSA): Option<nat>
      reads this
    {
      if ssa in ssaReg then Some(ssaReg[ssa]) else None
    }

    /** The value in a register: the inverse of `TryGetReg`. */
    function TryGetSsa(reg: nat): (s: Option<SSA>)
      requires Valid()
      reads this
      ensures s.Some? ==> TryGetReg(s.value) == Some(reg)
      ensures s.None? ==> forall v :: v in ssaReg ==> ssaReg[v] != reg
    {
      if reg in used then regSsa[reg] else None
    }

    method TryGetVecReg(vec: seq<SSA>) returns (reg: Option<nat>)
      requires |vec| > 0
      ensures reg.Some? <==>
              (vec[0] in ssaReg && ssaReg[vec[0]] % NextPowerOfTwo(|vec|) == 0 && At(ssaReg, vec, ssaReg[vec[0]]))
      ensures reg.Some? ==> reg.value == ssaReg[vec[0]]
    {
      reg := TryGetReg(vec[0]);
      if reg.None? { return None; }
      if reg.value % NextPowerOfTwo(|vec|) != 0 { return None; }
      for c := 1 to |vec|
        invariant reg == TryGetReg(vec[0])
        invariant forall d :: 0 <= d < c ==> vec[d] in ssaReg && ssaReg[vec[d]] == reg.value + d
      {
        if TryGetReg(vec[c]) != Some(reg.value + c) { return None; }
      }
    }

    method FreeSsa(ssa: SSA) returns (reg: nat)
      requires Valid() && ssa in ssaReg
      modifies this
      ensures Valid() && reg == old(ssaReg)[ssa]
      ensures ssaReg == old(ssaReg) - {ssa} && used == old(used) - {reg} && pinned == old(pinned) - {reg}
    {
      reg := ssaReg[ssa];
      ssaReg := ssaReg - {ssa};
      used := used - {reg};
      pinned := pinned - {reg};
    }

    method AssignReg(ssa: SSA, reg: nat)
      requires Valid() && reg < numRegs && !RegIsUsed(reg) && ssa !in ssaReg
      modifies this
      ensures Valid()
      ensures ssaReg == old(ssaReg)[ssa := reg] && used == old(used) + {reg} && pinned == old(pinned)
    {
      if reg >= |regSsa| {
        regSsa := regSsa + seq(reg + 1 - |regSsa|, i => None);
      }
      regSsa := regSsa[reg := Some(ssa)];
      ssaReg := ssaReg[ssa := reg];
      used := used + {reg};
    }

    method PinReg(reg: nat)
      requires Valid() && RegIsUsed(reg)
      modifies this`pinned
      ensures Valid() && pinned == old(pinned) + {reg}
    {
      pinned := pinned + {reg};
    }

    /** The lowest aligned place at or after `start` that is clear of `s`. */
    method TryFindUnset(s: set<nat>, start: nat, comps: nat, align: nat) returns (reg: Option<nat>)
      requires align > 0
      ensures reg.Some? ==> start <= reg.value && Fits(s, numRegs, reg.value, comps, align)
      ensures reg.Some? ==> forall r :: start <= r < reg.value ==> !Fits(s, numRegs, r, comps, align)
      ensures reg.None? ==> forall r :: start <= r ==> !Fits(s, numRegs, r, comps, align)
    {
      var r := start;
      while r + comps <= numRegs
        invariant start <= r
        invariant forall q :: start <= q < r ==> !Fits(s, numRegs, q, comps, align)
        decreases numRegs - r
      {
        if r % align == 0 && RangeUnset(s, r, comps) { return Some(r); }
        r := r + 1;
      }
      return None;
    }
  }

  /** The first `n` components of `vec` sit in consecutive registers from `reg` on. */
  ghost predicate AtUpTo(at: map<SSA, nat>, vec: seq<SSA>, reg: nat, n: nat)
    requires n <= |vec|
  {
    forall c :: 0 <= c < n ==> vec[c] in at && at[vec[c]] == reg + c
  }

  ghost predicate At(at: map<SSA, nat>, vec: seq<SSA>, reg: nat) {
    AtUpTo(at, vec, reg, |vec|)
  }

  /** The registers `reg`, `reg + 1`, ... of a vector of `n` components. */
  function Span(reg: nat, n: nat): (s: set<nat>)
    ensures forall r: nat :: r in s <==> reg <= r < reg + n
  {
    if n == 0 then {} else Span(reg, n - 1) + {reg + n - 1}
  }

  // ---------------------------------------------------------------------------
  // One instruction's repair, as a value
  // ---------------------------------------------------------------------------

  /** The state of the vector allocator: where values are now, what must stay put,
      which values lost their register, and the copy so far. */
  datatype Alloc = Alloc(file: RegFile, numRegs: nat, at: map<SSA, nat>, pinned: set<nat>,
                         evicted: map<SSA, nat>, pairs: seq<Pair>)

  function Move1(file: RegFile, to: nat, from: nat): Pair {
    Pair(Reg(file, to), FromReg(Reg(file, from)))
  }

  /** The copy brings what register `from` held into register `to`. */
  ghost predicate Delivered(pairs: seq<Pair>, file: RegFile, from: nat, to: nat) {
    (from == to && !IsDst(pairs, Reg(file, to))) || Move1(file, to, from) in pairs
  }

  /** `orig` is where the values were before the instruction.  A value is still in
      a register, where the copy brings it, or evicted from its old one; no pinned
      register has its value copied away; destinations are distinct and pinned. */
  ghost predicate Sound(a: Alloc, orig: map<SSA, nat>) {
    && Injective(a.at) && (forall s :: s in a.at ==> a.at[s] < a.numRegs) && (forall s :: s in orig ==> orig[s] < a.numRegs)
    && (forall s :: s in a.evicted ==> s !in a.at && s in orig && a.evicted[s] == orig[s])
    && (forall s :: s in a.at && s in orig ==> Delivered(a.pairs, a.file, orig[s], a.at[s]))
    && (forall s :: s in a.at && s !in orig ==> a.at[s] in a.pinned)
    && PairsPinned(a) && Distinct(a.pairs)
  }

  ghost predicate PairsPinned(a: Alloc) {
    forall i :: 0 <= i < |a.pairs| ==>
      && a.pairs[i].dst.file == a.file && a.pairs[i].dst.idx in a.pinned && a.pairs[i].dst.idx < a.numRegs
      && a.pairs[i].src.FromReg? && a.pairs[i].src.reg.file == a.file && a.pairs[i].src.reg.idx < a.numRegs
  }

  /** Until killed values are freed, only used registers are pinned. */
  ghost predicate PinnedUsed(a: Alloc) {
    a.pinned <= a.at.Values
  }

  function Known(a: Alloc): set<SSA> {
    a.at.Keys + a.evicted.Keys
  }

  function EvictAt(a: Alloc, reg: nat): Alloc {
    a.(at := map s | s in a.at && a.at[s] != reg :: a.at[s],
       evicted := a.evicted + map s | s in a.at && a.at[s] == reg :: reg)
  }

  /** The register a value's copy starts from. */
  function SourceReg(a: Alloc, s: SSA): nat
    requires s in Known(a)
  {
    if s in a.at then a.at[s] else a.evicted[s]
  }

  function Lift(a: Alloc, s: SSA): Alloc {
    a.(at := a.at - {s}, evicted := a.evicted - {s})
  }

  function AssignPin(a: Alloc, s: SSA, reg: nat): Alloc {
    a.(at := a.at[s := reg], pinned := a.pinned + {reg})
  }

  function CopyTo(a: Alloc, s: SSA, reg: nat, from: nat): Alloc {
    AssignPin(a.(pairs := a.pairs + [Move1(a.file, reg, from)]), s, reg)
  }

  function MoveTo(a: Alloc, s: SSA, reg: nat): Alloc
    requires s in Known(a)
  {
    if s in a.at && a.at[s] == reg then a.(pinned := a.pinned + {reg})
    else CopyTo(EvictAt(Lift(a, s), reg), s, reg, SourceReg(a, s))
  }

  lemma DeliveredPush(pairs: seq<Pair>, file: RegFile, p: Pair, from: nat, to: nat)
    requires Delivered(pairs, file, from, to) && p.dst != Reg(file, to)
    ensures Delivered(pairs + [p], file, from, to)
  {
    if from == to && !IsDst(pairs, Reg(file, to)) {
      assert !IsDst(pairs + [p], Reg(file, to));
    } else {
      assert Move1(file, to, from) in pairs + [p];
    }
  }

  /** An unpinned value has not moved yet. */
  lemma UnpinnedStayed(a: Alloc, orig: map<SSA, nat>, s: SSA)
    requires Sound(a, orig) && s in a.at && s in orig && a.at[s] !in a.pinned
    ensures a.at[s] == orig[s]
  {
    assert Delivered(a.pairs, a.file, orig[s], a.at[s]);
  }

  lemma EvictSound(a: Alloc, orig: map<SSA, nat>, reg: nat)
    requires Sound(a, orig) && reg !in a.pinned
    ensures Sound(EvictAt(a, reg), orig) && reg !in EvictAt(a, reg).at.Values
    ensures Known(EvictAt(a, reg)) == Known(a)
    ensures PinnedUsed(a) ==> PinnedUsed(EvictAt(a, reg))
  {
    var b := EvictAt(a, reg);
    forall s | s in b.evicted
      ensures s !in b.at && s in orig && b.evicted[s] == orig[s]
    {
      if s in a.at && a.at[s] == reg { UnpinnedStayed(a, orig, s); }
    }
    assert Known(b) == Known(a);
    if PinnedUsed(a) {
      forall r | r in a.pinned
        ensures r in b.at.Values
      {
        var s :| s in a.at && a.at[s] == r;
        assert s in b.at && b.at[s] == r;
      }
    }
  }

  lemma LiftSound(a: Alloc, orig: map<SSA, nat>, s: SSA)
    requires Sound(a, orig)
    ensures Sound(Lift(a, s), orig)
    ensures Known(Lift(a, s)) == Known(a) - {s}
  {
  }

  lemma CopySound(a: Alloc, orig: map<SSA, nat>, s: SSA, reg: nat, from: nat)
    requires Sound(a, orig) && s !in Known(a) && reg !in a.at.Values && reg !in a.pinned && reg < a.numRegs
    requires s in orig && orig[s] == from
    ensures Sound(CopyTo(a, s, reg, from), orig)
  {
    var b := CopyTo(a, s, reg, from);
    var p := Move1(a.file, reg, from);
    assert p in b.pairs by { assert b.pairs[|a.pairs|] == p; }
    forall v | v in b.at && v in orig
      ensures Delivered(b.pairs, b.file, orig[v], b.at[v])
    {
      if v != s {
        assert a.at[v] in a.at.Values;
        DeliveredPush(a.pairs, a.file, p, orig[v], a.at[v]);
      }
    }
    forall v, w | v in b.at && w in b.at && b.at[v] == b.at[w]
      ensures v == w
    {
      if v != s && w != s { assert a.at[v] == a.at[w]; }
      assert v != s ==> a.at[v] in a.at.Values;
      assert w != s ==> a.at[w] in a.at.Values;
    }
  }

  lemma MoveSound(a: Alloc, orig: map<SSA, nat>, s: SSA, reg: nat)
    requires Sound(a, orig) && s in Known(a) && s in orig && reg !in a.pinned && reg < a.numRegs
    requires s in a.at ==> a.at[s] !in a.pinned
    ensures Sound(MoveTo(a, s, reg), orig) && Known(MoveTo(a, s, reg)) == Known(a)
  {
    if s in a.at && a.at[s] == reg {
      PinSound(a, orig, reg);
    } else {
      SourceIsOrigin(a, orig, s);
      var lifted := Lift(a, s);
      LiftSound(a, orig, s);
      assert lifted.pinned == a.pinned && lifted.numRegs == a.numRegs;
      var b := EvictAt(lifted, reg);
      assert b.pinned == a.pinned && b.numRegs == a.numRegs;
      hide Sound, Lift, EvictAt, Known, CopyTo;
      EvictSound(lifted, orig, reg);
      CopySound(b, orig, s, reg, SourceReg(a, s));
      CopyKnown(b, s, reg, SourceReg(a, s));
    }
  }

  lemma PinSound(a: Alloc, orig: map<SSA, nat>, reg: nat)
    requires Sound(a, orig)
    ensures Sound(a.(pinned := a.pinned + {reg}), orig)
  {
  }

  lemma SourceIsOrigin(a: Alloc, orig: map<SSA, nat>, s: SSA)
    requires Sound(a, orig) && s in Known(a) && s in orig && (s in a.at ==> a.at[s] !in a.pinned)
    ensures SourceReg(a, s) == orig[s]
  {
    if s in a.at { UnpinnedStayed(a, orig, s); }
  }

  lemma CopyKnown(a: Alloc, s: SSA, reg: nat, from: nat)
    ensures Known(CopyTo(a, s, reg, from)) == Known(a) + {s}
  {
  }

  // ---------------------------------------------------------------------------
  // Collecting a vector
  // ---------------------------------------------------------------------------

  /** Nothing pinned has moved from `a` to `b`, and no value is lost. */
  ghost predicate Kept(a: Alloc, b: Alloc) {
    && b.file == a.file && b.numRegs == a.numRegs && Known(b) == Known(a) && a.pinned <= b.pinned
    && forall s :: s in a.at && a.at[s] in a.pinned ==> s in b.at && b.at[s] == a.at[s]
  }

  lemma KeptTrans(a: Alloc, b: Alloc, c: Alloc)
    requires Kept(a, b) && Kept(b, c)
    ensures Kept(a, c)
  {
  }

  /** The components from `c` on may still be moved, and so may what is in their way. */
  ghost predicate Movable(a: Alloc, vec: seq<SSA>, reg: nat, c: nat)
    requires c <= |vec|
  {
    && RangeUnset(a.pinned, reg + c, |vec| - c)
    && forall j :: c <= j < |vec| ==> vec[j] in Known(a) && (vec[j] in a.at ==> a.at[vec[j]] !in a.pinned)
  }

  function Elements(vec: seq<SSA>): set<SSA> {
    set s | s in vec
  }

  predicate NoRepeats(vec: seq<SSA>) {
    forall i, j :: 0 <= i < j < |vec| ==> vec[i] != vec[j]
  }

  /** The first `c` components of `vec` are in place. */
  ghost predicate Collecting(a: Alloc, b: Alloc, orig: map<SSA, nat>, vec: seq<SSA>, reg: nat, c: nat)
    requires c <= |vec|
  {
    && Sound(b, orig) && PinnedUsed(b) && Kept(a, b)
    && b.pinned == a.pinned + Span(reg, c)
    && AtUpTo(b.at, vec, reg, c) && Movable(b, vec, reg, c)
  }

  /** What moving one component to `reg` does. */
  ghost predicate Moved(a: Alloc, b: Alloc, orig: map<SSA, nat>, s: SSA, reg: nat) {
    && Sound(b, orig) && PinnedUsed(b) && Kept(a, b)
    && b.pinned == a.pinned + {reg} && s in b.at && b.at[s] == reg
    && forall v :: v in b.at && v != s ==> v in a.at && b.at[v] == a.at[v] != reg
  }

  lemma MoveKeeps(a: Alloc, orig: map<SSA, nat>, s: SSA, reg: nat)
    requires Sound(a, orig) && PinnedUsed(a) && s in Known(a) && s in orig && reg !in a.pinned && reg < a.numRegs
    requires s in a.at ==> a.at[s] !in a.pinned
    ensures Moved(a, MoveTo(a, s, reg), orig, s, reg)
  {
    var b := MoveTo(a, s, reg);
    MoveSound(a, orig, s, reg);
    MovePinned(a, s, reg);
    hide Sound, PinnedUsed;
  }

  lemma MovePinned(a: Alloc, s: SSA, reg: nat)
    requires PinnedUsed(a) && s in Known(a) && reg !in a.pinned && (s in a.at ==> a.at[s] !in a.pinned)
    ensures PinnedUsed(MoveTo(a, s, reg))
  {
    var b := MoveTo(a, s, reg);
    assert b.at[s] == reg;
    forall r | r in a.pinned
      ensures r in b.at.Values
    {
      var v :| v in a.at && a.at[v] == r;
      assert v in b.at && b.at[v] == r;
    }
  }

  lemma CollectReady(a: Alloc, b: Alloc, orig: map<SSA, nat>, vec: seq<SSA>, reg: nat, c: nat)
    requires c < |vec| && Collecting(a, b, orig, vec, reg, c) && reg + |vec| <= a.numRegs
    ensures vec[c] in Known(b) && reg + c < b.numRegs && reg + c !in b.pinned && Sound(b, orig) && PinnedUsed(b)
    ensures vec[c] in b.at ==> vec[c] !in b.evicted && b.at[vec[c]] !in b.pinned
  {
  }

  lemma CollectStep(a: Alloc, b: Alloc, orig: map<SSA, nat>, vec: seq<SSA>, reg: nat, c: nat)
    requires c < |vec| && NoRepeats(vec) && Collecting(a, b, orig, vec, reg, c) && reg + |vec| <= a.numRegs
    requires vec[c] in orig
    ensures Collecting(a, MoveTo(b, vec[c], reg + c), orig, vec, reg, c + 1)
  {
    hide Collecting, Sound, PinnedUsed, Moved, MoveTo;
    CollectReady(a, b, orig, vec, reg, c);
    MoveKeeps(b, orig, vec[c], reg + c);
    CollectNext(a, b, MoveTo(b, vec[c], reg + c), orig, vec, reg, c);
  }

  lemma CollectNext(a: Alloc, b: Alloc, b': Alloc, orig: map<SSA, nat>, vec: seq<SSA>, reg: nat, c: nat)
    requires c < |vec| && NoRepeats(vec) && Collecting(a, b, orig, vec, reg, c) && Moved(b, b', orig, vec[c], reg + c)
    ensures Collecting(a, b', orig, vec, reg, c + 1)
  {
    hide Sound, PinnedUsed, Kept, Movable, AtUpTo, NoRepeats;
    KeptTrans(a, b, b');
    MovableNext(b, b', orig, vec, reg, c);
    AtNext(b, b', vec, reg, c);
  }

  lemma AtNext(b: Alloc, b': Alloc, vec: seq<SSA>, reg: nat, c: nat)
    requires c < |vec| && AtUpTo(b.at, vec, reg, c) && Kept(b, b') && Span(reg, c) <= b.pinned
    requires vec[c] in b'.at && b'.at[vec[c]] == reg + c
    ensures AtUpTo(b'.at, vec, reg, c + 1)
  {
    forall d | 0 <= d < c
      ensures vec[d] in b'.at && b'.at[vec[d]] == reg + d
    {
      assert reg + d in Span(reg, c);
    }
  }

  lemma MovableNext(b: Alloc, b': Alloc, orig: map<SSA, nat>, vec: seq<SSA>, reg: nat, c: nat)
    requires c < |vec| && NoRepeats(vec) && Movable(b, vec, reg, c) && Moved(b, b', orig, vec[c], reg + c)
    ensures Movable(b', vec, reg, c + 1)
  {
    hide Sound, PinnedUsed;
    forall j | c + 1 <= j < |vec|
      ensures vec[j] in Known(b') && (vec[j] in b'.at ==> b'.at[vec[j]] !in b'.pinned)
    {
      assert vec[j] != vec[c];
    }
  }

  /** `vec` is in place already, or nothing of it is pinned. */
  ghost predicate Collectable(a: Alloc, orig: map<SSA, nat>, vec: seq<SSA>) {
    && |vec| > 0 && NoRepeats(vec) && (forall c :: 0 <= c < |vec| ==> vec[c] in Known(a) && vec[c] in orig)
    && (InPlace(a.at, vec) || forall c :: 0 <= c < |vec| ==> vec[c] in a.at ==> a.at[vec[c]] !in a.pinned)
  }

  /** At `reg` the vector keeps component `c` where it is. */
  ghost predicate KeepsComponent(at: map<SSA, nat>, pinned: set<nat>, numRegs: nat, vec: seq<SSA>, c: nat, reg: nat) {
    c < |vec| && vec[c] in at && at[vec[c]] == reg + c && Fits(pinned, numRegs, reg, |vec|, NextPowerOfTwo(|vec|))
  }

  ghost predicate FirstKept(at: map<SSA, nat>, pinned: set<nat>, numRegs: nat, vec: seq<SSA>, c: nat, reg: nat) {
    && KeepsComponent(at, pinned, numRegs, vec, c, reg)
    && forall d: nat, r: nat :: d < c ==> !KeepsComponent(at, pinned, numRegs, vec, d, r)
  }

  /** Unused registers first, then a place that keeps a component, then the lowest
      that nothing is pinned to. */
  ghost predicate Chosen(at: map<SSA, nat>, used: set<nat>, pinned: set<nat>, numRegs: nat, vec: seq<SSA>, reg: nat) {
    var n := |vec|;
    var align := NextPowerOfTwo(n);
    || Lowest(used, numRegs, reg, n, align)
    || (NoPlace(used, numRegs, n, align) && exists c: nat :: FirstKept(at, pinned, numRegs, vec, c, reg))
    || (NoPlace(used, numRegs, n, align) && Lowest(pinned, numRegs, reg, n, align)
        && forall c: nat, r: nat :: !KeepsComponent(at, pinned, numRegs, vec, c, r))
  }

  /** Only one aligned place can keep component `c`. */
  lemma PlaceOf(comp: nat, align: nat, c: nat)
    requires c < align
    ensures comp / align * align % align == 0
    ensures forall r: nat :: comp == r + c && r % align == 0 ==> r == comp / align * align
  {
    MultipleMod(comp / align, align);
    forall r: nat | comp == r + c && r % align == 0
      ensures r == comp / align * align
    {
      assert r == r / align * align;
      Divide(r / align, c, align);
    }
  }

  lemma OnlyPlace(at: map<SSA, nat>, pinned: set<nat>, numRegs: nat, vec: seq<SSA>, c: nat, align: nat, place: nat)
    requires c < |vec| && vec[c] in at && align == NextPowerOfTwo(|vec|) && place == at[vec[c]] / align * align
    ensures forall r: nat :: KeepsComponent(at, pinned, numRegs, vec, c, r) ==> r == place
    ensures KeepsComponent(at, pinned, numRegs, vec, c, place) <==>
            at[vec[c]] == place + c && place + |vec| <= numRegs && RangeUnset(pinned, place, |vec|)
  {
    hide NextPowerOfTwo, RangeUnset;
    PlaceOf(at[vec[c]], align, c);
  }

  ghost predicate InPlace(at: map<SSA, nat>, vec: seq<SSA>)
    requires |vec| > 0
  {
    vec[0] in at && at[vec[0]] % NextPowerOfTwo(|vec|) == 0 && At(at, vec, at[vec[0]])
  }

  /** Nothing has been moved. */
  ghost predicate Quiet(a: Alloc) {
    a.evicted == map[] && a.pairs == []
  }

  ghost predicate Scalars(vecs: seq<seq<SSA>>) {
    forall i :: 0 <= i < |vecs| ==> |vecs[i]| <= 1
  }

  /** A single value in a register is in place. */
  lemma ScalarInPlace(a: Alloc, orig: map<SSA, nat>, vec: seq<SSA>)
    requires Quiet(a) && Collectable(a, orig, vec) && |vec| == 1
    ensures InPlace(a.at, vec)
  {
  }

  /** What collecting `vec` at `reg` does. */
  ghost predicate Collected(a: Alloc, b: Alloc, orig: map<SSA, nat>, vec: seq<SSA>, reg: nat) {
    && Sound(b, orig) && PinnedUsed(b) && Kept(a, b)
    && b.pinned == a.pinned + Span(reg, |vec|)
    && At(b.at, vec, reg) && reg % NextPowerOfTwo(|vec|) == 0
  }

  lemma CollectInPlace(a: Alloc, orig: map<SSA, nat>, vec: seq<SSA>, reg: nat)
    requires Sound(a, orig) && PinnedUsed(a) && |vec| > 0 && InPlace(a.at, vec) && reg == a.at[vec[0]]
    ensures Collected(a, a.(pinned := a.pinned + Span(reg, |vec|)), orig, vec, reg)
  {
    forall r | r in Span(reg, |vec|)
      ensures r in a.at.Values
    {
      assert vec[r - reg] in a.at && a.at[vec[r - reg]] == r;
    }
  }

  lemma CollectStart(a: Alloc, orig: map<SSA, nat>, vec: seq<SSA>, reg: nat)
    requires Sound(a, orig) && PinnedUsed(a) && Collectable(a, orig, vec) && !InPlace(a.at, vec)
    requires RangeUnset(a.pinned, reg, |vec|)
    ensures Collecting(a, a, orig, vec, reg, 0)
  {
  }

  lemma CollectDone(a: Alloc, b: Alloc, orig: map<SSA, nat>, vec: seq<SSA>, reg: nat)
    requires Collecting(a, b, orig, vec, reg, |vec|) && reg % NextPowerOfTwo(|vec|) == 0
    ensures Collected(a, b, orig, vec, reg)
  {
  }

  lemma UnusedUnpinned(a: Alloc, s: set<nat>, reg: nat, comps: nat)
    requires PinnedUsed(a) && s == a.at.Values && RangeUnset(s, reg, comps)
    ensures RangeUnset(a.pinned, reg, comps)
  {
  }

  /** Everything in a register in `a` is there in `b`, whose further values are `vec`
      from `reg` on, pinned; the copy is the same. */
  ghost predicate Defined(a: Alloc, b: Alloc, vec: seq<SSA>, reg: nat, n: nat)
    requires n <= |vec|
  {
    && b == a.(at := b.at, pinned := a.pinned + Span(reg, n))
    && (forall s :: s in b.at <==> s in a.at || s in vec[..n])
    && (forall s :: s in a.at ==> b.at[s] == a.at[s])
    && AtUpTo(b.at, vec, reg, n)
  }

  /** `vec` names values the instruction defines. */
  ghost predicate Fresh(a: Alloc, orig: map<SSA, nat>, vec: seq<SSA>) {
    NoRepeats(vec) && forall c :: 0 <= c < |vec| ==> vec[c] !in Known(a) && vec[c] !in orig
  }

  lemma AssignSound(a: Alloc, orig: map<SSA, nat>, s: SSA, reg: nat)
    requires Sound(a, orig) && s !in Known(a) && s !in orig && reg !in a.at.Values && reg < a.numRegs
    ensures Sound(AssignPin(a, s, reg), orig)
    ensures PinnedUsed(a) ==> PinnedUsed(AssignPin(a, s, reg))
  {
    var b := AssignPin(a, s, reg);
    forall v | v in a.at
      ensures a.at[v] != reg
    {
      assert a.at[v] in a.at.Values;
    }
    assert b.at[s] == reg;
    if PinnedUsed(a) {
      forall r | r in b.pinned
        ensures r in b.at.Values
      {
        if r != reg {
          var v :| v in a.at && a.at[v] == r;
          assert b.at[v] == r;
        }
      }
    }
  }

  lemma DefinedNext(a: Alloc, b: Alloc, orig: map<SSA, nat>, vec: seq<SSA>, reg: nat, n: nat)
    requires n < |vec| && NoRepeats(vec) && Defined(a, b, vec, reg, n) && vec[n] !in a.at
    ensures Defined(a, AssignPin(b, vec[n], reg + n), vec, reg, n + 1)
    ensures vec[n] !in b.at
  {
    assert vec[..n + 1] == vec[..n] + [vec[n]];
    forall d | 0 <= d < n
      ensures vec[d] != vec[n]
    {
    }
    assert vec[n] !in vec[..n];
  }

  lemma DefinedNone(a: Alloc, vec: seq<SSA>, reg: nat)
    ensures Defined(a, a, vec, reg, 0)
  {
  }

  lemma FreshAt(a: Alloc, b: Alloc, orig: map<SSA, nat>, vec: seq<SSA>, reg: nat, n: nat)
    requires n < |vec| && Fresh(a, orig, vec) && Defined(a, b, vec, reg, n)
    ensures NoRepeats(vec) && vec[n] !in a.at && vec[n] !in orig && vec[n] !in Known(b) && vec[n] !in b.at
  {
    assert vec[n] !in vec[..n];
  }

  lemma DefinedRoom(a: Alloc, b: Alloc, vec: seq<SSA>, reg: nat, n: nat, r: nat)
    requires n < |vec| && Defined(a, b, vec, reg, n) && RangeUnset(a.at.Values, reg, |vec|) && r == reg + n
    ensures r !in b.at.Values && b.numRegs == a.numRegs
  {
    forall s | s in b.at
      ensures b.at[s] != r
    {
      if s in a.at {
        assert a.at[s] in a.at.Values;
      } else {
        var d :| 0 <= d < n && vec[..n][d] == s;
        assert b.at[vec[d]] == reg + d;
      }
    }
  }

  /** What allocating the destination `vec` at `reg` does. */
  ghost predicate Allocated(a: Alloc, b: Alloc, vec: seq<SSA>, reg: nat) {
    && b.file == a.file && b.numRegs == a.numRegs && b.pairs == a.pairs
    && b.pinned == a.pinned + Span(reg, |vec|) && Known(b) == Known(a) + Elements(vec)
    && At(b.at, vec, reg) && reg % NextPowerOfTwo(|vec|) == 0
    && forall s :: s in a.at && a.at[s] in a.pinned ==> s in b.at && b.at[s] == a.at[s]
  }

  /** Evictions only. */
  ghost predicate Cleared(a: Alloc, b: Alloc) {
    Kept(a, b) && b.pinned == a.pinned && b.pairs == a.pairs
  }

  lemma ClearedRefl(a: Alloc)
    ensures Cleared(a, a)
  {
  }

  lemma ClearedPinned(a: Alloc, b: Alloc)
    requires Cleared(a, b)
    ensures b.pinned == a.pinned
  {
  }

  lemma ClearedTrans(a: Alloc, b: Alloc, c: Alloc)
    requires Cleared(a, b) && Cleared(b, c)
    ensures Cleared(a, c)
  {
  }

  lemma FreshKept(a: Alloc, b: Alloc, orig: map<SSA, nat>, vec: seq<SSA>)
    requires Fresh(a, orig, vec) && Cleared(a, b)
    ensures Fresh(b, orig, vec)
  {
  }

  lemma AllocatedAt(a: Alloc, b: Alloc, c: Alloc, vec: seq<SSA>, reg: nat)
    requires Cleared(a, b) && Defined(b, c, vec, reg, |vec|) && reg % NextPowerOfTwo(|vec|) == 0
    ensures Allocated(a, c, vec, reg)
  {
    assert vec[..|vec|] == vec;
  }

  /** `b`'s copy extends `a`'s without writing to what is pinned in `a`. */
  ghost predicate Grown(a: Alloc, b: Alloc) {
    && b.file == a.file && b.numRegs == a.numRegs && a.pinned <= b.pinned
    && |a.pairs| <= |b.pairs| && b.pairs[..|a.pairs|] == a.pairs
    && forall i :: |a.pairs| <= i < |b.pairs| ==> b.pairs[i].dst.idx !in a.pinned
  }

  /** On the way from `a` evicted values have been getting registers. */
  ghost predicate Settling(a: Alloc, b: Alloc) {
    && Grown(a, b) && Known(b) == Known(a) && b.pinned <= a.pinned + b.at.Values
    && (forall s :: s in b.evicted ==> s !in a.at)
    && (forall s :: s in a.at ==> s in b.at && b.at[s] == a.at[s])
  }

  lemma SettlingStart(a: Alloc, orig: map<SSA, nat>)
    requires Sound(a, orig)
    ensures Settling(a, a)
  {
  }

  lemma SettlingNext(a: Alloc, b: Alloc, c: Alloc, s: SSA, reg: nat)
    requires Settling(a, b) && s in b.evicted && Grown(b, c) && c.at == b.at[s := reg] && c.evicted == b.evicted - {s}
    requires c.pinned == b.pinned + {reg} && c.at.Values == b.at.Values + {reg}
    ensures Settling(a, c)
  {
    GrownTrans(a, b, c);
    hide Grown;
    assert Known(c) == Known(b);
  }

  lemma GrownTrans(a: Alloc, b: Alloc, c: Alloc)
    requires Grown(a, b) && Grown(b, c)
    ensures Grown(a, c)
  {
    assert c.pairs[..|a.pairs|] == b.pairs[..|a.pairs|];
    forall i | |a.pairs| <= i < |c.pairs|
      ensures c.pairs[i].dst.idx !in a.pinned
    {
      if i < |b.pairs| { assert c.pairs[i] == b.pairs[i]; }
    }
  }

  lemma GrownDelivers(a: Alloc, b: Alloc, from: nat, to: nat)
    requires Grown(a, b) && to in a.pinned && Delivered(a.pairs, a.file, from, to)
    ensures Delivered(b.pairs, b.file, from, to)
  {
    if from == to && !IsDst(a.pairs, Reg(a.file, to)) {
      forall i | 0 <= i < |b.pairs|
        ensures b.pairs[i].dst != Reg(a.file, to)
      {
        if i < |a.pairs| { assert b.pairs[i] == a.pairs[i]; }
      }
    } else {
      var i :| 0 <= i < |a.pairs| && a.pairs[i] == Move1(a.file, to, from);
      assert b.pairs[i] == b.pairs[..|a.pairs|][i];
    }
  }

  lemma FreeSound(a: Alloc, orig: map<SSA, nat>, killed: set<SSA>)
    requires Sound(a, orig)
    ensures Sound(a.(at := a.at - killed), orig)
  {
  }

  /** An evicted value gets a register that is neither used nor pinned. */
  lemma SettleSound(a: Alloc, orig: map<SSA, nat>, s: SSA, reg: nat)
    requires Sound(a, orig) && s in a.evicted && reg !in a.at.Values && reg !in a.pinned && reg < a.numRegs
    ensures Sound(CopyTo(Lift(a, s), s, reg, a.evicted[s]), orig)
    ensures CopyTo(Lift(a, s), s, reg, a.evicted[s]).at == a.at[s := reg]
  {
    LiftSound(a, orig, s);
    assert Lift(a, s).at == a.at;
    CopySound(Lift(a, s), orig, s, reg, a.evicted[s]);
  }

  // ---------------------------------------------------------------------------
  // The vector allocator
  // ---------------------------------------------------------------------------

  class VecRegAllocator {
    const ra: RegAllocator
    var pcopy: seq<Pair>
    var pinned: set<nat>
    var evicted: map<SSA, nat>

    ghost function Now(): Alloc
      reads this, ra
    {
      Alloc(ra.file, ra.numRegs, ra.ssaReg, pinned, evicted, pcopy)
    }

    /** `orig` is where values were when this allocator was made. */
    ghost predicate Valid(orig: map<SSA, nat>)
      reads this, ra
    {
      ra.Valid() && Sound(Now(), orig)
    }

    constructor (ra: RegAllocator)
      requires ra.Valid()
      ensures this.ra == ra && Valid(ra.ssaReg) && PinnedUsed(Now())
      ensures Now() == Alloc(ra.file, ra.numRegs, ra.ssaReg, ra.pinned, map[], [])
    {
      this.ra := ra;
      pcopy, pinned, evicted := [], ra.pinned, map[];
    }

    predicate RegIsPinned(reg: nat)
      reads this
    {
      reg in pinned
    }

    method PinReg(reg: nat)
      modifies this
      ensures Now() == old(Now()).(pinned := old(pinned) + {reg})
    {
      pinned := pinned + {reg};
    }

    method PinRegRange(reg: nat, comps: nat)
      modifies this
      ensures Now() == old(Now()).(pinned := old(pinned) + Span(reg, comps))
    {
      for c := 0 to comps
        invariant Now() == old(Now()).(pinned := old(pinned) + Span(reg, c))
      {
        PinReg(reg + c);
      }
    }

    method AssignPinReg(ssa: SSA, reg: nat)
      requires ra.Valid() && reg < ra.numRegs && !ra.RegIsUsed(reg) && ssa !in ra.ssaReg
      modifies this, ra
      ensures ra.Valid() && Now() == AssignPin(old(Now()), ssa, reg) && ra.pinned == old(ra.pinned)
    {
      PinReg(reg);
      ra.AssignReg(ssa, reg);
    }

    /** Take a register from the value in it, which must not be pinned. */
    method EvictRegIfUsed(reg: nat)
      requires ra.Valid() && !RegIsPinned(reg)
      modifies this, ra
      ensures ra.Valid() && Now() == EvictAt(old(Now()), reg) && reg !in ra.used
    {
      var ssa := ra.TryGetSsa(reg);
      if ssa.Some? {
        var _ := ra.FreeSsa(ssa.value);
        evicted := evicted[ssa.value := reg];
      }
      assert ra.ssaReg == EvictAt(old(Now()), reg).at;
      assert evicted == EvictAt(old(Now()), reg).evicted;
    }

    method MoveSsaToReg(ssa: SSA, newReg: nat)
      requires ra.Valid() && ssa in Known(Now()) && newReg < ra.numRegs && !RegIsPinned(newReg)
      requires ssa in ra.ssaReg ==> ssa !in evicted && !RegIsPinned(ra.ssaReg[ssa])
      modifies this, ra
      ensures ra.Valid() && Now() == MoveTo(old(Now()), ssa, newReg)
    {
      var oldReg := ra.TryGetReg(ssa);
      if oldReg.Some? {
        if newReg == oldReg.value {
          PinReg(newReg);
        } else {
          var _ := ra.FreeSsa(ssa);
          assert Now() == Lift(old(Now()), ssa);
          EvictRegIfUsed(newReg);
          pcopy := pcopy + [Move1(ra.file, newReg, oldReg.value)];
          AssignPinReg(ssa, newReg);
        }
      } else {
        var from := evicted[ssa];
        evicted := evicted - {ssa};
        assert Now() == Lift(old(Now()), ssa);
        EvictRegIfUsed(newReg);
        pcopy := pcopy + [Move1(ra.file, newReg, from)];
        AssignPinReg(ssa, newReg);
      }
    }
  
    method TryGetVecReg(vec: seq<SSA>) returns (reg: Option<nat>)
      requires |vec| > 0
      ensures reg.Some? <==> InPlace(ra.ssaReg, vec)
      ensures reg.Some? ==> reg.value == ra.ssaReg[vec[0]]
    {
      reg := ra.TryGetVecReg(vec);
    }

    /** The place that keeps the first component that can stay where it is. */
    method FindComponentPlace(vec: seq<SSA>, align: nat) returns (reg: Option<nat>)
      requires align == NextPowerOfTwo(|vec|)
      ensures reg.Some? ==> exists c: nat :: FirstKept(ra.ssaReg, pinned, ra.numRegs, vec, c, reg.value)
      ensures reg.None? ==> forall c: nat, r: nat :: !KeepsComponent(ra.ssaReg, pinned, ra.numRegs, vec, c, r)
    {
      hide NextPowerOfTwo, RangeUnset;
      for c := 0 to |vec|
        invariant forall d: nat, r: nat :: d < c ==> !KeepsComponent(ra.ssaReg, pinned, ra.numRegs, vec, d, r)
      {
        var compReg := ra.TryGetReg(vec[c]);
        if compReg.Some? {
          var vecReg := compReg.value / align * align;
          OnlyPlace(ra.ssaReg, pinned, ra.numRegs, vec, c, align, vecReg);
          if compReg.value == vecReg + c && vecReg + |vec| <= ra.numRegs && RangeUnset(pinned, vecReg, |vec|) {
            hide KeepsComponent;
            assert FirstKept(ra.ssaReg, pinned, ra.numRegs, vec, c, vecReg);
            return Some(vecReg);
          }
        }
      }
      return None;
    }

    /** An unused place, else one that keeps a component, else any unpinned one. */
    method FindPlace(vec: seq<SSA>, ghost orig: map<SSA, nat>) returns (reg: Option<nat>)
      requires Valid(orig) && PinnedUsed(Now()) && |vec| > 0
      ensures reg.Some? ==> Fits(pinned, ra.numRegs, reg.value, |vec|, NextPowerOfTwo(|vec|))
      ensures reg.None? ==> forall r :: 0 <= r ==> !Fits(pinned, ra.numRegs, r, |vec|, NextPowerOfTwo(|vec|))
      ensures reg.Some? ==> Chosen(ra.ssaReg, ra.used, pinned, ra.numRegs, vec, reg.value)
    {
      var align := NextPowerOfTwo(|vec|);
      reg := ra.TryFindUnset(ra.used, 0, |vec|, align);
      if reg.Some? {
        UsedAreValues(ra);
        UnusedUnpinned(Now(), ra.used, reg.value, |vec|);
        return;
      }
      reg := FindComponentPlace(vec, align);
      if reg.Some? { return; }
      reg := ra.TryFindUnset(pinned, 0, |vec|, align);
    }

    /** Move every component of `vec` to its place. */
    method MoveAll(vec: seq<SSA>, reg: nat, ghost orig: map<SSA, nat>)
      requires ra.Valid() && NoRepeats(vec) && reg + |vec| <= ra.numRegs && reg % NextPowerOfTwo(|vec|) == 0
      requires forall c :: 0 <= c < |vec| ==> vec[c] in orig
      requires Collecting(Now(), Now(), orig, vec, reg, 0)
      modifies this, ra
      ensures ra.Valid() && Collected(old(Now()), Now(), orig, vec, reg)
    {
      ghost var a := Now();
      hide Collecting, Collected, NoRepeats, MoveTo;
      for c := 0 to |vec|
        invariant ra.Valid() && Collecting(a, Now(), orig, vec, reg, c)
      {
        CollectReady(a, Now(), orig, vec, reg, c);
        CollectStep(a, Now(), orig, vec, reg, c);
        MoveSsaToReg(vec[c], reg + c);
      }
      CollectDone(a, Now(), orig, vec, reg);
    }

    /** Bring `vec` into consecutive aligned registers and pin it there; fails when
        no aligned unpinned place is left. */
    method CollectVector(vec: seq<SSA>, ghost orig: map<SSA, nat>) returns (reg: Option<nat>)
      requires Valid(orig) && PinnedUsed(Now()) && Collectable(Now(), orig, vec)
      modifies this, ra
      ensures Valid(orig)
      ensures reg.Some? ==> Collected(old(Now()), Now(), orig, vec, reg.value)
      ensures reg.None? ==> Now() == old(Now())
      ensures reg.None? ==> forall r :: 0 <= r ==> !Fits(old(pinned), ra.numRegs, r, |vec|, NextPowerOfTwo(|vec|))
      ensures reg.Some? ==> if InPlace(old(ra.ssaReg), vec) then reg.value == old(ra.ssaReg)[vec[0]]
                            else Chosen(old(ra.ssaReg), old(ra.used), old(pinned), ra.numRegs, vec, reg.value)
      ensures |vec| == 1 && old(Quiet(Now())) ==> Quiet(Now())
    {
      ghost var a := Now();
      if |vec| == 1 && Quiet(a) { ScalarInPlace(a, orig, vec); }
      hide Sound, Kept, Movable, PinnedUsed, NoRepeats, AtUpTo, Chosen;
      reg := ra.TryGetVecReg(vec);
      if reg.Some? {
        CollectInPlace(a, orig, vec, reg.value);
        PinRegRange(reg.value, |vec|);
        return;
      }
      reg := FindPlace(vec, orig);
      if reg.None? { return; }
      CollectStart(a, orig, vec, reg.value);
      MoveAll(vec, reg.value, orig);
    }
  
    method AssignComp(vec: seq<SSA>, reg: nat, c: nat, ghost a: Alloc, ghost orig: map<SSA, nat>)
      requires Valid(orig) && c < |vec| && Defined(a, Now(), vec, reg, c) && Fresh(a, orig, vec)
      requires RangeUnset(a.at.Values, reg, |vec|) && reg + |vec| <= a.numRegs
      modifies this, ra
      ensures Valid(orig) && Defined(a, Now(), vec, reg, c + 1)
      ensures old(PinnedUsed(Now())) ==> PinnedUsed(Now())
    {
      hide Sound, PinnedUsed, Defined, Fresh, Known, AssignPin, RangeUnset, NoRepeats;
      FreshAt(a, Now(), orig, vec, reg, c);
      DefinedNext(a, Now(), orig, vec, reg, c);
      DefinedRoom(a, Now(), vec, reg, c, reg + c);
      UsedAreValues(ra);
      AssignSound(Now(), orig, vec[c], reg + c);
      AssignPinReg(vec[c], reg + c);
    }

    method AssignPinVecReg(vec: seq<SSA>, reg: nat, ghost orig: map<SSA, nat>)
      requires Valid(orig) && Fresh(Now(), orig, vec)
      requires reg + |vec| <= ra.numRegs && RangeUnset(ra.used, reg, |vec|)
      modifies this, ra
      ensures Valid(orig) && Defined(old(Now()), Now(), vec, reg, |vec|)
      ensures old(PinnedUsed(Now())) ==> PinnedUsed(Now())
    {
      ghost var a := Now();
      DefinedNone(a, vec, reg);
      UsedAreValues(ra);
      hide Sound, PinnedUsed, Defined, RegAllocator.Valid, Fresh, RangeUnset, NoRepeats;
      for c := 0 to |vec|
        invariant Valid(orig) && Defined(a, Now(), vec, reg, c)
        invariant PinnedUsed(a) ==> PinnedUsed(Now())
      {
        AssignComp(vec, reg, c, a, orig);
      }
    }

    /** Registers for a vector destination, evicting what is in the way. */
    method AllocVector(vec: seq<SSA>, ghost orig: map<SSA, nat>) returns (reg: Option<nat>)
      requires Valid(orig) && PinnedUsed(Now()) && Fresh(Now(), orig, vec) && |vec| > 0
      modifies this, ra
      ensures Valid(orig) && PinnedUsed(Now())
      ensures reg.Some? ==> Allocated(old(Now()), Now(), vec, reg.value)
      ensures reg.None? ==> Now() == old(Now())
      ensures reg.None? ==> forall r :: 0 <= r ==> !Fits(old(pinned), ra.numRegs, r, |vec|, NextPowerOfTwo(|vec|))
      ensures reg.Some? ==>
                var n, align := |vec|, NextPowerOfTwo(|vec|);
                if NoPlace(old(ra.used), ra.numRegs, n, align) then Lowest(old(pinned), ra.numRegs, reg.value, n, align)
                else Lowest(old(ra.used), ra.numRegs, reg.value, n, align)
    {
      ghost var a := Now();
      ClearedRefl(a);
      hide Sound, PinnedUsed, RegAllocator.Valid, Cleared, Allocated;
      var align := NextPowerOfTwo(|vec|);
      reg := ra.TryFindUnset(ra.used, 0, |vec|, align);
      if reg.None? {
        reg := ra.TryFindUnset(pinned, 0, |vec|, align);
        if reg.None? { return; }
        EvictRange(reg.value, |vec|, orig);
        FreshKept(a, Now(), orig, vec);
      }
      ghost var b := Now();
      AssignPinVecReg(vec, reg.value, orig);
      AllocatedAt(a, b, Now(), vec, reg.value);
    }

    method EvictOne(reg: nat, ghost orig: map<SSA, nat>)
      requires Valid(orig) && PinnedUsed(Now()) && reg !in pinned
      modifies this, ra
      ensures Valid(orig) && PinnedUsed(Now()) && Cleared(old(Now()), Now())
      ensures ra.used == old(ra.used) - {reg}
    {
      ghost var a, used := Now(), ra.used;
      UsedAreValues(ra);
      EvictSound(a, orig, reg);
      EvictRegIfUsed(reg);
      UsedAreValues(ra);
      hide Sound, PinnedUsed;
      assert ra.used == used - {reg} by {
        forall r | r in used && r != reg
          ensures r in ra.ssaReg.Values
        {
          var s :| s in a.at && a.at[s] == r;
          assert s in ra.ssaReg && ra.ssaReg[s] == r;
        }
      }
    }

    method EvictRange(reg: nat, comps: nat, ghost orig: map<SSA, nat>)
      requires Valid(orig) && PinnedUsed(Now()) && RangeUnset(pinned, reg, comps)
      modifies this, ra
      ensures Valid(orig) && PinnedUsed(Now()) && Cleared(old(Now()), Now())
      ensures RangeUnset(ra.used, reg, comps)
    {
      ghost var a := Now();
      ClearedRefl(a);
      hide Sound, PinnedUsed, RegAllocator.Valid, Cleared;
      for c := 0 to comps
        invariant Valid(orig) && PinnedUsed(Now()) && Cleared(a, Now())
        invariant RangeUnset(ra.used, reg, c)
      {
        ghost var b := Now();
        ClearedPinned(a, b);
        EvictOne(reg + c, orig);
        ClearedTrans(a, b, Now());
      }
    }

    method FreeKilled(killed: seq<SSA>, ghost orig: map<SSA, nat>)
      requires Valid(orig) && NoRepeats(killed) && forall k :: k in killed ==> k in ra.ssaReg
      modifies ra
      ensures Valid(orig) && Now() == old(Now()).(at := old(ra.ssaReg) - Elements(killed))
    {
      for i := 0 to |killed|
        invariant ra.Valid() && Now() == old(Now()).(at := old(ra.ssaReg) - Elements(killed[..i]))
      {
        assert killed[..i + 1] == killed[..i] + [killed[i]];
        assert killed[i] in killed && killed[i] !in killed[..i];
        var _ := ra.FreeSsa(killed[i]);
        assert Elements(killed[..i + 1]) == Elements(killed[..i]) + {killed[i]};
        assert ra.ssaReg == old(ra.ssaReg) - Elements(killed[..i + 1]);
      }
      assert killed[..|killed|] == killed;
      FreeSound(old(Now()), orig, Elements(killed));
    }

    /** The evicted value with the lowest old register. */
    method LowestEvicted() returns (ssa: SSA)
      requires evicted.Keys != {}
      ensures ssa in evicted && forall s :: s in evicted ==> evicted[ssa] <= evicted[s]
    {
      var left := evicted.Keys;
      ssa :| ssa in left;
      left := left - {ssa};
      while left != {}
        invariant left <= evicted.Keys && ssa in evicted
        invariant forall s :: s in evicted && s !in left ==> evicted[ssa] <= evicted[s]
      {
        var s :| s in left;
        if evicted[s] < evicted[ssa] { ssa := s; }
        left := left - {s};
      }
    }

    /** The lowest register neither used nor pinned. */
    method FindFree() returns (reg: Option<nat>)
      ensures reg.Some? ==> reg.value < ra.numRegs && reg.value !in ra.used && reg.value !in pinned
      ensures reg.None? ==> forall r: nat :: r < ra.numRegs ==> r in ra.used || r in pinned
    {
      var next := 0;
      while true
        invariant forall r: nat :: r < next && r < ra.numRegs ==> r in ra.used || r in pinned
        decreases ra.numRegs - next
      {
        reg := ra.TryFindUnset(ra.used, next, 1, 1);
        forall r: nat | next <= r < ra.numRegs && (reg.None? || r < reg.value)
          ensures r in ra.used
        {
          assert !Fits(ra.used, ra.numRegs, r, 1, 1);
        }
        if reg.None? || reg.value !in pinned { return; }
        next := reg.value + 1;
      }
    }

    method SettleEvicted(ssa: SSA, reg: nat, ghost orig: map<SSA, nat>)
      requires Valid(orig) && ssa in evicted && reg < ra.numRegs && reg !in ra.used && reg !in pinned
      modifies this, ra
      ensures Valid(orig) && ra.ssaReg == old(ra.ssaReg)[ssa := reg] && evicted == old(evicted) - {ssa}
      ensures Grown(old(Now()), Now()) && pinned == old(pinned) + {reg} && ra.ssaReg.Values == old(ra.ssaReg.Values) + {reg}
    {
      ghost var a := Now();
      UsedAreValues(ra);
      SettleSound(a, orig, ssa, reg);
      assert ssa !in ra.ssaReg;
      hide Sound;
      ValuesAdded(ra.ssaReg, ssa, reg);
      var from := evicted[ssa];
      evicted := evicted - {ssa};
      pcopy := pcopy + [Move1(ra.file, reg, from)];
      AssignPinReg(ssa, reg);
      assert Now() == CopyTo(Lift(a, ssa), ssa, reg, from);
    }

    /** The evicted values, lowest old register first, each get a register that is
        neither used nor pinned. */
    method SettleAll(ghost orig: map<SSA, nat>) returns (ok: bool)
      requires Valid(orig)
      modifies this, ra
      ensures Valid(orig)
      ensures Known(Now()) == old(Known(Now())) && (ok ==> evicted.Keys == {})
      ensures pinned <= old(pinned) + ra.ssaReg.Values
      ensures forall s :: s in old(ra.ssaReg) ==> s in ra.ssaReg && ra.ssaReg[s] == old(ra.ssaReg)[s]
      ensures Grown(old(Now()), Now())
      ensures !ok ==> evicted.Keys != {} && forall r: nat :: r < ra.numRegs ==> r in ra.used || r in pinned
    {
      ok := true;
      ghost var a := Now();
      SettlingStart(a, orig);
      while evicted.Keys != {}
        invariant Valid(orig) && Settling(a, Now())
        decreases evicted.Keys
      {
        hide Sound, RegAllocator.Valid, Settling, Grown;
        var ssa := LowestEvicted();
        var reg := FindFree();
        if reg.None? { return false; }
        ghost var b := Now();
        SettleEvicted(ssa, reg.value, orig);
        SettlingNext(a, b, Now(), ssa, reg.value);
      }
    }

    /** Give every evicted value a new register; fails when there is none. */
    method Finish(ghost orig: map<SSA, nat>) returns (ok: bool)
      requires Valid(orig)
      modifies this, ra
      ensures Valid(orig)
      ensures Known(Now()) == old(Known(Now())) && (ok ==> evicted.Keys == {})
      ensures pinned <= old(pinned) + ra.ssaReg.Values
      ensures forall s :: s in old(ra.ssaReg) ==> s in ra.ssaReg && ra.ssaReg[s] == old(ra.ssaReg)[s]
      ensures Grown(old(Now()), Now())
      ensures !ok ==> evicted.Keys != {} && forall r: nat :: r < ra.numRegs ==> r in ra.used || r in pinned
      ensures old(Quiet(Now())) ==> Quiet(Now())
    {
      ok := true;
      if evicted.Keys != {} { ok := SettleAll(orig); }
    }
  }

  lemma ValuesAdded(at: map<SSA, nat>, s: SSA, reg: nat)
    requires s !in at
    ensures at[s := reg].Values == at.Values + {reg}
  {
    forall r | r in at.Values + {reg}
      ensures r in at[s := reg].Values
    {
      if r == reg {
        assert at[s := reg][s] == r;
      } else {
        var v :| v in at && at[v] == r;
        assert at[s := reg][v] == r;
      }
    }
  }

  // ---------------------------------------------------------------------------
  // An instruction's operands
  // ---------------------------------------------------------------------------

  /** What legalization establishes of the vector sources: no component twice in
      one, and two that are not identical share nothing. */
  ghost predicate Legal(srcs: seq<seq<SSA>>) {
    && (forall i :: 0 <= i < |srcs| && |srcs[i]| > 1 ==> NoRepeats(srcs[i]))
    && (forall i, j :: 0 <= i < |srcs| && 0 <= j < |srcs| && |srcs[i]| > 1 && |srcs[j]| > 1 ==>
          srcs[i] == srcs[j] || Elements(srcs[i]) !! Elements(srcs[j]))
  }

  ghost predicate AllKnown(a: Alloc, orig: map<SSA, nat>, vec: seq<SSA>) {
    forall s :: s in vec ==> s in Known(a) && s in orig
  }

  /** All pinned values are among `s`. */
  ghost predicate PinnedAmong(a: Alloc, s: set<SSA>) {
    forall v :: v in a.at && a.at[v] in a.pinned ==> v in s
  }

  ghost predicate SitsAt(a: Alloc, vec: seq<SSA>, reg: nat) {
    |vec| > 0 && At(a.at, vec, reg) && reg % NextPowerOfTwo(|vec|) == 0 && Span(reg, |vec|) <= a.pinned
  }

  lemma CollectedPins(a: Alloc, b: Alloc, orig: map<SSA, nat>, vec: seq<SSA>, reg: nat, s: set<SSA>)
    requires |vec| > 0 && Collected(a, b, orig, vec, reg) && PinnedUsed(a) && PinnedAmong(a, s)
    ensures PinnedAmong(b, s + Elements(vec)) && SitsAt(b, vec, reg)
  {
    forall v | v in b.at && b.at[v] in b.pinned
      ensures v in s + Elements(vec)
    {
      if b.at[v] in a.pinned {
        var w :| w in a.at && a.at[w] == b.at[v];
        assert w in b.at && b.at[w] == a.at[w];
      } else {
        assert b.at[vec[b.at[v] - reg]] == b.at[v];
      }
    }
  }

  lemma SitsKept(a: Alloc, b: Alloc, vec: seq<SSA>, reg: nat)
    requires SitsAt(a, vec, reg) && Kept(a, b)
    ensures SitsAt(b, vec, reg)
  {
    forall c | 0 <= c < |vec|
      ensures vec[c] in b.at && b.at[vec[c]] == reg + c
    {
      assert reg + c in Span(reg, |vec|);
    }
  }

  /** The sources before `n` with more than one component are in place. */
  ghost predicate VectorsDone(a: Alloc, srcs: seq<seq<SSA>>, regs: seq<nat>, n: nat)
    requires n <= |srcs| == |regs|
  {
    forall i :: 0 <= i < n && |srcs[i]| > 1 ==> SitsAt(a, srcs[i], regs[i])
  }

  function VectorComps(srcs: seq<seq<SSA>>, n: nat): set<SSA>
    requires n <= |srcs|
  {
    if n == 0 then {}
    else VectorComps(srcs, n - 1) + (if |srcs[n - 1]| > 1 then Elements(srcs[n - 1]) else {})
  }

  lemma {:induction false} VectorCompOwner(srcs: seq<seq<SSA>>, n: nat, s: SSA)
    requires n <= |srcs| && s in VectorComps(srcs, n)
    ensures exists j :: 0 <= j < n && |srcs[j]| > 1 && s in srcs[j]
  {
    if !(|srcs[n - 1]| > 1 && s in srcs[n - 1]) { VectorCompOwner(srcs, n - 1, s); }
  }

  lemma SharedIsSame(srcs: seq<seq<SSA>>, i: nat, j: nat, s: SSA)
    requires Legal(srcs) && i < |srcs| && j < |srcs| && |srcs[i]| > 1 && |srcs[j]| > 1
    requires s in srcs[i] && s in srcs[j]
    ensures srcs[i] == srcs[j]
  {
    assert s in Elements(srcs[i]) && s in Elements(srcs[j]);
  }

  lemma SitsInPlace(a: Alloc, vec: seq<SSA>, reg: nat)
    requires SitsAt(a, vec, reg)
    ensures InPlace(a.at, vec)
  {
    assert a.at[vec[0]] == reg;
  }

  /** The next vector source may be collected: it is in place already or it shares
      nothing with those that are. */
  lemma NextCollectable(a: Alloc, orig: map<SSA, nat>, srcs: seq<seq<SSA>>, regs: seq<nat>, n: nat, s0: set<SSA>)
    requires n < |srcs| == |regs| && Legal(srcs) && |srcs[n]| > 1 && VectorsDone(a, srcs, regs, n)
    requires PinnedAmong(a, s0 + VectorComps(srcs, n)) && AllKnown(a, orig, srcs[n]) && s0 !! Elements(srcs[n])
    ensures Collectable(a, orig, srcs[n])
  {
    var vec := srcs[n];
    hide SitsAt, AtUpTo;
    if c :| 0 <= c < |vec| && vec[c] in a.at && a.at[vec[c]] in a.pinned {
      hide Legal;
      assert vec[c] in Elements(vec);
      VectorCompOwner(srcs, n, vec[c]);
      var j :| 0 <= j < n && |srcs[j]| > 1 && vec[c] in srcs[j];
      SharedIsSame(srcs, n, j, vec[c]);
      SitsInPlace(a, srcs[j], regs[j]);
    }
  }

  /** A scalar always may. */
  lemma ScalarCollectable(a: Alloc, orig: map<SSA, nat>, s: SSA)
    requires s in Known(a) && s in orig
    ensures Collectable(a, orig, [s])
  {
    if s in a.at {
      assert NextPowerOfTwo(|[s]|) == 1;
      assert InPlace(a.at, [s]);
    }
  }

  /** The sources of an instruction that can be remapped: legal, known, and none of
      them pinned from outside. */
  ghost predicate Remappable(a: Alloc, orig: map<SSA, nat>, srcs: seq<seq<SSA>>, s0: set<SSA>) {
    && Legal(srcs) && PinnedAmong(a, s0)
    && (forall i :: 0 <= i < |srcs| ==> AllKnown(a, orig, srcs[i]))
    && (forall i :: 0 <= i < |srcs| ==> s0 !! Elements(srcs[i]))
  }

  ghost predicate Remapping(a: Alloc, b: Alloc, orig: map<SSA, nat>, srcs: seq<seq<SSA>>, regs: seq<nat>, n: nat, s0: set<SSA>) {
    && n <= |srcs| == |regs|
    && Sound(b, orig) && PinnedUsed(b) && Kept(a, b)
    && PinnedAmong(b, s0 + VectorComps(srcs, n)) && VectorsDone(b, srcs, regs, n)
  }

  lemma RemapStart(a: Alloc, orig: map<SSA, nat>, srcs: seq<seq<SSA>>, regs: seq<nat>, s0: set<SSA>)
    requires Sound(a, orig) && PinnedUsed(a) && Remappable(a, orig, srcs, s0) && |regs| == |srcs|
    ensures Remapping(a, a, orig, srcs, regs, 0, s0)
  {
  }

  lemma KnownKept(a: Alloc, b: Alloc, orig: map<SSA, nat>, vec: seq<SSA>)
    requires AllKnown(a, orig, vec) && Kept(a, b)
    ensures AllKnown(b, orig, vec)
  {
  }

  lemma RemapVector(a: Alloc, b: Alloc, b': Alloc, orig: map<SSA, nat>, srcs: seq<seq<SSA>>, regs: seq<nat>, n: nat, s0: set<SSA>, reg: nat)
    requires Remapping(a, b, orig, srcs, regs, n, s0) && n < |srcs| && |srcs[n]| > 1
    requires Collected(b, b', orig, srcs[n], reg)
    ensures Remapping(a, b', orig, srcs, regs[n := reg], n + 1, s0)
  {
    hide Sound, PinnedUsed, Kept, PinnedAmong, SitsAt, AtUpTo;
    CollectedPins(b, b', orig, srcs[n], reg, s0 + VectorComps(srcs, n));
    KeptTrans(a, b, b');
    assert s0 + VectorComps(srcs, n) + Elements(srcs[n]) == s0 + VectorComps(srcs, n + 1);
    forall i | 0 <= i < n && |srcs[i]| > 1
      ensures SitsAt(b', srcs[i], regs[i])
    {
      SitsKept(b, b', srcs[i], regs[i]);
    }
  }

  lemma RemapSkip(a: Alloc, b: Alloc, orig: map<SSA, nat>, srcs: seq<seq<SSA>>, regs: seq<nat>, n: nat, s0: set<SSA>)
    requires Remapping(a, b, orig, srcs, regs, n, s0) && n < |srcs| && |srcs[n]| <= 1
    ensures Remapping(a, b, orig, srcs, regs, n + 1, s0)
  {
  }

  /** No aligned unpinned place for `n` registers is left. */
  ghost predicate Full(a: Alloc, n: nat) {
    forall r :: 0 <= r ==> !Fits(a.pinned, a.numRegs, r, n, NextPowerOfTwo(n))
  }

  /** Enough of the values `s` to sit in the way of `n` registers everywhere. */
  predicate Crowded(numRegs: nat, n: nat, s: set<SSA>) {
    numRegs / NextPowerOfTwo(n) <= |s|
  }

  lemma BlockInside(k: nat, p: nat, total: nat)
    requires p > 0 && k < total / p
    ensures k * p + p <= total
  {
    assert (k + 1) * p <= total / p * p <= total;
  }

  lemma BlockPinned(a: Alloc, n: nat, k: nat)
    requires n > 0 && Full(a, n) && k < a.numRegs / NextPowerOfTwo(n)
    ensures Finite.HasInBlock(a.pinned, NextPowerOfTwo(n), k)
  {
    hide NextPowerOfTwo;
    var p := NextPowerOfTwo(n);
    var start := k * p;
    BlockInside(k, p, a.numRegs);
    MultipleMod(k, p);
    assert !Fits(a.pinned, a.numRegs, start, n, p);
    var r :| start <= r < start + n && r in a.pinned;
    Divide(k, r - start, p);
  }

  /** Each pinned register holds a value of its own. */
  lemma FewPinned(a: Alloc, s: set<SSA>, all: set<SSA>)
    requires PinnedUsed(a) && PinnedAmong(a, s) && s <= all
    ensures |a.pinned| <= |all|
  {
    forall r | r in a.pinned
      ensures exists v :: v in s && v in a.at && a.at[v] == r
    {
      var v :| v in a.at && a.at[v] == r;
    }
    Finite.ImageSize(a.at, s, a.pinned);
    Finite.SubsetSize(s, all);
  }

  /** If no place is left, every aligned block holds a pinned value: there are at
      least as many of those as blocks. */
  lemma FullIsCrowded(a: Alloc, n: nat, s: set<SSA>, all: set<SSA>)
    requires n > 0 && PinnedUsed(a) && PinnedAmong(a, s) && Full(a, n) && s <= all
    ensures Crowded(a.numRegs, n, all)
  {
    hide Full, NextPowerOfTwo, PinnedUsed, PinnedAmong, Finite.HasInBlock;
    var p := NextPowerOfTwo(n);
    forall k: nat | k < a.numRegs / p
      ensures Finite.HasInBlock(a.pinned, p, k)
    {
      BlockPinned(a, n, k);
    }
    Finite.BlocksCount(a.pinned, p, a.numRegs / p);
    FewPinned(a, s, all);
  }

  /** The values an instruction reads in one file. */
  ghost function Operands(srcs: seq<seq<SSA>>, pred: Option<SSA>): set<SSA> {
    (set i, s | 0 <= i < |srcs| && s in srcs[i] :: s) + if pred.Some? then {pred.value} else {}
  }

  /** The room the operands may lack, `s0` being pinned besides them. */
  ghost predicate NoRoom(numRegs: nat, srcs: seq<seq<SSA>>, pred: Option<SSA>, s0: set<SSA>) {
    || Crowded(numRegs, 1, s0 + Operands(srcs, pred))
    || exists i :: 0 <= i < |srcs| && Crowded(numRegs, |srcs[i]|, s0 + Operands(srcs, pred))
  }

  lemma VectorCompsAreOperands(srcs: seq<seq<SSA>>, pred: Option<SSA>, n: nat)
    requires n <= |srcs|
    ensures VectorComps(srcs, n) <= Operands(srcs, pred)
  {
    forall s | s in VectorComps(srcs, n)
      ensures s in Operands(srcs, pred)
    {
      VectorCompOwner(srcs, n, s);
    }
  }

  lemma PinnedMore(a: Alloc, s: set<SSA>, t: set<SSA>)
    requires PinnedAmong(a, s) && s <= t
    ensures PinnedAmong(a, t)
  {
  }

  lemma VectorFull(a: Alloc, b: Alloc, orig: map<SSA, nat>, srcs: seq<seq<SSA>>, pred: Option<SSA>, regs: seq<nat>, n: nat, s0: set<SSA>)
    requires Remapping(a, b, orig, srcs, regs, n, s0) && n < |srcs| && |srcs[n]| > 1 && Full(b, |srcs[n]|)
    ensures NoRoom(b.numRegs, srcs, pred, s0)
  {
    VectorCompsAreOperands(srcs, pred, n);
    FullIsCrowded(b, |srcs[n]|, s0 + VectorComps(srcs, n), s0 + Operands(srcs, pred));
  }

  lemma RemapNext(a: Alloc, b: Alloc, orig: map<SSA, nat>, srcs: seq<seq<SSA>>, regs: seq<nat>, n: nat, s0: set<SSA>)
    requires Remappable(a, orig, srcs, s0) && Remapping(a, b, orig, srcs, regs, n, s0) && n < |srcs| && |srcs[n]| > 1
    ensures Collectable(b, orig, srcs[n]) && Sound(b, orig) && PinnedUsed(b)
  {
    hide Sound, PinnedUsed, Collectable, PinnedAmong, VectorsDone;
    KnownKept(a, b, orig, srcs[n]);
    NextCollectable(b, orig, srcs, regs, n, s0);
  }

  /** Vector sources first, since they may pin some of the scalar ones. */
  method RemapVectors(vra: VecRegAllocator, srcs: seq<seq<SSA>>, ghost pred: Option<SSA>, ghost orig: map<SSA, nat>, ghost s0: set<SSA>)
    returns (regs: Option<seq<nat>>)
    requires vra.Valid(orig) && PinnedUsed(vra.Now()) && Remappable(vra.Now(), orig, srcs, s0)
    modifies vra, vra.ra
    ensures vra.Valid(orig)
    ensures regs.Some? ==> Remapping(old(vra.Now()), vra.Now(), orig, srcs, regs.value, |srcs|, s0)
    ensures regs.None? ==> NoRoom(vra.ra.numRegs, srcs, pred, s0)
    ensures Scalars(srcs) && old(Quiet(vra.Now())) ==> Quiet(vra.Now())
  {
    ghost var a := vra.Now();
    var list: seq<nat> := seq(|srcs|, i => 0);
    RemapStart(a, orig, srcs, list, s0);
    hide Sound, PinnedUsed, Remappable, Remapping, Collectable, Collected, RegAllocator.Valid;
    for i := 0 to |srcs|
      invariant vra.Valid(orig) && |list| == |srcs| && Remapping(a, vra.Now(), orig, srcs, list, i, s0)
      invariant Scalars(srcs) && Quiet(a) ==> Quiet(vra.Now())
    {
      if |srcs[i]| > 1 {
        RemapNext(a, vra.Now(), orig, srcs, list, i, s0);
        ghost var b := vra.Now();
        var reg := vra.CollectVector(srcs[i], orig);
        if reg.None? {
          VectorFull(a, vra.Now(), orig, srcs, pred, list, i, s0);
          return None;
        }
        RemapVector(a, b, vra.Now(), orig, srcs, list, i, s0, reg.value);
        list := list[i := reg.value];
      } else {
        RemapSkip(a, vra.Now(), orig, srcs, list, i, s0);
      }
    }
    return Some(list);
  }

  /** Vector sources, the guard, and the scalar sources before `n` are in place. */
  ghost predicate Remapped(a: Alloc, b: Alloc, orig: map<SSA, nat>, srcs: seq<seq<SSA>>, pred: Option<SSA>,
                           regs: seq<nat>, predReg: Option<nat>, n: nat)
  {
    && n <= |srcs| == |regs|
    && Sound(b, orig) && PinnedUsed(b) && Kept(a, b)
    && (forall i :: 0 <= i < |srcs| && (|srcs[i]| > 1 || (|srcs[i]| == 1 && i < n)) ==> SitsAt(b, srcs[i], regs[i]))
    && (predReg.Some? ==> pred.Some? && SitsAt(b, [pred.value], predReg.value))
  }

  lemma RemapScalar(a: Alloc, b: Alloc, b': Alloc, orig: map<SSA, nat>, srcs: seq<seq<SSA>>, pred: Option<SSA>,
                    regs: seq<nat>, predReg: Option<nat>, n: nat, reg: nat)
    requires Remapped(a, b, orig, srcs, pred, regs, predReg, n) && n < |srcs| && |srcs[n]| == 1
    requires Collected(b, b', orig, srcs[n], reg)
    ensures Remapped(a, b', orig, srcs, pred, regs[n := reg], predReg, n + 1)
  {
    assert SitsAt(b', srcs[n], reg);
    hide Sound, PinnedUsed, Kept, SitsAt, AtUpTo;
    KeptTrans(a, b, b');
    forall i | 0 <= i < |srcs| && (|srcs[i]| > 1 || (|srcs[i]| == 1 && i < n))
      ensures SitsAt(b', srcs[i], regs[i])
    {
      SitsKept(b, b', srcs[i], regs[i]);
    }
    if predReg.Some? { SitsKept(b, b', [pred.value], predReg.value); }
  }

  lemma RemapPred(a: Alloc, b: Alloc, b': Alloc, orig: map<SSA, nat>, srcs: seq<seq<SSA>>, pred: SSA, regs: seq<nat>, reg: nat)
    requires Remapped(a, b, orig, srcs, Some(pred), regs, None, 0) && Collected(b, b', orig, [pred], reg)
    ensures Remapped(a, b', orig, srcs, Some(pred), regs, Some(reg), 0)
  {
    assert SitsAt(b', [pred], reg);
    hide Sound, PinnedUsed, Kept, SitsAt, AtUpTo;
    KeptTrans(a, b, b');
    forall i | 0 <= i < |srcs| && |srcs[i]| > 1
      ensures SitsAt(b', srcs[i], regs[i])
    {
      SitsKept(b, b', srcs[i], regs[i]);
    }
  }

  lemma RemapVectorsDone(a: Alloc, b: Alloc, orig: map<SSA, nat>, srcs: seq<seq<SSA>>, pred: Option<SSA>, regs: seq<nat>, s0: set<SSA>)
    requires Remapping(a, b, orig, srcs, regs, |srcs|, s0)
    ensures Remapped(a, b, orig, srcs, pred, regs, None, 0)
  {
  }

  lemma ScalarReady(a: Alloc, b: Alloc, orig: map<SSA, nat>, srcs: seq<seq<SSA>>, pred: Option<SSA>,
                    regs: seq<nat>, predReg: Option<nat>, n: nat, vec: seq<SSA>)
    requires Remapped(a, b, orig, srcs, pred, regs, predReg, n) && AllKnown(a, orig, vec) && |vec| == 1
    ensures Collectable(b, orig, vec) && PinnedUsed(b)
  {
    KnownKept(a, b, orig, vec);
    ScalarCollectable(b, orig, vec[0]);
    assert vec == [vec[0]];
  }

  lemma OneFull(a: Alloc, srcs: seq<seq<SSA>>, pred: Option<SSA>, s0: set<SSA>)
    requires PinnedUsed(a) && PinnedAmong(a, s0 + Operands(srcs, pred)) && Full(a, 1)
    ensures NoRoom(a.numRegs, srcs, pred, s0)
  {
    FullIsCrowded(a, 1, s0 + Operands(srcs, pred), s0 + Operands(srcs, pred));
  }

  lemma OperandPins(a: Alloc, b: Alloc, orig: map<SSA, nat>, srcs: seq<seq<SSA>>, pred: Option<SSA>, vec: seq<SSA>, reg: nat, s0: set<SSA>)
    requires vec in srcs || (pred.Some? && vec == [pred.value])
    requires |vec| > 0 && Collected(a, b, orig, vec, reg) && PinnedUsed(a) && PinnedAmong(a, s0 + Operands(srcs, pred))
    ensures PinnedAmong(b, s0 + Operands(srcs, pred))
  {
    CollectedPins(a, b, orig, vec, reg, s0 + Operands(srcs, pred));
    assert Elements(vec) <= Operands(srcs, pred);
  }

  lemma VectorsPinned(a: Alloc, b: Alloc, orig: map<SSA, nat>, srcs: seq<seq<SSA>>, pred: Option<SSA>, regs: seq<nat>, s0: set<SSA>)
    requires Remapping(a, b, orig, srcs, regs, |srcs|, s0)
    ensures PinnedAmong(b, s0 + Operands(srcs, pred))
  {
    VectorCompsAreOperands(srcs, pred, |srcs|);
    PinnedMore(b, s0 + VectorComps(srcs, |srcs|), s0 + Operands(srcs, pred));
  }

  lemma RemapScalarSkip(a: Alloc, b: Alloc, orig: map<SSA, nat>, srcs: seq<seq<SSA>>, pred: Option<SSA>,
                        regs: seq<nat>, predReg: Option<nat>, n: nat)
    requires Remapped(a, b, orig, srcs, pred, regs, predReg, n) && n < |srcs| && |srcs[n]| != 1
    ensures Remapped(a, b, orig, srcs, pred, regs, predReg, n + 1)
  {
  }

  /** All sources of one file: vectors, then the guard, then scalars.  With legal
      sources no pinned register is ever in the way: the one failure left is that
      the operands themselves, pinned one after the other, leave no aligned place. */
  method RemapSrcs(vra: VecRegAllocator, srcs: seq<seq<SSA>>, pred: Option<SSA>, ghost orig: map<SSA, nat>, ghost s0: set<SSA>)
    returns (regs: Option<seq<nat>>, predReg: Option<nat>)
    requires vra.Valid(orig) && PinnedUsed(vra.Now()) && Remappable(vra.Now(), orig, srcs, s0)
    requires pred.Some? ==> AllKnown(vra.Now(), orig, [pred.value])
    modifies vra, vra.ra
    ensures vra.Valid(orig)
    ensures regs.Some? ==> Remapped(old(vra.Now()), vra.Now(), orig, srcs, pred, regs.value, predReg, |srcs|)
    ensures regs.Some? ==> (predReg.Some? <==> pred.Some?)
    ensures regs.Some? ==> PinnedAmong(vra.Now(), s0 + Operands(srcs, pred))
    ensures regs.None? ==> NoRoom(vra.ra.numRegs, srcs, pred, s0)
    ensures Scalars(srcs) && old(Quiet(vra.Now())) ==> Quiet(vra.Now())
  {
    ghost var a := vra.Now();
    assert forall i :: 0 <= i < |srcs| ==> AllKnown(a, orig, srcs[i]);
    hide Scalars, Quiet, Sound, PinnedUsed, Remappable, Remapping, Remapped, Collectable, Collected, RegAllocator.Valid, AllKnown, NoRoom, PinnedAmong, Full, Operands;
    predReg := None;
    regs := RemapVectors(vra, srcs, pred, orig, s0);
    if regs.None? { return; }
    VectorsPinned(a, vra.Now(), orig, srcs, pred, regs.value, s0);
    var list := regs.value;
    RemapVectorsDone(a, vra.Now(), orig, srcs, pred, list, s0);
    if pred.Some? {
      ScalarReady(a, vra.Now(), orig, srcs, pred, list, None, 0, [pred.value]);
      ghost var b := vra.Now();
      predReg := vra.CollectVector([pred.value], orig);
      if predReg.None? {
        OneFull(b, srcs, pred, s0);
        return None, None;
      }
      OperandPins(b, vra.Now(), orig, srcs, pred, [pred.value], predReg.value, s0);
      RemapPred(a, b, vra.Now(), orig, srcs, pred.value, list, predReg.value);
    }
    regs := RemapScalars(vra, srcs, pred, list, predReg, a, orig, s0);
  }

  method RemapScalars(vra: VecRegAllocator, srcs: seq<seq<SSA>>, ghost pred: Option<SSA>, list0: seq<nat>,
                      ghost predReg: Option<nat>, ghost a: Alloc, ghost orig: map<SSA, nat>, ghost s0: set<SSA>)
    returns (regs: Option<seq<nat>>)
    requires vra.Valid(orig) && Remapped(a, vra.Now(), orig, srcs, pred, list0, predReg, 0)
    requires PinnedAmong(vra.Now(), s0 + Operands(srcs, pred))
    requires forall i :: 0 <= i < |srcs| ==> AllKnown(a, orig, srcs[i])
    modifies vra, vra.ra
    ensures vra.Valid(orig)
    ensures regs.Some? ==> Remapped(a, vra.Now(), orig, srcs, pred, regs.value, predReg, |srcs|)
    ensures regs.Some? ==> PinnedAmong(vra.Now(), s0 + Operands(srcs, pred))
    ensures regs.None? ==> NoRoom(vra.ra.numRegs, srcs, pred, s0)
    ensures old(Quiet(vra.Now())) ==> Quiet(vra.Now())
  {
    var list: seq<nat> := list0;
    assert |list| == |srcs|;
    ghost var start := vra.Now();
    hide Quiet, Sound, PinnedUsed, Remapped, Collectable, Collected, RegAllocator.Valid, AllKnown, PinnedAmong, NoRoom, Full, Operands;
    for i := 0 to |srcs|
      invariant vra.Valid(orig) && |list| == |srcs| && Remapped(a, vra.Now(), orig, srcs, pred, list, predReg, i)
      invariant PinnedAmong(vra.Now(), s0 + Operands(srcs, pred))
      invariant Quiet(start) ==> Quiet(vra.Now())
    {
      if |srcs[i]| == 1 {
        ScalarReady(a, vra.Now(), orig, srcs, pred, list, predReg, i, srcs[i]);
        ghost var b := vra.Now();
        var reg := vra.CollectVector(srcs[i], orig);
        if reg.None? {
          OneFull(b, srcs, pred, s0);
          return None;
        }
        OperandPins(b, vra.Now(), orig, srcs, pred, srcs[i], reg.value, s0);
        RemapScalar(a, b, vra.Now(), orig, srcs, pred, list, predReg, i, reg.value);
        list := list[i := reg.value];
      } else {
        RemapScalarSkip(a, vra.Now(), orig, srcs, pred, list, predReg, i);
      }
    }
    return Some(list);
  }

  lemma UsedAreValues(ra: RegAllocator)
    requires ra.Valid()
    ensures ra.used == ra.ssaReg.Values
  {
    forall r | r in ra.used
      ensures r in ra.ssaReg.Values
    {
      assert ra.regSsa[r].value in ra.ssaReg;
    }
  }
}
