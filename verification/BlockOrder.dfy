/** What a block means in a given order of its instructions, the dependencies the
    list scheduler records (`opt_instr_sched_postpass.rs`), and exactly when every
    order they allow means the same. */
module BlockOrder {
  import opened Wrappers
  import Finite

  type Reg = nat

  type Val = nat

  /** How an instruction acts on more than registers. */
  datatype Effect = Nothing | Memory | Barrier

  /** What a memory operation or a barrier did, for the rest of the world. */
  datatype Event = Event(id: nat, operands: seq<Val>)

  /** The guard as a register and the polarity that disables the instruction;
      `compute` is whatever the operation computes for each result. */
  datatype Instr = Instr(id: nat, guard: Option<Reg>, inverted: bool, srcs: seq<Reg>, dsts: seq<Reg>, effect: Effect,
                         compute: (seq<Val>, seq<Event>, Reg) -> Val)

  // ---------------------------------------------------------------------------
  // Running instructions
  // ---------------------------------------------------------------------------

  datatype State = State(regs: map<Reg, Val>, history: seq<Event>)

  function Get(regs: map<Reg, Val>, r: Reg): Val {
    if r in regs then regs[r] else 0
  }

  predicate Enabled(i: Instr, s: State) {
    i.guard.None? || ((Get(s.regs, i.guard.value) != 0) != i.inverted)
  }

  function Operands(srcs: seq<Reg>, regs: map<Reg, Val>): seq<Val> {
    seq(|srcs|, k requires 0 <= k < |srcs| => Get(regs, srcs[k]))
  }

  /** Results depend on the operands, and of a memory operation or barrier also on
      everything that happened to memory before. */
  function Results(i: Instr, s: State): map<Reg, Val> {
    var ops := Operands(i.srcs, s.regs);
    map r | r in i.dsts :: i.compute(ops, if i.effect.Nothing? then [] else s.history, r)
  }

  function Exec(i: Instr, s: State): State {
    if !Enabled(i, s) then s
    else State(s.regs + Results(i, s), if i.effect.Nothing? then s.history else s.history + [Event(i.id, Operands(i.srcs, s.regs))])
  }

  function Run(instrs: seq<Instr>, order: seq<nat>, s: State): State
    requires forall k :: 0 <= k < |order| ==> order[k] < |instrs|
  {
    if order == [] then s
    else Exec(instrs[order[|order| - 1]], Run(instrs, order[..|order| - 1], s))
  }

  // ---------------------------------------------------------------------------
  // Conflicts
  // ---------------------------------------------------------------------------

  predicate Reads(i: Instr, r: Reg) {
    r in i.srcs || i.guard == Some(r)
  }

  predicate Writes(i: Instr, r: Reg) {
    r in i.dsts
  }

  /** The instructions may not change places. */
  predicate Conflict(a: Instr, b: Instr) {
    || (exists r :: r in a.dsts && (Reads(b, r) || Writes(b, r)))
    || (exists r :: r in b.dsts && Reads(a, r))
    || (a.effect.Memory? && b.effect.Memory?)
    || a.effect.Barrier? || b.effect.Barrier?
  }

  lemma OperandsSame(srcs: seq<Reg>, regs: map<Reg, Val>, regs': map<Reg, Val>)
    requires forall k :: 0 <= k < |srcs| ==> Get(regs, srcs[k]) == Get(regs', srcs[k])
    ensures Operands(srcs, regs) == Operands(srcs, regs')
  {
  }

  /** What `b` does is the same before and after `a`. */
  lemma Unaffected(a: Instr, b: Instr, s: State)
    requires !Conflict(a, b)
    ensures Enabled(b, Exec(a, s)) == Enabled(b, s)
    ensures Operands(b.srcs, Exec(a, s).regs) == Operands(b.srcs, s.regs)
    ensures Results(b, Exec(a, s)) == Results(b, s)
  {
    var t := Exec(a, s);
    forall r | Reads(b, r)
      ensures Get(t.regs, r) == Get(s.regs, r)
    {
      assert r !in a.dsts;
    }
    forall k | 0 <= k < |b.srcs|
      ensures Get(s.regs, b.srcs[k]) == Get(t.regs, b.srcs[k])
    {
      assert Reads(b, b.srcs[k]);
    }
    OperandsSame(b.srcs, s.regs, t.regs);
    if b.guard.Some? { assert Reads(b, b.guard.value); }
    assert b.effect.Nothing? || t.history == s.history;
  }

  lemma Commute(a: Instr, b: Instr, s: State)
    requires !Conflict(a, b)
    ensures Exec(b, Exec(a, s)) == Exec(a, Exec(b, s))
  {
    ConflictSymmetric(a, b);
    Unaffected(a, b, s);
    Unaffected(b, a, s);
    var x, y := Exec(b, Exec(a, s)), Exec(a, Exec(b, s));
    var p, q := Results(a, s), Results(b, s);
    forall r | r in p.Keys
      ensures r !in q.Keys
    {
      assert Writes(a, r);
    }
    assert s.regs + p + q == s.regs + q + p;
  }

  lemma ConflictSymmetric(a: Instr, b: Instr)
    ensures Conflict(a, b) == Conflict(b, a)
  {
  }

  // ---------------------------------------------------------------------------
  // Orders
  // ---------------------------------------------------------------------------

  predicate Below(order: seq<nat>, n: nat) {
    forall k :: 0 <= k < |order| ==> order[k] < n
  }

  predicate NoRepeats(order: seq<nat>) {
    forall a, b :: 0 <= a < b < |order| ==> order[a] != order[b]
  }

  /** Conflicting instructions come in program order. */
  ghost predicate Keeps(instrs: seq<Instr>, order: seq<nat>)
    requires Below(order, |instrs|)
  {
    forall a, b :: 0 <= a < b < |order| && Conflict(instrs[order[a]], instrs[order[b]]) ==> order[a] < order[b]
  }

  lemma RunNext(instrs: seq<Instr>, order: seq<nat>, x: nat, s: State)
    requires Below(order, |instrs|) && x < |instrs|
    ensures Below(order + [x], |instrs|)
    ensures Run(instrs, order + [x], s) == Exec(instrs[x], Run(instrs, order, s))
  {
    assert (order + [x])[..|order|] == order;
  }

  /** An instruction that conflicts with nothing behind it may as well come last. */
  lemma {:induction false} MoveLast(instrs: seq<Instr>, front: seq<nat>, x: nat, back: seq<nat>, s: State)
    requires Below(front, |instrs|) && x < |instrs| && Below(back, |instrs|)
    requires forall k :: 0 <= k < |back| ==> !Conflict(instrs[x], instrs[back[k]])
    ensures Below(front + [x] + back, |instrs|) && Below(front + back + [x], |instrs|)
    ensures Run(instrs, front + [x] + back, s) == Run(instrs, front + back + [x], s)
  {
    if back == [] {
      assert front + [x] + back == front + back + [x];
    } else {
      var init, y := back[..|back| - 1], back[|back| - 1];
      MoveLast(instrs, front, x, init, s);
      assert front + [x] + back == (front + [x] + init) + [y];
      assert front + back + [x] == (front + init + [y]) + [x];
      RunNext(instrs, front + [x] + init, y, s);
      RunNext(instrs, front + init, x, s);
      RunNext(instrs, front + init, y, s);
      RunNext(instrs, front + init + [y], x, s);
      Commute(instrs[x], instrs[y], Run(instrs, front + init, s));
    }
  }

  lemma SplitAt(order: seq<nat>, x: nat) returns (front: seq<nat>, back: seq<nat>)
    requires x in order
    ensures order == front + [x] + back
  {
    var k :| 0 <= k < |order| && order[k] == x;
    front, back := order[..k], order[k + 1..];
  }

  /** Two orders of the same instructions that both keep conflicting ones apart in
      program order have the same effect. */
  lemma {:induction false} SameEffect(instrs: seq<Instr>, a: seq<nat>, b: seq<nat>, s: State)
    requires Below(a, |instrs|) && Below(b, |instrs|) && NoRepeats(a) && NoRepeats(b)
    requires |a| == |b| && forall x :: x in a ==> x in b
    requires Keeps(instrs, a) && Keeps(instrs, b)
    ensures Run(instrs, a, s) == Run(instrs, b, s)
    decreases |a|
  {
    if a != [] {
      hide Keeps, Conflict, NoRepeats;
      var init, x := a[..|a| - 1], a[|a| - 1];
      var front, back := SplitAt(b, x);
      var rest := front + back;
      NothingBehind(instrs, a, b, front, x, back);
      MoveLast(instrs, front, x, back, s);
      RestKeeps(instrs, a, b, front, x, back);
      SameEffect(instrs, init, rest, s);
      RunNext(instrs, init, x, s);
      RunNext(instrs, rest, x, s);
      assert a == init + [x];
    }
  }

  lemma NothingBehind(instrs: seq<Instr>, a: seq<nat>, b: seq<nat>, front: seq<nat>, x: nat, back: seq<nat>)
    requires Below(a, |instrs|) && Below(b, |instrs|) && NoRepeats(a) && NoRepeats(b)
    requires |a| == |b| > 0 && (forall x :: x in a ==> x in b) && a[|a| - 1] == x && b == front + [x] + back
    requires Keeps(instrs, a) && Keeps(instrs, b)
    ensures Below(front, |instrs|) && Below(back, |instrs|) && x < |instrs|
    ensures forall k :: 0 <= k < |back| ==> !Conflict(instrs[x], instrs[back[k]])
  {
    AllIn(a, b);
    forall k | 0 <= k < |front|
      ensures front[k] < |instrs|
    {
      assert b[k] == front[k];
    }
    forall k | 0 <= k < |back|
      ensures back[k] < |instrs| && !Conflict(instrs[x], instrs[back[k]])
    {
      var j := |front| + 1 + k;
      assert b[j] == back[k] && b[|front|] == x && b[j] in b;
      var i :| 0 <= i < |a| && a[i] == back[k];
      assert i < |a| - 1;
      ConflictSymmetric(instrs[x], instrs[back[k]]);
    }
  }

  /** Different members, as many: the same members. */
  lemma AllIn(a: seq<nat>, b: seq<nat>)
    requires NoRepeats(a) && NoRepeats(b) && |a| == |b| && forall x :: x in a ==> x in b
    ensures forall x :: x in b ==> x in a
  {
    CountMembers(a);
    CountMembers(b);
    Finite.SubsetSize(Members(a), Members(b));
    forall x | x in b
      ensures x in a
    {
      assert x in Members(b);
    }
  }

  function Members(a: seq<nat>): set<nat> {
    set x | x in a
  }

  lemma {:induction false} CountMembers(a: seq<nat>)
    requires NoRepeats(a)
    ensures |Members(a)| == |a|
  {
    if a != [] {
      var init, x := a[..|a| - 1], a[|a| - 1];
      CountMembers(init);
      assert Members(a) == Members(init) + {x};
      assert x !in init;
    }
  }

  lemma RestKeeps(instrs: seq<Instr>, a: seq<nat>, b: seq<nat>, front: seq<nat>, x: nat, back: seq<nat>)
    requires Below(a, |instrs|) && Below(b, |instrs|) && NoRepeats(a) && NoRepeats(b)
    requires |a| == |b| > 0 && (forall x :: x in a ==> x in b) && a[|a| - 1] == x && b == front + [x] + back
    requires Keeps(instrs, a) && Keeps(instrs, b)
    ensures Below(a[..|a| - 1], |instrs|) && Below(front + back, |instrs|)
    ensures NoRepeats(a[..|a| - 1]) && NoRepeats(front + back)
    ensures Keeps(instrs, a[..|a| - 1]) && Keeps(instrs, front + back)
    ensures forall y :: y in a[..|a| - 1] ==> y in front + back
  {
    var rest := front + back;
    forall k | 0 <= k < |rest|
      ensures rest[k] == b[if k < |front| then k else k + 1]
    {
    }
    forall y | y in a[..|a| - 1]
      ensures y in rest
    {
      var i :| 0 <= i < |a| - 1 && a[i] == y;
      assert y != x && y in b;
      var j :| 0 <= j < |b| && b[j] == y;
      assert j != |front|;
      assert rest[if j < |front| then j else j - 1] == y;
    }
  }

  // ---------------------------------------------------------------------------
  // Dependencies
  // ---------------------------------------------------------------------------

  /** The first instruction from `from` on that writes `r`. */
  function NextWrite(instrs: seq<Instr>, from: nat, r: Reg): (w: Option<nat>)
    requires from <= |instrs|
    ensures w.Some? ==> from <= w.value < |instrs| && Writes(instrs[w.value], r)
    decreases |instrs| - from
  {
    if from == |instrs| then None else if Writes(instrs[from], r) then Some(from) else NextWrite(instrs, from + 1, r)
  }

  lemma {:induction false} NextWriteFirst(instrs: seq<Instr>, from: nat, r: Reg, k: nat)
    requires from <= k < |instrs| && Writes(instrs[k], r)
    ensures NextWrite(instrs, from, r).Some? && NextWrite(instrs, from, r).value <= k
    decreases |instrs| - from
  {
    if !Writes(instrs[from], r) { NextWriteFirst(instrs, from + 1, r, k); }
  }

  /** `j` reads `r` before anything from `from` on has written it. */
  ghost predicate NearRead(instrs: seq<Instr>, from: nat, r: Reg, j: nat)
    requires from <= |instrs|
  {
    from <= j < |instrs| && Reads(instrs[j], r) && (NextWrite(instrs, from, r).Some? ==> j <= NextWrite(instrs, from, r).value)
  }

  /** The first instruction from `from` on with effect `e`. */
  function NextEffect(instrs: seq<Instr>, from: nat, e: Effect): (k: Option<nat>)
    requires from <= |instrs|
    ensures k.Some? ==> from <= k.value < |instrs| && instrs[k.value].effect == e
    decreases |instrs| - from
  {
    if from == |instrs| then None else if instrs[from].effect == e then Some(from) else NextEffect(instrs, from + 1, e)
  }

  lemma {:induction false} NextEffectFirst(instrs: seq<Instr>, from: nat, e: Effect, k: nat)
    requires from <= k < |instrs| && instrs[k].effect == e
    ensures NextEffect(instrs, from, e).Some? && NextEffect(instrs, from, e).value <= k
    decreases |instrs| - from
  {
    if instrs[from].effect != e { NextEffectFirst(instrs, from + 1, e, k); }
  }

  ghost predicate BarrierEdge(instrs: seq<Instr>, i: nat, j: nat)
    requires i < |instrs|
  {
    var next := NextEffect(instrs, i + 1, Barrier);
    || next == Some(j)
    || (instrs[i].effect.Barrier? && i < j < if next.Some? then next.value else |instrs|)
  }

  ghost predicate MemoryEdge(instrs: seq<Instr>, i: nat, j: nat)
    requires i < |instrs|
  {
    instrs[i].effect.Memory? && NextEffect(instrs, i + 1, Memory) == Some(j)
  }

  /** On a result of `i`: the next write, and the reads up to it. */
  ghost predicate ResultEdge(instrs: seq<Instr>, i: nat, r: Reg, j: nat)
    requires i < |instrs|
  {
    NextWrite(instrs, i + 1, r) == Some(j) || NearRead(instrs, i + 1, r, j)
  }

  /** On an operand of `i`: the next write. */
  ghost predicate OperandEdge(instrs: seq<Instr>, i: nat, r: Reg, j: nat)
    requires i < |instrs|
  {
    NextWrite(instrs, i + 1, r) == Some(j)
  }

  /** The edges the dependency graph has.  A guard is read, but a later write of it
      does not depend on the instruction it guards. */
  ghost predicate Depends(instrs: seq<Instr>, i: nat, j: nat)
    requires i < |instrs|
  {
    || BarrierEdge(instrs, i, j) || MemoryEdge(instrs, i, j)
    || (exists r :: r in instrs[i].dsts && ResultEdge(instrs, i, r, j))
    || (exists r :: r in instrs[i].srcs && OperandEdge(instrs, i, r, j))
  }

  lemma DependsForward(instrs: seq<Instr>, i: nat, j: nat)
    requires i < |instrs| && Depends(instrs, i, j)
    ensures i < j < |instrs| && Conflict(instrs[i], instrs[j])
  {
    if r :| r in instrs[i].dsts && ResultEdge(instrs, i, r, j) {
      assert Reads(instrs[j], r) || Writes(instrs[j], r);
    } else if r :| r in instrs[i].srcs && OperandEdge(instrs, i, r, j) {
      assert Reads(instrs[i], r) && r in instrs[j].dsts;
    }
  }

  /** One dependency after another leads from `i` to `j`. */
  ghost predicate Chain(instrs: seq<Instr>, i: nat, j: nat)
    requires i < |instrs|
    decreases |instrs| - i
  {
    Depends(instrs, i, j) || exists k :: i < k < |instrs| && Depends(instrs, i, k) && Chain(instrs, k, j)
  }

  /** Whatever writes a register that guards an earlier instruction is kept behind it
      by dependencies of other kinds. */
  ghost predicate GuardsOrdered(instrs: seq<Instr>) {
    forall i: nat, j: nat :: i < j < |instrs| && instrs[i].guard.Some? && instrs[i].guard.value in instrs[j].dsts ==> Chain(instrs, i, j)
  }

  /** `at` places instructions so that every dependency is respected. */
  ghost predicate Respects(instrs: seq<Instr>, at: seq<nat>) {
    |at| == |instrs| && forall i: nat, j: nat :: i < |instrs| && Depends(instrs, i, j) && j < |at| ==> at[i] < at[j]
  }

  lemma {:induction false} ChainForward(instrs: seq<Instr>, i: nat, j: nat)
    requires i < |instrs| && Chain(instrs, i, j)
    ensures i < j < |instrs|
    decreases |instrs| - i
  {
    if Depends(instrs, i, j) {
      DependsForward(instrs, i, j);
    } else {
      var k :| i < k < |instrs| && Depends(instrs, i, k) && Chain(instrs, k, j);
      ChainForward(instrs, k, j);
    }
  }

  lemma {:induction false} ChainOrdered(instrs: seq<Instr>, at: seq<nat>, i: nat, j: nat)
    requires Respects(instrs, at) && i < |instrs| && Chain(instrs, i, j) && j < |instrs|
    ensures at[i] < at[j]
    decreases |instrs| - i
  {
    if !Depends(instrs, i, j) {
      var k :| i < k < |instrs| && Depends(instrs, i, k) && Chain(instrs, k, j);
      ChainOrdered(instrs, at, k, j);
    }
  }

  lemma {:induction false} WriteChain(instrs: seq<Instr>, i: nat, j: nat, r: Reg)
    requires i < j < |instrs| && r in instrs[i].dsts && (Reads(instrs[j], r) || Writes(instrs[j], r))
    ensures Chain(instrs, i, j)
    decreases j - i
  {
    var next := NextWrite(instrs, i + 1, r);
    if Writes(instrs[j], r) { NextWriteFirst(instrs, i + 1, r, j); }
    if next.Some? && next.value < j {
      assert ResultEdge(instrs, i, r, next.value);
      WriteChain(instrs, next.value, j, r);
    } else {
      assert ResultEdge(instrs, i, r, j);
    }
  }

  lemma ReadChain(instrs: seq<Instr>, i: nat, j: nat, r: Reg)
    requires i < j < |instrs| && r in instrs[i].srcs && r in instrs[j].dsts
    ensures Chain(instrs, i, j)
  {
    NextWriteFirst(instrs, i + 1, r, j);
    var w := NextWrite(instrs, i + 1, r).value;
    assert OperandEdge(instrs, i, r, w);
    if w < j { WriteChain(instrs, w, j, r); }
  }

  lemma {:induction false} MemoryChain(instrs: seq<Instr>, i: nat, j: nat)
    requires i < j < |instrs| && instrs[i].effect.Memory? && instrs[j].effect.Memory?
    ensures Chain(instrs, i, j)
    decreases j - i
  {
    NextEffectFirst(instrs, i + 1, Memory, j);
    var m := NextEffect(instrs, i + 1, Memory).value;
    assert Depends(instrs, i, m);
    if m < j { MemoryChain(instrs, m, j); }
  }

  lemma {:induction false} BarrierChain(instrs: seq<Instr>, i: nat, j: nat)
    requires i < j < |instrs| && (instrs[i].effect.Barrier? || instrs[j].effect.Barrier?)
    ensures Chain(instrs, i, j)
    decreases j - i
  {
    if instrs[j].effect.Barrier? { NextEffectFirst(instrs, i + 1, Barrier, j); }
    var next := NextEffect(instrs, i + 1, Barrier);
    if next.Some? && next.value < j {
      assert Depends(instrs, i, next.value);
      BarrierChain(instrs, next.value, j);
    } else {
      assert Depends(instrs, i, j);
    }
  }

  /** The edges are few, but chains of them lead from everything to what conflicts
      with it later, guards being as they should. */
  lemma ConflictChain(instrs: seq<Instr>, i: nat, j: nat)
    requires GuardsOrdered(instrs) && i < j < |instrs| && Conflict(instrs[i], instrs[j])
    ensures Chain(instrs, i, j)
  {
    hide Depends, Chain;
    var a, b := instrs[i], instrs[j];
    if a.effect.Barrier? || b.effect.Barrier? {
      BarrierChain(instrs, i, j);
    } else if a.effect.Memory? && b.effect.Memory? {
      MemoryChain(instrs, i, j);
    } else if r :| r in a.dsts && (Reads(b, r) || Writes(b, r)) {
      WriteChain(instrs, i, j, r);
    } else {
      var r :| r in b.dsts && Reads(a, r);
      if r in a.srcs { ReadChain(instrs, i, j, r); }
    }
  }

  /** So respecting the edges orders every conflicting pair. */
  lemma ConflictOrdered(instrs: seq<Instr>, at: seq<nat>, i: nat, j: nat)
    requires GuardsOrdered(instrs) && Respects(instrs, at) && i < j < |instrs| && Conflict(instrs[i], instrs[j])
    ensures at[i] < at[j]
  {
    hide Respects, Depends, Conflict, GuardsOrdered;
    ConflictChain(instrs, i, j);
    ChainOrdered(instrs, at, i, j);
  }

  /** Respecting the edges is no more than keeping conflicting pairs in order: the
      scheduler is free to do everything else. */
  lemma KeepingRespects(instrs: seq<Instr>, at: seq<nat>)
    requires |at| == |instrs|
    requires forall i, j :: 0 <= i < j < |instrs| && Conflict(instrs[i], instrs[j]) ==> at[i] < at[j]
    ensures Respects(instrs, at)
  {
    forall i: nat, j: nat | i < |instrs| && Depends(instrs, i, j) && j < |at|
      ensures at[i] < at[j]
    {
      DependsForward(instrs, i, j);
    }
  }

  // ---------------------------------------------------------------------------
  // Any order the edges allow
  // ---------------------------------------------------------------------------

  /** All instructions, each once, and no edge leads backwards. */
  ghost predicate Topological(instrs: seq<Instr>, order: seq<nat>) {
    && |order| == |instrs| && Below(order, |instrs|) && NoRepeats(order)
    && forall a, b :: 0 <= a < b < |order| ==> !Depends(instrs, order[b], order[a])
  }

  lemma EveryIndex(order: seq<nat>, n: nat, x: nat)
    requires |order| == n && Below(order, n) && NoRepeats(order) && x < n
    ensures x in order
  {
    var all := seq(n, i => i);
    assert forall y: nat :: y in order ==> y < n;
    forall y | y in order
      ensures y in all
    {
      assert all[y] == y;
    }
    AllIn(order, all);
    assert all[x] == x;
  }

  ghost function PositionOf(order: seq<nat>, n: nat, x: nat): (p: nat)
    requires |order| == n && Below(order, n) && NoRepeats(order) && x < n
    ensures p < n && order[p] == x
  {
    EveryIndex(order, n, x);
    var p :| 0 <= p < |order| && order[p] == x;
    p
  }

  lemma TopologicalKeeps(instrs: seq<Instr>, order: seq<nat>)
    requires GuardsOrdered(instrs) && Topological(instrs, order)
    ensures Keeps(instrs, order)
  {
    var n := |instrs|;
    var at := seq(n, x requires 0 <= x < n => PositionOf(order, n, x));
    forall i: nat, j: nat | i < n && Depends(instrs, i, j) && j < n
      ensures at[i] < at[j]
    {
      DependsForward(instrs, i, j);
      assert order[at[i]] == i && order[at[j]] == j;
    }
    forall a, b | 0 <= a < b < n && Conflict(instrs[order[a]], instrs[order[b]])
      ensures order[a] < order[b]
    {
      SamePlace(order, at[order[a]], a);
      SamePlace(order, at[order[b]], b);
      ConflictSymmetric(instrs[order[a]], instrs[order[b]]);
      if order[b] < order[a] { ConflictOrdered(instrs, at, order[b], order[a]); }
    }
  }

  lemma SamePlace(order: seq<nat>, p: nat, q: nat)
    requires NoRepeats(order) && p < |order| && q < |order| && order[p] == order[q]
    ensures p == q
  {
  }

  function InOrder(n: nat): (order: seq<nat>)
    ensures |order| == n && forall i :: 0 <= i < n ==> order[i] == i
  {
    if n == 0 then [] else InOrder(n - 1) + [n - 1]
  }

  /** Scheduling preserves meaning: whatever order the edges allow, the block leaves
      the same registers and acts on memory and the rest of the world in the same
      sequence with the same operands. */
  lemma ScheduleSound(instrs: seq<Instr>, order: seq<nat>, s: State)
    requires GuardsOrdered(instrs) && Topological(instrs, order)
    ensures Run(instrs, order, s) == Run(instrs, InOrder(|instrs|), s)
  {
    var id := InOrder(|instrs|);
    TopologicalKeeps(instrs, order);
    forall x | x in order
      ensures x in id
    {
      assert id[x] == x;
    }
    SameEffect(instrs, order, id, s);
  }

  // ---------------------------------------------------------------------------
  // Exactly when every allowed order keeps conflicting pairs
  // ---------------------------------------------------------------------------

  /** The members of `s` below `n`, in program order. */
  function Those(n: nat, s: set<nat>): (o: seq<nat>) {
    if n == 0 then [] else Those(n - 1, s) + if n - 1 in s then [n - 1] else []
  }

  lemma {:induction false} ThoseAre(n: nat, s: set<nat>)
    ensures forall x :: x in Those(n, s) <==> x < n && x in s
    ensures forall a, b :: 0 <= a < b < |Those(n, s)| ==> Those(n, s)[a] < Those(n, s)[b]
  {
    if n > 0 {
      ThoseAre(n - 1, s);
      var init := Those(n - 1, s);
      forall k | 0 <= k < |init|
        ensures init[k] < n - 1
      {
        assert init[k] in init;
      }
    }
  }

  lemma {:induction false} ThoseCount(n: nat, s: set<nat>, t: set<nat>)
    requires forall x: nat :: x < n ==> (x in s <==> x !in t)
    ensures |Those(n, s)| + |Those(n, t)| == n
  {
    if n > 0 { ThoseCount(n - 1, s, t); }
  }

  /** `j` and everything a chain of dependencies keeps in front of it. */
  ghost function Ahead(instrs: seq<Instr>, j: nat): set<nat> {
    set k | 0 <= k < |instrs| && (k == j || Chain(instrs, k, j))
  }

  ghost function Behind(instrs: seq<Instr>, j: nat): set<nat> {
    set k | 0 <= k < |instrs| && k !in Ahead(instrs, j)
  }

  /** `j` as early as the dependencies let it be. */
  ghost function Hoisted(instrs: seq<Instr>, j: nat): seq<nat> {
    Those(|instrs|, Ahead(instrs, j)) + Those(|instrs|, Behind(instrs, j))
  }

  lemma AheadClosed(instrs: seq<Instr>, j: nat, x: nat, y: nat)
    requires x < |instrs| && y in Ahead(instrs, j) && Depends(instrs, x, y)
    ensures x in Ahead(instrs, j)
  {
    DependsForward(instrs, x, y);
  }

  lemma HoistedTopological(instrs: seq<Instr>, j: nat)
    requires j < |instrs|
    ensures Topological(instrs, Hoisted(instrs, j))
  {
    var n, first, last := |instrs|, Ahead(instrs, j), Behind(instrs, j);
    var front, back := Those(n, first), Those(n, last);
    ThoseAre(n, first);
    ThoseAre(n, last);
    ThoseCount(n, first, last);
    hide Depends, Those, Ahead;
    var order := Hoisted(instrs, j);
    assert order == front + back;
    forall a: nat, b: nat | a < b < n
      ensures order[a] < n && order[b] < n && order[a] != order[b] && !Depends(instrs, order[b], order[a])
    {
      assert a < |front| ==> order[a] == front[a] && order[a] in front;
      assert a >= |front| ==> order[a] == back[a - |front|] && order[a] in back;
      assert b < |front| ==> order[b] == front[b] && order[b] in front;
      assert b >= |front| ==> order[b] == back[b - |front|] && order[b] in back;
      if Depends(instrs, order[b], order[a]) {
        DependsForward(instrs, order[b], order[a]);
        AheadClosed(instrs, j, order[b], order[a]);
      }
    }
    assert forall k :: 0 <= k < n ==> order[k] < n by {
      forall k | 0 <= k < n
        ensures order[k] < n
      {
        assert k < |front| ==> order[k] == front[k] && order[k] in front;
        assert k >= |front| ==> order[k] == back[k - |front|] && order[k] in back;
      }
    }
  }

  /** Where no chain keeps the write of a guard back, an allowed order puts it before
      the instruction it guards. */
  lemma HoistedBreaks(instrs: seq<Instr>, i: nat, j: nat)
    requires i < j < |instrs| && instrs[i].guard.Some? && instrs[i].guard.value in instrs[j].dsts && !Chain(instrs, i, j)
    ensures Topological(instrs, Hoisted(instrs, j)) && !Keeps(instrs, Hoisted(instrs, j))
  {
    var n, order := |instrs|, Hoisted(instrs, j);
    HoistedTopological(instrs, j);
    ThoseAre(n, Ahead(instrs, j));
    ThoseAre(n, Behind(instrs, j));
    var front, back := Those(n, Ahead(instrs, j)), Those(n, Behind(instrs, j));
    assert j in front && i in back;
    var a :| 0 <= a < |front| && front[a] == j;
    var b :| 0 <= b < |back| && back[b] == i;
    assert order[a] == j && order[|front| + b] == i;
    assert Reads(instrs[i], instrs[i].guard.value);
  }

  /** Every order the edges allow keeps conflicting pairs in program order exactly
      when chains of edges order the guards. */
  lemma OrdersKeep(instrs: seq<Instr>)
    ensures (forall order :: Topological(instrs, order) ==> Keeps(instrs, order)) <==> GuardsOrdered(instrs)
  {
    hide Depends, NoRepeats, Keeps, Chain;
    if GuardsOrdered(instrs) {
      forall order | Topological(instrs, order)
        ensures Keeps(instrs, order)
      {
        TopologicalKeeps(instrs, order);
      }
    } else {
      var i: nat, j: nat :| i < j < |instrs| && instrs[i].guard.Some? && instrs[i].guard.value in instrs[j].dsts && !Chain(instrs, i, j);
      HoistedBreaks(instrs, i, j);
    }
  }

  // ---------------------------------------------------------------------------
  // What an instruction finds
  // ---------------------------------------------------------------------------

  /** The members of `a` inside `s`, or those outside, in the order of `a`. */
  function Pick(a: seq<nat>, s: set<nat>, inside: bool): (o: seq<nat>) {
    if a == [] then [] else Pick(a[..|a| - 1], s, inside) + if (a[|a| - 1] in s) == inside then [a[|a| - 1]] else []
  }

  lemma {:induction false} PickAre(a: seq<nat>, s: set<nat>, inside: bool)
    ensures forall x :: x in Pick(a, s, inside) <==> x in a && (x in s) == inside
  {
    if a != [] {
      var init, y := a[..|a| - 1], a[|a| - 1];
      PickAre(init, s, inside);
      assert a == init + [y];
    }
  }

  lemma AppendKeeps(instrs: seq<Instr>, o: seq<nat>, y: nat)
    requires Below(o, |instrs|) && NoRepeats(o) && Keeps(instrs, o) && y < |instrs|
    requires forall k :: 0 <= k < |o| ==> o[k] != y && (Conflict(instrs[o[k]], instrs[y]) ==> o[k] < y)
    ensures Below(o + [y], |instrs|) && NoRepeats(o + [y]) && Keeps(instrs, o + [y])
  {
    hide Conflict;
  }

  lemma InitKeeps(instrs: seq<Instr>, a: seq<nat>)
    requires a != [] && Below(a, |instrs|) && NoRepeats(a) && Keeps(instrs, a)
    ensures var init, y := a[..|a| - 1], a[|a| - 1];
            && Below(init, |instrs|) && NoRepeats(init) && Keeps(instrs, init)
            && forall x :: x in init ==> x < |instrs| && x != y && (Conflict(instrs[x], instrs[y]) ==> x < y)
  {
    hide Conflict;
    var init, y := a[..|a| - 1], a[|a| - 1];
    forall x | x in init
      ensures x < |instrs| && x != y && (Conflict(instrs[x], instrs[y]) ==> x < y)
    {
      var m :| 0 <= m < |init| && init[m] == x;
      assert a[m] == x;
    }
  }

  lemma {:induction false} PickKeeps(instrs: seq<Instr>, a: seq<nat>, s: set<nat>, inside: bool)
    requires Below(a, |instrs|) && NoRepeats(a) && Keeps(instrs, a)
    ensures var o := Pick(a, s, inside); Below(o, |instrs|) && NoRepeats(o) && Keeps(instrs, o)
  {
    if a != [] {
      var init, y := a[..|a| - 1], a[|a| - 1];
      assert a == init + [y];
      hide Conflict, Pick, NoRepeats, Keeps;
      InitKeeps(instrs, a);
      PickKeeps(instrs, init, s, inside);
      PickAre(init, s, inside);
      PickLast(init, y, s, inside);
      var o := Pick(init, s, inside);
      forall k | 0 <= k < |o|
        ensures o[k] != y && (o[k] < |instrs| && Conflict(instrs[o[k]], instrs[y]) ==> o[k] < y)
      {
        assert o[k] in o;
      }
      AppendKeeps(instrs, o, y);
      assert o + [] == o;
    } else {
      assert Pick(a, s, inside) == a;
    }
  }

  lemma PickBelow(a: seq<nat>, n: nat, s: set<nat>, inside: bool)
    requires Below(a, n)
    ensures Below(Pick(a, s, inside), n)
  {
    PickAre(a, s, inside);
    forall k | 0 <= k < |Pick(a, s, inside)|
      ensures Pick(a, s, inside)[k] < n
    {
      assert Pick(a, s, inside)[k] in a;
    }
  }

  lemma PickLast(init: seq<nat>, y: nat, s: set<nat>, inside: bool)
    ensures Pick(init + [y], s, inside) == Pick(init, s, inside) + if (y in s) == inside then [y] else []
  {
    assert (init + [y])[..|init|] == init;
  }

  lemma SiftNext(instrs: seq<Instr>, init: seq<nat>, y: nat, first: seq<nat>, last: seq<nat>, st: State)
    requires Below(init, |instrs|) && Below(first, |instrs|) && Below(last, |instrs|) && y < |instrs|
    requires Run(instrs, init, st) == Run(instrs, first + last, st)
    ensures Run(instrs, init + [y], st) == Run(instrs, first + (last + [y]), st)
    ensures (forall k :: 0 <= k < |last| ==> !Conflict(instrs[y], instrs[last[k]])) ==>
              Run(instrs, init + [y], st) == Run(instrs, first + [y] + last, st)
  {
    hide Conflict;
    RunNext(instrs, init, y, st);
    RunNext(instrs, first + last, y, st);
    assert first + last + [y] == first + (last + [y]);
    if forall k :: 0 <= k < |last| ==> !Conflict(instrs[y], instrs[last[k]]) { MoveLast(instrs, first, y, last, st); }
  }

  lemma NothingInTheWay(instrs: seq<Instr>, a: seq<nat>, s: set<nat>)
    requires a != [] && Below(a, |instrs|) && a[|a| - 1] in s
    requires forall p, q :: 0 <= p < q < |a| && a[p] !in s && a[q] in s ==> !Conflict(instrs[a[p]], instrs[a[q]])
    ensures var last := Pick(a[..|a| - 1], s, false);
            forall k :: 0 <= k < |last| ==> last[k] < |instrs| && !Conflict(instrs[a[|a| - 1]], instrs[last[k]])
  {
    var init, y := a[..|a| - 1], a[|a| - 1];
    var last := Pick(init, s, false);
    PickAre(init, s, false);
    forall k | 0 <= k < |last|
      ensures last[k] < |instrs| && !Conflict(instrs[y], instrs[last[k]])
    {
      assert last[k] in last;
      var m :| 0 <= m < |init| && init[m] == last[k];
      assert a[m] == last[k];
      ConflictSymmetric(instrs[last[k]], instrs[y]);
    }
  }

  /** If nothing outside `s` conflicts with what comes behind it inside, everything
      inside may as well come first. */
  lemma {:induction false} Sift(instrs: seq<Instr>, a: seq<nat>, s: set<nat>, st: State)
    requires Below(a, |instrs|)
    requires forall p, q :: 0 <= p < q < |a| && a[p] !in s && a[q] in s ==> !Conflict(instrs[a[p]], instrs[a[q]])
    ensures Below(Pick(a, s, true) + Pick(a, s, false), |instrs|)
    ensures Run(instrs, a, st) == Run(instrs, Pick(a, s, true) + Pick(a, s, false), st)
  {
    PickBelow(a, |instrs|, s, true);
    PickBelow(a, |instrs|, s, false);
    if a == [] {
      assert Pick(a, s, true) + Pick(a, s, false) == a;
    } else {
      var init, y := a[..|a| - 1], a[|a| - 1];
      assert a == init + [y];
      var first, last := Pick(init, s, true), Pick(init, s, false);
      if y in s { NothingInTheWay(instrs, a, s); }
      hide Conflict, Pick;
      Sift(instrs, init, s, st);
      PickBelow(init, |instrs|, s, true);
      PickBelow(init, |instrs|, s, false);
      PickLast(init, y, s, true);
      PickLast(init, y, s, false);
      SiftNext(instrs, init, y, first, last, st);
      assert first + [] == first && last + [] == last;
    }
  }

  lemma {:induction false} Unseen(instrs: seq<Instr>, front: seq<nat>, back: seq<nat>, x: nat, st: State)
    requires Below(front, |instrs|) && Below(back, |instrs|) && x < |instrs|
    requires forall k :: 0 <= k < |back| ==> !Conflict(instrs[back[k]], instrs[x])
    ensures Below(front + back, |instrs|)
    ensures Finds(instrs[x], Run(instrs, front + back, st), Run(instrs, front, st))
  {
    if back == [] {
      assert front + back == front;
    } else {
      var init, y := back[..|back| - 1], back[|back| - 1];
      Unseen(instrs, front, init, x, st);
      assert front + back == (front + init) + [y];
      RunNext(instrs, front + init, y, st);
      Unaffected(instrs[y], instrs[x], Run(instrs, front + init, st));
    }
  }

  /** In both states the instruction does the same. */
  ghost predicate Finds(i: Instr, s: State, t: State) {
    Enabled(i, s) == Enabled(i, t) && Operands(i.srcs, s.regs) == Operands(i.srcs, t.regs) && Results(i, s) == Results(i, t)
  }

  lemma SameMembers(a: seq<nat>, b: seq<nat>)
    requires NoRepeats(a) && NoRepeats(b) && forall x :: x in a <==> x in b
    ensures |a| == |b|
  {
    CountMembers(a);
    CountMembers(b);
    assert Members(a) == Members(b);
  }

  /** Before `x` the order has the same effect on it as just the earlier part of the
      program that comes before it. */
  lemma EarlierPart(instrs: seq<Instr>, order: seq<nat>, p: nat, st: State)
    requires |order| == |instrs| && Below(order, |instrs|) && NoRepeats(order) && Keeps(instrs, order) && p < |order|
    ensures var x, pre := order[p], order[..p];
            var low := Pick(pre, Members(InOrder(x)), true);
            Below(low, |instrs|) && Finds(instrs[x], Run(instrs, pre, st), Run(instrs, low, st))
  {
    var x, pre := order[p], order[..p];
    var s := Members(InOrder(x));
    assert forall y :: y in s <==> y < x by {
      forall y: nat | y < x
        ensures y in s
      {
        assert InOrder(x)[y] == y;
      }
    }
    var low, high := Pick(pre, s, true), Pick(pre, s, false);
    PickBelow(pre, |instrs|, s, true);
    PickBelow(pre, |instrs|, s, false);
    forall a, b | 0 <= a < b < |pre| && pre[a] !in s && pre[b] in s
      ensures !Conflict(instrs[pre[a]], instrs[pre[b]])
    {
      assert order[a] == pre[a] && order[b] == pre[b];
    }
    PickAre(pre, s, false);
    forall k | 0 <= k < |high|
      ensures !Conflict(instrs[high[k]], instrs[x])
    {
      assert high[k] in high;
      var m :| 0 <= m < |pre| && pre[m] == high[k];
      assert order[m] == high[k] && order[m] != x;
    }
    hide Conflict, Finds;
    Sift(instrs, pre, s, st);
    Unseen(instrs, low, high, x, st);
  }

  /** And so has the part of the program before `x`. */
  lemma ProgramPart(instrs: seq<Instr>, order: seq<nat>, p: nat, st: State)
    requires |order| == |instrs| && Below(order, |instrs|) && NoRepeats(order) && Keeps(instrs, order) && p < |order|
    ensures var x, pre := order[p], order[..p];
            var low := Pick(InOrder(x), Members(pre), true);
            Below(low, |instrs|) && Finds(instrs[x], Run(instrs, InOrder(x), st), Run(instrs, low, st))
  {
    var x, pre := order[p], order[..p];
    var s, prog := Members(pre), InOrder(x);
    var low, rest := Pick(prog, s, true), Pick(prog, s, false);
    PickBelow(prog, |instrs|, s, true);
    PickBelow(prog, |instrs|, s, false);
    forall a, b | 0 <= a < b < |prog| && prog[a] !in s && prog[b] in s
      ensures !Conflict(instrs[prog[a]], instrs[prog[b]])
    {
      OutsideLater(instrs, order, p, prog[a]);
      var m :| 0 <= m < |pre| && pre[m] == prog[b];
      var q :| p < q < |order| && order[q] == prog[a];
      assert order[m] == prog[b];
      ConflictSymmetric(instrs[prog[a]], instrs[prog[b]]);
    }
    PickAre(prog, s, false);
    forall k | 0 <= k < |rest|
      ensures !Conflict(instrs[rest[k]], instrs[x])
    {
      assert rest[k] in rest;
      var m :| 0 <= m < |prog| && prog[m] == rest[k];
      OutsideLater(instrs, order, p, rest[k]);
      var q :| p < q < |order| && order[q] == rest[k];
      ConflictSymmetric(instrs[rest[k]], instrs[x]);
    }
    hide Conflict, Finds;
    Sift(instrs, prog, s, st);
    Unseen(instrs, low, rest, x, st);
  }

  lemma OutsideLater(instrs: seq<Instr>, order: seq<nat>, p: nat, c: nat)
    requires |order| == |instrs| && Below(order, |instrs|) && NoRepeats(order) && p < |order| && c < |instrs| && c != order[p]
    requires c !in Members(order[..p])
    ensures exists q :: p < q < |order| && order[q] == c
  {
    EveryIndex(order, |instrs|, c);
    var q :| 0 <= q < |order| && order[q] == c;
    PrefixHas(order, p);
  }

  lemma PrefixHas(order: seq<nat>, p: nat)
    requires p <= |order|
    ensures forall q :: 0 <= q < p ==> order[q] in Members(order[..p])
  {
    forall q | 0 <= q < p
      ensures order[q] in Members(order[..p])
    {
      assert order[..p][q] == order[q];
    }
  }

  /** In an order that keeps conflicting pairs every instruction finds what it would
      have found in program order. */
  lemma FindsSame(instrs: seq<Instr>, order: seq<nat>, p: nat, st: State)
    requires |order| == |instrs| && Below(order, |instrs|) && NoRepeats(order) && Keeps(instrs, order) && p < |order|
    ensures Finds(instrs[order[p]], Run(instrs, order[..p], st), Run(instrs, InOrder(order[p]), st))
  {
    var x, pre := order[p], order[..p];
    var prog := InOrder(x);
    var a, b := Pick(pre, Members(prog), true), Pick(prog, Members(pre), true);
    EarlierPart(instrs, order, p, st);
    ProgramPart(instrs, order, p, st);
    PickKeeps(instrs, pre, Members(prog), true);
    PickKeeps(instrs, prog, Members(pre), true);
    PickAre(pre, Members(prog), true);
    PickAre(prog, Members(pre), true);
    hide Keeps, Pick, NoRepeats;
    SameMembers(a, b);
    SameEffect(instrs, a, b, st);
  }

  /** Where guards are ordered, every instruction of every allowed order is enabled
      when it would be in program order, and computes the same. */
  lemma GuardsKept(instrs: seq<Instr>, order: seq<nat>, p: nat, st: State)
    requires GuardsOrdered(instrs) && Topological(instrs, order) && p < |order|
    ensures Finds(instrs[order[p]], Run(instrs, order[..p], st), Run(instrs, InOrder(order[p]), st))
  {
    hide Depends, Keeps, Finds, GuardsOrdered;
    TopologicalKeeps(instrs, order);
    FindsSame(instrs, order, p, st);
  }

  // ---------------------------------------------------------------------------
  // What goes wrong otherwise
  // ---------------------------------------------------------------------------

  /** The same block but for what its operations compute. */
  ghost predicate Alike(a: seq<Instr>, b: seq<Instr>) {
    |a| == |b| && forall k :: 0 <= k < |a| ==> b[k] == a[k].(compute := b[k].compute)
  }

  lemma {:induction false} AlikeNext(a: seq<Instr>, b: seq<Instr>, from: nat, r: Reg, e: Effect)
    requires Alike(a, b) && from <= |a|
    ensures NextWrite(a, from, r) == NextWrite(b, from, r) && NextEffect(a, from, e) == NextEffect(b, from, e)
    decreases |a| - from
  {
    if from < |a| { AlikeNext(a, b, from + 1, r, e); }
  }

  lemma AlikeDepends(a: seq<Instr>, b: seq<Instr>, i: nat, j: nat)
    requires Alike(a, b) && i < |a|
    ensures Depends(a, i, j) == Depends(b, i, j)
  {
    AlikeNext(a, b, i + 1, 0, Barrier);
    AlikeNext(a, b, i + 1, 0, Memory);
    forall r: Reg
      ensures ResultEdge(a, i, r, j) == ResultEdge(b, i, r, j) && OperandEdge(a, i, r, j) == OperandEdge(b, i, r, j)
    {
      AlikeNext(a, b, i + 1, r, Memory);
    }
    hide ResultEdge, OperandEdge;
    assert BarrierEdge(a, i, j) == BarrierEdge(b, i, j) && MemoryEdge(a, i, j) == MemoryEdge(b, i, j);
  }

  lemma AlikeTopological(a: seq<Instr>, b: seq<Instr>, order: seq<nat>)
    requires Alike(a, b) && Topological(a, order)
    ensures Topological(b, order)
  {
    hide Depends;
    forall p, q | 0 <= p < q < |order|
      ensures !Depends(b, order[q], order[p])
    {
      AlikeDepends(a, b, order[q], order[p]);
    }
  }

  /** No later instruction writes `r` again. */
  ghost predicate Survives(instrs: seq<Instr>, i: nat, r: Reg)
    requires i < |instrs|
  {
    r in instrs[i].dsts && forall k :: i < k < |instrs| ==> r !in instrs[k].dsts
  }

  /** Instruction `i` acts on memory, or leaves a result. */
  ghost predicate Matters(instrs: seq<Instr>, i: nat)
    requires i < |instrs|
  {
    !instrs[i].effect.Nothing? || exists r :: Survives(instrs, i, r)
  }

  /** Ids tell the instructions of a block apart. */
  ghost predicate Named(instrs: seq<Instr>) {
    forall a, b :: 0 <= a < b < |instrs| ==> instrs[a].id != instrs[b].id
  }

  /** A value for every register with which `j` is enabled. */
  function Base(j: Instr, r: Reg): Val {
    if j.guard == Some(r) && !j.inverted then 1 else 0
  }

  function Flip(v: Val): Val { if v == 0 then 1 else 0 }

  /** Every operation writes these same values again, but for `j`, which turns the
      register `r` round, and for results of `i` that last. */
  ghost function Probe(instrs: seq<Instr>, i: nat, j: nat, r: Reg, k: nat, d: Reg): Val
    requires i < |instrs| && j < |instrs|
  {
    if k == j && d == r then Flip(Base(instrs[j], d))
    else if k == i && Survives(instrs, i, d) then Base(instrs[j], d) + 1
    else Base(instrs[j], d)
  }

  ghost function ProbeBlock(instrs: seq<Instr>, i: nat, j: nat, r: Reg): (b: seq<Instr>)
    requires i < |instrs| && j < |instrs|
    ensures Alike(instrs, b)
    ensures forall k :: 0 <= k < |b| ==> forall ops, h, d :: b[k].compute(ops, h, d) == Probe(instrs, i, j, r, k, d)
  {
    seq(|instrs|, k requires 0 <= k < |instrs| => instrs[k].(compute := (ops, h, d) => Probe(instrs, i, j, r, k, d)))
  }

  ghost function ProbeStart(j: Instr): State {
    State(if j.guard.Some? then map[j.guard.value := Base(j, j.guard.value)] else map[], [])
  }

  /** The registers hold the base values, `r` turned round or not. */
  ghost predicate Holds(j: Instr, s: State, r: Reg, turned: bool) {
    forall d: Reg :: Get(s.regs, d) == if turned && d == r then Flip(Base(j, d)) else Base(j, d)
  }

  lemma Executed(i: Instr, s: State, d: Reg)
    ensures Get(Exec(i, s).regs, d) ==
            if Enabled(i, s) && d in i.dsts then i.compute(Operands(i.srcs, s.regs), if i.effect.Nothing? then [] else s.history, d)
            else Get(s.regs, d)
  {
  }

  lemma StillHolds(instrs: seq<Instr>, i: nat, j: nat, r: Reg, k: nat, s: State, turned: bool)
    requires i < |instrs| && j < |instrs| && k < |instrs| && k != i && k != j && Holds(instrs[j], s, r, turned)
    requires turned ==> r !in instrs[k].dsts
    ensures Holds(instrs[j], Exec(ProbeBlock(instrs, i, j, r)[k], s), r, turned)
  {
    var b := ProbeBlock(instrs, i, j, r);
    forall d: Reg
      ensures Get(Exec(b[k], s).regs, d) == if turned && d == r then Flip(Base(instrs[j], d)) else Base(instrs[j], d)
    {
      Executed(b[k], s, d);
    }
  }

  lemma {:induction false} StillRun(instrs: seq<Instr>, i: nat, j: nat, r: Reg, front: seq<nat>, back: seq<nat>, s: State, turned: bool)
    requires i < |instrs| && j < |instrs| && Below(front, |instrs|) && Below(back, |instrs|)
    requires forall k :: 0 <= k < |back| ==> back[k] != i && back[k] != j && (turned ==> r !in instrs[back[k]].dsts)
    requires Holds(instrs[j], Run(ProbeBlock(instrs, i, j, r), front, s), r, turned)
    ensures Below(front + back, |instrs|) && Holds(instrs[j], Run(ProbeBlock(instrs, i, j, r), front + back, s), r, turned)
  {
    var b := ProbeBlock(instrs, i, j, r);
    if back == [] {
      assert front + back == front;
    } else {
      var init, y := back[..|back| - 1], back[|back| - 1];
      StillRun(instrs, i, j, r, front, init, s, turned);
      assert front + back == (front + init) + [y];
      RunNext(b, front + init, y, s);
      StillHolds(instrs, i, j, r, y, Run(b, front + init, s), turned);
    }
  }

  /** `j` is enabled on the base values and turns `r` round. */
  lemma Turns(instrs: seq<Instr>, i: nat, j: nat, r: Reg, s: State)
    requires i < j < |instrs| && r in instrs[j].dsts && Holds(instrs[j], s, r, false)
    ensures Holds(instrs[j], Exec(ProbeBlock(instrs, i, j, r)[j], s), r, true)
  {
    var b := ProbeBlock(instrs, i, j, r);
    if instrs[j].guard.Some? { assert Get(s.regs, instrs[j].guard.value) == Base(instrs[j], instrs[j].guard.value); }
    forall d: Reg
      ensures Get(Exec(b[j], s).regs, d) == if d == r then Flip(Base(instrs[j], d)) else Base(instrs[j], d)
    {
      Executed(b[j], s, d);
    }
  }

  /** Turning its guard round decides whether an instruction is enabled. */
  lemma TurnedDiffers(j: Instr, i: Instr, r: Reg, s: State, t: State)
    requires i.guard == Some(r) && Holds(j, s, r, false) && Holds(j, t, r, true)
    ensures Enabled(i, s) != Enabled(i, t)
  {
    assert Get(s.regs, r) == Base(j, r) && Get(t.regs, r) == Flip(Base(j, r));
  }

  lemma {:induction false} ThoseSplit(n: nat, s: set<nat>, x: nat) returns (tail: seq<nat>)
    requires x < n && x in s
    ensures Those(n, s) == Those(x, s) + [x] + tail && forall k :: 0 <= k < |tail| ==> x < tail[k] < n && tail[k] in s
  {
    if n == x + 1 {
      tail := [];
    } else {
      tail := ThoseSplit(n - 1, s, x);
      if n - 1 in s { tail := tail + [n - 1]; }
    }
  }

  lemma AllThose(n: nat, s: set<nat>)
    requires forall x: nat :: x < n ==> x in s
    ensures Those(n, s) == InOrder(n)
  {
    if n > 0 { AllThose(n - 1, s); }
  }

  /** In program order `i` finds the base values. */
  lemma ProgramFinds(instrs: seq<Instr>, i: nat, j: nat, r: Reg)
    requires i < j < |instrs|
    ensures Holds(instrs[j], Run(ProbeBlock(instrs, i, j, r), InOrder(i), ProbeStart(instrs[j])), r, false)
  {
    hide ProbeBlock;
    StillRun(instrs, i, j, r, [], InOrder(i), ProbeStart(instrs[j]), false);
    assert [] + InOrder(i) == InOrder(i);
  }

  /** The hoisted order, cut at `j` and at `i`. */
  lemma HoistedSplit(instrs: seq<Instr>, i: nat, j: nat) returns (tail: seq<nat>)
    requires i < j < |instrs| && !Chain(instrs, i, j)
    ensures Hoisted(instrs, j) == Those(j, Ahead(instrs, j)) + [j] + Those(i, Behind(instrs, j)) + [i] + tail
    ensures forall k :: 0 <= k < |tail| ==> i < tail[k] < |instrs|
  {
    var n, first, last := |instrs|, Ahead(instrs, j), Behind(instrs, j);
    hide Chain, Those;
    var none := ThoseSplit(n, first, j);
    if none != [] {
      assert none[0] in first;
      ChainForward(instrs, none[0], j);
    }
    tail := ThoseSplit(n, last, i);
    var a, b := Those(j, first) + [j], Those(i, last);
    assert a + (b + [i] + tail) == a + b + [i] + tail;
  }

  /** Hoisted in front of it, `j` has turned the guard of `i` round. */
  lemma HoistedFinds(instrs: seq<Instr>, i: nat, j: nat, r: Reg)
    requires i < j < |instrs| && r in instrs[j].dsts && !Chain(instrs, i, j)
    ensures var front := Those(j, Ahead(instrs, j)) + [j] + Those(i, Behind(instrs, j));
            Below(front, |instrs|) && Holds(instrs[j], Run(ProbeBlock(instrs, i, j, r), front, ProbeStart(instrs[j])), r, true)
  {
    var b, s := ProbeBlock(instrs, i, j, r), ProbeStart(instrs[j]);
    var first, rest := Those(j, Ahead(instrs, j)), Those(i, Behind(instrs, j));
    ThoseAre(j, Ahead(instrs, j));
    ThoseAre(i, Behind(instrs, j));
    forall k | 0 <= k < |first|
      ensures first[k] < j && first[k] != i
    {
      assert first[k] in first;
    }
    forall k | 0 <= k < |rest|
      ensures rest[k] < i && r !in instrs[rest[k]].dsts
    {
      assert rest[k] in rest;
      if r in instrs[rest[k]].dsts { WriteChain(instrs, rest[k], j, r); }
    }
    hide ProbeBlock, Chain, Holds, Those, Ahead;
    assert Holds(instrs[j], s, r, false) by { BaseHeld(instrs[j], r); }
    assert Run(b, [], s) == s;
    StillRun(instrs, i, j, r, [], first, s, false);
    assert [] + first == first;
    RunNext(b, first, j, s);
    Turns(instrs, i, j, r, Run(b, first, s));
    StillRun(instrs, i, j, r, first + [j], rest, s, true);
  }

  lemma BaseHeld(j: Instr, r: Reg)
    ensures Holds(j, ProbeStart(j), r, false)
  {
  }

  ghost predicate HasEvent(s: State, id: nat) {
    exists k :: 0 <= k < |s.history| && s.history[k].id == id
  }

  lemma EventNext(i: Instr, s: State, id: nat)
    ensures HasEvent(Exec(i, s), id) <==> HasEvent(s, id) || (i.id == id && Enabled(i, s) && !i.effect.Nothing?)
  {
    var t := Exec(i, s);
    if HasEvent(s, id) {
      var k :| 0 <= k < |s.history| && s.history[k].id == id;
      assert t.history[k] == s.history[k];
    }
    if i.id == id && Enabled(i, s) && !i.effect.Nothing? { assert t.history[|s.history|].id == id; }
  }

  /** Later instructions neither forget what happened nor undo what they do not write. */
  lemma {:induction false} TailKeeps(b: seq<Instr>, front: seq<nat>, tail: seq<nat>, id: nat, d: Reg, s: State)
    requires Below(front, |b|) && Below(tail, |b|) && forall k :: 0 <= k < |tail| ==> b[tail[k]].id != id
    ensures Below(front + tail, |b|)
    ensures HasEvent(Run(b, front + tail, s), id) <==> HasEvent(Run(b, front, s), id)
    ensures (forall k :: 0 <= k < |tail| ==> d !in b[tail[k]].dsts) ==> Get(Run(b, front + tail, s).regs, d) == Get(Run(b, front, s).regs, d)
  {
    if tail == [] {
      assert front + tail == front;
    } else {
      var init, y := tail[..|tail| - 1], tail[|tail| - 1];
      TailKeeps(b, front, init, id, d, s);
      assert front + tail == (front + init) + [y];
      RunNext(b, front + init, y, s);
      EventNext(b[y], Run(b, front + init, s), id);
      Executed(b[y], Run(b, front + init, s), d);
    }
  }

  /** Whether `i` was enabled shows in the end: by its event, or by a result that
      lasts. */
  lemma Shows(instrs: seq<Instr>, i: nat, j: nat, r: Reg, front: seq<nat>, tail: seq<nat>, turned: bool, d: Reg)
    requires Named(instrs) && i < j < |instrs| && Below(front, |instrs|) && (forall k :: 0 <= k < |front| ==> front[k] != i)
    requires r in instrs[j].dsts && forall k :: 0 <= k < |tail| ==> i < tail[k] < |instrs|
    requires Holds(instrs[j], Run(ProbeBlock(instrs, i, j, r), front, ProbeStart(instrs[j])), r, turned)
    ensures Below(front + [i] + tail, |instrs|)
    ensures var b, s := ProbeBlock(instrs, i, j, r), ProbeStart(instrs[j]);
            var on, final := Enabled(b[i], Run(b, front, s)), Run(b, front + [i] + tail, s);
            && (!instrs[i].effect.Nothing? ==> (HasEvent(final, instrs[i].id) <==> on))
            && (Survives(instrs, i, d) ==> Get(final.regs, d) == if on then Base(instrs[j], d) + 1 else Base(instrs[j], d))
  {
    var b, s, id := ProbeBlock(instrs, i, j, r), ProbeStart(instrs[j]), instrs[i].id;
    var before := Run(b, front, s);
    TailKeeps(b, [], front, id, d, s);
    assert [] + front == front && !HasEvent(s, id);
    assert Run(b, [], s) == s;
    RunNext(b, front, i, s);
    EventNext(b[i], before, id);
    Executed(b[i], before, d);
    if Survives(instrs, i, d) { assert d !in instrs[j].dsts && Get(before.regs, d) == Base(instrs[j], d); }
    hide HasEvent;
    TailKeeps(b, front + [i], tail, id, d, s);
  }

  lemma {:induction false} InOrderSplit(n: nat, i: nat) returns (tail: seq<nat>)
    requires i < n
    ensures InOrder(n) == InOrder(i) + [i] + tail && forall k :: 0 <= k < |tail| ==> i < tail[k] < n
  {
    if n == i + 1 {
      tail := [];
    } else {
      tail := InOrderSplit(n - 1, i);
      tail := tail + [n - 1];
    }
  }

  /** Where guards are not ordered, an allowed order, a meaning of the operations and
      a state make the difference: an instruction is enabled that would not be in
      program order, or the other way round; and if it acts on memory, or has a result
      that lasts, the block ends differently. */
  lemma GuardsBroken(instrs: seq<Instr>, i: nat, j: nat)
    returns (b: seq<Instr>, order: seq<nat>, p: nat, s: State)
    requires i < j < |instrs| && instrs[i].guard.Some? && instrs[i].guard.value in instrs[j].dsts && !Chain(instrs, i, j)
    ensures Alike(instrs, b) && Topological(b, order) && p < |order| && order[p] == i
    ensures Enabled(b[i], Run(b, order[..p], s)) != Enabled(b[i], Run(b, InOrder(i), s))
    ensures Named(instrs) && Matters(instrs, i) ==> Run(b, order, s) != Run(b, InOrder(|b|), s)
  {
    var r := instrs[i].guard.value;
    b, order, s := ProbeBlock(instrs, i, j, r), Hoisted(instrs, j), ProbeStart(instrs[j]);
    HoistedTopological(instrs, j);
    AlikeTopological(instrs, b, order);
    hide Chain, Depends, Holds, ProbeBlock, Those, Hoisted, NoRepeats, Run, Enabled, Survives, Named, HasEvent, Behind, Ahead;
    var tail := HoistedSplit(instrs, i, j);
    var front := Those(j, Ahead(instrs, j)) + [j] + Those(i, Behind(instrs, j));
    p := |front|;
    assert order == front + [i] + tail && order[..p] == front;
    HoistedFinds(instrs, i, j, r);
    ProgramFinds(instrs, i, j, r);
    TurnedDiffers(instrs[j], b[i], r, Run(b, InOrder(i), s), Run(b, front, s));
    if Named(instrs) && Matters(instrs, i) {
      hide Matters;
      NotAgain(instrs, order, front, i, tail);
      EndsDifferently(instrs, i, j, r, front, tail);
    }
  }

  lemma EndsDifferently(instrs: seq<Instr>, i: nat, j: nat, r: Reg, front: seq<nat>, tail: seq<nat>)
    requires i < j < |instrs| && Named(instrs) && Matters(instrs, i) && Below(front, |instrs|) && (forall k :: 0 <= k < |front| ==> front[k] != i)
    requires r in instrs[j].dsts && forall k :: 0 <= k < |tail| ==> i < tail[k] < |instrs|
    requires Holds(instrs[j], Run(ProbeBlock(instrs, i, j, r), front, ProbeStart(instrs[j])), r, true)
    requires var b, s := ProbeBlock(instrs, i, j, r), ProbeStart(instrs[j]);
             Enabled(b[i], Run(b, front, s)) != Enabled(b[i], Run(b, InOrder(i), s))
    ensures Below(front + [i] + tail, |instrs|)
    ensures var b, s := ProbeBlock(instrs, i, j, r), ProbeStart(instrs[j]);
            Run(b, front + [i] + tail, s) != Run(b, InOrder(|b|), s)
  {
    hide Holds, ProbeBlock, Run, Enabled, Survives, Named, HasEvent;
    var d := LastingResult(instrs, i);
    ProgramFinds(instrs, i, j, r);
    Shows(instrs, i, j, r, front, tail, true, d);
    var tail' := InOrderSplit(|instrs|, i);
    Shows(instrs, i, j, r, InOrder(i), tail', false, d);
  }

  lemma LastingResult(instrs: seq<Instr>, i: nat) returns (d: Reg)
    requires i < |instrs| && Matters(instrs, i)
    ensures !instrs[i].effect.Nothing? || Survives(instrs, i, d)
  {
    if instrs[i].effect.Nothing? { d :| Survives(instrs, i, d); } else { d := 0; }
  }

  lemma NotAgain(instrs: seq<Instr>, order: seq<nat>, front: seq<nat>, i: nat, tail: seq<nat>)
    requires Topological(instrs, order) && order == front + [i] + tail
    ensures forall k :: 0 <= k < |front| ==> front[k] != i
  {
    hide Depends;
    forall k | 0 <= k < |front|
      ensures front[k] != i
    {
      assert order[k] == front[k] && order[|front|] == i;
    }
  }

  function One(ops: seq<Val>, history: seq<Event>, r: Reg): Val {
    1
  }

  /** An instruction that register 7 guards, and one that sets register 7. */
  function GuardBlock(): seq<Instr> {
    [Instr(0, Some(7), false, [], [1], Nothing, One), Instr(1, None, false, [], [7], Nothing, One)]
  }

  lemma GuardHasNoEdge()
    ensures !Depends(GuardBlock(), 0, 1)
  {
    var instrs := GuardBlock();
    assert NextEffect(instrs, 1, Barrier) == None by { assert NextEffect(instrs, 2, Barrier) == None; }
    forall r | r in instrs[0].dsts
      ensures !ResultEdge(instrs, 0, r, 1)
    {
      assert NextWrite(instrs, 2, r) == None;
      assert NextWrite(instrs, 1, r) == None;
    }
  }

  lemma GuardRuns(s: State)
    requires s == State(map[], [])
    ensures var a, b := GuardBlock()[0], GuardBlock()[1]; Exec(a, Exec(b, s)) != Exec(b, Exec(a, s))
  {
    var a, b := GuardBlock()[0], GuardBlock()[1];
    assert !Enabled(a, s);
    var t := Exec(b, s);
    assert 7 in t.regs && t.regs[7] == One([], [], 7);
    assert Enabled(a, t);
    assert 1 in Exec(a, t).regs && 1 !in t.regs;
  }

  /** Without the condition it does not: nothing keeps the write of a guard behind
      the instruction it guards. */
  lemma GuardMayMove()
    ensures Topological(GuardBlock(), [1, 0])
    ensures Run(GuardBlock(), [1, 0], State(map[], [])) != Run(GuardBlock(), InOrder(2), State(map[], []))
  {
    GuardHasNoEdge();
    hide Depends, GuardBlock, Exec;
    assert |GuardBlock()| == 2 by { GuardSize(); }
    RunTwo(GuardBlock(), 0, 1, State(map[], []));
    RunTwo(GuardBlock(), 1, 0, State(map[], []));
    assert InOrder(2) == [0, 1];
    GuardRuns(State(map[], []));
  }

  lemma GuardSize()
    ensures |GuardBlock()| == 2
  {
  }

  lemma RunTwo(instrs: seq<Instr>, x: nat, y: nat, s: State)
    requires x < |instrs| && y < |instrs|
    ensures Run(instrs, [x, y], s) == Exec(instrs[y], Exec(instrs[x], s))
  {
    assert [x, y][..1] == [x] && [x][..0] == [];
    assert Run(instrs, [], s) == s;
    assert Run(instrs, [x], s) == Exec(instrs[x], s);
  }
}
