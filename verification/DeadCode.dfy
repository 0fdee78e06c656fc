/** Dead-code elimination (`opt_dce.rs`): the mark loop finds the least set of live
    values, and removing the rest changes nothing anybody can see. */
module DeadCode {

  type SSA = nat

  type Phi = nat

  type Val = nat

  /** An operand: the values it names, and what it makes of them. */
  datatype Src = Src(ssas: seq<SSA>, value: seq<Val> -> seq<Val>)

  datatype Guard = Always | Never | OnSsa(ssa: SSA, inverted: bool)

  datatype PhiSrc = PhiSrc(phi: Phi, src: Src)

  datatype PhiDst = PhiDst(phi: Phi, dst: seq<SSA>)

  datatype Copy = Copy(dst: seq<SSA>, src: Src)

  /** What was done, for all the world to see. */
  datatype Event = Event(id: nat, operands: seq<seq<Val>>)

  /** `compute` is whatever a plain operation computes from its operands and, if it
      reads memory, from what happened before; `canEliminate` says that it leaves no
      other trace. */
  datatype Op =
    | PhiSrcs(phiSrcs: seq<PhiSrc>)
    | PhiDsts(phiDsts: seq<PhiDst>)
    | ParCopy(copies: seq<Copy>)
    | Plain(id: nat, canEliminate: bool, srcs: seq<Src>, dsts: seq<seq<SSA>>,
            compute: (seq<seq<Val>>, seq<Event>) -> seq<seq<Val>>)

  /** Phis and parallel copies are never guarded: only a plain operation looks at its
      guard. */
  datatype Instr = Instr(guard: Guard, op: Op)

  type Block = seq<Instr>

  datatype Function = Function(blocks: seq<Block>)

  // ---------------------------------------------------------------------------
  // Running a function
  // ---------------------------------------------------------------------------

  datatype State = State(env: map<SSA, Val>, phis: map<Phi, seq<Val>>, history: seq<Event>)

  function Get(env: map<SSA, Val>, s: SSA): Val {
    if s in env then env[s] else 0
  }

  function EvalSrc(src: Src, env: map<SSA, Val>): seq<Val> {
    src.value(seq(|src.ssas|, k requires 0 <= k < |src.ssas| => Get(env, src.ssas[k])))
  }

  function EvalSrcs(srcs: seq<Src>, env: map<SSA, Val>): seq<seq<Val>> {
    seq(|srcs|, k requires 0 <= k < |srcs| => EvalSrc(srcs[k], env))
  }

  function Bind(env: map<SSA, Val>, dst: seq<SSA>, vals: seq<Val>): map<SSA, Val> {
    if dst == [] then env
    else
      var c := |dst| - 1;
      Bind(env, dst[..c], vals)[dst[c] := if c < |vals| then vals[c] else 0]
  }

  function BindAll(env: map<SSA, Val>, dsts: seq<seq<SSA>>, vals: seq<seq<Val>>): map<SSA, Val> {
    if dsts == [] then env
    else
      var d := |dsts| - 1;
      Bind(BindAll(env, dsts[..d], vals), dsts[d], if d < |vals| then vals[d] else [])
  }

  function GetPhi(phis: map<Phi, seq<Val>>, p: Phi): seq<Val> {
    if p in phis then phis[p] else []
  }

  /** All operands are read before anything is written. */
  function RunPhiSrcs(list: seq<PhiSrc>, env: map<SSA, Val>, phis: map<Phi, seq<Val>>): map<Phi, seq<Val>> {
    if list == [] then phis
    else
      var last := list[|list| - 1];
      RunPhiSrcs(list[..|list| - 1], env, phis)[last.phi := EvalSrc(last.src, env)]
  }

  function RunPhiDsts(list: seq<PhiDst>, env: map<SSA, Val>, phis: map<Phi, seq<Val>>): map<SSA, Val> {
    if list == [] then env
    else
      var last := list[|list| - 1];
      Bind(RunPhiDsts(list[..|list| - 1], env, phis), last.dst, GetPhi(phis, last.phi))
  }

  function RunCopies(list: seq<Copy>, before: map<SSA, Val>, env: map<SSA, Val>): map<SSA, Val> {
    if list == [] then env
    else
      var last := list[|list| - 1];
      Bind(RunCopies(list[..|list| - 1], before, env), last.dst, EvalSrc(last.src, before))
  }

  predicate Enabled(g: Guard, env: map<SSA, Val>) {
    match g
    case Always => true
    case Never => false
    case OnSsa(s, inverted) => (Get(env, s) != 0) != inverted
  }

  function Exec(i: Instr, s: State): State {
    match i.op
    case PhiSrcs(list) => s.(phis := RunPhiSrcs(list, s.env, s.phis))
    case PhiDsts(list) => s.(env := RunPhiDsts(list, s.env, s.phis))
    case ParCopy(list) => s.(env := RunCopies(list, s.env, s.env))
    case Plain(id, canEliminate, srcs, dsts, compute) =>
      if !Enabled(i.guard, s.env) then s
      else
        var ops := EvalSrcs(srcs, s.env);
        State(BindAll(s.env, dsts, compute(ops, s.history)), s.phis,
              if canEliminate then s.history else s.history + [Event(id, ops)])
  }

  function ExecBlock(b: Block, s: State): State {
    if b == [] then s else Exec(b[|b| - 1], ExecBlock(b[..|b| - 1], s))
  }

  /** Branches, exits and the like are operations that cannot be eliminated, so where
      control goes is decided by the history. */
  type Flow = (nat, seq<Event>) -> nat

  datatype Config = Config(block: nat, state: State)

  /** The state and the block to come after `n` blocks. */
  function RunBlocks(f: Function, flow: Flow, n: nat, s: State): Config {
    if n == 0 then Config(0, s)
    else
      var c := RunBlocks(f, flow, n - 1, s);
      if c.block >= |f.blocks| then c
      else
        var t := ExecBlock(f.blocks[c.block], c.state);
        Config(flow(c.block, t.history), t)
  }

  // ---------------------------------------------------------------------------
  // Liveness
  // ---------------------------------------------------------------------------

  predicate DstLive(dst: seq<SSA>, live: set<SSA>) {
    exists s :: s in dst && s in live
  }

  predicate InstrLive(i: Instr, live: set<SSA>)
    requires i.op.Plain?
  {
    i.guard != Never && (!i.op.canEliminate || exists d :: 0 <= d < |i.op.dsts| && DstLive(i.op.dsts[d], live))
  }

  predicate SrcIn(src: Src, live: set<SSA>) {
    forall s :: s in src.ssas ==> s in live
  }

  /** What is live needs what it reads. */
  predicate ClosedInstr(i: Instr, live: set<SSA>, phis: set<Phi>) {
    match i.op
    case PhiSrcs(list) => forall k :: 0 <= k < |list| && list[k].phi in phis ==> SrcIn(list[k].src, live)
    case PhiDsts(list) => forall k :: 0 <= k < |list| && DstLive(list[k].dst, live) ==> list[k].phi in phis
    case ParCopy(list) => forall k :: 0 <= k < |list| && DstLive(list[k].dst, live) ==> SrcIn(list[k].src, live)
    case Plain(_, _, srcs, _, _) =>
      InstrLive(i, live) ==>
        && (i.guard.OnSsa? ==> i.guard.ssa in live)
        && forall k :: 0 <= k < |srcs| ==> SrcIn(srcs[k], live)
  }

  ghost predicate ClosedBlock(b: Block, live: set<SSA>, phis: set<Phi>) {
    forall k :: 0 <= k < |b| ==> ClosedInstr(b[k], live, phis)
  }

  ghost predicate Closed(f: Function, live: set<SSA>, phis: set<Phi>) {
    forall b :: 0 <= b < |f.blocks| ==> ClosedBlock(f.blocks[b], live, phis)
  }

  // ---------------------------------------------------------------------------
  // Removal
  // ---------------------------------------------------------------------------

  function KeepPhiSrcs(list: seq<PhiSrc>, phis: set<Phi>): seq<PhiSrc> {
    if list == [] then []
    else
      var last := list[|list| - 1];
      KeepPhiSrcs(list[..|list| - 1], phis) + if last.phi in phis then [last] else []
  }

  function KeepPhiDsts(list: seq<PhiDst>, live: set<SSA>): seq<PhiDst> {
    if list == [] then []
    else
      var last := list[|list| - 1];
      KeepPhiDsts(list[..|list| - 1], live) + if DstLive(last.dst, live) then [last] else []
  }

  function KeepCopies(list: seq<Copy>, live: set<SSA>): seq<Copy> {
    if list == [] then []
    else
      var last := list[|list| - 1];
      KeepCopies(list[..|list| - 1], live) + if DstLive(last.dst, live) then [last] else []
  }

  /** The instruction without its dead parts, or nothing. */
  function MapInstr(i: Instr, live: set<SSA>, phis: set<Phi>): Block {
    match i.op
    case PhiSrcs(list) =>
      var kept := KeepPhiSrcs(list, phis);
      if kept == [] then [] else [i.(op := PhiSrcs(kept))]
    case PhiDsts(list) =>
      var kept := KeepPhiDsts(list, live);
      if kept == [] then [] else [i.(op := PhiDsts(kept))]
    case ParCopy(list) =>
      var kept := KeepCopies(list, live);
      if kept == [] then [] else [i.(op := ParCopy(kept))]
    case Plain(_, _, _, _, _) =>
      if InstrLive(i, live) then [i] else []
  }

  function MapBlock(b: Block, live: set<SSA>, phis: set<Phi>): Block {
    if b == [] then [] else MapBlock(b[..|b| - 1], live, phis) + MapInstr(b[|b| - 1], live, phis)
  }

  function MapFunction(f: Function, live: set<SSA>, phis: set<Phi>): Function {
    Function(seq(|f.blocks|, b requires 0 <= b < |f.blocks| => MapBlock(f.blocks[b], live, phis)))
  }

  // ---------------------------------------------------------------------------
  // Why it is safe
  // ---------------------------------------------------------------------------

  ghost predicate SameEnv(a: map<SSA, Val>, b: map<SSA, Val>, live: set<SSA>) {
    forall s :: s in live ==> Get(a, s) == Get(b, s)
  }

  ghost predicate SamePhis(a: map<Phi, seq<Val>>, b: map<Phi, seq<Val>>, phis: set<Phi>) {
    forall p :: p in phis ==> GetPhi(a, p) == GetPhi(b, p)
  }

  /** The two runs agree on what is live and on everything that was done. */
  ghost predicate Agree(s: State, t: State, live: set<SSA>, phis: set<Phi>) {
    SameEnv(s.env, t.env, live) && SamePhis(s.phis, t.phis, phis) && s.history == t.history
  }

  lemma EvalSame(src: Src, a: map<SSA, Val>, b: map<SSA, Val>, live: set<SSA>)
    requires SameEnv(a, b, live) && SrcIn(src, live)
    ensures EvalSrc(src, a) == EvalSrc(src, b)
  {
    var x := seq(|src.ssas|, k requires 0 <= k < |src.ssas| => Get(a, src.ssas[k]));
    var y := seq(|src.ssas|, k requires 0 <= k < |src.ssas| => Get(b, src.ssas[k]));
    forall k | 0 <= k < |src.ssas|
      ensures x[k] == y[k]
    {
      assert src.ssas[k] in src.ssas;
    }
    assert x == y;
  }

  lemma {:induction false} BindSame(a: map<SSA, Val>, b: map<SSA, Val>, dst: seq<SSA>, vals: seq<Val>, live: set<SSA>)
    requires SameEnv(a, b, live)
    ensures SameEnv(Bind(a, dst, vals), Bind(b, dst, vals), live)
  {
    if dst != [] { BindSame(a, b, dst[..|dst| - 1], vals, live); }
  }

  lemma {:induction false} BindDead(a: map<SSA, Val>, b: map<SSA, Val>, dst: seq<SSA>, vals: seq<Val>, live: set<SSA>)
    requires SameEnv(a, b, live) && !DstLive(dst, live)
    ensures SameEnv(Bind(a, dst, vals), b, live)
  {
    if dst != [] {
      var c := |dst| - 1;
      assert dst[c] in dst;
      forall s | s in dst[..c]
        ensures s !in live
      {
        assert s in dst;
      }
      BindDead(a, b, dst[..c], vals, live);
    }
  }

  lemma {:induction false} BindAllSame(a: map<SSA, Val>, b: map<SSA, Val>, dsts: seq<seq<SSA>>, vals: seq<seq<Val>>, live: set<SSA>)
    requires SameEnv(a, b, live)
    ensures SameEnv(BindAll(a, dsts, vals), BindAll(b, dsts, vals), live)
  {
    if dsts != [] {
      var d := |dsts| - 1;
      BindAllSame(a, b, dsts[..d], vals, live);
      BindSame(BindAll(a, dsts[..d], vals), BindAll(b, dsts[..d], vals), dsts[d], if d < |vals| then vals[d] else [], live);
    }
  }

  lemma {:induction false} BindAllDead(a: map<SSA, Val>, b: map<SSA, Val>, dsts: seq<seq<SSA>>, vals: seq<seq<Val>>, live: set<SSA>)
    requires SameEnv(a, b, live) && forall d :: 0 <= d < |dsts| ==> !DstLive(dsts[d], live)
    ensures SameEnv(BindAll(a, dsts, vals), b, live)
  {
    if dsts != [] {
      var d := |dsts| - 1;
      BindAllDead(a, b, dsts[..d], vals, live);
      BindDead(BindAll(a, dsts[..d], vals), b, dsts[d], if d < |vals| then vals[d] else [], live);
    }
  }

  lemma PhiStep(p: map<Phi, seq<Val>>, q: map<Phi, seq<Val>>, phis: set<Phi>, x: Phi, v: seq<Val>)
    requires SamePhis(p, q, phis)
    ensures SamePhis(p[x := v], q[x := v], phis)
    ensures x !in phis ==> SamePhis(p[x := v], q, phis)
  {
  }

  lemma {:induction false} PhiSrcsAgree(list: seq<PhiSrc>, a: map<SSA, Val>, b: map<SSA, Val>, p: map<Phi, seq<Val>>, q: map<Phi, seq<Val>>,
                                        live: set<SSA>, phis: set<Phi>)
    requires SameEnv(a, b, live) && SamePhis(p, q, phis)
    requires forall k :: 0 <= k < |list| && list[k].phi in phis ==> SrcIn(list[k].src, live)
    ensures SamePhis(RunPhiSrcs(list, a, p), RunPhiSrcs(KeepPhiSrcs(list, phis), b, q), phis)
  {
    hide SameEnv, SamePhis, SrcIn, EvalSrc;
    if list != [] {
      var init, last := list[..|list| - 1], list[|list| - 1];
      PhiSrcsAgree(init, a, b, p, q, live, phis);
      PhiStep(RunPhiSrcs(init, a, p), RunPhiSrcs(KeepPhiSrcs(init, phis), b, q), phis, last.phi, EvalSrc(last.src, a));
      if last.phi in phis {
        EvalSame(last.src, a, b, live);
        var kept := KeepPhiSrcs(list, phis);
        assert kept[..|kept| - 1] == KeepPhiSrcs(init, phis);
      } else {
        assert KeepPhiSrcs(list, phis) == KeepPhiSrcs(init, phis);
      }
    }
  }

  lemma {:induction false} PhiDstsAgree(list: seq<PhiDst>, a: map<SSA, Val>, b: map<SSA, Val>, p: map<Phi, seq<Val>>, q: map<Phi, seq<Val>>,
                                        live: set<SSA>, phis: set<Phi>)
    requires SameEnv(a, b, live) && SamePhis(p, q, phis)
    requires forall k :: 0 <= k < |list| && DstLive(list[k].dst, live) ==> list[k].phi in phis
    ensures SameEnv(RunPhiDsts(list, a, p), RunPhiDsts(KeepPhiDsts(list, live), b, q), live)
  {
    if list != [] {
      var init, last := list[..|list| - 1], list[|list| - 1];
      PhiDstsAgree(init, a, b, p, q, live, phis);
      if DstLive(last.dst, live) {
        var kept := KeepPhiDsts(list, live);
        assert kept[..|kept| - 1] == KeepPhiDsts(init, live);
        BindSame(RunPhiDsts(init, a, p), RunPhiDsts(KeepPhiDsts(init, live), b, q), last.dst, GetPhi(p, last.phi), live);
      } else {
        assert KeepPhiDsts(list, live) == KeepPhiDsts(init, live);
        BindDead(RunPhiDsts(init, a, p), RunPhiDsts(KeepPhiDsts(init, live), b, q), last.dst, GetPhi(p, last.phi), live);
      }
    }
  }

  lemma {:induction false} CopiesAgree(list: seq<Copy>, a: map<SSA, Val>, b: map<SSA, Val>, live: set<SSA>)
    requires SameEnv(a, b, live)
    requires forall k :: 0 <= k < |list| && DstLive(list[k].dst, live) ==> SrcIn(list[k].src, live)
    ensures SameEnv(RunCopies(list, a, a), RunCopies(KeepCopies(list, live), b, b), live)
  {
    if list != [] {
      var init, last := list[..|list| - 1], list[|list| - 1];
      CopiesAgree(init, a, b, live);
      if DstLive(last.dst, live) {
        EvalSame(last.src, a, b, live);
        var kept := KeepCopies(list, live);
        assert kept[..|kept| - 1] == KeepCopies(init, live);
        BindSame(RunCopies(init, a, a), RunCopies(KeepCopies(init, live), b, b), last.dst, EvalSrc(last.src, a), live);
      } else {
        assert KeepCopies(list, live) == KeepCopies(init, live);
        BindDead(RunCopies(init, a, a), RunCopies(KeepCopies(init, live), b, b), last.dst, EvalSrc(last.src, a), live);
      }
    }
  }

  lemma PlainAgrees(i: Instr, s: State, t: State, live: set<SSA>, phis: set<Phi>)
    requires i.op.Plain? && ClosedInstr(i, live, phis) && Agree(s, t, live, phis)
    ensures Agree(Exec(i, s), if InstrLive(i, live) then Exec(i, t) else t, live, phis)
  {
    var op := i.op;
    if InstrLive(i, live) {
      forall k | 0 <= k < |op.srcs|
        ensures EvalSrc(op.srcs[k], s.env) == EvalSrc(op.srcs[k], t.env)
      {
        EvalSame(op.srcs[k], s.env, t.env, live);
      }
      assert EvalSrcs(op.srcs, s.env) == EvalSrcs(op.srcs, t.env);
      BindAllSame(s.env, t.env, op.dsts, op.compute(EvalSrcs(op.srcs, s.env), s.history), live);
    } else if i.guard != Never {
      BindAllDead(s.env, t.env, op.dsts, op.compute(EvalSrcs(op.srcs, s.env), s.history), live);
    }
  }

  lemma OneInstr(b: Block, s: State)
    ensures |b| == 1 ==> ExecBlock(b, s) == Exec(b[0], s)
    ensures b == [] ==> ExecBlock(b, s) == s
  {
    if |b| == 1 { assert b[..0] == []; }
  }

  lemma InstrAgrees(i: Instr, s: State, t: State, live: set<SSA>, phis: set<Phi>)
    requires ClosedInstr(i, live, phis) && Agree(s, t, live, phis)
    ensures Agree(Exec(i, s), ExecBlock(MapInstr(i, live, phis), t), live, phis)
  {
    OneInstr(MapInstr(i, live, phis), t);
    match i.op {
      case PhiSrcs(list) => PhiSrcsAgree(list, s.env, t.env, s.phis, t.phis, live, phis);
      case PhiDsts(list) => PhiDstsAgree(list, s.env, t.env, s.phis, t.phis, live, phis);
      case ParCopy(list) => CopiesAgree(list, s.env, t.env, live);
      case Plain(_, _, _, _, _) => PlainAgrees(i, s, t, live, phis);
    }
  }

  lemma {:induction false} ExecAppend(a: Block, b: Block, s: State)
    ensures ExecBlock(a + b, s) == ExecBlock(b, ExecBlock(a, s))
  {
    if b == [] {
      assert a + b == a;
    } else {
      assert (a + b)[..|a + b| - 1] == a + b[..|b| - 1];
      ExecAppend(a, b[..|b| - 1], s);
    }
  }

  lemma {:induction false} BlockAgrees(b: Block, s: State, t: State, live: set<SSA>, phis: set<Phi>)
    requires ClosedBlock(b, live, phis) && Agree(s, t, live, phis)
    ensures Agree(ExecBlock(b, s), ExecBlock(MapBlock(b, live, phis), t), live, phis)
  {
    if b != [] {
      var init, last := b[..|b| - 1], b[|b| - 1];
      BlockAgrees(init, s, t, live, phis);
      InstrAgrees(last, ExecBlock(init, s), ExecBlock(MapBlock(init, live, phis), t), live, phis);
      ExecAppend(MapBlock(init, live, phis), MapInstr(last, live, phis), t);
    }
  }

  /** For every closed live set, every control flow and any number of blocks: removing
      what is dead leaves the path, the sequence of visible operations with their
      operands, and the value of everything live as they were. */
  lemma {:induction false} RunAgrees(f: Function, flow: Flow, n: nat, s: State, live: set<SSA>, phis: set<Phi>)
    requires Closed(f, live, phis)
    ensures var a, b := RunBlocks(f, flow, n, s), RunBlocks(MapFunction(f, live, phis), flow, n, s);
            a.block == b.block && Agree(a.state, b.state, live, phis)
  {
    if n > 0 {
      RunAgrees(f, flow, n - 1, s, live, phis);
      var a, b := RunBlocks(f, flow, n - 1, s), RunBlocks(MapFunction(f, live, phis), flow, n - 1, s);
      if a.block < |f.blocks| {
        BlockAgrees(f.blocks[a.block], a.state, b.state, live, phis);
      }
    }
  }

  // ---------------------------------------------------------------------------
  // The mark loop
  // ---------------------------------------------------------------------------

  /** Nothing of the instruction is dead. */
  predicate AllLive(i: Instr, live: set<SSA>, phis: set<Phi>) {
    match i.op
    case PhiSrcs(list) => forall k :: 0 <= k < |list| ==> list[k].phi in phis
    case PhiDsts(list) => forall k :: 0 <= k < |list| ==> DstLive(list[k].dst, live)
    case ParCopy(list) => forall k :: 0 <= k < |list| ==> DstLive(list[k].dst, live)
    case Plain(_, _, _, _, _) => InstrLive(i, live)
  }

  /** The values a function names. */
  function SrcSsas(src: Src): set<SSA> {
    set s | s in src.ssas
  }

  class DeadCodePass {
    var anyDead: bool
    var newLive: bool
    var liveSsa: set<SSA>
    var livePhi: set<Phi>

    constructor ()
      ensures !anyDead && !newLive && liveSsa == {} && livePhi == {}
    {
      anyDead, newLive, liveSsa, livePhi := false, false, {}, {};
    }

    method MarkSsaLive(ssa: SSA)
      modifies this`newLive, this`liveSsa
      ensures liveSsa == old(liveSsa) + {ssa} && newLive == (old(newLive) || ssa !in old(liveSsa))
    {
      newLive := newLive || ssa !in liveSsa;
      liveSsa := liveSsa + {ssa};
    }

    method MarkSrcLive(src: Src)
      modifies this`newLive, this`liveSsa
      ensures liveSsa == old(liveSsa) + SrcSsas(src) && newLive == (old(newLive) || !(SrcSsas(src) <= old(liveSsa)))
    {
      for k := 0 to |src.ssas|
        invariant liveSsa == old(liveSsa) + (set s | s in src.ssas[..k])
        invariant newLive == (old(newLive) || exists s :: s in src.ssas[..k] && s !in old(liveSsa))
      {
        assert src.ssas[..k + 1] == src.ssas[..k] + [src.ssas[k]];
        MarkSsaLive(src.ssas[k]);
      }
      assert src.ssas[..|src.ssas|] == src.ssas;
    }

    method MarkPhiLive(phi: Phi)
      modifies this`newLive, this`livePhi
      ensures livePhi == old(livePhi) + {phi} && newLive == (old(newLive) || phi !in old(livePhi))
    {
      newLive := newLive || phi !in livePhi;
      livePhi := livePhi + {phi};
    }

    ghost function Live(): Marks
      reads this
    {
      Marks(liveSsa, livePhi)
    }

    predicate IsDstLive(dst: seq<SSA>)
      reads this
    {
      DstLive(dst, liveSsa)
    }

    /** What marking for instruction `i` so far has done. */
    ghost predicate Marking(i: Instr, a: Marks, wasNew: bool)
      reads this
    {
      && a.ssa <= liveSsa && a.phi <= livePhi && (newLive <==> wasNew || Live() != a) && Needed(i, a, Live())
    }

    method MarkPhiSrcs(i: Instr, list: seq<PhiSrc>)
      requires i.op == PhiSrcs(list)
      modifies this
      ensures Marking(i, old(Live()), old(newLive))
      ensures ClosedInstr(i, liveSsa, livePhi) && (anyDead <==> old(anyDead) || !AllLive(i, liveSsa, livePhi))
    {
      for k := 0 to |list|
        invariant Marking(i, old(Live()), old(newLive)) && livePhi == old(livePhi)
        invariant forall j :: 0 <= j < k && list[j].phi in livePhi ==> SrcIn(list[j].src, liveSsa)
        invariant anyDead <==> old(anyDead) || exists j :: 0 <= j < k && list[j].phi !in livePhi
      {
        if list[k].phi in livePhi {
          NeedsSource(i, old(Live()), Live(), list[k].src, k);
          MarkSrcLive(list[k].src);
        } else {
          anyDead := true;
        }
      }
    }

    method MarkPhiDsts(i: Instr, list: seq<PhiDst>)
      requires i.op == PhiDsts(list)
      modifies this
      ensures Marking(i, old(Live()), old(newLive))
      ensures ClosedInstr(i, liveSsa, livePhi) && (anyDead <==> old(anyDead) || !AllLive(i, liveSsa, livePhi))
    {
      for k := 0 to |list|
        invariant Marking(i, old(Live()), old(newLive)) && liveSsa == old(liveSsa)
        invariant forall j :: 0 <= j < k && DstLive(list[j].dst, liveSsa) ==> list[j].phi in livePhi
        invariant anyDead <==> old(anyDead) || exists j :: 0 <= j < k && !DstLive(list[j].dst, liveSsa)
      {
        if IsDstLive(list[k].dst) {
          NeedsPhi(i, old(Live()), Live(), k);
          MarkPhiLive(list[k].phi);
        } else {
          anyDead := true;
        }
      }
    }

    /** A copy may make the result of another one live: then the loop will come by
        again. */
    method MarkCopies(i: Instr, list: seq<Copy>)
      requires i.op == ParCopy(list)
      modifies this
      ensures Marking(i, old(Live()), old(newLive))
      ensures Live() == old(Live()) ==>
                ClosedInstr(i, liveSsa, livePhi) && (anyDead <==> old(anyDead) || !AllLive(i, liveSsa, livePhi))
    {
      for k := 0 to |list|
        invariant Marking(i, old(Live()), old(newLive)) && livePhi == old(livePhi)
        invariant Live() == old(Live()) ==> forall j :: 0 <= j < k && DstLive(list[j].dst, liveSsa) ==> SrcIn(list[j].src, liveSsa)
        invariant Live() == old(Live()) ==> (anyDead <==> old(anyDead) || exists j :: 0 <= j < k && !DstLive(list[j].dst, liveSsa))
      {
        if IsDstLive(list[k].dst) {
          NeedsSource(i, old(Live()), Live(), list[k].src, k);
          MarkSrcLive(list[k].src);
        } else {
          anyDead := true;
        }
      }
    }

    method MarkPlain(i: Instr)
      requires i.op.Plain?
      modifies this
      ensures Marking(i, old(Live()), old(newLive))
      ensures Live() == old(Live()) ==>
                ClosedInstr(i, liveSsa, livePhi) && (anyDead <==> old(anyDead) || !AllLive(i, liveSsa, livePhi))
    {
      if InstrLive(i, liveSsa) {
        if i.guard.OnSsa? {
          MarkSsaLive(i.guard.ssa);
        }
        var srcs := i.op.srcs;
        LiveStays(i, old(liveSsa), liveSsa);
        for k := 0 to |srcs|
          invariant Marking(i, old(Live()), old(newLive)) && livePhi == old(livePhi) && anyDead == old(anyDead)
          invariant InstrLive(i, liveSsa) && (i.guard.OnSsa? ==> i.guard.ssa in liveSsa)
          invariant forall j :: 0 <= j < k ==> SrcIn(srcs[j], liveSsa)
        {
          NeedsSource(i, old(Live()), Live(), srcs[k], k);
          LiveStays(i, liveSsa, liveSsa + SrcSsas(srcs[k]));
          MarkSrcLive(srcs[k]);
        }
      } else {
        anyDead := true;
      }
    }

    /** `mark_instr`. */
    method MarkInstr(i: Instr)
      modifies this
      ensures Marking(i, old(Live()), old(newLive))
      ensures Live() == old(Live()) ==>
                ClosedInstr(i, liveSsa, livePhi) && (anyDead <==> old(anyDead) || !AllLive(i, liveSsa, livePhi))
    {
      hide Needed, ClosedInstr, AllLive;
      match i.op
      case PhiSrcs(list) => MarkPhiSrcs(i, list);
      case PhiDsts(list) => MarkPhiDsts(i, list);
      case ParCopy(list) => MarkCopies(i, list);
      case Plain(_, _, _, _, _) => MarkPlain(i);
    }

    /** What a sweep has done so far, `done` telling which instructions it has seen. */
    ghost predicate Sweeping(f: Function, a: Marks, done: (nat, nat) -> bool)
      reads this
    {
      && a.ssa <= liveSsa && a.phi <= livePhi && (newLive <==> Live() != a) && NeededBy(f, a, Live())
      && (Live() == a ==>
            && (forall b: nat, k: nat :: InFunction(f, b, k) && done(b, k) ==> ClosedInstr(f.blocks[b][k], liveSsa, livePhi))
            && (anyDead <==> exists b: nat, k: nat :: InFunction(f, b, k) && done(b, k) && !AllLive(f.blocks[b][k], liveSsa, livePhi)))
    }

    method SweepInstr(f: Function, b: nat, k: nat, ghost a: Marks, ghost done: (nat, nat) -> bool, ghost done': (nat, nat) -> bool)
      requires InFunction(f, b, k) && Sweeping(f, a, done)
      requires forall c: nat, j: nat :: InFunction(f, c, j) ==> (done'(c, j) <==> done(c, j) || (c == b && j == k))
      modifies this
      ensures Sweeping(f, a, done')
    {
      ghost var before := Live();
      MarkInstr(f.blocks[b][k]);
      NeededNext(f, b, k, a, before, Live());
      hide NeededBy, Needed, ClosedInstr, AllLive;
    }

    method SweepBlock(f: Function, b: nat, ghost a: Marks)
      requires b < |f.blocks| && Sweeping(f, a, (c, j) => c > b)
      modifies this
      ensures Sweeping(f, a, (c, j) => c >= b)
    {
      var k: nat := |f.blocks[b]|;
      ghost var done := (c, j) => c > b || (c == b && j >= k);
      SameDone(f, a, (c, j) => c > b, done);
      hide Sweeping, MapBlock;
      while k > 0
        invariant k <= |f.blocks[b]| && done == (c, j) => c > b || (c == b && j >= k)
        invariant Sweeping(f, a, done)
      {
        k := k - 1;
        ghost var next := (c, j) => c > b || (c == b && j >= k);
        SweepInstr(f, b, k, a, done, next);
        done := next;
      }
      SameDone(f, a, done, (c, j) => c >= b);
    }

    lemma SameDone(f: Function, a: Marks, done: (nat, nat) -> bool, done': (nat, nat) -> bool)
      requires Sweeping(f, a, done)
      requires forall c: nat, j: nat :: InFunction(f, c, j) ==> (done(c, j) <==> done'(c, j))
      ensures Sweeping(f, a, done')
    {
    }

    /** One pass over the function, last instruction first. */
    method Sweep(f: Function)
      modifies this
      ensures old(liveSsa) <= liveSsa && old(livePhi) <= livePhi && NeededBy(f, old(Live()), Live())
      ensures newLive <==> Live() != old(Live())
      ensures !newLive ==> Closed(f, liveSsa, livePhi) && (anyDead <==> SomethingDead(f, liveSsa, livePhi))
    {
      ghost var a := Live();
      newLive, anyDead := false, false;
      var b: nat := |f.blocks|;
      ghost var done := (c, j) => c >= b;
      assert Sweeping(f, a, done);
      hide Sweeping;
      while b > 0
        invariant b <= |f.blocks| && done == (c, j) => c >= b
        invariant Sweeping(f, a, done)
      {
        b := b - 1;
        SameDone(f, a, done, (c, j) => c > b);
        SweepBlock(f, b, a);
        done := (c, j) => c >= b;
      }
      Swept(f, a, done);
    }

    lemma Swept(f: Function, a: Marks, done: (nat, nat) -> bool)
      requires Sweeping(f, a, done) && forall c, j :: done(c, j)
      ensures a.ssa <= liveSsa && a.phi <= livePhi && NeededBy(f, a, Live()) && (newLive <==> Live() != a)
      ensures !newLive ==> Closed(f, liveSsa, livePhi) && (anyDead <==> SomethingDead(f, liveSsa, livePhi))
    {
      if !newLive {
        forall b | 0 <= b < |f.blocks|
          ensures ClosedBlock(f.blocks[b], liveSsa, livePhi)
        {
          forall k | 0 <= k < |f.blocks[b]|
            ensures ClosedInstr(f.blocks[b][k], liveSsa, livePhi)
          {
            assert InFunction(f, b, k) && done(b, k);
          }
        }
      }
    }

    /** The whole pass: mark until nothing is new, then remove what is dead. */
    method Run(f: Function) returns (g: Function)
      requires liveSsa == {} && livePhi == {}
      modifies this
      ensures Closed(f, liveSsa, livePhi)
      ensures forall live, phis :: Closed(f, live, phis) ==> liveSsa <= live && livePhi <= phis
      ensures anyDead <==> SomethingDead(f, liveSsa, livePhi)
      ensures g == if anyDead then MapFunction(f, liveSsa, livePhi) else f
      ensures !SomethingDead(g, liveSsa, livePhi)
      ensures anyDead ==> Pruned(f, g, liveSsa, livePhi) && forall b: nat, k: nat :: InFunction(g, b, k) ==> NotEmpty(g.blocks[b][k])
    {
      ghost var none := Marks({}, {});
      EverythingClosed(f);
      assert NeededBy(f, none, Live());
      hide Closed, SomethingDead, MapFunction;
      while true
        invariant NeededBy(f, none, Live())
        decreases AllSsas(f, |f.blocks|) - liveSsa, AllPhis(f, |f.blocks|) - livePhi
      {
        ghost var before := Live();
        Sweep(f);
        NeededTrans(f, none, before, Live());
        NeededFits(f, Live());
        if !newLive { break; }
      }
      g := f;
      if anyDead {
        g := MapFunction(f, liveSsa, livePhi);
        MapPrunes(f, liveSsa, livePhi);
        PrunedLive(f, g, liveSsa, livePhi);
      }
    }
  }

  ghost predicate SomethingDead(f: Function, live: set<SSA>, phis: set<Phi>) {
    exists b: nat, k: nat :: InFunction(f, b, k) && !AllLive(f.blocks[b][k], live, phis)
  }

  lemma NeededTrans(f: Function, a: Marks, b: Marks, c: Marks)
    requires NeededBy(f, a, b) && NeededBy(f, b, c)
    ensures NeededBy(f, a, c)
  {
  }

  // ---- everything a function names

  function SrcsSsas(srcs: seq<Src>): set<SSA> {
    set k, s | 0 <= k < |srcs| && s in srcs[k].ssas :: s
  }

  function InstrSsas(i: Instr): set<SSA> {
    match i.op
    case PhiSrcs(list) => set k, s | 0 <= k < |list| && s in list[k].src.ssas :: s
    case PhiDsts(_) => {}
    case ParCopy(list) => set k, s | 0 <= k < |list| && s in list[k].src.ssas :: s
    case Plain(_, _, srcs, _, _) => SrcsSsas(srcs) + if i.guard.OnSsa? then {i.guard.ssa} else {}
  }

  function InstrPhis(i: Instr): set<Phi> {
    if i.op.PhiDsts? then set k | 0 <= k < |i.op.phiDsts| :: i.op.phiDsts[k].phi else {}
  }

  function BlockSsas(b: Block, n: nat): set<SSA>
    requires n <= |b|
  {
    if n == 0 then {} else BlockSsas(b, n - 1) + InstrSsas(b[n - 1])
  }

  function BlockPhis(b: Block, n: nat): set<Phi>
    requires n <= |b|
  {
    if n == 0 then {} else BlockPhis(b, n - 1) + InstrPhis(b[n - 1])
  }

  function AllSsas(f: Function, n: nat): set<SSA>
    requires n <= |f.blocks|
  {
    if n == 0 then {} else AllSsas(f, n - 1) + BlockSsas(f.blocks[n - 1], |f.blocks[n - 1]|)
  }

  function AllPhis(f: Function, n: nat): set<Phi>
    requires n <= |f.blocks|
  {
    if n == 0 then {} else AllPhis(f, n - 1) + BlockPhis(f.blocks[n - 1], |f.blocks[n - 1]|)
  }

  lemma InstrClosedIn(i: Instr, live: set<SSA>, phis: set<Phi>)
    requires InstrSsas(i) <= live && InstrPhis(i) <= phis
    ensures ClosedInstr(i, live, phis)
  {
  }

  lemma {:induction false} BlockHas(b: Block, n: nat, k: nat)
    requires k < n <= |b|
    ensures InstrSsas(b[k]) <= BlockSsas(b, n) && InstrPhis(b[k]) <= BlockPhis(b, n)
  {
    if k < n - 1 { BlockHas(b, n - 1, k); }
  }

  lemma {:induction false} FunctionHas(f: Function, n: nat, b: nat)
    requires b < n <= |f.blocks|
    ensures BlockSsas(f.blocks[b], |f.blocks[b]|) <= AllSsas(f, n) && BlockPhis(f.blocks[b], |f.blocks[b]|) <= AllPhis(f, n)
  {
    if b < n - 1 { FunctionHas(f, n - 1, b); }
  }

  /** Everything together is closed, so marking ends. */
  lemma EverythingClosed(f: Function)
    ensures Closed(f, AllSsas(f, |f.blocks|), AllPhis(f, |f.blocks|))
  {
    forall b: nat | b < |f.blocks|
      ensures ClosedBlock(f.blocks[b], AllSsas(f, |f.blocks|), AllPhis(f, |f.blocks|))
    {
      FunctionHas(f, |f.blocks|, b);
      forall k: nat | k < |f.blocks[b]|
        ensures ClosedInstr(f.blocks[b][k], AllSsas(f, |f.blocks|), AllPhis(f, |f.blocks|))
      {
        BlockHas(f.blocks[b], |f.blocks[b]|, k);
        InstrClosedIn(f.blocks[b][k], AllSsas(f, |f.blocks|), AllPhis(f, |f.blocks|));
      }
    }
  }

  lemma NeededFits(f: Function, m: Marks)
    requires NeededBy(f, Marks({}, {}), m)
    ensures m.ssa <= AllSsas(f, |f.blocks|) && m.phi <= AllPhis(f, |f.blocks|)
  {
    EverythingClosed(f);
  }

  /** The pass preserves everything observable, and every live value. */
  lemma PassSound(f: Function, g: Function, live: set<SSA>, phis: set<Phi>, anyDead: bool, flow: Flow, n: nat, s: State)
    requires Closed(f, live, phis) && g == if anyDead then MapFunction(f, live, phis) else f
    ensures var a, b := RunBlocks(f, flow, n, s), RunBlocks(g, flow, n, s);
            a.block == b.block && Agree(a.state, b.state, live, phis)
  {
    if anyDead { RunAgrees(f, flow, n, s, live, phis); }
  }

  predicate InFunction(f: Function, b: nat, k: nat) {
    b < |f.blocks| && k < |f.blocks[b]|
  }

  ghost predicate NeededBy(f: Function, a: Marks, b: Marks) {
    forall live, phis :: Closed(f, live, phis) && a.ssa <= live && a.phi <= phis ==> b.ssa <= live && b.phi <= phis
  }

  lemma NeededNext(f: Function, b: nat, k: nat, a: Marks, m: Marks, n: Marks)
    requires InFunction(f, b, k) && NeededBy(f, a, m) && Needed(f.blocks[b][k], m, n)
    ensures NeededBy(f, a, n)
  {
    forall live, phis | Closed(f, live, phis) && a.ssa <= live && a.phi <= phis
      ensures n.ssa <= live && n.phi <= phis
    {
      assert ClosedBlock(f.blocks[b], live, phis);
      assert ClosedInstr(f.blocks[b][k], live, phis);
    }
  }

  datatype Marks = Marks(ssa: set<SSA>, phi: set<Phi>)

  /** Every set of live values that is closed at `i` and contains `a` contains `b`. */
  ghost predicate Needed(i: Instr, a: Marks, b: Marks) {
    forall live, phis :: ClosedInstr(i, live, phis) && a.ssa <= live && a.phi <= phis ==> b.ssa <= live && b.phi <= phis
  }

  lemma LiveStays(i: Instr, a: set<SSA>, b: set<SSA>)
    requires i.op.Plain? && InstrLive(i, a) && a <= b
    ensures InstrLive(i, b)
  {
    if i.op.canEliminate {
      var d :| 0 <= d < |i.op.dsts| && DstLive(i.op.dsts[d], a);
      DstStays(i.op.dsts[d], a, b);
    }
  }

  lemma DstStays(dst: seq<SSA>, a: set<SSA>, b: set<SSA>)
    requires DstLive(dst, a) && a <= b
    ensures DstLive(dst, b)
  {
  }

  /** The `k`-th operand of a live part is needed. */
  lemma NeedsSource(i: Instr, a: Marks, b: Marks, src: Src, k: nat)
    requires Needed(i, a, b)
    requires match i.op
             case PhiSrcs(list) => k < |list| && list[k].src == src && list[k].phi in b.phi
             case PhiDsts(_) => false
             case ParCopy(list) => k < |list| && list[k].src == src && DstLive(list[k].dst, b.ssa)
             case Plain(_, _, srcs, _, _) => k < |srcs| && srcs[k] == src && InstrLive(i, b.ssa)
    ensures Needed(i, a, Marks(b.ssa + SrcSsas(src), b.phi))
  {
    forall live, phis | ClosedInstr(i, live, phis) && a.ssa <= live && a.phi <= phis
      ensures SrcSsas(src) <= live
    {
      match i.op {
        case PhiSrcs(list) =>
        case PhiDsts(_) =>
        case ParCopy(list) => DstStays(list[k].dst, b.ssa, live);
        case Plain(_, _, _, _, _) => LiveStays(i, b.ssa, live);
      }
      assert SrcIn(src, live);
    }
  }

  lemma NeedsPhi(i: Instr, a: Marks, b: Marks, k: nat)
    requires Needed(i, a, b) && i.op.PhiDsts? && k < |i.op.phiDsts| && DstLive(i.op.phiDsts[k].dst, b.ssa)
    ensures Needed(i, a, Marks(b.ssa, b.phi + {i.op.phiDsts[k].phi}))
  {
    forall live, phis | ClosedInstr(i, live, phis) && a.ssa <= live && a.phi <= phis
      ensures i.op.phiDsts[k].phi in phis
    {
      DstStays(i.op.phiDsts[k].dst, b.ssa, live);
    }
  }

  predicate NotEmpty(i: Instr) {
    match i.op
    case PhiSrcs(list) => list != []
    case PhiDsts(list) => list != []
    case ParCopy(list) => list != []
    case Plain(_, _, _, _, _) => true
  }

  lemma {:induction false} KeepsPhiSrcs(list: seq<PhiSrc>, phis: set<Phi>)
    requires forall k :: 0 <= k < |list| ==> list[k].phi in phis
    ensures KeepPhiSrcs(list, phis) == list
  {
    if list != [] { KeepsPhiSrcs(list[..|list| - 1], phis); }
  }

  lemma {:induction false} KeepsPhiDsts(list: seq<PhiDst>, live: set<SSA>)
    requires forall k :: 0 <= k < |list| ==> DstLive(list[k].dst, live)
    ensures KeepPhiDsts(list, live) == list
  {
    if list != [] { KeepsPhiDsts(list[..|list| - 1], live); }
  }

  lemma {:induction false} KeepsCopies(list: seq<Copy>, live: set<SSA>)
    requires forall k :: 0 <= k < |list| ==> DstLive(list[k].dst, live)
    ensures KeepCopies(list, live) == list
  {
    if list != [] { KeepsCopies(list[..|list| - 1], live); }
  }

  lemma MapInstrAllLive(i: Instr, live: set<SSA>, phis: set<Phi>)
    requires AllLive(i, live, phis) && NotEmpty(i)
    ensures MapInstr(i, live, phis) == [i]
  {
    match i.op
    case PhiSrcs(list) => KeepsPhiSrcs(list, phis);
    case PhiDsts(list) => KeepsPhiDsts(list, live);
    case ParCopy(list) => KeepsCopies(list, live);
    case Plain(_, _, _, _, _) =>
  }

  lemma {:induction false} MapBlockAllLive(b: Block, live: set<SSA>, phis: set<Phi>)
    requires forall k :: 0 <= k < |b| ==> AllLive(b[k], live, phis) && NotEmpty(b[k])
    ensures MapBlock(b, live, phis) == b
  {
    if b != [] {
      MapBlockAllLive(b[..|b| - 1], live, phis);
      MapInstrAllLive(b[|b| - 1], live, phis);
    }
  }

  /** When the pass finds nothing dead there is nothing to remove. */
  lemma NothingDead(f: Function, live: set<SSA>, phis: set<Phi>)
    requires !SomethingDead(f, live, phis)
    requires forall b: nat, k: nat :: InFunction(f, b, k) ==> NotEmpty(f.blocks[b][k])
    ensures MapFunction(f, live, phis) == f
  {
    forall b: nat | b < |f.blocks|
      ensures MapBlock(f.blocks[b], live, phis) == f.blocks[b]
    {
      forall k: nat | k < |f.blocks[b]|
        ensures AllLive(f.blocks[b][k], live, phis) && NotEmpty(f.blocks[b][k])
      {
        assert InFunction(f, b, k);
      }
      MapBlockAllLive(f.blocks[b], live, phis);
    }
    assert MapFunction(f, live, phis).blocks == f.blocks;
  }

  // ---------------------------------------------------------------------------
  // What is left
  // ---------------------------------------------------------------------------

  /** `b` is the elements of `a` at the increasing positions `at`. */
  ghost predicate Picks<T>(a: seq<T>, b: seq<T>, at: seq<nat>) {
    && |at| == |b| && (forall n :: 0 <= n < |at| ==> at[n] < |a| && b[n] == a[at[n]])
    && forall m, n :: 0 <= m < n < |at| ==> at[m] < at[n]
  }

  /** `b` is `a` without the elements at positions outside `keep`, in order. */
  ghost predicate Filtered<T>(a: seq<T>, b: seq<T>, keep: set<nat>) {
    exists at: seq<nat> :: Picks(a, b, at) && forall k: nat :: k < |a| ==> (k in at <==> k in keep)
  }

  lemma FilterNext<T>(a: seq<T>, b: seq<T>, keep: set<nat>, x: T, b': seq<T>)
    requires Filtered(a, b, keep) && b' == b + if |a| in keep then [x] else []
    ensures Filtered(a + [x], b', keep)
  {
    var at: seq<nat> :| Picks(a, b, at) && forall k: nat :: k < |a| ==> (k in at <==> k in keep);
    var at': seq<nat> := at + if |a| in keep then [|a|] else [];
    assert Picks(a + [x], b', at');
    forall k: nat | k < |a + [x]|
      ensures k in at' <==> k in keep
    {
      assert k in at ==> k < |a|;
    }
  }

  ghost function LivePhis(list: seq<PhiSrc>, phis: set<Phi>): set<nat> {
    set k: nat | k < |list| && list[k].phi in phis
  }

  ghost function LiveDsts(list: seq<PhiDst>, live: set<SSA>): set<nat> {
    set k: nat | k < |list| && DstLive(list[k].dst, live)
  }

  ghost function LiveCopies(list: seq<Copy>, live: set<SSA>): set<nat> {
    set k: nat | k < |list| && DstLive(list[k].dst, live)
  }

  lemma FilteredSame<T>(a: seq<T>, b: seq<T>, keep: set<nat>, keep': set<nat>)
    requires Filtered(a, b, keep) && forall k: nat :: k < |a| ==> (k in keep <==> k in keep')
    ensures Filtered(a, b, keep')
  {
    var at: seq<nat> :| Picks(a, b, at) && forall k: nat :: k < |a| ==> (k in at <==> k in keep);
    assert Picks(a, b, at) && forall k: nat :: k < |a| ==> (k in at <==> k in keep');
  }

  lemma FilteredNone<T>(keep: set<nat>)
    ensures Filtered<T>([], [], keep)
  {
    assert Picks<T>([], [], []);
  }

  lemma {:induction false} KeptPhiSrcs(list: seq<PhiSrc>, phis: set<Phi>)
    ensures Filtered(list, KeepPhiSrcs(list, phis), LivePhis(list, phis))
  {
    if list == [] {
      FilteredNone<PhiSrc>(LivePhis(list, phis));
    } else {
      var init, last := list[..|list| - 1], list[|list| - 1];
      KeptPhiSrcs(init, phis);
      hide Filtered;
      FilteredSame(init, KeepPhiSrcs(init, phis), LivePhis(init, phis), LivePhis(list, phis));
      FilterNext(init, KeepPhiSrcs(init, phis), LivePhis(list, phis), last, KeepPhiSrcs(list, phis));
      assert init + [last] == list;
    }
  }

  lemma {:induction false} KeptPhiDsts(list: seq<PhiDst>, live: set<SSA>)
    ensures Filtered(list, KeepPhiDsts(list, live), LiveDsts(list, live))
  {
    if list == [] {
      FilteredNone<PhiDst>(LiveDsts(list, live));
    } else {
      var init, last := list[..|list| - 1], list[|list| - 1];
      KeptPhiDsts(init, live);
      hide Filtered, DstLive;
      FilteredSame(init, KeepPhiDsts(init, live), LiveDsts(init, live), LiveDsts(list, live));
      FilterNext(init, KeepPhiDsts(init, live), LiveDsts(list, live), last, KeepPhiDsts(list, live));
      assert init + [last] == list;
    }
  }

  lemma {:induction false} KeptCopies(list: seq<Copy>, live: set<SSA>)
    ensures Filtered(list, KeepCopies(list, live), LiveCopies(list, live))
  {
    if list == [] {
      FilteredNone<Copy>(LiveCopies(list, live));
    } else {
      var init, last := list[..|list| - 1], list[|list| - 1];
      KeptCopies(init, live);
      hide Filtered, DstLive;
      FilteredSame(init, KeepCopies(init, live), LiveCopies(init, live), LiveCopies(list, live));
      FilterNext(init, KeepCopies(init, live), LiveCopies(list, live), last, KeepCopies(list, live));
      assert init + [last] == list;
    }
  }

  /** `j` is `i` with its dead phis or copies left out, and is not empty. */
  ghost predicate Remains(i: Instr, j: Instr, live: set<SSA>, phis: set<Phi>) {
    && j.guard == i.guard
    && match i.op
       case PhiSrcs(list) => j.op.PhiSrcs? && j.op.phiSrcs != [] && Filtered(list, j.op.phiSrcs, LivePhis(list, phis))
       case PhiDsts(list) => j.op.PhiDsts? && j.op.phiDsts != [] && Filtered(list, j.op.phiDsts, LiveDsts(list, live))
       case ParCopy(list) => j.op.ParCopy? && j.op.copies != [] && Filtered(list, j.op.copies, LiveCopies(list, live))
       case Plain(_, _, _, _, _) => j == i && InstrLive(i, live)
  }

  /** All of `i` is dead. */
  ghost predicate Gone(i: Instr, live: set<SSA>, phis: set<Phi>) {
    match i.op
    case PhiSrcs(list) => LivePhis(list, phis) == {}
    case PhiDsts(list) => LiveDsts(list, live) == {}
    case ParCopy(list) => LiveCopies(list, live) == {}
    case Plain(_, _, _, _, _) => !InstrLive(i, live)
  }

  lemma FilteredEmpty<T>(a: seq<T>, b: seq<T>, keep: set<nat>)
    requires Filtered(a, b, keep) && forall k :: k in keep ==> k < |a|
    ensures b == [] <==> keep == {}
  {
    var at: seq<nat> :| Picks(a, b, at) && forall k: nat :: k < |a| ==> (k in at <==> k in keep);
    if b != [] { assert at[0] in at; }
    if keep != {} {
      var k :| k in keep;
      assert k in at;
    }
  }

  lemma MappedInstr(i: Instr, live: set<SSA>, phis: set<Phi>)
    ensures var m := MapInstr(i, live, phis);
            if m == [] then Gone(i, live, phis) else |m| == 1 && Remains(i, m[0], live, phis) && !Gone(i, live, phis)
  {
    hide Filtered, DstLive;
    match i.op
    case PhiSrcs(list) =>
      KeptPhiSrcs(list, phis);
      FilteredEmpty(list, KeepPhiSrcs(list, phis), LivePhis(list, phis));
    case PhiDsts(list) =>
      KeptPhiDsts(list, live);
      FilteredEmpty(list, KeepPhiDsts(list, live), LiveDsts(list, live));
    case ParCopy(list) =>
      KeptCopies(list, live);
      FilteredEmpty(list, KeepCopies(list, live), LiveCopies(list, live));
    case Plain(_, _, _, _, _) =>
  }

  /** Instruction `n` of block `c` is what remains of instruction `at[n]` of `b`, and
      exactly what is dead altogether is missing. */
  ghost predicate PrunedAt(b: Block, c: Block, live: set<SSA>, phis: set<Phi>, at: seq<nat>) {
    && |at| == |c| && (forall n :: 0 <= n < |at| ==> at[n] < |b| && Remains(b[at[n]], c[n], live, phis))
    && (forall m, n :: 0 <= m < n < |at| ==> at[m] < at[n])
    && forall k: nat :: k < |b| ==> (k in at <==> !Gone(b[k], live, phis))
  }

  lemma {:induction false} PrunedNext(b: Block, c: Block, live: set<SSA>, phis: set<Phi>, at: seq<nat>, i: Instr, m: Block) returns (at': seq<nat>)
    requires PrunedAt(b, c, live, phis, at)
    requires if m == [] then Gone(i, live, phis) else |m| == 1 && Remains(i, m[0], live, phis) && !Gone(i, live, phis)
    ensures PrunedAt(b + [i], c + m, live, phis, at')
  {
    hide Remains, Gone;
    at' := at + if m == [] then [] else [|b|];
    forall k: nat | k < |b + [i]|
      ensures k in at' <==> !Gone((b + [i])[k], live, phis)
    {
      assert k in at ==> k < |b|;
    }
  }

  lemma {:induction false} MappedBlock(b: Block, live: set<SSA>, phis: set<Phi>) returns (at: seq<nat>)
    ensures PrunedAt(b, MapBlock(b, live, phis), live, phis, at)
  {
    if b == [] {
      at := [];
    } else {
      var init, last := b[..|b| - 1], b[|b| - 1];
      at := MappedBlock(init, live, phis);
      MappedInstr(last, live, phis);
      hide PrunedAt, Remains, Gone;
      at := PrunedNext(init, MapBlock(init, live, phis), live, phis, at, last, MapInstr(last, live, phis));
      assert init + [last] == b;
    }
  }

  /** `g` is `f` with exactly the dead instructions, phis and copies left out. */
  ghost predicate Pruned(f: Function, g: Function, live: set<SSA>, phis: set<Phi>) {
    |g.blocks| == |f.blocks| && forall b :: 0 <= b < |f.blocks| ==> BlockPruned(f.blocks[b], g.blocks[b], live, phis)
  }

  ghost predicate BlockPruned(b: Block, c: Block, live: set<SSA>, phis: set<Phi>) {
    exists at: seq<nat> :: PrunedAt(b, c, live, phis, at)
  }

  lemma MapPrunes(f: Function, live: set<SSA>, phis: set<Phi>)
    ensures Pruned(f, MapFunction(f, live, phis), live, phis)
  {
    hide PrunedAt;
    forall b: nat | b < |f.blocks|
      ensures BlockPruned(f.blocks[b], MapBlock(f.blocks[b], live, phis), live, phis)
    {
      var at := MappedBlock(f.blocks[b], live, phis);
    }
  }

  lemma FilteredAll<T>(a: seq<T>, b: seq<T>, keep: set<nat>, n: nat) returns (k: nat)
    requires Filtered(a, b, keep) && n < |b|
    ensures k in keep && k < |a| && b[n] == a[k]
  {
    var at: seq<nat> :| Picks(a, b, at) && forall k: nat :: k < |a| ==> (k in at <==> k in keep);
    k := at[n];
    assert k in at;
  }

  lemma RemainsLive(i: Instr, j: Instr, live: set<SSA>, phis: set<Phi>)
    requires Remains(i, j, live, phis)
    ensures AllLive(j, live, phis) && NotEmpty(j)
  {
    hide Filtered, DstLive;
    match i.op
    case PhiSrcs(list) =>
      forall n: nat | n < |j.op.phiSrcs|
        ensures j.op.phiSrcs[n].phi in phis
      {
        var k := FilteredAll(list, j.op.phiSrcs, LivePhis(list, phis), n);
      }
    case PhiDsts(list) =>
      forall n: nat | n < |j.op.phiDsts|
        ensures DstLive(j.op.phiDsts[n].dst, live)
      {
        var k := FilteredAll(list, j.op.phiDsts, LiveDsts(list, live), n);
      }
    case ParCopy(list) =>
      forall n: nat | n < |j.op.copies|
        ensures DstLive(j.op.copies[n].dst, live)
      {
        var k := FilteredAll(list, j.op.copies, LiveCopies(list, live), n);
      }
    case Plain(_, _, _, _, _) =>
  }

  /** Nothing dead and nothing empty is left: the pass need not come back. */
  lemma PrunedLive(f: Function, g: Function, live: set<SSA>, phis: set<Phi>)
    requires Pruned(f, g, live, phis)
    ensures !SomethingDead(g, live, phis) && forall b: nat, k: nat :: InFunction(g, b, k) ==> NotEmpty(g.blocks[b][k])
  {
    forall b: nat, k: nat | InFunction(g, b, k)
      ensures AllLive(g.blocks[b][k], live, phis) && NotEmpty(g.blocks[b][k])
    {
      assert BlockPruned(f.blocks[b], g.blocks[b], live, phis);
      hide AllLive, NotEmpty, Remains, Gone;
      var at: seq<nat> :| PrunedAt(f.blocks[b], g.blocks[b], live, phis, at);
      RemainsLive(f.blocks[b][at[k]], g.blocks[b][k], live, phis);
    }
  }

  // ---------------------------------------------------------------------------
  // What being dead means
  // ---------------------------------------------------------------------------

  lemma {:induction false} BindShort(env: map<SSA, Val>, dst: seq<SSA>, vals: seq<Val>, s: SSA)
    requires |dst| <= |vals| && forall c :: 0 <= c < |vals| ==> vals[c] == 1
    ensures Get(Bind(env, dst, vals), s) == if s in dst then 1 else Get(env, s)
    decreases |dst|
  {
    if dst != [] {
      var c := |dst| - 1;
      BindShort(env, dst[..c], vals, s);
      assert dst == dst[..c] + [dst[c]];
    }
  }

  /** A destination is live if and only if binding it can change something live. */
  lemma DstMatters(dst: seq<SSA>, live: set<SSA>)
    ensures DstLive(dst, live) <==> exists env, vals :: !SameEnv(Bind(env, dst, vals), env, live)
  {
    if DstLive(dst, live) {
      var s :| s in dst && s in live;
      BindShort(map[], dst, seq(|dst|, c => 1), s);
      assert !SameEnv(Bind(map[], dst, seq(|dst|, c => 1)), map[], live);
    } else {
      forall env, vals
        ensures SameEnv(Bind(env, dst, vals), env, live)
      {
        BindDead(env, env, dst, vals, live);
      }
    }
  }

  function Ones(dsts: seq<seq<SSA>>): seq<seq<Val>> {
    seq(|dsts|, d requires 0 <= d < |dsts| => seq(|dsts[d]|, c => 1))
  }

  lemma {:induction false} BindAllOnes(env: map<SSA, Val>, dsts: seq<seq<SSA>>, vals: seq<seq<Val>>, s: SSA)
    requires |dsts| <= |vals| && vals[..|dsts|] == Ones(dsts) && (Get(env, s) == 1 || exists d :: 0 <= d < |dsts| && s in dsts[d])
    ensures Get(BindAll(env, dsts, vals), s) == 1
    decreases |dsts|
  {
    if dsts != [] {
      var d := |dsts| - 1;
      assert vals[d] == vals[..|dsts|][d] == Ones(dsts)[d] == seq(|dsts[d]|, c => 1);
      BindShort(BindAll(env, dsts[..d], vals), dsts[d], vals[d], s);
      if s !in dsts[d] {
        assert vals[..d] == Ones(dsts[..d]);
        assert forall e :: 0 <= e < |dsts| && s in dsts[e] ==> e < d && s in dsts[..d][e];
        BindAllOnes(env, dsts[..d], vals, s);
      }
    }
  }

  /** The same operation but for what it computes. */
  ghost predicate Alike(i: Instr, j: Instr) {
    i.op.Plain? && j.op.Plain? && j == i.(op := i.op.(compute := j.op.compute))
  }

  /** A state in which the guard lets the operation run. */
  function Letting(g: Guard): State {
    State(if g.OnSsa? && !g.inverted then map[g.ssa := 2] else map[], map[], [])
  }

  /** An operation is live if and only if leaving it out can be noticed: by what was
      done, or by a live value.  So nothing more can be removed without knowing what
      operations compute. */
  lemma LiveMatters(i: Instr, live: set<SSA>, phis: set<Phi>)
    requires i.op.Plain?
    ensures InstrLive(i, live) <==> exists j, s :: Alike(i, j) && !Agree(Exec(j, s), s, live, phis)
  {
    if InstrLive(i, live) {
      var ones := Ones(i.op.dsts);
      var j := i.(op := i.op.(compute := (ops, history) => ones));
      var s := Letting(i.guard);
      assert Enabled(i.guard, s.env);
      if i.op.canEliminate {
        var d :| 0 <= d < |i.op.dsts| && DstLive(i.op.dsts[d], live);
        var v :| v in i.op.dsts[d] && v in live;
        BindAllOnes(s.env, i.op.dsts, ones, v);
      }
      assert Alike(i, j) && !Agree(Exec(j, s), s, live, phis);
    } else {
      forall j, s | Alike(i, j)
        ensures Agree(Exec(j, s), s, live, phis)
      {
        if i.guard != Never { BindAllDead(s.env, s.env, i.op.dsts, j.op.compute(EvalSrcs(i.op.srcs, s.env), s.history), live); }
      }
    }
  }
}
