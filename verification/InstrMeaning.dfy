/** `assign_regs_instr` of `assign_regs.rs`: one instruction in all register files, and
    what the one copy recorded for them and the instruction behind it mean for every
    value, down to machine moves. */
module InstrMeaning {
  import opened Wrappers
  import opened Ir
  import opened AssignRegs
  import opened AssignInstr
  import Finite
  import LowerCopySwap
  import LowerParCopies

  /** What an instruction has in one register file: vector operands, its guard, the
      values that die, vector and scalar results, and results nobody uses. */
  datatype Part = Part(srcs: seq<seq<SSA>>, pred: Option<SSA>, killed: seq<SSA>, dsts: seq<seq<SSA>>, scalars: seq<SSA>, dead: seq<SSA>)
  {
    ghost function Results(): set<SSA> {
      AllElements(dsts, |dsts|) + Elements(scalars)
    }

    ghost predicate ScalarOnly() {
      Scalars(srcs) && dsts == []
    }
  }

  /** One register file: how many registers there are, where its values live, and
      which of those registers are pinned. */
  datatype Regs = Regs(file: RegFile, numRegs: nat, at: map<SSA, nat>, pinned: set<nat>)

  function RegsOf(ra: RegAllocator): Regs
    reads ra
  {
    Regs(ra.file, ra.numRegs, ra.ssaReg, ra.pinned)
  }

  // ---------------------------------------------------------------------------
  // One copy for all files
  // ---------------------------------------------------------------------------

  /** The pairs of the first `n` files. */
  function Joined(pls: seq<Placement>, n: nat): seq<Pair>
    requires n <= |pls|
  {
    if n == 0 then [] else Joined(pls, n - 1) + pls[n - 1].pairs
  }

  lemma {:induction false} JoinedHas(pls: seq<Placement>, n: nat, p: Pair)
    requires n <= |pls|
    ensures p in Joined(pls, n) <==> exists k :: 0 <= k < n && p in pls[k].pairs
  {
    if n > 0 { JoinedHas(pls, n - 1, p); }
  }

  /** One file's share of the instruction is placed. */
  ghost predicate Assigned(part: Part, pl: Placement, b: Regs, a: Regs) {
    && b.file == a.file && b.numRegs == a.numRegs && Inside(pl.pairs, b.file, b.numRegs)
    && Brings(pl, b.file, b.at, a.at, part.srcs, part.pred, part.killed)
    && Gives(pl, b.at, a.at, part.killed, part.dsts, part.scalars)
    && (forall v :: v in b.at ==> b.at[v] < b.numRegs)
    && (part.ScalarOnly() ==> pl.pairs == [])
  }

  ghost predicate AllAssigned(parts: seq<Part>, pls: seq<Placement>, bs: seq<Regs>, rs: seq<Regs>, n: nat) {
    && n <= |parts| && n <= |pls| && n <= |bs| && n <= |rs|
    && forall k :: 0 <= k < n ==> Assigned(parts[k], pls[k], bs[k], rs[k])
  }

  /** Each value lives in one file. */
  ghost predicate Separate(rs: seq<Regs>) {
    forall j, k :: 0 <= j < k < |rs| ==> rs[j].file != rs[k].file && rs[j].at.Keys !! rs[k].at.Keys
  }

  /** A move between registers of the file. */
  predicate MoveIn(b: Regs, p: Pair) {
    p.dst.file == b.file && p.dst.idx < b.numRegs && p.src.FromReg? && p.src.reg.file == b.file && p.src.reg.idx < b.numRegs
  }

  ghost predicate OfFile(pls: seq<Placement>, bs: seq<Regs>, k: nat, p: Pair) {
    k < |pls| && k < |bs| && p in pls[k].pairs && MoveIn(bs[k], p)
  }

  lemma {:induction false} PairOfFile(parts: seq<Part>, pls: seq<Placement>, bs: seq<Regs>, rs: seq<Regs>, n: nat, p: Pair) returns (k: nat)
    requires AllAssigned(parts, pls, bs, rs, n) && p in Joined(pls, n)
    ensures k < n && OfFile(pls, bs, k, p)
  {
    JoinedHas(pls, n, p);
    k :| 0 <= k < n && p in pls[k].pairs;
    assert Assigned(parts[k], pls[k], bs[k], rs[k]);
    hide Brings, Gives, Joined;
    var i :| 0 <= i < |pls[k].pairs| && pls[k].pairs[i] == p;
  }

  lemma {:induction false} OtherFile(parts: seq<Part>, pls: seq<Placement>, bs: seq<Regs>, rs: seq<Regs>, n: nat, p: Pair, q: Pair)
    requires 0 < n && AllAssigned(parts, pls, bs, rs, n) && Separate(bs) && p in Joined(pls, n - 1) && q in pls[n - 1].pairs
    ensures p.dst != q.dst
  {
    assert Assigned(parts[n - 1], pls[n - 1], bs[n - 1], rs[n - 1]);
    assert AllAssigned(parts, pls, bs, rs, n - 1);
    hide Brings, Gives, Joined, AllAssigned;
    var k := PairOfFile(parts, pls, bs, rs, n - 1, p);
    var i :| 0 <= i < |pls[n - 1].pairs| && pls[n - 1].pairs[i] == q;
  }

  lemma DistinctConcat(a: seq<Pair>, b: seq<Pair>)
    requires Distinct(a) && Distinct(b) && forall p, q :: p in a && q in b ==> p.dst != q.dst
    ensures Distinct(a + b)
  {
  }

  /** Files do not share destinations. */
  lemma {:induction false} JoinedDistinct(parts: seq<Part>, pls: seq<Placement>, bs: seq<Regs>, rs: seq<Regs>, n: nat)
    requires AllAssigned(parts, pls, bs, rs, n) && Separate(bs)
    ensures Distinct(Joined(pls, n))
  {
    if n > 0 {
      assert Assigned(parts[n - 1], pls[n - 1], bs[n - 1], rs[n - 1]);
      JoinedDistinct(parts, pls, bs, rs, n - 1);
      forall p, q | p in Joined(pls, n - 1) && q in pls[n - 1].pairs
        ensures p.dst != q.dst
      {
        OtherFile(parts, pls, bs, rs, n, p, q);
      }
      DistinctConcat(Joined(pls, n - 1), pls[n - 1].pairs);
    }
  }

  /** A register of one file is a destination only of that file's pairs. */
  lemma {:induction false} JoinedDst(parts: seq<Part>, pls: seq<Placement>, bs: seq<Regs>, rs: seq<Regs>, k: nat, to: nat)
    requires AllAssigned(parts, pls, bs, rs, |bs|) && Separate(bs) && k < |bs| == |pls|
    requires IsDst(Joined(pls, |bs|), Reg(bs[k].file, to))
    ensures IsDst(pls[k].pairs, Reg(bs[k].file, to))
  {
    hide AllAssigned, Joined;
    var all := Joined(pls, |bs|);
    var i :| 0 <= i < |all| && all[i].dst == Reg(bs[k].file, to);
    assert all[i] in all;
    var j := PairOfFile(parts, pls, bs, rs, |bs|, all[i]);
    assert j == k;
    var h :| 0 <= h < |pls[k].pairs| && pls[k].pairs[h] == all[i];
  }

  /** What one file's pairs deliver, the joined copy delivers. */
  lemma {:induction false} JoinedDelivers(parts: seq<Part>, pls: seq<Placement>, bs: seq<Regs>, rs: seq<Regs>, k: nat, from: nat, to: nat)
    requires AllAssigned(parts, pls, bs, rs, |bs|) && Separate(bs) && k < |bs| == |pls|
    requires Delivered(pls[k].pairs, bs[k].file, from, to)
    ensures Delivered(Joined(pls, |bs|), bs[k].file, from, to)
  {
    JoinedHas(pls, |bs|, Move1(bs[k].file, to, from));
    if IsDst(Joined(pls, |bs|), Reg(bs[k].file, to)) { JoinedDst(parts, pls, bs, rs, k, to); }
  }

  /** The joined copy brings each file's values where its own pairs would. */
  lemma {:induction false} JoinedBrings(parts: seq<Part>, pls: seq<Placement>, bs: seq<Regs>, rs: seq<Regs>, k: nat)
    requires AllAssigned(parts, pls, bs, rs, |bs|) && Separate(bs) && k < |bs| == |pls|
    ensures Brings(pls[k].(pairs := Joined(pls, |bs|)), bs[k].file, bs[k].at, rs[k].at, parts[k].srcs, parts[k].pred, parts[k].killed)
  {
    assert Assigned(parts[k], pls[k], bs[k], rs[k]);
    JoinedDistinct(parts, pls, bs, rs, |bs|);
    forall from, to | Delivered(pls[k].pairs, bs[k].file, from, to)
      ensures Delivered(Joined(pls, |bs|), bs[k].file, from, to)
    {
      JoinedDelivers(parts, pls, bs, rs, k, from, to);
    }
    hide Delivered, Joined, Gives, Inside;
    forall i | 0 <= i < |parts[k].srcs|
      ensures DeliveredVec(Joined(pls, |bs|), bs[k].file, bs[k].at, parts[k].srcs[i], pls[k].srcRegs[i])
    {
      assert DeliveredVec(pls[k].pairs, bs[k].file, bs[k].at, parts[k].srcs[i], pls[k].srcRegs[i]);
    }
  }

  // ---------------------------------------------------------------------------
  // What the copy means for values
  // ---------------------------------------------------------------------------

  /** The copy's temporary is no register of the allocator. */
  ghost predicate TmpAbove(tmp: Option<RegRef>, file: RegFile, numRegs: nat) {
    tmp.Some? ==> tmp.value.file != file || numRegs <= tmp.value.base
  }

  ghost predicate TmpClear(tmp: Option<RegRef>, bs: seq<Regs>) {
    forall k :: 0 <= k < |bs| ==> TmpAbove(tmp, bs[k].file, bs[k].numRegs)
  }

  lemma DeliveredValue(pairs: seq<Pair>, tmp: Option<RegRef>, file: RegFile, numRegs: nat, from: nat, to: nat, s: State, t: State)
    requires Delivered(pairs, file, from, to) && from < numRegs
    requires ParDone(ParCopy(pairs, tmp), s, t) && TmpAbove(tmp, file, numRegs)
    ensures t(Reg(file, to)) == s(Reg(file, from))
  {
    if from == to && !IsDst(pairs, Reg(file, to)) {
      assert !IsTmp(tmp, Reg(file, to));
    } else {
      var i :| 0 <= i < |pairs| && pairs[i] == Move1(file, to, from);
      assert t(pairs[i].dst) == Eval(pairs[i].src, s);
    }
  }

  type Values = map<SSA, Value>

  /** What an instruction reads in one file. */
  datatype Read = Read(ops: seq<seq<Value>>, guard: Option<Value>)

  /** An instruction over values: `compute` stands for whatever it does with its
      operands and guard. */
  datatype Instr = Instr(parts: seq<Part>, compute: seq<Read> -> Values)
  {
    ghost function Results(): set<SSA> {
      set k: nat, s | k < |parts| && s in parts[k].Results() :: s
    }

    ghost function Killed(): set<SSA> {
      set k: nat, s | k < |parts| && s in parts[k].killed :: s
    }

    /** It computes each of its results, and no two files share one. */
    ghost predicate Total() {
      && (forall reads_ :: Results() <= compute(reads_).Keys)
      && forall j, k :: 0 <= j < k < |parts| ==> parts[j].Results() !! parts[k].Results()
    }
  }

  ghost predicate PartIn(p: Part, val: Values) {
    && (forall k, s :: 0 <= k < |p.srcs| && s in p.srcs[k] ==> s in val)
    && (p.pred.Some? ==> p.pred.value in val)
  }

  ghost predicate OperandsIn(i: Instr, val: Values) {
    forall k :: 0 <= k < |i.parts| ==> PartIn(i.parts[k], val)
  }

  function VecValues(vec: seq<SSA>, val: Values): seq<Value>
    requires forall s :: s in vec ==> s in val
  {
    seq(|vec|, c requires 0 <= c < |vec| => val[vec[c]])
  }

  ghost function PartValues(p: Part, val: Values): Read
    requires PartIn(p, val)
  {
    Read(seq(|p.srcs|, k requires 0 <= k < |p.srcs| => VecValues(p.srcs[k], val)),
         if p.pred.Some? then Some(val[p.pred.value]) else None)
  }

  function RegValues(file: RegFile, reg: nat, n: nat, t: State): seq<Value> {
    seq(n, c requires 0 <= c < n => t(Reg(file, reg + c)))
  }

  ghost function PartRegs(p: Part, pl: Placement, file: RegFile, t: State): Read
    requires |pl.srcRegs| == |p.srcs| && (p.pred.Some? ==> pl.predReg.Some?)
  {
    Read(seq(|p.srcs|, k requires 0 <= k < |p.srcs| => RegValues(file, pl.srcRegs[k], |p.srcs[k]|, t)),
         if p.pred.Some? then Some(t(Reg(file, pl.predReg.value))) else None)
  }

  ghost function OperandValues(i: Instr, val: Values): seq<Read>
    requires OperandsIn(i, val)
  {
    seq(|i.parts|, k requires 0 <= k < |i.parts| => PartValues(i.parts[k], val))
  }

  /** The instruction on SSA values: those that die are gone, the results are there. */
  ghost function Eval1(i: Instr, val: Values): Values
    requires OperandsIn(i, val) && i.Total()
  {
    var res := i.compute(OperandValues(i, val));
    (val - i.Killed()) + map s | s in i.Results() :: res[s]
  }

  ghost predicate ReadsOk(p: Part, pl: Placement) {
    |pl.srcRegs| == |p.srcs| && (p.pred.Some? ==> pl.predReg.Some?)
  }

  ghost predicate IsResult(i: Instr, rs: seq<Regs>, r: Reg) {
    exists k, s :: 0 <= k < |i.parts| && k < |rs| && s in i.parts[k].Results() && s in rs[k].at && r == Reg(rs[k].file, rs[k].at[s])
  }

  /** The instruction on registers: it reads where `pls` says, in whatever files, writes
      its results to their registers, and nothing else. */
  ghost predicate Executes(i: Instr, pls: seq<Placement>, rs: seq<Regs>, t: State, u: State) {
    && |pls| == |i.parts| == |rs| && (forall k :: 0 <= k < |rs| ==> ReadsOk(i.parts[k], pls[k]))
    && var res := i.compute(seq(|rs|, k requires 0 <= k < |rs| => PartRegs(i.parts[k], pls[k], rs[k].file, t)));
    && (forall k, s :: 0 <= k < |rs| && s in i.parts[k].Results() ==>
          s in rs[k].at && s in res && u(Reg(rs[k].file, rs[k].at[s])) == res[s])
    && (forall r :: !IsResult(i, rs, r) ==> u(r) == t(r))
  }

  ghost predicate HoldsFile(r: Regs, val: Values, s: State) {
    forall v :: v in r.at ==> v in val && s(Reg(r.file, r.at[v])) == val[v]
  }

  ghost predicate Placed1(rs: seq<Regs>, v: SSA) {
    exists k :: 0 <= k < |rs| && v in rs[k].at
  }

  /** The registers hold the values, all of them. */
  ghost predicate Holds(rs: seq<Regs>, val: Values, s: State) {
    && (forall k :: 0 <= k < |rs| ==> HoldsFile(rs[k], val, s))
    && (forall v :: v in val ==> Placed1(rs, v))
  }

  lemma ReadsVector(pairs: seq<Pair>, tmp: Option<RegRef>, b: Regs, vec: seq<SSA>, reg: nat, val: Values, s: State, t: State)
    requires DeliveredVec(pairs, b.file, b.at, vec, reg) && HoldsFile(b, val, s)
    requires forall v :: v in b.at ==> b.at[v] < b.numRegs
    requires ParDone(ParCopy(pairs, tmp), s, t) && TmpAbove(tmp, b.file, b.numRegs)
    ensures (forall v :: v in vec ==> v in val) && RegValues(b.file, reg, |vec|, t) == VecValues(vec, val)
  {
    hide ParDone;
    forall c | 0 <= c < |vec|
      ensures vec[c] in val && t(Reg(b.file, reg + c)) == val[vec[c]]
    {
      DeliveredValue(pairs, tmp, b.file, b.numRegs, b.at[vec[c]], reg + c, s, t);
    }
  }

  /** Of one file: the instruction reads the operands' values. */
  lemma ReadsPart(p: Part, pl: Placement, tmp: Option<RegRef>, b: Regs, at: map<SSA, nat>, val: Values, s: State, t: State)
    requires Brings(pl, b.file, b.at, at, p.srcs, p.pred, p.killed) && HoldsFile(b, val, s)
    requires forall v :: v in b.at ==> b.at[v] < b.numRegs
    requires ParDone(ParCopy(pl.pairs, tmp), s, t) && TmpAbove(tmp, b.file, b.numRegs)
    ensures PartIn(p, val) && ReadsOk(p, pl) && PartRegs(p, pl, b.file, t) == PartValues(p, val)
  {
    hide HoldsFile, ParDone, DeliveredVec;
    forall k | 0 <= k < |p.srcs|
      ensures (forall v :: v in p.srcs[k] ==> v in val) && RegValues(b.file, pl.srcRegs[k], |p.srcs[k]|, t) == VecValues(p.srcs[k], val)
    {
      ReadsVector(pl.pairs, tmp, b, p.srcs[k], pl.srcRegs[k], val, s, t);
    }
    if p.pred.Some? {
      ReadsVector(pl.pairs, tmp, b, [p.pred.value], pl.predReg.value, val, s, t);
      assert RegValues(b.file, pl.predReg.value, 1, t)[0] == VecValues([p.pred.value], val)[0];
      assert p.pred.value in [p.pred.value];
    }
  }

  /** What the registers are when the allocator has placed an instruction whose
      results are new values. */
  ghost predicate Ready(i: Instr, pls: seq<Placement>, bs: seq<Regs>, rs: seq<Regs>, val: Values) {
    && |i.parts| == |pls| == |bs| == |rs| && i.Total() && Separate(bs)
    && AllAssigned(i.parts, pls, bs, rs, |bs|) && i.Results() !! val.Keys
    && (forall k :: 0 <= k < |bs| ==> Elements(i.parts[k].killed) <= bs[k].at.Keys)
  }

  /** It reads in every file the operands' values. */
  lemma {:induction false} ReadsAll(i: Instr, pls: seq<Placement>, tmp: Option<RegRef>, bs: seq<Regs>, rs: seq<Regs>, val: Values, s: State, t: State)
    requires Ready(i, pls, bs, rs, val) && Holds(bs, val, s)
    requires ParDone(ParCopy(Joined(pls, |pls|), tmp), s, t) && TmpClear(tmp, bs)
    ensures OperandsIn(i, val)
    ensures forall k :: 0 <= k < |rs| ==> ReadsOk(i.parts[k], pls[k]) && PartRegs(i.parts[k], pls[k], rs[k].file, t) == PartValues(i.parts[k], val)
  {
    hide HoldsFile, ParDone, TmpAbove, Joined, Brings, Gives, Inside;
    forall k | 0 <= k < |rs|
      ensures PartIn(i.parts[k], val) && ReadsOk(i.parts[k], pls[k])
      ensures PartRegs(i.parts[k], pls[k], rs[k].file, t) == PartValues(i.parts[k], val)
    {
      JoinedBrings(i.parts, pls, bs, rs, k);
      assert Assigned(i.parts[k], pls[k], bs[k], rs[k]);
      assert HoldsFile(bs[k], val, s) && TmpAbove(tmp, bs[k].file, bs[k].numRegs);
      ReadsPart(i.parts[k], pls[k].(pairs := Joined(pls, |pls|)), tmp, bs[k], rs[k].at, val, s, t);
    }
  }

  /** A value that outlives the instruction is where it is expected. */
  lemma {:induction false} Survives(i: Instr, pls: seq<Placement>, tmp: Option<RegRef>, bs: seq<Regs>, rs: seq<Regs>, val: Values, s: State, t: State, k: nat, v: SSA)
    requires Ready(i, pls, bs, rs, val) && Holds(bs, val, s) && k < |rs| && v in bs[k].at && v !in i.parts[k].killed
    requires ParDone(ParCopy(Joined(pls, |pls|), tmp), s, t) && TmpClear(tmp, bs)
    ensures v in rs[k].at && t(Reg(rs[k].file, rs[k].at[v])) == val[v]
  {
    hide ParDone, TmpAbove, Joined, Gives, Inside, DeliveredVec, Delivered;
    JoinedBrings(i.parts, pls, bs, rs, k);
    assert Assigned(i.parts[k], pls[k], bs[k], rs[k]);
    assert HoldsFile(bs[k], val, s) && TmpAbove(tmp, bs[k].file, bs[k].numRegs);
    DeliveredValue(Joined(pls, |pls|), tmp, bs[k].file, bs[k].numRegs, bs[k].at[v], rs[k].at[v], s, t);
  }

  /** Which values are where after the instruction. */
  lemma {:induction false} WhoIsWhere(i: Instr, pls: seq<Placement>, bs: seq<Regs>, rs: seq<Regs>, val: Values, k: nat, v: SSA)
    requires Ready(i, pls, bs, rs, val) && k < |rs| && v in rs[k].at
    ensures v in i.parts[k].Results() || (v in bs[k].at && v !in i.parts[k].killed)
    ensures Finite.Injective(rs[k].at)
  {
    assert Assigned(i.parts[k], pls[k], bs[k], rs[k]);
  }

  /** A surviving value's register is no result's. */
  lemma {:induction false} NotOverwritten(i: Instr, pls: seq<Placement>, bs: seq<Regs>, rs: seq<Regs>, val: Values, k: nat, v: SSA)
    requires Ready(i, pls, bs, rs, val) && k < |rs| && v in rs[k].at && v !in i.Results()
    ensures !IsResult(i, rs, Reg(rs[k].file, rs[k].at[v]))
  {
    WhoIsWhere(i, pls, bs, rs, val, k, v);
    forall j, w | 0 <= j < |rs| && w in i.parts[j].Results() && w in rs[j].at
      ensures Reg(rs[j].file, rs[j].at[w]) != Reg(rs[k].file, rs[k].at[v])
    {
      assert Assigned(i.parts[j], pls[j], bs[j], rs[j]) && Assigned(i.parts[k], pls[k], bs[k], rs[k]);
      assert w in i.Results();
      assert j < k ==> bs[j].file != bs[k].file;
      assert k < j ==> bs[k].file != bs[j].file;
    }
  }

  lemma InOneFile(rs: seq<Regs>, j: nat, k: nat, v: SSA)
    requires Separate(rs) && j < |rs| && k < |rs| && v in rs[j].at && v in rs[k].at
    ensures j == k
  {
  }

  /** A value of one file is not killed by another. */
  lemma {:induction false} KilledHere(i: Instr, pls: seq<Placement>, bs: seq<Regs>, rs: seq<Regs>, val: Values, k: nat, v: SSA)
    requires Ready(i, pls, bs, rs, val) && k < |rs| && v in bs[k].at && v in i.Killed()
    ensures v in i.parts[k].killed
  {
    var j: nat :| j < |i.parts| && v in i.parts[j].killed;
    assert v in Elements(i.parts[j].killed);
    InOneFile(bs, j, k, v);
  }

  lemma EvalResult(i: Instr, val: Values, k: nat, v: SSA)
    requires OperandsIn(i, val) && i.Total() && k < |i.parts| && v in i.parts[k].Results()
    ensures v in i.compute(OperandValues(i, val)) && v in Eval1(i, val) && Eval1(i, val)[v] == i.compute(OperandValues(i, val))[v]
  {
    assert v in i.Results();
  }

  lemma EvalOld(i: Instr, val: Values, v: SSA)
    requires OperandsIn(i, val) && i.Total() && v in val && v !in i.Killed() && v !in i.Results()
    ensures v in Eval1(i, val) && Eval1(i, val)[v] == val[v]
  {
  }

  lemma {:induction false} Writes(i: Instr, pls: seq<Placement>, rs: seq<Regs>, t: State, u: State, k: nat, v: SSA, vals: seq<Read>)
    requires Executes(i, pls, rs, t, u) && k < |rs| && v in i.parts[k].Results() && v in rs[k].at
    requires vals == seq(|rs|, k requires 0 <= k < |rs| => PartRegs(i.parts[k], pls[k], rs[k].file, t))
    ensures v in i.compute(vals) && u(Reg(rs[k].file, rs[k].at[v])) == i.compute(vals)[v]
  {
  }

  lemma {:induction false} LeavesAlone(i: Instr, pls: seq<Placement>, rs: seq<Regs>, t: State, u: State, r: Reg)
    requires Executes(i, pls, rs, t, u) && !IsResult(i, rs, r)
    ensures u(r) == t(r)
  {
  }

  lemma ValueOf(b: Regs, val: Values, s: State, v: SSA)
    requires HoldsFile(b, val, s) && v in b.at
    ensures v in val
  {
  }

  lemma {:induction false} ValuesHeld(i: Instr, pls: seq<Placement>, tmp: Option<RegRef>, bs: seq<Regs>, rs: seq<Regs>, val: Values,
                                      s: State, t: State, u: State, k: nat, v: SSA)
    requires Ready(i, pls, bs, rs, val) && Holds(bs, val, s) && k < |rs| && v in rs[k].at && OperandsIn(i, val)
    requires ParDone(ParCopy(Joined(pls, |pls|), tmp), s, t) && TmpClear(tmp, bs) && Executes(i, pls, rs, t, u)
    requires OperandValues(i, val) == seq(|rs|, k requires 0 <= k < |rs| => PartRegs(i.parts[k], pls[k], rs[k].file, t))
    ensures v in Eval1(i, val) && u(Reg(rs[k].file, rs[k].at[v])) == Eval1(i, val)[v]
  {
    hide Executes, ParDone, TmpClear, Joined, Eval1, HoldsFile, Placed1, OperandValues, AllAssigned, Separate, IsResult, OperandsIn;
    WhoIsWhere(i, pls, bs, rs, val, k, v);
    if v in i.parts[k].Results() {
      EvalResult(i, val, k, v);
      Writes(i, pls, rs, t, u, k, v, OperandValues(i, val));
    } else {
      ValueOf(bs[k], val, s, v);
      if v in i.Killed() { KilledHere(i, pls, bs, rs, val, k, v); }
      EvalOld(i, val, v);
      Survives(i, pls, tmp, bs, rs, val, s, t, k, v);
      NotOverwritten(i, pls, bs, rs, val, k, v);
      LeavesAlone(i, pls, rs, t, u, Reg(rs[k].file, rs[k].at[v]));
    }
  }

  /** Nothing is forgotten. */
  lemma {:induction false} StillPlaced(i: Instr, pls: seq<Placement>, bs: seq<Regs>, rs: seq<Regs>, val: Values, s: State, v: SSA)
    requires Ready(i, pls, bs, rs, val) && Holds(bs, val, s) && OperandsIn(i, val) && v in Eval1(i, val)
    ensures Placed1(rs, v)
  {
    if v in i.Results() {
      var k: nat :| k < |i.parts| && v in i.parts[k].Results();
      assert Assigned(i.parts[k], pls[k], bs[k], rs[k]);
    } else {
      assert v in val && v !in i.Killed() && Placed1(bs, v);
      var k: nat :| k < |bs| && v in bs[k].at;
      assert Assigned(i.parts[k], pls[k], bs[k], rs[k]);
    }
  }

  /** Allocation refines the instruction: if the registers of all files held the old
      values, the one copy and then the instruction leave them holding the new ones. */
  lemma {:induction false} InstrRefines(i: Instr, pls: seq<Placement>, tmp: Option<RegRef>, bs: seq<Regs>, rs: seq<Regs>, val: Values,
                                        s: State, t: State, u: State)
    requires Ready(i, pls, bs, rs, val) && Holds(bs, val, s)
    requires ParDone(ParCopy(Joined(pls, |pls|), tmp), s, t) && TmpClear(tmp, bs) && Executes(i, pls, rs, t, u)
    ensures OperandsIn(i, val) && Holds(rs, Eval1(i, val), u)
  {
    ReadsAll(i, pls, tmp, bs, rs, val, s, t);
    assert OperandValues(i, val) == seq(|rs|, k requires 0 <= k < |rs| => PartRegs(i.parts[k], pls[k], rs[k].file, t));
    hide Ready, Executes, ParDone, TmpClear, Joined, Eval1, Placed1;
    forall k | 0 <= k < |rs|
      ensures HoldsFile(rs[k], Eval1(i, val), u)
    {
      forall v | v in rs[k].at
        ensures v in Eval1(i, val) && u(Reg(rs[k].file, rs[k].at[v])) == Eval1(i, val)[v]
      {
        ValuesHeld(i, pls, tmp, bs, rs, val, s, t, u, k, v);
      }
    }
    forall v | v in Eval1(i, val)
      ensures Placed1(rs, v)
    {
      StillPlaced(i, pls, bs, rs, val, s, v);
    }
  }

  /** The values are in separate places afterwards, too. */
  lemma {:induction false} StaysSeparate(i: Instr, pls: seq<Placement>, bs: seq<Regs>, rs: seq<Regs>, val: Values, s: State)
    requires Ready(i, pls, bs, rs, val) && Holds(bs, val, s)
    ensures Separate(rs)
  {
    forall j, k | 0 <= j < k < |rs|
      ensures rs[j].file != rs[k].file && rs[j].at.Keys !! rs[k].at.Keys
    {
      assert Assigned(i.parts[j], pls[j], bs[j], rs[j]) && Assigned(i.parts[k], pls[k], bs[k], rs[k]);
      assert HoldsFile(bs[j], val, s) && HoldsFile(bs[k], val, s);
      hide Holds, HoldsFile, Brings, Gives, Inside;
      forall v | v in rs[j].at
        ensures v !in rs[k].at
      {
        WhoIsWhere(i, pls, bs, rs, val, j, v);
        if v in rs[k].at { WhoIsWhere(i, pls, bs, rs, val, k, v); }
      }
    }
  }

  // ---------------------------------------------------------------------------
  // Results nobody uses
  // ---------------------------------------------------------------------------

  function Without(r: Regs, dead: seq<SSA>): Regs {
    r.(at := r.at - Elements(dead), pinned := r.pinned - set s | s in dead && s in r.at :: r.at[s])
  }

  function AllWithout(parts: seq<Part>, rs: seq<Regs>): seq<Regs>
    requires |parts| == |rs|
  {
    seq(|rs|, k requires 0 <= k < |rs| => Without(rs[k], parts[k].dead))
  }

  ghost function Dead(i: Instr): set<SSA> {
    set k: nat, s | k < |i.parts| && s in i.parts[k].dead :: s
  }

  lemma DeadHere(i: Instr, rs: seq<Regs>, k: nat, v: SSA)
    requires |i.parts| == |rs| && Separate(rs) && k < |rs| && v in rs[k].at && v in Dead(i)
    requires forall k :: 0 <= k < |rs| ==> Elements(i.parts[k].dead) <= rs[k].at.Keys
    ensures v in i.parts[k].dead
  {
    var j: nat :| j < |i.parts| && v in i.parts[j].dead;
    assert v in Elements(i.parts[j].dead);
    InOneFile(rs, j, k, v);
  }

  lemma SubKeepsFile(r: Regs, dead: seq<SSA>, gone: set<SSA>, val: Values, s: State)
    requires HoldsFile(r, val, s) && forall v :: v in r.at && v !in dead ==> v !in gone
    ensures HoldsFile(Without(r, dead), val - gone, s)
  {
  }

  lemma SubKeepsSeparate(parts: seq<Part>, rs: seq<Regs>)
    requires |parts| == |rs| && Separate(rs)
    ensures Separate(AllWithout(parts, rs))
  {
    forall j, k | 0 <= j < k < |rs|
      ensures Without(rs[j], parts[j].dead).file != Without(rs[k], parts[k].dead).file
      ensures Without(rs[j], parts[j].dead).at.Keys !! Without(rs[k], parts[k].dead).at.Keys
    {
    }
  }

  lemma SubKeepsPlaced(i: Instr, rs: seq<Regs>, v: SSA)
    requires |i.parts| == |rs| && Placed1(rs, v) && v !in Dead(i)
    ensures Placed1(AllWithout(i.parts, rs), v)
  {
    var k: nat :| k < |rs| && v in rs[k].at;
    assert v !in i.parts[k].dead;
    assert v in AllWithout(i.parts, rs)[k].at;
  }

  /** Freeing results nobody uses forgets them and nothing else. */
  lemma DeadFreed(i: Instr, rs: seq<Regs>, val: Values, s: State)
    requires |i.parts| == |rs| && Separate(rs) && Holds(rs, val, s)
    requires forall k :: 0 <= k < |rs| ==> Elements(i.parts[k].dead) <= rs[k].at.Keys
    ensures Separate(AllWithout(i.parts, rs)) && Holds(AllWithout(i.parts, rs), val - Dead(i), s)
  {
    SubKeepsSeparate(i.parts, rs);
    var after := AllWithout(i.parts, rs);
    forall k | 0 <= k < |rs|
      ensures HoldsFile(after[k], val - Dead(i), s)
    {
      hide Separate, Dead, Placed1, HoldsFile, Without;
      forall v | v in rs[k].at && v !in i.parts[k].dead
        ensures v !in Dead(i)
      {
        if v in Dead(i) { DeadHere(i, rs, k, v); }
      }
      SubKeepsFile(rs[k], i.parts[k].dead, Dead(i), val, s);
    }
    hide Separate, HoldsFile, Placed1, AllWithout;
    forall v | v in val - Dead(i)
      ensures Placed1(after, v)
    {
      SubKeepsPlaced(i, rs, v);
    }
  }

  // ---------------------------------------------------------------------------
  // The instruction in every file
  // ---------------------------------------------------------------------------

  /** What the allocator of one file asks of the instruction. */
  ghost predicate Asked(part: Part, hints: seq<Option<nat>>, b: Regs) {
    && Assignable(b.at, b.pinned, part.srcs, part.pred, part.killed, part.dsts)
    && FreshScalars(b.at, part.dsts, part.scalars) && |hints| == |part.scalars|
    && NoRepeats(part.dead) && Elements(part.dead) <= part.Results()
  }

  ghost predicate Failed(part: Part, b: Regs) {
    OutOfRegs(b.numRegs, b.at, b.pinned, part.srcs, part.pred, part.killed, part.dsts, part.scalars)
  }

  ghost predicate SomeFailed(parts: seq<Part>, bs: seq<Regs>) {
    exists k :: 0 <= k < |parts| && k < |bs| && Failed(parts[k], bs[k])
  }

  /** One file of `instr_assign_regs_file`. */
  method AssignOne(ra: RegAllocator, part: Part, hints: seq<Option<nat>>) returns (res: Option<Placement>)
    requires ra.Valid() && Asked(part, hints, RegsOf(ra))
    modifies ra
    ensures ra.Valid()
    ensures res.Some? ==> Assigned(part, res.value, old(RegsOf(ra)), RegsOf(ra))
    ensures res.None? ==> Failed(part, old(RegsOf(ra)))
  {
    assert forall v :: v in ra.ssaReg ==> ra.ssaReg[v] < ra.numRegs;
    hide RegAllocator.Valid, Assignable, FreshScalars, Brings, Gives, Inside, OutOfRegs;
    res := AssignFile(ra, part.srcs, part.pred, part.killed, part.dsts, part.scalars, hints);
  }

  ghost predicate DifferentAllocators(ras: seq<RegAllocator>) {
    forall j, k :: 0 <= j < k < |ras| ==> ras[j] != ras[k]
  }

  /** What the allocators say of their files. */
  ghost predicate AreRegs(ras: seq<RegAllocator>, rs: seq<Regs>)
    reads ras
  {
    |rs| == |ras| && forall k :: 0 <= k < |ras| ==> ras[k].Valid() && RegsOf(ras[k]) == rs[k]
  }

  ghost predicate AllAsked(parts: seq<Part>, hints: seq<seq<Option<nat>>>, bs: seq<Regs>) {
    |parts| == |hints| == |bs| && forall k :: 0 <= k < |bs| ==> Asked(parts[k], hints[k], bs[k])
  }

  /** The loop over the files: each appends its pairs to the one copy. */
  method AssignFiles(ras: seq<RegAllocator>, parts: seq<Part>, hints: seq<seq<Option<nat>>>, ghost bs: seq<Regs>)
    returns (res: Option<seq<Placement>>, pairs: seq<Pair>, ghost rs: seq<Regs>)
    requires DifferentAllocators(ras) && AreRegs(ras, bs) && AllAsked(parts, hints, bs)
    modifies ras
    ensures AreRegs(ras, rs)
    ensures res.Some? ==> |res.value| == |ras| && pairs == Joined(res.value, |ras|) && AllAssigned(parts, res.value, bs, rs, |ras|)
    ensures res.None? ==> SomeFailed(parts, bs)
  {
    assert |parts| == |bs| == |ras|;
    rs := bs;
    var pls: seq<Placement> := [];
    pairs := [];
    hide Asked, Assigned, AllAssigned, Joined, RegAllocator.Valid, Failed, AreRegs, AllAsked;
    NoneAssigned(parts, bs, rs);
    for i := 0 to |ras|
      invariant |pls| == i && |rs| == |ras| && pairs == Joined(pls, i) && AllAssigned(parts, pls, bs, rs, i)
      invariant AreRegs(ras, rs) && rs[i..] == bs[i..]
    {
      var pl;
      pl, rs := AssignAt(ras, parts, hints, pls, bs, rs, i);
      if pl.None? { return None, [], rs; }
      JoinedMore(pls, pl.value, i);
      pls := pls + [pl.value];
      pairs := pairs + pl.value.pairs;
    }
    return Some(pls), pairs, rs;
  }

  method AssignAt(ras: seq<RegAllocator>, parts: seq<Part>, hints: seq<seq<Option<nat>>>, ghost pls: seq<Placement>, ghost bs: seq<Regs>,
                  ghost rs0: seq<Regs>, i: nat)
    returns (pl: Option<Placement>, ghost rs: seq<Regs>)
    requires DifferentAllocators(ras) && AreRegs(ras, rs0) && i < |ras| && AllAsked(parts, hints, bs) && |bs| == |ras| && rs0[i..] == bs[i..]
    requires |pls| == i && AllAssigned(parts, pls, bs, rs0, i)
    modifies ras[i]
    ensures AreRegs(ras, rs) && |rs| == |bs| && rs[i + 1..] == bs[i + 1..]
    ensures pl.Some? ==> AllAssigned(parts, pls + [pl.value], bs, rs, i + 1)
    ensures pl.None? ==> Failed(parts[i], bs[i])
  {
    hide Asked, Assigned, RegAllocator.Valid, Failed, AllAssigned;
    assert rs0[i..][0] == bs[i..][0];
    pl := AssignOne(ras[i], parts[i], hints[i]);
    rs := rs0[i := RegsOf(ras[i])];
    assert rs[i + 1..] == rs0[i..][1..] && bs[i + 1..] == bs[i..][1..];
    if pl.Some? { AssignedMore(parts, pls, bs, rs0, i, pl.value, RegsOf(ras[i])); }
  }

  lemma NoneAssigned(parts: seq<Part>, bs: seq<Regs>, rs: seq<Regs>)
    ensures AllAssigned(parts, [], bs, rs, 0) && Joined([], 0) == []
  {
  }

  lemma {:induction false} AssignedMore(parts: seq<Part>, pls: seq<Placement>, bs: seq<Regs>, rs: seq<Regs>, n: nat, pl: Placement, r: Regs)
    requires AllAssigned(parts, pls, bs, rs, n) && n == |pls| < |parts| && n < |bs| == |rs| && Assigned(parts[n], pl, bs[n], r)
    ensures AllAssigned(parts, pls + [pl], bs, rs[n := r], n + 1)
  {
    hide Assigned;
  }

  lemma {:induction false} JoinedMore(pls: seq<Placement>, pl: Placement, n: nat)
    requires n <= |pls|
    ensures Joined(pls + [pl], n) == Joined(pls, n)
    ensures n == |pls| ==> Joined(pls + [pl], n + 1) == Joined(pls, n) + pl.pairs
  {
    if n > 0 { JoinedMore(pls, pl, n - 1); }
  }

  /** `free_killed`: the values' registers are free again. */
  method FreeDead(ra: RegAllocator, dead: seq<SSA>)
    requires ra.Valid() && NoRepeats(dead) && Elements(dead) <= ra.ssaReg.Keys
    modifies ra
    ensures ra.Valid() && RegsOf(ra) == Without(old(RegsOf(ra)), dead)
  {
    ghost var b := RegsOf(ra);
    assert dead[..0] == [] && Without(b, []) == b;
    for i := 0 to |dead|
      invariant ra.Valid() && RegsOf(ra) == Without(b, dead[..i])
    {
      WithoutMore(b, dead, i);
      hide RegAllocator.Valid, Without;
      var _ := ra.FreeSsa(dead[i]);
    }
    assert dead[..|dead|] == dead;
  }

  lemma WithoutMore(b: Regs, dead: seq<SSA>, i: nat)
    requires i < |dead| && NoRepeats(dead) && Elements(dead) <= b.at.Keys
    ensures var r := Without(b, dead[..i]);
            && dead[i] in r.at && r.file == b.file && r.numRegs == b.numRegs
            && Without(b, dead[..i + 1]) == r.(at := r.at - {dead[i]}, pinned := r.pinned - {r.at[dead[i]]})
  {
    assert dead[i] in Elements(dead) && dead[i] !in dead[..i];
    assert dead[..i + 1] == dead[..i] + [dead[i]];
    assert Elements(dead[..i + 1]) == Elements(dead[..i]) + {dead[i]};
    var gone, gone' := set s | s in dead[..i] && s in b.at :: b.at[s], set s | s in dead[..i + 1] && s in b.at :: b.at[s];
    assert gone' == gone + {b.at[dead[i]]};
  }

  method FreeAllDead(ras: seq<RegAllocator>, parts: seq<Part>, ghost rs: seq<Regs>)
    requires DifferentAllocators(ras) && AreRegs(ras, rs) && |parts| == |rs|
    requires forall k :: 0 <= k < |parts| ==> NoRepeats(parts[k].dead) && Elements(parts[k].dead) <= rs[k].at.Keys
    modifies ras
    ensures AreRegs(ras, AllWithout(parts, rs))
  {
    ghost var now := rs;
    assert |ras| == |rs|;
    hide RegAllocator.Valid, Without, AreRegs;
    for i := 0 to |ras|
      invariant AreRegs(ras, now) && |now| == |rs|
      invariant forall k :: 0 <= k < i ==> now[k] == Without(rs[k], parts[k].dead)
      invariant forall k :: i <= k < |rs| ==> now[k] == rs[k]
    {
      FreeAt(ras, parts, i, now);
      now := now[i := Without(rs[i], parts[i].dead)];
    }
    assert now == AllWithout(parts, rs);
  }

  method FreeAt(ras: seq<RegAllocator>, parts: seq<Part>, i: nat, ghost rs: seq<Regs>)
    requires DifferentAllocators(ras) && AreRegs(ras, rs) && i < |ras| == |parts|
    requires NoRepeats(parts[i].dead) && Elements(parts[i].dead) <= rs[i].at.Keys
    modifies ras[i]
    ensures AreRegs(ras, rs[i := Without(rs[i], parts[i].dead)])
  {
    hide RegAllocator.Valid, Without;
    FreeDead(ras[i], parts[i].dead);
  }

  // ---------------------------------------------------------------------------
  // Down to machine moves
  // ---------------------------------------------------------------------------

  /** A move the next two passes can express without ado. */
  predicate PlainMove(p: Pair, tmp: RegRef) {
    && p.src.FromReg? && p.src.reg.file == p.dst.file && p.dst.file !in {Bar, Mem, Carry}
    && !tmp.Covers(p.dst) && !tmp.Covers(p.src.reg)
  }

  lemma PlainLowers(pairs: seq<Pair>, tmp: RegRef)
    requires Distinct(pairs) && tmp.file == GPR && tmp.comps > 0
    requires forall i :: 0 <= i < |pairs| ==> PlainMove(pairs[i], tmp)
    ensures LowerParCopies.Valid(ParCopy(pairs, Some(tmp))) && LowerParCopies.Lowerable(ParCopy(pairs, Some(tmp)))
  {
  }

  /** The files whose moves need a second temporary, or have none, hold scalars only. */
  ghost predicate VectorFiles(parts: seq<Part>, bs: seq<Regs>) {
    |parts| == |bs| && forall k :: 0 <= k < |bs| ==> bs[k].file in {Bar, Mem, Carry} ==> parts[k].ScalarOnly()
  }

  /** The copy joined over all files is one the copy-lowering pass accepts with a single
      GPR above the allocator's, and it lowers to moves the next pass accepts: scalars
      never move, so no barrier, memory or carry register occurs in it. */
  lemma {:induction false} RepairLowers(parts: seq<Part>, pls: seq<Placement>, bs: seq<Regs>, rs: seq<Regs>, tmp: RegRef)
    requires AllAssigned(parts, pls, bs, rs, |bs|) && Separate(bs) && |pls| == |bs| && VectorFiles(parts, bs)
    requires tmp.file == GPR && tmp.comps > 0 && TmpClear(Some(tmp), bs)
    ensures LowerParCopies.Valid(ParCopy(Joined(pls, |pls|), Some(tmp))) && LowerParCopies.Lowerable(ParCopy(Joined(pls, |pls|), Some(tmp)))
  {
    JoinedDistinct(parts, pls, bs, rs, |bs|);
    var pairs := Joined(pls, |pls|);
    hide Joined, AllAssigned, Assigned, Separate, Distinct, Part.ScalarOnly;
    forall i | 0 <= i < |pairs|
      ensures PlainMove(pairs[i], tmp)
    {
      assert pairs[i] in pairs;
      var k := PairOfFile(parts, pls, bs, rs, |bs|, pairs[i]);
      MovesOnly(parts, pls, bs, rs, k);
      assert TmpAbove(Some(tmp), bs[k].file, bs[k].numRegs);
    }
    PlainLowers(pairs, tmp);
  }

  lemma {:induction false} MovesOnly(parts: seq<Part>, pls: seq<Placement>, bs: seq<Regs>, rs: seq<Regs>, k: nat)
    requires AllAssigned(parts, pls, bs, rs, |bs|) && |pls| == |bs| && k < |bs|
    ensures parts[k].ScalarOnly() ==> pls[k].pairs == []
  {
    assert Assigned(parts[k], pls[k], bs[k], rs[k]);
  }

  /** The results of an instruction that are in no use are among its results. */
  lemma {:induction false} DeadPlaced(i: Instr, pls: seq<Placement>, hints: seq<seq<Option<nat>>>, bs: seq<Regs>, rs: seq<Regs>)
    requires |i.parts| == |pls| == |bs| == |rs| && AllAsked(i.parts, hints, bs) && AllAssigned(i.parts, pls, bs, rs, |bs|)
    ensures forall k :: 0 <= k < |rs| ==> NoRepeats(i.parts[k].dead) && Elements(i.parts[k].dead) <= rs[k].at.Keys
    ensures forall k :: 0 <= k < |rs| ==> Elements(i.parts[k].killed) <= bs[k].at.Keys
  {
    forall k | 0 <= k < |rs|
      ensures NoRepeats(i.parts[k].dead) && Elements(i.parts[k].dead) <= rs[k].at.Keys && Elements(i.parts[k].killed) <= bs[k].at.Keys
    {
      assert Asked(i.parts[k], hints[k], bs[k]) && Assigned(i.parts[k], pls[k], bs[k], rs[k]);
      KilledKnown(bs[k].at, bs[k].pinned, i.parts[k].srcs, i.parts[k].pred, i.parts[k].killed, i.parts[k].dsts);
    }
  }

  /** The default case of `assign_regs_instr`: the instruction is placed in every file,
      one copy is recorded, and results nobody uses are freed. */
  method AssignRegsInstr(ras: seq<RegAllocator>, i: Instr, hints: seq<seq<Option<nat>>>, tmpGprs: nat, ghost bs: seq<Regs>)
    returns (res: Option<seq<Placement>>, pc: ParCopy, ghost rs: seq<Regs>)
    requires |ras| > 0 && ras[0].file == GPR && tmpGprs > 0
    requires DifferentAllocators(ras) && AreRegs(ras, bs) && AllAsked(i.parts, hints, bs) && Separate(bs) && VectorFiles(i.parts, bs)
    modifies ras
    ensures res.Some? ==> |res.value| == |rs| == |bs| && AreRegs(ras, AllWithout(i.parts, rs)) && AllAssigned(i.parts, res.value, bs, rs, |bs|)
    ensures res.Some? ==> pc == ParCopy(Joined(res.value, |bs|), Some(RegRef(GPR, bs[0].numRegs, tmpGprs)))
    ensures res.Some? ==> LowerParCopies.Valid(pc) && LowerParCopies.Lowerable(pc) && TmpClear(pc.tmp, bs)
    ensures res.None? ==> SomeFailed(i.parts, bs)
  {
    var tmp := RegRef(GPR, ras[0].numRegs, tmpGprs);
    TmpIsClear(bs, tmp);
    assert |ras| == |bs| == |i.parts| && bs[0].numRegs == tmp.base;
    hide AreRegs, AllAssigned, AllAsked, SomeFailed, Joined, Separate, VectorFiles, TmpClear, AllWithout, RegAllocator.Valid;
    var pairs;
    res, pairs, rs := AssignFiles(ras, i.parts, hints, bs);
    pc := ParCopy(pairs, Some(tmp));
    if res.None? { return; }
    RepairLowers(i.parts, res.value, bs, rs, tmp);
    SameLength(ras, rs);
    DeadPlaced(i, res.value, hints, bs, rs);
    FreeAllDead(ras, i.parts, rs);
  }

  lemma SameLength(ras: seq<RegAllocator>, rs: seq<Regs>)
    requires AreRegs(ras, rs)
    ensures |rs| == |ras|
  {
  }

  lemma TmpIsClear(bs: seq<Regs>, tmp: RegRef)
    requires |bs| > 0 && bs[0].file == GPR && bs[0].numRegs == tmp.base && tmp.file == GPR && Separate(bs)
    ensures TmpClear(Some(tmp), bs)
  {
  }

  /** The whole chain: the machine code for the one copy, then the instruction, keep the
      machine's registers and local memory in step with the values of all files. */
  lemma {:induction false} InstrOnMachine(i: Instr, pls: seq<Placement>, tmp: Option<RegRef>, bs: seq<Regs>, rs: seq<Regs>, val: Values,
                                          code: seq<Move>, slmStart: nat, ops: seq<LowerCopySwap.MachOp>, m: LowerCopySwap.Machine, u: State)
    requires Ready(i, pls, bs, rs, val) && TmpClear(tmp, bs)
    requires forall k :: 0 <= k < |rs| ==> Elements(i.parts[k].dead) <= rs[k].at.Keys
    requires LowerParCopies.Implements(ParCopy(Joined(pls, |pls|), tmp), code) && LowerCopySwap.Simulates(slmStart, ops, code)
    requires Holds(bs, val, LowerCopySwap.Abs(slmStart, m))
    requires Executes(i, pls, rs, LowerCopySwap.Abs(slmStart, LowerCopySwap.ExecAll(ops, m)), u)
    ensures OperandsIn(i, val) && Separate(AllWithout(i.parts, rs)) && Holds(AllWithout(i.parts, rs), Eval1(i, val) - Dead(i), u)
  {
    assert |i.parts| == |rs|;
    StaysSeparate(i, pls, bs, rs, val, LowerCopySwap.Abs(slmStart, m));
    hide Holds, Executes, Ready, TmpClear, Joined, AllWithout, Separate;
    LowerParCopies.ParallelOnMachine(ParCopy(Joined(pls, |pls|), tmp), code, slmStart, ops, m);
    InstrRefines(i, pls, tmp, bs, rs, val, LowerCopySwap.Abs(slmStart, m), LowerCopySwap.Abs(slmStart, LowerCopySwap.ExecAll(ops, m)), u);
    DeadFreed(i, rs, Eval1(i, val), u);
  }

  /** Whatever the values and the machine: if it held the values before, the emitted code
      and then the instruction leave it holding the instruction's values. */
  ghost predicate Correct(i: Instr, pls: seq<Placement>, bs: seq<Regs>, rs: seq<Regs>, slmStart: nat, ops: seq<LowerCopySwap.MachOp>)
    requires |i.parts| == |rs|
  {
    forall val: Values, m: LowerCopySwap.Machine, u: State ::
      && i.Total() && i.Results() !! val.Keys && Holds(bs, val, LowerCopySwap.Abs(slmStart, m))
      && Executes(i, pls, rs, LowerCopySwap.Abs(slmStart, LowerCopySwap.ExecAll(ops, m)), u)
      ==> OperandsIn(i, val) && Holds(AllWithout(i.parts, rs), Eval1(i, val) - Dead(i), u)
  }

  /** The two lowering passes. */
  method LowerInstrCopy(ghost i: Instr, ghost pls: seq<Placement>, ghost hints: seq<seq<Option<nat>>>, pc: ParCopy, ghost bs: seq<Regs>,
                        ghost rs: seq<Regs>, slmStart: nat, sm: nat)
    returns (ops: seq<LowerCopySwap.MachOp>)
    requires LowerParCopies.Valid(pc) && LowerParCopies.Lowerable(pc)
    requires |i.parts| == |pls| == |bs| == |rs| && Separate(bs) && AllAsked(i.parts, hints, bs) && AllAssigned(i.parts, pls, bs, rs, |bs|)
    requires TmpClear(pc.tmp, bs) && pc.pairs == Joined(pls, |bs|)
    ensures Correct(i, pls, bs, rs, slmStart, ops) && LowerCopySwap.AllAvailable(sm, ops)
  {
    hide LowerCopySwap.AllAvailable, AllAssigned, AllAsked, Joined, Separate, TmpClear, Correct,
         LowerParCopies.Valid, LowerParCopies.Lowerable, LowerParCopies.Implements, LowerCopySwap.Simulates;
    var code := LowerParCopies.LowerParCopy(pc);
    var pass := new LowerCopySwap.LowerCopySwap(slmStart);
    ops := pass.Lower(sm, code);
    CompiledCorrect(i, pls, hints, pc.tmp, bs, rs, code, slmStart, ops);
  }

  /** Allocation and the two lowering passes behind it, for one instruction: they fail
      only where registers run out, and what they emit is correct. */
  method InstrToMachine(ras: seq<RegAllocator>, i: Instr, hints: seq<seq<Option<nat>>>, tmpGprs: nat, ghost bs: seq<Regs>,
                        slmStart: nat, sm: nat)
    returns (res: Option<seq<Placement>>, ops: seq<LowerCopySwap.MachOp>, ghost rs: seq<Regs>)
    requires |ras| > 0 && ras[0].file == GPR && tmpGprs > 0
    requires DifferentAllocators(ras) && AreRegs(ras, bs) && AllAsked(i.parts, hints, bs) && Separate(bs) && VectorFiles(i.parts, bs)
    modifies ras
    ensures res.Some? ==> |rs| == |i.parts| && AreRegs(ras, AllWithout(i.parts, rs)) && Correct(i, res.value, bs, rs, slmStart, ops)
    ensures res.None? ==> SomeFailed(i.parts, bs)
    ensures LowerCopySwap.AllAvailable(sm, ops)
  {
    assert |ras| == |bs| == |i.parts|;
    hide DifferentAllocators, AreRegs, AllAssigned, AllAsked, SomeFailed, Joined, Separate, VectorFiles, TmpClear, AllWithout, Correct,
         RegAllocator.Valid, LowerParCopies.Valid, LowerParCopies.Lowerable;
    var pc;
    res, pc, rs := AssignRegsInstr(ras, i, hints, tmpGprs, bs);
    ops := [];
    if res.Some? { ops := LowerInstrCopy(i, res.value, hints, pc, bs, rs, slmStart, sm); }
  }

  lemma {:induction false} CompiledCorrect(i: Instr, pls: seq<Placement>, hints: seq<seq<Option<nat>>>, tmp: Option<RegRef>, bs: seq<Regs>, rs: seq<Regs>,
                                           code: seq<Move>, slmStart: nat, ops: seq<LowerCopySwap.MachOp>)
    requires |i.parts| == |pls| == |bs| == |rs| && Separate(bs) && AllAsked(i.parts, hints, bs) && AllAssigned(i.parts, pls, bs, rs, |bs|)
    requires TmpClear(tmp, bs)
    requires LowerParCopies.Implements(ParCopy(Joined(pls, |pls|), tmp), code) && LowerCopySwap.Simulates(slmStart, ops, code)
    ensures Correct(i, pls, bs, rs, slmStart, ops)
  {
    DeadPlaced(i, pls, hints, bs, rs);
    hide Holds, Executes, TmpClear, Joined, AllWithout, Separate, AllAsked, AllAssigned, Eval1, Dead, OperandsIn,
         LowerParCopies.Implements, LowerCopySwap.Simulates;
    forall val: Values, m: LowerCopySwap.Machine, u: State |
      && i.Total() && i.Results() !! val.Keys && Holds(bs, val, LowerCopySwap.Abs(slmStart, m))
      && Executes(i, pls, rs, LowerCopySwap.Abs(slmStart, LowerCopySwap.ExecAll(ops, m)), u)
      ensures OperandsIn(i, val) && Holds(AllWithout(i.parts, rs), Eval1(i, val) - Dead(i), u)
    {
      InstrOnMachine(i, pls, tmp, bs, rs, val, code, slmStart, ops, m, u);
    }
  }
}
