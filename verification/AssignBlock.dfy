/** The block-level half of `assign_regs.rs`: what is live into a block and where,
    and the copy on each edge into it. */
module AssignBlock {
  import opened Wrappers
  import opened Ir
  import opened AssignRegs
  import opened InstrMeaning
  import AssignInstr
  import Finite
  import LowerCopySwap
  import LowerParCopies

  type Phi = nat

  datatype LiveRef = LSsa(ssa: SSA) | LPhi(phi: Phi)

  datatype LiveValue = LiveValue(ref: LiveRef, reg: Reg)

  /** No two live-in values share a register. */
  predicate Apart(liveIn: seq<LiveValue>) {
    forall i, j :: 0 <= i < j < |liveIn| ==> liveIn[i].reg != liveIn[j].reg
  }

  /** Of one file: the values of the predecessor that are live into the block keep
      their registers, and nothing else is live in. */
  ghost predicate Inherits(file: RegFile, pred: map<SSA, nat>, live: set<SSA>, at: map<SSA, nat>, liveIn: seq<LiveValue>) {
    && at == (map s | s in pred && s in live :: pred[s])
    && (forall s :: s in at ==> LiveValue(LSsa(s), Reg(file, at[s])) in liveIn)
    && (forall i :: 0 <= i < |liveIn| ==>
          liveIn[i].ref.LSsa? && liveIn[i].ref.ssa in at && liveIn[i].reg == Reg(file, at[liveIn[i].ref.ssa]))
  }

  ghost predicate Populating(pred: RegAllocator, ra: RegAllocator, live: set<SSA>, done: set<SSA>, liveIn: seq<LiveValue>)
    reads pred, ra
  {
    && ra.Valid() && ra.file == pred.file && ra.numRegs == pred.numRegs && ra.pinned == pred.pinned * ra.used
    && Inherits(pred.file, pred.ssaReg, live * done, ra.ssaReg, liveIn) && Apart(liveIn)
  }

  method InheritOne(pred: RegAllocator, ra: RegAllocator, s: SSA, liveIn0: seq<LiveValue>, ghost live: set<SSA>, ghost done: set<SSA>)
    returns (liveIn: seq<LiveValue>)
    requires ra != pred && pred.Valid() && Populating(pred, ra, live, done, liveIn0)
    requires s in pred.ssaReg && s in live && s !in done
    modifies ra
    ensures pred.Valid() && Populating(pred, ra, live, done + {s}, liveIn)
  {
    var reg := pred.ssaReg[s];
    assert Finite.Injective(pred.ssaReg);
    assert live * (done + {s} - {s}) == live * done;
    NotUsedYet(pred, ra, s);
    InheritsNext(pred.file, pred.ssaReg, live, done + {s}, s, ra.ssaReg, liveIn0);
    hide Inherits, Apart;
    ra.AssignReg(s, reg);
    if reg in pred.pinned { ra.PinReg(reg); }
    liveIn := liveIn0 + [LiveValue(LSsa(s), Reg(pred.file, reg))];
  }

  /** The part of the block's allocator that starts from its first predecessor's. */
  method PopulateLiveIn(pred: RegAllocator, live: set<SSA>) returns (ra: RegAllocator, liveIn: seq<LiveValue>)
    requires pred.Valid()
    ensures fresh(ra) && ra.Valid() && ra.file == pred.file && ra.numRegs == pred.numRegs
    ensures Inherits(pred.file, pred.ssaReg, live, ra.ssaReg, liveIn) && Apart(liveIn)
    ensures ra.pinned == pred.pinned * ra.used
  {
    ra := new RegAllocator(pred.file, pred.numRegs);
    liveIn := [];
    var left := pred.ssaReg.Keys;
    ghost var done: set<SSA> := {};
    assert Populating(pred, ra, live, done, liveIn);
    hide Populating, RegAllocator.Valid;
    while left != {}
      invariant fresh(ra) && pred.Valid() && left + done == pred.ssaReg.Keys && left !! done
      invariant Populating(pred, ra, live, done, liveIn)
    {
      var s :| s in left;
      if s in live {
        liveIn := InheritOne(pred, ra, s, liveIn, live, done);
      } else {
        SkipDead(pred, ra, live, done, s, liveIn);
      }
      left, done := left - {s}, done + {s};
    }
    Populated(pred, ra, live, liveIn);
  }

  lemma SkipDead(pred: RegAllocator, ra: RegAllocator, live: set<SSA>, done: set<SSA>, s: SSA, liveIn: seq<LiveValue>)
    requires Populating(pred, ra, live, done, liveIn) && s !in live
    ensures Populating(pred, ra, live, done + {s}, liveIn)
  {
    assert live * (done + {s}) == live * done;
  }

  lemma Populated(pred: RegAllocator, ra: RegAllocator, live: set<SSA>, liveIn: seq<LiveValue>)
    requires Populating(pred, ra, live, pred.ssaReg.Keys, liveIn)
    ensures ra.Valid() && ra.file == pred.file && ra.numRegs == pred.numRegs && ra.pinned == pred.pinned * ra.used
    ensures Inherits(pred.file, pred.ssaReg, live, ra.ssaReg, liveIn) && Apart(liveIn)
  {
    var m := pred.ssaReg;
    assert (map s | s in m && s in live :: m[s]) == (map s | s in m && s in live * m.Keys :: m[s]);
  }

  lemma NotUsedYet(pred: RegAllocator, ra: RegAllocator, s: SSA)
    requires pred.Valid() && ra.Valid() && s in pred.ssaReg && s !in ra.ssaReg
    requires forall v :: v in ra.ssaReg ==> v in pred.ssaReg && ra.ssaReg[v] == pred.ssaReg[v]
    ensures pred.ssaReg[s] !in ra.used && pred.ssaReg[s] < pred.numRegs
  {
  }

  lemma InheritsNext(file: RegFile, pred: map<SSA, nat>, live: set<SSA>, done: set<SSA>, s: SSA, at: map<SSA, nat>, liveIn: seq<LiveValue>)
    requires s in pred && s in live && s in done && Finite.Injective(pred)
    requires Inherits(file, pred, live * (done - {s}), at, liveIn) && Apart(liveIn)
    ensures Inherits(file, pred, live * done, at[s := pred[s]], liveIn + [LiveValue(LSsa(s), Reg(file, pred[s]))])
    ensures Apart(liveIn + [LiveValue(LSsa(s), Reg(file, pred[s]))])
  {
    var liveIn' := liveIn + [LiveValue(LSsa(s), Reg(file, pred[s]))];
    forall v | v in at[s := pred[s]]
      ensures LiveValue(LSsa(v), Reg(file, at[s := pred[s]][v])) in liveIn'
    {
      if v == s {
        assert liveIn'[|liveIn|] == LiveValue(LSsa(s), Reg(file, pred[s]));
      } else {
        assert LiveValue(LSsa(v), Reg(file, at[v])) in liveIn;
      }
    }
  }

  // ---- all files

  /** The lists of the first `n` files, one behind the other. */
  function Together(lists: seq<seq<LiveValue>>, n: nat): seq<LiveValue>
    requires n <= |lists|
  {
    if n == 0 then [] else Together(lists, n - 1) + lists[n - 1]
  }

  /** Of each file: what the block inherits there. */
  ghost predicate InheritsFiles(preds: seq<Regs>, live: set<SSA>, rs: seq<Regs>, lists: seq<seq<LiveValue>>, n: nat) {
    && n <= |preds| && n <= |rs| && n <= |lists|
    && forall k :: 0 <= k < n ==>
         && rs[k].file == preds[k].file && rs[k].numRegs == preds[k].numRegs
         && Inherits(preds[k].file, preds[k].at, live, rs[k].at, lists[k]) && Apart(lists[k])
  }

  ghost predicate FilesDiffer(rs: seq<Regs>) {
    forall j, k :: 0 <= j < k < |rs| ==> rs[j].file != rs[k].file
  }

  lemma {:induction false} TogetherFile(preds: seq<Regs>, live: set<SSA>, rs: seq<Regs>, lists: seq<seq<LiveValue>>, n: nat, lv: LiveValue)
    returns (k: nat)
    requires InheritsFiles(preds, live, rs, lists, n) && lv in Together(lists, n)
    ensures k < n && lv.reg.file == preds[k].file && lv.ref.LSsa? && lv.ref.ssa in rs[k].at && lv.reg.idx == rs[k].at[lv.ref.ssa]
  {
    if lv in lists[n - 1] {
      k := n - 1;
      assert Inherits(preds[k].file, preds[k].at, live, rs[k].at, lists[k]);
    } else {
      k := TogetherFile(preds, live, rs, lists, n - 1, lv);
    }
  }

  lemma ApartConcat(a: seq<LiveValue>, b: seq<LiveValue>)
    requires Apart(a) && Apart(b) && forall x, y :: x in a && y in b ==> x.reg != y.reg
    ensures Apart(a + b)
  {
  }

  /** What is live in from different files is apart because the files are. */
  lemma {:induction false} TogetherApart(preds: seq<Regs>, live: set<SSA>, rs: seq<Regs>, lists: seq<seq<LiveValue>>, n: nat)
    requires InheritsFiles(preds, live, rs, lists, n) && FilesDiffer(preds)
    ensures Apart(Together(lists, n))
  {
    if n > 0 {
      TogetherApart(preds, live, rs, lists, n - 1);
      forall x, y | x in Together(lists, n - 1) && y in lists[n - 1]
        ensures x.reg != y.reg
      {
        var k := TogetherFile(preds, live, rs, lists, n - 1, x);
        assert Inherits(preds[n - 1].file, preds[n - 1].at, live, rs[n - 1].at, lists[n - 1]);
      }
      ApartConcat(Together(lists, n - 1), lists[n - 1]);
    }
  }

  /** Every allocator of the block starts from the first predecessor's for its file. */
  method PopulateFiles(preds: seq<RegAllocator>, live: set<SSA>, ghost ps: seq<Regs>)
    returns (ras: seq<RegAllocator>, liveIn: seq<LiveValue>, ghost rs: seq<Regs>, ghost lists: seq<seq<LiveValue>>)
    requires AreRegs(preds, ps) && FilesDiffer(ps)
    ensures fresh(ras) && DifferentAllocators(ras) && AreRegs(ras, rs) && |ras| == |preds| == |lists|
    ensures InheritsFiles(ps, live, rs, lists, |ps|) && liveIn == Together(lists, |ps|) && Apart(liveIn)
  {
    ras, liveIn, rs, lists := [], [], [], [];
    hide Inherits, Apart, RegAllocator.Valid;
    for k := 0 to |preds|
      invariant fresh(ras) && DifferentAllocators(ras) && AreRegs(ras, rs) && |ras| == |lists| == k && AreRegs(preds, ps)
      invariant InheritsFiles(ps, live, rs, lists, k) && liveIn == Together(lists, k)
    {
      var ra, list := PopulateLiveIn(preds[k], live);
      TogetherMore(lists, list, k);
      ras, liveIn := ras + [ra], liveIn + list;
      rs, lists := rs + [RegsOf(ra)], lists + [list];
    }
    TogetherApart(ps, live, rs, lists, |ps|);
  }

  lemma {:induction false} TogetherMore(lists: seq<seq<LiveValue>>, list: seq<LiveValue>, n: nat)
    requires n <= |lists|
    ensures Together(lists + [list], n) == Together(lists, n)
    ensures n == |lists| ==> Together(lists + [list], n + 1) == Together(lists, n) + list
  {
    if n > 0 { TogetherMore(lists, list, n - 1); }
  }

  // ---- phis

  datatype PhiDst = PhiDst(phi: Phi, ssa: SSA, file: nat)

  ghost predicate Occupied(rs: seq<Regs>, r: Reg) {
    exists k :: 0 <= k < |rs| && rs[k].file == r.file && r.idx in rs[k].at.Values
  }

  ghost predicate AllOccupied(rs: seq<Regs>, liveIn: seq<LiveValue>) {
    forall i :: 0 <= i < |liveIn| ==> Occupied(rs, liveIn[i].reg)
  }

  /** Values stay where they are, others join them. */
  ghost predicate Joins(a: seq<Regs>, b: seq<Regs>) {
    |b| == |a| && forall k :: 0 <= k < |a| ==> JoinsFile(a[k], b[k])
  }

  ghost predicate JoinsFile(a: Regs, b: Regs) {
    b.file == a.file && b.numRegs == a.numRegs && forall s :: s in a.at ==> s in b.at && b.at[s] == a.at[s]
  }

  /** The phi's entry names the register its value has. */
  ghost predicate PhiPlaced(rs: seq<Regs>, p: PhiDst, lv: LiveValue) {
    p.file < |rs| && p.ssa in rs[p.file].at && lv == LiveValue(LPhi(p.phi), Reg(rs[p.file].file, rs[p.file].at[p.ssa]))
  }

  ghost predicate FileFull(r: Regs) {
    forall i: nat :: i < r.numRegs ==> i in r.at.Values
  }

  lemma OccupiedStays(a: seq<Regs>, b: seq<Regs>, r: Reg)
    requires Occupied(a, r) && Joins(a, b)
    ensures Occupied(b, r)
  {
    var k :| 0 <= k < |a| && a[k].file == r.file && r.idx in a[k].at.Values;
    var s :| s in a[k].at && a[k].at[s] == r.idx;
    assert JoinsFile(a[k], b[k]) && b[k].at[s] == r.idx;
  }

  lemma PhiStays(a: seq<Regs>, b: seq<Regs>, p: PhiDst, lv: LiveValue)
    requires PhiPlaced(a, p, lv) && Joins(a, b)
    ensures PhiPlaced(b, p, lv)
  {
    assert JoinsFile(a[p.file], b[p.file]);
  }

  lemma NewApart(rs: seq<Regs>, liveIn: seq<LiveValue>, f: nat, idx: nat, ref: LiveRef)
    requires Apart(liveIn) && AllOccupied(rs, liveIn) && FilesDiffer(rs) && f < |rs| && idx !in rs[f].at.Values
    ensures Apart(liveIn + [LiveValue(ref, Reg(rs[f].file, idx))])
  {
    forall i | 0 <= i < |liveIn|
      ensures liveIn[i].reg != Reg(rs[f].file, idx)
    {
      assert Occupied(rs, liveIn[i].reg);
    }
  }

  lemma NewOccupied(a: seq<Regs>, b: seq<Regs>, liveIn: seq<LiveValue>, p: PhiDst, lv: LiveValue)
    requires AllOccupied(a, liveIn) && Joins(a, b) && PhiPlaced(b, p, lv)
    ensures AllOccupied(b, liveIn + [lv])
  {
    forall i | 0 <= i < |liveIn|
      ensures Occupied(b, liveIn[i].reg)
    {
      OccupiedStays(a, b, liveIn[i].reg);
    }
    assert b[p.file].at[p.ssa] in b[p.file].at.Values;
    assert Occupied(b, lv.reg);
  }

  /** One phi: a free register of its file. */
  method AllocPhi(ras: seq<RegAllocator>, p: PhiDst, hint: Option<nat>, liveIn0: seq<LiveValue>, ghost rs0: seq<Regs>)
    returns (liveIn: Option<seq<LiveValue>>, ghost rs: seq<Regs>)
    requires DifferentAllocators(ras) && AreRegs(ras, rs0) && FilesDiffer(rs0) && AllOccupied(rs0, liveIn0) && Apart(liveIn0)
    requires p.file < |ras| && p.ssa !in rs0[p.file].at
    modifies ras[p.file]
    ensures liveIn.Some? ==> AreRegs(ras, rs) && Joins(rs0, rs) && |rs| == |ras| && rs == rs0[p.file := rs[p.file]] && rs[p.file].at.Keys == rs0[p.file].at.Keys + {p.ssa}
    ensures liveIn.Some? ==> |liveIn.value| == |liveIn0| + 1 && liveIn.value[..|liveIn0|] == liveIn0 && PhiPlaced(rs, p, liveIn.value[|liveIn0|])
    ensures liveIn.Some? ==> AllOccupied(rs, liveIn.value) && Apart(liveIn.value)
    ensures liveIn.None? ==> FileFull(rs0[p.file])
  {
    UsedAreValues(ras[p.file]);
    hide AllOccupied, Apart, FilesDiffer, RegAllocator.Valid;
    rs := rs0;
    var reg := AssignInstr.AllocScalar(ras[p.file], p.ssa, hint);
    if reg.None? {
      UsedAreValues(ras[p.file]);
      return None, rs;
    }
    rs := rs0[p.file := RegsOf(ras[p.file])];
    var lv := LiveValue(LPhi(p.phi), Reg(ras[p.file].file, reg.value));
    NewApart(rs0, liveIn0, p.file, reg.value, lv.ref);
    NewOccupied(rs0, rs, liveIn0, p, lv);
    return Some(liveIn0 + [lv]), rs;
  }

  ghost predicate PhisPlaced(rs: seq<Regs>, phis: seq<PhiDst>, liveIn: seq<LiveValue>, from: nat, n: nat) {
    n <= |phis| && from + n <= |liveIn| && forall i :: 0 <= i < n ==> PhiPlaced(rs, phis[i], liveIn[from + i])
  }

  ghost predicate PhisNew(rs: seq<Regs>, phis: seq<PhiDst>, n: nat) {
    && (forall i :: n <= i < |phis| ==> phis[i].file < |rs| && phis[i].ssa !in rs[phis[i].file].at)
    && (forall i, j :: 0 <= i < j < |phis| ==> phis[i].ssa != phis[j].ssa)
  }

  lemma PhisNext(a: seq<Regs>, b: seq<Regs>, phis: seq<PhiDst>, n: nat, from: nat, liveIn: seq<LiveValue>, liveIn': seq<LiveValue>)
    requires n < |phis| && PhisNew(a, phis, n) && PhisPlaced(a, phis, liveIn, from, n) && |liveIn| == from + n
    requires Joins(a, b) && b == a[phis[n].file := b[phis[n].file]] && b[phis[n].file].at.Keys == a[phis[n].file].at.Keys + {phis[n].ssa}
    requires |liveIn'| == |liveIn| + 1 && liveIn'[..|liveIn|] == liveIn && PhiPlaced(b, phis[n], liveIn'[|liveIn|])
    ensures PhisNew(b, phis, n + 1) && PhisPlaced(b, phis, liveIn', from, n + 1)
  {
    forall i | 0 <= i < n
      ensures PhiPlaced(b, phis[i], liveIn'[from + i])
    {
      assert PhiPlaced(a, phis[i], liveIn[from + i]);
      PhiStays(a, b, phis[i], liveIn[from + i]);
      assert liveIn'[..|liveIn|][from + i] == liveIn[from + i];
    }
  }

  lemma JoinsTrans(a: seq<Regs>, b: seq<Regs>, c: seq<Regs>)
    requires Joins(a, b) && Joins(b, c)
    ensures Joins(a, c) && (FilesDiffer(a) ==> FilesDiffer(c))
  {
    forall k | 0 <= k < |a|
      ensures JoinsFile(a[k], c[k])
    {
      assert JoinsFile(a[k], b[k]) && JoinsFile(b[k], c[k]);
    }
  }

  /** Each phi of the block gets a register of its file that nothing live into it has. */
  method AllocPhis(ras: seq<RegAllocator>, phis: seq<PhiDst>, hints: seq<Option<nat>>, liveIn0: seq<LiveValue>, ghost rs0: seq<Regs>)
    returns (liveIn: Option<seq<LiveValue>>, ghost rs: seq<Regs>)
    requires DifferentAllocators(ras) && AreRegs(ras, rs0) && FilesDiffer(rs0) && AllOccupied(rs0, liveIn0) && Apart(liveIn0)
    requires |hints| == |phis| && PhisNew(rs0, phis, 0)
    modifies ras
    ensures liveIn.Some? ==> AreRegs(ras, rs) && Joins(rs0, rs) && AllOccupied(rs, liveIn.value) && Apart(liveIn.value)
    ensures liveIn.Some? ==> |liveIn.value| == |liveIn0| + |phis| && liveIn.value[..|liveIn0|] == liveIn0
    ensures liveIn.Some? ==> PhisPlaced(rs, phis, liveIn.value, |liveIn0|, |phis|)
    ensures liveIn.None? ==> exists k :: 0 <= k < |rs| && FileFull(rs[k])
  {
    rs := rs0;
    var list := liveIn0;
    JoinsTrans(rs0, rs0, rs0);
    assert |rs| == |ras|;
    hide AreRegs, AllOccupied, Apart, FilesDiffer, Joins, PhisPlaced, PhisNew, PhiPlaced, FileFull, RegAllocator.Valid;
    NoPhisYet(rs, phis, list);
    for i := 0 to |phis|
      invariant AreRegs(ras, rs) && Joins(rs0, rs) && |rs| == |ras| && FilesDiffer(rs) && AllOccupied(rs, list) && Apart(list)
      invariant |list| == |liveIn0| + i && list[..|liveIn0|] == liveIn0
      invariant PhisPlaced(rs, phis, list, |liveIn0|, i) && PhisNew(rs, phis, i)
    {
      NextPhi(rs, phis, i);
      ghost var before := rs;
      var more;
      more, rs := AllocPhi(ras, phis[i], hints[i], list, before);
      if more.None? { return None, before; }
      JoinsTrans(rs0, before, rs);
      JoinsTrans(before, before, rs);
      PhisNext(before, rs, phis, i, |liveIn0|, list, more.value);
      assert more.value[..|liveIn0|] == more.value[..|list|][..|liveIn0|];
      list := more.value;
    }
    return Some(list), rs;
  }

  lemma NextPhi(rs: seq<Regs>, phis: seq<PhiDst>, i: nat)
    requires PhisNew(rs, phis, i) && i < |phis|
    ensures phis[i].file < |rs| && phis[i].ssa !in rs[phis[i].file].at
  {
  }

  lemma NoPhisYet(rs: seq<Regs>, phis: seq<PhiDst>, list: seq<LiveValue>)
    ensures PhisPlaced(rs, phis, list, |list|, 0) && Joins(rs, rs)
  {
  }

  lemma {:induction false} InheritedOccupied(preds: seq<Regs>, live: set<SSA>, rs: seq<Regs>, lists: seq<seq<LiveValue>>)
    requires InheritsFiles(preds, live, rs, lists, |preds|) && |rs| == |preds| == |lists| && FilesDiffer(preds)
    ensures AllOccupied(rs, Together(lists, |preds|)) && FilesDiffer(rs)
  {
    var all := Together(lists, |preds|);
    forall i | 0 <= i < |all|
      ensures Occupied(rs, all[i].reg)
    {
      assert all[i] in all;
      var k := TogetherFile(preds, live, rs, lists, |preds|, all[i]);
      assert rs[k].at[all[i].ref.ssa] in rs[k].at.Values;
    }
  }

  /** What is live into a block, from its first predecessor and its phis: no two values
      share a register, whatever their files. */
  method BlockLiveIn(preds: seq<RegAllocator>, live: set<SSA>, phis: seq<PhiDst>, hints: seq<Option<nat>>, ghost ps: seq<Regs>)
    returns (ras: seq<RegAllocator>, liveIn: Option<seq<LiveValue>>, ghost rs: seq<Regs>, ghost lists: seq<seq<LiveValue>>)
    requires AreRegs(preds, ps) && FilesDiffer(ps) && |hints| == |phis| && PhisNew(ps, phis, 0)
    ensures fresh(ras) && |ras| == |preds| == |lists|
    ensures liveIn.Some? ==> AreRegs(ras, rs) && Apart(liveIn.value)
    ensures liveIn.Some? ==> exists bs :: InheritsFiles(ps, live, bs, lists, |ps|) && Joins(bs, rs)
    ensures liveIn.Some? ==> |liveIn.value| == |Together(lists, |preds|)| + |phis| && liveIn.value[..|Together(lists, |preds|)|] == Together(lists, |preds|)
    ensures liveIn.Some? ==> PhisPlaced(rs, phis, liveIn.value, |Together(lists, |preds|)|, |phis|)
    ensures liveIn.None? ==> exists k :: 0 <= k < |rs| && FileFull(rs[k])
  {
    assert |ps| == |preds|;
    hide Inherits, Apart, RegAllocator.Valid, FilesDiffer, PhisPlaced, PhisNew, AllOccupied, Joins, FileFull;
    var list;
    ghost var bs;
    ras, list, bs, lists := PopulateFiles(preds, live, ps);
    InheritedOccupied(ps, live, bs, lists);
    StillNew(ps, live, bs, lists, phis);
    liveIn, rs := AllocPhis(ras, phis, hints, list, bs);
  }

  lemma {:induction false} StillNew(preds: seq<Regs>, live: set<SSA>, rs: seq<Regs>, lists: seq<seq<LiveValue>>, phis: seq<PhiDst>)
    requires InheritsFiles(preds, live, rs, lists, |preds|) && |rs| == |preds| == |lists| && PhisNew(preds, phis, 0)
    ensures PhisNew(rs, phis, 0)
  {
    forall i | 0 <= i < |phis|
      ensures phis[i].ssa !in rs[phis[i].file].at
    {
      assert Inherits(preds[phis[i].file].file, preds[phis[i].file].at, live, rs[phis[i].file].at, lists[phis[i].file]);
    }
  }

  // ---------------------------------------------------------------------------
  // The copy on an edge
  // ---------------------------------------------------------------------------

  /** What a block leaves behind: where its values are, and what its phis' operands
      became. */
  datatype BlockEnd = BlockEnd(regOf: map<SSA, Reg>, phiOut: map<Phi, Src>) {
    predicate Knows(r: LiveRef) {
      match r
      case LSsa(s) => s in regOf
      case LPhi(p) => p in phiOut
    }

    function Source(r: LiveRef): Src
      requires Knows(r)
    {
      match r
      case LSsa(s) => FromReg(regOf[s])
      case LPhi(p) => phiOut[p]
    }
  }

  /** The live-in value is left alone because it is where it belongs, or copied there. */
  ghost predicate Served(end: BlockEnd, lv: LiveValue, pairs: seq<Pair>) {
    && end.Knows(lv.ref)
    && if end.Source(lv.ref) == FromReg(lv.reg) then !IsDst(pairs, lv.reg) else Pair(lv.reg, end.Source(lv.ref)) in pairs
  }

  ghost predicate FromLive(end: BlockEnd, liveIn: seq<LiveValue>, n: nat, p: Pair)
    requires n <= |liveIn|
  {
    exists i :: 0 <= i < n && end.Knows(liveIn[i].ref) && p == Pair(liveIn[i].reg, end.Source(liveIn[i].ref))
  }

  /** One pair for every live-in value that is not already where it belongs. */
  ghost predicate EdgePairs(end: BlockEnd, liveIn: seq<LiveValue>, n: nat, pairs: seq<Pair>) {
    && n <= |liveIn| && (forall i :: 0 <= i < n ==> Served(end, liveIn[i], pairs))
    && (forall k :: 0 <= k < |pairs| ==> FromLive(end, liveIn, n, pairs[k]))
  }

  lemma ServedStays(end: BlockEnd, lv: LiveValue, pairs: seq<Pair>, p: Pair)
    requires Served(end, lv, pairs) && p.dst != lv.reg
    ensures Served(end, lv, pairs + [p])
  {
  }

  lemma EdgeNext(end: BlockEnd, liveIn: seq<LiveValue>, n: nat, pairs: seq<Pair>)
    requires n < |liveIn| && Apart(liveIn) && end.Knows(liveIn[n].ref) && EdgePairs(end, liveIn, n, pairs) && Distinct(pairs)
    ensures var src := end.Source(liveIn[n].ref);
            var pairs' := if src == FromReg(liveIn[n].reg) then pairs else pairs + [Pair(liveIn[n].reg, src)];
            EdgePairs(end, liveIn, n + 1, pairs') && Distinct(pairs')
  {
    var src, dst := end.Source(liveIn[n].ref), liveIn[n].reg;
    var p := Pair(dst, src);
    var pairs' := if src == FromReg(dst) then pairs else pairs + [p];
    forall k | 0 <= k < |pairs|
      ensures pairs[k].dst != dst && FromLive(end, liveIn, n + 1, pairs[k])
    {
      assert FromLive(end, liveIn, n, pairs[k]);
    }
    assert FromLive(end, liveIn, n + 1, p);
    forall i | 0 <= i < n
      ensures Served(end, liveIn[i], pairs')
    {
      ServedStays(end, liveIn[i], pairs, p);
    }
    assert Served(end, liveIn[n], pairs') by {
      if src != FromReg(dst) { assert pairs'[|pairs|] == p; }
    }
  }

  /** `second_pass`: the copy at the end of a block for one successor. */
  method SecondPass(end: BlockEnd, liveIn: seq<LiveValue>) returns (pairs: seq<Pair>)
    requires Apart(liveIn) && forall i :: 0 <= i < |liveIn| ==> end.Knows(liveIn[i].ref)
    ensures EdgePairs(end, liveIn, |liveIn|, pairs) && Distinct(pairs)
  {
    pairs := [];
    for i := 0 to |liveIn|
      invariant EdgePairs(end, liveIn, i, pairs) && Distinct(pairs)
    {
      EdgeNext(end, liveIn, i, pairs);
      var src := end.Source(liveIn[i].ref);
      if src != FromReg(liveIn[i].reg) {
        pairs := pairs + [Pair(liveIn[i].reg, src)];
      }
    }
  }

  /** After the edge copy every value live into the successor is in the register the
      successor expects and is what it was at the end of the block. */
  lemma EdgeDelivers(end: BlockEnd, liveIn: seq<LiveValue>, pairs: seq<Pair>, tmp: Option<RegRef>, s: State, t: State)
    requires EdgePairs(end, liveIn, |liveIn|, pairs) && ParDone(ParCopy(pairs, tmp), s, t)
    requires forall i :: 0 <= i < |liveIn| ==> !IsTmp(tmp, liveIn[i].reg)
    ensures forall i :: 0 <= i < |liveIn| ==> end.Knows(liveIn[i].ref) && t(liveIn[i].reg) == Eval(end.Source(liveIn[i].ref), s)
  {
    forall i | 0 <= i < |liveIn|
      ensures end.Knows(liveIn[i].ref) && t(liveIn[i].reg) == Eval(end.Source(liveIn[i].ref), s)
    {
      assert Served(end, liveIn[i], pairs);
      if end.Source(liveIn[i].ref) != FromReg(liveIn[i].reg) {
        var k :| 0 <= k < |pairs| && pairs[k] == Pair(liveIn[i].reg, end.Source(liveIn[i].ref));
      }
    }
  }

  /** Where the successor took its live-in values from this very block and has no
      phis, nothing is copied: a block with several successors needs no edge copies
      as long as none of the edges is critical. */
  lemma InheritedEdgeEmpty(end: BlockEnd, file: RegFile, pred: map<SSA, nat>, live: set<SSA>, at: map<SSA, nat>, liveIn: seq<LiveValue>,
                           pairs: seq<Pair>)
    requires Inherits(file, pred, live, at, liveIn)
    requires forall s :: s in pred ==> s in end.regOf && end.regOf[s] == Reg(file, pred[s])
    requires EdgePairs(end, liveIn, |liveIn|, pairs)
    ensures pairs == []
  {
    assert |pairs| > 0 ==> FromLive(end, liveIn, |liveIn|, pairs[0]) && IsDst(pairs, pairs[0].dst);
    forall i | 0 <= i < |liveIn|
      ensures !IsDst(pairs, liveIn[i].reg)
    {
      assert Served(end, liveIn[i], pairs);
    }
  }

  // ---------------------------------------------------------------------------
  // Down to machine moves
  // ---------------------------------------------------------------------------

  /** What can be live across an edge: a register of the value's own file, or a constant
      of a kind the file takes. */
  predicate Copyable(d: Reg, src: Src) {
    match src
    case FromReg(r) => r.file == d.file && d.file != Carry
    case Bool(_) => d.file.IsPredicate()
    case _ => d.file in {GPR, UGPR, Mem}
  }

  /** The register is none of the copy's temporary. */
  predicate BelowTmp(r: Reg, tmp: RegRef) {
    r.file == GPR ==> r.idx < tmp.base
  }

  ghost predicate EdgeOk(end: BlockEnd, liveIn: seq<LiveValue>, tmp: RegRef) {
    && tmp.file == GPR && tmp.comps > 0
    && forall i :: 0 <= i < |liveIn| && end.Knows(liveIn[i].ref) ==> EdgePairOk(Pair(liveIn[i].reg, end.Source(liveIn[i].ref)), tmp)
  }

  predicate EdgePairOk(p: Pair, tmp: RegRef) {
    Copyable(p.dst, p.src) && BelowTmp(p.dst, tmp) && (p.src.FromReg? ==> BelowTmp(p.src.reg, tmp))
  }

  /** A cycle in barrier or memory registers takes two temporaries. */
  ghost predicate TwoForCycles(pairs: seq<Pair>, tmp: RegRef) {
    forall i :: 0 <= i < |pairs| && LowerParCopies.OnCycle(pairs, i) && pairs[i].dst.file in {Bar, Mem} ==> tmp.comps >= 2
  }

  lemma FromPairs(end: BlockEnd, liveIn: seq<LiveValue>, pairs: seq<Pair>, tmp: RegRef)
    requires EdgePairs(end, liveIn, |liveIn|, pairs) && EdgeOk(end, liveIn, tmp)
    ensures forall k :: 0 <= k < |pairs| ==> EdgePairOk(pairs[k], tmp)
  {
    forall k | 0 <= k < |pairs|
      ensures EdgePairOk(pairs[k], tmp)
    {
      assert FromLive(end, liveIn, |liveIn|, pairs[k]);
    }
  }

  lemma {:induction false} CycleReads(pairs: seq<Pair>, i: nat)
    requires i < |pairs| && LowerParCopies.OnCycle(pairs, i)
    ensures pairs[i].src.FromReg?
  {
    var m := LowerParCopies.ReadMap(pairs);
    var steps :| steps > 0 && Finite.Walk(m, i, steps) == i;
    if i !in m { WalkOut(m, i, steps); }
  }

  lemma {:induction false} WalkOut(m: map<int, int>, i: nat, steps: nat)
    requires i !in m && -1 !in m && steps > 0
    ensures Finite.Walk(m, i, steps) == -1
  {
    if steps > 1 { WalkOut(m, i, steps - 1); }
  }

  /** The copy on an edge is one the copy-lowering pass accepts exactly when there are two
      temporaries for its cycles in barrier and memory registers; it then lowers to moves
      the next pass accepts. */
  lemma EdgeLowers(end: BlockEnd, liveIn: seq<LiveValue>, pairs: seq<Pair>, tmp: RegRef)
    requires EdgePairs(end, liveIn, |liveIn|, pairs) && Distinct(pairs) && EdgeOk(end, liveIn, tmp)
    ensures LowerParCopies.Valid(ParCopy(pairs, Some(tmp))) <==> TwoForCycles(pairs, tmp)
    ensures TwoForCycles(pairs, tmp) ==> LowerParCopies.Lowerable(ParCopy(pairs, Some(tmp)))
  {
    FromPairs(end, liveIn, pairs, tmp);
    hide LowerParCopies.OnCycle, EdgePairs;
    forall i | 0 <= i < |pairs| && LowerParCopies.OnCycle(pairs, i)
      ensures pairs[i].src.FromReg?
    {
      CycleReads(pairs, i);
    }
  }

  /** Behind the machine code for the edge every value live into the successor is in the
      register the successor expects, local memory included. */
  lemma EdgeOnMachine(end: BlockEnd, liveIn: seq<LiveValue>, pairs: seq<Pair>, tmp: RegRef, code: seq<Move>, slmStart: nat,
                      ops: seq<LowerCopySwap.MachOp>, m: LowerCopySwap.Machine)
    requires EdgePairs(end, liveIn, |liveIn|, pairs) && EdgeOk(end, liveIn, tmp)
    requires LowerParCopies.Implements(ParCopy(pairs, Some(tmp)), code) && LowerCopySwap.Simulates(slmStart, ops, code)
    ensures forall i :: 0 <= i < |liveIn| ==>
              && end.Knows(liveIn[i].ref)
              && LowerCopySwap.Abs(slmStart, LowerCopySwap.ExecAll(ops, m))(liveIn[i].reg) ==
                 Eval(end.Source(liveIn[i].ref), LowerCopySwap.Abs(slmStart, m))
  {
    LowerParCopies.ParallelOnMachine(ParCopy(pairs, Some(tmp)), code, slmStart, ops, m);
    forall i | 0 <= i < |liveIn|
      ensures !IsTmp(Some(tmp), liveIn[i].reg)
    {
      assert Served(end, liveIn[i], pairs) && end.Knows(liveIn[i].ref);
      assert EdgePairOk(Pair(liveIn[i].reg, end.Source(liveIn[i].ref)), tmp);
    }
    EdgeDelivers(end, liveIn, pairs, Some(tmp), LowerCopySwap.Abs(slmStart, m), LowerCopySwap.Abs(slmStart, LowerCopySwap.ExecAll(ops, m)));
  }

  /** Every value is where the successor expects it and is what it was. */
  ghost predicate Carried(end: BlockEnd, liveIn: seq<LiveValue>, slmStart: nat, ops: seq<LowerCopySwap.MachOp>)
    requires forall i :: 0 <= i < |liveIn| ==> end.Knows(liveIn[i].ref)
  {
    forall m: LowerCopySwap.Machine, i :: 0 <= i < |liveIn| ==>
      LowerCopySwap.Abs(slmStart, LowerCopySwap.ExecAll(ops, m))(liveIn[i].reg) == Eval(end.Source(liveIn[i].ref), LowerCopySwap.Abs(slmStart, m))
  }

  /** `second_pass` and the two lowering passes behind it. */
  method EdgeToMachine(end: BlockEnd, liveIn: seq<LiveValue>, tmp: RegRef, slmStart: nat, sm: nat)
    returns (ops: seq<LowerCopySwap.MachOp>)
    requires Apart(liveIn) && EdgeOk(end, liveIn, tmp) && forall i :: 0 <= i < |liveIn| ==> end.Knows(liveIn[i].ref)
    requires forall pairs :: EdgePairs(end, liveIn, |liveIn|, pairs) ==> TwoForCycles(pairs, tmp)
    ensures Carried(end, liveIn, slmStart, ops) && LowerCopySwap.AllAvailable(sm, ops)
  {
    hide LowerCopySwap.AllAvailable, Apart, EdgeOk, EdgePairs, TwoForCycles, LowerParCopies.Valid, LowerParCopies.Lowerable, LowerParCopies.Implements, LowerCopySwap.Simulates;
    var pairs := SecondPass(end, liveIn);
    EdgeLowers(end, liveIn, pairs, tmp);
    var code := LowerParCopies.LowerParCopy(ParCopy(pairs, Some(tmp)));
    var pass := new LowerCopySwap.LowerCopySwap(slmStart);
    ops := pass.Lower(sm, code);
    forall m: LowerCopySwap.Machine, i | 0 <= i < |liveIn|
      ensures LowerCopySwap.Abs(slmStart, LowerCopySwap.ExecAll(ops, m))(liveIn[i].reg) ==
              Eval(end.Source(liveIn[i].ref), LowerCopySwap.Abs(slmStart, m))
    {
      EdgeOnMachine(end, liveIn, pairs, tmp, code, slmStart, ops, m);
    }
  }

  /** One temporary is not enough for two phis that exchange barrier registers. */
  lemma BarrierSwapStops(tmp: RegRef) returns (end: BlockEnd, liveIn: seq<LiveValue>, pairs: seq<Pair>)
    requires tmp.file == GPR && tmp.comps == 1
    ensures Apart(liveIn) && EdgeOk(end, liveIn, tmp) && EdgePairs(end, liveIn, |liveIn|, pairs) && Distinct(pairs)
    ensures !LowerParCopies.Valid(ParCopy(pairs, Some(tmp)))
  {
    var x, y := Reg(Bar, 0), Reg(Bar, 1);
    end := BlockEnd(map[], map[0 := FromReg(y), 1 := FromReg(x)]);
    liveIn := [LiveValue(LPhi(0), x), LiveValue(LPhi(1), y)];
    pairs := [Pair(x, FromReg(y)), Pair(y, FromReg(x))];
    assert end.Knows(liveIn[0].ref) && pairs[0] == Pair(liveIn[0].reg, end.Source(liveIn[0].ref));
    assert end.Knows(liveIn[1].ref) && pairs[1] == Pair(liveIn[1].reg, end.Source(liveIn[1].ref));
    assert FromLive(end, liveIn, 2, pairs[0]) && FromLive(end, liveIn, 2, pairs[1]);
    assert pairs[0] in pairs && pairs[1] in pairs;
    var m := LowerParCopies.ReadMap(pairs);
    assert pairs[0].dst == x && pairs[1].dst == y;
    assert LowerParCopies.ReadsOther(pairs, 0) && LowerParCopies.ReadsOther(pairs, 1);
    assert m[0] == 1 && m[1] == 0;
    assert Finite.Walk(m, 0, 0) == 0 && Finite.Walk(m, 0, 1) == 1 && Finite.Walk(m, 0, 2) == 0;
    assert LowerParCopies.OnCycle(pairs, 0);
  }
}
