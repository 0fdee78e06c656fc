/** `instr_assign_regs_file` of `assign_regs.rs`: registers for the operands and
    results of one instruction in one register file, and the copy that brings every
    value where it is to be. */
module AssignInstr {
  import opened Wrappers
  import opened Ir
  import opened Powers
  import opened AssignRegs

  // ---------------------------------------------------------------------------
  // Defining several vectors
  // ---------------------------------------------------------------------------

  ghost predicate FreshAll(a: Alloc, orig: map<SSA, nat>, dsts: seq<seq<SSA>>, n: nat) {
    && (forall i :: n <= i < |dsts| ==> Fresh(a, orig, dsts[i]))
    && (forall i, j :: 0 <= i < j < |dsts| ==> Elements(dsts[i]) !! Elements(dsts[j]))
  }

  /** Room for the vectors from `n` on, each at its own registers. */
  ghost predicate RoomAll(used: set<nat>, numRegs: nat, dsts: seq<seq<SSA>>, regs: seq<nat>, n: nat) {
    && |regs| == |dsts|
    && (forall i :: n <= i < |dsts| ==> regs[i] + |dsts[i]| <= numRegs && RangeUnset(used, regs[i], |dsts[i]|))
    && (forall i, j :: 0 <= i < j < |dsts| ==> Span(regs[i], |dsts[i]|) !! Span(regs[j], |dsts[j]|))
  }

  function AllElements(dsts: seq<seq<SSA>>, n: nat): set<SSA>
    requires n <= |dsts|
  {
    if n == 0 then {} else AllElements(dsts, n - 1) + Elements(dsts[n - 1])
  }

  /** The first `n` vectors have been given registers, nothing else has changed. */
  ghost predicate DefinedAll(a: Alloc, b: Alloc, dsts: seq<seq<SSA>>, regs: seq<nat>, n: nat)
    requires n <= |dsts| == |regs|
  {
    && b == a.(at := b.at, pinned := b.pinned) && a.pinned <= b.pinned <= a.pinned + b.at.Values
    && b.at.Keys == a.at.Keys + AllElements(dsts, n)
    && (forall s :: s in a.at ==> b.at[s] == a.at[s])
    && (forall i :: 0 <= i < n ==> At(b.at, dsts[i], regs[i]) && Span(regs[i], |dsts[i]|) <= b.pinned)
    && (forall s :: s in b.at && b.at[s] in b.pinned ==>
          s in AllElements(dsts, n) || (s in a.at && a.at[s] in a.pinned))
  }

  lemma DefinedNothing(a: Alloc, dsts: seq<seq<SSA>>, regs: seq<nat>)
    requires |regs| == |dsts|
    ensures DefinedAll(a, a, dsts, regs, 0)
  {
  }

  lemma DefinedStep(a: Alloc, b: Alloc, c: Alloc, dsts: seq<seq<SSA>>, regs: seq<nat>, n: nat)
    requires n < |dsts| == |regs| && DefinedAll(a, b, dsts, regs, n)
    requires Defined(b, c, dsts[n], regs[n], |dsts[n]|) && RangeUnset(b.at.Values, regs[n], |dsts[n]|)
    ensures DefinedAll(a, c, dsts, regs, n + 1)
  {
    var vec := dsts[n];
    assert vec[..|vec|] == vec;
    forall i | 0 <= i < n
      ensures At(c.at, dsts[i], regs[i]) && Span(regs[i], |dsts[i]|) <= c.pinned
    {
      assert At(b.at, dsts[i], regs[i]) && Span(regs[i], |dsts[i]|) <= b.pinned;
    }
    forall s | s in c.at && c.at[s] in c.pinned
      ensures s in AllElements(dsts, n + 1) || (s in a.at && a.at[s] in a.pinned)
    {
      if s in b.at { assert b.at[s] in b.at.Values; }
    }
    PinsPlaced(b, c, vec, regs[n]);
  }

  lemma PinsPlaced(b: Alloc, c: Alloc, vec: seq<SSA>, reg: nat)
    requires Defined(b, c, vec, reg, |vec|)
    ensures c.pinned <= b.pinned + c.at.Values && b.at.Values <= c.at.Values
  {
    forall r | r in c.pinned && r !in b.pinned
      ensures r in c.at.Values
    {
      assert c.at[vec[r - reg]] == r;
    }
    forall r | r in b.at.Values
      ensures r in c.at.Values
    {
      var s :| s in b.at && b.at[s] == r;
      assert c.at[s] == r;
    }
  }

  lemma RoomStep(b: Alloc, c: Alloc, orig: map<SSA, nat>, dsts: seq<seq<SSA>>, regs: seq<nat>, n: nat)
    requires n < |dsts| && RoomAll(b.at.Values, b.numRegs, dsts, regs, n) && FreshAll(b, orig, dsts, n)
    requires Defined(b, c, dsts[n], regs[n], |dsts[n]|)
    ensures RoomAll(c.at.Values, c.numRegs, dsts, regs, n + 1) && FreshAll(c, orig, dsts, n + 1)
  {
    var vec := dsts[n];
    assert vec[..|vec|] == vec;
    forall i | n + 1 <= i < |dsts|
      ensures RangeUnset(c.at.Values, regs[i], |dsts[i]|) && Fresh(c, orig, dsts[i])
    {
      forall r | regs[i] <= r < regs[i] + |dsts[i]|
        ensures r !in c.at.Values
      {
        assert r in Span(regs[i], |dsts[i]|);
        forall s | s in c.at
          ensures c.at[s] != r
        {
          if s in b.at {
            assert b.at[s] in b.at.Values;
          } else {
            var d :| 0 <= d < |vec| && vec[d] == s;
            assert c.at[s] in Span(regs[n], |vec|);
          }
        }
      }
      forall d | 0 <= d < |dsts[i]|
        ensures dsts[i][d] !in Known(c)
      {
        assert dsts[i][d] in Elements(dsts[i]);
        assert dsts[i][d] !in Elements(vec);
      }
    }
  }

  method DefineVectors(vra: VecRegAllocator, dsts: seq<seq<SSA>>, regs: seq<nat>, ghost orig: map<SSA, nat>)
    requires vra.Valid(orig) && FreshAll(vra.Now(), orig, dsts, 0) && RoomAll(vra.ra.used, vra.ra.numRegs, dsts, regs, 0)
    modifies vra, vra.ra
    ensures vra.Valid(orig) && DefinedAll(old(vra.Now()), vra.Now(), dsts, regs, |dsts|)
    ensures old(PinnedUsed(vra.Now())) ==> PinnedUsed(vra.Now())
  {
    ghost var a := vra.Now();
    UsedAreValues(vra.ra);
    assert |regs| == |dsts|;
    DefinedNothing(a, dsts, regs);
    hide Sound, PinnedUsed, RegAllocator.Valid, FreshAll, RoomAll, DefinedAll, Defined, Fresh, RangeUnset;
    for i := 0 to |dsts|
      invariant vra.Valid(orig) && FreshAll(vra.Now(), orig, dsts, i) && RoomAll(vra.ra.ssaReg.Values, vra.ra.numRegs, dsts, regs, i)
      invariant DefinedAll(a, vra.Now(), dsts, regs, i)
      invariant PinnedUsed(a) ==> PinnedUsed(vra.Now())
    {
      ghost var b := vra.Now();
      UsedAreValues(vra.ra);
      NextRoom(b, orig, dsts, regs, i);
      vra.AssignPinVecReg(dsts[i], regs[i], orig);
      RoomStep(b, vra.Now(), orig, dsts, regs, i);
      DefinedStep(a, b, vra.Now(), dsts, regs, i);
    }
  }

  lemma NextRoom(b: Alloc, orig: map<SSA, nat>, dsts: seq<seq<SSA>>, regs: seq<nat>, n: nat)
    requires n < |dsts| && RoomAll(b.at.Values, b.numRegs, dsts, regs, n) && FreshAll(b, orig, dsts, n)
    ensures |regs| == |dsts| && Fresh(b, orig, dsts[n]) && regs[n] + |dsts[n]| <= b.numRegs && RangeUnset(b.at.Values, regs[n], |dsts[n]|)
  {
  }

  // ---------------------------------------------------------------------------
  // Where vector destinations could go
  // ---------------------------------------------------------------------------

  predicate SortedBySize(vecs: seq<seq<SSA>>) {
    forall i, j :: 0 <= i < j < |vecs| ==> |vecs[i]| <= |vecs[j]|
  }

  /** Vector sources that die here, sharing nothing. */
  ghost predicate KilledOk(kv: seq<seq<SSA>>, srcs: seq<seq<SSA>>, killed: set<SSA>) {
    && (forall p :: 0 <= p < |kv| ==> |kv[p]| > 1 && kv[p] in srcs && Elements(kv[p]) <= killed)
    && (forall p, q :: 0 <= p < q < |kv| ==> Elements(kv[p]) !! Elements(kv[q]))
  }

  lemma InsertAt(kv: seq<seq<SSA>>, at: nat, vec: seq<SSA>, r: seq<seq<SSA>>, p: nat)
    requires at <= |kv| && r == kv[..at] + [vec] + kv[at..] && p < |r|
    ensures r[p] == if p < at then kv[p] else if p == at then vec else kv[p - 1]
  {
  }

  lemma InsertKilled(kv: seq<seq<SSA>>, at: nat, vec: seq<SSA>, r: seq<seq<SSA>>, srcs: seq<seq<SSA>>, killed: set<SSA>, avail: set<SSA>)
    requires at <= |kv| && r == kv[..at] + [vec] + kv[at..] && KilledOk(kv, srcs, killed)
    requires |vec| > 1 && vec in srcs && Elements(vec) <= avail <= killed
    requires forall p :: 0 <= p < |kv| ==> Elements(kv[p]) !! avail
    ensures KilledOk(r, srcs, killed) && forall p :: 0 <= p < |r| ==> Elements(r[p]) !! avail - Elements(vec)
  {
    hide Elements;
    forall p | 0 <= p < |r|
      ensures |r[p]| > 1 && r[p] in srcs && Elements(r[p]) <= killed && Elements(r[p]) !! avail - Elements(vec)
    {
      InsertAt(kv, at, vec, r, p);
    }
    forall p, q | 0 <= p < q < |r|
      ensures Elements(r[p]) !! Elements(r[q])
    {
      InsertAt(kv, at, vec, r, p);
      InsertAt(kv, at, vec, r, q);
    }
  }

  lemma InsertSorted(kv: seq<seq<SSA>>, at: nat, vec: seq<SSA>, r: seq<seq<SSA>>)
    requires at <= |kv| && r == kv[..at] + [vec] + kv[at..] && SortedBySize(kv)
    requires at > 0 ==> |kv[at - 1]| <= |vec|
    requires at < |kv| ==> |kv[at]| > |vec|
    ensures SortedBySize(r)
  {
    forall p, q | 0 <= p < q < |r|
      ensures |r[p]| <= |r[q]|
    {
      InsertAt(kv, at, vec, r, p);
      InsertAt(kv, at, vec, r, q);
    }
  }

  /** Insert behind everything that is not longer. */
  method InsertBySize(kv: seq<seq<SSA>>, vec: seq<SSA>, ghost srcs: seq<seq<SSA>>, ghost killed: set<SSA>, ghost avail: set<SSA>)
    returns (r: seq<seq<SSA>>)
    requires SortedBySize(kv) && KilledOk(kv, srcs, killed)
    requires |vec| > 1 && vec in srcs && Elements(vec) <= avail <= killed
    requires forall p :: 0 <= p < |kv| ==> Elements(kv[p]) !! avail
    ensures SortedBySize(r) && KilledOk(r, srcs, killed)
    ensures forall p :: 0 <= p < |r| ==> Elements(r[p]) !! avail - Elements(vec)
    ensures forall s :: Listed(kv, s) || s in vec ==> Listed(r, s)
  {
    var at: nat := |kv|;
    while at > 0 && |kv[at - 1]| > |vec|
      invariant at <= |kv| && (at < |kv| ==> |kv[at]| > |vec|)
    {
      at := at - 1;
    }
    r := kv[..at] + [vec] + kv[at..];
    InsertKilled(kv, at, vec, r, srcs, killed, avail);
    InsertSorted(kv, at, vec, r);
    forall s | Listed(kv, s) || s in vec
      ensures Listed(r, s)
    {
      InsertListed(kv, at, vec, r, s);
    }
  }

  ghost predicate Listed(kv: seq<seq<SSA>>, s: SSA) {
    exists p :: 0 <= p < |kv| && s in kv[p]
  }

  lemma InsertListed(kv: seq<seq<SSA>>, at: nat, vec: seq<SSA>, r: seq<seq<SSA>>, s: SSA)
    requires at <= |kv| && r == kv[..at] + [vec] + kv[at..] && (Listed(kv, s) || s in vec)
    ensures Listed(r, s)
  {
    if s in vec {
      InsertAt(kv, at, vec, r, at);
    } else {
      var p :| 0 <= p < |kv| && s in kv[p];
      InsertAt(kv, at, vec, r, if p < at then p else p + 1);
    }
  }

  /** Every dying vector is listed, but for those that share a value with a listed one. */
  method KilledVectors(srcs: seq<seq<SSA>>, killed: set<SSA>) returns (kv: seq<seq<SSA>>)
    ensures SortedBySize(kv) && KilledOk(kv, srcs, killed)
    ensures forall i :: 0 <= i < |srcs| && |srcs[i]| > 1 && Elements(srcs[i]) <= killed ==> exists s :: s in srcs[i] && Listed(kv, s)
  {
    kv := [];
    var avail := killed;
    for i := 0 to |srcs|
      invariant SortedBySize(kv) && KilledOk(kv, srcs, killed) && avail <= killed
      invariant forall p :: 0 <= p < |kv| ==> Elements(kv[p]) !! avail
      invariant forall s :: s in killed && s !in avail ==> Listed(kv, s)
      invariant forall j :: 0 <= j < i && |srcs[j]| > 1 && Elements(srcs[j]) <= killed ==> exists s :: s in srcs[j] && Listed(kv, s)
    {
      if |srcs[i]| > 1 && Elements(srcs[i]) <= avail {
        ghost var before := kv;
        kv := InsertBySize(kv, srcs[i], srcs, killed, avail);
        avail := avail - Elements(srcs[i]);
        assert srcs[i][0] in srcs[i] && Listed(kv, srcs[i][0]);
        assert forall s :: Listed(before, s) ==> Listed(kv, s);
      } else if |srcs[i]| > 1 && Elements(srcs[i]) <= killed {
        var s :| s in Elements(srcs[i]) && s !in avail;
        assert Listed(kv, s);
      }
      hide Listed, Elements, KilledOk, SortedBySize;
    }
  }

  /** For each destination a dying source vector at least as long, and registers
      that are unused now; each may be missing. */
  datatype Plan = Plan(killedIdx: seq<Option<nat>>, regs: seq<Option<nat>>)

  /** The destinations from `n` on are planned; killed vectors below `m` are left. */
  ghost predicate PlanOk(plan: Plan, dsts: seq<seq<SSA>>, kv: seq<seq<SSA>>, used: set<nat>, numRegs: nat, n: nat, m: nat, next: nat) {
    && n <= |dsts| == |plan.killedIdx| == |plan.regs| && m <= |kv|
    && (forall i :: n <= i < |dsts| && plan.killedIdx[i].Some? ==>
          m <= plan.killedIdx[i].value < |kv| && |dsts[i]| <= |kv[plan.killedIdx[i].value]|)
    && (forall i, j :: n <= i < j < |dsts| && plan.killedIdx[i].Some? ==> plan.killedIdx[i] != plan.killedIdx[j])
    && (forall i :: n <= i < |dsts| && plan.regs[i].Some? ==>
          Fits(used, numRegs, plan.regs[i].value, |dsts[i]|, NextPowerOfTwo(|dsts[i]|)) && plan.regs[i].value + |dsts[i]| <= next)
    && (forall i, j :: n <= i < j < |dsts| && plan.regs[i].Some? && plan.regs[j].Some? ==>
          plan.regs[j].value + |dsts[j]| <= plan.regs[i].value)
  }

  ghost predicate AllBehind(opts: seq<Option<nat>>, d: nat) {
    forall e :: d < e < |opts| ==> opts[e].Some?
  }

  /** Where the places tried for destination `d` begin. */
  function Behind(plan: Plan, dsts: seq<seq<SSA>>, d: nat): nat {
    if d + 1 < |dsts| && d + 1 < |plan.regs| && plan.regs[d + 1].Some? then plan.regs[d + 1].value + |dsts[d + 1]| else 0
  }

  /** If `d` is the longest destination that gets no dying vector, longer ones have
      taken every one that is long enough. */
  ghost predicate NoKilledLeft(plan: Plan, dsts: seq<seq<SSA>>, kv: seq<seq<SSA>>, d: nat)
    requires d < |dsts| == |plan.killedIdx|
  {
    plan.killedIdx[d].None? && AllBehind(plan.killedIdx, d) ==>
      forall k: nat :: k < |kv| && |kv[k]| >= |dsts[d]| ==> Some(k) in plan.killedIdx[d + 1..]
  }

  ghost predicate NoPlace(used: set<nat>, numRegs: nat, from: nat, size: nat) {
    forall r :: from <= r ==> !Fits(used, numRegs, r, size, NextPowerOfTwo(size))
  }

  /** If `d` is the longest one that gets no registers, no place behind those of the
      longer ones is unused. */
  ghost predicate NoPlaceLeft(plan: Plan, dsts: seq<seq<SSA>>, used: set<nat>, numRegs: nat, d: nat)
    requires d < |dsts| == |plan.regs|
  {
    plan.regs[d].None? && AllBehind(plan.regs, d) ==>
      NoPlace(used, numRegs, Behind(plan, dsts, d), |dsts[d]|)
  }

  /** Nothing is missing in a plan without need, from destination `n` on. */
  ghost predicate PlanFull(plan: Plan, dsts: seq<seq<SSA>>, kv: seq<seq<SSA>>, used: set<nat>, numRegs: nat, n: nat) {
    && |dsts| == |plan.killedIdx| == |plan.regs|
    && (forall d: nat :: n <= d < |dsts| ==> NoKilledLeft(plan, dsts, kv, d))
    && (forall d: nat :: n <= d < |dsts| ==> NoPlaceLeft(plan, dsts, used, numRegs, d))
  }

  /** As long as every longer destination got one, all dying vectors from `m` on are
      taken, and places are tried from `next` on. */
  ghost predicate Planning(plan: Plan, dsts: seq<seq<SSA>>, kv: seq<seq<SSA>>, n: nat, m: nat, next: nat) {
    && 0 < n <= |dsts| == |plan.killedIdx| == |plan.regs|
    && (AllBehind(plan.killedIdx, n - 1) ==> forall k: nat :: m <= k < |kv| ==> Some(k) in plan.killedIdx[n..])
    && (AllBehind(plan.regs, n - 1) ==> next == Behind(plan, dsts, n - 1))
  }

  /** The longest dying vector left, if it is long enough. */
  method PopKilled(kv: seq<seq<SSA>>, m0: nat, size: nat) returns (idx: Option<nat>, m: nat)
    requires m0 <= |kv| && SortedBySize(kv)
    ensures m <= m0 && (idx.Some? ==> idx.value == m == m0 - 1 && size <= |kv[m]|)
    ensures idx.None? ==> forall k :: 0 <= k < m0 ==> |kv[k]| < size
  {
    m := m0;
    idx := None;
    while m > 0 && idx.None?
      invariant m <= m0 && (idx.Some? ==> idx.value == m == m0 - 1 && size <= |kv[m]|)
      invariant idx.None? ==> forall k :: m <= k < m0 ==> |kv[k]| < size
      decreases m, idx.None?
    {
      m := m - 1;
      assert m < m0 - 1 ==> |kv[m]| <= |kv[m0 - 1]| < size;
      if |kv[m]| >= size { idx := Some(m); }
    }
  }

  lemma PlanNext(a: Plan, b: Plan, dsts: seq<seq<SSA>>, kv: seq<seq<SSA>>, used: set<nat>, numRegs: nat, n: nat, m: nat, next: nat,
                 idx: Option<nat>, m': nat, reg: Option<nat>)
    requires 0 < n <= |dsts| == |a.killedIdx| == |a.regs| && m' <= m <= |kv|
    requires PlanFull(a, dsts, kv, used, numRegs, n) && Planning(a, dsts, kv, n, m, next)
    requires b == Plan(a.killedIdx[n - 1 := idx], a.regs[n - 1 := reg])
    requires idx.Some? ==> idx.value == m' == m - 1
    requires idx.None? ==> forall k :: 0 <= k < m ==> |kv[k]| < |dsts[n - 1]|
    requires reg.None? ==> NoPlace(used, numRegs, next, |dsts[n - 1]|)
    ensures PlanFull(b, dsts, kv, used, numRegs, n - 1)
    ensures n > 1 ==> Planning(b, dsts, kv, n - 1, m', if reg.Some? then reg.value + |dsts[n - 1]| else next)
  {
    var d := n - 1;
    hide NoPlace, AllBehind, Behind;
    Updated(a.killedIdx, d, idx, d);
    Updated(a.regs, d, reg, d);
    SameStart(a, b, dsts, d, d);
    assert NoKilledLeft(b, dsts, kv, d) && NoPlaceLeft(b, dsts, used, numRegs, d);
    forall e: nat | n <= e < |dsts|
      ensures NoKilledLeft(b, dsts, kv, e) && NoPlaceLeft(b, dsts, used, numRegs, e)
    {
      assert NoKilledLeft(a, dsts, kv, e) && NoPlaceLeft(a, dsts, used, numRegs, e);
      Updated(a.killedIdx, d, idx, e);
      Updated(a.regs, d, reg, e);
      SameStart(a, b, dsts, d, e);
    }
    if n > 1 {
      UpdatedBehind(a.killedIdx, d, idx);
      UpdatedBehind(a.regs, d, reg);
      if reg.Some? { StartNow(b, dsts, d); }
    }
  }

  lemma Updated(s: seq<Option<nat>>, d: nat, v: Option<nat>, e: nat)
    requires d <= e < |s|
    ensures s[d := v][e + 1..] == s[e + 1..] && s[d := v][d..] == [v] + s[d + 1..]
    ensures AllBehind(s[d := v], e) == AllBehind(s, e)
  {
  }

  lemma UpdatedBehind(s: seq<Option<nat>>, d: nat, v: Option<nat>)
    requires 0 < d < |s|
    ensures AllBehind(s[d := v], d - 1) == (AllBehind(s, d) && v.Some?)
  {
    var t := s[d := v];
    if AllBehind(t, d - 1) {
      assert t[d].Some?;
      forall e | d < e < |s|
        ensures s[e].Some?
      {
        assert t[e] == s[e];
      }
    }
  }

  lemma SameStart(a: Plan, b: Plan, dsts: seq<seq<SSA>>, d: nat, e: nat)
    requires d <= e < |dsts| == |a.regs| == |b.regs| && b.regs == a.regs[d := b.regs[d]]
    ensures Behind(b, dsts, e) == Behind(a, dsts, e)
  {
  }

  lemma StartNow(b: Plan, dsts: seq<seq<SSA>>, d: nat)
    requires 0 < d < |dsts| == |b.regs| && b.regs[d].Some?
    ensures Behind(b, dsts, d - 1) == b.regs[d].value + |dsts[d]|
  {
  }

  lemma PlanSize(plan: Plan, dsts: seq<seq<SSA>>, kv: seq<seq<SSA>>, used: set<nat>, numRegs: nat, n: nat, m: nat, next: nat)
    requires PlanOk(plan, dsts, kv, used, numRegs, n, m, next)
    ensures n <= |dsts| == |plan.killedIdx| == |plan.regs| && m <= |kv|
  {
  }

  lemma IsNoPlace(used: set<nat>, numRegs: nat, from: nat, size: nat)
    requires forall r :: from <= r ==> !Fits(used, numRegs, r, size, NextPowerOfTwo(size))
    ensures NoPlace(used, numRegs, from, size)
  {
  }

  lemma PlanOkNext(a: Plan, b: Plan, dsts: seq<seq<SSA>>, kv: seq<seq<SSA>>, used: set<nat>, numRegs: nat, n: nat, m: nat, next: nat,
                   idx: Option<nat>, m': nat, reg: Option<nat>)
    requires 0 < n <= |dsts| && PlanOk(a, dsts, kv, used, numRegs, n, m, next) && m' <= m
    requires b == Plan(a.killedIdx[n - 1 := idx], a.regs[n - 1 := reg])
    requires idx.Some? ==> idx.value == m' < m && |dsts[n - 1]| <= |kv[m']|
    requires reg.Some? ==> next <= reg.value && Fits(used, numRegs, reg.value, |dsts[n - 1]|, NextPowerOfTwo(|dsts[n - 1]|))
    ensures PlanOk(b, dsts, kv, used, numRegs, n - 1, m', if reg.Some? then reg.value + |dsts[n - 1]| else next)
  {
    hide Fits, NextPowerOfTwo;
  }

  /** Destinations in order of size, planned from the longest down. */
  method PlanVectors(ra: RegAllocator, dsts: seq<seq<SSA>>, kv: seq<seq<SSA>>) returns (plan: Plan)
    requires SortedBySize(kv)
    ensures exists next: nat, m: nat :: PlanOk(plan, dsts, kv, ra.used, ra.numRegs, 0, m, next)
    ensures PlanFull(plan, dsts, kv, ra.used, ra.numRegs, 0)
  {
    plan := Plan(seq(|dsts|, i => None), seq(|dsts|, i => None));
    var m: nat, next: nat, n: nat := |kv|, 0, |dsts|;
    assert PlanOk(plan, dsts, kv, ra.used, ra.numRegs, n, m, next);
    assert PlanFull(plan, dsts, kv, ra.used, ra.numRegs, n) && (n > 0 ==> Planning(plan, dsts, kv, n, m, next));
    hide PlanOk, PlanFull, Planning, Fits, NoPlace;
    while n > 0
      invariant PlanOk(plan, dsts, kv, ra.used, ra.numRegs, n, m, next)
      invariant PlanFull(plan, dsts, kv, ra.used, ra.numRegs, n) && (n > 0 ==> Planning(plan, dsts, kv, n, m, next))
    {
      PlanSize(plan, dsts, kv, ra.used, ra.numRegs, n, m, next);
      var d := n - 1;
      var size := |dsts[d]|;
      var idx, m' := PopKilled(kv, m, size);
      var reg := ra.TryFindUnset(ra.used, next, size, NextPowerOfTwo(size));
      if reg.None? { IsNoPlace(ra.used, ra.numRegs, next, size); }
      ghost var before := plan;
      plan := Plan(plan.killedIdx[d := idx], plan.regs[d := reg]);
      PlanOkNext(before, plan, dsts, kv, ra.used, ra.numRegs, n, m, next, idx, m', reg);
      PlanNext(before, plan, dsts, kv, ra.used, ra.numRegs, n, m, next, idx, m', reg);
      m := m';
      if reg.Some? { next := reg.value + size; }
      n := d;
    }
  }

  // ---------------------------------------------------------------------------
  // Operands
  // ---------------------------------------------------------------------------

  /** The value `s` had before the instruction is brought to `reg`, which is pinned. */
  ghost predicate Brought(a: Alloc, orig: map<SSA, nat>, s: SSA, reg: nat) {
    s in orig && reg in a.pinned && Delivered(a.pairs, a.file, orig[s], reg)
  }

  ghost predicate VecBrought(a: Alloc, orig: map<SSA, nat>, vec: seq<SSA>, reg: nat) {
    && (forall c :: 0 <= c < |vec| ==> Brought(a, orig, vec[c], reg + c))
    && (|vec| > 0 ==> reg % NextPowerOfTwo(|vec|) == 0)
  }

  ghost predicate OperandsReady(a: Alloc, orig: map<SSA, nat>, srcs: seq<seq<SSA>>, pred: Option<SSA>, regs: seq<nat>, predReg: Option<nat>) {
    && |regs| == |srcs| && (forall i :: 0 <= i < |srcs| ==> VecBrought(a, orig, srcs[i], regs[i]))
    && (pred.Some? ==> predReg.Some? && VecBrought(a, orig, [pred.value], predReg.value))
  }

  lemma SitsBrought(a: Alloc, orig: map<SSA, nat>, vec: seq<SSA>, reg: nat)
    requires Sound(a, orig) && SitsAt(a, vec, reg) && forall s :: s in vec ==> s in orig
    ensures VecBrought(a, orig, vec, reg)
  {
    forall c | 0 <= c < |vec|
      ensures Brought(a, orig, vec[c], reg + c)
    {
      assert reg + c in Span(reg, |vec|);
      assert vec[c] in a.at && a.at[vec[c]] == reg + c;
    }
  }

  lemma RemappedReady(a: Alloc, b: Alloc, orig: map<SSA, nat>, srcs: seq<seq<SSA>>, pred: Option<SSA>, regs: seq<nat>, predReg: Option<nat>)
    requires Remapped(a, b, orig, srcs, pred, regs, predReg, |srcs|) && (predReg.Some? <==> pred.Some?)
    requires forall i, s :: 0 <= i < |srcs| && s in srcs[i] ==> s in orig
    requires pred.Some? ==> pred.value in orig
    ensures OperandsReady(b, orig, srcs, pred, regs, predReg)
  {
    hide Sound, PinnedUsed, Kept, SitsAt, VecBrought;
    forall i | 0 <= i < |srcs|
      ensures VecBrought(b, orig, srcs[i], regs[i])
    {
      if |srcs[i]| > 0 { SitsBrought(b, orig, srcs[i], regs[i]); } else { EmptyBrought(b, orig, srcs[i], regs[i]); }
    }
    if pred.Some? { SitsBrought(b, orig, [pred.value], predReg.value); }
  }

  lemma EmptyBrought(a: Alloc, orig: map<SSA, nat>, vec: seq<SSA>, reg: nat)
    requires |vec| == 0
    ensures VecBrought(a, orig, vec, reg)
  {
  }

  lemma VecGrown(a: Alloc, b: Alloc, orig: map<SSA, nat>, vec: seq<SSA>, reg: nat)
    requires VecBrought(a, orig, vec, reg) && Grown(a, b)
    ensures VecBrought(b, orig, vec, reg)
  {
    forall c | 0 <= c < |vec|
      ensures Brought(b, orig, vec[c], reg + c)
    {
      assert Brought(a, orig, vec[c], reg + c);
      GrownDelivers(a, b, orig[vec[c]], reg + c);
    }
  }

  lemma OperandsGrown(a: Alloc, b: Alloc, orig: map<SSA, nat>, srcs: seq<seq<SSA>>, pred: Option<SSA>, regs: seq<nat>, predReg: Option<nat>)
    requires OperandsReady(a, orig, srcs, pred, regs, predReg) && Grown(a, b)
    ensures OperandsReady(b, orig, srcs, pred, regs, predReg)
  {
    hide VecBrought, Grown;
    forall i | 0 <= i < |srcs|
      ensures VecBrought(b, orig, srcs[i], regs[i])
    {
      VecGrown(a, b, orig, srcs[i], regs[i]);
    }
    if pred.Some? { VecGrown(a, b, orig, [pred.value], predReg.value); }
  }

  lemma SamePairsGrow(a: Alloc, b: Alloc)
    requires b.file == a.file && b.numRegs == a.numRegs && b.pairs == a.pairs && a.pinned <= b.pinned
    ensures Grown(a, b)
  {
  }

  /** What dies is an operand, in place and pinned once the operands are. */
  ghost predicate Dying(killed: seq<SSA>, srcs: seq<seq<SSA>>, pred: Option<SSA>) {
    NoRepeats(killed) && forall k :: k in killed ==> IsOperand(k, srcs, pred)
  }

  ghost predicate IsOperand(k: SSA, srcs: seq<seq<SSA>>, pred: Option<SSA>) {
    pred == Some(k) || exists i :: 0 <= i < |srcs| && k in srcs[i]
  }

  ghost predicate Held(a: Alloc, killed: seq<SSA>) {
    forall k :: k in killed ==> k in a.at && a.at[k] in a.pinned
  }

  lemma SitsHeld(a: Alloc, vec: seq<SSA>, reg: nat, k: SSA)
    requires SitsAt(a, vec, reg) && k in vec
    ensures k in a.at && a.at[k] in a.pinned
  {
    var c :| 0 <= c < |vec| && vec[c] == k;
    assert reg + c in Span(reg, |vec|);
  }

  lemma RemappedHeld(a: Alloc, b: Alloc, orig: map<SSA, nat>, srcs: seq<seq<SSA>>, pred: Option<SSA>, regs: seq<nat>, predReg: Option<nat>, killed: seq<SSA>)
    requires Remapped(a, b, orig, srcs, pred, regs, predReg, |srcs|) && (predReg.Some? <==> pred.Some?) && Dying(killed, srcs, pred)
    ensures Held(b, killed)
  {
    hide Sound, PinnedUsed, Kept, SitsAt;
    forall k | k in killed
      ensures k in b.at && b.at[k] in b.pinned
    {
      assert IsOperand(k, srcs, pred);
      if pred == Some(k) {
        SitsHeld(b, [pred.value], predReg.value, k);
      } else {
        var i :| 0 <= i < |srcs| && k in srcs[i];
        SitsHeld(b, srcs[i], regs[i], k);
      }
    }
  }

  // ---------------------------------------------------------------------------
  // The three ways to place operands and vector results
  // ---------------------------------------------------------------------------

  /** What the instruction asks for: legal operands that are all in registers and
      not pinned there, some of which die, and new vectors to define. */
  ghost predicate Assignable(at: map<SSA, nat>, pinned: set<nat>, srcs: seq<seq<SSA>>, pred: Option<SSA>,
                             killed: seq<SSA>, dsts: seq<seq<SSA>>)
  {
    && Legal(srcs) && Dying(killed, srcs, pred) && (pred.Some? ==> pred.value in at)
    && (forall i, s :: 0 <= i < |srcs| && s in srcs[i] ==> s in at && at[s] !in pinned)
    && (forall i :: 0 <= i < |dsts| ==> |dsts[i]| > 1 && NoRepeats(dsts[i]) && Elements(dsts[i]) !! at.Keys)
    && (forall i, j :: 0 <= i < j < |dsts| ==> Elements(dsts[i]) !! Elements(dsts[j]))
  }

  ghost predicate VecAt(a: Alloc, vec: seq<SSA>, reg: nat) {
    At(a.at, vec, reg) && reg % NextPowerOfTwo(|vec|) == 0
  }

  /** Operands are ready, vector results have aligned registers, and of the old
      values exactly those that die are gone. */
  ghost predicate Placed(a: Alloc, orig: map<SSA, nat>, srcs: seq<seq<SSA>>, pred: Option<SSA>, killed: seq<SSA>, dsts: seq<seq<SSA>>,
                         regs: seq<nat>, predReg: Option<nat>, dstRegs: seq<nat>)
  {
    && OperandsReady(a, orig, srcs, pred, regs, predReg)
    && Known(a) == orig.Keys - Elements(killed) + AllElements(dsts, |dsts|)
    && |dstRegs| == |dsts| && forall i :: 0 <= i < |dsts| ==> VecAt(a, dsts[i], dstRegs[i])
  }

  ghost function PinnedValues(a: Alloc): set<SSA> {
    PinnedIn(a.at, a.pinned)
  }

  ghost function PinnedIn(at: map<SSA, nat>, pinned: set<nat>): set<SSA> {
    set s | s in at && at[s] in pinned
  }

  /** The values an instruction may pin, besides those pinned already. */
  ghost function Pinnable(orig: map<SSA, nat>, pinned: set<nat>, srcs: seq<seq<SSA>>, pred: Option<SSA>, dsts: seq<seq<SSA>>): set<SSA> {
    PinnedIn(orig, pinned) + Operands(srcs, pred) + AllElements(dsts, |dsts|)
  }

  /** These are so many that they might be in the way of an operand or a result
      everywhere. */
  ghost predicate NoSpace(numRegs: nat, orig: map<SSA, nat>, pinned: set<nat>, srcs: seq<seq<SSA>>, pred: Option<SSA>, dsts: seq<seq<SSA>>) {
    var s := Pinnable(orig, pinned, srcs, pred, dsts);
    || Crowded(numRegs, 1, s)
    || (exists i :: 0 <= i < |srcs| && Crowded(numRegs, |srcs[i]|, s))
    || (exists i :: 0 <= i < |dsts| && Crowded(numRegs, |dsts[i]|, s))
  }

  lemma NoRoomNoSpace(numRegs: nat, orig: map<SSA, nat>, pinned: set<nat>, srcs: seq<seq<SSA>>, pred: Option<SSA>, dsts: seq<seq<SSA>>, s0: set<SSA>)
    requires NoRoom(numRegs, srcs, pred, s0) && s0 <= PinnedIn(orig, pinned) + AllElements(dsts, |dsts|)
    ensures NoSpace(numRegs, orig, pinned, srcs, pred, dsts)
  {
    Finite.SubsetSize(s0 + Operands(srcs, pred), Pinnable(orig, pinned, srcs, pred, dsts));
    hide Operands, AllElements;
  }

  /** A result found no place. */
  lemma ResultFull(b: Alloc, orig: map<SSA, nat>, pinned: set<nat>, srcs: seq<seq<SSA>>, pred: Option<SSA>, dsts: seq<seq<SSA>>, i: nat)
    requires i < |dsts| && |dsts[i]| > 0 && PinnedUsed(b) && Full(b, |dsts[i]|)
    requires PinnedAmong(b, PinnedIn(orig, pinned) + Operands(srcs, pred) + AllElements(dsts, i))
    ensures NoSpace(b.numRegs, orig, pinned, srcs, pred, dsts)
  {
    AllElementsGrow(dsts, i, |dsts|);
    FullIsCrowded(b, |dsts[i]|, PinnedIn(orig, pinned) + Operands(srcs, pred) + AllElements(dsts, i), Pinnable(orig, pinned, srcs, pred, dsts));
  }

  lemma {:induction false} AllElementsGrow(dsts: seq<seq<SSA>>, n: nat, m: nat)
    requires n <= m <= |dsts|
    ensures AllElements(dsts, n) <= AllElements(dsts, m)
    decreases m
  {
    if n < m { AllElementsGrow(dsts, n, m - 1); }
  }

  /** An allocated result is the only new thing pinned. */
  lemma AllocatedPins(a: Alloc, c: Alloc, orig: map<SSA, nat>, vec: seq<SSA>, reg: nat, s: set<SSA>)
    requires Allocated(a, c, vec, reg) && Sound(c, orig) && PinnedUsed(a) && PinnedAmong(a, s)
    ensures PinnedAmong(c, s + Elements(vec))
  {
    forall v | v in c.at && c.at[v] in c.pinned
      ensures v in s + Elements(vec)
    {
      if c.at[v] in a.pinned {
        var w :| w in a.at && a.at[w] == c.at[v];
        assert w in c.at && c.at[w] == a.at[w];
      } else {
        assert c.at[vec[c.at[v] - reg]] == c.at[v];
      }
    }
  }

  /** Of the pinned registers only those of dead values are not in use. */
  ghost predicate Leftover(a: Alloc, killed: seq<SSA>) {
    exists regs: set<nat> :: |regs| <= |Elements(killed)| && a.pinned <= a.at.Values + regs
  }

  lemma StillThere(at: map<SSA, nat>, dead: set<SSA>, k: SSA)
    requires k in at
    ensures k in dead || at[k] in (at - dead).Values
  {
    if k !in dead { assert (at - dead)[k] == at[k]; }
  }

  lemma FreedLeftover(b: Alloc, killed: seq<SSA>)
    requires PinnedUsed(b)
    ensures Leftover(b.(at := b.at - Elements(killed)), killed)
  {
    var at := b.at - Elements(killed);
    var regs := b.pinned - at.Values;
    forall r | r in regs
      ensures exists k :: k in Elements(killed) && k in b.at && b.at[k] == r
    {
      var k :| k in b.at && b.at[k] == r;
      StillThere(b.at, Elements(killed), k);
    }
    Finite.ImageSize(b.at, Elements(killed), regs);
  }

  lemma DefinedLeftover(f: Alloc, g: Alloc, dsts: seq<seq<SSA>>, dstRegs: seq<nat>, killed: seq<SSA>)
    requires |dsts| == |dstRegs| && DefinedAll(f, g, dsts, dstRegs, |dsts|) && Leftover(f, killed)
    ensures Leftover(g, killed)
  {
    var regs: set<nat> :| |regs| <= |Elements(killed)| && f.pinned <= f.at.Values + regs;
    forall r | r in f.at.Values
      ensures r in g.at.Values
    {
      var s :| s in f.at && f.at[s] == r;
      assert g.at[s] == r;
    }
    assert g.pinned <= g.at.Values + regs;
  }

  /** If an evicted value finds no register, the values were too many. */
  lemma NoneLeft(a: Alloc, b: Alloc, orig: map<SSA, nat>, killed: seq<SSA>, defs: set<SSA>)
    requires Leftover(a, killed) && Known(b) == Known(a) == orig.Keys - Elements(killed) + defs && Elements(killed) <= orig.Keys
    requires b.evicted.Keys != {} && (forall s :: s in b.evicted ==> s !in b.at)
    requires b.pinned <= a.pinned + b.at.Values && forall s :: s in a.at ==> s in b.at && b.at[s] == a.at[s]
    requires forall r: nat :: r < b.numRegs ==> r in b.at.Values || r in b.pinned
    ensures b.numRegs < |orig| + |defs|
  {
    var regs: set<nat> :| |regs| <= |Elements(killed)| && a.pinned <= a.at.Values + regs;
    forall r: nat | r < b.numRegs
      ensures r in b.at.Values + regs
    {
      if r in a.at.Values {
        var s :| s in a.at && a.at[s] == r;
        assert b.at[s] == r;
      }
    }
    hide Elements;
    Finite.CountAll(b.at.Values + regs, b.numRegs);
    Finite.ValuesSize(b.at);
    var e :| e in b.evicted.Keys;
    Counted(b.at.Keys, orig.Keys, Elements(killed), defs, e);
  }

  lemma Counted(at: set<SSA>, orig: set<SSA>, dead: set<SSA>, defs: set<SSA>, e: SSA)
    requires dead <= orig && at <= orig - dead + defs && e !in at && e in orig - dead + defs
    ensures |at| + |dead| < |orig| + |defs|
  {
    Finite.SubsetSize(at + {e}, orig - dead + defs);
    assert |orig - dead| == |orig| - |dead|;
    assert |orig - dead + defs| <= |orig - dead| + |defs|;
  }

  lemma StartRemap(a: Alloc, srcs: seq<seq<SSA>>, pred: Option<SSA>, killed: seq<SSA>, dsts: seq<seq<SSA>>)
    requires Assignable(a.at, a.pinned, srcs, pred, killed, dsts)
    ensures Remappable(a, a.at, srcs, PinnedValues(a))
    ensures pred.Some? ==> AllKnown(a, a.at, [pred.value])
  {
    forall i | 0 <= i < |srcs|
      ensures AllKnown(a, a.at, srcs[i]) && PinnedValues(a) !! Elements(srcs[i])
    {
    }
  }

  /** Results so far, the rest still to come. */
  ghost predicate Allocating(a: Alloc, orig: map<SSA, nat>, srcs: seq<seq<SSA>>, pred: Option<SSA>, killed: seq<SSA>, dsts: seq<seq<SSA>>,
                             regs: seq<nat>, predReg: Option<nat>, dstRegs: seq<nat>)
  {
    && OperandsReady(a, orig, srcs, pred, regs, predReg) && Held(a, killed)
    && |dstRegs| <= |dsts| && Known(a) == orig.Keys + AllElements(dsts, |dstRegs|)
    && forall i :: 0 <= i < |dstRegs| ==> VecAt(a, dsts[i], dstRegs[i]) && Span(dstRegs[i], |dsts[i]|) <= a.pinned
  }

  lemma AllocatedGrown(a: Alloc, b: Alloc, vec: seq<SSA>, reg: nat)
    requires Allocated(a, b, vec, reg)
    ensures Grown(a, b) && VecAt(b, vec, reg) && Span(reg, |vec|) <= b.pinned && Known(b) == Known(a) + Elements(vec)
  {
  }

  lemma AllocatedStays(a: Alloc, b: Alloc, vec: seq<SSA>, reg: nat, old_: seq<SSA>, oldReg: nat)
    requires Allocated(a, b, vec, reg) && VecAt(a, old_, oldReg) && Span(oldReg, |old_|) <= a.pinned
    ensures VecAt(b, old_, oldReg) && Span(oldReg, |old_|) <= b.pinned
  {
    forall c | 0 <= c < |old_|
      ensures old_[c] in b.at && b.at[old_[c]] == oldReg + c
    {
      assert oldReg + c in Span(oldReg, |old_|);
    }
  }

  lemma AllocatedHeld(a: Alloc, b: Alloc, vec: seq<SSA>, reg: nat, killed: seq<SSA>)
    requires Allocated(a, b, vec, reg) && Held(a, killed)
    ensures Held(b, killed)
  {
  }

  lemma AllocatingNext(a: Alloc, b: Alloc, orig: map<SSA, nat>, srcs: seq<seq<SSA>>, pred: Option<SSA>, killed: seq<SSA>, dsts: seq<seq<SSA>>,
                       regs: seq<nat>, predReg: Option<nat>, dstRegs: seq<nat>, reg: nat)
    requires Allocating(a, orig, srcs, pred, killed, dsts, regs, predReg, dstRegs) && |dstRegs| < |dsts|
    requires Allocated(a, b, dsts[|dstRegs|], reg)
    ensures Allocating(b, orig, srcs, pred, killed, dsts, regs, predReg, dstRegs + [reg])
  {
    var n := |dstRegs|;
    hide Allocated, OperandsReady, Held, VecAt, Known, Grown;
    AllocatedGrown(a, b, dsts[n], reg);
    OperandsGrown(a, b, orig, srcs, pred, regs, predReg);
    AllocatedHeld(a, b, dsts[n], reg, killed);
    forall i | 0 <= i < n
      ensures VecAt(b, dsts[i], dstRegs[i]) && Span(dstRegs[i], |dsts[i]|) <= b.pinned
    {
      AllocatedStays(a, b, dsts[n], reg, dsts[i], dstRegs[i]);
    }
    assert Known(b) == orig.Keys + AllElements(dsts, n + 1);
  }

  lemma {:induction false} AllElementsOf(dsts: seq<seq<SSA>>, n: nat, at: set<SSA>)
    requires n <= |dsts| && forall i :: 0 <= i < n ==> Elements(dsts[i]) !! at
    ensures AllElements(dsts, n) !! at
  {
    if n > 0 { AllElementsOf(dsts, n - 1, at); }
  }

  lemma AllocatingFresh(a: Alloc, orig: map<SSA, nat>, pinned: set<nat>, srcs: seq<seq<SSA>>, pred: Option<SSA>, killed: seq<SSA>, dsts: seq<seq<SSA>>,
                        regs: seq<nat>, predReg: Option<nat>, dstRegs: seq<nat>)
    requires Assignable(orig, pinned, srcs, pred, killed, dsts)
    requires Allocating(a, orig, srcs, pred, killed, dsts, regs, predReg, dstRegs) && |dstRegs| < |dsts|
    ensures Fresh(a, orig, dsts[|dstRegs|]) && |dsts[|dstRegs|]| > 0
  {
    var n := |dstRegs|;
    AllElementsOf(dsts, n, Elements(dsts[n]));
    forall c | 0 <= c < |dsts[n]|
      ensures dsts[n][c] !in Known(a) && dsts[n][c] !in orig
    {
      assert dsts[n][c] in Elements(dsts[n]);
    }
  }

  lemma Freed(a: Alloc, orig: map<SSA, nat>, srcs: seq<seq<SSA>>, pred: Option<SSA>, killed: seq<SSA>, dsts: seq<seq<SSA>>,
              regs: seq<nat>, predReg: Option<nat>, dstRegs: seq<nat>)
    requires Allocating(a, orig, srcs, pred, killed, dsts, regs, predReg, dstRegs) && |dstRegs| == |dsts|
    requires AllElements(dsts, |dsts|) !! Elements(killed) && (forall s :: s in a.evicted ==> s !in a.at)
    requires forall i :: 0 <= i < |dsts| ==> Elements(dsts[i]) !! Elements(killed)
    ensures Placed(a.(at := a.at - Elements(killed)), orig, srcs, pred, killed, dsts, regs, predReg, dstRegs)
  {
    var b := a.(at := a.at - Elements(killed));
    SamePairsGrow(a, b);
    OperandsGrown(a, b, orig, srcs, pred, regs, predReg);
    hide OperandsReady, Held, Grown, AllElements;
    assert Known(b) == Known(a) - Elements(killed);
    forall i | 0 <= i < |dsts|
      ensures VecAt(b, dsts[i], dstRegs[i])
    {
      assert VecAt(a, dsts[i], dstRegs[i]);
      forall c | 0 <= c < |dsts[i]|
        ensures dsts[i][c] in b.at
      {
        assert dsts[i][c] in Elements(dsts[i]);
      }
    }
  }

  /** What remapping gives when the instruction is as it should be. */
  lemma RemappedFacts(a: Alloc, b: Alloc, at: map<SSA, nat>, pinned: set<nat>, srcs: seq<seq<SSA>>, pred: Option<SSA>, killed: seq<SSA>,
                      dsts: seq<seq<SSA>>, regs: seq<nat>, predReg: Option<nat>)
    requires Assignable(at, pinned, srcs, pred, killed, dsts)
    requires Remapped(a, b, at, srcs, pred, regs, predReg, |srcs|) && (predReg.Some? <==> pred.Some?)
    ensures OperandsReady(b, at, srcs, pred, regs, predReg) && Held(b, killed) && Kept(a, b) && PinnedUsed(b)
  {
    assert forall i, s :: 0 <= i < |srcs| && s in srcs[i] ==> s in at;
    hide Remapped, OperandsReady, Held;
    RemappedReady(a, b, at, srcs, pred, regs, predReg);
    RemappedHeld(a, b, at, srcs, pred, regs, predReg, killed);
    RemappedKept(a, b, at, srcs, pred, regs, predReg);
  }

  lemma RemappedKept(a: Alloc, b: Alloc, orig: map<SSA, nat>, srcs: seq<seq<SSA>>, pred: Option<SSA>, regs: seq<nat>, predReg: Option<nat>)
    requires Remapped(a, b, orig, srcs, pred, regs, predReg, |srcs|)
    ensures Kept(a, b) && PinnedUsed(b)
  {
  }

  lemma KeptKnown(a: Alloc, b: Alloc)
    requires Kept(a, b)
    ensures Known(b) == Known(a)
  {
  }

  lemma AllocatingStart(a: Alloc, b: Alloc, srcs: seq<seq<SSA>>, pred: Option<SSA>, killed: seq<SSA>, dsts: seq<seq<SSA>>,
                        regs: seq<nat>, predReg: Option<nat>)
    requires a.evicted == map[] && Assignable(a.at, a.pinned, srcs, pred, killed, dsts)
    requires Remapped(a, b, a.at, srcs, pred, regs, predReg, |srcs|) && (predReg.Some? <==> pred.Some?)
    ensures Allocating(b, a.at, srcs, pred, killed, dsts, regs, predReg, []) && PinnedUsed(b)
  {
    hide Assignable, Remapped, OperandsReady, Held, Kept, PinnedUsed;
    RemappedFacts(a, b, a.at, a.pinned, srcs, pred, killed, dsts, regs, predReg);
    KeptKnown(a, b);
  }

  lemma KilledKnown(at: map<SSA, nat>, pinned: set<nat>, srcs: seq<seq<SSA>>, pred: Option<SSA>, killed: seq<SSA>, dsts: seq<seq<SSA>>)
    requires Assignable(at, pinned, srcs, pred, killed, dsts)
    ensures Elements(killed) <= at.Keys
  {
    forall k | k in killed
      ensures k in at
    {
      assert IsOperand(k, srcs, pred);
    }
  }

  lemma KilledApart(at: map<SSA, nat>, pinned: set<nat>, srcs: seq<seq<SSA>>, pred: Option<SSA>, killed: seq<SSA>, dsts: seq<seq<SSA>>)
    requires Assignable(at, pinned, srcs, pred, killed, dsts)
    ensures Elements(killed) <= at.Keys
    ensures forall i :: 0 <= i < |dsts| ==> Elements(dsts[i]) !! Elements(killed)
    ensures AllElements(dsts, |dsts|) !! at.Keys && AllElements(dsts, |dsts|) !! Elements(killed)
  {
    hide Elements, Legal, Dying, NoRepeats, AllElements;
    KilledKnown(at, pinned, srcs, pred, killed, dsts);
    AllElementsOf(dsts, |dsts|, at.Keys);
  }

  lemma NoResultsYet(a: Alloc, s: set<SSA>, dsts: seq<seq<SSA>>)
    requires PinnedAmong(a, s)
    ensures PinnedAmong(a, s + AllElements(dsts, 0))
  {
  }

  lemma IsFull(a: Alloc, n: nat)
    requires forall r :: 0 <= r ==> !Fits(a.pinned, a.numRegs, r, n, NextPowerOfTwo(n))
    ensures Full(a, n)
  {
  }

  lemma ResultPinned(a: Alloc, c: Alloc, orig: map<SSA, nat>, dsts: seq<seq<SSA>>, i: nat, reg: nat, s: set<SSA>)
    requires i < |dsts| && Allocated(a, c, dsts[i], reg) && Sound(c, orig) && PinnedUsed(a) && PinnedAmong(a, s + AllElements(dsts, i))
    ensures PinnedAmong(c, s + AllElements(dsts, i + 1))
  {
    AllocatedPins(a, c, orig, dsts[i], reg, s + AllElements(dsts, i));
    assert s + AllElements(dsts, i) + Elements(dsts[i]) == s + AllElements(dsts, i + 1);
  }

  /** Operands first, then each result, evicting what is in its way. */
  method PlaceByEviction(vra: VecRegAllocator, srcs: seq<seq<SSA>>, pred: Option<SSA>, killed: seq<SSA>, dsts: seq<seq<SSA>>,
                         ghost orig: map<SSA, nat>)
    returns (regs: Option<seq<nat>>, predReg: Option<nat>, dstRegs: seq<nat>)
    requires vra.Valid(orig) && PinnedUsed(vra.Now()) && orig == vra.ra.ssaReg && vra.evicted == map[]
    requires Assignable(orig, vra.pinned, srcs, pred, killed, dsts)
    modifies vra, vra.ra
    ensures vra.Valid(orig)
    ensures regs.Some? ==> Placed(vra.Now(), orig, srcs, pred, killed, dsts, regs.value, predReg, dstRegs)
    ensures regs.Some? ==> Leftover(vra.Now(), killed)
    ensures regs.None? ==> NoSpace(vra.ra.numRegs, orig, old(vra.pinned), srcs, pred, dsts)
    ensures regs.Some? && Scalars(srcs) && dsts == [] && old(Quiet(vra.Now())) ==> Quiet(vra.Now())
  {
    ghost var a := vra.Now();
    StartRemap(a, srcs, pred, killed, dsts);
    KilledApart(orig, a.pinned, srcs, pred, killed, dsts);
    dstRegs := [];
    hide Scalars, Quiet, Sound, RegAllocator.Valid, PinnedUsed, Assignable, Remappable, Remapped, Allocating, Allocated, Placed, AllKnown, Fresh, NoSpace, NoRoom,
         PinnedAmong, Leftover, Operands, PinnedIn, AllElements, Full, Fits;
    regs, predReg := RemapSrcs(vra, srcs, pred, orig, PinnedValues(a));
    if regs.None? {
      NoRoomNoSpace(vra.ra.numRegs, orig, a.pinned, srcs, pred, dsts, PinnedValues(a));
      return;
    }
    NoResultsYet(vra.Now(), PinnedValues(a) + Operands(srcs, pred), dsts);
    AllocatingStart(a, vra.Now(), srcs, pred, killed, dsts, regs.value, predReg);
    var all := AllocResults(vra, srcs, pred, killed, dsts, orig, regs.value, predReg, a.pinned);
    if all.None? { return None, None, []; }
    dstRegs := all.value;
    FreeOperands(vra, srcs, pred, killed, dsts, orig, regs.value, predReg, dstRegs);
  }

  /** A place for each result, evicting what is in its way. */
  method AllocResults(vra: VecRegAllocator, ghost srcs: seq<seq<SSA>>, ghost pred: Option<SSA>, ghost killed: seq<SSA>, dsts: seq<seq<SSA>>,
                      ghost orig: map<SSA, nat>, ghost regs: seq<nat>, ghost predReg: Option<nat>, ghost pinned: set<nat>)
    returns (dstRegs: Option<seq<nat>>)
    requires vra.Valid(orig) && PinnedUsed(vra.Now()) && Assignable(orig, pinned, srcs, pred, killed, dsts)
    requires Allocating(vra.Now(), orig, srcs, pred, killed, dsts, regs, predReg, [])
    requires PinnedAmong(vra.Now(), PinnedIn(orig, pinned) + Operands(srcs, pred) + AllElements(dsts, 0))
    modifies vra, vra.ra
    ensures vra.Valid(orig)
    ensures dstRegs.Some? ==> Allocating(vra.Now(), orig, srcs, pred, killed, dsts, regs, predReg, dstRegs.value)
    ensures dstRegs.Some? ==> |dstRegs.value| == |dsts| && PinnedUsed(vra.Now())
    ensures dstRegs.None? ==> NoSpace(vra.ra.numRegs, orig, pinned, srcs, pred, dsts)
    ensures dsts == [] && old(Quiet(vra.Now())) ==> Quiet(vra.Now())
  {
    ghost var start := vra.Now();
    hide Quiet, Sound, RegAllocator.Valid, PinnedUsed, Assignable, Allocating, Allocated, Fresh, NoSpace, PinnedAmong, Operands, PinnedIn, AllElements,
         Full, Fits;
    var list: seq<nat> := [];
    for i := 0 to |dsts|
      invariant vra.Valid(orig) && PinnedUsed(vra.Now()) && |list| == i
      invariant Allocating(vra.Now(), orig, srcs, pred, killed, dsts, regs, predReg, list)
      invariant PinnedAmong(vra.Now(), PinnedIn(orig, pinned) + Operands(srcs, pred) + AllElements(dsts, i))
      invariant i == 0 && Quiet(start) ==> Quiet(vra.Now())
    {
      ghost var b := vra.Now();
      AllocatingFresh(b, orig, pinned, srcs, pred, killed, dsts, regs, predReg, list);
      var reg := vra.AllocVector(dsts[i], orig);
      if reg.None? {
        IsFull(b, |dsts[i]|);
        ResultFull(b, orig, pinned, srcs, pred, dsts, i);
        return None;
      }
      ResultPinned(b, vra.Now(), orig, dsts, i, reg.value, PinnedIn(orig, pinned) + Operands(srcs, pred));
      AllocatingNext(b, vra.Now(), orig, srcs, pred, killed, dsts, regs, predReg, list, reg.value);
      list := list + [reg.value];
    }
    return Some(list);
  }

  method FreeOperands(vra: VecRegAllocator, ghost srcs: seq<seq<SSA>>, ghost pred: Option<SSA>, killed: seq<SSA>, ghost dsts: seq<seq<SSA>>,
                      ghost orig: map<SSA, nat>, ghost regs: seq<nat>, ghost predReg: Option<nat>, ghost dstRegs: seq<nat>)
    requires vra.Valid(orig) && NoRepeats(killed) && |dstRegs| == |dsts| && PinnedUsed(vra.Now())
    requires Allocating(vra.Now(), orig, srcs, pred, killed, dsts, regs, predReg, dstRegs)
    requires AllElements(dsts, |dsts|) !! Elements(killed)
    requires forall i :: 0 <= i < |dsts| ==> Elements(dsts[i]) !! Elements(killed)
    modifies vra.ra
    ensures vra.Valid(orig) && Placed(vra.Now(), orig, srcs, pred, killed, dsts, regs, predReg, dstRegs)
    ensures Leftover(vra.Now(), killed)
    ensures old(Quiet(vra.Now())) ==> Quiet(vra.Now())
  {
    FreedLeftover(vra.Now(), killed);
    Freed(vra.Now(), orig, srcs, pred, killed, dsts, regs, predReg, dstRegs);
    hide Sound, Placed, Leftover;
    vra.FreeKilled(killed, orig);
  }

  // ---- results in registers that are unused before the instruction

  lemma DefinedStart(a: Alloc, b: Alloc, srcs: seq<seq<SSA>>, pred: Option<SSA>, killed: seq<SSA>, dsts: seq<seq<SSA>>, dstRegs: seq<nat>)
    requires Assignable(a.at, a.pinned, srcs, pred, killed, dsts)
    requires |dstRegs| == |dsts| && DefinedAll(a, b, dsts, dstRegs, |dsts|)
    ensures Remappable(b, a.at, srcs, PinnedValues(a) + AllElements(dsts, |dsts|))
    ensures pred.Some? ==> AllKnown(b, a.at, [pred.value])
    ensures Known(b) == Known(a) + AllElements(dsts, |dsts|)
  {
    AllElementsOf(dsts, |dsts|, a.at.Keys);
    forall i | 0 <= i < |srcs|
      ensures AllKnown(b, a.at, srcs[i]) && PinnedValues(a) + AllElements(dsts, |dsts|) !! Elements(srcs[i])
    {
      forall s | s in srcs[i]
        ensures s in a.at && s !in PinnedValues(a) && s !in AllElements(dsts, |dsts|)
      {
      }
    }
  }

  lemma DstStays(b: Alloc, c: Alloc, vec: seq<SSA>, reg: nat)
    requires At(b.at, vec, reg) && Span(reg, |vec|) <= b.pinned && Kept(b, c) && reg % NextPowerOfTwo(|vec|) == 0
    ensures VecAt(c, vec, reg) && Span(reg, |vec|) <= c.pinned
  {
    forall d | 0 <= d < |vec|
      ensures vec[d] in c.at && c.at[vec[d]] == reg + d
    {
      assert reg + d in Span(reg, |vec|);
    }
  }

  lemma DefinedDst(a: Alloc, b: Alloc, dsts: seq<seq<SSA>>, dstRegs: seq<nat>, i: nat)
    requires i < |dsts| == |dstRegs| && DefinedAll(a, b, dsts, dstRegs, |dsts|)
    ensures At(b.at, dsts[i], dstRegs[i]) && Span(dstRegs[i], |dsts[i]|) <= b.pinned
    ensures b.at.Keys == a.at.Keys + AllElements(dsts, |dsts|) && b.evicted == a.evicted
    ensures b.file == a.file && b.numRegs == a.numRegs && b.pairs == a.pairs && a.pinned <= b.pinned
  {
  }

  lemma DefinedKnown(a: Alloc, b: Alloc, dsts: seq<seq<SSA>>, dstRegs: seq<nat>)
    requires |dsts| == |dstRegs| && DefinedAll(a, b, dsts, dstRegs, |dsts|)
    ensures Known(b) == Known(a) + AllElements(dsts, |dsts|) && Grown(a, b)
  {
  }

  lemma NothingEvicted(a: Alloc)
    requires a.evicted == map[]
    ensures Known(a) == a.at.Keys
  {
  }

  lemma DefinedRemapped(a: Alloc, b: Alloc, c: Alloc, srcs: seq<seq<SSA>>, pred: Option<SSA>, killed: seq<SSA>, dsts: seq<seq<SSA>>,
                        regs: seq<nat>, predReg: Option<nat>, dstRegs: seq<nat>)
    requires a.evicted == map[] && Assignable(a.at, a.pinned, srcs, pred, killed, dsts)
    requires |dstRegs| == |dsts| && DefinedAll(a, b, dsts, dstRegs, |dsts|)
    requires forall i :: 0 <= i < |dsts| ==> dstRegs[i] % NextPowerOfTwo(|dsts[i]|) == 0
    requires Remapped(b, c, a.at, srcs, pred, regs, predReg, |srcs|) && (predReg.Some? <==> pred.Some?)
    ensures Allocating(c, a.at, srcs, pred, killed, dsts, regs, predReg, dstRegs) && PinnedUsed(c)
  {
    hide Assignable, Remapped, OperandsReady, Held, PinnedUsed, Kept, DefinedAll, VecAt, Known, AtUpTo;
    RemappedFacts(b, c, a.at, a.pinned, srcs, pred, killed, dsts, regs, predReg);
    KeptKnown(b, c);
    DefinedKnown(a, b, dsts, dstRegs);
    NothingEvicted(a);
    forall i | 0 <= i < |dsts|
      ensures VecAt(c, dsts[i], dstRegs[i]) && Span(dstRegs[i], |dsts[i]|) <= c.pinned
    {
      hide Grown;
      DefinedDst(a, b, dsts, dstRegs, i);
      DstStays(b, c, dsts[i], dstRegs[i]);
    }
  }

  /** Results first, into registers nobody uses, then the operands. */
  method PlaceUnused(vra: VecRegAllocator, srcs: seq<seq<SSA>>, pred: Option<SSA>, killed: seq<SSA>, dsts: seq<seq<SSA>>, dstRegs: seq<nat>,
                     ghost orig: map<SSA, nat>)
    returns (regs: Option<seq<nat>>, predReg: Option<nat>)
    requires vra.Valid(orig) && PinnedUsed(vra.Now()) && orig == vra.ra.ssaReg && vra.evicted == map[]
    requires Assignable(orig, vra.pinned, srcs, pred, killed, dsts)
    requires FreshAll(vra.Now(), orig, dsts, 0) && RoomAll(vra.ra.used, vra.ra.numRegs, dsts, dstRegs, 0)
    requires forall i :: 0 <= i < |dsts| ==> dstRegs[i] % NextPowerOfTwo(|dsts[i]|) == 0
    modifies vra, vra.ra
    ensures vra.Valid(orig)
    ensures regs.Some? ==> Placed(vra.Now(), orig, srcs, pred, killed, dsts, regs.value, predReg, dstRegs)
    ensures regs.Some? ==> Leftover(vra.Now(), killed)
    ensures regs.None? ==> NoSpace(vra.ra.numRegs, orig, old(vra.pinned), srcs, pred, dsts)
  {
    ghost var a := vra.Now();
    assert |dstRegs| == |dsts| && NoRepeats(killed);
    KilledApart(orig, a.pinned, srcs, pred, killed, dsts);
    hide Sound, RegAllocator.Valid, PinnedUsed, Assignable, Remappable, Remapped, Allocating, Placed, AllKnown, FreshAll, RoomAll, DefinedAll, NoSpace, NoRoom,
         PinnedAmong, Leftover, Operands, PinnedIn, AllElements;
    DefineVectors(vra, dsts, dstRegs, orig);
    ghost var b := vra.Now();
    DefinedStart(a, b, srcs, pred, killed, dsts, dstRegs);
    regs, predReg := RemapSrcs(vra, srcs, pred, orig, PinnedValues(a) + AllElements(dsts, |dsts|));
    if regs.None? {
      NoRoomNoSpace(vra.ra.numRegs, orig, a.pinned, srcs, pred, dsts, PinnedValues(a) + AllElements(dsts, |dsts|));
      return;
    }
    DefinedRemapped(a, b, vra.Now(), srcs, pred, killed, dsts, regs.value, predReg, dstRegs);
    FreeOperands(vra, srcs, pred, killed, dsts, orig, regs.value, predReg, dstRegs);
  }

  // ---- results in the registers of vectors that die

  lemma {:induction false} PowerDivides(a: nat, b: nat) returns (q: nat)
    requires a <= b
    ensures q > 0 && NextPowerOfTwo(b) == q * NextPowerOfTwo(a)
  {
    if b <= 1 {
      q := 1;
    } else if a <= 1 {
      q := NextPowerOfTwo(b);
    } else {
      q := PowerDivides((a + 1) / 2, (b + 1) / 2);
      Distribute2(q, NextPowerOfTwo((a + 1) / 2));
    }
  }

  lemma Distribute2(q: nat, p: nat)
    ensures 2 * (q * p) == q * (2 * p)
  {
  }

  lemma SmallerAligned(reg: nat, a: nat, b: nat)
    requires a <= b && reg % NextPowerOfTwo(b) == 0
    ensures reg % NextPowerOfTwo(a) == 0
  {
    var q := PowerDivides(a, b);
    ModMod(reg, q, NextPowerOfTwo(a), NextPowerOfTwo(b));
  }

  /** Each result has its own dying vector, at least as long, in place at `dstRegs`. */
  ghost predicate Reused(c: Alloc, killed: seq<SSA>, dsts: seq<seq<SSA>>, olds: seq<seq<SSA>>, dstRegs: seq<nat>) {
    && |olds| == |dsts| == |dstRegs|
    && (forall i :: 0 <= i < |dsts| ==> 0 < |dsts[i]| <= |olds[i]| && VecAt(c, olds[i], dstRegs[i]) && Elements(olds[i]) <= Elements(killed))
    && (forall i, j :: 0 <= i < j < |dsts| ==> Elements(olds[i]) !! Elements(olds[j]))
  }

  lemma ReusedSpan(c: Alloc, old_: seq<SSA>, reg: nat, n: nat, r: nat)
    requires VecAt(c, old_, reg) && n <= |old_| && r in Span(reg, n)
    ensures old_[r - reg] in c.at && c.at[old_[r - reg]] == r && old_[r - reg] in Elements(old_)
  {
  }

  lemma ReusedRoom(c: Alloc, orig: map<SSA, nat>, killed: seq<SSA>, dsts: seq<seq<SSA>>, olds: seq<seq<SSA>>, dstRegs: seq<nat>)
    requires Sound(c, orig) && Reused(c, killed, dsts, olds, dstRegs)
    ensures RoomAll((c.at - Elements(killed)).Values, c.numRegs, dsts, dstRegs, 0)
  {
    var at := c.at - Elements(killed);
    forall i | 0 <= i < |dsts|
      ensures dstRegs[i] + |dsts[i]| <= c.numRegs && RangeUnset(at.Values, dstRegs[i], |dsts[i]|)
    {
      ReusedSpan(c, olds[i], dstRegs[i], |dsts[i]|, dstRegs[i] + |dsts[i]| - 1);
      forall r | dstRegs[i] <= r < dstRegs[i] + |dsts[i]|
        ensures r !in at.Values
      {
        ReusedSpan(c, olds[i], dstRegs[i], |dsts[i]|, r);
      }
    }
    forall i, j | 0 <= i < j < |dsts|
      ensures Span(dstRegs[i], |dsts[i]|) !! Span(dstRegs[j], |dsts[j]|)
    {
      forall r | r in Span(dstRegs[i], |dsts[i]|)
        ensures r !in Span(dstRegs[j], |dsts[j]|)
      {
        ReusedSpan(c, olds[i], dstRegs[i], |dsts[i]|, r);
        if r in Span(dstRegs[j], |dsts[j]|) { ReusedSpan(c, olds[j], dstRegs[j], |dsts[j]|, r); }
      }
    }
  }

  /** `reg` is where the operand `vec` is found. */
  ghost predicate TakesOver(srcs: seq<seq<SSA>>, regs: seq<nat>, vec: seq<SSA>, reg: nat) {
    exists k: nat :: k < |srcs| && k < |regs| && srcs[k] == vec && regs[k] == reg
  }

  /** A dying vector source is in place after the remapping. */
  lemma OldInPlace(a: Alloc, c: Alloc, orig: map<SSA, nat>, srcs: seq<seq<SSA>>, pred: Option<SSA>, regs: seq<nat>, predReg: Option<nat>, old_: seq<SSA>)
    requires Remapped(a, c, orig, srcs, pred, regs, predReg, |srcs|) && old_ in srcs && |old_| > 1
    ensures InPlace(c.at, old_) && VecAt(c, old_, c.at[old_[0]]) && TakesOver(srcs, regs, old_, c.at[old_[0]])
  {
    var i :| 0 <= i < |srcs| && srcs[i] == old_;
    SitsInPlace(c, old_, regs[i]);
  }

  lemma FreshAfter(c: Alloc, orig: map<SSA, nat>, pinned: set<nat>, srcs: seq<seq<SSA>>, pred: Option<SSA>, killed: seq<SSA>, dsts: seq<seq<SSA>>)
    requires Assignable(orig, pinned, srcs, pred, killed, dsts) && Known(c) <= orig.Keys
    ensures FreshAll(c, orig, dsts, 0)
  {
    forall i | 0 <= i < |dsts|
      ensures Fresh(c, orig, dsts[i])
    {
      forall d | 0 <= d < |dsts[i]|
        ensures dsts[i][d] !in Known(c) && dsts[i][d] !in orig
      {
        assert dsts[i][d] in Elements(dsts[i]);
      }
    }
  }

  lemma ReusedPlaced(c: Alloc, f: Alloc, g: Alloc, orig: map<SSA, nat>, srcs: seq<seq<SSA>>, pred: Option<SSA>, killed: seq<SSA>,
                     dsts: seq<seq<SSA>>, olds: seq<seq<SSA>>, regs: seq<nat>, predReg: Option<nat>, dstRegs: seq<nat>)
    requires OperandsReady(c, orig, srcs, pred, regs, predReg) && Known(c) == orig.Keys && Reused(c, killed, dsts, olds, dstRegs)
    requires Held(c, killed) && forall s :: s in c.evicted ==> s !in c.at
    requires f == c.(at := c.at - Elements(killed)) && DefinedAll(f, g, dsts, dstRegs, |dsts|)
    ensures Placed(g, orig, srcs, pred, killed, dsts, regs, predReg, dstRegs)
  {
    SamePairsGrow(c, f);
    DefinedKnown(f, g, dsts, dstRegs);
    GrownTrans(c, f, g);
    OperandsGrown(c, g, orig, srcs, pred, regs, predReg);
    assert Known(f) == Known(c) - Elements(killed);
    hide OperandsReady, Held, Grown, Known, DefinedAll;
    forall i | 0 <= i < |dsts|
      ensures VecAt(g, dsts[i], dstRegs[i])
    {
      DefinedDst(f, g, dsts, dstRegs, i);
      SmallerAligned(dstRegs[i], |dsts[i]|, |olds[i]|);
    }
  }

  /** The dying vectors a plan pairs the results with, if it pairs them all. */
  ghost predicate Paired(dsts: seq<seq<SSA>>, olds: seq<seq<SSA>>, srcs: seq<seq<SSA>>, killed: seq<SSA>) {
    && |olds| == |dsts|
    && (forall i :: 0 <= i < |dsts| ==> |dsts[i]| <= |olds[i]| && |olds[i]| > 1 && olds[i] in srcs && Elements(olds[i]) <= Elements(killed))
    && (forall i, j :: 0 <= i < j < |dsts| ==> Elements(olds[i]) !! Elements(olds[j]))
  }

  lemma ReusedNow(a: Alloc, c: Alloc, at: map<SSA, nat>, pinned: set<nat>, srcs: seq<seq<SSA>>, pred: Option<SSA>, killed: seq<SSA>,
                  dsts: seq<seq<SSA>>, olds: seq<seq<SSA>>, regs: seq<nat>, predReg: Option<nat>, dstRegs: seq<nat>)
    requires Assignable(at, pinned, srcs, pred, killed, dsts) && Paired(dsts, olds, srcs, killed) && |dstRegs| == |dsts|
    requires Remapped(a, c, at, srcs, pred, regs, predReg, |srcs|)
    requires forall i :: 0 <= i < |dsts| ==> olds[i][0] in c.at && dstRegs[i] == c.at[olds[i][0]]
    ensures Reused(c, killed, dsts, olds, dstRegs)
  {
    hide Remapped, AtUpTo;
    forall i | 0 <= i < |dsts|
      ensures 0 < |dsts[i]| <= |olds[i]| && VecAt(c, olds[i], dstRegs[i])
    {
      OldInPlace(a, c, at, srcs, pred, regs, predReg, olds[i]);
    }
  }

  /** The registers of the dying vectors, once the operands are in place. */
  method OldRegs(vra: VecRegAllocator, srcs: seq<seq<SSA>>, ghost a: Alloc, ghost orig: map<SSA, nat>, ghost pred: Option<SSA>,
                 ghost regs: seq<nat>, ghost predReg: Option<nat>, olds: seq<seq<SSA>>)
    returns (dstRegs: seq<nat>)
    requires Remapped(a, vra.Now(), orig, srcs, pred, regs, predReg, |srcs|)
    requires forall i :: 0 <= i < |olds| ==> olds[i] in srcs && |olds[i]| > 1
    ensures |dstRegs| == |olds|
    ensures forall i :: 0 <= i < |olds| ==> olds[i][0] in vra.ra.ssaReg && dstRegs[i] == vra.ra.ssaReg[olds[i][0]]
    ensures forall i :: 0 <= i < |olds| ==> TakesOver(srcs, regs, olds[i], dstRegs[i])
  {
    hide Remapped, AtUpTo, TakesOver;
    dstRegs := [];
    for i := 0 to |olds|
      invariant |dstRegs| == i
      invariant forall j :: 0 <= j < i ==> olds[j][0] in vra.ra.ssaReg && dstRegs[j] == vra.ra.ssaReg[olds[j][0]]
      invariant forall j :: 0 <= j < i ==> TakesOver(srcs, regs, olds[j], dstRegs[j])
    {
      OldInPlace(a, vra.Now(), orig, srcs, pred, regs, predReg, olds[i]);
      var reg := vra.TryGetVecReg(olds[i]);
      dstRegs := dstRegs + [reg.value];
    }
  }

  lemma SoundEvicted(a: Alloc, orig: map<SSA, nat>)
    requires Sound(a, orig)
    ensures forall s :: s in a.evicted ==> s !in a.at
  {
  }

  lemma SameKnown(a: Alloc, f: Alloc, killed: seq<SSA>)
    requires f == a.(at := a.at - Elements(killed))
    ensures Known(f) <= Known(a)
  {
  }

  /** Operands first; each result then takes the registers of its dying vector. */
  method PlaceOverKilled(vra: VecRegAllocator, srcs: seq<seq<SSA>>, pred: Option<SSA>, killed: seq<SSA>, dsts: seq<seq<SSA>>,
                         olds: seq<seq<SSA>>, ghost orig: map<SSA, nat>)
    returns (regs: Option<seq<nat>>, predReg: Option<nat>, dstRegs: seq<nat>)
    requires vra.Valid(orig) && PinnedUsed(vra.Now()) && orig == vra.ra.ssaReg && vra.evicted == map[]
    requires Assignable(orig, vra.pinned, srcs, pred, killed, dsts) && Paired(dsts, olds, srcs, killed)
    modifies vra, vra.ra
    ensures vra.Valid(orig)
    ensures regs.Some? ==> Placed(vra.Now(), orig, srcs, pred, killed, dsts, regs.value, predReg, dstRegs)
    ensures regs.Some? ==> Leftover(vra.Now(), killed)
    ensures regs.None? ==> NoSpace(vra.ra.numRegs, orig, old(vra.pinned), srcs, pred, dsts)
    ensures regs.Some? ==> |dstRegs| == |dsts| && forall i :: 0 <= i < |dsts| ==> TakesOver(srcs, regs.value, olds[i], dstRegs[i])
  {
    ghost var a := vra.Now();
    StartRemap(a, srcs, pred, killed, dsts);
    NothingEvicted(a);
    dstRegs := [];
    hide TakesOver, Sound, RegAllocator.Valid, PinnedUsed, Assignable, Remappable, Remapped, Placed, AllKnown, NoSpace, NoRoom, PinnedAmong, Leftover, Operands,
         PinnedIn, AllElements;
    regs, predReg := RemapSrcs(vra, srcs, pred, orig, PinnedValues(a));
    if regs.None? {
      NoRoomNoSpace(vra.ra.numRegs, orig, a.pinned, srcs, pred, dsts, PinnedValues(a));
      return;
    }
    dstRegs := OldRegs(vra, srcs, a, orig, pred, regs.value, predReg, olds);
    ReusedNow(a, vra.Now(), orig, a.pinned, srcs, pred, killed, dsts, olds, regs.value, predReg, dstRegs);
    RemappedFacts(a, vra.Now(), orig, a.pinned, srcs, pred, killed, dsts, regs.value, predReg);
    KeptKnown(a, vra.Now());
    DefineOver(vra, srcs, pred, killed, dsts, olds, orig, regs.value, predReg, dstRegs, a.pinned);
  }

  method DefineOver(vra: VecRegAllocator, ghost srcs: seq<seq<SSA>>, ghost pred: Option<SSA>, killed: seq<SSA>, dsts: seq<seq<SSA>>,
                    ghost olds: seq<seq<SSA>>, ghost orig: map<SSA, nat>, ghost regs: seq<nat>, ghost predReg: Option<nat>,
                    dstRegs: seq<nat>, ghost pinned: set<nat>)
    requires vra.Valid(orig) && Assignable(orig, pinned, srcs, pred, killed, dsts) && Known(vra.Now()) == orig.Keys
    requires OperandsReady(vra.Now(), orig, srcs, pred, regs, predReg) && Held(vra.Now(), killed) && PinnedUsed(vra.Now())
    requires Reused(vra.Now(), killed, dsts, olds, dstRegs)
    modifies vra, vra.ra
    ensures vra.Valid(orig) && Placed(vra.Now(), orig, srcs, pred, killed, dsts, regs, predReg, dstRegs)
    ensures Leftover(vra.Now(), killed)
  {
    ghost var c := vra.Now();
    FreedLeftover(c, killed);
    assert NoRepeats(killed) && forall k :: k in killed ==> k in vra.ra.ssaReg;
    hide Sound, RegAllocator.Valid, Assignable, Placed, OperandsReady, Held, Reused, Known, Leftover, PinnedUsed;
    SoundEvicted(c, orig);
    ReusedRoom(c, orig, killed, dsts, olds, dstRegs);
    vra.FreeKilled(killed, orig);
    ghost var f := vra.Now();
    UsedAreValues(vra.ra);
    SameKnown(c, f, killed);
    FreshAfter(f, orig, pinned, srcs, pred, killed, dsts);
    hide RoomAll, FreshAll, DefinedAll;
    DefineVectors(vra, dsts, dstRegs, orig);
    SizesMatch(c, killed, dsts, olds, dstRegs);
    ReusedPlaced(c, f, vra.Now(), orig, srcs, pred, killed, dsts, olds, regs, predReg, dstRegs);
    DefinedLeftover(f, vra.Now(), dsts, dstRegs, killed);
  }

  lemma SizesMatch(c: Alloc, killed: seq<SSA>, dsts: seq<seq<SSA>>, olds: seq<seq<SSA>>, dstRegs: seq<nat>)
    requires Reused(c, killed, dsts, olds, dstRegs)
    ensures |dstRegs| == |dsts|
  {
  }

  // ---------------------------------------------------------------------------
  // One instruction
  // ---------------------------------------------------------------------------

  /** Where the operands and results of the instruction are, and the copy to run
      before it. */
  datatype Placement = Placement(srcRegs: seq<nat>, predReg: Option<nat>, dstRegs: seq<nat>, scalarRegs: seq<nat>, pairs: seq<Pair>)

  ghost predicate DeliveredVec(pairs: seq<Pair>, file: RegFile, orig: map<SSA, nat>, vec: seq<SSA>, reg: nat) {
    && (|vec| > 0 ==> reg % NextPowerOfTwo(|vec|) == 0)
    && forall c :: 0 <= c < |vec| ==> vec[c] in orig && Delivered(pairs, file, orig[vec[c]], reg + c)
  }

  /** Every operand is brought to consecutive aligned registers, every value that
      outlives the instruction to the register it has afterwards. */
  ghost predicate Brings(pl: Placement, file: RegFile, orig: map<SSA, nat>, at: map<SSA, nat>, srcs: seq<seq<SSA>>, pred: Option<SSA>,
                         killed: seq<SSA>)
  {
    && Distinct(pl.pairs) && |pl.srcRegs| == |srcs|
    && (forall i :: 0 <= i < |srcs| ==> DeliveredVec(pl.pairs, file, orig, srcs[i], pl.srcRegs[i]))
    && (pred.Some? ==> pl.predReg.Some? && DeliveredVec(pl.pairs, file, orig, [pred.value], pl.predReg.value))
    && (forall s :: s in orig && s !in killed ==> s in at && Delivered(pl.pairs, file, orig[s], at[s]))
  }

  /** Every result has registers of its own. */
  ghost predicate Gives(pl: Placement, orig: map<SSA, nat>, at: map<SSA, nat>, killed: seq<SSA>, dsts: seq<seq<SSA>>, scalars: seq<SSA>) {
    && Finite.Injective(at) && at.Keys == orig.Keys - Elements(killed) + AllElements(dsts, |dsts|) + Elements(scalars)
    && |pl.dstRegs| == |dsts| && |pl.scalarRegs| == |scalars|
    && (forall i :: 0 <= i < |dsts| ==> At(at, dsts[i], pl.dstRegs[i]) && pl.dstRegs[i] % NextPowerOfTwo(|dsts[i]|) == 0)
    && (forall j :: 0 <= j < |scalars| ==> scalars[j] in at && at[scalars[j]] == pl.scalarRegs[j])
  }

  /** The copy stays within the file's registers. */
  ghost predicate Inside(pairs: seq<Pair>, file: RegFile, numRegs: nat) {
    forall i :: 0 <= i < |pairs| ==>
      && pairs[i].dst.file == file && pairs[i].dst.idx < numRegs
      && pairs[i].src.FromReg? && pairs[i].src.reg.file == file && pairs[i].src.reg.idx < numRegs
  }

  lemma BroughtDelivered(a: Alloc, orig: map<SSA, nat>, vec: seq<SSA>, reg: nat)
    requires VecBrought(a, orig, vec, reg)
    ensures DeliveredVec(a.pairs, a.file, orig, vec, reg)
  {
    forall c | 0 <= c < |vec|
      ensures vec[c] in orig && Delivered(a.pairs, a.file, orig[vec[c]], reg + c)
    {
      assert Brought(a, orig, vec[c], reg + c);
    }
  }

  /** After `finish`: `a` before it, `b` after. */
  lemma Finished(a: Alloc, b: Alloc, orig: map<SSA, nat>, srcs: seq<seq<SSA>>, pred: Option<SSA>, killed: seq<SSA>, dsts: seq<seq<SSA>>, pl: Placement)
    requires Placed(a, orig, srcs, pred, killed, dsts, pl.srcRegs, pl.predReg, pl.dstRegs)
    requires forall i :: 0 <= i < |dsts| ==> Elements(dsts[i]) !! orig.Keys
    requires Sound(b, orig) && Grown(a, b) && b.at.Keys == Known(a) && pl.pairs == b.pairs && pl.scalarRegs == []
    requires forall s :: s in a.at ==> s in b.at && b.at[s] == a.at[s]
    ensures Brings(pl, b.file, orig, b.at, srcs, pred, killed)
    ensures Gives(pl, orig, b.at, killed, dsts, [])
    ensures Inside(pl.pairs, b.file, b.numRegs)
  {
    OperandsGrown(a, b, orig, srcs, pred, pl.srcRegs, pl.predReg);
    forall i | 0 <= i < |srcs|
      ensures DeliveredVec(pl.pairs, b.file, orig, srcs[i], pl.srcRegs[i])
    {
      BroughtDelivered(b, orig, srcs[i], pl.srcRegs[i]);
    }
    if pred.Some? { BroughtDelivered(b, orig, [pred.value], pl.predReg.value); }
    assert Elements([]) == {};
    forall i | 0 <= i < |dsts|
      ensures At(b.at, dsts[i], pl.dstRegs[i]) && pl.dstRegs[i] % NextPowerOfTwo(|dsts[i]|) == 0
    {
      assert VecAt(a, dsts[i], pl.dstRegs[i]);
    }
  }

  /** A scalar result goes to the register the heuristics prefer if it is free, else
      to the first free one. */
  method AllocScalar(ra: RegAllocator, ssa: SSA, hint: Option<nat>) returns (reg: Option<nat>)
    requires ra.Valid() && ssa !in ra.ssaReg
    modifies ra
    ensures ra.Valid()
    ensures reg.Some? ==> reg.value !in old(ra.used) && ra.ssaReg == old(ra.ssaReg)[ssa := reg.value] && ra.used == old(ra.used) + {reg.value}
    ensures reg.None? ==> ra.ssaReg == old(ra.ssaReg) && forall r: nat :: r < ra.numRegs ==> r in ra.used
    ensures hint.Some? && hint.value < ra.numRegs && hint.value !in old(ra.used) ==> reg == hint
    ensures reg.Some? && reg != hint ==> forall r: nat :: r < reg.value ==> r in old(ra.used)
  {
    if hint.Some? && hint.value < ra.numRegs && !ra.RegIsUsed(hint.value) {
      ra.AssignReg(ssa, hint.value);
      return hint;
    }
    reg := ra.TryFindUnset(ra.used, 0, 1, 1);
    assert reg.Some? ==> forall r: nat :: r < reg.value ==> Fits(ra.used, ra.numRegs, r, 1, 1) || r in ra.used;
    if reg.None? {
      forall r: nat | r < ra.numRegs
        ensures r in ra.used
      {
        assert !Fits(ra.used, ra.numRegs, r, 1, 1);
      }
      return;
    }
    ra.AssignReg(ssa, reg.value);
  }

  lemma GivesNext(pl: Placement, orig: map<SSA, nat>, at: map<SSA, nat>, srcs: seq<seq<SSA>>, pred: Option<SSA>, killed: seq<SSA>, dsts: seq<seq<SSA>>,
                  file: RegFile, scalars: seq<SSA>, s: SSA, reg: nat)
    requires Brings(pl, file, orig, at, srcs, pred, killed) && Gives(pl, orig, at, killed, dsts, scalars)
    requires s !in at && reg !in at.Values
    ensures Brings(pl.(scalarRegs := pl.scalarRegs + [reg]), file, orig, at[s := reg], srcs, pred, killed)
    ensures Gives(pl.(scalarRegs := pl.scalarRegs + [reg]), orig, at[s := reg], killed, dsts, scalars + [s])
  {
    var at', pl' := at[s := reg], pl.(scalarRegs := pl.scalarRegs + [reg]);
    forall v | v in at
      ensures at[v] != reg
    {
      assert at[v] in at.Values;
    }
    forall i | 0 <= i < |dsts|
      ensures At(at', dsts[i], pl.dstRegs[i])
    {
      assert At(at, dsts[i], pl.dstRegs[i]);
    }
  }

  predicate AllSome<T(!new)>(s: seq<Option<T>>) {
    forall i :: 0 <= i < |s| ==> s[i].Some?
  }

  lemma PlanPairs(plan: Plan, dsts: seq<seq<SSA>>, kv: seq<seq<SSA>>, used: set<nat>, numRegs: nat, m: nat, next: nat,
                  srcs: seq<seq<SSA>>, killed: seq<SSA>, olds: seq<seq<SSA>>)
    requires PlanOk(plan, dsts, kv, used, numRegs, 0, m, next) && AllSome(plan.killedIdx)
    requires KilledOk(kv, srcs, Elements(killed)) && |olds| == |dsts|
    requires forall i :: 0 <= i < |dsts| ==> plan.killedIdx[i].value < |kv| && olds[i] == kv[plan.killedIdx[i].value]
    ensures Paired(dsts, olds, srcs, killed)
  {
    hide Elements;
    forall i, j | 0 <= i < j < |dsts|
      ensures Elements(olds[i]) !! Elements(olds[j])
    {
      assert plan.killedIdx[i] != plan.killedIdx[j];
    }
  }

  lemma PlanRoom(plan: Plan, dsts: seq<seq<SSA>>, kv: seq<seq<SSA>>, used: set<nat>, numRegs: nat, m: nat, next: nat, regs: seq<nat>)
    requires PlanOk(plan, dsts, kv, used, numRegs, 0, m, next) && AllSome(plan.regs)
    requires |regs| == |dsts| && forall i :: 0 <= i < |dsts| ==> regs[i] == plan.regs[i].value
    ensures RoomAll(used, numRegs, dsts, regs, 0)
    ensures forall i :: 0 <= i < |dsts| ==> regs[i] % NextPowerOfTwo(|dsts[i]|) == 0
  {
    forall i, j | 0 <= i < j < |dsts|
      ensures Span(regs[i], |dsts[i]|) !! Span(regs[j], |dsts[j]|)
    {
      assert plan.regs[j].value + |dsts[j]| <= plan.regs[i].value;
    }
    forall i | 0 <= i < |dsts|
      ensures Fits(used, numRegs, regs[i], |dsts[i]|, NextPowerOfTwo(|dsts[i]|))
    {
      assert plan.regs[i].Some?;
    }
  }

  /** The vectors that die here, and what they and the unused registers offer each result. */
  ghost predicate IsPlan(plan: Plan, kv: seq<seq<SSA>>, srcs: seq<seq<SSA>>, killed: set<SSA>, dsts: seq<seq<SSA>>, used: set<nat>, numRegs: nat) {
    && SortedBySize(kv) && KilledOk(kv, srcs, killed)
    && (forall i :: 0 <= i < |srcs| && |srcs[i]| > 1 && Elements(srcs[i]) <= killed ==> exists s :: s in srcs[i] && Listed(kv, s))
    && (exists next: nat, m: nat :: PlanOk(plan, dsts, kv, used, numRegs, 0, m, next))
    && PlanFull(plan, dsts, kv, used, numRegs, 0)
  }

  /** A dying vector for each result, or else unused registers for each, is what they get. */
  ghost predicate Follows(plan: Plan, kv: seq<seq<SSA>>, srcs: seq<seq<SSA>>, dsts: seq<seq<SSA>>, regs: seq<nat>, dstRegs: seq<nat>) {
    && |dstRegs| == |dsts| == |plan.killedIdx| == |plan.regs|
    && (AllSome(plan.killedIdx) ==> forall i :: 0 <= i < |dsts| ==>
          plan.killedIdx[i].value < |kv| && TakesOver(srcs, regs, kv[plan.killedIdx[i].value], dstRegs[i]))
    && (!AllSome(plan.killedIdx) && AllSome(plan.regs) ==> forall i :: 0 <= i < |dsts| ==> dstRegs[i] == plan.regs[i].value)
  }

  ghost predicate ByPlan(srcs: seq<seq<SSA>>, killed: set<SSA>, dsts: seq<seq<SSA>>, used: set<nat>, numRegs: nat, regs: seq<nat>, dstRegs: seq<nat>) {
    dsts == [] || exists plan, kv :: IsPlan(plan, kv, srcs, killed, dsts, used, numRegs) && Follows(plan, kv, srcs, dsts, regs, dstRegs)
  }

  /** Over dying vectors if each result has one, else in unused registers if they
      all fit, else by eviction; `dsts` are in order of size. */
  method PlaceOperands(vra: VecRegAllocator, srcs: seq<seq<SSA>>, pred: Option<SSA>, killed: seq<SSA>, dsts: seq<seq<SSA>>, ghost orig: map<SSA, nat>)
    returns (regs: Option<seq<nat>>, predReg: Option<nat>, dstRegs: seq<nat>)
    requires vra.Valid(orig) && PinnedUsed(vra.Now()) && orig == vra.ra.ssaReg && vra.evicted == map[]
    requires Assignable(orig, vra.pinned, srcs, pred, killed, dsts)
    modifies vra, vra.ra
    ensures vra.Valid(orig)
    ensures regs.Some? ==> Placed(vra.Now(), orig, srcs, pred, killed, dsts, regs.value, predReg, dstRegs)
    ensures regs.Some? ==> Leftover(vra.Now(), killed)
    ensures regs.None? ==> NoSpace(vra.ra.numRegs, orig, old(vra.pinned), srcs, pred, dsts)
    ensures regs.Some? && Scalars(srcs) && dsts == [] && old(Quiet(vra.Now())) ==> Quiet(vra.Now())
    ensures regs.Some? ==> ByPlan(srcs, Elements(killed), dsts, old(vra.ra.used), vra.ra.numRegs, regs.value, dstRegs)
  {
    hide Elements, PlanFull, SortedBySize, TakesOver, IsPlan, Scalars, Quiet, Sound, RegAllocator.Valid, PinnedUsed, Assignable, Placed, KilledOk, Paired, NoSpace, Leftover;
    if |dsts| == 0 {
      regs, predReg, dstRegs := PlaceByEviction(vra, srcs, pred, killed, dsts, orig);
      return;
    }
    var kv := KilledVectors(srcs, Elements(killed));
    var plan := PlanVectors(vra.ra, dsts, kv);
    ghost var next: nat, m: nat :| PlanOk(plan, dsts, kv, vra.ra.used, vra.ra.numRegs, 0, m, next);
    PlanNow(plan, kv, srcs, Elements(killed), dsts, vra.ra.used, vra.ra.numRegs, m, next);
    if AllSome(plan.killedIdx) {
      var olds := seq(|dsts|, i requires 0 <= i < |dsts| => kv[plan.killedIdx[i].value]);
      PlanPairs(plan, dsts, kv, vra.ra.used, vra.ra.numRegs, m, next, srcs, killed, olds);
      regs, predReg, dstRegs := PlaceOverKilled(vra, srcs, pred, killed, dsts, olds, orig);
    } else if AllSome(plan.regs) {
      dstRegs := seq(|dsts|, i requires 0 <= i < |dsts| => plan.regs[i].value);
      PlanRoom(plan, dsts, kv, vra.ra.used, vra.ra.numRegs, m, next, dstRegs);
      NothingEvicted(vra.Now());
      FreshAfter(vra.Now(), orig, vra.pinned, srcs, pred, killed, dsts);
      FreshApart(vra.Now(), orig, vra.pinned, srcs, pred, killed, dsts);
      regs, predReg := PlaceUnused(vra, srcs, pred, killed, dsts, dstRegs, orig);
    } else {
      regs, predReg, dstRegs := PlaceByEviction(vra, srcs, pred, killed, dsts, orig);
    }
    if regs.Some? {
      PlacedCount(vra.Now(), orig, srcs, pred, killed, dsts, regs.value, predReg, dstRegs);
      assert Follows(plan, kv, srcs, dsts, regs.value, dstRegs);
    }
  }

  lemma PlacedCount(c: Alloc, orig: map<SSA, nat>, srcs: seq<seq<SSA>>, pred: Option<SSA>, killed: seq<SSA>, dsts: seq<seq<SSA>>,
                    regs: seq<nat>, predReg: Option<nat>, dstRegs: seq<nat>)
    requires Placed(c, orig, srcs, pred, killed, dsts, regs, predReg, dstRegs)
    ensures |dstRegs| == |dsts|
  {
  }

  lemma PlanNow(plan: Plan, kv: seq<seq<SSA>>, srcs: seq<seq<SSA>>, killed: set<SSA>, dsts: seq<seq<SSA>>, used: set<nat>, numRegs: nat, m: nat, next: nat)
    requires SortedBySize(kv) && KilledOk(kv, srcs, killed)
    requires forall i :: 0 <= i < |srcs| && |srcs[i]| > 1 && Elements(srcs[i]) <= killed ==> exists s :: s in srcs[i] && Listed(kv, s)
    requires PlanOk(plan, dsts, kv, used, numRegs, 0, m, next) && PlanFull(plan, dsts, kv, used, numRegs, 0)
    ensures IsPlan(plan, kv, srcs, killed, dsts, used, numRegs)
  {
    hide SortedBySize, KilledOk, Elements, Listed, PlanOk, PlanFull;
  }

  lemma FreshApart(a: Alloc, orig: map<SSA, nat>, pinned: set<nat>, srcs: seq<seq<SSA>>, pred: Option<SSA>, killed: seq<SSA>, dsts: seq<seq<SSA>>)
    requires Assignable(orig, pinned, srcs, pred, killed, dsts)
    ensures forall i, j :: 0 <= i < j < |dsts| ==> Elements(dsts[i]) !! Elements(dsts[j])
    ensures forall i :: 0 <= i < |dsts| ==> Elements(dsts[i]) !! orig.Keys
  {
  }

  ghost predicate FreshScalars(at: map<SSA, nat>, dsts: seq<seq<SSA>>, scalars: seq<SSA>) {
    NoRepeats(scalars) && Elements(scalars) !! at.Keys && Elements(scalars) !! AllElements(dsts, |dsts|)
  }

  /** What it takes for allocation to fail: values pinned for the instruction in the
      way of one of its vectors everywhere, or more values than registers. */
  ghost predicate OutOfRegs(numRegs: nat, orig: map<SSA, nat>, pinned: set<nat>, srcs: seq<seq<SSA>>, pred: Option<SSA>, killed: seq<SSA>,
                            dsts: seq<seq<SSA>>, scalars: seq<SSA>)
  {
    || NoSpace(numRegs, orig, pinned, srcs, pred, dsts)
    || numRegs < |orig| + |AllElements(dsts, |dsts|)|
    || numRegs < |orig| - |Elements(killed)| + |AllElements(dsts, |dsts|)| + |scalars|
  }

  /** `instr_assign_regs_file`: where one instruction's operands and results of this
      file go, and the copy that brings everything there. */
  method AssignFile(ra: RegAllocator, srcs: seq<seq<SSA>>, pred: Option<SSA>, killed: seq<SSA>, dsts: seq<seq<SSA>>,
                    scalars: seq<SSA>, hints: seq<Option<nat>>)
    returns (res: Option<Placement>)
    requires ra.Valid() && Assignable(ra.ssaReg, ra.pinned, srcs, pred, killed, dsts)
    requires FreshScalars(ra.ssaReg, dsts, scalars) && |hints| == |scalars|
    modifies ra
    ensures ra.Valid()
    ensures res.Some? ==> Brings(res.value, ra.file, old(ra.ssaReg), ra.ssaReg, srcs, pred, killed)
    ensures res.Some? ==> Gives(res.value, old(ra.ssaReg), ra.ssaReg, killed, dsts, scalars)
    ensures res.Some? ==> Inside(res.value.pairs, ra.file, ra.numRegs)
    ensures res.Some? && Scalars(srcs) && dsts == [] ==> res.value.pairs == []
    ensures res.None? ==> OutOfRegs(ra.numRegs, old(ra.ssaReg), old(ra.pinned), srcs, pred, killed, dsts, scalars)
    ensures res.Some? ==> ByPlan(srcs, Elements(killed), dsts, old(ra.used), ra.numRegs, res.value.srcRegs, res.value.dstRegs)
  {
    ghost var orig := ra.ssaReg;
    KilledKnown(orig, ra.pinned, srcs, pred, killed, dsts);
    FreshApart(Alloc(ra.file, ra.numRegs, orig, {}, map[], []), orig, ra.pinned, srcs, pred, killed, dsts);
    hide ByPlan, Sound, RegAllocator.Valid, Assignable, Placed, Brings, Gives, Inside, FreshScalars, PinnedUsed, NoSpace, Leftover, AllElements, Elements, Known;
    var vra := new VecRegAllocator(ra);
    assert Quiet(vra.Now());
    var regs, predReg, dstRegs := PlaceOperands(vra, srcs, pred, killed, dsts, orig);
    if regs.None? { return None; }
    ghost var a := vra.Now();
    var ok := vra.Finish(orig);
    if !ok {
      FinishFailed(a, vra.ra, vra.Now(), orig, srcs, pred, killed, dsts, regs.value, predReg, dstRegs);
      return None;
    }
    NothingEvicted(vra.Now());
    var pl := Placement(regs.value, predReg, dstRegs, [], vra.pcopy);
    Finished(a, vra.Now(), orig, srcs, pred, killed, dsts, pl);
    res := AssignScalars(ra, srcs, pred, killed, dsts, scalars, hints, pl, orig);
  }

  method AssignScalars(ra: RegAllocator, ghost srcs: seq<seq<SSA>>, ghost pred: Option<SSA>, ghost killed: seq<SSA>, ghost dsts: seq<seq<SSA>>,
                       scalars: seq<SSA>, hints: seq<Option<nat>>, pl0: Placement, ghost orig: map<SSA, nat>)
    returns (res: Option<Placement>)
    requires ra.Valid() && FreshScalars(orig, dsts, scalars) && |hints| == |scalars|
    requires Brings(pl0, ra.file, orig, ra.ssaReg, srcs, pred, killed) && Gives(pl0, orig, ra.ssaReg, killed, dsts, [])
    modifies ra
    ensures ra.Valid()
    ensures res.Some? ==> Brings(res.value, ra.file, orig, ra.ssaReg, srcs, pred, killed) && res.value == pl0.(scalarRegs := res.value.scalarRegs)
    ensures res.Some? ==> Gives(res.value, orig, ra.ssaReg, killed, dsts, scalars)
    ensures res.None? ==> Elements(killed) <= orig.Keys ==>
              ra.numRegs < |orig| - |Elements(killed)| + |AllElements(dsts, |dsts|)| + |scalars|
  {
    var pl := pl0;
    assert scalars[..0] == [];
    hide RegAllocator.Valid, Brings, Gives, FreshScalars, AllElements, Elements;
    for j := 0 to |scalars|
      invariant ra.Valid() && pl == pl0.(scalarRegs := pl.scalarRegs)
      invariant Brings(pl, ra.file, orig, ra.ssaReg, srcs, pred, killed) && Gives(pl, orig, ra.ssaReg, killed, dsts, scalars[..j])
    {
      assert scalars[..j + 1] == scalars[..j] + [scalars[j]];
      ScalarFresh(pl, orig, ra.ssaReg, killed, dsts, scalars, j);
      UsedAreValues(ra);
      ghost var at := ra.ssaReg;
      var reg := AllocScalar(ra, scalars[j], hints[j]);
      if reg.None? {
        if Elements(killed) <= orig.Keys { ScalarsFull(ra, pl, orig, killed, dsts, scalars, j); }
        return None;
      }
      GivesNext(pl, orig, at, srcs, pred, killed, dsts, ra.file, scalars[..j], scalars[j], reg.value);
      pl := pl.(scalarRegs := pl.scalarRegs + [reg.value]);
    }
    assert scalars[..|scalars|] == scalars;
    return Some(pl);
  }

  lemma FinishFailed(a: Alloc, ra: RegAllocator, b: Alloc, orig: map<SSA, nat>, srcs: seq<seq<SSA>>, pred: Option<SSA>, killed: seq<SSA>,
                     dsts: seq<seq<SSA>>, regs: seq<nat>, predReg: Option<nat>, dstRegs: seq<nat>)
    requires Placed(a, orig, srcs, pred, killed, dsts, regs, predReg, dstRegs) && Leftover(a, killed) && Elements(killed) <= orig.Keys
    requires ra.Valid() && b.at == ra.ssaReg && Sound(b, orig) && Known(b) == Known(a) && b.evicted.Keys != {}
    requires b.pinned <= a.pinned + b.at.Values && forall s :: s in a.at ==> s in b.at && b.at[s] == a.at[s]
    requires forall r: nat :: r < b.numRegs ==> r in ra.used || r in b.pinned
    ensures b.numRegs < |orig| + |AllElements(dsts, |dsts|)|
  {
    UsedAreValues(ra);
    SoundEvicted(b, orig);
    NoneLeft(a, b, orig, killed, AllElements(dsts, |dsts|));
  }

  lemma {:induction false} ElementsSize(vec: seq<SSA>, n: nat)
    requires n <= |vec|
    ensures |Elements(vec[..n])| <= n
  {
    if n > 0 {
      ElementsSize(vec, n - 1);
      assert Elements(vec[..n]) == Elements(vec[..n - 1]) + {vec[n - 1]};
    }
  }

  lemma ScalarsFull(ra: RegAllocator, pl: Placement, orig: map<SSA, nat>, killed: seq<SSA>, dsts: seq<seq<SSA>>, scalars: seq<SSA>, j: nat)
    requires ra.Valid() && j < |scalars| && Gives(pl, orig, ra.ssaReg, killed, dsts, scalars[..j]) && Elements(killed) <= orig.Keys
    requires forall r: nat :: r < ra.numRegs ==> r in ra.used
    ensures ra.numRegs < |orig| - |Elements(killed)| + |AllElements(dsts, |dsts|)| + |scalars|
  {
    hide AllElements, Elements;
    UsedAreValues(ra);
    Finite.CountAll(ra.ssaReg.Values, ra.numRegs);
    Finite.ValuesSize(ra.ssaReg);
    ElementsSize(scalars, j);
    var old_, defs, done := orig.Keys - Elements(killed), AllElements(dsts, |dsts|), Elements(scalars[..j]);
    assert ra.ssaReg.Keys == old_ + defs + done;
    assert |old_| == |orig.Keys| - |Elements(killed)|;
    assert |old_ + defs + done| <= |old_| + |defs| + |done|;
  }

  lemma ScalarFresh(pl: Placement, orig: map<SSA, nat>, at: map<SSA, nat>, killed: seq<SSA>, dsts: seq<seq<SSA>>, scalars: seq<SSA>, j: nat)
    requires j < |scalars| && FreshScalars(orig, dsts, scalars) && Gives(pl, orig, at, killed, dsts, scalars[..j])
    ensures scalars[j] !in at
  {
    assert scalars[j] in Elements(scalars);
    assert scalars[j] !in scalars[..j];
  }
}
