/** `calc_delays` of `calc_instr_deps.rs` for a block nothing comes after: every
    instruction's start is counted back from the end of the block, far enough from
    whatever depends on it, and the distances are emitted as delays. */
module Delays {
  import opened Wrappers

  type Reg = nat

  /** Which guard, operand or result of an instruction touches a register. */
  datatype Slot = Guard | Operand(k: nat) | Result(k: nat)

  datatype Access = Access(slot: Slot, reg: Reg)

  /** Operands and results name one register each; a vector is several accesses of
      one slot.  The masks are the scoreboard barriers waited on and signaled. */
  datatype Instr = Instr(guard: Option<Reg>, srcs: seq<Access>, dsts: seq<Access>, exec: nat,
                         waits: set<nat>, rdBar: Option<nat>, wrBar: Option<nat>, isSrcBar: bool)

  const BARS := 6

  const MIN_INSTR_DELAY := 1

  ghost predicate WellFormed(instrs: seq<Instr>) {
    forall i :: 0 <= i < |instrs| ==>
      && (forall a, b :: 0 <= a < b < |instrs[i].dsts| ==> instrs[i].dsts[a].reg != instrs[i].dsts[b].reg)
      && (forall a :: 0 <= a < |instrs[i].srcs| ==> instrs[i].srcs[a].slot.Operand?)
      && (forall a :: 0 <= a < |instrs[i].dsts| ==> instrs[i].dsts[a].slot.Result?)
      && (instrs[i].rdBar.Some? ==> instrs[i].rdBar.value < BARS) && (instrs[i].wrBar.Some? ==> instrs[i].wrBar.value < BARS)
  }

  /** An access of a later instruction. */
  datatype Origin = Origin(ip: nat, slot: Slot)

  /** The target's latency between an access of one instruction and one of a later. */
  type Latency = (nat, Slot, Origin) -> nat

  // ---------------------------------------------------------------------------
  // Hazards
  // ---------------------------------------------------------------------------

  predicate Writes(i: Instr, r: Reg) {
    exists k :: 0 <= k < |i.dsts| && i.dsts[k].reg == r
  }

  predicate WritesAt(i: Instr, slot: Slot, r: Reg) {
    Access(slot, r) in i.dsts
  }

  predicate ReadsAt(i: Instr, slot: Slot, r: Reg) {
    Access(slot, r) in i.srcs || (slot == Guard && i.guard == Some(r))
  }

  ghost predicate NoWrite(instrs: seq<Instr>, from: nat, to: nat, r: Reg)
    requires to <= |instrs|
  {
    forall k :: from <= k < to ==> !Writes(instrs[k], r)
  }

  /** The first access of its kind from `from` on: nothing writes the register before it. */
  ghost predicate NextRead(instrs: seq<Instr>, from: nat, r: Reg, o: Origin) {
    from <= o.ip < |instrs| && ReadsAt(instrs[o.ip], o.slot, r) && NoWrite(instrs, from, o.ip, r)
  }

  ghost predicate NextWrite(instrs: seq<Instr>, from: nat, r: Reg, o: Origin) {
    from <= o.ip < |instrs| && WritesAt(instrs[o.ip], o.slot, r) && NoWrite(instrs, from, o.ip, r)
  }

  /** Read after write and write after write: what depends on a result of `i`. */
  ghost predicate OnResult(instrs: seq<Instr>, i: nat, a: Access, o: Origin)
    requires i < |instrs|
  {
    a in instrs[i].dsts && (NextRead(instrs, i + 1, a.reg, o) || NextWrite(instrs, i + 1, a.reg, o))
  }

  /** Write after read, where the reader does not overwrite the register itself. */
  ghost predicate OnOperand(instrs: seq<Instr>, i: nat, a: Access, o: Origin)
    requires i < |instrs|
  {
    a in instrs[i].srcs && !Writes(instrs[i], a.reg) && NextWrite(instrs, i + 1, a.reg, o)
  }

  /** Cycles count back from the end of the block; each hazard of `i` has its latency. */
  ghost predicate Apart(instrs: seq<Instr>, lat: Latency, cycles: seq<nat>, i: nat, start: nat)
    requires i < |instrs| == |cycles|
  {
    forall a, o :: OnResult(instrs, i, a, o) || OnOperand(instrs, i, a, o) ==> cycles[o.ip] + lat(i, a.slot, o) <= start
  }

  // ---------------------------------------------------------------------------
  // The scheduler's state
  // ---------------------------------------------------------------------------

  datatype RegUse = RegUse(writers: set<Origin>, readers: set<Origin>)

  type Uses = map<Reg, RegUse>

  function UseOf(uses: Uses, r: Reg): RegUse {
    if r in uses then uses[r] else RegUse({}, {})
  }

  ghost predicate UseOk(instrs: seq<Instr>, ip: nat, uses: Uses, r: Reg)
    requires ip <= |instrs|
  {
    && (forall o :: o in UseOf(uses, r).readers <==> NextRead(instrs, ip, r, o))
    && (forall o :: o in UseOf(uses, r).writers <==> NextWrite(instrs, ip, r, o))
  }

  ghost predicate UsesOk(instrs: seq<Instr>, ip: nat, uses: Uses)
    requires ip <= |instrs|
  {
    forall r: Reg :: UseOk(instrs, ip, uses, r)
  }

  function Larger(a: nat, b: nat): nat {
    if a >= b then a else b
  }

  /** When `ip` has to start so that it is `latency` ahead of the origin. */
  function DependencyToCycle(cycles: seq<nat>, ip: nat, o: Origin, latency: nat): nat {
    if ip < o.ip < |cycles| then cycles[o.ip] + latency else latency
  }

  /** The latest of `start0` and the bounds the origins set. */
  method LatestOver(start0: nat, origins: set<Origin>, bound: Origin -> nat) returns (start: nat)
    ensures start0 <= start && forall o :: o in origins ==> bound(o) <= start
    ensures start == start0 || exists o :: o in origins && bound(o) == start
  {
    start := start0;
    var left := origins;
    while left != {}
      invariant left <= origins && start0 <= start
      invariant forall o :: o in origins - left ==> bound(o) <= start
      invariant start == start0 || exists o :: o in origins && bound(o) == start
    {
      var o :| o in left;
      left := left - {o};
      start := Larger(start, bound(o));
    }
  }

  // ---- how uses change

  /** Results first: a write takes the place of everything behind it. */
  function SetWrite(uses: Uses, a: Access, ip: nat): Uses {
    uses[a.reg := RegUse({Origin(ip, a.slot)}, {})]
  }

  function AddRead(uses: Uses, a: Access, ip: nat): Uses {
    uses[a.reg := UseOf(uses, a.reg).(readers := UseOf(uses, a.reg).readers + {Origin(ip, a.slot)})]
  }

  function SetWrites(uses: Uses, dsts: seq<Access>, n: nat, ip: nat): Uses
    requires n <= |dsts|
  {
    if n == 0 then uses else SetWrite(SetWrites(uses, dsts, n - 1, ip), dsts[n - 1], ip)
  }

  function AddReads(uses: Uses, srcs: seq<Access>, n: nat, ip: nat): Uses
    requires n <= |srcs|
  {
    if n == 0 then uses else AddRead(AddReads(uses, srcs, n - 1, ip), srcs[n - 1], ip)
  }

  function AddGuard(uses: Uses, guard: Option<Reg>, ip: nat): Uses {
    if guard.Some? then AddRead(uses, Access(Guard, guard.value), ip) else uses
  }

  lemma {:induction false} SetWritesAre(uses: Uses, dsts: seq<Access>, n: nat, ip: nat, r: Reg)
    requires n <= |dsts| && forall a, b :: 0 <= a < b < |dsts| ==> dsts[a].reg != dsts[b].reg
    ensures UseOf(SetWrites(uses, dsts, n, ip), r) ==
            if exists k :: 0 <= k < n && dsts[k].reg == r then
              RegUse(set k | 0 <= k < n && dsts[k].reg == r :: Origin(ip, dsts[k].slot), {})
            else UseOf(uses, r)
  {
    if n > 0 {
      SetWritesAre(uses, dsts, n - 1, ip, r);
      if dsts[n - 1].reg == r {
        assert (set k | 0 <= k < n && dsts[k].reg == r :: Origin(ip, dsts[k].slot)) == {Origin(ip, dsts[n - 1].slot)};
      } else {
        assert (set k | 0 <= k < n && dsts[k].reg == r :: Origin(ip, dsts[k].slot)) ==
               (set k | 0 <= k < n - 1 && dsts[k].reg == r :: Origin(ip, dsts[k].slot));
      }
    }
  }

  lemma {:induction false} AddReadsAre(uses: Uses, srcs: seq<Access>, n: nat, ip: nat, r: Reg)
    requires n <= |srcs|
    ensures UseOf(AddReads(uses, srcs, n, ip), r).writers == UseOf(uses, r).writers
    ensures UseOf(AddReads(uses, srcs, n, ip), r).readers ==
            UseOf(uses, r).readers + (set k | 0 <= k < n && srcs[k].reg == r :: Origin(ip, srcs[k].slot))
  {
    if n > 0 { AddReadsAre(uses, srcs, n - 1, ip, r); }
  }

  function UsesAfter(uses: Uses, i: Instr, ip: nat): Uses {
    AddReads(AddGuard(SetWrites(uses, i.dsts, |i.dsts|, ip), i.guard, ip), i.srcs, |i.srcs|, ip)
  }

  lemma NoWriteNext(instrs: seq<Instr>, ip: nat, to: nat, r: Reg)
    requires ip < to <= |instrs|
    ensures NoWrite(instrs, ip, to, r) <==> !Writes(instrs[ip], r) && NoWrite(instrs, ip + 1, to, r)
  {
  }

  lemma ReadersAfter(instrs: seq<Instr>, ip: nat, uses: Uses, r: Reg, o: Origin)
    requires ip < |instrs| && WellFormed(instrs) && UseOk(instrs, ip + 1, uses, r)
    ensures o in UseOf(UsesAfter(uses, instrs[ip], ip), r).readers <==> NextRead(instrs, ip, r, o)
  {
    var i := instrs[ip];
    var u1 := SetWrites(uses, i.dsts, |i.dsts|, ip);
    SetWritesAre(uses, i.dsts, |i.dsts|, ip, r);
    AddReadsAre(AddGuard(u1, i.guard, ip), i.srcs, |i.srcs|, ip, r);
    assert ReadsAt(i, o.slot, r) <==> (exists k :: 0 <= k < |i.srcs| && i.srcs[k] == Access(o.slot, r)) || (o.slot == Guard && i.guard == Some(r));
    if o.ip > ip && o.ip < |instrs| { NoWriteNext(instrs, ip, o.ip, r); }
    hide SetWrites, AddReads, WellFormed;
  }

  lemma WritersAfter(instrs: seq<Instr>, ip: nat, uses: Uses, r: Reg, o: Origin)
    requires ip < |instrs| && WellFormed(instrs) && UseOk(instrs, ip + 1, uses, r)
    ensures o in UseOf(UsesAfter(uses, instrs[ip], ip), r).writers <==> NextWrite(instrs, ip, r, o)
  {
    var i := instrs[ip];
    var u1 := SetWrites(uses, i.dsts, |i.dsts|, ip);
    SetWritesAre(uses, i.dsts, |i.dsts|, ip, r);
    AddReadsAre(AddGuard(u1, i.guard, ip), i.srcs, |i.srcs|, ip, r);
    assert WritesAt(i, o.slot, r) <==> (exists k :: 0 <= k < |i.dsts| && i.dsts[k] == Access(o.slot, r));
    if o.ip > ip && o.ip < |instrs| { NoWriteNext(instrs, ip, o.ip, r); }
    hide SetWrites, AddReads, WellFormed;
  }

  lemma UsesNext(instrs: seq<Instr>, ip: nat, uses: Uses)
    requires ip < |instrs| && WellFormed(instrs) && UsesOk(instrs, ip + 1, uses)
    ensures UsesOk(instrs, ip, UsesAfter(uses, instrs[ip], ip))
  {
    hide UsesAfter, WellFormed, NextRead, NextWrite;
    forall r: Reg
      ensures UseOk(instrs, ip, UsesAfter(uses, instrs[ip], ip), r)
    {
      assert UseOk(instrs, ip + 1, uses, r);
      forall o: Origin
        ensures o in UseOf(UsesAfter(uses, instrs[ip], ip), r).readers <==> NextRead(instrs, ip, r, o)
        ensures o in UseOf(UsesAfter(uses, instrs[ip], ip), r).writers <==> NextWrite(instrs, ip, r, o)
      {
        ReadersAfter(instrs, ip, uses, r, o);
        WritersAfter(instrs, ip, uses, r, o);
      }
    }
  }

  // ---------------------------------------------------------------------------
  // One instruction
  // ---------------------------------------------------------------------------

  /** Something that keeps `i` from starting any later from the end than `start`: its
      own length, a barrier it signals, a hazard, or, where it overwrites one of its
      operands, its own write. */
  ghost predicate Reason(instrs: seq<Instr>, lat: Latency, cycles: seq<nat>, bars: seq<nat>, current: nat, i: nat, start: nat)
    requires i < |instrs| == |cycles| && |bars| == BARS
  {
    || start == current + instrs[i].exec
    || (exists b :: 0 <= b < BARS && (instrs[i].rdBar == Some(b) || instrs[i].wrBar == Some(b)) && start == bars[b] + 2)
    || (exists a, o :: (OnResult(instrs, i, a, o) || OnOperand(instrs, i, a, o)) && start == cycles[o.ip] + lat(i, a.slot, o))
    || (exists a, o: Origin :: a in instrs[i].srcs && o.ip == i && WritesAt(instrs[i], o.slot, a.reg) && start == lat(i, a.slot, o))
  }

  ghost predicate BarsMet(i: Instr, bars: seq<nat>, start: nat)
    requires |bars| == BARS
  {
    (i.rdBar.Some? && i.rdBar.value < BARS ==> bars[i.rdBar.value] + 2 <= start) && (i.wrBar.Some? && i.wrBar.value < BARS ==> bars[i.wrBar.value] + 2 <= start)
  }

  /** Everything that depends on access `a` is far enough behind. */
  ghost predicate ResultMet(instrs: seq<Instr>, lat: Latency, cycles: seq<nat>, i: nat, a: Access, start: nat)
    requires i < |instrs| == |cycles|
  {
    forall o :: OnResult(instrs, i, a, o) ==> cycles[o.ip] + lat(i, a.slot, o) <= start
  }

  ghost predicate OperandMet(instrs: seq<Instr>, lat: Latency, cycles: seq<nat>, i: nat, a: Access, start: nat)
    requires i < |instrs| == |cycles|
  {
    forall o :: OnOperand(instrs, i, a, o) ==> cycles[o.ip] + lat(i, a.slot, o) <= start
  }

  lemma MetLater(instrs: seq<Instr>, lat: Latency, cycles: seq<nat>, i: nat, a: Access, start: nat, later: nat)
    requires i < |instrs| == |cycles| && start <= later
    ensures ResultMet(instrs, lat, cycles, i, a, start) ==> ResultMet(instrs, lat, cycles, i, a, later)
    ensures OperandMet(instrs, lat, cycles, i, a, start) ==> OperandMet(instrs, lat, cycles, i, a, later)
  {
  }

  /** The first `n` results are met. */
  ghost predicate ResultsMet(instrs: seq<Instr>, lat: Latency, cycles: seq<nat>, i: nat, n: nat, start: nat)
    requires i < |instrs| == |cycles| && n <= |instrs[i].dsts|
  {
    forall k :: 0 <= k < n ==> ResultMet(instrs, lat, cycles, i, instrs[i].dsts[k], start)
  }

  ghost predicate OperandsMet(instrs: seq<Instr>, lat: Latency, cycles: seq<nat>, i: nat, n: nat, start: nat)
    requires i < |instrs| == |cycles| && n <= |instrs[i].srcs|
  {
    forall k :: 0 <= k < n ==> OperandMet(instrs, lat, cycles, i, instrs[i].srcs[k], start)
  }

  lemma ResultsMetNext(instrs: seq<Instr>, lat: Latency, cycles: seq<nat>, i: nat, n: nat, start: nat, later: nat)
    requires i < |instrs| == |cycles| && n < |instrs[i].dsts| && start <= later
    requires ResultsMet(instrs, lat, cycles, i, n, start) && ResultMet(instrs, lat, cycles, i, instrs[i].dsts[n], later)
    ensures ResultsMet(instrs, lat, cycles, i, n + 1, later)
  {
    hide ResultMet;
    forall k | 0 <= k < n
      ensures ResultMet(instrs, lat, cycles, i, instrs[i].dsts[k], later)
    {
      MetLater(instrs, lat, cycles, i, instrs[i].dsts[k], start, later);
    }
  }

  lemma ResultsMetLater(instrs: seq<Instr>, lat: Latency, cycles: seq<nat>, i: nat, n: nat, start: nat, later: nat)
    requires i < |instrs| == |cycles| && n <= |instrs[i].dsts| && start <= later && ResultsMet(instrs, lat, cycles, i, n, start)
    ensures ResultsMet(instrs, lat, cycles, i, n, later)
  {
    hide ResultMet;
    forall k | 0 <= k < n
      ensures ResultMet(instrs, lat, cycles, i, instrs[i].dsts[k], later)
    {
      MetLater(instrs, lat, cycles, i, instrs[i].dsts[k], start, later);
    }
  }

  lemma OperandsMetNext(instrs: seq<Instr>, lat: Latency, cycles: seq<nat>, i: nat, n: nat, start: nat, later: nat)
    requires i < |instrs| == |cycles| && n < |instrs[i].srcs| && start <= later
    requires OperandsMet(instrs, lat, cycles, i, n, start) && OperandMet(instrs, lat, cycles, i, instrs[i].srcs[n], later)
    ensures OperandsMet(instrs, lat, cycles, i, n + 1, later)
  {
    hide OperandMet;
    forall k | 0 <= k < n
      ensures OperandMet(instrs, lat, cycles, i, instrs[i].srcs[k], later)
    {
      MetLater(instrs, lat, cycles, i, instrs[i].srcs[k], start, later);
    }
  }

  lemma OneWriteStays(uses: Uses, i: Instr, n: nat, ip: nat, r: Reg)
    requires n <= |i.dsts| && (forall a, b :: 0 <= a < b < |i.dsts| ==> i.dsts[a].reg != i.dsts[b].reg)
    requires forall k :: 0 <= k < n ==> i.dsts[k].reg != r
    ensures UseOf(SetWrites(uses, i.dsts, n, ip), r) == UseOf(uses, r)
  {
    SetWritesAre(uses, i.dsts, n, ip, r);
  }

  /** Results: behind whatever reads or overwrites them. */
  method StartForResults(instrs: seq<Instr>, lat: Latency, cycles: seq<nat>, ip: nat, uses0: Uses, start0: nat, ghost bars: seq<nat>, ghost current: nat)
    returns (start: nat, uses: Uses)
    requires WellFormed(instrs) && ip < |instrs| == |cycles| && UsesOk(instrs, ip + 1, uses0)
    requires |bars| == BARS && Reason(instrs, lat, cycles, bars, current, ip, start0)
    ensures start0 <= start && Reason(instrs, lat, cycles, bars, current, ip, start)
    ensures ResultsMet(instrs, lat, cycles, ip, |instrs[ip].dsts|, start)
    ensures uses == SetWrites(uses0, instrs[ip].dsts, |instrs[ip].dsts|, ip)
  {
    var dsts := instrs[ip].dsts;
    start, uses := start0, uses0;
    StartSetting(uses0, dsts, ip);
    assert ResultsMet(instrs, lat, cycles, ip, 0, start);
    hide UsesOk, Reason, SetWrites, SetWrite, WellFormed, ResultMet, ResultsMet;
    for d := 0 to |dsts|
      invariant start0 <= start && Reason(instrs, lat, cycles, bars, current, ip, start)
      invariant ResultsMet(instrs, lat, cycles, ip, d, start)
      invariant uses == SetWrites(uses0, dsts, d, ip)
    {
      ghost var before := start;
      start := StartForResult(instrs, lat, cycles, ip, uses0, uses, d, start, bars, current);
      ResultsMetNext(instrs, lat, cycles, ip, d, before, start);
      SettingNext(uses0, dsts, d, ip);
      uses := SetWrite(uses, dsts[d], ip);
    }
  }

  lemma StartSetting(uses: Uses, dsts: seq<Access>, ip: nat)
    ensures SetWrites(uses, dsts, 0, ip) == uses
  {
  }

  lemma SettingNext(uses: Uses, dsts: seq<Access>, d: nat, ip: nat)
    requires d < |dsts|
    ensures SetWrites(uses, dsts, d + 1, ip) == SetWrite(SetWrites(uses, dsts, d, ip), dsts[d], ip)
  {
  }

  method StartForResult(instrs: seq<Instr>, lat: Latency, cycles: seq<nat>, ip: nat, ghost uses0: Uses, uses: Uses, d: nat, start0: nat,
                        ghost bars: seq<nat>, ghost current: nat)
    returns (start: nat)
    requires WellFormed(instrs) && ip < |instrs| == |cycles| && UsesOk(instrs, ip + 1, uses0) && d < |instrs[ip].dsts|
    requires uses == SetWrites(uses0, instrs[ip].dsts, d, ip)
    requires |bars| == BARS && Reason(instrs, lat, cycles, bars, current, ip, start0)
    ensures start0 <= start && Reason(instrs, lat, cycles, bars, current, ip, start)
    ensures ResultMet(instrs, lat, cycles, ip, instrs[ip].dsts[d], start)
  {
    var a := instrs[ip].dsts[d];
    OneWriteStays(uses0, instrs[ip], d, ip, a.reg);
    assert UseOk(instrs, ip + 1, uses0, a.reg);
    hide UsesOk, WellFormed, SetWrites;
    var bound := (o: Origin) => DependencyToCycle(cycles, ip, o, lat(ip, a.slot, o));
    start := LatestOver(start0, UseOf(uses, a.reg).writers, bound);
    if start != start0 {
      var o :| o in UseOf(uses, a.reg).writers && bound(o) == start;
      assert OnResult(instrs, ip, a, o);
    }
    ghost var start1 := start;
    start := LatestOver(start, UseOf(uses, a.reg).readers, bound);
    if start != start1 {
      var o :| o in UseOf(uses, a.reg).readers && bound(o) == start;
      assert OnResult(instrs, ip, a, o);
    }
    forall o | OnResult(instrs, ip, a, o)
      ensures cycles[o.ip] + lat(ip, a.slot, o) <= start
    {
      assert bound(o) == cycles[o.ip] + lat(ip, a.slot, o);
    }
  }

  /** Operands: behind what overwrites them later.  Where the instruction overwrites
      one itself only its own write is seen. */
  method StartForOperand(instrs: seq<Instr>, lat: Latency, cycles: seq<nat>, ip: nat, ghost uses0: Uses, uses: Uses, k: nat, start0: nat,
                         ghost bars: seq<nat>, ghost current: nat)
    returns (start: nat)
    requires WellFormed(instrs) && ip < |instrs| == |cycles| && UsesOk(instrs, ip + 1, uses0) && k < |instrs[ip].srcs|
    requires UseOf(uses, instrs[ip].srcs[k].reg).writers ==
             UseOf(SetWrites(uses0, instrs[ip].dsts, |instrs[ip].dsts|, ip), instrs[ip].srcs[k].reg).writers
    requires |bars| == BARS && Reason(instrs, lat, cycles, bars, current, ip, start0)
    ensures start0 <= start && Reason(instrs, lat, cycles, bars, current, ip, start)
    ensures OperandMet(instrs, lat, cycles, ip, instrs[ip].srcs[k], start)
  {
    var i, a := instrs[ip], instrs[ip].srcs[k];
    SetWritesAre(uses0, i.dsts, |i.dsts|, ip, a.reg);
    assert UseOk(instrs, ip + 1, uses0, a.reg);
    hide UsesOk, WellFormed, SetWrites;
    var bound := (o: Origin) => DependencyToCycle(cycles, ip, o, lat(ip, a.slot, o));
    start := LatestOver(start0, UseOf(uses, a.reg).writers, bound);
    if start != start0 {
      var o :| o in UseOf(uses, a.reg).writers && bound(o) == start;
      if o.ip == ip {
        assert WritesAt(i, o.slot, a.reg);
      } else {
        assert OnOperand(instrs, ip, a, o);
      }
    }
    forall o | OnOperand(instrs, ip, a, o)
      ensures cycles[o.ip] + lat(ip, a.slot, o) <= start
    {
      assert bound(o) == cycles[o.ip] + lat(ip, a.slot, o);
    }
  }

  method StartForOperands(instrs: seq<Instr>, lat: Latency, cycles: seq<nat>, ip: nat, ghost uses0: Uses, uses1: Uses, start0: nat,
                          ghost bars: seq<nat>, ghost current: nat)
    returns (start: nat, uses: Uses)
    requires WellFormed(instrs) && ip < |instrs| == |cycles| && UsesOk(instrs, ip + 1, uses0)
    requires uses1 == AddGuard(SetWrites(uses0, instrs[ip].dsts, |instrs[ip].dsts|, ip), instrs[ip].guard, ip)
    requires |bars| == BARS && Reason(instrs, lat, cycles, bars, current, ip, start0)
    ensures start0 <= start && Reason(instrs, lat, cycles, bars, current, ip, start)
    ensures OperandsMet(instrs, lat, cycles, ip, |instrs[ip].srcs|, start)
    ensures uses == UsesAfter(uses0, instrs[ip], ip)
  {
    var srcs := instrs[ip].srcs;
    hide UsesOk, UsesAfter, Reason, SetWrites, AddReads, AddRead, WellFormed, OperandMet, OperandsMet, AddGuard, UseOf;
    start, uses := start0, uses1;
    NoOperandYet(instrs, lat, cycles, ip, start);
    AllAdded(uses0, uses1, instrs[ip], ip);
    for k := 0 to |srcs|
      invariant start0 <= start && Reason(instrs, lat, cycles, bars, current, ip, start)
      invariant OperandsMet(instrs, lat, cycles, ip, k, start)
      invariant uses == AddReads(uses1, srcs, k, ip)
    {
      ghost var before := start;
      ReadsKeepWriters(uses0, uses1, instrs[ip], k, ip, srcs[k].reg);
      start := StartForOperand(instrs, lat, cycles, ip, uses0, uses, k, start, bars, current);
      OperandsMetNext(instrs, lat, cycles, ip, k, before, start);
      AddingNext(uses1, srcs, k, ip);
      uses := AddRead(uses, srcs[k], ip);
    }
  }

  lemma NoOperandYet(instrs: seq<Instr>, lat: Latency, cycles: seq<nat>, i: nat, start: nat)
    requires i < |instrs| == |cycles|
    ensures OperandsMet(instrs, lat, cycles, i, 0, start)
  {
  }

  lemma AllAdded(uses0: Uses, uses1: Uses, i: Instr, ip: nat)
    requires uses1 == AddGuard(SetWrites(uses0, i.dsts, |i.dsts|, ip), i.guard, ip)
    ensures AddReads(uses1, i.srcs, 0, ip) == uses1 && AddReads(uses1, i.srcs, |i.srcs|, ip) == UsesAfter(uses0, i, ip)
  {
  }

  lemma AddingNext(uses: Uses, srcs: seq<Access>, k: nat, ip: nat)
    requires k < |srcs|
    ensures AddReads(uses, srcs, k + 1, ip) == AddRead(AddReads(uses, srcs, k, ip), srcs[k], ip)
  {
  }

  /** Reads and the guard leave a register's writers alone. */
  lemma ReadsKeepWriters(uses0: Uses, uses1: Uses, i: Instr, k: nat, ip: nat, r: Reg)
    requires k <= |i.srcs| && uses1 == AddGuard(SetWrites(uses0, i.dsts, |i.dsts|, ip), i.guard, ip)
    ensures UseOf(AddReads(uses1, i.srcs, k, ip), r).writers == UseOf(SetWrites(uses0, i.dsts, |i.dsts|, ip), r).writers
  {
    AddReadsAre(uses1, i.srcs, k, ip, r);
  }

  lemma AllMet(instrs: seq<Instr>, lat: Latency, cycles: seq<nat>, i: nat, start: nat)
    requires i < |instrs| == |cycles|
    requires ResultsMet(instrs, lat, cycles, i, |instrs[i].dsts|, start) && OperandsMet(instrs, lat, cycles, i, |instrs[i].srcs|, start)
    ensures Apart(instrs, lat, cycles, i, start)
  {
    forall a, o | OnResult(instrs, i, a, o) || OnOperand(instrs, i, a, o)
      ensures cycles[o.ip] + lat(i, a.slot, o) <= start
    {
      if OnResult(instrs, i, a, o) {
        var k :| 0 <= k < |instrs[i].dsts| && instrs[i].dsts[k] == a;
        assert ResultMet(instrs, lat, cycles, i, instrs[i].dsts[k], start);
      } else {
        var k :| 0 <= k < |instrs[i].srcs| && instrs[i].srcs[k] == a;
        assert OperandMet(instrs, lat, cycles, i, instrs[i].srcs[k], start);
      }
    }
  }

  // ---------------------------------------------------------------------------
  // The block
  // ---------------------------------------------------------------------------

  /** The start of the next instruction, 0 at the end of the block. */
  function NextCycle(cycles: seq<nat>, i: nat): nat {
    if i + 1 < |cycles| then cycles[i + 1] else 0
  }

  /** The start of the first instruction from `from` on that waits on barrier `b`. */
  function WaitCycle(instrs: seq<Instr>, cycles: seq<nat>, from: nat, b: nat): nat
    requires from <= |instrs| == |cycles|
    decreases |instrs| - from
  {
    if from == |instrs| then 0 else if b in instrs[from].waits then cycles[from] else WaitCycle(instrs, cycles, from + 1, b)
  }

  function BarCycles(instrs: seq<Instr>, cycles: seq<nat>, from: nat): (bars: seq<nat>)
    requires from <= |instrs| == |cycles|
    ensures |bars| == BARS
  {
    seq(BARS, b requires 0 <= b < BARS => WaitCycle(instrs, cycles, from, b))
  }

  predicate Signals(i: Instr, b: nat) {
    b < BARS && (i.rdBar == Some(b) || i.wrBar == Some(b))
  }

  ghost predicate NoWait(instrs: seq<Instr>, from: nat, to: nat, b: nat)
    requires to <= |instrs|
  {
    forall k :: from <= k < to ==> b !in instrs[k].waits
  }

  /** Instruction `j` is the first from `from` on that waits on barrier `b`. */
  ghost predicate NextWait(instrs: seq<Instr>, from: nat, b: nat, j: nat) {
    from <= j < |instrs| && b in instrs[j].waits && NoWait(instrs, from, j, b)
  }

  lemma {:induction false} WaitCycleIs(instrs: seq<Instr>, cycles: seq<nat>, from: nat, b: nat)
    requires from <= |instrs| == |cycles|
    ensures forall j: nat :: NextWait(instrs, from, b, j) ==> WaitCycle(instrs, cycles, from, b) == cycles[j]
    ensures NoWait(instrs, from, |instrs|, b) ==> WaitCycle(instrs, cycles, from, b) == 0
    decreases |instrs| - from
  {
    if from < |instrs| {
      if b in instrs[from].waits {
        assert NextWait(instrs, from, b, from);
      } else {
        WaitCycleIs(instrs, cycles, from + 1, b);
        assert forall j: nat :: NextWait(instrs, from, b, j) <==> NextWait(instrs, from + 1, b, j);
      }
    }
  }

  lemma {:induction false} FirstWait(instrs: seq<Instr>, from: nat, j: nat, b: nat) returns (k: nat)
    requires from <= j < |instrs| && b in instrs[j].waits
    ensures k <= j && NextWait(instrs, from, b, k)
    decreases j - from
  {
    if b in instrs[from].waits { k := from; } else { k := FirstWait(instrs, from + 1, j, b); }
  }

  /** A barrier is signaled two cycles ahead of the next wait on it, or of the end of
      the block. */
  ghost predicate BarAhead(instrs: seq<Instr>, cycles: seq<nat>, i: nat, b: nat, start: nat)
    requires i < |instrs| == |cycles|
  {
    2 <= start && forall j: nat :: NextWait(instrs, i + 1, b, j) ==> cycles[j] + 2 <= start
  }

  ghost predicate BarReason(instrs: seq<Instr>, cycles: seq<nat>, i: nat, b: nat, start: nat)
    requires i < |instrs| == |cycles|
  {
    (start == 2 && NoWait(instrs, i + 1, |instrs|, b)) || exists j: nat :: NextWait(instrs, i + 1, b, j) && start == cycles[j] + 2
  }

  /** Something that keeps `i` from starting any later: its own length, a barrier it
      signals, a hazard, or, where it overwrites one of its operands, its own write. */
  ghost predicate Tight(instrs: seq<Instr>, lat: Latency, cycles: seq<nat>, i: nat, start: nat)
    requires i < |instrs| == |cycles|
  {
    || start == NextCycle(cycles, i) + instrs[i].exec
    || (exists b: nat :: Signals(instrs[i], b) && BarReason(instrs, cycles, i, b, start))
    || (exists a, o :: (OnResult(instrs, i, a, o) || OnOperand(instrs, i, a, o)) && start == cycles[o.ip] + lat(i, a.slot, o))
    || (exists a, o: Origin :: a in instrs[i].srcs && o.ip == i && WritesAt(instrs[i], o.slot, a.reg) && start == lat(i, a.slot, o))
  }

  /** Instruction `i` starts as late as it can without cutting anything short: neither
      its own length, nor a barrier's two cycles, nor the latency of a hazard. */
  ghost predicate StartOk(instrs: seq<Instr>, lat: Latency, cycles: seq<nat>, i: nat)
    requires i < |instrs| == |cycles|
  {
    && NextCycle(cycles, i) + instrs[i].exec <= cycles[i]
    && (forall b: nat :: Signals(instrs[i], b) ==> BarAhead(instrs, cycles, i, b, cycles[i]))
    && Apart(instrs, lat, cycles, i, cycles[i])
    && Tight(instrs, lat, cycles, i, cycles[i])
  }

  lemma BarrierBounds(instrs: seq<Instr>, cycles: seq<nat>, i: nat, b: nat, start: nat)
    requires i < |instrs| == |cycles|
    ensures b < BARS && WaitCycle(instrs, cycles, i + 1, b) + 2 <= start ==> BarAhead(instrs, cycles, i, b, start)
    ensures start == WaitCycle(instrs, cycles, i + 1, b) + 2 ==> BarReason(instrs, cycles, i, b, start)
  {
    WaitCycleIs(instrs, cycles, i + 1, b);
    if !NoWait(instrs, i + 1, |instrs|, b) {
      var j: nat :| i + 1 <= j < |instrs| && b in instrs[j].waits;
      var k := FirstWait(instrs, i + 1, j, b);
    }
  }

  /** What the scheduler keeps of the barriers says when they are waited on. */
  lemma StartFromBars(instrs: seq<Instr>, lat: Latency, cycles: seq<nat>, i: nat, start: nat)
    requires i < |instrs| == |cycles|
    requires BarsMet(instrs[i], BarCycles(instrs, cycles, i + 1), start)
    requires Reason(instrs, lat, cycles, BarCycles(instrs, cycles, i + 1), NextCycle(cycles, i), i, start)
    ensures forall b: nat :: Signals(instrs[i], b) ==> BarAhead(instrs, cycles, i, b, start)
    ensures Tight(instrs, lat, cycles, i, start)
  {
    var bars := BarCycles(instrs, cycles, i + 1);
    forall b: nat | Signals(instrs[i], b)
      ensures BarAhead(instrs, cycles, i, b, start) && (start == bars[b] + 2 ==> BarReason(instrs, cycles, i, b, start))
    {
      BarrierBounds(instrs, cycles, i, b, start);
    }
    hide BarCycles, BarReason, BarAhead, OnResult, OnOperand;
    if b: nat :| 0 <= b < BARS && (instrs[i].rdBar == Some(b) || instrs[i].wrBar == Some(b)) && start == bars[b] + 2 {
      assert Signals(instrs[i], b);
    }
  }

  lemma {:induction false} WaitCycleStays(instrs: seq<Instr>, a: seq<nat>, b: seq<nat>, from: nat, bar: nat)
    requires from <= |instrs| == |a| == |b| && forall k :: from <= k < |a| ==> a[k] == b[k]
    ensures WaitCycle(instrs, a, from, bar) == WaitCycle(instrs, b, from, bar)
    decreases |instrs| - from
  {
    if from < |instrs| && bar !in instrs[from].waits { WaitCycleStays(instrs, a, b, from + 1, bar); }
  }

  lemma BarCyclesStay(instrs: seq<Instr>, a: seq<nat>, b: seq<nat>, from: nat)
    requires from <= |instrs| == |a| == |b| && forall k :: from <= k < |a| ==> a[k] == b[k]
    ensures BarCycles(instrs, a, from) == BarCycles(instrs, b, from)
  {
    forall bar | 0 <= bar < BARS
      ensures WaitCycle(instrs, a, from, bar) == WaitCycle(instrs, b, from, bar)
    {
      WaitCycleStays(instrs, a, b, from, bar);
    }
  }

  lemma ReasonStays(instrs: seq<Instr>, lat: Latency, a: seq<nat>, b: seq<nat>, bars: seq<nat>, current: nat, i: nat, start: nat)
    requires i < |instrs| == |a| == |b| && |bars| == BARS && (forall k :: i < k < |a| ==> a[k] == b[k])
    requires Reason(instrs, lat, a, bars, current, i, start)
    ensures Reason(instrs, lat, b, bars, current, i, start)
  {
    if x, o :| (OnResult(instrs, i, x, o) || OnOperand(instrs, i, x, o)) && start == a[o.ip] + lat(i, x.slot, o) {
      assert a[o.ip] == b[o.ip];
    }
  }

  lemma ApartStays(instrs: seq<Instr>, lat: Latency, a: seq<nat>, b: seq<nat>, i: nat, start: nat)
    requires i < |instrs| == |a| == |b| && (forall k :: i < k < |a| ==> a[k] == b[k])
    requires Apart(instrs, lat, a, i, start)
    ensures Apart(instrs, lat, b, i, start)
  {
    forall x, o | OnResult(instrs, i, x, o) || OnOperand(instrs, i, x, o)
      ensures b[o.ip] + lat(i, x.slot, o) <= start
    {
      assert a[o.ip] == b[o.ip];
    }
  }

  lemma TightStays(instrs: seq<Instr>, lat: Latency, a: seq<nat>, b: seq<nat>, i: nat, start: nat)
    requires i < |instrs| == |a| == |b| && (forall k :: i < k < |a| ==> a[k] == b[k]) && Tight(instrs, lat, a, i, start)
    ensures Tight(instrs, lat, b, i, start)
  {
    if x, o :| (OnResult(instrs, i, x, o) || OnOperand(instrs, i, x, o)) && start == a[o.ip] + lat(i, x.slot, o) {
      assert a[o.ip] == b[o.ip];
    }
    if bar: nat :| Signals(instrs[i], bar) && BarReason(instrs, a, i, bar, start) {
      assert BarReason(instrs, b, i, bar, start) by {
        if j: nat :| NextWait(instrs, i + 1, bar, j) && start == a[j] + 2 { assert b[j] == a[j]; }
      }
    }
  }

  lemma StartStays(instrs: seq<Instr>, lat: Latency, a: seq<nat>, b: seq<nat>, i: nat)
    requires i < |instrs| == |a| == |b| && (forall k :: i <= k < |a| ==> a[k] == b[k]) && StartOk(instrs, lat, a, i)
    ensures StartOk(instrs, lat, b, i)
  {
    forall bar: nat | Signals(instrs[i], bar)
      ensures BarAhead(instrs, b, i, bar, b[i])
    {
      assert BarAhead(instrs, a, i, bar, a[i]);
    }
    hide Apart, Tight, BarAhead;
    TightStays(instrs, lat, a, b, i, a[i]);
    ApartStays(instrs, lat, a, b, i, a[i]);
  }

  class BlockDelayScheduler {
    var bars: seq<nat>
    var currentCycle: nat
    var instrCycles: seq<nat>

    /** No barrier is active and no cycle has passed at the end of the block. */
    constructor (n: nat)
      ensures bars == seq(BARS, b => 0) && currentCycle == 0 && instrCycles == seq(n, i => 0)
    {
      bars, currentCycle, instrCycles := seq(BARS, b => 0), 0, seq(n, i => 0);
    }

    /** The instructions from `ip` on have their starts. */
    ghost predicate Scheduled(instrs: seq<Instr>, lat: Latency, ip: nat)
      reads this
    {
      && ip <= |instrs| == |instrCycles|
      && bars == BarCycles(instrs, instrCycles, ip)
      && currentCycle == (if ip < |instrs| then instrCycles[ip] else 0)
      && forall i :: ip <= i < |instrs| ==> StartOk(instrs, lat, instrCycles, i)
    }

    method BarStart(i: Instr, start0: nat) returns (start: nat)
      requires |bars| == BARS && (i.rdBar.Some? ==> i.rdBar.value < BARS) && (i.wrBar.Some? ==> i.wrBar.value < BARS)
      ensures start0 <= start && BarsMet(i, bars, start)
      ensures start == start0 || exists b :: 0 <= b < BARS && (i.rdBar == Some(b) || i.wrBar == Some(b)) && start == bars[b] + 2
    {
      start := start0;
      if i.rdBar.Some? { start := Larger(start, bars[i.rdBar.value] + 2); }
      if i.wrBar.Some? { start := Larger(start, bars[i.wrBar.value] + 2); }
    }

    /** The start of instruction `ip` and the uses before it. */
    method MinStart(instrs: seq<Instr>, lat: Latency, ip: nat, uses0: Uses) returns (start: nat, uses: Uses)
      requires WellFormed(instrs) && ip < |instrs| == |instrCycles| && |bars| == BARS && UsesOk(instrs, ip + 1, uses0)
      ensures currentCycle + instrs[ip].exec <= start && BarsMet(instrs[ip], bars, start)
      ensures Apart(instrs, lat, instrCycles, ip, start) && Reason(instrs, lat, instrCycles, bars, currentCycle, ip, start)
      ensures uses == UsesAfter(uses0, instrs[ip], ip)
    {
      start := BarStart(instrs[ip], currentCycle + instrs[ip].exec);
      ghost var start0 := start;
      assert Reason(instrs, lat, instrCycles, bars, currentCycle, ip, start);
      hide UsesOk, WellFormed, Reason, SetWrites, AddGuard, UsesAfter, ResultsMet, OperandsMet, Apart;
      var uses1;
      start, uses1 := StartForResults(instrs, lat, instrCycles, ip, uses0, start, bars, currentCycle);
      uses1 := AddGuard(uses1, instrs[ip].guard, ip);
      ghost var start1 := start;
      start, uses := StartForOperands(instrs, lat, instrCycles, ip, uses0, uses1, start, bars, currentCycle);
      ResultsMetLater(instrs, lat, instrCycles, ip, |instrs[ip].dsts|, start1, start);
      AllMet(instrs, lat, instrCycles, ip, start);
    }

    /** `process_instr`. */
    method ProcessInstr(instrs: seq<Instr>, lat: Latency, ip: nat, uses0: Uses) returns (uses: Uses)
      requires WellFormed(instrs) && ip < |instrs| && Scheduled(instrs, lat, ip + 1) && UsesOk(instrs, ip + 1, uses0)
      modifies this
      ensures Scheduled(instrs, lat, ip) && UsesOk(instrs, ip, uses)
    {
      var start;
      start, uses := MinStart(instrs, lat, ip, uses0);
      UsesNext(instrs, ip, uses0);
      ghost var cycles := instrCycles;
      var bars0 := bars;
      instrCycles := instrCycles[ip := start];
      Started(instrs, lat, cycles, instrCycles, ip, start, bars0);
      bars := seq(BARS, b requires 0 <= b < BARS => if b in instrs[ip].waits then start else bars0[b]);
      currentCycle := start;
      BarCyclesStay(instrs, cycles, instrCycles, ip + 1);
      assert bars == BarCycles(instrs, instrCycles, ip);
      hide StartOk, BarCycles, UsesOk;
    }

    lemma Started(instrs: seq<Instr>, lat: Latency, cycles: seq<nat>, cycles': seq<nat>, ip: nat, start: nat, bars0: seq<nat>)
      requires ip < |instrs| == |cycles| && cycles' == cycles[ip := start] && bars0 == BarCycles(instrs, cycles, ip + 1)
      requires forall i :: ip + 1 <= i < |instrs| ==> StartOk(instrs, lat, cycles, i)
      requires NextCycle(cycles, ip) + instrs[ip].exec <= start && BarsMet(instrs[ip], bars0, start)
      requires Apart(instrs, lat, cycles, ip, start) && Reason(instrs, lat, cycles, bars0, NextCycle(cycles, ip), ip, start)
      ensures forall i :: ip <= i < |instrs| ==> StartOk(instrs, lat, cycles', i)
    {
      BarCyclesStay(instrs, cycles, cycles', ip + 1);
      ReasonStays(instrs, lat, cycles, cycles', bars0, NextCycle(cycles, ip), ip, start);
      ApartStays(instrs, lat, cycles, cycles', ip, start);
      StartFromBars(instrs, lat, cycles', ip, start);
      assert StartOk(instrs, lat, cycles', ip) by { hide Apart, Reason, BarsMet, BarCycles, Tight, BarAhead; }
      hide StartOk;
      forall i: nat | ip + 1 <= i < |instrs|
        ensures StartOk(instrs, lat, cycles', i)
      {
        StartStays(instrs, lat, cycles, cycles', i);
      }
    }
  }

  /** The starts of all instructions of a block nothing comes after. */
  method ScheduleBlock(instrs: seq<Instr>, lat: Latency) returns (cycles: seq<nat>)
    requires WellFormed(instrs)
    ensures |cycles| == |instrs| && forall i :: 0 <= i < |instrs| ==> StartOk(instrs, lat, cycles, i)
  {
    var sched := new BlockDelayScheduler(|instrs|);
    var uses: Uses := map[];
    var ip: nat := |instrs|;
    assert UsesOk(instrs, ip, uses) by {
      forall r: Reg ensures UseOk(instrs, ip, uses, r) {}
    }
    assert sched.bars == BarCycles(instrs, sched.instrCycles, ip);
    hide UsesOk, StartOk, BarCycles, WellFormed;
    while ip > 0
      invariant ip <= |instrs| && sched.Scheduled(instrs, lat, ip) && UsesOk(instrs, ip, uses)
    {
      ip := ip - 1;
      uses := sched.ProcessInstr(instrs, lat, ip, uses);
    }
    cycles := sched.instrCycles;
  }

  // ---------------------------------------------------------------------------
  // Delays
  // ---------------------------------------------------------------------------

  function DelayOf(cycles: seq<nat>, i: nat): int
    requires i < |cycles|
  {
    cycles[i] - NextCycle(cycles, i)
  }

  /** The distance to the next start, at least one cycle; too long a distance does not
      fit the byte it is kept in. */
  method ToDelays(cycles: seq<nat>) returns (delays: Option<seq<nat>>)
    requires forall i :: 0 <= i < |cycles| ==> 0 <= DelayOf(cycles, i)
    ensures delays.Some? ==> |delays.value| == |cycles| && forall i :: 0 <= i < |cycles| ==>
              delays.value[i] == Larger(DelayOf(cycles, i), MIN_INSTR_DELAY) && delays.value[i] <= 255
    ensures delays.None? <==> exists i :: 0 <= i < |cycles| && DelayOf(cycles, i) > 255
  {
    var list: seq<nat> := [];
    for i := 0 to |cycles|
      invariant |list| == i
      invariant forall k :: 0 <= k < i ==>
                  DelayOf(cycles, k) <= 255 && list[k] == Larger(DelayOf(cycles, k), MIN_INSTR_DELAY)
    {
      var delay := DelayOf(cycles, i);
      if delay > 255 { return None; }
      list := list + [Larger(delay, MIN_INSTR_DELAY)];
    }
    return Some(list);
  }

  /** The cycles from the start of `i` to the start of `j`. */
  function Total(delays: seq<nat>, i: nat, j: nat): nat
    requires i <= j <= |delays|
  {
    if i == j then 0 else Total(delays, i, j - 1) + delays[j - 1]
  }

  lemma {:induction false} TotalCovers(cycles: seq<nat>, delays: seq<nat>, i: nat, j: nat)
    requires |delays| == |cycles| && i < j < |cycles| && forall k :: 0 <= k < |cycles| ==> DelayOf(cycles, k) <= delays[k]
    ensures cycles[i] - cycles[j] <= Total(delays, i, j)
  {
    assert DelayOf(cycles, j - 1) <= delays[j - 1];
    if i < j - 1 { TotalCovers(cycles, delays, i, j - 1); } else { assert Total(delays, i, i) == 0; }
  }

  // ---- delays longer than an instruction can carry

  /** An instruction of the block, or a `Nop`, and its delay. */
  datatype Emitted = Kept(ip: nat, delay: nat) | Blank(delay: nat)

  function Length(pieces: seq<Emitted>): nat {
    if pieces == [] then 0 else Length(pieces[..|pieces| - 1]) + pieces[|pieces| - 1].delay
  }

  ghost predicate Encodable(pieces: seq<Emitted>, maxDelay: nat) {
    forall k :: 0 <= k < |pieces| ==> MIN_INSTR_DELAY <= pieces[k].delay <= maxDelay
  }

  lemma LengthNext(pieces: seq<Emitted>, p: Emitted)
    ensures Length(pieces + [p]) == Length(pieces) + p.delay
  {
    assert (pieces + [p])[..|pieces|] == pieces;
  }

  lemma LengthOne(p: Emitted)
    ensures Length([p]) == p.delay
  {
    assert [p][..0] == [];
  }

  /** The code for one instruction: itself first (a `SrcBar` may turn into a `Nop`),
      then only `Nop`s, each within the maximum, and all of its delay in all; one that
      takes more than a cycle to execute has two cycles more. */
  ghost predicate Pieces(instr: Instr, ip: nat, delay: nat, maxDelay: nat, pieces: seq<Emitted>) {
    && Encodable(pieces, maxDelay)
    && Length(pieces) == delay + (if delay <= maxDelay && !instr.isSrcBar && instr.exec > 1 then 2 else 0)
    && pieces != [] && (pieces[0].Blank? <==> instr.isSrcBar && delay <= maxDelay) && (pieces[0].Kept? ==> pieces[0].ip == ip)
    && forall k :: 1 <= k < |pieces| ==> pieces[k].Blank?
  }

  /** What one instruction becomes: what its delay exceeds the maximum by goes to
      `Nop`s behind it, and one that takes more than a cycle to execute gets a `Nop` of
      two cycles. */
  method SplitDelay(instr: Instr, ip: nat, delay: nat, maxDelay: nat) returns (pieces: seq<Emitted>)
    requires maxDelay >= 2 && delay >= MIN_INSTR_DELAY
    ensures Pieces(instr, ip, delay, maxDelay, pieces)
  {
    LengthOne(Kept(ip, delay));
    if delay > maxDelay {
      var left: nat := delay - maxDelay;
      pieces := [Kept(ip, maxDelay)];
      LengthOne(Kept(ip, maxDelay));
      while left > 0
        invariant Encodable(pieces, maxDelay) && Length(pieces) + left == delay
        invariant pieces != [] && pieces[0] == Kept(ip, maxDelay) && forall k :: 1 <= k < |pieces| ==> pieces[k].Blank?
      {
        var d := if left <= maxDelay then left else maxDelay;
        LengthNext(pieces, Blank(d));
        pieces := pieces + [Blank(d)];
        left := left - d;
      }
    } else if instr.isSrcBar {
      pieces := [Blank(delay)];
      LengthOne(Blank(delay));
    } else if instr.exec > 1 {
      pieces := [Kept(ip, delay)] + [Blank(2)];
      LengthNext([Kept(ip, delay)], Blank(2));
    } else {
      pieces := [Kept(ip, delay)];
    }
  }

  /** The cycles the code emitted for instructions `i` up to `j` takes. */
  function EmittedLength(code: seq<seq<Emitted>>, i: nat, j: nat): nat
    requires i <= j <= |code|
  {
    if i == j then 0 else EmittedLength(code, i, j - 1) + Length(code[j - 1])
  }

  lemma {:induction false} EmittedCovers(code: seq<seq<Emitted>>, delays: seq<nat>, i: nat, j: nat)
    requires i <= j <= |code| == |delays| && forall k :: 0 <= k < |code| ==> delays[k] <= Length(code[k])
    ensures Total(delays, i, j) <= EmittedLength(code, i, j)
  {
    if i < j { EmittedCovers(code, delays, i, j - 1); }
  }

  /** In the emitted code of a block nothing comes after, every two instructions with a
      hazard between them are at least the hazard's latency apart. */
  ghost predicate Spaced(instrs: seq<Instr>, lat: Latency, code: seq<seq<Emitted>>)
    requires |code| == |instrs|
  {
    forall i: nat, a, o ::
      i < |instrs| && (OnResult(instrs, i, a, o) || OnOperand(instrs, i, a, o)) && i < o.ip < |instrs| ==>
        lat(i, a.slot, o) <= EmittedLength(code, i, o.ip)
  }

  /** Between a signal and every later wait on its barrier there are two cycles. */
  ghost predicate BarriersSpaced(instrs: seq<Instr>, code: seq<seq<Emitted>>)
    requires |code| == |instrs|
  {
    forall i: nat, j: nat, b: nat {:trigger Signals(instrs[i], b), instrs[j].waits} ::
      i < j < |instrs| && Signals(instrs[i], b) && b in instrs[j].waits ==> 2 <= EmittedLength(code, i, j)
  }

  lemma {:induction false} Descending(cycles: seq<nat>, i: nat, j: nat)
    requires i <= j < |cycles| && forall k :: 0 <= k < |cycles| ==> 0 <= DelayOf(cycles, k)
    ensures cycles[j] <= cycles[i]
    decreases j - i
  {
    if i < j {
      assert 0 <= DelayOf(cycles, i);
      Descending(cycles, i + 1, j);
    }
  }

  lemma BarriersApart(instrs: seq<Instr>, lat: Latency, cycles: seq<nat>, delays: seq<nat>, code: seq<seq<Emitted>>)
    requires |cycles| == |instrs| == |delays| == |code| && forall i :: 0 <= i < |instrs| ==> StartOk(instrs, lat, cycles, i)
    requires forall i :: 0 <= i < |cycles| ==> 0 <= DelayOf(cycles, i) <= delays[i]
    requires forall i :: 0 <= i < |code| ==> delays[i] <= Length(code[i])
    ensures BarriersSpaced(instrs, code)
  {
    forall i: nat, j: nat, b: nat | i < j < |instrs| && Signals(instrs[i], b) && b in instrs[j].waits
      ensures 2 <= EmittedLength(code, i, j)
    {
      assert StartOk(instrs, lat, cycles, i);
      assert BarAhead(instrs, cycles, i, b, cycles[i]);
      hide StartOk, Signals, NoWait, DelayOf;
      var k := FirstWait(instrs, i + 1, j, b);
      Descending(cycles, k, j);
      TotalCovers(cycles, delays, i, j);
      EmittedCovers(code, delays, i, j);
    }
  }

  /** `calc_delays` on such a block; it fails only when a delay does not fit a byte. */
  method CalcDelays(instrs: seq<Instr>, lat: Latency, maxDelay: nat) returns (code: Option<seq<seq<Emitted>>>, ghost cycles: seq<nat>)
    requires WellFormed(instrs) && maxDelay >= 2
    ensures |cycles| == |instrs| && forall i :: 0 <= i < |instrs| ==> StartOk(instrs, lat, cycles, i)
    ensures forall i :: 0 <= i < |cycles| ==> 0 <= DelayOf(cycles, i)
    ensures code.None? <==> exists i :: 0 <= i < |cycles| && DelayOf(cycles, i) > 255
    ensures code.Some? ==> |code.value| == |instrs| && Spaced(instrs, lat, code.value) && BarriersSpaced(instrs, code.value)
    ensures code.Some? ==> forall i :: 0 <= i < |instrs| ==>
              Pieces(instrs[i], i, Larger(DelayOf(cycles, i), MIN_INSTR_DELAY), maxDelay, code.value[i])
  {
    var starts := ScheduleBlock(instrs, lat);
    cycles := starts;
    StartsDescend(instrs, lat, cycles);
    hide StartOk, WellFormed;
    var delays := ToDelays(starts);
    if delays.None? { return None, cycles; }
    var list: seq<seq<Emitted>> := [];
    for i := 0 to |instrs|
      invariant |list| == i
      invariant forall k :: 0 <= k < i ==> Pieces(instrs[k], k, delays.value[k], maxDelay, list[k]) && delays.value[k] <= Length(list[k])
    {
      var pieces := SplitDelay(instrs[i], i, delays.value[i], maxDelay);
      list := list + [pieces];
    }
    SpacedOut(instrs, lat, cycles, delays.value, list);
    BarriersApart(instrs, lat, cycles, delays.value, list);
    return Some(list), cycles;
  }

  lemma StartsDescend(instrs: seq<Instr>, lat: Latency, cycles: seq<nat>)
    requires |cycles| == |instrs| && forall i :: 0 <= i < |instrs| ==> StartOk(instrs, lat, cycles, i)
    ensures forall i :: 0 <= i < |cycles| ==> 0 <= DelayOf(cycles, i)
  {
    forall i | 0 <= i < |cycles|
      ensures 0 <= DelayOf(cycles, i)
    {
      assert StartOk(instrs, lat, cycles, i);
    }
  }

  lemma SpacedOut(instrs: seq<Instr>, lat: Latency, cycles: seq<nat>, delays: seq<nat>, code: seq<seq<Emitted>>)
    requires |cycles| == |instrs| == |delays| == |code| && forall i :: 0 <= i < |instrs| ==> StartOk(instrs, lat, cycles, i)
    requires forall i :: 0 <= i < |cycles| ==> DelayOf(cycles, i) <= delays[i]
    requires forall i :: 0 <= i < |code| ==> delays[i] <= Length(code[i])
    ensures Spaced(instrs, lat, code)
  {
    forall i: nat, a, o | i < |instrs| && (OnResult(instrs, i, a, o) || OnOperand(instrs, i, a, o)) && i < o.ip < |instrs|
      ensures lat(i, a.slot, o) <= EmittedLength(code, i, o.ip)
    {
      assert StartOk(instrs, lat, cycles, i);
      assert Apart(instrs, lat, cycles, i, cycles[i]);
      hide StartOk, OnResult, OnOperand;
      TotalCovers(cycles, delays, i, o.ip);
      EmittedCovers(code, delays, i, o.ip);
    }
  }
}
