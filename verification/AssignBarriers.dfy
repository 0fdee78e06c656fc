/** `assign_barriers` of `calc_instr_deps.rs`: scoreboard barriers for the results
    and operands of variable-latency instructions, over the instruction stream in
    program order. */
module AssignBarriers {
  import opened Wrappers

  type Reg = nat

  /** The tracked registers an instruction's guard, sources and destinations name,
      and whether its latency is variable. */
  datatype Instr = Instr(isBranch: bool, preds: seq<Reg>, srcs: seq<Reg>, dsts: seq<Reg>, scoreboard: bool)

  /** No instruction writes one register twice, and branches need no scoreboard. */
  predicate WellFormed(instrs: seq<Instr>) {
    forall k :: 0 <= k < |instrs| ==>
      && (forall a, b :: 0 <= a < b < |instrs[k].dsts| ==> instrs[k].dsts[a] != instrs[k].dsts[b])
      && (instrs[k].isBranch ==> !instrs[k].scoreboard)
  }

  // ---------------------------------------------------------------------------
  // Uses of one register
  // ---------------------------------------------------------------------------

  datatype RegUse = Unused | Write(dep: nat) | Reads(deps: seq<nat>) {
    function Deps(): seq<nat> {
      match this
      case Unused => []
      case Write(d) => [d]
      case Reads(ds) => ds
    }
  }

  type Uses = map<Reg, RegUse>

  function Use(uses: Uses, r: Reg): RegUse {
    if r in uses then uses[r] else Unused
  }

  predicate InUse(uses: Uses, r: Reg, d: nat) {
    match Use(uses, r)
    case Unused => false
    case Write(w) => d == w
    case Reads(ds) => d in ds
  }

  /** Each returns the new use, and the dependencies the access has to wait for. */
  function ClearWrite(u: RegUse): (RegUse, seq<nat>) {
    if u.Write? then (Unused, u.Deps()) else (u, [])
  }

  function Clear(u: RegUse): (RegUse, seq<nat>) {
    (Unused, u.Deps())
  }

  function AddRead(u: RegUse, dep: nat): (RegUse, seq<nat>) {
    match u
    case Unused => (Reads([dep]), [])
    case Write(d) => (Reads([dep]), [d])
    case Reads(ds) => (Reads(ds + [dep]), [])
  }

  function SetWrite(u: RegUse, dep: nat): (RegUse, seq<nat>) {
    (Write(dep), u.Deps())
  }

  // ---------------------------------------------------------------------------
  // The dependency graph
  // ---------------------------------------------------------------------------

  datatype DepNode = DepNode(readDep: Option<nat>, firstWait: Option<nat>)

  /** Which part of which instruction a dependency stands for. */
  datatype Token = Token(ip: nat, write: bool)

  class DepGraph {
    var deps: seq<DepNode>
    var instrDeps: map<nat, (nat, nat)>
    var instrWaits: map<nat, seq<nat>>
    var active: set<nat>
    ghost var owner: seq<Token>

    constructor ()
      ensures deps == [] && instrDeps == map[] && instrWaits == map[] && active == {} && owner == []
    {
      deps, instrDeps, instrWaits, active, owner := [], map[], map[], {}, [];
    }

    method AddInstr(ip: nat) returns (rd: nat, wr: nat)
      modifies this
      ensures rd == old(|deps|) && wr == rd + 1
      ensures deps == old(deps) + [DepNode(None, None), DepNode(Some(rd), None)]
      ensures owner == old(owner) + [Token(ip, false), Token(ip, true)]
      ensures instrDeps == old(instrDeps)[ip := (rd, wr)]
      ensures active == old(active) && instrWaits == old(instrWaits)
    {
      rd := |deps|;
      deps := deps + [DepNode(None, None)];
      wr := |deps|;
      deps := deps + [DepNode(Some(rd), None)];
      owner := owner + [Token(ip, false), Token(ip, true)];
      instrDeps := instrDeps[ip := (rd, wr)];
    }

    method AddSignal(dep: nat)
      modifies this`active
      ensures active == old(active) + {dep}
    {
      active := active + {dep};
    }

    predicate DepIsWaitedAfter(dep: nat, ip: nat)
      requires dep < |deps|
      reads this
    {
      deps[dep].firstWait.Some? && deps[dep].firstWait.value > ip
    }

    function GetInstrWaits(ip: nat): seq<nat>
      reads this
    {
      if ip in instrWaits then instrWaits[ip] else []
    }

    /** Drop the waits that are satisfied already, record the rest. */
    method AddWaits(ip: nat, waits: seq<nat>)
      requires InRange(waits, |deps|)
      requires forall d :: d in active && d < |deps| ==> deps[d].firstWait.None?
      modifies this
      ensures Recorded(old(Snapshot(this)), old(instrWaits), Snapshot(this), instrWaits, ip, waits)
    {
      for i := 0 to |waits|
        invariant deps == old(deps) && owner == old(owner) && instrDeps == old(instrDeps) && instrWaits == old(instrWaits)
        invariant active == old(active) - ReadDeps(deps, waits[..i])
      {
        var rd := deps[waits[i]].readDep;
        ReadDepsNext(deps, waits, i);
        if rd.Some? { active := active - {rd.value}; }
      }
      assert waits[..|waits|] == waits;
      assert old(deps) == deps;
      ghost var live := active;
      var kept := [];
      for i := 0 to |waits|
        invariant |deps| == old(|deps|) && owner == old(owner) && instrDeps == old(instrDeps) && instrWaits == old(instrWaits)
        invariant active == live - (set d | d in waits[..i])
        invariant forall d :: 0 <= d < |deps| ==>
                    && deps[d].readDep == old(deps)[d].readDep
                    && deps[d].firstWait == if d in waits[..i] && d in live then Some(ip) else old(deps)[d].firstWait
        invariant forall d :: d in kept <==> d in waits[..i] && d in live
      {
        var dep := waits[i];
        assert waits[..i + 1] == waits[..i] + [dep];
        if deps[dep].firstWait.None? && dep in active {
          deps := deps[dep := deps[dep].(firstWait := Some(ip))];
          active := active - {dep};
          kept := kept + [dep];
        }
      }
      instrWaits := instrWaits[ip := kept];
    }

    /** A branch waits on everything outstanding. */
    method AddBarrier(ip: nat) returns (ghost waits: seq<nat>)
      requires forall d :: d in active ==> d < |deps| && deps[d].firstWait.None?
      modifies this
      ensures active == {} && forall d :: d in waits <==> d in old(active)
      ensures Recorded(old(Snapshot(this)), old(instrWaits), Snapshot(this), instrWaits, ip, waits)
    {
      var list := Listed(active);
      forall i: nat | i < |list|
        ensures list[i] < |deps|
      {
        assert list[i] in list;
      }
      AddWaits(ip, list);
      waits := list;
    }
  }

  /** The members of a set in some order. */
  method Listed(s: set<nat>) returns (list: seq<nat>)
    ensures forall d :: d in list <==> d in s
  {
    list := [];
    var left := s;
    while left != {}
      invariant left <= s && forall d :: d in list <==> d in s - left
    {
      var d :| d in left;
      left := left - {d};
      list := list + [d];
    }
  }

  predicate InRange(waits: seq<nat>, n: nat) {
    forall i :: 0 <= i < |waits| ==> waits[i] < n
  }

  lemma ReadDepsNext(deps: seq<DepNode>, waits: seq<nat>, i: nat)
    requires InRange(waits, |deps|) && i < |waits|
    ensures ReadDeps(deps, waits[..i + 1]) ==
            ReadDeps(deps, waits[..i]) + (if deps[waits[i]].readDep.Some? then {deps[waits[i]].readDep.value} else {})
  {
    var a, b := ReadDeps(deps, waits[..i + 1]), ReadDeps(deps, waits[..i]);
    forall d | d in a
      ensures d in b || Some(d) == deps[waits[i]].readDep
    {
      var j :| 0 <= j < i + 1 && deps[waits[..i + 1][j]].readDep == Some(d);
      if j < i { assert waits[..i][j] == waits[j]; }
    }
    forall d | d in b
      ensures d in a
    {
      var j :| 0 <= j < i && deps[waits[..i][j]].readDep == Some(d);
      assert waits[..i + 1][j] == waits[j];
    }
    if deps[waits[i]].readDep.Some? {
      assert waits[..i + 1][i] == waits[i];
    }
  }

  ghost function ReadDeps(deps: seq<DepNode>, waits: seq<nat>): set<nat>
    requires InRange(waits, |deps|)
  {
    set i | 0 <= i < |waits| && deps[waits[i]].readDep.Some? :: deps[waits[i]].readDep.value
  }

  // ---------------------------------------------------------------------------
  // What the first pass knows
  // ---------------------------------------------------------------------------

  /** The graph as a value. */
  datatype Graph = Graph(deps: seq<DepNode>, owner: seq<Token>, active: set<nat>, instrDeps: map<nat, (nat, nat)>)

  ghost function Snapshot(g: DepGraph): Graph
    reads g
  {
    Graph(g.deps, g.owner, g.active, g.instrDeps)
  }

  ghost predicate NumberedInstr(g: Graph, instrs: seq<Instr>, i: nat) {
    && i < |instrs| && instrs[i].scoreboard && i in g.instrDeps
    && var (rd, wr) := g.instrDeps[i];
    && wr == rd + 1 && wr < |g.deps| == |g.owner|
    && g.owner[rd] == Token(i, false) && g.owner[wr] == Token(i, true)
    && g.deps[rd].readDep == None && g.deps[wr].readDep == Some(rd)
  }

  ghost predicate NumberedDep(g: Graph, d: nat) {
    && d < |g.owner| && g.owner[d].ip in g.instrDeps
    && d == if g.owner[d].write then g.instrDeps[g.owner[d].ip].1 else g.instrDeps[g.owner[d].ip].0
  }

  /** The instructions before `m` that need a scoreboard own two dependencies each,
      numbered in program order; the write names the read. */
  ghost predicate Numbered(g: Graph, instrs: seq<Instr>, m: nat)
    requires m <= |instrs|
  {
    && |g.owner| == |g.deps|
    && (forall i :: 0 <= i < m && instrs[i].scoreboard ==> i in g.instrDeps)
    && (forall i :: i in g.instrDeps ==> i < m && NumberedInstr(g, instrs, i))
    && (forall d: nat :: d < |g.deps| ==> NumberedDep(g, d))
    && (forall d, e :: 0 <= d < e < |g.deps| ==> g.owner[d].ip <= g.owner[e].ip)
  }

  /** Waited on, or about to be. */
  ghost predicate Waits(g: Graph, waits: seq<nat>, d: nat)
    requires d < |g.deps|
  {
    g.deps[d].firstWait.Some? || d in waits
  }

  /** A wait on a write is a wait on the read, too. */
  ghost predicate Resolved(g: Graph, waits: seq<nat>, d: nat)
    requires d < |g.deps| == |g.owner|
  {
    Waits(g, waits, d) || (!g.owner[d].write && d + 1 < |g.deps| && Waits(g, waits, d + 1))
  }

  /** The dependency has been signaled: it is active, or needs no wait any more. */
  ghost predicate Signaled(g: Graph, d: nat) {
    d < |g.deps| == |g.owner| && (d in g.active || Resolved(g, [], d))
  }

  /** First waits come after the instruction waited on and before `n`; what is
      active has not been waited on. */
  ghost predicate Timely(g: Graph, n: nat)
    requires |g.owner| == |g.deps|
  {
    && (forall d :: 0 <= d < |g.deps| && g.deps[d].firstWait.Some? ==> g.owner[d].ip < g.deps[d].firstWait.value < n)
    && (forall d :: d in g.active ==> d < |g.deps| && g.deps[d].firstWait.None?)
  }

  ghost predicate UsesSignaled(g: Graph, uses: Uses) {
    forall r, d: nat :: InUse(uses, r, d) ==> Signaled(g, d)
  }

  /** What instruction `n` is about to wait on belongs to earlier instructions. */
  ghost predicate WaitsSignaled(g: Graph, waits: seq<nat>, n: nat) {
    forall d :: d in waits ==> Signaled(g, d) && g.owner[d].ip < n
  }

  /** Every access of an instruction before `n` is in the tracker, or resolved. */
  ghost predicate Tracks(g: Graph, instrs: seq<Instr>, m: nat, n: nat, uses: Uses, waits: seq<nat>)
    requires n <= m <= |instrs| && Numbered(g, instrs, m)
  {
    && (forall i: nat, r :: i < n && instrs[i].scoreboard && r in instrs[i].dsts ==>
          Use(uses, r) == Write(g.instrDeps[i].1) || Resolved(g, waits, g.instrDeps[i].1))
    && (forall i: nat, r :: i < n && instrs[i].scoreboard && r in instrs[i].srcs ==>
          || Use(uses, r) == Write(g.instrDeps[i].1)
          || (Use(uses, r).Reads? && g.instrDeps[i].0 in Use(uses, r).deps)
          || Resolved(g, waits, g.instrDeps[i].0))
  }

  /** One access: what the new use of `r` no longer remembers is waited on. */
  lemma AccessKeeps(g: Graph, instrs: seq<Instr>, m: nat, n: nat, uses: Uses, waits: seq<nat>, r: Reg, u: RegUse, waits': seq<nat>)
    requires n <= m <= |instrs| && Numbered(g, instrs, m) && Tracks(g, instrs, m, n, uses, waits)
    requires forall d :: d in waits ==> d in waits'
    requires Use(uses, r).Write? ==> u == Use(uses, r) || Use(uses, r).dep in waits' || Settled(g.owner, uses, n, r)
    requires Use(uses, r).Reads? ==> forall d: nat :: d in Use(uses, r).deps ==>
               d in waits' || (u.Reads? && d in u.deps) || (d < |g.owner| && n <= g.owner[d].ip)
    ensures Tracks(g, instrs, m, n, uses[r := u], waits')
  {
    var uses' := uses[r := u];
    forall i: nat, s | i < n && instrs[i].scoreboard && s in instrs[i].dsts
      ensures Use(uses', s) == Write(g.instrDeps[i].1) || Resolved(g, waits', g.instrDeps[i].1)
    {
      assert Use(uses, s) == Write(g.instrDeps[i].1) || Resolved(g, waits, g.instrDeps[i].1);
    }
    forall i: nat, s | i < n && instrs[i].scoreboard && s in instrs[i].srcs
      ensures || Use(uses', s) == Write(g.instrDeps[i].1)
              || (Use(uses', s).Reads? && g.instrDeps[i].0 in Use(uses', s).deps)
              || Resolved(g, waits', g.instrDeps[i].0)
    {
      assert || Use(uses, s) == Write(g.instrDeps[i].1)
             || (Use(uses, s).Reads? && g.instrDeps[i].0 in Use(uses, s).deps)
             || Resolved(g, waits, g.instrDeps[i].0);
    }
  }

  function Extended(g: Graph, n: nat): Graph {
    var rd := |g.deps|;
    Graph(g.deps + [DepNode(None, None), DepNode(Some(rd), None)],
          g.owner + [Token(n, false), Token(n, true)], g.active, g.instrDeps[n := (rd, rd + 1)])
  }

  lemma AddInstrSorts(g: Graph, instrs: seq<Instr>, n: nat, d: nat, e: nat)
    requires n < |instrs| && Numbered(g, instrs, n) && d < e < |g.deps| + 2
    ensures Extended(g, n).owner[d].ip <= Extended(g, n).owner[e].ip
  {
    if d < |g.deps| { assert NumberedDep(g, d); }
  }

  lemma AddInstrNumbers(g: Graph, instrs: seq<Instr>, n: nat)
    requires n < |instrs| && instrs[n].scoreboard && Numbered(g, instrs, n)
    ensures Numbered(Extended(g, n), instrs, n + 1)
  {
    var g' := Extended(g, n);
    forall d, e | 0 <= d < e < |g'.deps|
      ensures g'.owner[d].ip <= g'.owner[e].ip
    {
      hide Numbered;
      AddInstrSorts(g, instrs, n, d, e);
    }
    forall i | i in g'.instrDeps
      ensures i < n + 1 && NumberedInstr(g', instrs, i)
    {
      if i != n { assert NumberedInstr(g, instrs, i); }
    }
    forall d: nat | d < |g'.deps|
      ensures NumberedDep(g', d)
    {
      if d < |g.deps| { assert NumberedDep(g, d) && NumberedInstr(g, instrs, g.owner[d].ip); }
    }
  }

  lemma ExtendedResolves(g: Graph, n: nat, waits: seq<nat>, d: nat)
    requires d < |g.deps| == |g.owner|
    ensures Resolved(g, waits, d) ==> Resolved(Extended(g, n), waits, d)
  {
  }

  /** The two dependencies of a new instruction leave everything before it alone. */
  lemma AddInstrKeeps(g: Graph, instrs: seq<Instr>, n: nat, uses: Uses, waits: seq<nat>)
    requires n < |instrs| && instrs[n].scoreboard && Numbered(g, instrs, n) && Numbered(Extended(g, n), instrs, n + 1)
    requires Tracks(g, instrs, n, n, uses, waits)
    ensures Tracks(Extended(g, n), instrs, n + 1, n, uses, waits)
  {
    var g' := Extended(g, n);
    forall d: nat | d < |g.deps|
      ensures Resolved(g, waits, d) ==> Resolved(g', waits, d)
    {
      ExtendedResolves(g, n, waits, d);
    }
    forall i: nat, s | i < n && instrs[i].scoreboard && s in instrs[i].dsts
      ensures Use(uses, s) == Write(g'.instrDeps[i].1) || Resolved(g', waits, g'.instrDeps[i].1)
    {
      assert g'.instrDeps[i] == g.instrDeps[i];
    }
    forall i: nat, s | i < n && instrs[i].scoreboard && s in instrs[i].srcs
      ensures || Use(uses, s) == Write(g'.instrDeps[i].1)
              || (Use(uses, s).Reads? && g'.instrDeps[i].0 in Use(uses, s).deps)
              || Resolved(g', waits, g'.instrDeps[i].0)
    {
      assert g'.instrDeps[i] == g.instrDeps[i];
    }
  }

  lemma AddInstrSignals(g: Graph, n: nat, uses: Uses, waits: seq<nat>)
    requires |g.owner| == |g.deps|
    requires Timely(g, n) && UsesSignaled(g, uses) && WaitsSignaled(g, waits, n)
    ensures Timely(Extended(g, n), n) && UsesSignaled(Extended(g, n), uses) && WaitsSignaled(Extended(g, n), waits, n)
  {
    forall r, d: nat | InUse(uses, r, d)
      ensures Signaled(Extended(g, n), d)
    {
      assert Signaled(g, d);
      ExtendedResolves(g, n, [], d);
    }
    forall d | d in waits
      ensures Signaled(Extended(g, n), d)
    {
      assert Signaled(g, d);
      ExtendedResolves(g, n, [], d);
    }
  }

  /** `AddWaits`, seen from outside. */
  ghost predicate AfterWaits(g: Graph, g': Graph, n: nat, waits: seq<nat>)
    requires InRange(waits, |g.deps|)
  {
    && |g'.deps| == |g.deps| && g'.owner == g.owner && g'.instrDeps == g.instrDeps
    && var live := g.active - ReadDeps(g.deps, waits);
    && g'.active == live - (set d | d in waits)
    && forall d :: 0 <= d < |g.deps| ==>
         && g'.deps[d].readDep == g.deps[d].readDep
         && g'.deps[d].firstWait == if d in waits && d in live then Some(n) else g.deps[d].firstWait
  }

  /** What recording the waits of instruction `n` does: the waits that are live get
      their first wait, and what they wait on stops being active. */
  ghost predicate Recorded(g: Graph, waitsOf: map<nat, seq<nat>>, g': Graph, waitsOf': map<nat, seq<nat>>, n: nat, waits: seq<nat>) {
    && InRange(waits, |g.deps|) && AfterWaits(g, g', n, waits)
    && n in waitsOf' && waitsOf' == waitsOf[n := waitsOf'[n]]
    && forall d :: d in waitsOf'[n] <==> d in waits && d in g.active - ReadDeps(g.deps, waits)
  }

  /** A read dependency is dropped only when the instruction's write is waited on. */
  lemma DroppedReads(g: Graph, instrs: seq<Instr>, m: nat, waits: seq<nat>, d: nat)
    requires m <= |instrs| && Numbered(g, instrs, m)
    requires InRange(waits, |g.deps|) && d in ReadDeps(g.deps, waits)
    ensures d + 1 < |g.deps| && d + 1 in waits && !g.owner[d].write && g.owner[d + 1].write
  {
    var i :| 0 <= i < |waits| && g.deps[waits[i]].readDep == Some(d);
    var w := waits[i];
    assert NumberedDep(g, w) && NumberedInstr(g, instrs, g.owner[w].ip);
  }

  lemma WaitResolves(g: Graph, g': Graph, instrs: seq<Instr>, m: nat, n: nat, waits: seq<nat>, d: nat)
    requires m <= |instrs| && Numbered(g, instrs, m)
    requires InRange(waits, |g.deps|) && WaitsSignaled(g, waits, n) && AfterWaits(g, g', n, waits)
    requires d < |g.deps| && (d in waits || d in g.active - g'.active)
    ensures Resolved(g', [], d)
  {
    hide Numbered;
    if d in g.active && d in ReadDeps(g.deps, waits) {
      DroppedReads(g, instrs, m, waits, d);
      var w := d + 1;
      assert Signaled(g, w);
      if w in ReadDeps(g.deps, waits) { DroppedReads(g, instrs, m, waits, w); }
      assert g'.deps[w].firstWait.Some?;
    } else if d in waits {
      assert Signaled(g, d);
    }
  }

  /** What was resolved or about to be is resolved afterwards. */
  lemma AddWaitsResolves(g: Graph, g': Graph, instrs: seq<Instr>, m: nat, n: nat, waits: seq<nat>, d: nat)
    requires m <= |instrs| && Numbered(g, instrs, m)
    requires InRange(waits, |g.deps|) && WaitsSignaled(g, waits, n) && AfterWaits(g, g', n, waits)
    requires d < |g.deps| && Resolved(g, waits, d)
    ensures Resolved(g', [], d)
  {
    if d in waits {
      WaitResolves(g, g', instrs, m, n, waits, d);
    } else if !Waits(g, waits, d) && d + 1 in waits {
      WaitResolves(g, g', instrs, m, n, waits, d + 1);
      assert NumberedDep(g, d) && NumberedInstr(g, instrs, g.owner[d].ip);
      assert g'.deps[d + 1].firstWait.Some?;
    }
  }

  lemma AddWaitsNumbers(g: Graph, g': Graph, instrs: seq<Instr>, m: nat, n: nat, waits: seq<nat>)
    requires m <= |instrs| && Numbered(g, instrs, m)
    requires InRange(waits, |g.deps|) && AfterWaits(g, g', n, waits)
    ensures Numbered(g', instrs, m)
  {
    forall i | i in g'.instrDeps
      ensures i < m && NumberedInstr(g', instrs, i)
    {
      assert NumberedInstr(g, instrs, i);
      var (rd, wr) := g.instrDeps[i];
      assert g'.deps[rd].readDep == g.deps[rd].readDep && g'.deps[wr].readDep == g.deps[wr].readDep;
    }
    forall d: nat | d < |g'.deps|
      ensures NumberedDep(g', d)
    {
      assert NumberedDep(g, d);
    }
  }

  lemma AddWaitsSignals(g: Graph, g': Graph, instrs: seq<Instr>, m: nat, n: nat, uses: Uses, waits: seq<nat>)
    requires m <= |instrs| && Numbered(g, instrs, m)
    requires InRange(waits, |g.deps|) && WaitsSignaled(g, waits, n) && AfterWaits(g, g', n, waits)
    requires Timely(g, n) && UsesSignaled(g, uses)
    ensures Timely(g', n + 1) && UsesSignaled(g', uses)
  {
    forall r, d: nat | InUse(uses, r, d)
      ensures Signaled(g', d)
    {
      assert Signaled(g, d);
      if d in g.active - g'.active {
        WaitResolves(g, g', instrs, m, n, waits, d);
      } else if d !in g.active {
        AddWaitsResolves(g, g', instrs, m, n, waits, d);
      }
    }
  }

  lemma AddWaitsKeeps(g: Graph, g': Graph, instrs: seq<Instr>, m: nat, n: nat, n': nat, uses: Uses, waits: seq<nat>)
    requires n' <= m <= |instrs| && Numbered(g, instrs, m) && Numbered(g', instrs, m) && Tracks(g, instrs, m, n', uses, waits)
    requires InRange(waits, |g.deps|) && WaitsSignaled(g, waits, n) && AfterWaits(g, g', n, waits)
    ensures Tracks(g', instrs, m, n', uses, [])
  {
    forall i: nat, s | i < n' && instrs[i].scoreboard && s in instrs[i].dsts
      ensures Use(uses, s) == Write(g'.instrDeps[i].1) || Resolved(g', [], g'.instrDeps[i].1)
    {
      var d := g.instrDeps[i].1;
      if Use(uses, s) != Write(d) { AddWaitsResolves(g, g', instrs, m, n, waits, d); }
    }
    forall i: nat, s | i < n' && instrs[i].scoreboard && s in instrs[i].srcs
      ensures || Use(uses, s) == Write(g'.instrDeps[i].1)
              || (Use(uses, s).Reads? && g'.instrDeps[i].0 in Use(uses, s).deps)
              || Resolved(g', [], g'.instrDeps[i].0)
    {
      var d := g.instrDeps[i].0;
      if Resolved(g, waits, d) { AddWaitsResolves(g, g', instrs, m, n, waits, d); }
    }
  }

  /** `b` reads or overwrites what `a` writes. */
  ghost predicate OnResult(a: Instr, b: Instr) {
    exists r :: r in a.dsts && (r in b.preds || r in b.srcs || r in b.dsts)
  }

  /** `b` overwrites what `a` reads. */
  ghost predicate OnOperand(a: Instr, b: Instr) {
    exists r :: r in a.srcs && r in b.dsts
  }

  // ---- no wait without a hazard

  /** Instruction `n` has to follow the access the dependency stands for. */
  ghost predicate Needed(owner: seq<Token>, instrs: seq<Instr>, n: nat, d: nat) {
    && n < |instrs| && d < |owner| && owner[d].ip < |instrs|
    && if owner[d].write then OnResult(instrs[owner[d].ip], instrs[n]) else OnOperand(instrs[owner[d].ip], instrs[n])
  }

  /** The tracker remembers dependency `d` of register `r` for an access to `r`. */
  ghost predicate Accesses(owner: seq<Token>, instrs: seq<Instr>, uses: Uses, r: Reg, d: nat) {
    && d < |owner| && owner[d].ip < |instrs| && owner[d].write == Use(uses, r).Write?
    && r in (if owner[d].write then instrs[owner[d].ip].dsts else instrs[owner[d].ip].srcs)
  }

  ghost predicate Exact(owner: seq<Token>, instrs: seq<Instr>, n: nat, uses: Uses, waits: seq<nat>) {
    && (forall r, d: nat :: InUse(uses, r, d) ==> Accesses(owner, instrs, uses, r, d))
    && forall d :: d in waits ==> Needed(owner, instrs, n, d)
  }

  lemma ExactNext(owner: seq<Token>, instrs: seq<Instr>, n: nat, uses: Uses, waits: seq<nat>, r: Reg, u: RegUse, uses': Uses, more: seq<nat>)
    requires Exact(owner, instrs, n, uses, waits) && uses' == uses[r := u]
    requires forall d: nat :: InUse(uses', r, d) ==> Accesses(owner, instrs, uses', r, d)
    requires forall d: nat :: d in more ==> InUse(uses, r, d) && Needed(owner, instrs, n, d)
    ensures Exact(owner, instrs, n, uses', waits + more)
  {
    forall s, d: nat | InUse(uses', s, d)
      ensures Accesses(owner, instrs, uses', s, d)
    {
      if s != r { assert InUse(uses, s, d) && Accesses(owner, instrs, uses, s, d); }
    }
  }

  lemma NeededBy(owner: seq<Token>, instrs: seq<Instr>, n: nat, uses: Uses, r: Reg, d: nat)
    requires n < |instrs| && InUse(uses, r, d) && Accesses(owner, instrs, uses, r, d)
    requires r in instrs[n].dsts || (owner[d].write && (r in instrs[n].preds || r in instrs[n].srcs))
    ensures Needed(owner, instrs, n, d)
  {
  }

  lemma ExactClear(owner: seq<Token>, instrs: seq<Instr>, n: nat, uses: Uses, waits: seq<nat>, r: Reg, u: RegUse, more: seq<nat>)
    requires Exact(owner, instrs, n, uses, waits) && n < |instrs|
    requires || ((u, more) == ClearWrite(Use(uses, r)) && (r in instrs[n].preds || r in instrs[n].srcs))
             || ((u, more) == Clear(Use(uses, r)) && r in instrs[n].dsts)
    ensures Exact(owner, instrs, n, uses[r := u], waits + more)
  {
    var uses' := uses[r := u];
    forall d: nat | InUse(uses', r, d)
      ensures Accesses(owner, instrs, uses', r, d)
    {
      assert InUse(uses, r, d) && Accesses(owner, instrs, uses, r, d);
    }
    forall d: nat | d in more
      ensures InUse(uses, r, d) && Needed(owner, instrs, n, d)
    {
      assert InUse(uses, r, d);
      NeededBy(owner, instrs, n, uses, r, d);
    }
    ExactNext(owner, instrs, n, uses, waits, r, u, uses', more);
  }

  lemma ExactRead(owner: seq<Token>, instrs: seq<Instr>, n: nat, uses: Uses, waits: seq<nat>, r: Reg, rd: nat, u: RegUse, more: seq<nat>)
    requires Exact(owner, instrs, n, uses, waits) && n < |instrs| && r in instrs[n].srcs
    requires rd < |owner| && owner[rd] == Token(n, false) && (u, more) == AddRead(Use(uses, r), rd)
    ensures Exact(owner, instrs, n, uses[r := u], waits + more)
  {
    var uses' := uses[r := u];
    forall d: nat | InUse(uses', r, d)
      ensures Accesses(owner, instrs, uses', r, d)
    {
      if d != rd { assert InUse(uses, r, d) && Accesses(owner, instrs, uses, r, d); }
    }
    forall d: nat | d in more
      ensures InUse(uses, r, d) && Needed(owner, instrs, n, d)
    {
      assert InUse(uses, r, d);
      NeededBy(owner, instrs, n, uses, r, d);
    }
    ExactNext(owner, instrs, n, uses, waits, r, u, uses', more);
  }

  lemma ExactWrite(owner: seq<Token>, instrs: seq<Instr>, n: nat, uses: Uses, waits: seq<nat>, r: Reg, rd: nat, more: seq<nat>)
    requires Exact(owner, instrs, n, uses, waits) && n < |instrs| && r in instrs[n].dsts
    requires rd + 1 < |owner| && owner[rd + 1] == Token(n, true) && more == Without(Use(uses, r).Deps(), rd)
    ensures Exact(owner, instrs, n, uses[r := Write(rd + 1)], waits + more)
  {
    forall d: nat | d in more
      ensures InUse(uses, r, d) && Needed(owner, instrs, n, d)
    {
      assert InUse(uses, r, d);
      NeededBy(owner, instrs, n, uses, r, d);
    }
    ExactNext(owner, instrs, n, uses, waits, r, Write(rd + 1), uses[r := Write(rd + 1)], more);
  }

  lemma ExactExtended(owner: seq<Token>, more: seq<Token>, instrs: seq<Instr>, n: nat, uses: Uses, waits: seq<nat>)
    requires Exact(owner, instrs, n, uses, waits)
    ensures Exact(owner + more, instrs, n, uses, waits)
  {
    forall r, d: nat | InUse(uses, r, d)
      ensures Accesses(owner + more, instrs, uses, r, d)
    {
      assert Accesses(owner, instrs, uses, r, d);
    }
    forall d | d in waits
      ensures Needed(owner + more, instrs, n, d)
    {
      assert Needed(owner, instrs, n, d);
    }
  }

  /** The recorded waits of every instruction but a branch are needed. */
  ghost predicate NeededWaits(owner: seq<Token>, instrs: seq<Instr>, waitsOf: map<nat, seq<nat>>) {
    forall k, d :: k in waitsOf && d in waitsOf[k] ==> k < |instrs| && (instrs[k].isBranch || Needed(owner, instrs, k, d))
  }

  lemma NeededExtended(owner: seq<Token>, more: seq<Token>, instrs: seq<Instr>, waitsOf: map<nat, seq<nat>>)
    requires NeededWaits(owner, instrs, waitsOf)
    ensures NeededWaits(owner + more, instrs, waitsOf)
  {
    forall k, d | k in waitsOf && d in waitsOf[k]
      ensures k < |instrs| && (instrs[k].isBranch || Needed(owner + more, instrs, k, d))
    {
      assert instrs[k].isBranch || Needed(owner, instrs, k, d);
    }
  }

  /** What instruction `n` records is needed, too. */
  lemma ExactRecorded(g: Graph, waitsOf: map<nat, seq<nat>>, g': Graph, waitsOf': map<nat, seq<nat>>, instrs: seq<Instr>, n: nat, uses: Uses, waits: seq<nat>)
    requires n < |instrs| && Recorded(g, waitsOf, g', waitsOf', n, waits) && NeededWaits(g.owner, instrs, waitsOf)
    requires (if instrs[n].isBranch then Exact(g.owner, instrs, n, uses, []) else Exact(g.owner, instrs, n, uses, waits))
    ensures Exact(g'.owner, instrs, n + 1, uses, []) && NeededWaits(g'.owner, instrs, waitsOf')
  {
  }

  // ---------------------------------------------------------------------------
  // The first pass
  // ---------------------------------------------------------------------------

  /** What holds between two accesses of instruction `n`, `m` counting the
      instructions added so far. */
  ghost predicate Inv(g: Graph, instrs: seq<Instr>, m: nat, n: nat, uses: Uses, waits: seq<nat>) {
    && n <= m <= |instrs| && Numbered(g, instrs, m) && Timely(g, n)
    && UsesSignaled(g, uses) && WaitsSignaled(g, waits, n) && Tracks(g, instrs, m, n, uses, waits)
  }

  lemma AccessInv(g: Graph, instrs: seq<Instr>, m: nat, n: nat, uses: Uses, waits: seq<nat>, r: Reg, u: RegUse, uses': Uses, more: seq<nat>)
    requires Inv(g, instrs, m, n, uses, waits) && uses' == uses[r := u]
    requires forall d: nat :: d in more ==> InUse(uses, r, d) && d < |g.owner| && g.owner[d].ip < n
    requires forall d: nat :: InUse(uses', r, d) ==> InUse(uses, r, d) || Signaled(g, d)
    requires Use(uses, r).Write? ==> u == Use(uses, r) || Use(uses, r).dep in more || Settled(g.owner, uses, n, r)
    requires Use(uses, r).Reads? ==> forall d: nat :: d in Use(uses, r).deps ==>
               d in more || (u.Reads? && d in u.deps) || (d < |g.owner| && n <= g.owner[d].ip)
    ensures Inv(g, instrs, m, n, uses', waits + more)
  {
    AccessKeeps(g, instrs, m, n, uses, waits, r, u, waits + more);
    forall s, d: nat | InUse(uses', s, d)
      ensures Signaled(g, d)
    {
      assert InUse(uses, s, d) ==> Signaled(g, d);
    }
    forall d: nat | d in more
      ensures Signaled(g, d)
    {
      assert InUse(uses, r, d);
    }
  }

  /** Every dependency in use belongs to an earlier instruction, is the read
      dependency of instruction `n` itself, or its write on a register done. */
  ghost predicate OldUses(owner: seq<Token>, uses: Uses, n: nat, own: nat, done: seq<Reg>) {
    forall r, d: nat :: InUse(uses, r, d) ==>
      d < |owner| && (owner[d].ip < n || (d == own && !Use(uses, r).Write?) || (d == own + 1 && r in done))
  }

  lemma OldAccess(owner: seq<Token>, uses: Uses, n: nat, own: nat, done: seq<Reg>, r: Reg, u: RegUse, uses': Uses, done': seq<Reg>)
    requires OldUses(owner, uses, n, own, done) && uses' == uses[r := u]
    requires forall s :: s in done ==> s in done'
    requires forall d: nat :: InUse(uses', r, d) ==>
               (InUse(uses, r, d) && (u == Use(uses, r) || !u.Write?)) || (d < |owner| && ((d == own && !u.Write?) || (d == own + 1 && r in done')))
    ensures OldUses(owner, uses', n, own, done')
    ensures forall d: nat :: d in Use(uses, r).Deps() ==>
              InUse(uses, r, d) && d < |owner| && (owner[d].ip < n || (d == own && !Use(uses, r).Write?) || (d == own + 1 && r in done))
  {
    forall s, d: nat | InUse(uses', s, d)
      ensures d < |owner| && (owner[d].ip < n || (d == own && !Use(uses', s).Write?) || (d == own + 1 && s in done'))
    {
      assert s != r ==> Use(uses', s) == Use(uses, s);
      assert InUse(uses, s, d) || s == r;
    }
    forall d: nat | d in Use(uses, r).Deps()
      ensures InUse(uses, r, d) && d < |owner| && (owner[d].ip < n || (d == own && !Use(uses, r).Write?) || (d == own + 1 && r in done))
    {
      assert InUse(uses, r, d);
    }
  }

  /** No write before instruction `n` is in use. */
  ghost predicate Settled(owner: seq<Token>, uses: Uses, n: nat, r: Reg) {
    Use(uses, r).Write? ==> Use(uses, r).dep < |owner| && n <= owner[Use(uses, r).dep].ip
  }

  ghost predicate AllSettled(owner: seq<Token>, uses: Uses, n: nat, regs: seq<Reg>) {
    forall r :: r in regs ==> Settled(owner, uses, n, r)
  }

  lemma SettledNone(owner: seq<Token>, uses: Uses, n: nat)
    ensures AllSettled(owner, uses, n, [])
  {
  }

  lemma SettledUpdate(owner: seq<Token>, uses: Uses, n: nat, regs: seq<Reg>, r: Reg, u: RegUse)
    requires AllSettled(owner, uses, n, regs)
    requires u.Write? ==> u.dep < |owner| && n <= owner[u.dep].ip
    ensures AllSettled(owner, uses[r := u], n, regs) && AllSettled(owner, uses[r := u], n, regs + [r])
  {
    forall s | s in regs + [r]
      ensures Settled(owner, uses[r := u], n, s)
    {
      if s != r {
        assert Use(uses[r := u], s) == Use(uses, s);
        assert Settled(owner, uses, n, s);
      }
    }
  }

  lemma ClearStep(g: Graph, instrs: seq<Instr>, m: nat, n: nat, uses: Uses, waits: seq<nat>, r: Reg, u: RegUse, more: seq<nat>)
    requires Inv(g, instrs, m, n, uses, waits) && OldUses(g.owner, uses, n, |g.owner|, [])
    requires (u, more) == ClearWrite(Use(uses, r)) || (u, more) == Clear(Use(uses, r))
    ensures Inv(g, instrs, m, n, uses[r := u], waits + more) && OldUses(g.owner, uses[r := u], n, |g.owner|, [])
  {
    hide Inv;
    OldAccess(g.owner, uses, n, |g.owner|, [], r, u, uses[r := u], []);
    AccessInv(g, instrs, m, n, uses, waits, r, u, uses[r := u], more);
  }

  /** Guards, and the sources of a fixed-latency instruction. */
  method ClearWrites(regs: seq<Reg>, uses0: Uses, waits0: seq<nat>,
                     ghost g: Graph, ghost instrs: seq<Instr>, ghost m: nat, ghost n: nat, ghost settled: seq<Reg>)
    returns (uses: Uses, waits: seq<nat>)
    requires Inv(g, instrs, m, n, uses0, waits0) && OldUses(g.owner, uses0, n, |g.owner|, [])
    requires AllSettled(g.owner, uses0, n, settled) && Exact(g.owner, instrs, n, uses0, waits0)
    requires n < |instrs| && forall r :: r in regs ==> r in instrs[n].preds || r in instrs[n].srcs
    ensures Inv(g, instrs, m, n, uses, waits) && OldUses(g.owner, uses, n, |g.owner|, [])
    ensures AllSettled(g.owner, uses, n, settled + regs) && Exact(g.owner, instrs, n, uses, waits)
  {
    hide Inv, OldUses, AllSettled, Exact;
    uses, waits := uses0, waits0;
    assert settled + regs[..0] == settled;
    for k := 0 to |regs|
      invariant Inv(g, instrs, m, n, uses, waits) && OldUses(g.owner, uses, n, |g.owner|, [])
      invariant AllSettled(g.owner, uses, n, settled + regs[..k]) && Exact(g.owner, instrs, n, uses, waits)
    {
      assert regs[..k + 1] == regs[..k] + [regs[k]];
      var (u, more) := ClearWrite(Use(uses, regs[k]));
      ExactClear(g.owner, instrs, n, uses, waits, regs[k], u, more);
      ClearStep(g, instrs, m, n, uses, waits, regs[k], u, more);
      assert settled + regs[..k + 1] == settled + regs[..k] + [regs[k]];
      SettledUpdate(g.owner, uses, n, settled + regs[..k], regs[k], u);
      uses, waits := uses[regs[k] := u], waits + more;
    }
    assert regs[..|regs|] == regs;
  }

  /** No use before instruction `n` is left. */
  ghost predicate AllFresh(owner: seq<Token>, uses: Uses, n: nat, regs: seq<Reg>) {
    forall r :: r in regs ==> Settled(owner, uses, n, r) && !Use(uses, r).Reads?
  }

  lemma FreshUpdate(owner: seq<Token>, uses: Uses, n: nat, regs: seq<Reg>, r: Reg, u: RegUse)
    requires AllFresh(owner, uses, n, regs)
    requires u == Unused || (u.Write? && u.dep < |owner| && n <= owner[u.dep].ip)
    ensures AllFresh(owner, uses[r := u], n, regs + [r])
  {
    forall s | s in regs + [r]
      ensures Settled(owner, uses[r := u], n, s) && !Use(uses[r := u], s).Reads?
    {
      if s != r {
        assert Use(uses[r := u], s) == Use(uses, s);
        assert Settled(owner, uses, n, s);
      }
    }
  }

  /** The destinations of a fixed-latency instruction. */
  method Clears(regs: seq<Reg>, uses0: Uses, waits0: seq<nat>,
                ghost g: Graph, ghost instrs: seq<Instr>, ghost m: nat, ghost n: nat, ghost settled: seq<Reg>)
    returns (uses: Uses, waits: seq<nat>)
    requires Inv(g, instrs, m, n, uses0, waits0) && OldUses(g.owner, uses0, n, |g.owner|, [])
    requires AllSettled(g.owner, uses0, n, settled) && Exact(g.owner, instrs, n, uses0, waits0)
    requires n < |instrs| && forall r :: r in regs ==> r in instrs[n].dsts
    ensures Inv(g, instrs, m, n, uses, waits) && OldUses(g.owner, uses, n, |g.owner|, [])
    ensures AllSettled(g.owner, uses, n, settled) && AllFresh(g.owner, uses, n, regs) && Exact(g.owner, instrs, n, uses, waits)
  {
    hide Inv, OldUses, AllSettled, Exact;
    uses, waits := uses0, waits0;
    for k := 0 to |regs|
      invariant Inv(g, instrs, m, n, uses, waits) && OldUses(g.owner, uses, n, |g.owner|, [])
      invariant AllSettled(g.owner, uses, n, settled) && AllFresh(g.owner, uses, n, regs[..k])
      invariant Exact(g.owner, instrs, n, uses, waits)
    {
      assert regs[..k + 1] == regs[..k] + [regs[k]];
      var (u, more) := Clear(Use(uses, regs[k]));
      ExactClear(g.owner, instrs, n, uses, waits, regs[k], u, more);
      ClearStep(g, instrs, m, n, uses, waits, regs[k], u, more);
      FreshUpdate(g.owner, uses, n, regs[..k], regs[k], u);
      SettledUpdate(g.owner, uses, n, settled, regs[k], u);
      uses, waits := uses[regs[k] := u], waits + more;
    }
    assert regs[..|regs|] == regs;
  }

  lemma SignalTracks(g: Graph, g': Graph, instrs: seq<Instr>, m: nat, n: nat, uses: Uses, waits: seq<nat>)
    requires n <= m <= |instrs| && Numbered(g, instrs, m) && Tracks(g, instrs, m, n, uses, waits)
    requires g' == g.(active := g'.active)
    ensures Numbered(g', instrs, m) && Tracks(g', instrs, m, n, uses, waits)
  {
    forall i | i in g'.instrDeps
      ensures i < m && NumberedInstr(g', instrs, i)
    {
      assert NumberedInstr(g, instrs, i);
    }
    forall d: nat | d < |g'.deps|
      ensures NumberedDep(g', d)
    {
      assert NumberedDep(g, d);
    }
    forall d: nat | d < |g.deps|
      ensures Resolved(g', waits, d) == Resolved(g, waits, d)
    {
    }
  }

  lemma SignalKeeps(g: Graph, g': Graph, instrs: seq<Instr>, m: nat, n: nat, uses: Uses, waits: seq<nat>, d: nat)
    requires Inv(g, instrs, m, n, uses, waits)
    requires d < |g.deps| && g.deps[d].firstWait.None? && g' == g.(active := g.active + {d})
    ensures Inv(g', instrs, m, n, uses, waits) && Signaled(g', d)
  {
    SignalTracks(g, g', instrs, m, n, uses, waits);
    forall r, e: nat | InUse(uses, r, e)
      ensures Signaled(g', e)
    {
      assert Signaled(g, e);
    }
    forall e | e in waits
      ensures Signaled(g', e)
    {
      assert Signaled(g, e);
    }
  }

  /** What the source and destination loops of instruction `n` keep. */
  ghost predicate Adding(g: Graph, instrs: seq<Instr>, n: nat, uses: Uses, waits: seq<nat>, rd: nat, done: seq<Reg>) {
    && Inv(g, instrs, n + 1, n, uses, waits)
    && OldUses(g.owner, uses, n, rd, done)
    && n in g.instrDeps && g.instrDeps[n] == (rd, rd + 1)
    && g.deps[rd].firstWait.None? && g.deps[rd + 1].firstWait.None?
  }

  ghost predicate ReadIn(uses: Uses, rd: nat, r: Reg) {
    Use(uses, r).Reads? && rd in Use(uses, r).deps
  }

  lemma SignalAdding(g: Graph, instrs: seq<Instr>, n: nat, uses: Uses, waits: seq<nat>, rd: nat, done: seq<Reg>, d: nat)
    requires Adding(g, instrs, n, uses, waits, rd, done) && (d == rd || d == rd + 1)
    ensures Adding(g.(active := g.active + {d}), instrs, n, uses, waits, rd, done) && Signaled(g.(active := g.active + {d}), d)
  {
    SignalKeeps(g, g.(active := g.active + {d}), instrs, n + 1, n, uses, waits, d);
  }

  lemma AddReadStep(g: Graph, instrs: seq<Instr>, n: nat, uses: Uses, waits: seq<nat>, rd: nat, r: Reg, u: RegUse, more: seq<nat>)
    requires Adding(g, instrs, n, uses, waits, rd, []) && Signaled(g, rd)
    requires (u, more) == AddRead(Use(uses, r), rd)
    ensures Adding(g, instrs, n, uses[r := u], waits + more, rd, [])
    ensures ReadIn(uses[r := u], rd, r)
  {
    OldAccess(g.owner, uses, n, rd, [], r, u, uses[r := u], []);
    if Use(uses, r).Write? { assert InUse(uses, r, Use(uses, r).dep); }
    AccessInv(g, instrs, n + 1, n, uses, waits, r, u, uses[r := u], more);
  }

  /** The sources of a variable-latency instruction. */
  method AddReads(graph: DepGraph, regs: seq<Reg>, rd: nat, uses0: Uses, waits0: seq<nat>,
                  ghost instrs: seq<Instr>, ghost n: nat, ghost settled: seq<Reg>)
    returns (uses: Uses, waits: seq<nat>)
    requires Adding(Snapshot(graph), instrs, n, uses0, waits0, rd, [])
    requires AllSettled(graph.owner, uses0, n, settled) && Exact(graph.owner, instrs, n, uses0, waits0)
    requires n < |instrs| && rd < |graph.owner| && graph.owner[rd] == Token(n, false) && forall r :: r in regs ==> r in instrs[n].srcs
    modifies graph`active
    ensures Adding(Snapshot(graph), instrs, n, uses, waits, rd, [])
    ensures AllSettled(graph.owner, uses, n, settled + regs) && Exact(graph.owner, instrs, n, uses, waits)
    ensures forall r :: r in regs ==> ReadIn(uses, rd, r)
    ensures graph.active <= old(graph.active) + {rd}
  {
    hide Adding, AllSettled, Exact;
    uses, waits := uses0, waits0;
    assert settled + regs[..0] == settled;
    for k := 0 to |regs|
      invariant Adding(Snapshot(graph), instrs, n, uses, waits, rd, [])
      invariant AllSettled(graph.owner, uses, n, settled + regs[..k]) && Exact(graph.owner, instrs, n, uses, waits)
      invariant forall r :: r in regs[..k] ==> ReadIn(uses, rd, r)
      invariant graph.active <= old(graph.active) + {rd}
    {
      assert regs[..k + 1] == regs[..k] + [regs[k]];
      SignalAdding(Snapshot(graph), instrs, n, uses, waits, rd, [], rd);
      graph.AddSignal(rd);
      var (u, more) := AddRead(Use(uses, regs[k]), rd);
      ExactRead(graph.owner, instrs, n, uses, waits, regs[k], rd, u, more);
      AddReadStep(Snapshot(graph), instrs, n, uses, waits, rd, regs[k], u, more);
      assert settled + regs[..k + 1] == settled + regs[..k] + [regs[k]];
      SettledUpdate(graph.owner, uses, n, settled + regs[..k], regs[k], u);
      uses, waits := uses[regs[k] := u], waits + more;
    }
    assert regs[..|regs|] == regs;
  }

  function Without(deps: seq<nat>, own: nat): (rest: seq<nat>)
    ensures forall d :: d in rest <==> d in deps && d != own
  {
    if deps == [] then []
    else (if deps[0] != own then [deps[0]] else []) + Without(deps[1..], own)
  }

  lemma SetWriteStep(g: Graph, instrs: seq<Instr>, n: nat, uses: Uses, waits: seq<nat>, rd: nat, done: seq<Reg>, r: Reg, more: seq<nat>)
    requires Adding(g, instrs, n, uses, waits, rd, done) && Signaled(g, rd + 1) && r !in done
    requires more == Without(Use(uses, r).Deps(), rd)
    ensures Adding(g, instrs, n, uses[r := Write(rd + 1)], waits + more, rd, done + [r])
    ensures rd + 1 < |g.owner| && g.owner[rd + 1].ip == n
  {
    var u := Write(rd + 1);
    OldAccess(g.owner, uses, n, rd, done, r, u, uses[r := u], done + [r]);
    AccessInv(g, instrs, n + 1, n, uses, waits, r, u, uses[r := u], more);
  }

  /** The destinations of a variable-latency instruction, which does not wait on
      its own reads. */
  method SetWrites(graph: DepGraph, regs: seq<Reg>, rd: nat, wr: nat, uses0: Uses, waits0: seq<nat>,
                   ghost instrs: seq<Instr>, ghost n: nat, ghost srcs: seq<Reg>, ghost settled: seq<Reg>)
    returns (uses: Uses, waits: seq<nat>)
    requires Adding(Snapshot(graph), instrs, n, uses0, waits0, rd, []) && wr == rd + 1
    requires forall a, b :: 0 <= a < b < |regs| ==> regs[a] != regs[b]
    requires AllSettled(graph.owner, uses0, n, settled) && Exact(graph.owner, instrs, n, uses0, waits0)
    requires n < |instrs| && wr < |graph.owner| && graph.owner[wr] == Token(n, true) && forall r :: r in regs ==> r in instrs[n].dsts
    requires forall r :: r in srcs ==> ReadIn(uses0, rd, r)
    modifies graph`active
    ensures Adding(Snapshot(graph), instrs, n, uses, waits, rd, regs)
    ensures AllSettled(graph.owner, uses, n, settled) && AllFresh(graph.owner, uses, n, regs)
    ensures Exact(graph.owner, instrs, n, uses, waits)
    ensures forall r :: r in srcs ==> ReadIn(uses, rd, r) || Use(uses, r) == Write(wr)
    ensures forall r :: r in regs ==> Use(uses, r) == Write(wr)
    ensures graph.active <= old(graph.active) + {wr}
  {
    hide Adding, AllSettled, Exact;
    uses, waits := uses0, waits0;
    for k := 0 to |regs|
      invariant Adding(Snapshot(graph), instrs, n, uses, waits, rd, regs[..k])
      invariant AllSettled(graph.owner, uses, n, settled) && AllFresh(graph.owner, uses, n, regs[..k])
      invariant Exact(graph.owner, instrs, n, uses, waits)
      invariant forall r :: r in srcs ==> ReadIn(uses, rd, r) || Use(uses, r) == Write(wr)
      invariant forall r :: r in regs[..k] ==> Use(uses, r) == Write(wr)
      invariant graph.active <= old(graph.active) + {wr}
    {
      assert regs[..k + 1] == regs[..k] + [regs[k]];
      SignalAdding(Snapshot(graph), instrs, n, uses, waits, rd, regs[..k], wr);
      graph.AddSignal(wr);
      var (u, before) := SetWrite(Use(uses, regs[k]), wr);
      var more := Without(before, rd);
      ExactWrite(graph.owner, instrs, n, uses, waits, regs[k], rd, more);
      SetWriteStep(Snapshot(graph), instrs, n, uses, waits, rd, regs[..k], regs[k], more);
      FreshUpdate(graph.owner, uses, n, regs[..k], regs[k], u);
      SettledUpdate(graph.owner, uses, n, settled, regs[k], u);
      uses, waits := uses[regs[k] := u], waits + more;
    }
    assert regs[..|regs|] == regs;
  }

  // ---------------------------------------------------------------------------
  // Hazards
  // ---------------------------------------------------------------------------

  /** The dependency, or for a read the write of the same instruction, has its
      first wait at `j` or before. */
  ghost predicate WaitedBy(deps: seq<DepNode>, owner: seq<Token>, d: nat, j: nat)
    requires d < |deps| == |owner|
  {
    || (deps[d].firstWait.Some? && deps[d].firstWait.value <= j)
    || (!owner[d].write && d + 1 < |deps| && deps[d + 1].firstWait.Some? && deps[d + 1].firstWait.value <= j)
  }

  ghost predicate CoveredPair(g: Graph, instrs: seq<Instr>, i: nat, j: nat)
    requires i < |instrs| && j < |instrs|
  {
    i in g.instrDeps && |g.deps| == |g.owner| && g.instrDeps[i].0 < |g.deps| && g.instrDeps[i].1 < |g.deps|
    && (OnResult(instrs[i], instrs[j]) ==> WaitedBy(g.deps, g.owner, g.instrDeps[i].1, j))
    && (OnOperand(instrs[i], instrs[j]) ==> WaitedBy(g.deps, g.owner, g.instrDeps[i].0, j))
  }

  /** Every hazard between instructions before `n` is waited on in time. */
  ghost predicate Covered(g: Graph, instrs: seq<Instr>, n: nat)
    requires n <= |instrs|
  {
    forall i: nat, j: nat :: i < j < n && instrs[i].scoreboard ==> CoveredPair(g, instrs, i, j)
  }

  ghost predicate HazardResolved(g: Graph, instrs: seq<Instr>, n: nat, waits: seq<nat>, i: nat)
    requires i < n < |instrs|
  {
    && i in g.instrDeps && |g.deps| == |g.owner| && g.instrDeps[i].0 < |g.deps| && g.instrDeps[i].1 < |g.deps|
    && (OnResult(instrs[i], instrs[n]) ==> Resolved(g, waits, g.instrDeps[i].1))
    && (OnOperand(instrs[i], instrs[n]) ==> Resolved(g, waits, g.instrDeps[i].0))
  }

  /** The accesses of instruction `n` put every hazard with it into `waits`. */
  lemma AccessResolves(g: Graph, instrs: seq<Instr>, m: nat, n: nat, uses: Uses, waits: seq<nat>, i: nat)
    requires n < m <= |instrs| && Inv(g, instrs, m, n, uses, waits) && i < n && instrs[i].scoreboard
    requires AllSettled(g.owner, uses, n, instrs[n].preds + instrs[n].srcs) && AllFresh(g.owner, uses, n, instrs[n].dsts)
    ensures HazardResolved(g, instrs, n, waits, i)
  {
    assert NumberedInstr(g, instrs, i);
    if OnResult(instrs[i], instrs[n]) {
      var r :| r in instrs[i].dsts && (r in instrs[n].preds || r in instrs[n].srcs || r in instrs[n].dsts);
      assert r in instrs[n].preds + instrs[n].srcs || r in instrs[n].dsts;
      assert Settled(g.owner, uses, n, r);
    }
    if OnOperand(instrs[i], instrs[n]) {
      var r :| r in instrs[i].srcs && r in instrs[n].dsts;
      assert Settled(g.owner, uses, n, r) && !Use(uses, r).Reads?;
    }
  }

  /** Waiting on all that is active puts every result and operand with it. */
  lemma BarrierFlushes(g: Graph, instrs: seq<Instr>, m: nat, n: nat, uses: Uses, waits: seq<nat>, i: nat)
    requires n < m <= |instrs| && Inv(g, instrs, m, n, uses, []) && i < n && instrs[i].scoreboard
    requires forall d :: d in waits <==> d in g.active
    ensures NumberedInstr(g, instrs, i)
    ensures instrs[i].dsts != [] ==> Resolved(g, waits, g.instrDeps[i].1)
    ensures instrs[i].srcs != [] ==> Resolved(g, waits, g.instrDeps[i].0)
  {
    assert NumberedInstr(g, instrs, i);
    var (rd, wr) := g.instrDeps[i];
    if instrs[i].dsts != [] {
      var r := instrs[i].dsts[0];
      assert r in instrs[i].dsts;
      if Use(uses, r) == Write(wr) { assert InUse(uses, r, wr); }
    }
    if instrs[i].srcs != [] {
      var r := instrs[i].srcs[0];
      assert r in instrs[i].srcs;
      if Use(uses, r) == Write(wr) { assert InUse(uses, r, wr); }
      if ReadIn(uses, rd, r) { assert InUse(uses, r, rd); }
    }
  }

  lemma BarrierResolves(g: Graph, instrs: seq<Instr>, m: nat, n: nat, uses: Uses, waits: seq<nat>, i: nat)
    requires n < m <= |instrs| && Inv(g, instrs, m, n, uses, []) && i < n && instrs[i].scoreboard
    requires forall d :: d in waits <==> d in g.active
    ensures HazardResolved(g, instrs, n, waits, i)
  {
    BarrierFlushes(g, instrs, m, n, uses, waits, i);
  }

  // ---- branches

  /** By branch `j` all of instruction `i` has been waited on. */
  ghost predicate FlushedPair(g: Graph, instrs: seq<Instr>, i: nat, j: nat)
    requires i < |instrs|
  {
    i in g.instrDeps && |g.deps| == |g.owner| && g.instrDeps[i].0 < |g.deps| && g.instrDeps[i].1 < |g.deps|
    && (instrs[i].dsts != [] ==> WaitedBy(g.deps, g.owner, g.instrDeps[i].1, j))
    && (instrs[i].srcs != [] ==> WaitedBy(g.deps, g.owner, g.instrDeps[i].0, j))
  }

  /** Nothing behind branch `j` waits on what is in front of it. */
  ghost predicate ClosedDep(g: Graph, d: nat, j: nat)
    requires d < |g.deps| == |g.owner|
  {
    g.owner[d].ip < j ==> d !in g.active && (g.deps[d].firstWait.Some? ==> g.deps[d].firstWait.value <= j)
  }

  ghost predicate Flushed(g: Graph, instrs: seq<Instr>, j: nat)
    requires j <= |instrs|
  {
    && |g.deps| == |g.owner| && (forall i: nat :: i < j && instrs[i].scoreboard ==> FlushedPair(g, instrs, i, j))
    && forall d: nat :: d < |g.deps| ==> ClosedDep(g, d, j)
  }

  ghost predicate Branches(g: Graph, instrs: seq<Instr>, n: nat)
    requires n <= |instrs|
  {
    forall j: nat :: j < n && instrs[j].isBranch ==> Flushed(g, instrs, j)
  }

  lemma FlushedStays(g: Graph, g': Graph, instrs: seq<Instr>, j: nat, n: nat, waits: seq<nat>)
    requires j <= |instrs| && Flushed(g, instrs, j)
    requires InRange(waits, |g.deps|) && AfterWaits(g, g', n, waits) && Timely(g, n)
    ensures Flushed(g', instrs, j)
  {
    forall i: nat | i < j && instrs[i].scoreboard
      ensures FlushedPair(g', instrs, i, j)
    {
      assert FlushedPair(g, instrs, i, j);
      forall d: nat | d < |g.deps| && WaitedBy(g.deps, g.owner, d, j)
        ensures WaitedBy(g'.deps, g'.owner, d, j)
      {
        assert g.deps[d].firstWait.Some? ==> g'.deps[d].firstWait == g.deps[d].firstWait;
      }
    }
    forall d: nat | d < |g'.deps|
      ensures ClosedDep(g', d, j)
    {
      assert ClosedDep(g, d, j);
    }
  }

  /** The branch itself. */
  lemma FlushedNow(g: Graph, g': Graph, instrs: seq<Instr>, n: nat, uses: Uses, waits: seq<nat>)
    requires n < |instrs| && Inv(g, instrs, n + 1, n, uses, waits) && Inv(g, instrs, n + 1, n, uses, [])
    requires (forall d :: d in waits <==> d in g.active) && InRange(waits, |g.deps|) && AfterWaits(g, g', n, waits)
    requires Timely(g', n + 1) && g'.active == {}
    ensures Flushed(g', instrs, n)
  {
    forall i: nat | i < n && instrs[i].scoreboard
      ensures FlushedPair(g', instrs, i, n)
    {
      BarrierFlushes(g, instrs, n + 1, n, uses, waits, i);
      hide Tracks, Numbered;
      var (rd, wr) := g.instrDeps[i];
      if instrs[i].dsts != [] { AddWaitsResolves(g, g', instrs, n + 1, n, waits, wr); }
      if instrs[i].srcs != [] { AddWaitsResolves(g, g', instrs, n + 1, n, waits, rd); }
    }
  }

  lemma BranchesStay(g: Graph, g': Graph, instrs: seq<Instr>, n: nat, waits: seq<nat>)
    requires n < |instrs| && Branches(g, instrs, n) && |g.owner| == |g.deps| && Timely(g, n)
    requires InRange(waits, |g.deps|) && AfterWaits(g, g', n, waits)
    ensures Branches(g', instrs, n)
  {
    hide Flushed, AfterWaits;
    forall j: nat | j < n && instrs[j].isBranch
      ensures Flushed(g', instrs, j)
    {
      FlushedStays(g, g', instrs, j, n, waits);
    }
  }

  lemma BranchesSkip(g: Graph, instrs: seq<Instr>, n: nat)
    requires n < |instrs| && Branches(g, instrs, n) && (instrs[n].isBranch ==> Flushed(g, instrs, n))
    ensures Branches(g, instrs, n + 1)
  {
    hide Flushed;
  }

  /** Accesses of instruction `n` activate its own dependencies only. */
  lemma BranchesExtend(g: Graph, g': Graph, instrs: seq<Instr>, n: nat)
    requires n < |instrs| && |g.deps| == |g.owner| && Branches(g, instrs, n) && g' == Extended(g, n).(active := g'.active)
    requires g'.active <= g.active + {|g.deps|, |g.deps| + 1}
    requires forall i: nat :: i < n && instrs[i].scoreboard ==> i in g.instrDeps
    ensures Branches(g', instrs, n)
  {
    forall j: nat | j < n && instrs[j].isBranch
      ensures Flushed(g', instrs, j)
    {
      assert Flushed(g, instrs, j);
      forall d: nat | d < |g'.deps|
        ensures ClosedDep(g', d, j)
      {
        if d < |g.deps| { assert ClosedDep(g, d, j); }
      }
      forall i: nat | i < j && instrs[i].scoreboard
        ensures FlushedPair(g', instrs, i, j)
      {
        assert FlushedPair(g, instrs, i, j);
      }
    }
  }

  // ---------------------------------------------------------------------------
  // One instruction, and all of them
  // ---------------------------------------------------------------------------

  /** The recorded wait lists are exactly the first waits. */
  ghost predicate WaitLists(deps: seq<DepNode>, waitsOf: map<nat, seq<nat>>, n: nat) {
    && (forall k :: k in waitsOf ==> k < n && InRange(waitsOf[k], |deps|))
    && (forall d: nat, k: nat :: d < |deps| ==> (deps[d].firstWait == Some(k) <==> k in waitsOf && d in waitsOf[k]))
  }

  /** What holds before instruction `n`. */
  ghost predicate Between(g: Graph, waitsOf: map<nat, seq<nat>>, instrs: seq<Instr>, n: nat, uses: Uses) {
    && Inv(g, instrs, n, n, uses, [])
    && OldUses(g.owner, uses, n, |g.owner|, [])
    && Covered(g, instrs, n)
    && WaitLists(g.deps, waitsOf, n)
  }

  /** Instruction `n`'s own accesses are in the tracker. */
  ghost predicate OwnTracked(g: Graph, instrs: seq<Instr>, n: nat, uses: Uses)
    requires n < |instrs|
  {
    instrs[n].scoreboard ==>
      && n in g.instrDeps
      && (forall r :: r in instrs[n].srcs ==> ReadIn(uses, g.instrDeps[n].0, r) || Use(uses, r) == Write(g.instrDeps[n].1))
      && (forall r :: r in instrs[n].dsts ==> Use(uses, r) == Write(g.instrDeps[n].1))
  }

  lemma OwnTracks(g: Graph, instrs: seq<Instr>, n: nat, uses: Uses, waits: seq<nat>)
    requires n < |instrs| && Numbered(g, instrs, n + 1) && Tracks(g, instrs, n + 1, n, uses, waits) && OwnTracked(g, instrs, n, uses)
    ensures Tracks(g, instrs, n + 1, n + 1, uses, waits)
  {
  }

  lemma CoveredNext(g: Graph, g': Graph, instrs: seq<Instr>, n: nat, uses: Uses, waits: seq<nat>)
    requires n < |instrs| && Inv(g, instrs, n + 1, n, uses, waits) && Covered(g, instrs, n)
    requires InRange(waits, |g.deps|) && AfterWaits(g, g', n, waits) && Timely(g', n + 1)
    requires forall i: nat :: i < n && instrs[i].scoreboard ==> HazardResolved(g, instrs, n, waits, i)
    ensures Covered(g', instrs, n + 1)
  {
    forall i: nat, j: nat | i < j < n + 1 && instrs[i].scoreboard
      ensures CoveredPair(g', instrs, i, j)
    {
      assert NumberedInstr(g, instrs, i);
      if j < n {
        assert CoveredPair(g, instrs, i, j);
        CoveredStays(g, g', instrs, i, j, n, waits);
      } else {
        assert HazardResolved(g, instrs, n, waits, i);
        CoveredNow(g, g', instrs, n, waits, i);
      }
    }
  }

  lemma CoveredStays(g: Graph, g': Graph, instrs: seq<Instr>, i: nat, j: nat, n: nat, waits: seq<nat>)
    requires i < |instrs| && j < |instrs| && CoveredPair(g, instrs, i, j)
    requires InRange(waits, |g.deps|) && AfterWaits(g, g', n, waits) && Timely(g, n)
    ensures CoveredPair(g', instrs, i, j)
  {
    forall d: nat | d < |g.deps| && WaitedBy(g.deps, g.owner, d, j)
      ensures WaitedBy(g'.deps, g'.owner, d, j)
    {
      assert g.deps[d].firstWait.Some? ==> g'.deps[d].firstWait == g.deps[d].firstWait;
    }
  }

  lemma CoveredNow(g: Graph, g': Graph, instrs: seq<Instr>, n: nat, waits: seq<nat>, i: nat)
    requires i < n < |instrs| && HazardResolved(g, instrs, n, waits, i)
    requires Numbered(g, instrs, n + 1) && WaitsSignaled(g, waits, n)
    requires InRange(waits, |g.deps|) && AfterWaits(g, g', n, waits) && Timely(g', n + 1)
    ensures CoveredPair(g', instrs, i, n)
  {
    hide Numbered, OnResult, OnOperand;
    var (rd, wr) := g.instrDeps[i];
    if OnResult(instrs[i], instrs[n]) { AddWaitsResolves(g, g', instrs, n + 1, n, waits, wr); }
    if OnOperand(instrs[i], instrs[n]) { AddWaitsResolves(g, g', instrs, n + 1, n, waits, rd); }
  }

  lemma WaitListsNext(g: Graph, waitsOf: map<nat, seq<nat>>, g': Graph, waitsOf': map<nat, seq<nat>>, n: nat, waits: seq<nat>)
    requires |g.deps| == |g.owner| && WaitLists(g.deps, waitsOf, n) && Timely(g, n) && Recorded(g, waitsOf, g', waitsOf', n, waits)
    ensures WaitLists(g'.deps, waitsOf', n + 1)
  {
    forall d: nat, k: nat | d < |g.deps|
      ensures g'.deps[d].firstWait == Some(k) <==> k in waitsOf' && d in waitsOf'[k]
    {
      assert g.deps[d].firstWait == Some(k) <==> k in waitsOf && d in waitsOf[k];
    }
    forall i: nat | i < |waitsOf'[n]|
      ensures waitsOf'[n][i] < |g.deps|
    {
      assert waitsOf'[n][i] in waits;
    }
  }

  lemma Finish(g: Graph, waitsOf: map<nat, seq<nat>>, g': Graph, waitsOf': map<nat, seq<nat>>,
               instrs: seq<Instr>, n: nat, uses: Uses, waits: seq<nat>)
    requires n < |instrs| && Inv(g, instrs, n + 1, n, uses, waits) && OwnTracked(g, instrs, n, uses)
    requires forall r, d: nat :: InUse(uses, r, d) ==> d < |g.owner| && g.owner[d].ip <= n
    requires forall i: nat :: i < n && instrs[i].scoreboard ==> HazardResolved(g, instrs, n, waits, i)
    requires Covered(g, instrs, n) && WaitLists(g.deps, waitsOf, n)
    requires Recorded(g, waitsOf, g', waitsOf', n, waits)
    ensures Between(g', waitsOf', instrs, n + 1, uses)
  {
    hide Numbered, Tracks, UsesSignaled, Covered, WaitLists, HazardResolved, OwnTracked;
    AddWaitsNumbers(g, g', instrs, n + 1, n, waits);
    OwnTracks(g, instrs, n, uses, waits);
    AddWaitsSignals(g, g', instrs, n + 1, n, uses, waits);
    AddWaitsKeeps(g, g', instrs, n + 1, n, n + 1, uses, waits);
    CoveredNext(g, g', instrs, n, uses, waits);
    WaitListsNext(g, waitsOf, g', waitsOf', n, waits);
    assert WaitsSignaled(g', [], n + 1);
  }

  ghost predicate Ready(graph: DepGraph, instrs: seq<Instr>, n: nat, uses: Uses)
    reads graph
  {
    && Between(Snapshot(graph), graph.instrWaits, instrs, n, uses) && Branches(Snapshot(graph), instrs, n)
    && Exact(graph.owner, instrs, n, uses, []) && NeededWaits(graph.owner, instrs, graph.instrWaits)
  }

  lemma SkipInstr(g: Graph, waitsOf: map<nat, seq<nat>>, instrs: seq<Instr>, n: nat, uses: Uses)
    requires n < |instrs| && !instrs[n].scoreboard && Between(g, waitsOf, instrs, n, uses)
    ensures Inv(g, instrs, n + 1, n, uses, [])
  {
  }

  lemma UsesBelong(owner: seq<Token>, uses: Uses, n: nat, own: nat, done: seq<Reg>)
    requires OldUses(owner, uses, n, own, done)
    requires own < |owner| ==> own + 1 < |owner| && owner[own].ip <= n && owner[own + 1].ip <= n
    ensures forall r, d: nat :: InUse(uses, r, d) ==> d < |owner| && owner[d].ip <= n
  {
    forall r, d: nat | InUse(uses, r, d)
      ensures d < |owner| && owner[d].ip <= n
    {
    }
  }

  method VisitBranch(graph: DepGraph, n: nat, ghost instrs: seq<Instr>, ghost uses: Uses)
    requires n < |instrs| && instrs[n].isBranch && !instrs[n].scoreboard && Ready(graph, instrs, n, uses)
    modifies graph
    ensures Ready(graph, instrs, n + 1, uses) && graph.active == {}
  {
    ghost var g, waitsOf := Snapshot(graph), graph.instrWaits;
    SkipInstr(g, waitsOf, instrs, n, uses);
    ghost var waits := graph.AddBarrier(n);
    hide Numbered, Tracks, Covered, WaitLists, HazardResolved, AfterWaits;
    assert Inv(g, instrs, n + 1, n, uses, waits) by { BarrierInv(g, instrs, n, uses, waits); }
    forall i: nat | i < n && instrs[i].scoreboard
      ensures HazardResolved(g, instrs, n, waits, i)
    {
      BarrierResolves(g, instrs, n + 1, n, uses, waits, i);
    }
    assert OwnTracked(g, instrs, n, uses);
    UsesBelong(g.owner, uses, n, |g.owner|, []);
    Finish(g, waitsOf, Snapshot(graph), graph.instrWaits, instrs, n, uses, waits);
    ExactRecorded(g, waitsOf, Snapshot(graph), graph.instrWaits, instrs, n, uses, waits);
    hide Branches, Between, Timely, Exact, NeededWaits;
    BranchFlushed(g, Snapshot(graph), graph.instrWaits, instrs, n, uses, waits);
  }

  lemma BranchFlushed(g: Graph, g': Graph, waitsOf: map<nat, seq<nat>>, instrs: seq<Instr>, n: nat, uses: Uses, waits: seq<nat>)
    requires n < |instrs| && Branches(g, instrs, n) && Inv(g, instrs, n + 1, n, uses, []) && Inv(g, instrs, n + 1, n, uses, waits)
    requires (forall d :: d in waits <==> d in g.active) && InRange(waits, |g.deps|) && AfterWaits(g, g', n, waits)
    requires g'.active == {} && Between(g', waitsOf, instrs, n + 1, uses)
    ensures Branches(g', instrs, n + 1)
  {
    NumberedAll(g, instrs, n + 1);
    hide Numbered, Tracks, Covered, WaitLists, AfterWaits, Branches;
    FlushedNow(g, g', instrs, n, uses, waits);
    BranchesStay(g, g', instrs, n, waits);
    BranchesSkip(g', instrs, n);
  }

  lemma BarrierInv(g: Graph, instrs: seq<Instr>, n: nat, uses: Uses, waits: seq<nat>)
    requires n < |instrs| && Inv(g, instrs, n + 1, n, uses, []) && !instrs[n].scoreboard
    requires forall d :: d in waits ==> d in g.active
    ensures Inv(g, instrs, n + 1, n, uses, waits)
  {
    forall d: nat | d in waits
      ensures Signaled(g, d) && g.owner[d].ip < n
    {
      assert NumberedDep(g, d) && NumberedInstr(g, instrs, g.owner[d].ip);
    }
  }

  lemma AllResolve(g: Graph, instrs: seq<Instr>, n: nat, uses: Uses, waits: seq<nat>)
    requires n < |instrs| && Inv(g, instrs, n + 1, n, uses, waits)
    requires AllSettled(g.owner, uses, n, instrs[n].preds + instrs[n].srcs) && AllFresh(g.owner, uses, n, instrs[n].dsts)
    ensures forall i: nat :: i < n && instrs[i].scoreboard ==> HazardResolved(g, instrs, n, waits, i)
  {
    hide *;
    forall i: nat | i < n && instrs[i].scoreboard
      ensures HazardResolved(g, instrs, n, waits, i)
    {
      AccessResolves(g, instrs, n + 1, n, uses, waits, i);
    }
  }

  /** The delay pass covers a fixed-latency instruction; it only waits for what it
      consumes. */
  method VisitFixed(graph: DepGraph, n: nat, instr: Instr, uses0: Uses, ghost instrs: seq<Instr>) returns (uses: Uses)
    requires n < |instrs| && instr == instrs[n] && !instr.scoreboard && !instr.isBranch && Ready(graph, instrs, n, uses0)
    modifies graph
    ensures Ready(graph, instrs, n + 1, uses)
  {
    ghost var g, waitsOf := Snapshot(graph), graph.instrWaits;
    SkipInstr(g, waitsOf, instrs, n, uses0);
    var waits: seq<nat> := [];
    SettledNone(g.owner, uses0, n);
    hide Numbered, Tracks, UsesSignaled, OldUses, AllSettled, AllFresh, Covered, WaitLists, HazardResolved, AfterWaits, Branches, Exact, NeededWaits;
    uses, waits := ClearWrites(instr.preds, uses0, waits, g, instrs, n + 1, n, []);
    assert [] + instr.preds == instr.preds;
    uses, waits := ClearWrites(instr.srcs, uses, waits, g, instrs, n + 1, n, instr.preds);
    uses, waits := Clears(instr.dsts, uses, waits, g, instrs, n + 1, n, instr.preds + instr.srcs);
    AllResolve(g, instrs, n, uses, waits);
    UsesBelong(g.owner, uses, n, |g.owner|, []);
    SignaledInRange(g, waits, n);
    graph.AddWaits(n, waits);
    ExactRecorded(g, waitsOf, Snapshot(graph), graph.instrWaits, instrs, n, uses, waits);
    Finish(g, waitsOf, Snapshot(graph), graph.instrWaits, instrs, n, uses, waits);
    BranchesStay(g, Snapshot(graph), instrs, n, waits);
    BranchesSkip(Snapshot(graph), instrs, n);
  }

  lemma SignaledInRange(g: Graph, waits: seq<nat>, n: nat)
    requires WaitsSignaled(g, waits, n)
    ensures InRange(waits, |g.deps|)
  {
    forall i: nat | i < |waits|
      ensures waits[i] < |g.deps|
    {
      assert waits[i] in waits;
    }
  }

  lemma StartAdding(g: Graph, instrs: seq<Instr>, n: nat, uses: Uses, waits: seq<nat>, settled: seq<Reg>)
    requires n < |instrs| && instrs[n].scoreboard && Inv(g, instrs, n, n, uses, waits)
    requires OldUses(g.owner, uses, n, |g.owner|, []) && AllSettled(g.owner, uses, n, settled)
    ensures Adding(Extended(g, n), instrs, n, uses, waits, |g.deps|, [])
    ensures AllSettled(Extended(g, n).owner, uses, n, settled)
  {
    var g' := Extended(g, n);
    AddInstrNumbers(g, instrs, n);
    AddInstrKeeps(g, instrs, n, uses, waits);
    AddInstrSignals(g, n, uses, waits);
    assert OldUses(g'.owner, uses, n, |g.deps|, []) by {
      hide Numbered, Tracks;
      forall r, d: nat | InUse(uses, r, d)
        ensures d < |g.owner| && g'.owner[d].ip < n
      {
        assert g'.owner[d] == g.owner[d];
      }
    }
    assert AllSettled(g'.owner, uses, n, settled) by {
      hide Numbered, Tracks;
      forall r | r in settled
        ensures Settled(g'.owner, uses, n, r)
      {
        assert Settled(g.owner, uses, n, r);
      }
    }
  }

  lemma StartCovered(g: Graph, waitsOf: map<nat, seq<nat>>, instrs: seq<Instr>, n: nat)
    requires n < |instrs| && instrs[n].scoreboard && Numbered(g, instrs, n)
    requires Covered(g, instrs, n) && WaitLists(g.deps, waitsOf, n)
    ensures Covered(Extended(g, n), instrs, n) && WaitLists(Extended(g, n).deps, waitsOf, n)
  {
    forall i: nat, j: nat | i < j < n && instrs[i].scoreboard
      ensures CoveredPair(Extended(g, n), instrs, i, j)
    {
      assert CoveredPair(g, instrs, i, j);
    }
    forall d: nat, k: nat | d < |g.deps| + 2
      ensures Extended(g, n).deps[d].firstWait == Some(k) <==> k in waitsOf && d in waitsOf[k]
    {
      if k in waitsOf && d in waitsOf[k] {
        assert d < |g.deps|;
      }
      if d < |g.deps| {
        assert g.deps[d].firstWait == Some(k) <==> k in waitsOf && d in waitsOf[k];
      }
    }
  }

  lemma CoveredActive(g: Graph, g': Graph, instrs: seq<Instr>, n: nat)
    requires n <= |instrs| && Covered(g, instrs, n) && g' == g.(active := g'.active)
    ensures Covered(g', instrs, n)
  {
    forall i: nat, j: nat | i < j < n && instrs[i].scoreboard
      ensures CoveredPair(g', instrs, i, j)
    {
      assert CoveredPair(g, instrs, i, j);
    }
  }

  /** After all accesses of a variable-latency instruction. */
  ghost predicate Accessed(g: Graph, instrs: seq<Instr>, n: nat, uses: Uses, waits: seq<nat>, rd: nat)
    requires n < |instrs|
  {
    && Adding(g, instrs, n, uses, waits, rd, instrs[n].dsts)
    && AllSettled(g.owner, uses, n, instrs[n].preds + instrs[n].srcs) && AllFresh(g.owner, uses, n, instrs[n].dsts)
    && (forall r :: r in instrs[n].srcs ==> ReadIn(uses, rd, r) || Use(uses, r) == Write(rd + 1))
    && (forall r :: r in instrs[n].dsts ==> Use(uses, r) == Write(rd + 1))
  }

  lemma AccessedDone(g: Graph, instrs: seq<Instr>, n: nat, uses: Uses, waits: seq<nat>, rd: nat)
    requires n < |instrs| && instrs[n].scoreboard && Accessed(g, instrs, n, uses, waits, rd)
    ensures Inv(g, instrs, n + 1, n, uses, waits) && OwnTracked(g, instrs, n, uses)
    ensures forall i: nat :: i < n && instrs[i].scoreboard ==> HazardResolved(g, instrs, n, waits, i)
    ensures forall r, d: nat :: InUse(uses, r, d) ==> d < |g.owner| && g.owner[d].ip <= n
  {
    assert NumberedInstr(g, instrs, n);
    AllResolve(g, instrs, n, uses, waits);
    UsesBelong(g.owner, uses, n, rd, instrs[n].dsts);
  }

  lemma OwnersCounted(g: Graph, instrs: seq<Instr>, n: nat, uses: Uses)
    requires Inv(g, instrs, n, n, uses, [])
    ensures |g.owner| == |g.deps|
  {
  }

  method AccessVariable(graph: DepGraph, n: nat, instr: Instr, uses0: Uses, ghost instrs: seq<Instr>)
    returns (uses: Uses, waits: seq<nat>)
    requires n < |instrs| && instr == instrs[n] && instr.scoreboard && WellFormed(instrs)
    requires Inv(Snapshot(graph), instrs, n, n, uses0, []) && OldUses(graph.owner, uses0, n, |graph.owner|, [])
    requires Exact(graph.owner, instrs, n, uses0, [])
    modifies graph
    ensures Exact(graph.owner, instrs, n, uses, waits)
    ensures Accessed(Snapshot(graph), instrs, n, uses, waits, old(|graph.deps|))
    ensures Snapshot(graph) == Extended(old(Snapshot(graph)), n).(active := graph.active) && graph.instrWaits == old(graph.instrWaits)
    ensures graph.active <= old(graph.active) + {old(|graph.deps|), old(|graph.deps|) + 1}
  {
    ghost var g0 := Snapshot(graph);
    hide Inv, OldUses, AllSettled, AllFresh, Adding, ReadIn, Exact;
    OwnersCounted(g0, instrs, n, uses0);
    waits := [];
    SettledNone(g0.owner, uses0, n);
    uses, waits := ClearWrites(instr.preds, uses0, waits, g0, instrs, n, n, []);
    assert [] + instr.preds == instr.preds;
    StartAdding(g0, instrs, n, uses, waits, instr.preds);
    var rd, wr := graph.AddInstr(n);
    assert Snapshot(graph) == Extended(g0, n);
    ExactExtended(g0.owner, [Token(n, false), Token(n, true)], instrs, n, uses, waits);
    uses, waits := AddReads(graph, instr.srcs, rd, uses, waits, instrs, n, instr.preds);
    uses, waits := SetWrites(graph, instr.dsts, rd, wr, uses, waits, instrs, n, instr.srcs, instr.preds + instr.srcs);
    assert Snapshot(graph) == Extended(g0, n).(active := graph.active);
  }

  lemma NumberedAll(g: Graph, instrs: seq<Instr>, n: nat)
    requires n <= |instrs| && Numbered(g, instrs, n)
    ensures |g.owner| == |g.deps| && forall i: nat :: i < n && instrs[i].scoreboard ==> i in g.instrDeps
  {
  }

  method VisitVariable(graph: DepGraph, n: nat, instr: Instr, uses0: Uses, ghost instrs: seq<Instr>) returns (uses: Uses)
    requires n < |instrs| && instr == instrs[n] && instr.scoreboard && WellFormed(instrs) && Ready(graph, instrs, n, uses0)
    modifies graph
    ensures Ready(graph, instrs, n + 1, uses)
  {
    ghost var g0, waitsOf := Snapshot(graph), graph.instrWaits;
    StartCovered(g0, waitsOf, instrs, n);
    var waits;
    uses, waits := AccessVariable(graph, n, instr, uses0, instrs);
    ghost var g := Snapshot(graph);
    NumberedAll(g0, instrs, n);
    BranchesExtend(g0, g, instrs, n);
    hide Numbered, Tracks, UsesSignaled, OldUses, Covered, WaitLists, HazardResolved, AfterWaits, Accessed, OwnTracked, Branches, Exact, NeededWaits;
    NeededExtended(g0.owner, [Token(n, false), Token(n, true)], instrs, waitsOf);
    CoveredActive(Extended(g0, n), g, instrs, n);
    AccessedDone(g, instrs, n, uses, waits, |g0.deps|);
    SignaledInRange(g, waits, n);
    graph.AddWaits(n, waits);
    ExactRecorded(g, waitsOf, Snapshot(graph), graph.instrWaits, instrs, n, uses, waits);
    Finish(g, waitsOf, Snapshot(graph), graph.instrWaits, instrs, n, uses, waits);
    BranchesStay(g, Snapshot(graph), instrs, n, waits);
    BranchesSkip(Snapshot(graph), instrs, n);
  }

  lemma ReadyStart(graph: DepGraph, instrs: seq<Instr>)
    requires graph.deps == [] && graph.owner == [] && graph.active == {} && graph.instrDeps == map[] && graph.instrWaits == map[]
    ensures Ready(graph, instrs, 0, map[])
  {
  }

  /** All that the second loop needs of the dependency graph. */
  ghost predicate Planned(g: Graph, waitsOf: map<nat, seq<nat>>, instrs: seq<Instr>) {
    && Numbered(g, instrs, |instrs|) && Timely(g, |instrs|)
    && Covered(g, instrs, |instrs|) && WaitLists(g.deps, waitsOf, |instrs|) && Branches(g, instrs, |instrs|)
    && NeededWaits(g.owner, instrs, waitsOf)
  }

  lemma ReadyEnd(graph: DepGraph, instrs: seq<Instr>, uses: Uses)
    requires Ready(graph, instrs, |instrs|, uses)
    ensures Planned(Snapshot(graph), graph.instrWaits, instrs)
  {
    hide Numbered, Tracks, Covered, WaitLists, Timely, Branches;
  }

  /** The first loop over the stream: which instruction waits on what. */
  method FindWaits(instrs: seq<Instr>) returns (graph: DepGraph)
    requires WellFormed(instrs)
    ensures fresh(graph) && Planned(Snapshot(graph), graph.instrWaits, instrs)
  {
    hide Ready, Planned;
    graph := new DepGraph();
    var uses: Uses := map[];
    ReadyStart(graph, instrs);
    for n := 0 to |instrs|
      invariant fresh(graph) && Ready(graph, instrs, n, uses)
    {
      if instrs[n].isBranch {
        VisitBranch(graph, n, instrs, uses);
      } else if instrs[n].scoreboard {
        uses := VisitVariable(graph, n, instrs[n], uses, instrs);
      } else {
        uses := VisitFixed(graph, n, instrs[n], uses, instrs);
      }
    }
    ReadyEnd(graph, instrs, uses);
  }

  // ---------------------------------------------------------------------------
  // The hardware
  // ---------------------------------------------------------------------------

  const BARS := 6

  /** What the scoreboard part of an emitted instruction says: the barriers to wait
      on before issue, and those its reads and its writes signal. */
  datatype InstrDeps = InstrDeps(wtMask: set<nat>, rdBar: Option<nat>, wrBar: Option<nat>)

  /** The accesses each barrier still stands for, and those known to be over. */
  datatype Board = Board(bars: seq<set<Token>>, done: set<Token>)

  ghost function Outstanding(b: Board, mask: set<nat>): set<Token> {
    set k, t | 0 <= k < |b.bars| && k in mask && t in b.bars[k] :: t
  }

  /** An instruction stalls until the barriers in its mask have cleared. */
  ghost function Stall(b: Board, mask: set<nat>): (r: Board)
    ensures |r.bars| == |b.bars|
  {
    Board(seq(|b.bars|, k requires 0 <= k < |b.bars| => if k in mask then {} else b.bars[k]), b.done + Outstanding(b, mask))
  }

  ghost function Signal(b: Board, bar: Option<nat>, t: Token): (r: Board)
    ensures |r.bars| == |b.bars|
  {
    if bar.Some? && bar.value < |b.bars| then b.(bars := b.bars[bar.value := b.bars[bar.value] + {t}]) else b
  }

  ghost function Issue(b: Board, ip: nat, d: InstrDeps): Board {
    Signal(Signal(Stall(b, d.wtMask), d.rdBar, Token(ip, false)), d.wrBar, Token(ip, true))
  }

  ghost function EmptyBoard(): Board {
    Board(seq(BARS, k => {}), {})
  }

  /** The scoreboard after the instructions of `code` have issued in order. */
  ghost function RunBoard(code: seq<InstrDeps>): (b: Board)
    ensures |b.bars| == BARS
  {
    if code == [] then EmptyBoard() else Issue(RunBoard(code[..|code| - 1]), |code| - 1, code[|code| - 1])
  }

  // ---------------------------------------------------------------------------
  // Barrier allocation
  // ---------------------------------------------------------------------------

  /** Each barrier's dependency, if it has one. */
  class BarAlloc {
    var barDep: seq<Option<nat>>

    constructor ()
      ensures barDep == seq(BARS, k => None)
    {
      barDep := seq(BARS, k => None);
    }

    predicate BarIsFree(bar: nat)
      requires bar < |barDep|
      reads this
    {
      barDep[bar].None?
    }

    method SetBarDep(bar: nat, dep: nat)
      requires bar < |barDep| && BarIsFree(bar)
      modifies this
      ensures barDep == old(barDep)[bar := Some(dep)]
    {
      barDep := barDep[bar := Some(dep)];
    }

    method FreeBar(bar: nat)
      requires bar < |barDep| && !BarIsFree(bar)
      modifies this
      ensures barDep == old(barDep)[bar := None]
    {
      barDep := barDep[bar := None];
    }

    method TryFindFreeBar() returns (bar: Option<nat>)
      ensures bar.Some? ==> bar.value < |barDep| && BarIsFree(bar.value) && forall b :: 0 <= b < bar.value ==> !BarIsFree(b)
      ensures bar.None? ==> forall b :: 0 <= b < |barDep| ==> !BarIsFree(b)
    {
      for b := 0 to |barDep|
        invariant forall c :: 0 <= c < b ==> !BarIsFree(c)
      {
        if BarIsFree(b) { return Some(b); }
      }
      return None;
    }

    /** Steal the barrier of the oldest dependency. */
    method FreeSomeBar() returns (bar: nat)
      requires |barDep| == BARS && forall b :: 0 <= b < BARS ==> barDep[b].Some?
      modifies this
      ensures bar < BARS && barDep == old(barDep)[bar := None]
      ensures forall b :: 0 <= b < BARS ==> old(barDep)[bar].value <= old(barDep)[b].value
    {
      bar := 0;
      for b := 1 to BARS
        invariant bar < BARS && barDep == old(barDep) && forall c :: 0 <= c < b ==> barDep[bar].value <= barDep[c].value
      {
        if barDep[b].value < barDep[bar].value { bar := b; }
      }
      FreeBar(bar);
    }

    method GetBarForDep(dep: nat) returns (bar: Option<nat>)
      ensures bar.Some? ==> bar.value < |barDep| && barDep[bar.value] == Some(dep)
      ensures bar.None? ==> Some(dep) !in barDep
    {
      for b := 0 to |barDep|
        invariant forall c :: 0 <= c < b ==> barDep[c] != Some(dep)
      {
        if barDep[b] == Some(dep) { return Some(b); }
      }
      return None;
    }
  }

  /** Which dependency each barrier stands for, and the board it leaves: a used
      barrier stands for exactly one access, still to be waited on after `k`. */
  ghost predicate Stands(g: Graph, barDep: seq<Option<nat>>, b: nat, bars: seq<set<Token>>, k: nat)
    requires b < |barDep| == |bars|
  {
    match barDep[b]
    case None => bars[b] == {}
    case Some(d) =>
      && d < |g.deps| == |g.owner| && bars[b] == {g.owner[d]}
      && g.deps[d].firstWait.Some? && g.deps[d].firstWait.value >= k
  }

  /** No access that has to be waited on after instruction `d`'s issue is lost. */
  ghost predicate Held(g: Graph, barDep: seq<Option<nat>>, done: set<Token>, d: nat)
    requires d < |g.deps| == |g.owner|
  {
    g.deps[d].firstWait.Some? ==> g.owner[d] in done || Some(d) in barDep
  }

  /** Barriers stand for different dependencies; those before `n` are held, and
      none from `n` on is in use yet. */
  ghost predicate BarInv(g: Graph, barDep: seq<Option<nat>>, board: Board, n: nat, k: nat) {
    && |barDep| == |board.bars| == BARS && |g.deps| == |g.owner| && n <= |g.deps|
    && (forall b: nat :: b < BARS ==> Stands(g, barDep, b, board.bars, k))
    && (forall b: nat :: b < BARS && barDep[b].Some? ==> barDep[b].value < n)
    && (forall b: nat, c: nat :: b < c < BARS && barDep[b].Some? ==> barDep[b] != barDep[c])
    && (forall d: nat :: d < n ==> Held(g, barDep, board.done, d))
  }

  /** Board `b` is `a` after barrier `bar` has cleared. */
  ghost predicate Cleared(a: Board, b: Board, bar: nat) {
    bar < |a.bars| && b.bars == a.bars[bar := {}] && a.done + a.bars[bar] <= b.done
  }

  lemma ClearedKeeps(g: Graph, barDep: seq<Option<nat>>, a: Board, b: Board, n: nat, k: nat, bar: nat)
    requires BarInv(g, barDep, a, n, k) && Cleared(a, b, bar)
    ensures BarInv(g, barDep[bar := None], b, n, k)
  {
    var barDep' := barDep[bar := None];
    forall c: nat | c < BARS
      ensures Stands(g, barDep', c, b.bars, k)
    {
      assert Stands(g, barDep, c, a.bars, k);
    }
    forall d: nat | d < n
      ensures Held(g, barDep', b.done, d)
    {
      assert Held(g, barDep, a.done, d);
      if barDep[bar] == Some(d) {
        assert Stands(g, barDep, bar, a.bars, k);
        assert g.owner[d] in a.bars[bar];
      } else if Some(d) in barDep {
        var c :| 0 <= c < |barDep| && barDep[c] == Some(d);
        assert barDep'[c] == Some(d);
      }
    }
  }

  lemma StallNone(board: Board)
    ensures Stall(board, {}) == board
  {
    assert Stall(board, {}).bars == board.bars;
    assert Outstanding(board, {}) == {};
  }

  lemma StallMore(board: Board, mask: set<nat>, bar: nat, rdBar: Option<nat>, t: Token)
    requires bar < |board.bars| && rdBar != Some(bar)
    ensures Cleared(Signal(Stall(board, mask), rdBar, t), Signal(Stall(board, mask + {bar}), rdBar, t), bar)
  {
    var a, b := Stall(board, mask), Stall(board, mask + {bar});
    assert b.bars == a.bars[bar := {}];
    forall x | x in a.done + a.bars[bar]
      ensures x in b.done
    {
    }
    assert Signal(b, rdBar, t).bars == Signal(a, rdBar, t).bars[bar := {}];
  }

  lemma WaitedGone(g: Graph, barDep: seq<Option<nat>>, board: Board, n: nat, k: nat)
    requires BarInv(g, barDep, board, n, k)
    requires forall d: nat :: d < |g.deps| && g.deps[d].firstWait == Some(k) ==> Some(d) !in barDep
    ensures BarInv(g, barDep, board, n, k + 1)
  {
    var next := k + 1;
    forall b: nat | b < BARS
      ensures Stands(g, barDep, b, board.bars, next)
    {
      assert Stands(g, barDep, b, board.bars, k);
      if barDep[b].Some? { assert Some(barDep[b].value) in barDep; }
    }
  }

  lemma FreedGone(barDep: seq<Option<nat>>, bar: nat, gone: seq<nat>)
    requires bar < |barDep| && barDep[bar].Some?
    requires forall b: nat, c: nat :: b < c < |barDep| && barDep[b].Some? ==> barDep[b] != barDep[c]
    requires forall d :: d in gone ==> Some(d) !in barDep
    ensures forall d :: d in gone + [barDep[bar].value] ==> Some(d) !in barDep[bar := None]
  {
    var barDep' := barDep[bar := None];
    forall d | d in gone + [barDep[bar].value]
      ensures Some(d) !in barDep'
    {
      forall c: nat | c < |barDep'|
        ensures barDep'[c] != Some(d)
      {
        assert barDep[c] in barDep;
      }
    }
  }

  /** Barrier `bar` stands for one of the dependencies waited on. */
  ghost predicate WaitedBar(barDep: seq<Option<nat>>, waits: seq<nat>, bar: nat) {
    bar < |barDep| && barDep[bar].Some? && barDep[bar].value in waits
  }

  /** Every barrier is busy: there is none to give out. */
  ghost predicate AllBusy(b: Board) {
    forall c: nat :: c < |b.bars| ==> b.bars[c] != {}
  }

  lemma AllStand(g: Graph, barDep: seq<Option<nat>>, board: Board, n: nat, k: nat)
    requires BarInv(g, barDep, board, n, k) && forall b: nat :: b < BARS ==> barDep[b].Some?
    ensures AllBusy(board)
  {
    forall c: nat | c < |board.bars|
      ensures board.bars[c] != {}
    {
      assert Stands(g, barDep, c, board.bars, k);
      assert g.owner[barDep[c].value] in board.bars[c];
    }
  }

  /** The waits recorded for one instruction: the mask of their barriers. */
  method WaitMask(bars: BarAlloc, waits: seq<nat>, ghost g: Graph, ghost board: Board, ghost n: nat, ghost k: nat)
    returns (mask: set<nat>)
    requires BarInv(g, bars.barDep, board, n, k)
    modifies bars
    ensures BarInv(g, bars.barDep, Stall(board, mask), n, k)
    ensures forall b :: b in mask ==> b < BARS
    ensures forall d :: d in waits ==> Some(d) !in bars.barDep
    ensures forall b: nat :: b in mask ==> WaitedBar(old(bars.barDep), waits, b)
  {
    mask := {};
    StallNone(board);
    for i := 0 to |waits|
      invariant BarInv(g, bars.barDep, Stall(board, mask), n, k)
      invariant forall b :: b in mask ==> b < BARS
      invariant forall d :: d in waits[..i] ==> Some(d) !in bars.barDep
      invariant |bars.barDep| == old(|bars.barDep|) && forall b: nat :: b in mask ==> WaitedBar(old(bars.barDep), waits, b)
      invariant forall b: nat :: b < |bars.barDep| ==> bars.barDep[b].None? || bars.barDep[b] == old(bars.barDep)[b]
    {
      hide Stands, Held, Stall;
      assert waits[..i + 1] == waits[..i] + [waits[i]];
      var bar := bars.GetBarForDep(waits[i]);
      if bar.Some? {
        FreedGone(bars.barDep, bar.value, waits[..i]);
        StallMore(board, mask, bar.value, None, Token(0, false));
        ClearedKeeps(g, bars.barDep, Stall(board, mask), Stall(board, mask + {bar.value}), n, k, bar.value);
        mask := mask + {bar.value};
        bars.FreeBar(bar.value);
      }
    }
    assert waits[..|waits|] == waits;
  }

  lemma PlaceKeeps(g: Graph, barDep: seq<Option<nat>>, board: Board, n: nat, k: nat, bar: nat)
    requires BarInv(g, barDep, board, n, k) && n < |g.deps| && bar < BARS && barDep[bar].None?
    requires g.deps[n].firstWait.Some? && g.deps[n].firstWait.value >= k
    ensures BarInv(g, barDep[bar := Some(n)], Signal(board, Some(bar), g.owner[n]), n + 1, k)
  {
    var barDep', board' := barDep[bar := Some(n)], Signal(board, Some(bar), g.owner[n]);
    forall c: nat | c < BARS
      ensures Stands(g, barDep', c, board'.bars, k)
    {
      assert Stands(g, barDep, c, board.bars, k);
    }
    forall d: nat | d < n + 1
      ensures Held(g, barDep', board'.done, d)
    {
      if d == n {
        assert barDep'[bar] == Some(n);
      } else {
        assert Held(g, barDep, board.done, d);
        if Some(d) in barDep {
          var c :| 0 <= c < |barDep| && barDep[c] == Some(d);
          assert barDep'[c] == Some(d);
        }
      }
    }
  }

  lemma SkipKeeps(g: Graph, barDep: seq<Option<nat>>, board: Board, n: nat, k: nat)
    requires BarInv(g, barDep, board, n, k) && n < |g.deps| && g.deps[n].firstWait.None?
    ensures BarInv(g, barDep, board, n + 1, k)
  {
    assert Held(g, barDep, board.done, n);
    forall d: nat | d < n + 1
      ensures Held(g, barDep, board.done, d)
    {
    }
  }

  lemma OldestIsOld(g: Graph, barDep: seq<Option<nat>>, board: Board, n: nat, k: nat, bar: nat, own: nat)
    requires BarInv(g, barDep, board, n, k) && bar < BARS && own < BARS
    requires forall b :: 0 <= b < BARS ==> barDep[b].Some?
    requires forall b :: 0 <= b < BARS ==> barDep[bar].value <= barDep[b].value
    requires barDep[own] == Some(n - 1)
    ensures bar != own
  {
    var c := if own == 0 then 1 else 0;
    assert barDep[c] != barDep[own];
    assert barDep[c].value < n;
  }

  /** A free barrier, or the oldest one, waited on first. */
  method TakeBar(bars: BarAlloc, mask0: set<nat>, ghost g: Graph, ghost board: Board, ghost n: nat, ghost k: nat,
                 ghost rdBar: Option<nat>, ghost t: Token)
    returns (bar: nat, mask: set<nat>)
    requires BarInv(g, bars.barDep, Signal(Stall(board, mask0), rdBar, t), n, k)
    requires rdBar.Some? ==> rdBar.value < BARS && bars.barDep[rdBar.value] == Some(n - 1)
    requires forall b :: b in mask0 ==> b < BARS
    modifies bars
    ensures BarInv(g, bars.barDep, Signal(Stall(board, mask), rdBar, t), n, k)
    ensures bar < BARS == |bars.barDep| && bars.barDep[bar].None? && rdBar != Some(bar) && mask0 <= mask && forall b :: b in mask ==> b < BARS
    ensures mask == mask0 || (mask == mask0 + {bar} && AllBusy(Signal(Stall(board, mask0), rdBar, t)))
  {
    mask := mask0;
    var free := bars.TryFindFreeBar();
    if free.Some? {
      bar := free.value;
    } else {
      hide Stands, Held, Stall, Signal, AllBusy;
      ghost var a := Signal(Stall(board, mask), rdBar, t);
      ghost var barDep := bars.barDep;
      forall b: nat | b < BARS
        ensures barDep[b].Some?
      {
        assert !bars.BarIsFree(b);
      }
      AllStand(g, barDep, a, n, k);
      bar := bars.FreeSomeBar();
      if rdBar.Some? { OldestIsOld(g, barDep, a, n, k, bar, rdBar.value); }
      StallMore(board, mask, bar, rdBar, t);
      mask := mask + {bar};
      ClearedKeeps(g, barDep, a, Signal(Stall(board, mask), rdBar, t), n, k, bar);
    }
  }

  /** Instructions before `k` own exactly the dependencies before `n`. */
  ghost predicate Before(owner: seq<Token>, n: nat, k: nat) {
    n <= |owner| && forall d: nat :: d < |owner| ==> (d < n <==> owner[d].ip < k)
  }

  lemma BeforeSkip(g: Graph, instrs: seq<Instr>, n: nat, k: nat)
    requires Numbered(g, instrs, |instrs|) && k < |instrs| && !instrs[k].scoreboard && Before(g.owner, n, k)
    ensures Before(g.owner, n, k + 1)
  {
    forall d: nat | d < |g.owner|
      ensures g.owner[d].ip != k
    {
      assert NumberedDep(g, d) && NumberedInstr(g, instrs, g.owner[d].ip);
    }
  }

  lemma BeforeNext(g: Graph, instrs: seq<Instr>, n: nat, k: nat)
    requires Numbered(g, instrs, |instrs|) && k < |instrs| && instrs[k].scoreboard && Before(g.owner, n, k)
    ensures k in g.instrDeps && g.instrDeps[k] == (n, n + 1) && n + 1 < |g.deps| == |g.owner|
    ensures g.owner[n] == Token(k, false) && g.owner[n + 1] == Token(k, true)
    ensures Before(g.owner, n + 2, k + 1)
  {
    assert NumberedInstr(g, instrs, k);
    var (rd, wr) := g.instrDeps[k];
    assert NumberedDep(g, n);
    if n < rd { assert g.owner[n].ip <= g.owner[rd].ip; }
    forall d: nat | d < |g.owner|
      ensures g.owner[d].ip == k <==> d == rd || d == wr
    {
      assert NumberedDep(g, d);
    }
    forall d: nat | d < |g.owner|
      ensures d < n + 2 <==> g.owner[d].ip < k + 1
    {
    }
  }

  // ---------------------------------------------------------------------------
  // What the emitted barriers guarantee
  // ---------------------------------------------------------------------------

  /** When instruction `j` gets past its waits, every access before it that it
      must follow is over.  (Operands are read before results are written.) */
  ghost predicate Protected(instrs: seq<Instr>, code: seq<InstrDeps>, j: nat)
    requires j < |code| <= |instrs|
  {
    var done := Stall(RunBoard(code[..j]), code[j].wtMask).done;
    forall i: nat :: i < j && instrs[i].scoreboard ==>
      && (OnResult(instrs[i], instrs[j]) ==> Token(i, true) in done)
      && (OnOperand(instrs[i], instrs[j]) ==> Token(i, false) in done || Token(i, true) in done)
  }

  ghost predicate Clear1(b: Board, bar: Option<nat>) {
    bar.Some? ==> bar.value < |b.bars| && b.bars[bar.value] == {}
  }

  /** Instruction `j` names existing barriers, signals only barriers with nothing
      outstanding, and never one barrier for both its reads and its writes. */
  ghost predicate Unshared(code: seq<InstrDeps>, j: nat)
    requires j < |code|
  {
    var b := Stall(RunBoard(code[..j]), code[j].wtMask);
    && (forall bar :: bar in code[j].wtMask ==> bar < BARS)
    && Clear1(b, code[j].rdBar) && Clear1(b, code[j].wrBar)
    && (code[j].rdBar.Some? ==> code[j].rdBar != code[j].wrBar)
  }

  /** A dependency whose first wait is not behind `j` is over once `j` is past its
      waits. */
  lemma WaitOver(g: Graph, barDep: seq<Option<nat>>, board: Board, n: nat, j: nat, d: nat)
    requires BarInv(g, barDep, board, n, j + 1) && d < n && g.deps[d].firstWait.Some? && g.deps[d].firstWait.value <= j
    ensures g.owner[d] in board.done
  {
    var next := j + 1;
    assert Held(g, barDep, board.done, d);
    forall b: nat | b < BARS
      ensures barDep[b] != Some(d)
    {
      assert Stands(g, barDep, b, board.bars, next);
    }
  }

  lemma WaitsOver(g: Graph, instrs: seq<Instr>, barDep: seq<Option<nat>>, board: Board, n: nat, j: nat, i: nat)
    requires BarInv(g, barDep, board, n, j + 1) && Numbered(g, instrs, |instrs|) && Before(g.owner, n, j + 1)
    requires i < j < |instrs| && instrs[i].scoreboard
    ensures NumberedInstr(g, instrs, i)
    ensures WaitedBy(g.deps, g.owner, g.instrDeps[i].1, j) ==> Token(i, true) in board.done
    ensures WaitedBy(g.deps, g.owner, g.instrDeps[i].0, j) ==> Token(i, false) in board.done || Token(i, true) in board.done
  {
    assert NumberedInstr(g, instrs, i);
    hide BarInv, Numbered;
    var (rd, wr) := g.instrDeps[i];
    if g.deps[wr].firstWait.Some? && g.deps[wr].firstWait.value <= j { WaitOver(g, barDep, board, n, j, wr); }
    if g.deps[rd].firstWait.Some? && g.deps[rd].firstWait.value <= j { WaitOver(g, barDep, board, n, j, rd); }
  }

  lemma PastWaits(g: Graph, instrs: seq<Instr>, barDep: seq<Option<nat>>, board: Board, n: nat, j: nat, i: nat)
    requires BarInv(g, barDep, board, n, j + 1) && Numbered(g, instrs, |instrs|) && Before(g.owner, n, j + 1)
    requires i < j < |instrs| && instrs[i].scoreboard && Covered(g, instrs, |instrs|)
    ensures OnResult(instrs[i], instrs[j]) ==> Token(i, true) in board.done
    ensures OnOperand(instrs[i], instrs[j]) ==> Token(i, false) in board.done || Token(i, true) in board.done
  {
    assert CoveredPair(g, instrs, i, j);
    hide OnResult, OnOperand, BarInv, Numbered, WaitedBy;
    WaitsOver(g, instrs, barDep, board, n, j, i);
  }

  /** At a branch nothing is left in any barrier. */
  lemma PastBranch(g: Graph, instrs: seq<Instr>, barDep: seq<Option<nat>>, board: Board, n: nat, j: nat)
    requires BarInv(g, barDep, board, n, j + 1) && Numbered(g, instrs, |instrs|) && Before(g.owner, n, j + 1)
    requires j < |instrs| && instrs[j].isBranch && !instrs[j].scoreboard && Branches(g, instrs, |instrs|)
    ensures forall b: nat :: b < BARS ==> board.bars[b] == {}
    ensures forall i: nat :: i < j && instrs[i].scoreboard ==> FlushedPair(g, instrs, i, j)
  {
    BeforeBranch(g, instrs, n, j);
    assert Flushed(g, instrs, j);
    var next := j + 1;
    forall d: nat | d < n
      ensures !(g.deps[d].firstWait.Some? && g.deps[d].firstWait.value >= next)
    {
      assert ClosedDep(g, d, j);
    }
    forall b: nat | b < BARS
      ensures board.bars[b] == {}
    {
      assert Stands(g, barDep, b, board.bars, next);
    }
  }

  lemma BeforeBranch(g: Graph, instrs: seq<Instr>, n: nat, j: nat)
    requires Numbered(g, instrs, |instrs|) && j < |instrs| && !instrs[j].scoreboard && Before(g.owner, n, j + 1)
    ensures forall d: nat :: d < n && d < |g.owner| ==> g.owner[d].ip < j
  {
    forall d: nat | d < n && d < |g.owner|
      ensures g.owner[d].ip < j
    {
      assert NumberedDep(g, d) && NumberedInstr(g, instrs, g.owner[d].ip);
    }
  }

  lemma TakenClear(g: Graph, barDep: seq<Option<nat>>, board: Board, n: nat, k: nat, bar: nat)
    requires BarInv(g, barDep, board, n, k) && bar < BARS && barDep[bar].None?
    ensures board.bars[bar] == {}
  {
    assert Stands(g, barDep, bar, board.bars, k);
  }

  /** The barriers one side of a variable-latency instruction signals: none if
      nobody waits for it. */
  method SignalBar(graph: DepGraph, bars: BarAlloc, dep: nat, mask0: set<nat>, ghost g: Graph, ghost board: Board, k: nat,
                   ghost rdBar: Option<nat>, ghost t: Token)
    returns (bar: Option<nat>, mask: set<nat>)
    requires g == Snapshot(graph) && dep < |g.deps| == |g.owner| && g.owner[dep].ip == k
    requires g.deps[dep].firstWait.Some? ==> g.deps[dep].firstWait.value > k
    requires BarInv(g, bars.barDep, Signal(Stall(board, mask0), rdBar, t), dep, k + 1)
    requires rdBar.Some? ==> rdBar.value < BARS && bars.barDep[rdBar.value] == Some(dep - 1)
    requires forall b :: b in mask0 ==> b < BARS
    modifies bars
    ensures BarInv(g, bars.barDep, Signal(Signal(Stall(board, mask), rdBar, t), bar, g.owner[dep]), dep + 1, k + 1)
    ensures bar.Some? ==> bar.value < BARS && bars.barDep[bar.value] == Some(dep) && bar != rdBar
    ensures bar.Some? ==> Signal(Stall(board, mask), rdBar, t).bars[bar.value] == {}
    ensures mask0 <= mask && forall b :: b in mask ==> b < BARS
    ensures mask == mask0 || (bar.Some? && mask == mask0 + {bar.value} && AllBusy(Signal(Stall(board, mask0), rdBar, t)))
  {
    hide BarInv, Signal, Stall, AllBusy;
    bar, mask := None, mask0;
    if graph.DepIsWaitedAfter(dep, k) {
      var taken;
      taken, mask := TakeBar(bars, mask, g, board, dep, k + 1, rdBar, t);
      TakenClear(g, bars.barDep, Signal(Stall(board, mask), rdBar, t), dep, k + 1, taken);
      PlaceKeeps(g, bars.barDep, Signal(Stall(board, mask), rdBar, t), dep, k + 1, taken);
      bars.SetBarDep(taken, dep);
      bar := Some(taken);
    } else {
      SkipKeeps(g, bars.barDep, Signal(Stall(board, mask), rdBar, t), dep, k + 1);
      SignalNone(Signal(Stall(board, mask), rdBar, t), g.owner[dep]);
    }
  }

  lemma SignalNone(b: Board, t: Token)
    ensures Signal(b, None, t) == b
  {
  }

  lemma UnsharedNow(b: Board, rdBar: Option<nat>, wrBar: Option<nat>, t: Token, mask: set<nat>, mask': set<nat>)
    requires mask <= mask' && (rdBar.Some? ==> rdBar.value < |b.bars|)
    requires rdBar.Some? ==> Stall(b, mask).bars[rdBar.value] == {} && rdBar != wrBar
    requires wrBar.Some? ==> wrBar.value < |b.bars| && Signal(Stall(b, mask'), rdBar, t).bars[wrBar.value] == {}
    ensures Clear1(Stall(b, mask'), rdBar) && Clear1(Stall(b, mask'), wrBar)
  {
  }

  lemma PlannedWaits(graph: DepGraph, instrs: seq<Instr>, k: nat)
    requires Planned(Snapshot(graph), graph.instrWaits, instrs)
    ensures |graph.deps| == |graph.owner|
    ensures forall e: nat :: e < |graph.deps| && graph.deps[e].firstWait == Some(k) ==> e in graph.GetInstrWaits(k)
    ensures forall e: nat :: e < |graph.deps| && graph.deps[e].firstWait.Some? ==> graph.owner[e].ip < graph.deps[e].firstWait.value
  {
  }

  /** `bar` is waited on to be given out again: no barrier was idle but the one the
      instruction took for its operands. */
  ghost predicate Stolen(b: Board, d: InstrDeps, bar: nat) {
    && (d.rdBar == Some(bar) || d.wrBar == Some(bar))
    && forall c: nat :: c < |b.bars| ==> b.bars[c] != {} || d.rdBar == Some(c)
  }

  lemma BusyStolen(b: Board, d: InstrDeps, mask: set<nat>, mask': set<nat>, t: Token)
    requires mask' == mask || (d.rdBar.Some? && mask' == mask + {d.rdBar.value} && AllBusy(Stall(b, mask)))
    requires d.wtMask == mask' || (d.wrBar.Some? && d.wtMask == mask' + {d.wrBar.value} && AllBusy(Signal(Stall(b, mask'), d.rdBar, t)))
    ensures forall bar: nat :: bar in d.wtMask && bar !in mask ==> Stolen(b, d, bar)
  {
    if AllBusy(Stall(b, mask)) {
      forall c: nat | c < |b.bars|
        ensures b.bars[c] != {}
      {
        assert Stall(b, mask).bars[c] != {};
      }
    }
    if AllBusy(Signal(Stall(b, mask'), d.rdBar, t)) {
      forall c: nat | c < |b.bars|
        ensures b.bars[c] != {} || d.rdBar == Some(c)
      {
        assert Signal(Stall(b, mask'), d.rdBar, t).bars[c] != {};
      }
    }
  }

  /** The access is one instruction `j` has to follow. */
  ghost predicate Hazardous(instrs: seq<Instr>, t: Token, j: nat) {
    t.ip < j < |instrs| && if t.write then OnResult(instrs[t.ip], instrs[j]) else OnOperand(instrs[t.ip], instrs[j])
  }

  /** Instruction `j` waits on a barrier only for an access it has to follow, or to
      take the barrier when there is no other; a branch waits on anything. */
  ghost predicate Warranted(instrs: seq<Instr>, b: Board, j: nat, d: InstrDeps)
    requires j < |instrs|
  {
    forall bar: nat :: bar in d.wtMask ==>
      || instrs[j].isBranch || Stolen(b, d, bar)
      || (bar < |b.bars| && exists t :: t in b.bars[bar] && Hazardous(instrs, t, j))
  }

  lemma WaitedHazard(g: Graph, waitsOf: map<nat, seq<nat>>, instrs: seq<Instr>, barDep: seq<Option<nat>>, board: Board, n: nat, k: nat, bar: nat)
    requires Planned(g, waitsOf, instrs) && BarInv(g, barDep, board, n, k) && k < |instrs| && !instrs[k].isBranch
    requires k in waitsOf && WaitedBar(barDep, waitsOf[k], bar)
    ensures bar < |board.bars| && exists t :: t in board.bars[bar] && Hazardous(instrs, t, k)
  {
    var d := barDep[bar].value;
    assert Stands(g, barDep, bar, board.bars, k);
    assert Needed(g.owner, instrs, k, d);
    assert g.deps[d].firstWait == Some(k);
    assert g.owner[d] in board.bars[bar] && Hazardous(instrs, g.owner[d], k);
  }

  /** The barriers a variable-latency instruction signals. */
  method EmitBars(graph: DepGraph, bars: BarAlloc, k: nat, mask: set<nat>, ghost board: Board, ghost n: nat)
    returns (d: InstrDeps)
    requires k in graph.instrDeps && graph.instrDeps[k] == (n, n + 1) && n + 1 < |graph.deps| == |graph.owner|
    requires graph.owner[n] == Token(k, false) && graph.owner[n + 1] == Token(k, true)
    requires graph.deps[n].firstWait.Some? ==> k < graph.deps[n].firstWait.value
    requires graph.deps[n + 1].firstWait.Some? ==> k < graph.deps[n + 1].firstWait.value
    requires BarInv(Snapshot(graph), bars.barDep, Stall(board, mask), n, k + 1)
    requires forall b :: b in mask ==> b < BARS
    modifies bars
    ensures BarInv(Snapshot(graph), bars.barDep, Issue(board, k, d), n + 2, k + 1)
    ensures forall bar :: bar in d.wtMask ==> bar < BARS
    ensures Clear1(Stall(board, d.wtMask), d.rdBar) && Clear1(Stall(board, d.wtMask), d.wrBar)
    ensures d.rdBar.Some? ==> d.rdBar != d.wrBar
    ensures forall bar: nat :: bar in d.wtMask && bar !in mask ==> Stolen(board, d, bar)
  {
    ghost var g := Snapshot(graph);
    assert |board.bars| == BARS;
    hide BarInv, Stall, Signal, AllBusy, Stolen;
    ghost var t := Token(k, false);
    SignalNone(Stall(board, mask), t);
    var (rd, wr) := graph.instrDeps[k];
    var rdBar, wrBar, mask1, mask2;
    rdBar, mask1 := SignalBar(graph, bars, rd, mask, g, board, k, None, t);
    SignalNone(Stall(board, mask1), t);
    wrBar, mask2 := SignalBar(graph, bars, wr, mask1, g, board, k, rdBar, t);
    UnsharedNow(board, rdBar, wrBar, t, mask1, mask2);
    d := InstrDeps(mask2, rdBar, wrBar);
    BusyStolen(board, d, mask, mask1, t);
  }

  lemma MaskWarranted(g: Graph, waitsOf: map<nat, seq<nat>>, instrs: seq<Instr>, barDep: seq<Option<nat>>, board: Board, n: nat, k: nat,
                      mask: set<nat>, d: InstrDeps)
    requires Planned(g, waitsOf, instrs) && BarInv(g, barDep, board, n, k) && k < |instrs|
    requires forall bar: nat :: bar in mask ==> WaitedBar(barDep, if k in waitsOf then waitsOf[k] else [], bar)
    requires forall bar: nat :: bar in d.wtMask && bar !in mask ==> Stolen(board, d, bar)
    ensures Warranted(instrs, board, k, d)
  {
    hide Planned, BarInv, Stolen, Hazardous;
    forall bar: nat | bar in d.wtMask && bar in mask && !instrs[k].isBranch
      ensures bar < |board.bars| && exists t :: t in board.bars[bar] && Hazardous(instrs, t, k)
    {
      WaitedHazard(g, waitsOf, instrs, barDep, board, n, k, bar);
    }
  }

  /** The scoreboard fields of one instruction. */
  method Emit(graph: DepGraph, bars: BarAlloc, k: nat, scoreboard: bool,
              ghost instrs: seq<Instr>, ghost board: Board, ghost n: nat)
    returns (d: InstrDeps, ghost n': nat)
    requires Planned(Snapshot(graph), graph.instrWaits, instrs) && k < |instrs| && scoreboard == instrs[k].scoreboard
    requires BarInv(Snapshot(graph), bars.barDep, board, n, k) && Before(graph.owner, n, k)
    modifies bars
    ensures BarInv(Snapshot(graph), bars.barDep, Issue(board, k, d), n', k + 1) && Before(graph.owner, n', k + 1)
    ensures forall bar :: bar in d.wtMask ==> bar < BARS
    ensures Clear1(Stall(board, d.wtMask), d.rdBar) && Clear1(Stall(board, d.wtMask), d.wrBar)
    ensures d.rdBar.Some? ==> d.rdBar != d.wrBar
    ensures !scoreboard ==> d.rdBar.None? && d.wrBar.None?
    ensures Warranted(instrs, board, k, d)
  {
    ghost var g := Snapshot(graph);
    PlannedWaits(graph, instrs, k);
    hide BarInv, Before, Stall, Signal, Planned, Stolen, WaitedBar, Warranted;
    ghost var barDep := bars.barDep;
    var mask := WaitMask(bars, graph.GetInstrWaits(k), g, board, n, k);
    WaitedGone(g, bars.barDep, Stall(board, mask), n, k);
    if scoreboard {
      BeforeNext(g, instrs, n, k);
      d := EmitBars(graph, bars, k, mask, board, n);
      n' := n + 2;
    } else {
      BeforeSkip(g, instrs, n, k);
      SignalNone(Stall(board, mask), Token(k, false));
      SignalNone(Stall(board, mask), Token(k, true));
      d, n' := InstrDeps(mask, None, None), n;
    }
    MaskWarranted(g, graph.instrWaits, instrs, barDep, board, n, k, mask, d);
  }

  lemma RunNext(code: seq<InstrDeps>, d: InstrDeps)
    ensures RunBoard(code + [d]) == Issue(RunBoard(code), |code|, d)
  {
    assert (code + [d])[..|code|] == code;
  }

  lemma ProtectedNext(g: Graph, waitsOf: map<nat, seq<nat>>, instrs: seq<Instr>, barDep: seq<Option<nat>>, code: seq<InstrDeps>, d: InstrDeps, n: nat)
    requires |code| < |instrs| && Planned(g, waitsOf, instrs) && Before(g.owner, n, |code| + 1)
    requires BarInv(g, barDep, Issue(RunBoard(code), |code|, d), n, |code| + 1)
    ensures Protected(instrs, code + [d], |code|)
  {
    var j := |code|;
    hide BarInv, Before, Numbered, Covered, Timely, WaitLists, OnResult, OnOperand;
    assert (code + [d])[..j] == code;
    forall i: nat | i < j && instrs[i].scoreboard
      ensures OnResult(instrs[i], instrs[j]) ==> Token(i, true) in Issue(RunBoard(code), j, d).done
      ensures OnOperand(instrs[i], instrs[j]) ==>
                Token(i, false) in Issue(RunBoard(code), j, d).done || Token(i, true) in Issue(RunBoard(code), j, d).done
    {
      PastWaits(g, instrs, barDep, Issue(RunBoard(code), j, d), n, j, i);
    }
  }

  /** A branch gets past its waits only when everything before it is over: results and
      operands of any register, and every barrier is idle. */
  ghost predicate Drained(instrs: seq<Instr>, code: seq<InstrDeps>, j: nat)
    requires j < |code| <= |instrs|
  {
    var b := Stall(RunBoard(code[..j]), code[j].wtMask);
    && (forall k: nat :: k < BARS ==> b.bars[k] == {})
    && forall i: nat :: i < j && instrs[i].scoreboard ==>
         && (instrs[i].dsts != [] ==> Token(i, true) in b.done)
         && (instrs[i].srcs != [] ==> Token(i, false) in b.done || Token(i, true) in b.done)
  }

  lemma DrainedNext(g: Graph, waitsOf: map<nat, seq<nat>>, instrs: seq<Instr>, barDep: seq<Option<nat>>, code: seq<InstrDeps>, d: InstrDeps, n: nat)
    requires |code| < |instrs| && Planned(g, waitsOf, instrs) && Before(g.owner, n, |code| + 1)
    requires BarInv(g, barDep, Issue(RunBoard(code), |code|, d), n, |code| + 1)
    requires instrs[|code|].isBranch && !instrs[|code|].scoreboard && d.rdBar.None? && d.wrBar.None?
    ensures Drained(instrs, code + [d], |code|)
  {
    var j := |code|;
    var board := Stall(RunBoard(code), d.wtMask);
    assert (code + [d])[..j] == code && board == Issue(RunBoard(code), j, d);
    PastBranch(g, instrs, barDep, board, n, j);
    hide BarInv, Before, Numbered, Covered, Timely, WaitLists, WaitedBy, Branches, Stall;
    forall i: nat | i < j && instrs[i].scoreboard
      ensures instrs[i].dsts != [] ==> Token(i, true) in board.done
      ensures instrs[i].srcs != [] ==> Token(i, false) in board.done || Token(i, true) in board.done
    {
      assert FlushedPair(g, instrs, i, j);
      WaitsOver(g, instrs, barDep, board, n, j, i);
    }
  }

  /** What the emitted fields are to be at instruction `j`. */
  ghost predicate Fine(instrs: seq<Instr>, code: seq<InstrDeps>, j: nat)
    requires j < |code| <= |instrs|
  {
    && Protected(instrs, code, j) && Unshared(code, j) && Warranted(instrs, RunBoard(code[..j]), j, code[j])
    && (instrs[j].isBranch ==> Drained(instrs, code, j))
    && (!instrs[j].scoreboard ==> code[j].rdBar.None? && code[j].wrBar.None?)
  }

  lemma FineStays(instrs: seq<Instr>, code: seq<InstrDeps>, d: InstrDeps, j: nat)
    requires j < |code| < |instrs| && Fine(instrs, code, j)
    ensures Fine(instrs, code + [d], j)
  {
    assert (code + [d])[..j] == code[..j];
  }

  lemma FineNext(g: Graph, waitsOf: map<nat, seq<nat>>, instrs: seq<Instr>, barDep: seq<Option<nat>>, code: seq<InstrDeps>, d: InstrDeps, n: nat)
    requires |code| < |instrs| && Planned(g, waitsOf, instrs) && Before(g.owner, n, |code| + 1) && WellFormed(instrs)
    requires BarInv(g, barDep, Issue(RunBoard(code), |code|, d), n, |code| + 1)
    requires forall bar :: bar in d.wtMask ==> bar < BARS
    requires Clear1(Stall(RunBoard(code), d.wtMask), d.rdBar) && Clear1(Stall(RunBoard(code), d.wtMask), d.wrBar)
    requires d.rdBar.Some? ==> d.rdBar != d.wrBar
    requires !instrs[|code|].scoreboard ==> d.rdBar.None? && d.wrBar.None?
    requires Warranted(instrs, RunBoard(code), |code|, d)
    ensures Fine(instrs, code + [d], |code|)
  {
    assert (code + [d])[..|code|] == code;
    hide BarInv, Before, Planned, Stall, RunBoard, Issue, Protected, Drained, Clear1, Warranted;
    ProtectedNext(g, waitsOf, instrs, barDep, code, d, n);
    if instrs[|code|].isBranch { DrainedNext(g, waitsOf, instrs, barDep, code, d, n); }
  }

  /** `assign_barriers`: scoreboard fields under which every register hazard with
      an earlier variable-latency instruction is waited for and every branch drains
      the scoreboard, barriers being stolen and reused on the way. */
  method AssignBarriers(instrs: seq<Instr>) returns (code: seq<InstrDeps>)
    requires WellFormed(instrs)
    ensures |code| == |instrs|
    ensures forall j: nat :: j < |instrs| ==> Protected(instrs, code, j)
    ensures forall j: nat :: j < |instrs| ==> Unshared(code, j)
    ensures forall j: nat :: j < |instrs| && instrs[j].isBranch ==> Drained(instrs, code, j)
    ensures forall j: nat :: j < |instrs| ==> Warranted(instrs, RunBoard(code[..j]), j, code[j])
    ensures forall j: nat :: j < |instrs| && !instrs[j].scoreboard ==> code[j].rdBar.None? && code[j].wrBar.None?
  {
    var graph := FindWaits(instrs);
    var bars := new BarAlloc();
    code := [];
    ghost var n := 0;
    StartBars(graph, instrs, bars);
    for k := 0 to |instrs|
      invariant |code| == k && Planned(Snapshot(graph), graph.instrWaits, instrs)
      invariant BarInv(Snapshot(graph), bars.barDep, RunBoard(code), n, k) && Before(graph.owner, n, k)
      invariant forall j: nat :: j < k ==> Fine(instrs, code, j)
    {
      hide Planned, BarInv, Before, Stall, RunBoard, Issue, Clear1, Fine, WellFormed, Warranted;
      var d;
      d, n := Emit(graph, bars, k, instrs[k].scoreboard, instrs, RunBoard(code), n);
      RunNext(code, d);
      FineNext(Snapshot(graph), graph.instrWaits, instrs, bars.barDep, code, d, n);
      forall j: nat | j < k
        ensures Fine(instrs, code + [d], j)
      {
        FineStays(instrs, code, d, j);
      }
      code := code + [d];
    }
    AllFine(instrs, code);
  }

  lemma AllFine(instrs: seq<Instr>, code: seq<InstrDeps>)
    requires |code| == |instrs| && forall j: nat :: j < |code| ==> Fine(instrs, code, j)
    ensures forall j: nat :: j < |instrs| ==> Protected(instrs, code, j) && Unshared(code, j)
    ensures forall j: nat :: j < |instrs| && instrs[j].isBranch ==> Drained(instrs, code, j)
    ensures forall j: nat :: j < |instrs| ==> Warranted(instrs, RunBoard(code[..j]), j, code[j])
    ensures forall j: nat :: j < |instrs| && !instrs[j].scoreboard ==> code[j].rdBar.None? && code[j].wrBar.None?
  {
    hide Protected, Unshared, Drained, Warranted, RunBoard;
    forall j: nat | j < |instrs|
      ensures Protected(instrs, code, j) && Unshared(code, j) && (instrs[j].isBranch ==> Drained(instrs, code, j))
      ensures Warranted(instrs, RunBoard(code[..j]), j, code[j])
      ensures !instrs[j].scoreboard ==> code[j].rdBar.None? && code[j].wrBar.None?
    {
      assert Fine(instrs, code, j);
    }
  }

  lemma StartBars(graph: DepGraph, instrs: seq<Instr>, bars: BarAlloc)
    requires Planned(Snapshot(graph), graph.instrWaits, instrs) && bars.barDep == seq(BARS, k => None)
    ensures BarInv(Snapshot(graph), bars.barDep, RunBoard([]), 0, 0) && Before(graph.owner, 0, 0)
  {
  }
}
